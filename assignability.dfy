/** When a value of one type may stand where another is required
    (`typeEquals`, compile.ts:27-108) and the type of an application
    (`reduceType`, compile.ts:110-130). */
module Assignability {
  import opened Wrappers
  import opened Decimal
  import opened Types
  import opened EngineUtils
  import opened Polynomials
  import opened PolynomialEvaluation
  import opened EqualityPolynomials

  const TypeVarCompared: string := "typeEquals: typevar should not be compared"
  const StructShape: string := "structs must be of the form {name : N, name2: phi<name> }"
  const NotAFunction: string := "reduceType: [object Object] is not a function"
  const ExpectedArithmetic: string := "reduceType: expected arithmetic, got "

  /** The equality a `rung` wraps, or the tree itself otherwise. */
  function RungInner(t: TypeTree): TypeTree {
    if t.Rung? then Eq(t.eqLeft, t.eqRight) else t
  }

  /** Assignability: `any` absorbs everything, a `rung` compares as an
      equality modulo ring arithmetic, and binders compare up to renaming.
      Comparing a type variable, or a struct whose first field is not a
      number, is an error. */
  function TypeEquals(a: TypeTree, b: TypeTree): Result<bool>
    decreases a
  {
    if a.Any? || b.Any? then Ok(true)
    else if a.Rung? || b.Rung? then
      var ia, ib := RungInner(a), RungInner(b);
      if !IsEq(ia) || !IsEq(ib) then Ok(false)
      else IdentitiesEquivalent(Equation(ia.left, ia.right), Equation(ib.left, ib.right))
    else if a.Var? then Ok(b.Var? && a.name == b.name)
    else if a.TypeVar? || b.TypeVar? then Err(TypeVarCompared)
    else
      match a
      case Zero => Ok(b.Zero?)
      case Nat => Ok(b.Nat?)
      case Succ(v) => if b.Succ? then TypeEquals(v, b.value) else Ok(false)
      case Bin(op, l, r) =>
        if !(b.Bin? && b.op == op) then Ok(false)
        else
          var le :- TypeEquals(l, b.left);
          if !le then Ok(false) else TypeEquals(r, b.right)
      case Arrow(n, l, r) =>
        if !b.Arrow? then Ok(false)
        else
          var le :- TypeEquals(l, b.left);
          if !le then Ok(false)
          else if n == b.leftName then TypeEquals(r, b.right)
          else if FreeIn(n, b.right) then Ok(false)
          else
            var renamed :- RewriteType(b.right, b.leftName, Var(n));
            TypeEquals(r, renamed)
      case Struct(f0, f1) =>
        if !b.Struct? then Ok(false)
        else if !(b.first.ty.Nat? && f0.ty.Nat?) then
          Err(StructShape)
        else if f0.name == b.first.name then TypeEquals(f1.ty, b.second.ty)
        else if FreeIn(f0.name, b.second.ty) then Ok(false)
        else
          var renamed :- RewriteType(b.second.ty, b.first.name, Var(f0.name));
          TypeEquals(f1.ty, renamed)
      case Never => Ok(b.Never?)
  }

  /** `any` is assignable to and from every type. */
  lemma AnyAbsorbs(t: TypeTree)
    ensures TypeEquals(Any, t) == Ok(true)
    ensures TypeEquals(t, Any) == Ok(true)
  {
  }

  /** Comparing a type variable with anything but `any` or a rung is an
      error, on either side (a variable on the left compares as unequal). */
  lemma TypeVarRejected(a: TypeTree, b: TypeTree)
    requires a.TypeVar? || b.TypeVar?
    requires !a.Any? && !b.Any? && !a.Rung? && !b.Rung? && !a.Var?
    ensures TypeEquals(a, b).Err?
  {
  }

  /** The trees `typeEquals` can compare with themselves: no type
      variables, structs with a number first field and rungs over
      arithmetic. */
  predicate Comparable(t: TypeTree) {
    match t
    case TypeVar(_) => false
    case Succ(v) => Comparable(v)
    case Bin(_, l, r) => Comparable(l) && Comparable(r)
    case Arrow(_, l, r) => Comparable(l) && Comparable(r)
    case Struct(f0, f1) => f0.ty.Nat? && Comparable(f1.ty)
    case Rung(l, r) => IsArithmeticTree(l) && IsArithmeticTree(r)
    case _ => true
  }

  /** Every comparable type is assignable to itself. */
  lemma {:induction false} TypeEqualsReflexive(t: TypeTree)
    requires Comparable(t)
    ensures TypeEquals(t, t) == Ok(true)
  {
    match t
    case Rung(l, r) =>
      IdentitiesEquivalentReflexive(Equation(l, r));
    case Succ(v) =>
      TypeEqualsReflexive(v);
    case Bin(_, l, r) =>
      TypeEqualsReflexive(l);
      TypeEqualsReflexive(r);
    case Arrow(_, l, r) =>
      TypeEqualsReflexive(l);
      TypeEqualsReflexive(r);
    case Struct(_, f1) =>
      TypeEqualsReflexive(f1.ty);
    case _ =>
  }

  /** An equality, or a rung, whose two sides are arithmetic. */
  predicate ArithmeticEquality(t: TypeTree) {
    IsEq(RungInner(t)) && IsArithmeticTree(RungInner(t).left) && IsArithmeticTree(RungInner(t).right)
  }

  function InnerEquation(t: TypeTree): Equation {
    var i := RungInner(t);
    if i.Bin? then Equation(i.left, i.right) else Equation(Zero, Zero)
  }

  /** When a rung is involved, assignability is the ring check: the two
      "left minus right" polynomials agree coefficient by coefficient, or
      agree after negating one of them. */
  lemma RungAssignableIff(a: TypeTree, b: TypeTree)
    requires a.Rung? || b.Rung?
    requires !a.Any? && !b.Any?
    requires ArithmeticEquality(a) && ArithmeticEquality(b)
    ensures TypeEquals(a, b) == Ok(SameDifference(InnerEquation(a), InnerEquation(b))
                                   || OppositeDifference(InnerEquation(a), InnerEquation(b)))
  {
    IdentitiesEquivalentIff(InnerEquation(a), InnerEquation(b));
  }

  /** A rung is assignable only to and from equalities, and only when the
      two equalities hold in exactly the same valuations of their variables. */
  lemma RungAssignableSound(a: TypeTree, b: TypeTree, env: Env)
    requires a.Rung? || b.Rung?
    requires !a.Any? && !b.Any?
    requires TypeEquals(a, b) == Ok(true)
    ensures IsEq(RungInner(a)) && IsEq(RungInner(b))
    ensures Holds(InnerEquation(a), env) <==> Holds(InnerEquation(b), env)
  {
    RingSound(InnerEquation(a), InnerEquation(b), env);
  }

  // ---------------------------------------------------------------------
  // Renaming binders

  /** Whether a variable or type variable of this name occurs anywhere,
      binders ignored. */
  predicate Mentions(name: string, t: TypeTree) {
    match t
    case Var(n) => n == name
    case TypeVar(n) => n == name
    case Succ(v) => Mentions(name, v)
    case Bin(_, l, r) => Mentions(name, l) || Mentions(name, r)
    case Arrow(_, l, r) => Mentions(name, l) || Mentions(name, r)
    case Struct(f0, f1) => Mentions(name, f0.ty) || Mentions(name, f1.ty)
    case Rung(l, r) => Mentions(name, l) || Mentions(name, r)
    case _ => false
  }

  /** No number binder (an arrow over `N` or a struct) is named `x` or
      `y`, every struct has a number first field, and `x` is not a type
      variable. Binders under other names may nest freely. */
  predicate BindersAvoid(t: TypeTree, x: string, y: string) {
    match t
    case TypeVar(n) => n != x
    case Struct(f0, f1) => f0.ty.Nat? && f0.name != x && f0.name != y && BindersAvoid(f1.ty, x, y)
    case Succ(v) => BindersAvoid(v, x, y)
    case Bin(_, l, r) => BindersAvoid(l, x, y) && BindersAvoid(r, x, y)
    case Arrow(b, l, r) => (l.Nat? ==> b != x && b != y) && BindersAvoid(l, x, y) && BindersAvoid(r, x, y)
    case Rung(l, r) => BindersAvoid(l, x, y) && BindersAvoid(r, x, y)
    case _ => true
  }

  /** Renaming `x` to a name the tree does not mention, and back, restores
      the tree, when no binder inside is named `x` or `y`. */
  lemma {:induction false} RenameRoundTrip(t: TypeTree, x: string, y: string)
    requires BindersAvoid(t, x, y) && !Mentions(y, t)
    ensures RewriteType(t, x, Var(y)).Ok?
    ensures RewriteType(RewriteType(t, x, Var(y)).value, y, Var(x)) == Ok(t)
  {
    match t
    case Succ(v) =>
      RenameRoundTrip(v, x, y);
    case Bin(_, l, r) =>
      RenameRoundTrip(l, x, y);
      RenameRoundTrip(r, x, y);
    case Arrow(_, l, r) =>
      RenameRoundTrip(l, x, y);
      RenameRoundTrip(r, x, y);
    case Struct(_, f1) =>
      RenameRoundTrip(f1.ty, x, y);
    case Rung(l, r) =>
      RenameRoundTrip(l, x, y);
      RenameRoundTrip(r, x, y);
    case _ =>
  }

  /** The arrow case of assignability, for all arrows: the domains are
      compared first; under one binder name the codomains are compared; a
      binder of the first arrow free in the second codomain is a mismatch;
      otherwise the second codomain, renamed to the first binder, is
      compared with the first. */
  lemma ArrowAssignable(x: string, a: TypeTree, b: TypeTree, y: string, c: TypeTree, d: TypeTree)
    requires StructsWellFormed(d)
    ensures RewriteType(d, y, Var(x)).Ok?
    ensures TypeEquals(Arrow(x, a, b), Arrow(y, c, d)) == Ok(true) <==>
      TypeEquals(a, c) == Ok(true)
      && (if x == y then TypeEquals(b, d) == Ok(true)
          else !FreeIn(x, d) && TypeEquals(b, RewriteType(d, y, Var(x)).value) == Ok(true))
    ensures TypeEquals(Arrow(x, a, b), Arrow(y, c, d)) == Ok(false) <==>
      TypeEquals(a, c) == Ok(false)
      || (TypeEquals(a, c) == Ok(true)
          && (if x == y then TypeEquals(b, d) == Ok(false)
              else FreeIn(x, d) || TypeEquals(b, RewriteType(d, y, Var(x)).value) == Ok(false)))
  {
    RewriteTotal(d, y, Var(x));
  }

  /** Arrows that differ only in the name of their binder are assignable:
      `(x: D) => T` and `(y: D) => T[x := y]`. */
  lemma AlphaEquivalentArrows(x: string, y: string, dom: TypeTree, body: TypeTree)
    requires x != y
    requires Comparable(dom) && Comparable(body) && BindersAvoid(body, x, y)
    requires !Mentions(y, body)
    ensures RewriteType(body, x, Var(y)).Ok?
    ensures TypeEquals(Arrow(x, dom, body), Arrow(y, dom, RewriteType(body, x, Var(y)).value)) == Ok(true)
  {
    RenameRoundTrip(body, x, y);
    var renamed := RewriteType(body, x, Var(y)).value;
    RewriteEliminates(body, x, Var(y));
    BindersAvoidWellFormed(body, x, y);
    RewriteTotal(body, x, Var(y));
    ArrowAssignable(x, dom, body, y, dom, renamed);
    TypeEqualsReflexive(dom);
    TypeEqualsReflexive(body);
  }

  /** The reverse comparison: `(y: D) => T[x := y]` is assignable to
      `(x: D) => T` as well. */
  lemma AlphaEquivalentArrowsReverse(x: string, y: string, dom: TypeTree, body: TypeTree)
    requires x != y
    requires Comparable(dom) && Comparable(body) && BindersAvoid(body, x, y)
    requires !Mentions(y, body)
    ensures RewriteType(body, x, Var(y)).Ok?
    ensures TypeEquals(Arrow(y, dom, RewriteType(body, x, Var(y)).value), Arrow(x, dom, body)) == Ok(true)
  {
    RenameKeepsComparable(body, x, y);
    var renamed := RewriteType(body, x, Var(y)).value;
    FreeInMentions(y, body);
    BindersAvoidWellFormed(body, x, y);
    ArrowAssignable(y, dom, renamed, x, dom, body);
    TypeEqualsReflexive(dom);
    TypeEqualsReflexive(renamed);
  }

  /** A name free in a tree is mentioned in it. */
  lemma {:induction false} FreeInMentions(name: string, t: TypeTree)
    ensures FreeIn(name, t) ==> Mentions(name, t)
  {
    match t
    case Succ(v) => FreeInMentions(name, v);
    case Bin(_, l, r) =>
      FreeInMentions(name, l);
      FreeInMentions(name, r);
    case Arrow(_, l, r) =>
      FreeInMentions(name, l);
      FreeInMentions(name, r);
    case Struct(_, f1) => FreeInMentions(name, f1.ty);
    case Rung(l, r) =>
      FreeInMentions(name, l);
      FreeInMentions(name, r);
    case _ =>
  }

  /** Renaming a variable keeps an arithmetic tree arithmetic. */
  lemma {:induction false} RenameKeepsArithmetic(t: TypeTree, x: string, y: string)
    requires IsArithmeticTree(t)
    ensures RewriteType(t, x, Var(y)).Ok? && IsArithmeticTree(RewriteType(t, x, Var(y)).value)
  {
    match t
    case Succ(v) => RenameKeepsArithmetic(v, x, y);
    case Bin(_, l, r) =>
      RenameKeepsArithmetic(l, x, y);
      RenameKeepsArithmetic(r, x, y);
    case _ =>
  }

  /** Renaming `x` to `y` keeps a comparable tree comparable when no number
      binder inside is named `x` or `y`. */
  lemma {:induction false} RenameKeepsComparable(t: TypeTree, x: string, y: string)
    requires Comparable(t) && BindersAvoid(t, x, y)
    ensures RewriteType(t, x, Var(y)).Ok? && Comparable(RewriteType(t, x, Var(y)).value)
  {
    match t
    case Succ(v) => RenameKeepsComparable(v, x, y);
    case Bin(_, l, r) =>
      RenameKeepsComparable(l, x, y);
      RenameKeepsComparable(r, x, y);
    case Arrow(_, l, r) =>
      RenameKeepsComparable(l, x, y);
      RenameKeepsComparable(r, x, y);
    case Struct(_, f1) => RenameKeepsComparable(f1.ty, x, y);
    case Rung(l, r) =>
      RenameKeepsArithmetic(l, x, y);
      RenameKeepsArithmetic(r, x, y);
    case _ =>
  }

  lemma {:induction false} BindersAvoidWellFormed(t: TypeTree, x: string, y: string)
    requires BindersAvoid(t, x, y)
    ensures StructsWellFormed(t)
  {
    match t
    case Succ(v) => BindersAvoidWellFormed(v, x, y);
    case Bin(_, l, r) =>
      BindersAvoidWellFormed(l, x, y);
      BindersAvoidWellFormed(r, x, y);
    case Arrow(_, l, r) =>
      BindersAvoidWellFormed(l, x, y);
      BindersAvoidWellFormed(r, x, y);
    case Struct(_, f1) => BindersAvoidWellFormed(f1.ty, x, y);
    case Rung(l, r) =>
      BindersAvoidWellFormed(l, x, y);
      BindersAvoidWellFormed(r, x, y);
    case _ =>
  }

  /** A binder that the other arrow's codomain uses freely never matches,
      whatever the codomains. */
  lemma CaptureNotEquivalent(x: string, a: TypeTree, b: TypeTree, y: string, c: TypeTree, d: TypeTree)
    requires x != y && FreeIn(x, d) && TypeEquals(a, c).Ok?
    ensures TypeEquals(Arrow(x, a, b), Arrow(y, c, d)) == Ok(false)
  {
  }

  /** `(x: N) => x == y` is not `(y: N) => x == y`. */
  lemma CaptureExample()
    ensures TypeEquals(Arrow("x", Nat, Eq(Var("x"), Var("y"))), Arrow("y", Nat, Eq(Var("x"), Var("y")))) == Ok(false)
  {
  }

  // ---------------------------------------------------------------------
  // Application

  /** The type of applying a function of type `func` to an argument of
      type `arg`: a number argument is substituted into the codomain; any
      other argument must be assignable to the domain. */
  function ReduceType(func: TypeTree, arg: TypeTree): Result<TypeTree> {
    if !func.Arrow? then Err(NotAFunction)
    else if func.left.Nat? then
      var tagged :- MakeTagged(arg);
      if !tagged.Arithmetic? then Err(ExpectedArithmetic + Unparse(arg))
      else RewriteType(func.right, func.leftName, arg)
    else
      var ok :- TypeEquals(func.left, arg);
      if !ok then Err("type mismatch\nrequested: " + Unparse(func.left) + "\nreceived: " + Unparse(arg))
      else Ok(func.right)
  }

  lemma {:induction false} ArithmeticWellFormed(t: TypeTree)
    requires IsArithmeticTree(t)
    ensures StructsWellFormed(t)
  {
    match t
    case Succ(v) => ArithmeticWellFormed(v);
    case Bin(_, l, r) =>
      ArithmeticWellFormed(l);
      ArithmeticWellFormed(r);
    case _ =>
  }

  /** Applying a function over numbers to an arithmetic argument
      substitutes it for the binder, which is then no longer free when the
      argument does not mention it. */
  lemma ReduceDependent(x: string, body: TypeTree, arg: TypeTree)
    requires StructsWellFormed(body) && IsArithmeticTree(arg)
    ensures ReduceType(Arrow(x, Nat, body), arg).Ok?
    ensures ReduceType(Arrow(x, Nat, body), arg) == RewriteType(body, x, arg)
    ensures !FreeIn(x, arg) ==> !FreeIn(x, ReduceType(Arrow(x, Nat, body), arg).value)
  {
    ArithmeticWellFormed(arg);
    RewriteTotal(body, x, arg);
    if !FreeIn(x, arg) {
      RewriteEliminates(body, x, arg);
    }
  }

  /** A function over numbers rejects a proof argument. */
  lemma ReduceRejectsProof(x: string, body: TypeTree, arg: TypeTree)
    requires !arg.Nat? && !arg.TypeVar? && !IsArithmeticNode(arg)
    ensures ReduceType(Arrow(x, Nat, body), arg) == Err(ExpectedArithmetic + Unparse(arg))
  {
  }

  /** Applying a function over proofs checks the argument against the
      domain and yields the codomain unchanged. */
  lemma ReduceNonDependent(x: string, dom: TypeTree, body: TypeTree, arg: TypeTree)
    requires !dom.Nat?
    requires TypeEquals(dom, arg).Ok?
    ensures TypeEquals(dom, arg) == Ok(true) ==> ReduceType(Arrow(x, dom, body), arg) == Ok(body)
    ensures TypeEquals(dom, arg) == Ok(false) ==> ReduceType(Arrow(x, dom, body), arg).Err?
  {
  }

  function AddSuccType(): TypeTree {
    Arrow("x", Nat, Arrow("y", Nat, Eq(Bin(PlusOp, Var("x"), Succ(Var("y"))), Succ(Bin(PlusOp, Var("x"), Var("y"))))))
  }

  lemma AddSuccFirst(a: TypeTree)
    requires IsArithmeticTree(a) && !FreeIn("y", a)
    ensures ReduceType(AddSuccType(), a)
            == Ok(Arrow("y", Nat, Eq(Bin(PlusOp, a, Succ(Var("y"))), Succ(Bin(PlusOp, a, Var("y"))))))
  {
    ArithmeticWellFormed(a);
    RewriteTotal(a, "x", a);
  }

  lemma AddSuccSecond(a: TypeTree, b: TypeTree)
    requires IsArithmeticTree(b) && RewriteType(a, "y", b) == Ok(a)
    ensures ReduceType(Arrow("y", Nat, Eq(Bin(PlusOp, a, Succ(Var("y"))), Succ(Bin(PlusOp, a, Var("y"))))), b)
            == Ok(Eq(Bin(PlusOp, a, Succ(b)), Succ(Bin(PlusOp, a, b))))
  {
    assert RewriteType(Succ(Var("y")), "y", b) == Ok(Succ(b));
    assert RewriteType(Bin(PlusOp, a, Succ(Var("y"))), "y", b) == Ok(Bin(PlusOp, a, Succ(b)));
    assert RewriteType(Bin(PlusOp, a, Var("y")), "y", b) == Ok(Bin(PlusOp, a, b));
    assert RewriteType(Succ(Bin(PlusOp, a, Var("y"))), "y", b) == Ok(Succ(Bin(PlusOp, a, b)));
  }

  lemma {:induction false} RewriteNumeral(n: nat, x: string, to: TypeTree)
    ensures RewriteType(BigIntToSuccs(n), x, to) == Ok(BigIntToSuccs(n))
    ensures !FreeIn(x, BigIntToSuccs(n)) && IsArithmeticTree(BigIntToSuccs(n))
  {
    if n > 0 {
      RewriteNumeral(n - 1, x, to);
    }
  }

  /** `addSucc(3, 5)` has type `((3 + 6) == succ((3 + 5)))`. */
  lemma AddSuccExample()
    ensures ReduceType(AddSuccType(), BigIntToSuccs(3)).Ok?
    ensures ReduceType(ReduceType(AddSuccType(), BigIntToSuccs(3)).value, BigIntToSuccs(5)).Ok?
    ensures Unparse(ReduceType(ReduceType(AddSuccType(), BigIntToSuccs(3)).value, BigIntToSuccs(5)).value)
            == "((3 + 6) == succ((3 + 5)))"
  {
    var three, five := BigIntToSuccs(3), BigIntToSuccs(5);
    RewriteNumeral(3, "y", five);
    RewriteNumeral(5, "y", five);
    AddSuccFirst(three);
    var once := Arrow("y", Nat, Eq(Bin(PlusOp, three, Succ(Var("y"))), Succ(Bin(PlusOp, three, Var("y")))));
    assert ReduceType(AddSuccType(), three) == Ok(once);
    AddSuccSecond(three, five);
    var t := Eq(Bin(PlusOp, three, Succ(five)), Succ(Bin(PlusOp, three, five)));
    assert ReduceType(once, five) == Ok(t);
    PrintAddSucc();
  }

  lemma PrintAddSucc()
    ensures Unparse(Eq(Bin(PlusOp, BigIntToSuccs(3), Succ(BigIntToSuccs(5))), Succ(Bin(PlusOp, BigIntToSuccs(3), BigIntToSuccs(5)))))
            == "((3 + 6) == succ((3 + 5)))"
  {
    PrintThreePlusSix();
    PrintSuccThreePlusFive();
  }

  lemma PrintThreePlusFive()
    ensures Unparse(Bin(PlusOp, BigIntToSuccs(3), BigIntToSuccs(5))) == "(3 + 5)"
  {
    NumeralPrintsDecimal(3);
    NumeralPrintsDecimal(5);
    assert NatToString(3) == "3" && NatToString(5) == "5";
  }

  lemma PrintThreePlusSix()
    ensures Unparse(Bin(PlusOp, BigIntToSuccs(3), Succ(BigIntToSuccs(5)))) == "(3 + 6)"
  {
    assert Succ(BigIntToSuccs(5)) == BigIntToSuccs(6);
    NumeralPrintsDecimal(3);
    NumeralPrintsDecimal(6);
    assert NatToString(3) == "3" && NatToString(6) == "6";
  }

  lemma PrintSuccThreePlusFive()
    ensures Unparse(Succ(Bin(PlusOp, BigIntToSuccs(3), BigIntToSuccs(5)))) == "succ((3 + 5))"
  {
    PrintThreePlusFive();
  }
}
