/** Helpers over type trees (engineUtils.ts): context lookup, numerals,
    classification, printing, free variables, fresh names and
    capture-avoiding substitution. */
module EngineUtils {
  import opened Wrappers
  import opened Decimal
  import opened Types
  import opened UiTypes

  const StandaloneN: string := "Only use N as a function parameter type or in a struct"
  const TaggedTypeVar: string := "makeTagged: typevar should not be tagged"
  const StructFirstNotN: string := "unimplemented struct with first field not N"

  /** A typing context: what each name stands for. */
  type TypeContext = map<string, TaggedType>

  /** Own-property lookup in a context. */
  function RetrieveFromContext(ctx: TypeContext, key: string): Option<TaggedType> {
    if key in ctx then Some(ctx[key]) else None
  }

  /** Binding a name shadows its earlier meaning and leaves every other
      name as it was. */
  lemma RetrieveAfterBind(ctx: TypeContext, key: string, t: TaggedType, other: string)
    ensures RetrieveFromContext(ctx[key := t], key) == Some(t)
    ensures other != key ==> RetrieveFromContext(ctx[key := t], other) == RetrieveFromContext(ctx, other)
  {
  }

  /** The numeral `n` as a chain of `succ` over `0`. */
  function BigIntToSuccs(n: nat): TypeTree {
    if n == 0 then Zero else Succ(BigIntToSuccs(n - 1))
  }

  /** The number a tree spells, if it is a `succ` chain over `0`. */
  function ArithToMaybeNumber(t: TypeTree): Option<nat> {
    match t
    case Succ(v) =>
      (match ArithToMaybeNumber(v)
       case Some(k) => Some(k + 1)
       case None => None)
    case Zero => Some(0)
    case _ => None
  }

  /** A tree mentioning a variable, `+` or `*` somewhere along its spine. */
  predicate ContainsVarOrOp(t: TypeTree) {
    match t
    case Var(_) => true
    case Bin(op, _, _) => true
    case Succ(v) => ContainsVarOrOp(v)
    case _ => false
  }

  lemma {:induction false} NumeralRoundTrip(n: nat)
    ensures ArithToMaybeNumber(BigIntToSuccs(n)) == Some(n)
  {
    if n > 0 {
      NumeralRoundTrip(n - 1);
    }
  }

  /** A numeral is an arithmetic tree. */
  lemma {:induction false} NumeralIsArithmetic(n: nat)
    ensures IsArithmeticTree(BigIntToSuccs(n))
  {
    if n > 0 {
      NumeralIsArithmetic(n - 1);
    }
  }

  lemma {:induction false} NumeralOnlyFromSuccs(t: TypeTree, n: nat)
    requires ArithToMaybeNumber(t) == Some(n)
    ensures t == BigIntToSuccs(n)
  {
    if t.Succ? {
      NumeralOnlyFromSuccs(t.value, n - 1);
    }
  }

  /** On arithmetic trees, reading a number fails exactly when a variable,
      `+` or `*` occurs. */
  lemma {:induction false} NoNumberIffVarOrOp(t: TypeTree)
    requires IsArithmeticTree(t)
    ensures ArithToMaybeNumber(t).None? <==> ContainsVarOrOp(t)
  {
    if t.Succ? {
      NoNumberIffVarOrOp(t.value);
    }
  }

  /** Tags a type as an arithmetic term or a proposition; `N` and type
      variables cannot stand alone. */
  function MakeTagged(t: TypeTree): (r: Result<TaggedType>)
    ensures r.Err? <==> t.Nat? || t.TypeVar?
    ensures r.Ok? ==> (r.value.Arithmetic? || r.value.Proof?) && r.value.value == t
    ensures r.Ok? ==> (r.value.Arithmetic? <==> IsArithmeticNode(t))
  {
    match t
    case Var(_) => Ok(Arithmetic(t))
    case Zero => Ok(Arithmetic(t))
    case Succ(_) => Ok(Arithmetic(t))
    case Bin(op, _, _) =>
      if op == PlusOp || op == TimesOp then Ok(Arithmetic(t)) else Ok(Proof(t))
    case Rung(_, _) => Ok(Proof(t))
    case Never => Ok(Proof(t))
    case Any => Ok(Proof(t))
    case Arrow(_, _, _) => Ok(Proof(t))
    case Struct(_, _) => Ok(Proof(t))
    case Nat => Err(StandaloneN)
    case TypeVar(_) => Err(TaggedTypeVar)
  }

  predicate IsArithmeticTyped(t: TypeTree) {
    MakeTagged(t).Ok? && MakeTagged(t).value.Arithmetic?
  }

  // ---------------------------------------------------------------------
  // Printing

  /** Prints a possibly missing type; a missing one prints as `Any`. */
  function UnparseOpt(t: Option<TypeTree>): string {
    match t
    case None => "Any"
    case Some(t) => Unparse(t)
  }

  function UnparseField(f: Field): string {
    f.name + ": " + Unparse(f.ty)
  }

  /** The surface syntax of a type tree. */
  function Unparse(t: TypeTree): string {
    match t
    case Any => "any"
    case Arrow(n, l, r) =>
      if r.Never? && !l.Nat? then
        if l.Bin? && l.op == EqOp then "(" + Unparse(l.left) + " != " + Unparse(l.right) + ")"
        else "!( " + Unparse(l) + " )"
      else "(" + n + ": " + Unparse(l) + ") => " + Unparse(r)
    case Struct(f0, f1) => "{" + UnparseField(f0) + "; " + UnparseField(f1) + "}"
    case Var(n) => n
    case Zero => "0"
    case Succ(v) =>
      (match ArithToMaybeNumber(t)
       case Some(k) => NatToString(k)
       case None => "succ(" + Unparse(v) + ")")
    case Nat => "N"
    case Rung(l, r) => "rung<(" + Unparse(l) + " == " + Unparse(r) + ")>"
    case Never => "never"
    case TypeVar(n) => n
    case Bin(op, l, r) => "(" + Unparse(l) + " " + OpText(op) + " " + Unparse(r) + ")"
  }

  /** Numerals print in decimal. */
  lemma NumeralPrintsDecimal(n: nat)
    ensures Unparse(BigIntToSuccs(n)) == NatToString(n)
  {
    NumeralRoundTrip(n);
  }

  /** A function into `never` prints as a negation; over an equality it
      prints as a disequality. */
  lemma NegationPrints(name: string, l: TypeTree)
    requires !l.Nat?
    ensures IsEq(l) ==> Unparse(Arrow(name, l, Never)) == "(" + Unparse(l.left) + " != " + Unparse(l.right) + ")"
    ensures !IsEq(l) ==> Unparse(Arrow(name, l, Never)) == "!( " + Unparse(l) + " )"
  {
  }

  // ---------------------------------------------------------------------
  // Free variables

  /** Whether `name` occurs free in `t`. An arrow's binder shadows both its
      domain and its codomain; a struct's number field shadows the proof
      field, whose own name and the number field's type are not looked at. */
  predicate FreeIn(name: string, t: TypeTree) {
    match t
    case Var(n) => n == name
    case TypeVar(n) => n == name
    case Arrow(b, l, r) => b != name && (FreeIn(name, l) || FreeIn(name, r))
    case Struct(f0, f1) => f0.name != name && FreeIn(name, f1.ty)
    case Succ(v) => FreeIn(name, v)
    case Zero => false
    case Nat => false
    case Never => false
    case Rung(l, r) => FreeIn(name, l) || FreeIn(name, r)
    case Any => false
    case Bin(_, l, r) => FreeIn(name, l) || FreeIn(name, r)
  }

  /** The free names of a tree, defined set by set. */
  function FreeVars(t: TypeTree): set<string> {
    match t
    case Var(n) => {n}
    case TypeVar(n) => {n}
    case Arrow(b, l, r) => (FreeVars(l) + FreeVars(r)) - {b}
    case Struct(f0, f1) => FreeVars(f1.ty) - {f0.name}
    case Succ(v) => FreeVars(v)
    case Rung(l, r) => FreeVars(l) + FreeVars(r)
    case Bin(_, l, r) => FreeVars(l) + FreeVars(r)
    case _ => {}
  }

  lemma {:induction false} FreeInIffFreeVars(name: string, t: TypeTree)
    ensures FreeIn(name, t) <==> name in FreeVars(t)
  {
    match t
    case Arrow(b, l, r) =>
      FreeInIffFreeVars(name, l);
      FreeInIffFreeVars(name, r);
    case Struct(f0, f1) =>
      FreeInIffFreeVars(name, f1.ty);
    case Succ(v) =>
      FreeInIffFreeVars(name, v);
    case Rung(l, r) =>
      FreeInIffFreeVars(name, l);
      FreeInIffFreeVars(name, r);
    case Bin(_, l, r) =>
      FreeInIffFreeVars(name, l);
      FreeInIffFreeVars(name, r);
    case _ =>
  }

  /** The free type variables of a tree: the placeholders that generic
      instantiation introduces and has not yet replaced. */
  function FreeTypeVars(t: TypeTree): set<string> {
    match t
    case TypeVar(n) => {n}
    case Arrow(b, l, r) => (FreeTypeVars(l) + FreeTypeVars(r)) - {b}
    case Struct(f0, f1) => FreeTypeVars(f1.ty) - {f0.name}
    case Succ(v) => FreeTypeVars(v)
    case Rung(l, r) => FreeTypeVars(l) + FreeTypeVars(r)
    case Bin(_, l, r) => FreeTypeVars(l) + FreeTypeVars(r)
    case _ => {}
  }

  function Max(a: nat, b: nat): nat {
    if a < b then b else a
  }

  /** The length of the longest variable name in a tree. */
  function MaxNameLength(t: TypeTree): nat {
    match t
    case Var(n) => |n|
    case TypeVar(n) => |n|
    case Arrow(_, l, r) => Max(MaxNameLength(l), MaxNameLength(r))
    case Struct(_, f1) => MaxNameLength(f1.ty)
    case Succ(v) => MaxNameLength(v)
    case Rung(l, r) => Max(MaxNameLength(l), MaxNameLength(r))
    case Bin(_, l, r) => Max(MaxNameLength(l), MaxNameLength(r))
    case _ => 0
  }

  function MaxNameLengthAll(tt: seq<TypeTree>): nat {
    if tt == [] then 0 else Max(MaxNameLengthAll(tt[..|tt| - 1]), MaxNameLength(tt[|tt| - 1]))
  }

  lemma {:induction false} FreeNameIsShort(name: string, t: TypeTree)
    requires FreeIn(name, t)
    ensures |name| <= MaxNameLength(t)
  {
    match t
    case Arrow(_, l, r) =>
      if FreeIn(name, l) { FreeNameIsShort(name, l); } else { FreeNameIsShort(name, r); }
    case Struct(_, f1) =>
      FreeNameIsShort(name, f1.ty);
    case Succ(v) =>
      FreeNameIsShort(name, v);
    case Rung(l, r) =>
      if FreeIn(name, l) { FreeNameIsShort(name, l); } else { FreeNameIsShort(name, r); }
    case Bin(_, l, r) =>
      if FreeIn(name, l) { FreeNameIsShort(name, l); } else { FreeNameIsShort(name, r); }
    case _ =>
  }

  /** Whether `name` is free in some tree of the list (`tt.some(...)`). */
  predicate FreeInSome(name: string, tt: seq<TypeTree>) {
    exists k :: 0 <= k < |tt| && FreeIn(name, tt[k])
  }

  lemma {:induction false} FreeInSomeIsShort(name: string, tt: seq<TypeTree>)
    requires FreeInSome(name, tt)
    ensures |name| <= MaxNameLengthAll(tt)
  {
    var k :| 0 <= k < |tt| && FreeIn(name, tt[k]);
    FreeNameIsShort(name, tt[k]);
    if k < |tt| - 1 {
      assert tt[..|tt| - 1][k] == tt[k];
      FreeInSomeIsShort(name, tt[..|tt| - 1]);
    }
  }

  /** The `i`-th candidate name `shaved_i`. */
  function Candidate(shaved: string, i: nat): string {
    shaved + "_" + NatToString(i)
  }

  /** The first index from `i` on whose candidate is free in none of `tt`. */
  function FreshIndex(shaved: string, tt: seq<TypeTree>, i: nat): (r: nat)
    ensures r >= i
    ensures !FreeInSome(Candidate(shaved, r), tt)
    ensures forall j :: i <= j < r ==> FreeInSome(Candidate(shaved, j), tt)
    decreases Pow10(MaxNameLengthAll(tt)) - i
  {
    if !FreeInSome(Candidate(shaved, i), tt) then i
    else
      FreeInSomeIsShort(Candidate(shaved, i), tt);
      if i >= Pow10(MaxNameLengthAll(tt)) then
        NatToStringLength(i, MaxNameLengthAll(tt));
        assert false;
        i
      else
        FreshIndex(shaved, tt, i + 1)
  }

  /** The name `freeify` picks: the original name with its trailing digits
      stripped, an underscore and the least index from 2 on that is free in
      none of the trees. */
  function FreshName(s: string, tt: seq<TypeTree>): (r: string)
    ensures !FreeInSome(r, tt)
  {
    Candidate(RemoveNumberIndex(s), FreshIndex(RemoveNumberIndex(s), tt, 2))
  }

  /** The search loop of `freeify`. */
  method Freeify(s: string, tt: seq<TypeTree>) returns (r: string)
    ensures r == FreshName(s, tt)
  {
    var shaved := RemoveNumberIndex(s);
    var i := 2;
    ghost var last := FreshIndex(shaved, tt, 2);
    while true
      invariant 2 <= i <= last
      decreases last - i
    {
      var newName := Candidate(shaved, i);
      if !FreeInSome(newName, tt) {
        return newName;
      }
      i := i + 1;
    }
  }

  /** `freeify("x_2", [x_2])`: the digits are stripped before the index
      is added. */
  lemma FreshNameStripsDigits()
    ensures FreshName("x_2", [Var("x_2")]) == "x__2"
  {
    assert RemoveNumberIndex("x_2") == "x_";
    assert Candidate("x_", 2) == "x__2";
    assert !FreeInSome("x__2", [Var("x_2")]);
  }

  /** `freeify("n", [n, n_2])` skips the taken `n_2`. */
  lemma FreshNameSkipsTaken()
    ensures FreshName("n", [Var("n"), Var("n_2")]) == "n_3"
  {
    var tt := [Var("n"), Var("n_2")];
    assert RemoveNumberIndex("n") == "n";
    CandidateTaken();
    CandidateFree();
    assert FreshIndex("n", tt, 3) == 3;
  }

  lemma CandidateTaken()
    ensures Candidate("n", 2) == "n_2" && FreeInSome("n_2", [Var("n"), Var("n_2")])
  {
    assert NatToString(2) == "2";
    assert FreeIn("n_2", [Var("n"), Var("n_2")][1]);
  }

  lemma CandidateFree()
    ensures Candidate("n", 3) == "n_3" && !FreeInSome("n_3", [Var("n"), Var("n_2")])
  {
    assert NatToString(3) == "3";
    assert "n_3" != "n" && "n_3" != "n_2";
  }

  // ---------------------------------------------------------------------
  // Substitution

  function Size(t: TypeTree): nat {
    match t
    case Succ(v) => 1 + Size(v)
    case Bin(_, l, r) => 1 + Size(l) + Size(r)
    case Arrow(_, l, r) => 1 + Size(l) + Size(r)
    case Struct(f0, f1) => 1 + Size(f0.ty) + Size(f1.ty)
    case Rung(l, r) => 1 + Size(l) + Size(r)
    case _ => 1
  }

  /** Every struct in the tree has `N` as its first field's type. */
  predicate StructsWellFormed(t: TypeTree) {
    match t
    case Succ(v) => StructsWellFormed(v)
    case Bin(_, l, r) => StructsWellFormed(l) && StructsWellFormed(r)
    case Arrow(_, l, r) => StructsWellFormed(l) && StructsWellFormed(r)
    case Struct(f0, f1) => f0.ty.Nat? && StructsWellFormed(f1.ty)
    case Rung(l, r) => StructsWellFormed(l) && StructsWellFormed(r)
    case _ => true
  }

  /** Replaces the free occurrences of `from` by `to`, renaming a number
      binder that `to` would capture to a fresh name. An arrow whose domain
      is not `N` does not shadow its binder here. */
  function RewriteType(ast: TypeTree, from: string, to: TypeTree): (r: Result<TypeTree>)
    ensures to.Var? && r.Ok? ==> Size(r.value) == Size(ast)
    decreases Size(ast)
  {
    match ast
    case Var(n) => Ok(if n == from then to else ast)
    case TypeVar(n) => Ok(if n == from then to else ast)
    case Struct(f0, f1) =>
      if !f0.ty.Nat? then Err(StructFirstNotN)
      else if f0.name == from then Ok(ast)
      else if FreeIn(f0.name, to) then
        var nv := FreshName(f0.name, [to, f1.ty, Var(f1.name)]);
        var inner :- RewriteType(f1.ty, f0.name, Var(nv));
        var outer :- RewriteType(inner, from, to);
        Ok(Struct(Field(nv, Nat), Field(f1.name, outer)))
      else
        var body :- RewriteType(f1.ty, from, to);
        Ok(Struct(f0, Field(f1.name, body)))
    case Arrow(b, l, body) =>
      if l.Nat? then
        if b == from then Ok(ast)
        else if FreeIn(b, to) then
          var nv := FreshName(b, [to, body]);
          var inner :- RewriteType(body, b, Var(nv));
          var outer :- RewriteType(inner, from, to);
          Ok(Arrow(nv, Nat, outer))
        else
          var body' :- RewriteType(body, from, to);
          Ok(Arrow(b, Nat, body'))
      else
        var l' :- RewriteType(l, from, to);
        var r' :- RewriteType(body, from, to);
        Ok(Arrow(b, l', r'))
    case Bin(op, l, r) =>
      var l' :- RewriteType(l, from, to);
      var r' :- RewriteType(r, from, to);
      Ok(Bin(op, l', r'))
    case Succ(v) =>
      var v' :- RewriteType(v, from, to);
      Ok(Succ(v'))
    case Rung(l, r) =>
      var l' :- RewriteType(l, from, to);
      var r' :- RewriteType(r, from, to);
      Ok(Rung(l', r'))
    case Nat => Ok(ast)
    case Zero => Ok(ast)
    case Never => Ok(ast)
    case Any => Ok(ast)
  }

  /** After substituting for `from` a tree that does not mention it, `from`
      is no longer free. */
  lemma {:induction false} RewriteEliminates(ast: TypeTree, from: string, to: TypeTree)
    requires !FreeIn(from, to)
    requires RewriteType(ast, from, to).Ok?
    ensures !FreeIn(from, RewriteType(ast, from, to).value)
    decreases Size(ast)
  {
    match ast
    case Struct(f0, f1) =>
      if f0.name != from {
        if FreeIn(f0.name, to) {
          var nv := FreshName(f0.name, [to, f1.ty, Var(f1.name)]);
          var inner := RewriteType(f1.ty, f0.name, Var(nv)).value;
          RewriteEliminates(inner, from, to);
        } else {
          RewriteEliminates(f1.ty, from, to);
        }
      }
    case Arrow(b, l, body) =>
      if l.Nat? {
        if b != from {
          if FreeIn(b, to) {
            var nv := FreshName(b, [to, body]);
            var inner := RewriteType(body, b, Var(nv)).value;
            RewriteEliminates(inner, from, to);
          } else {
            RewriteEliminates(body, from, to);
          }
        }
      } else {
        RewriteEliminates(l, from, to);
        RewriteEliminates(body, from, to);
      }
    case Bin(_, l, r) =>
      RewriteEliminates(l, from, to);
      RewriteEliminates(r, from, to);
    case Succ(v) =>
      RewriteEliminates(v, from, to);
    case Rung(l, r) =>
      RewriteEliminates(l, from, to);
      RewriteEliminates(r, from, to);
    case _ =>
  }

  /** Substituting under a number binder never lets `to` be captured: the
      binder of the result is not free in `to`. */
  lemma RewriteAvoidsCapture(b: string, body: TypeTree, from: string, to: TypeTree)
    requires b != from
    requires RewriteType(Arrow(b, Nat, body), from, to).Ok?
    ensures RewriteType(Arrow(b, Nat, body), from, to).value.Arrow?
    ensures RewriteType(Arrow(b, Nat, body), from, to).value.left == Nat
    ensures !FreeIn(RewriteType(Arrow(b, Nat, body), from, to).value.leftName, to)
  {
    if FreeIn(b, to) {
      var nv := FreshName(b, [to, body]);
      assert !FreeIn(nv, [to, body][0]);
      assert RewriteType(Arrow(b, Nat, body), from, to).value.leftName == nv;
    }
  }

  /** The same for the number field of a struct. */
  lemma StructRewriteAvoidsCapture(f0: Field, f1: Field, from: string, to: TypeTree)
    requires f0.name != from
    requires RewriteType(Struct(f0, f1), from, to).Ok?
    ensures RewriteType(Struct(f0, f1), from, to).value.Struct?
    ensures !FreeIn(RewriteType(Struct(f0, f1), from, to).value.first.name, to)
  {
    if FreeIn(f0.name, to) {
      var nv := FreshName(f0.name, [to, f1.ty, Var(f1.name)]);
      assert !FreeIn(nv, [to, f1.ty, Var(f1.name)][0]);
      assert RewriteType(Struct(f0, f1), from, to).value.first.name == nv;
    }
  }

  /** A tree without type variables. */
  predicate TypeVarFree(t: TypeTree) {
    match t
    case TypeVar(_) => false
    case Succ(v) => TypeVarFree(v)
    case Bin(_, l, r) => TypeVarFree(l) && TypeVarFree(r)
    case Arrow(_, l, r) => TypeVarFree(l) && TypeVarFree(r)
    case Struct(f0, f1) => TypeVarFree(f0.ty) && TypeVarFree(f1.ty)
    case Rung(l, r) => TypeVarFree(l) && TypeVarFree(r)
    case _ => true
  }

  /** Substitution cannot fail when every struct is well formed, and keeps
      them well formed. */
  lemma {:induction false} RewriteTotal(ast: TypeTree, from: string, to: TypeTree)
    requires StructsWellFormed(ast) && StructsWellFormed(to)
    ensures RewriteType(ast, from, to).Ok?
    ensures StructsWellFormed(RewriteType(ast, from, to).value)
    decreases Size(ast)
  {
    match ast
    case Struct(f0, f1) =>
      if f0.name != from {
        if FreeIn(f0.name, to) {
          var nv := FreshName(f0.name, [to, f1.ty, Var(f1.name)]);
          RewriteTotal(f1.ty, f0.name, Var(nv));
          var inner := RewriteType(f1.ty, f0.name, Var(nv)).value;
          RewriteTotal(inner, from, to);
        } else {
          RewriteTotal(f1.ty, from, to);
        }
      }
    case Arrow(b, l, body) =>
      if l.Nat? {
        if b != from {
          if FreeIn(b, to) {
            var nv := FreshName(b, [to, body]);
            RewriteTotal(body, b, Var(nv));
            var inner := RewriteType(body, b, Var(nv)).value;
            RewriteTotal(inner, from, to);
          } else {
            RewriteTotal(body, from, to);
          }
        }
      } else {
        RewriteTotal(l, from, to);
        RewriteTotal(body, from, to);
      }
    case Bin(_, l, r) =>
      RewriteTotal(l, from, to);
      RewriteTotal(r, from, to);
    case Succ(v) =>
      RewriteTotal(v, from, to);
    case Rung(l, r) =>
      RewriteTotal(l, from, to);
      RewriteTotal(r, from, to);
    case _ =>
  }

  /** Substitution removes the free type variable it replaces and adds at
      most those of the substituted tree; renaming a binder adds none. */
  lemma {:induction false} RewriteFreeTypeVars(ast: TypeTree, from: string, to: TypeTree)
    requires RewriteType(ast, from, to).Ok?
    ensures FreeTypeVars(RewriteType(ast, from, to).value) <= (FreeTypeVars(ast) - {from}) + FreeTypeVars(to)
    decreases Size(ast)
  {
    match ast
    case Struct(f0, f1) =>
      if f0.name != from {
        if FreeIn(f0.name, to) {
          var nv := FreshName(f0.name, [to, f1.ty, Var(f1.name)]);
          RewriteFreeTypeVars(f1.ty, f0.name, Var(nv));
          var inner := RewriteType(f1.ty, f0.name, Var(nv)).value;
          RewriteFreeTypeVars(inner, from, to);
        } else {
          RewriteFreeTypeVars(f1.ty, from, to);
        }
      }
    case Arrow(b, l, body) =>
      if l.Nat? {
        if b != from {
          if FreeIn(b, to) {
            var nv := FreshName(b, [to, body]);
            RewriteFreeTypeVars(body, b, Var(nv));
            var inner := RewriteType(body, b, Var(nv)).value;
            RewriteFreeTypeVars(inner, from, to);
          } else {
            RewriteFreeTypeVars(body, from, to);
          }
        }
      } else {
        RewriteFreeTypeVars(l, from, to);
        RewriteFreeTypeVars(body, from, to);
      }
    case Bin(_, l, r) =>
      RewriteFreeTypeVars(l, from, to);
      RewriteFreeTypeVars(r, from, to);
    case Succ(v) =>
      RewriteFreeTypeVars(v, from, to);
    case Rung(l, r) =>
      RewriteFreeTypeVars(l, from, to);
      RewriteFreeTypeVars(r, from, to);
    case _ =>
  }

  /** Renaming a variable to itself changes nothing. */
  lemma {:induction false} RewriteIdentity(ast: TypeTree, x: string)
    requires StructsWellFormed(ast) && TypeVarFree(ast)
    ensures RewriteType(ast, x, Var(x)) == Ok(ast)
  {
    match ast
    case Struct(f0, f1) =>
      RewriteIdentity(f1.ty, x);
    case Arrow(b, l, body) =>
      RewriteIdentity(l, x);
      RewriteIdentity(body, x);
    case Bin(_, l, r) =>
      RewriteIdentity(l, x);
      RewriteIdentity(r, x);
    case Succ(v) =>
      RewriteIdentity(v, x);
    case Rung(l, r) =>
      RewriteIdentity(l, x);
      RewriteIdentity(r, x);
    case _ =>
  }

  // ---------------------------------------------------------------------
  // Diagnostics

  /** Records an error at a node's range. A node without a range is only
      logged to the console, which leaves the diagnostics unchanged. */
  function PostError(extra: seq<Info>, meta: Meta, msg: string, action: Option<ActionInfo>): (r: seq<Info>)
    ensures meta.None? ==> r == extra
    ensures meta.Some? ==> |r| == |extra| + 1 && r[..|extra|] == extra
    ensures meta.Some? ==> r[|extra|] == ErrorInfo(msg, meta.value, action)
  {
    if meta.Some? then extra + [ErrorInfo(msg, meta.value, action)] else extra
  }

  /** Posting adds at most one entry, an error, and so one more error
      exactly when the node has a range. */
  lemma PostErrorCount(extra: seq<Info>, meta: Meta, msg: string, action: Option<ActionInfo>)
    ensures ErrorCount(PostError(extra, meta, msg, action)) == ErrorCount(extra) + (if meta.Some? then 1 else 0)
  {
    if meta.Some? {
      ErrorCountAppend(extra, [ErrorInfo(msg, meta.value, action)]);
      assert ErrorCount([ErrorInfo(msg, meta.value, action)]) == 1 by {
        assert [ErrorInfo(msg, meta.value, action)][..0] == [];
      }
    }
  }
}

/** Printed forms of a few types, as compile.test.ts expects them. */
module PrintingExamples {
  import opened Types
  import opened EngineUtils

  lemma UnparseSumExample()
    ensures Unparse(Eq(Bin(PlusOp, BigIntToSuccs(1), BigIntToSuccs(1)), BigIntToSuccs(2))) == "((1 + 1) == 2)"
  {
    NumeralPrintsDecimal(1);
    NumeralPrintsDecimal(2);
    assert Unparse(Bin(PlusOp, BigIntToSuccs(1), BigIntToSuccs(1))) == "(1 + 1)";
  }

  lemma UnparseDisjunctionExample()
    ensures Unparse(Bin(OrOp, Eq(Var("x"), Var("y")), Arrow("_", Eq(Var("x"), Var("y")), Never)))
        == "((x == y) || (x != y))"
  {
    assert Unparse(Eq(Var("x"), Var("y"))) == "(x == y)";
    assert Unparse(Arrow("_", Eq(Var("x"), Var("y")), Never)) == "(x != y)";
  }
}
