/** Turning type syntax into type trees (typeAstToTypeTree.ts): names are
    looked up in the typing context, `!=` and `!` are desugared, number
    binders are scoped, arithmetic operands are checked and generic type
    synonyms are expanded. A failure is reported at the node and the node
    becomes `any`. */
module TypeResolution {
  import opened Wrappers
  import opened Decimal
  import opened Types
  import opened EngineUtils
  import opened UiTypes
  import opened Ast

  /** A resolved type and the diagnostics resolving it produced, in order.
      The source pushes them onto one shared list; here each node returns
      its own and the caller appends them after what came before. */
  datatype Resolved = Resolved(ty: TypeTree, extra: seq<Info>)

  /** The outcome of instantiating a generic, before error recovery. */
  datatype Step = Step(result: Result<TypeTree>, extra: seq<Info>)

  /** A generic body part way through instantiation, with the fresh names
      given so far to later parameters, by parameter index. */
  datatype Subst = Subst(ret: TypeTree, renames: map<nat, string>)

  const UnknownVariable: string := "typeAstToTypeTree: unknown variable [object Object]"
  const UnhandledCall: string := "typeAstToTypeTree: unhandled call [object Object]"
  const SuccNotArithmetic: string := "typeAstToTypeTree: succ argument must be arithmetic, got "
  const UnknownGeneric: string := "typeAstToTypeTree: unknown generic \"[object Object]\""
  const NotAGeneric: string := "typeAstToTypeTree: \"[object Object]\" is not a generic"
  const KindPrefix: string := "typeAstToTypeTree: can't use \""
  const KindSuffix: string := "\" kind in type context (name [object Object])"
  const StructReserved: string :=
    "The names \"left\" and \"right\" are reserved for And types. To declare an And type, use the && operator"

  /** Type syntax to a type tree. A node that fails posts its error at its
      own range and becomes `any`; the nodes around it carry on. */
  function Resolve(ast: TypeAst, ctx: TypeContext): (r: Resolved)
    decreases ast, 0
  {
    match ast
    case TIdent(id) => Recover(ast, LookupType(ctx, id.value), [])
    case TNum(n, _) => Resolved(BigIntToSuccs(n), [])
    case TArrow(name, l, r, _) =>
      var left := Resolve(l, ctx);
      var right := Resolve(r, ctx[name.value := BinderBinding(name.value, left.ty)]);
      Resolved(Arrow(name.value, left.ty, right.ty), left.extra + right.extra)
    case TBin(op, l, r, _) =>
      var left := Resolve(l, ctx);
      var right := Resolve(r, ctx);
      Recover(ast, CombineBinary(op, left.ty, right.ty), left.extra + right.extra)
    case TCall(fn, arg, _) =>
      if fn.value != "succ" then Recover(ast, Err(UnhandledCall), [])
      else
        var inside := Resolve(arg, ctx);
        Recover(ast, SuccOf(inside.ty), inside.extra)
    case TStruct(f0, f1, _) =>
      var r0 := Resolve(f0.ty, ctx);
      var r1 := Resolve(f1.ty, StructScope(ctx, f0.name.value, r0.ty));
      Recover(ast, StructOf(f0.name.value, r0.ty, f1.name.value, r1.ty), r0.extra + r1.extra)
    case TNot(v, _) =>
      var inner := Resolve(v, ctx);
      Resolved(Arrow("_", inner.ty, Never), inner.extra)
    case TGenericCall(name, args, _) =>
      match GenericHead(ctx, name.value, |args|)
      case Err(msg) => Recover(ast, Err(msg), [])
      case Ok(g) =>
        var s := InstantiateFrom(g, args, ctx, 0, Subst(g.body, map[]));
        Recover(ast, s.result, s.extra)
  }

  /** The catch around every node: a failure is posted at the node's range
      after the diagnostics of its parts, and the node becomes `any`. */
  function Recover(ast: TypeAst, result: Result<TypeTree>, extra: seq<Info>): (r: Resolved)
    ensures result.Ok? ==> r == Resolved(result.value, extra)
    ensures result.Err? ==> r.ty == Any && extra <= r.extra
    ensures result.Err? ==> ErrorCount(r.extra) == ErrorCount(extra) + (if TypeAstMeta(ast).Some? then 1 else 0)
  {
    match result
    case Ok(t) => Resolved(t, extra)
    case Err(msg) =>
      PostErrorCount(extra, TypeAstMeta(ast), msg, None);
      Resolved(Any, PostError(extra, TypeAstMeta(ast), msg, None))
  }

  /** A name in type position: `N`, `never`, or a name bound to a number or
      to a type. */
  function LookupType(ctx: TypeContext, name: string): (r: Result<TypeTree>)
    ensures r.Ok? <==> name == "N" || name == "never" || (name in ctx && (ctx[name].Arithmetic? || ctx[name].Typedef?))
    ensures r.Ok? && name != "N" && name != "never" ==> r.value == ctx[name].value
    ensures r.Err? && name !in ctx ==> r.msg == UnknownVariable
  {
    if name == "N" then Ok(Nat)
    else if name == "never" then Ok(Never)
    else
      match RetrieveFromContext(ctx, name)
      case None => Err(UnknownVariable)
      case Some(t) =>
        if t.Arithmetic? || t.Typedef? then Ok(t.value)
        else Err(KindPrefix + KindText(t) + KindSuffix)
  }

  /** Fails with `what` followed by the printed tree unless the tree is
      tagged arithmetic. */
  function ArithmeticCheck(t: TypeTree, what: string): (r: Result<TypeTree>)
    ensures r.Ok? <==> IsArithmeticTyped(t)
    ensures r.Ok? ==> r.value == t
  {
    var tag :- MakeTagged(t);
    if tag.Arithmetic? then Ok(t) else Err(what + Unparse(t))
  }

  /** `==`, `!=`, `+` and `*` over two resolved operands; `a != b` becomes
      `(_: a == b) => never`. */
  function ArithmeticBinary(op: TypeOp, l: TypeTree, r: TypeTree): (res: Result<TypeTree>)
    requires op != TOr && op != TAnd
    ensures res.Ok? <==> IsArithmeticTyped(l) && IsArithmeticTyped(r)
    ensures res.Ok? && op == TNeq ==> res.value == Arrow("_", Eq(l, r), Never)
    ensures res.Ok? && op == TEq ==> res.value == Eq(l, r)
  {
    var _ :- ArithmeticCheck(l, "left of " + TypeOpText(op) + " must be arithmetic, got ");
    var _ :- ArithmeticCheck(r, "right of " + TypeOpText(op) + " must be arithmetic, got ");
    match op
    case TNeq => Ok(Arrow("_", Eq(l, r), Never))
    case TEq => Ok(Eq(l, r))
    case TPlus => Ok(Bin(PlusOp, l, r))
    case TTimes => Ok(Bin(TimesOp, l, r))
  }

  /** `||` and `&&` take any operands; the other operators arithmetic ones. */
  function CombineBinary(op: TypeOp, l: TypeTree, r: TypeTree): (res: Result<TypeTree>)
    ensures op == TOr ==> res == Ok(Bin(OrOp, l, r))
    ensures op == TAnd ==> res == Ok(Bin(AndOp, l, r))
    ensures op != TOr && op != TAnd ==> res == ArithmeticBinary(op, l, r)
  {
    if op == TOr then Ok(Bin(OrOp, l, r))
    else if op == TAnd then Ok(Bin(AndOp, l, r))
    else ArithmeticBinary(op, l, r)
  }

  function SuccOf(t: TypeTree): (r: Result<TypeTree>)
    ensures r.Ok? <==> IsArithmeticTyped(t)
    ensures r.Ok? ==> r.value == Succ(t)
  {
    var checked :- ArithmeticCheck(t, SuccNotArithmetic);
    Ok(Succ(checked))
  }

  /** How a binder is known in the body it scopes over: a number binder as
      an arithmetic variable, any other as a proof of its type. */
  function BinderBinding(name: string, ty: TypeTree): TaggedType {
    if ty.Nat? then Arithmetic(Var(name)) else Proof(ty)
  }

  /** The context for a struct's second field: a number first field is in
      scope there. */
  function StructScope(ctx: TypeContext, name: string, ty: TypeTree): TypeContext {
    if ty.Nat? then ctx[name := Arithmetic(Var(name))] else ctx
  }

  /** A struct type, unless it uses both reserved field names. */
  function StructOf(n0: string, t0: TypeTree, n1: string, t1: TypeTree): (r: Result<TypeTree>)
    ensures r.Err? <==> (n0 == "left" || n1 == "left") && (n0 == "right" || n1 == "right")
    ensures r.Ok? ==> r.value == Struct(Field(n0, t0), Field(n1, t1))
  {
    var names := [n0, n1];
    if "left" in names && "right" in names then Err(StructReserved)
    else Ok(Struct(Field(n0, t0), Field(n1, t1)))
  }

  /** The generic a `G<...>` names, which must take `count` arguments. */
  function GenericHead(ctx: TypeContext, name: string, count: nat): (r: Result<GenericType>)
    ensures r.Ok? <==> name in ctx && ctx[name].GenericTypedef? && |ctx[name].generic.args| == count
    ensures r.Ok? ==> r.value == ctx[name].generic
  {
    match RetrieveFromContext(ctx, name)
    case None => Err(UnknownGeneric)
    case Some(tagged) =>
      if !tagged.GenericTypedef? then Err(NotAGeneric)
      else if |tagged.generic.args| != count then Err(ArityMessage(|tagged.generic.args|, count))
      else Ok(tagged.generic)
  }

  function ArityMessage(expected: nat, got: nat): string {
    "typeAstToTypeTree: generic \"[object Object]\" requires " + NatToString(expected) + " arguments, got " + NatToString(got)
  }

  // ---------------------------------------------------------------------
  // Generic instantiation

  function ConstraintText(c: Constraint): string {
    match c
    case NConstraint => "N"
    case PropConstraint => "Prop"
  }

  const ArgumentPrefix: string := "typeAstToTypeTree: generic \"[object Object]\" argument "

  /** The `i`-th argument must be arithmetic for an `N` parameter and a
      proof for a `Prop` parameter. */
  function CheckArgumentKind(param: GenericArg, i: nat, t: TypeTree): (r: Result<TypeTree>)
    ensures r.Ok? <==> MakeTagged(t).Ok? && (MakeTagged(t).value.Arithmetic? <==> param.constraint.NConstraint?)
    ensures r.Ok? ==> r.value == t
  {
    var tag :- MakeTagged(t);
    var expected := if param.constraint.NConstraint? then tag.Arithmetic? else tag.Proof?;
    if expected then Ok(t)
    else Err(ArgumentPrefix + NatToString(i) + " must be " + ConstraintText(param.constraint) + ", got " + KindText(tag))
  }

  /** The name under which parameter `j` currently occurs in the body. */
  function CurrentName(params: seq<GenericArg>, renames: map<nat, string>, j: nat): string
    requires j < |params|
  {
    if j in renames then renames[j] else params[j].name
  }

  /** Before substituting an argument, every later parameter whose current
      name is free in it is renamed to a fresh type variable. */
  function RenameLater(params: seq<GenericArg>, j: nat, provided: TypeTree, s: Subst): Result<Subst>
    decreases |params| - j
  {
    if j >= |params| then Ok(s)
    else
      var current := CurrentName(params, s.renames, j);
      if FreeIn(current, provided) then
        var newName := FreshName(current, [provided, s.ret]);
        var ret :- RewriteType(s.ret, current, TypeVar(newName));
        RenameLater(params, j + 1, provided, Subst(ret, s.renames[j := newName]))
      else RenameLater(params, j + 1, provided, s)
  }

  /** The inner loop of the instantiation, over the later parameters, in
      the corrected reading that tests each under its current name. */
  method RenameLaterLoop(params: seq<GenericArg>, i: nat, provided: TypeTree, s: Subst) returns (r: Result<Subst>)
    ensures r == RenameLater(params, i + 1, provided, s)
  {
    var ret: TypeTree, renames: map<nat, string> := s.ret, s.renames;
    var j := i + 1;
    while j < |params|
      invariant RenameLater(params, j, provided, Subst(ret, renames)) == RenameLater(params, i + 1, provided, s)
      decreases |params| - j
    {
      var current := if j in renames then renames[j] else params[j].name;
      if FreeIn(current, provided) {
        var newName := FreshName(current, [provided, ret]);
        var next := RewriteType(ret, current, TypeVar(newName));
        if next.Err? {
          return Err(next.msg);
        }
        ret, renames := next.value, renames[j := newName];
      }
      j := j + 1;
    }
    r := Ok(Subst(ret, renames));
  }

  /** Substitutes the `i`-th argument for its parameter, after renaming
      the later parameters it would capture. */
  function SubstituteArg(params: seq<GenericArg>, i: nat, provided: TypeTree, s: Subst): Result<Subst>
    requires i < |params|
  {
    var renamed :- RenameLater(params, i + 1, provided, s);
    var ret :- RewriteType(renamed.ret, CurrentName(params, renamed.renames, i), provided);
    Ok(Subst(ret, renamed.renames))
  }

  /** The instantiation loop: each argument is resolved, kind-checked and
      substituted in turn; the first failure ends it. */
  function InstantiateFrom(g: GenericType, args: seq<TypeAst>, ctx: TypeContext, i: nat, s: Subst): (r: Step)
    requires |g.args| == |args| && i <= |args|
    decreases args, |args| - i
  {
    if i == |args| then Step(Ok(s.ret), [])
    else
      var provided := Resolve(args[i], ctx);
      match CheckArgumentKind(g.args[i], i, provided.ty)
      case Err(msg) => Step(Err(msg), provided.extra)
      case Ok(_) =>
        match SubstituteArg(g.args, i, provided.ty, s)
        case Err(msg) => Step(Err(msg), provided.extra)
        case Ok(next) =>
          var rest := InstantiateFrom(g, args, ctx, i + 1, next);
          Step(rest.result, provided.extra + rest.extra)
  }

  /** Instantiation over already resolved arguments. */
  function SubstituteFrom(params: seq<GenericArg>, provided: seq<TypeTree>, i: nat, s: Subst): Result<TypeTree>
    requires |params| == |provided| && i <= |params|
    decreases |params| - i
  {
    if i == |params| then Ok(s.ret)
    else
      var next :- SubstituteArg(params, i, provided[i], s);
      SubstituteFrom(params, provided, i + 1, next)
  }

  function SubstituteAll(g: GenericType, provided: seq<TypeTree>): Result<TypeTree>
    requires |g.args| == |provided|
  {
    SubstituteFrom(g.args, provided, 0, Subst(g.body, map[]))
  }

  // ---------------------------------------------------------------------
  // The renaming loop as written

  /** The renaming loop as the source writes it: it tests and rewrites
      parameter `j` under its declared name even when an earlier argument
      has already renamed it, and records the new name anyway. */
  function RenameLaterAsWritten(params: seq<GenericArg>, j: nat, provided: TypeTree, s: Subst): Result<Subst>
    decreases |params| - j
  {
    if j >= |params| then Ok(s)
    else
      var declared := params[j].name;
      if FreeIn(declared, provided) then
        var newName := FreshName(declared, [provided, s.ret]);
        var ret :- RewriteType(s.ret, declared, TypeVar(newName));
        RenameLaterAsWritten(params, j + 1, provided, Subst(ret, s.renames[j := newName]))
      else RenameLaterAsWritten(params, j + 1, provided, s)
  }

  /** The inner loop of the instantiation as written, testing each later
      parameter under its declared name. */
  method RenameLaterLoopAsWritten(params: seq<GenericArg>, i: nat, provided: TypeTree, s: Subst) returns (r: Result<Subst>)
    ensures r == RenameLaterAsWritten(params, i + 1, provided, s)
  {
    var ret: TypeTree, renames: map<nat, string> := s.ret, s.renames;
    var j := i + 1;
    while j < |params|
      invariant RenameLaterAsWritten(params, j, provided, Subst(ret, renames)) == RenameLaterAsWritten(params, i + 1, provided, s)
      decreases |params| - j
    {
      var oldName := params[j].name;
      if FreeIn(oldName, provided) {
        var newName := FreshName(oldName, [provided, ret]);
        var next := RewriteType(ret, oldName, TypeVar(newName));
        if next.Err? {
          return Err(next.msg);
        }
        ret, renames := next.value, renames[j := newName];
      }
      j := j + 1;
    }
    r := Ok(Subst(ret, renames));
  }

  function SubstituteArgAsWritten(params: seq<GenericArg>, i: nat, provided: TypeTree, s: Subst): Result<Subst>
    requires i < |params|
  {
    var renamed :- RenameLaterAsWritten(params, i + 1, provided, s);
    var ret :- RewriteType(renamed.ret, CurrentName(params, renamed.renames, i), provided);
    Ok(Subst(ret, renamed.renames))
  }

  function SubstituteFromAsWritten(params: seq<GenericArg>, provided: seq<TypeTree>, i: nat, s: Subst): Result<TypeTree>
    requires |params| == |provided| && i <= |params|
    decreases |params| - i
  {
    if i == |params| then Ok(s.ret)
    else
      var next :- SubstituteArgAsWritten(params, i, provided[i], s);
      SubstituteFromAsWritten(params, provided, i + 1, next)
  }

  function SubstituteAllAsWritten(g: GenericType, provided: seq<TypeTree>): Result<TypeTree>
    requires |g.args| == |provided|
  {
    SubstituteFromAsWritten(g.args, provided, 0, Subst(g.body, map[]))
  }

  // ---------------------------------------------------------------------
  // The renaming loop on `type G<a extends N, b extends N, c extends N> =
  // a + b == c` instantiated as `G<c, c, 0>`

  const SumParams: seq<GenericArg> := [GenericArg("a", NConstraint), GenericArg("b", NConstraint), GenericArg("c", NConstraint)]
  const SumBody: TypeTree := Eq(Bin(PlusOp, Var("a"), Var("b")), Var("c"))
  const SumArgs: seq<TypeTree> := [Var("c"), Var("c"), Zero]
  /** The body once `c` has been substituted for `a`, with `c` renamed. */
  const SumFirst: TypeTree := Eq(Bin(PlusOp, Var("c"), Var("b")), TypeVar("c_2"))

  lemma SumFreshFirst()
    ensures FreshName("c", [Var("c"), SumBody]) == "c_2"
  {
    var tt := [Var("c"), SumBody];
    assert RemoveNumberIndex("c") == "c";
    assert NatToString(2) == "2";
    assert Candidate("c", 2) == "c_2";
    assert !FreeInSome("c_2", tt);
    assert FreshIndex("c", tt, 2) == 2;
  }

  lemma SumFreshSecond()
    ensures FreshName("c", [Var("c"), SumFirst]) == "c_3"
  {
    var tt := [Var("c"), SumFirst];
    assert RemoveNumberIndex("c") == "c";
    assert NatToString(2) == "2" && NatToString(3) == "3";
    assert Candidate("c", 2) == "c_2" && Candidate("c", 3) == "c_3";
    assert FreeIn("c_2", tt[1]);
    assert !FreeInSome("c_3", tt);
    assert FreshIndex("c", tt, 3) == 3;
  }

  /** Both readings agree on the first argument: `a := c`, renaming `c`. */
  lemma SumStepOne()
    ensures SubstituteArg(SumParams, 0, Var("c"), Subst(SumBody, map[])) == Ok(Subst(SumFirst, map[2 := "c_2"]))
    ensures SubstituteArgAsWritten(SumParams, 0, Var("c"), Subst(SumBody, map[])) == Ok(Subst(SumFirst, map[2 := "c_2"]))
  {
    SumFreshFirst();
    var renamed := Subst(Eq(Bin(PlusOp, Var("a"), Var("b")), TypeVar("c_2")), map[2 := "c_2"]);
    assert RenameLater(SumParams, 1, Var("c"), Subst(SumBody, map[])) == Ok(renamed);
    assert RenameLaterAsWritten(SumParams, 1, Var("c"), Subst(SumBody, map[])) == Ok(renamed);
  }

  /** The corrected second step: `c_2` is not free in `c`, so `b := c`
      renames nothing. */
  lemma SumStepTwo()
    ensures SubstituteArg(SumParams, 1, Var("c"), Subst(SumFirst, map[2 := "c_2"]))
         == Ok(Subst(Eq(Bin(PlusOp, Var("c"), Var("c")), TypeVar("c_2")), map[2 := "c_2"]))
  {
    assert RenameLater(SumParams, 2, Var("c"), Subst(SumFirst, map[2 := "c_2"])) == Ok(Subst(SumFirst, map[2 := "c_2"]));
  }

  /** The second step as written: the declared name `c` is free in the
      argument, so the body's `c` (the first argument) is renamed to `c_3`
      and `c_3` is recorded for the third parameter. */
  lemma SumStepTwoAsWritten()
    ensures SubstituteArgAsWritten(SumParams, 1, Var("c"), Subst(SumFirst, map[2 := "c_2"]))
         == Ok(Subst(Eq(Bin(PlusOp, TypeVar("c_3"), Var("c")), TypeVar("c_2")), map[2 := "c_3"]))
  {
    SumFreshSecond();
    var renamed := Subst(Eq(Bin(PlusOp, TypeVar("c_3"), Var("b")), TypeVar("c_2")), map[2 := "c_3"]);
    assert RewriteType(SumFirst, "c", TypeVar("c_3")) == Ok(renamed.ret);
    assert RenameLaterAsWritten(SumParams, 3, Var("c"), renamed) == Ok(renamed);
    assert map[2 := "c_2"][2 := "c_3"] == renamed.renames;
    assert RenameLaterAsWritten(SumParams, 2, Var("c"), Subst(SumFirst, map[2 := "c_2"])) == Ok(renamed);
  }

  /** The last step as written substitutes `0` for the recorded `c_3`. */
  lemma SumStepThreeAsWritten()
    ensures SubstituteFromAsWritten(SumParams, SumArgs, 2, Subst(Eq(Bin(PlusOp, TypeVar("c_3"), Var("c")), TypeVar("c_2")), map[2 := "c_3"]))
         == Ok(Eq(Bin(PlusOp, Zero, Var("c")), TypeVar("c_2")))
  {
    var s2 := Subst(Eq(Bin(PlusOp, TypeVar("c_3"), Var("c")), TypeVar("c_2")), map[2 := "c_3"]);
    var s3 := Subst(Eq(Bin(PlusOp, Zero, Var("c")), TypeVar("c_2")), map[2 := "c_3"]);
    assert CurrentName(SumParams, s2.renames, 2) == "c_3";
    assert RewriteType(s2.ret, "c_3", Zero) == Ok(s3.ret);
    assert SubstituteArgAsWritten(SumParams, 2, Zero, s2) == Ok(s3);
    assert SubstituteFromAsWritten(SumParams, SumArgs, 3, s3) == Ok(s3.ret);
  }

  /** Instantiated as written, `G<c, c, 0>` is `(0 + c) == c_2`: the zero
      lands on the first argument and the third parameter is never
      substituted. */
  lemma SumInstantiatedAsWritten()
    ensures SubstituteAllAsWritten(GenericType(SumParams, SumBody), SumArgs)
         == Ok(Eq(Bin(PlusOp, Zero, Var("c")), TypeVar("c_2")))
  {
    SumStepOne();
    SumStepTwoAsWritten();
    SumStepThreeAsWritten();
    var s1 := Subst(SumFirst, map[2 := "c_2"]);
    assert SumArgs[0] == Var("c") && SumArgs[1] == Var("c");
    assert SubstituteFromAsWritten(SumParams, SumArgs, 1, s1) == Ok(Eq(Bin(PlusOp, Zero, Var("c")), TypeVar("c_2")));
  }

  /** The corrected last step substitutes `0` for `c_2`, the third
      parameter's current name. */
  lemma SumStepThree()
    ensures SubstituteFrom(SumParams, SumArgs, 2, Subst(Eq(Bin(PlusOp, Var("c"), Var("c")), TypeVar("c_2")), map[2 := "c_2"]))
         == Ok(Eq(Bin(PlusOp, Var("c"), Var("c")), Zero))
  {
    var s2 := Subst(Eq(Bin(PlusOp, Var("c"), Var("c")), TypeVar("c_2")), map[2 := "c_2"]);
    var s3 := Subst(Eq(Bin(PlusOp, Var("c"), Var("c")), Zero), map[2 := "c_2"]);
    assert CurrentName(SumParams, s2.renames, 2) == "c_2";
    assert RewriteType(s2.ret, "c_2", Zero) == Ok(s3.ret);
    assert SubstituteArg(SumParams, 2, Zero, s2) == Ok(s3);
    assert SubstituteFrom(SumParams, SumArgs, 3, s3) == Ok(s3.ret);
  }

  /** With the current names tracked, `G<c, c, 0>` is `(c + c) == 0`. */
  lemma SumInstantiated()
    ensures SubstituteAll(GenericType(SumParams, SumBody), SumArgs) == Ok(Eq(Bin(PlusOp, Var("c"), Var("c")), Zero))
  {
    SumStepOne();
    SumStepTwo();
    SumStepThree();
    var s1 := Subst(SumFirst, map[2 := "c_2"]);
    assert SumArgs[0] == Var("c") && SumArgs[1] == Var("c");
    assert SubstituteFrom(SumParams, SumArgs, 1, s1) == Ok(Eq(Bin(PlusOp, Var("c"), Var("c")), Zero));
  }

  // ---------------------------------------------------------------------
  // Properties of resolution

  /** `l != r` resolves to what `!(l == r)` resolves to when both sides
      are arithmetic. */
  lemma NeqDesugars(l: TypeAst, r: TypeAst, m: Meta, m2: Meta, ctx: TypeContext)
    requires IsArithmeticTyped(Resolve(l, ctx).ty) && IsArithmeticTyped(Resolve(r, ctx).ty)
    ensures Resolve(TBin(TNeq, l, r, m), ctx) == Resolve(TNot(TBin(TEq, l, r, m), m2), ctx)
  {
    var lt, rt := Resolve(l, ctx).ty, Resolve(r, ctx).ty;
    var extra := Resolve(l, ctx).extra + Resolve(r, ctx).extra;
    assert ArithmeticBinary(TNeq, lt, rt) == Ok(Arrow("_", Eq(lt, rt), Never));
    assert ArithmeticBinary(TEq, lt, rt) == Ok(Eq(lt, rt));
    var eq := Resolve(TBin(TEq, l, r, m), ctx);
    assert eq == Resolved(Eq(lt, rt), extra);
    assert Resolve(TNot(TBin(TEq, l, r, m), m2), ctx) == Resolved(Arrow("_", eq.ty, Never), eq.extra);
  }

  /** Otherwise `l != r` fails at its own node and becomes `any`. */
  lemma NeqRejects(l: TypeAst, r: TypeAst, m: Meta, ctx: TypeContext)
    requires !IsArithmeticTyped(Resolve(l, ctx).ty) || !IsArithmeticTyped(Resolve(r, ctx).ty)
    ensures Resolve(TBin(TNeq, l, r, m), ctx).ty == Any
    ensures ErrorCount(Resolve(TBin(TNeq, l, r, m), ctx).extra)
         == ErrorCount(Resolve(l, ctx).extra + Resolve(r, ctx).extra) + (if m.Some? then 1 else 0)
  {
    var lt, rt := Resolve(l, ctx).ty, Resolve(r, ctx).ty;
    assert ArithmeticBinary(TNeq, lt, rt).Err?;
  }

  /** An unknown name becomes `any`, with the unknown-variable error at its
      range. */
  lemma UnknownName(id: Identifier, ctx: TypeContext)
    requires id.value != "N" && id.value != "never" && id.value !in ctx
    ensures Resolve(TIdent(id), ctx) == Resolved(Any, PostError([], id.meta, UnknownVariable, None))
  {
  }

  /** A struct using both `left` and `right` as field names is refused:
      it becomes `any`, with one more error than its fields produced. */
  lemma StructReservedNames(f0: TField, f1: TField, m: Meta, ctx: TypeContext)
    requires {f0.name.value, f1.name.value} == {"left", "right"}
    ensures Resolve(TStruct(f0, f1, m), ctx).ty == Any
    ensures ErrorCount(Resolve(TStruct(f0, f1, m), ctx).extra)
         == ErrorCount(Resolve(f0.ty, ctx).extra + Resolve(f1.ty, StructScope(ctx, f0.name.value, Resolve(f0.ty, ctx).ty)).extra)
            + (if m.Some? then 1 else 0)
  {
    assert f0.name.value in {"left", "right"} && f1.name.value in {"left", "right"};
    assert "left" in {f0.name.value, f1.name.value} && "right" in {f0.name.value, f1.name.value};
  }

  /** A generic used with the wrong number of arguments fails before any
      argument is looked at. */
  lemma GenericArity(name: Identifier, args: seq<TypeAst>, m: Meta, ctx: TypeContext)
    requires name.value in ctx && ctx[name.value].GenericTypedef?
    requires |ctx[name.value].generic.args| != |args|
    ensures Resolve(TGenericCall(name, args, m), ctx)
         == Resolved(Any, PostError([], m, ArityMessage(|ctx[name.value].generic.args|, |args|), None))
  {
  }

  /** `(x: N) => x == x`: a number binder is an arithmetic variable in its
      body. */
  lemma NumberBinderScopes(x: Identifier, n: Identifier, m1: Meta, m2: Meta, ctx: TypeContext)
    requires x.value != "N" && x.value != "never" && n.value == "N"
    ensures Resolve(TArrow(x, TIdent(n), TBin(TEq, TIdent(x), TIdent(x), m1), m2), ctx)
         == Resolved(Arrow(x.value, Nat, Eq(Var(x.value), Var(x.value))), [])
  {
    var inner := ctx[x.value := BinderBinding(x.value, Nat)];
    assert Resolve(TIdent(n), ctx) == Resolved(Nat, []);
    assert LookupType(inner, x.value) == Ok(Var(x.value));
    assert Resolve(TIdent(x), inner) == Resolved(Var(x.value), []);
    assert ArithmeticBinary(TEq, Var(x.value), Var(x.value)) == Ok(Eq(Var(x.value), Var(x.value)));
  }

  /** Type syntax built from numerals, `succ`, `+`, `*` and names bound to
      arithmetic trees. */
  predicate ArithmeticSyntax(ast: TypeAst, ctx: TypeContext) {
    match ast
    case TIdent(id) =>
      id.value != "N" && id.value != "never" && id.value in ctx
      && (ctx[id.value].Arithmetic? || ctx[id.value].Typedef?) && IsArithmeticTree(ctx[id.value].value)
    case TNum(_, _) => true
    case TBin(op, l, r, _) => (op == TPlus || op == TTimes) && ArithmeticSyntax(l, ctx) && ArithmeticSyntax(r, ctx)
    case TCall(fn, arg, _) => fn.value == "succ" && ArithmeticSyntax(arg, ctx)
    case _ => false
  }

  /** Arithmetic syntax resolves, without any diagnostic, to an arithmetic
      tree. */
  lemma {:induction false} ResolveArithmetic(ast: TypeAst, ctx: TypeContext)
    requires ArithmeticSyntax(ast, ctx)
    ensures Resolve(ast, ctx).extra == []
    ensures IsArithmeticTree(Resolve(ast, ctx).ty)
  {
    match ast
    case TIdent(id) =>
    case TNum(n, _) => NumeralIsArithmetic(n);
    case TBin(op, l, r, m) =>
      ResolveArithmetic(l, ctx);
      ResolveArithmetic(r, ctx);
      ResolveOperation(op, l, r, m, ctx);
    case TCall(fn, arg, m) =>
      ResolveArithmetic(arg, ctx);
      ResolveSucc(fn, arg, m, ctx);
  }

  /** The `+` and `*` step of `ResolveArithmetic`. */
  lemma ResolveOperation(op: TypeOp, l: TypeAst, r: TypeAst, m: Meta, ctx: TypeContext)
    requires op == TPlus || op == TTimes
    requires Resolve(l, ctx).extra == [] && IsArithmeticTree(Resolve(l, ctx).ty)
    requires Resolve(r, ctx).extra == [] && IsArithmeticTree(Resolve(r, ctx).ty)
    ensures Resolve(TBin(op, l, r, m), ctx).extra == []
    ensures IsArithmeticTree(Resolve(TBin(op, l, r, m), ctx).ty)
  {
    var lt, rt := Resolve(l, ctx).ty, Resolve(r, ctx).ty;
    assert IsArithmeticTyped(lt) && IsArithmeticTyped(rt);
    assert Resolve(TBin(op, l, r, m), ctx) == Recover(TBin(op, l, r, m), ArithmeticBinary(op, lt, rt), []);
  }

  /** The `succ` step of `ResolveArithmetic`. */
  lemma ResolveSucc(fn: Identifier, arg: TypeAst, m: Meta, ctx: TypeContext)
    requires fn.value == "succ"
    requires Resolve(arg, ctx).extra == [] && IsArithmeticTree(Resolve(arg, ctx).ty)
    ensures Resolve(TCall(fn, arg, m), ctx) == Resolved(Succ(Resolve(arg, ctx).ty), [])
  {
  }

  /** An equation between arithmetic syntax resolves, without any
      diagnostic, to the equation of the two resolved sides. */
  lemma ResolveEquation(l: TypeAst, r: TypeAst, m: Meta, ctx: TypeContext)
    requires ArithmeticSyntax(l, ctx) && ArithmeticSyntax(r, ctx)
    ensures Resolve(TBin(TEq, l, r, m), ctx) == Resolved(Eq(Resolve(l, ctx).ty, Resolve(r, ctx).ty), [])
  {
    ResolveArithmetic(l, ctx);
    ResolveArithmetic(r, ctx);
  }

  // ---------------------------------------------------------------------
  // Instantiation against substitution

  /** The arguments of a generic call, each resolved on its own. */
  function ResolvedTypes(args: seq<TypeAst>, ctx: TypeContext): (r: seq<TypeTree>)
    ensures |r| == |args|
    ensures forall k :: 0 <= k < |args| ==> r[k] == Resolve(args[k], ctx).ty
  {
    seq(|args|, k requires 0 <= k < |args| => Resolve(args[k], ctx).ty)
  }

  /** The diagnostics of the arguments from `i` on, in order. */
  function ExtrasFrom(args: seq<TypeAst>, ctx: TypeContext, i: nat): seq<Info>
    requires i <= |args|
    decreases |args| - i
  {
    if i == |args| then [] else Resolve(args[i], ctx).extra + ExtrasFrom(args, ctx, i + 1)
  }

  predicate KindsFrom(g: GenericType, args: seq<TypeAst>, ctx: TypeContext, i: nat)
    requires |g.args| == |args|
  {
    forall k :: i <= k < |args| ==> CheckArgumentKind(g.args[k], k, Resolve(args[k], ctx).ty).Ok?
  }

  /** Instantiating while resolving is substituting the resolved arguments,
      once every argument has the kind its parameter asks for; an argument
      of the wrong kind makes it fail. */
  lemma {:induction false} InstantiateAgrees(g: GenericType, args: seq<TypeAst>, ctx: TypeContext, i: nat, s: Subst)
    requires |g.args| == |args| && i <= |args|
    ensures KindsFrom(g, args, ctx, i) ==>
      InstantiateFrom(g, args, ctx, i, s).result == SubstituteFrom(g.args, ResolvedTypes(args, ctx), i, s)
    ensures !KindsFrom(g, args, ctx, i) ==> InstantiateFrom(g, args, ctx, i, s).result.Err?
    ensures InstantiateFrom(g, args, ctx, i, s).result.Ok? ==> InstantiateFrom(g, args, ctx, i, s).extra == ExtrasFrom(args, ctx, i)
    decreases |args| - i
  {
    if i < |args| {
      var provided := Resolve(args[i], ctx);
      var types := ResolvedTypes(args, ctx);
      assert types[i] == provided.ty;
      if CheckArgumentKind(g.args[i], i, provided.ty).Ok? {
        match SubstituteArg(g.args, i, provided.ty, s)
        case Err(_) =>
        case Ok(next) =>
          InstantiateAgrees(g, args, ctx, i + 1, next);
          if !KindsFrom(g, args, ctx, i) {
            var k :| i <= k < |args| && !CheckArgumentKind(g.args[k], k, Resolve(args[k], ctx).ty).Ok?;
            assert k != i;
          }
      }
    }
  }

  /** A generic call whose arguments have the right kinds resolves to the
      substitution of the resolved arguments into the body, with the
      arguments' diagnostics, or fails at the call. */
  lemma GenericCallResolves(name: Identifier, args: seq<TypeAst>, m: Meta, ctx: TypeContext)
    requires name.value in ctx && ctx[name.value].GenericTypedef?
    requires |ctx[name.value].generic.args| == |args|
    requires KindsFrom(ctx[name.value].generic, args, ctx, 0)
    ensures SubstituteAll(ctx[name.value].generic, ResolvedTypes(args, ctx)).Ok? ==>
      Resolve(TGenericCall(name, args, m), ctx)
        == Resolved(SubstituteAll(ctx[name.value].generic, ResolvedTypes(args, ctx)).value, ExtrasFrom(args, ctx, 0))
    ensures SubstituteAll(ctx[name.value].generic, ResolvedTypes(args, ctx)).Err? ==>
      Resolve(TGenericCall(name, args, m), ctx).ty == Any
  {
    var g := ctx[name.value].generic;
    InstantiateAgrees(g, args, ctx, 0, Subst(g.body, map[]));
  }

  // ---------------------------------------------------------------------
  // Instantiation against plain substitution

  /** Substituting each argument for its declared parameter name in turn,
      renaming nothing. */
  function SequentialRewrite(params: seq<GenericArg>, provided: seq<TypeTree>, i: nat, t: TypeTree): Result<TypeTree>
    requires |params| == |provided| && i <= |params|
    decreases |params| - i
  {
    if i == |params| then Ok(t)
    else
      var next :- RewriteType(t, params[i].name, provided[i]);
      SequentialRewrite(params, provided, i + 1, next)
  }

  /** No argument has the name of a later parameter free. */
  predicate NoLaterCapture(params: seq<GenericArg>, provided: seq<TypeTree>)
    requires |params| == |provided|
  {
    forall i, j :: 0 <= i < j < |params| ==> !FreeIn(params[j].name, provided[i])
  }

  lemma {:induction false} RenameLaterUnneeded(params: seq<GenericArg>, j: nat, provided: TypeTree, s: Subst)
    requires forall k :: j <= k < |params| ==> !FreeIn(params[k].name, provided)
    requires s.renames == map[]
    ensures RenameLater(params, j, provided, s) == Ok(s)
    ensures RenameLaterAsWritten(params, j, provided, s) == Ok(s)
    decreases |params| - j
  {
    if j < |params| {
      RenameLaterUnneeded(params, j + 1, provided, s);
    }
  }

  lemma {:induction false} SubstituteFromPlain(params: seq<GenericArg>, provided: seq<TypeTree>, i: nat, t: TypeTree)
    requires |params| == |provided| && i <= |params|
    requires NoLaterCapture(params, provided)
    ensures SubstituteFrom(params, provided, i, Subst(t, map[])) == SequentialRewrite(params, provided, i, t)
    ensures SubstituteFromAsWritten(params, provided, i, Subst(t, map[])) == SequentialRewrite(params, provided, i, t)
    decreases |params| - i
  {
    if i < |params| {
      RenameLaterUnneeded(params, i + 1, provided[i], Subst(t, map[]));
      assert CurrentName(params, map[], i) == params[i].name;
      match RewriteType(t, params[i].name, provided[i])
      case Err(_) =>
      case Ok(next) =>
        SubstituteFromPlain(params, provided, i + 1, next);
    }
  }

  /** When no argument has a later parameter's name free, both readings of
      the loop are plain substitution of each argument for its parameter,
      left to right. */
  lemma InstantiateWithoutCapture(g: GenericType, provided: seq<TypeTree>)
    requires |g.args| == |provided| && NoLaterCapture(g.args, provided)
    ensures SubstituteAll(g, provided) == SequentialRewrite(g.args, provided, 0, g.body)
    ensures SubstituteAllAsWritten(g, provided) == SequentialRewrite(g.args, provided, 0, g.body)
  {
    SubstituteFromPlain(g.args, provided, 0, g.body);
  }

  // ---------------------------------------------------------------------
  // Placeholders

  /** The names recorded for parameters `i` up to `n`: the placeholders
      still to be substituted. */
  function Pending(renames: map<nat, string>, i: nat, n: nat): set<string> {
    set k | k in renames && i <= k < n :: renames[k]
  }

  /** Recording a new name for parameter `j` replaces its old one among
      the pending placeholders. */
  lemma PendingUpdate(renames: map<nat, string>, i: nat, j: nat, n: nat, newName: string)
    requires i <= j < n
    ensures (Pending(renames, i, n) - (if j in renames then {renames[j]} else {})) + {newName}
            <= Pending(renames[j := newName], i, n)
  {
    var after := renames[j := newName];
    forall x | x in Pending(renames, i, n) && !(j in renames && x == renames[j])
      ensures x in Pending(after, i, n)
    {
      var k :| k in renames && i <= k < n && renames[k] == x;
      assert k != j;
      assert k in after && after[k] == x;
    }
    assert j in after && after[j] == newName;
  }

  /** Once parameter `i` is substituted, its placeholder is no longer
      pending. */
  lemma PendingAdvance(renames: map<nat, string>, i: nat, n: nat)
    ensures Pending(renames, i, n) - (if i in renames then {renames[i]} else {}) <= Pending(renames, i + 1, n)
  {
    forall x | x in Pending(renames, i, n) && !(i in renames && x == renames[i])
      ensures x in Pending(renames, i + 1, n)
    {
      var k :| k in renames && i <= k < n && renames[k] == x;
      assert k != i;
    }
  }

  lemma {:induction false} RenameLaterKeepsPending(params: seq<GenericArg>, i: nat, j: nat, provided: TypeTree, s: Subst)
    requires i < j
    requires FreeTypeVars(s.ret) <= Pending(s.renames, i, |params|)
    requires RenameLater(params, j, provided, s).Ok?
    ensures FreeTypeVars(RenameLater(params, j, provided, s).value.ret)
            <= Pending(RenameLater(params, j, provided, s).value.renames, i, |params|)
    decreases |params| - j
  {
    if j < |params| {
      var current := CurrentName(params, s.renames, j);
      if FreeIn(current, provided) {
        var newName := FreshName(current, [provided, s.ret]);
        var ret := RewriteType(s.ret, current, TypeVar(newName)).value;
        RewriteFreeTypeVars(s.ret, current, TypeVar(newName));
        PendingUpdate(s.renames, i, j, |params|, newName);
        RenameLaterKeepsPending(params, i, j + 1, provided, Subst(ret, s.renames[j := newName]));
      } else {
        RenameLaterKeepsPending(params, i, j + 1, provided, s);
      }
    }
  }

  lemma {:induction false} SubstituteFromPlaceholders(params: seq<GenericArg>, provided: seq<TypeTree>, i: nat, s: Subst)
    requires |params| == |provided| && i <= |params|
    requires forall k :: 0 <= k < |provided| ==> FreeTypeVars(provided[k]) == {}
    requires FreeTypeVars(s.ret) <= Pending(s.renames, i, |params|)
    requires SubstituteFrom(params, provided, i, s).Ok?
    ensures FreeTypeVars(SubstituteFrom(params, provided, i, s).value) == {}
    decreases |params| - i
  {
    if i == |params| {
      assert Pending(s.renames, i, |params|) == {};
    } else {
      RenameLaterKeepsPending(params, i, i + 1, provided[i], s);
      var renamed := RenameLater(params, i + 1, provided[i], s).value;
      var current := CurrentName(params, renamed.renames, i);
      RewriteFreeTypeVars(renamed.ret, current, provided[i]);
      PendingAdvance(renamed.renames, i, |params|);
      var next := SubstituteArg(params, i, provided[i], s).value;
      assert next.renames == renamed.renames;
      SubstituteFromPlaceholders(params, provided, i + 1, next);
    }
  }

  /** Tracking current names, every placeholder given to a later parameter
      is substituted in the end: from a body and arguments without type
      variables, instantiation leaves none free. */
  lemma InstantiateLeavesNoPlaceholder(g: GenericType, provided: seq<TypeTree>)
    requires |g.args| == |provided|
    requires FreeTypeVars(g.body) == {}
    requires forall k :: 0 <= k < |provided| ==> FreeTypeVars(provided[k]) == {}
    requires SubstituteAll(g, provided).Ok?
    ensures FreeTypeVars(SubstituteAll(g, provided).value) == {}
  {
    SubstituteFromPlaceholders(g.args, provided, 0, Subst(g.body, map[]));
  }

  /** As written, the same inputs can leave a placeholder behind:
      `G<c, c, 0>` keeps `c_2` free. */
  lemma SumPlaceholderLeftAsWritten()
    ensures FreeTypeVars(SumBody) == {}
    ensures forall k :: 0 <= k < |SumArgs| ==> FreeTypeVars(SumArgs[k]) == {}
    ensures SubstituteAllAsWritten(GenericType(SumParams, SumBody), SumArgs).Ok?
    ensures FreeTypeVars(SubstituteAllAsWritten(GenericType(SumParams, SumBody), SumArgs).value) == {"c_2"}
  {
    SumInstantiatedAsWritten();
    SumFreeTypeVars();
  }

  lemma SumFreeTypeVars()
    ensures FreeTypeVars(SumBody) == {}
    ensures forall k :: 0 <= k < |SumArgs| ==> FreeTypeVars(SumArgs[k]) == {}
    ensures FreeTypeVars(Eq(Bin(PlusOp, Zero, Var("c")), TypeVar("c_2"))) == {"c_2"}
  {
    assert FreeTypeVars(SumArgs[0]) == {} && FreeTypeVars(SumArgs[1]) == {} && FreeTypeVars(SumArgs[2]) == {};
  }
}
