/** `getType` of compile.ts: elaborates an expression to its type and its
    implementation, pushing diagnostics. A construct that throws is an
    `Err`; `rGetType` (here `Check`) catches it, posts it and carries on
    with the required type or `any`. Diagnostics are returned as the
    entries a call pushes, in order. */
module Elaborator {
  import opened Wrappers
  import opened Types
  import opened EngineUtils
  import opened UiTypes
  import opened Ast
  import opened Assignability
  import opened TypeResolution
  import opened Runtime
  import opened TypingRules

  datatype Typed = Typed(ty: TypeTree, impl: Impl)

  /** What `getType` gives: a type and implementation, or the message it
      throws, with the diagnostics it pushed before either. */
  datatype Elab = Elab(result: Result<Typed>, extra: seq<Info>)

  /** What `rGetType` gives: always a type and implementation. */
  datatype Checked = Checked(ty: TypeTree, impl: Impl, extra: seq<Info>)

  /** The outcome of one statement of a block. */
  datatype StmtOutcome =
    | Next(ctx: TypeContext, impls: seq<ImplStmt>, extra: seq<Info>)
    | Returned(typed: Typed, extra: seq<Info>)
    | Thrown(msg: string, ctx: TypeContext, impls: seq<ImplStmt>, extra: seq<Info>)

  function Fail(msg: string, extra: seq<Info>): Elab {
    Elab(Err(msg), extra)
  }

  function Done(ty: TypeTree, impl: Impl, extra: seq<Info>): Elab {
    Elab(Ok(Typed(ty, impl)), extra)
  }

  /** The proof token every equality elaborates to. */
  const EqImpl: Impl := IConst(VToken(EqToken))

  const CouldNotCreate: string := "couldn't create implementation: type error"
  const TypeLine: string := "type\n"
  const NotAssignableLine: string := "\nis not assignable to type\n"
  const UnknownVariableObject: string := "unknown variable [object Object]"
  const TypeInExpression: string := "can't use a type in expression context"
  const MakeSideNeedsOr: string := "makeRight/right must be ||"
  const NeverElimGenericCalled: string := "neverElim should never be called"
  const ExcludedMiddleCalled: string := "excludedMiddle is not constructively valid"
  const UnknownGeneric: string := "unkown generic"
  const NoArgumentCall: string := "no-argument call only works on built-in functions"
  const NeedsAssertion: string := " needs an assertion or a type parameter"
  const NeedsOrAssertion: string := " needs a || assertion, got "
  const SideTypeMismatch: string := " type mismatch"
  const RingArgument: string := "ring argument must be a ==, got "
  const NeverElimNeedsRequire: string := "neverElim needs require or generic argument"
  const NeverElimNeedsNever: string := "neverElim needs never"
  const NeverElimCalled: string := "runtime error: neverElim should never be called"
  const CantCallAny: string := "can't call any"
  const LeftOfCall: string := "getType: left of call must be a function. Got a "
  const DidntWantStruct: string := "didnt want a struct, wanted "
  const BadAs: string := "bad as: "
  const NotEqualSign: string := " != "
  const AsInconsistentRequire: string := "as inconsistent with require, required: "
  const CommaGotColon: string := ", got: "
  const AsInconsistentLeft: string := "as inconsistent with left"
  const GotAnyInSwitch: string := "got any in switch"
  const SwitchValueMustBeOr: string := "switch value must be ||, got "
  const StatementMustEnd: string := "statement must end in a "
  const BlockShouldEnd: string := "This block should end in a "
  const StatementGot: string := " statement, got \""
  const NeedStruct: string := "need a struct for destructuring assignment, got "
  const LowerAny: string := "any"
  const TopLevelValue: nat := 1337

  function NotAssignable(ret: TypeTree, req: TypeTree): string {
    TypeLine + Unparse(ret) + NotAssignableLine + Unparse(req)
  }

  function WrongKeyword(rm: ReturnMethod, got: string): string {
    BlockShouldEnd + ReturnMethodText(rm) + StatementGot + got + Quote
  }

  /** Blocks always end in a `return` when a value is asked of them. */
  function MethodFor(e: Expr, rm: ReturnMethod): ReturnMethod {
    if e.EBlock? && rm == Value then Return else rm
  }

  /** The checked type: the requirement when there is one, else what was
      found, or `any` when elaboration threw. */
  function CheckedType(require: Option<TypeTree>, g: Elab): TypeTree {
    if require.Some? then require.value else if g.result.Ok? then g.result.value.ty else Any
  }

  // ---------------------------------------------------------------------
  // rGetType and getType

  /** `rGetType`: elaborates, posts a thrown error or an assignability
      failure at the expression, and never fails itself. */
  function Check(e: Expr, ctx: TypeContext, require: Option<TypeTree>, rm: ReturnMethod): (c: Checked)
    decreases e, 5, 0
    ensures c.ty == CheckedType(require, GetType(e, ctx, require, rm))
    ensures GetType(e, ctx, require, rm).extra <= c.extra
    ensures |c.extra| <= |GetType(e, ctx, require, rm).extra| + 1
    ensures GetType(e, ctx, require, rm).result.Err? && ExprMeta(e).Some? ==>
              |c.extra| == |GetType(e, ctx, require, rm).extra| + 1 && IsError(c.extra[|c.extra| - 1])
    ensures GetType(e, ctx, require, rm).result.Ok? ==> c.impl == GetType(e, ctx, require, rm).result.value.impl
    ensures GetType(e, ctx, require, rm).result.Err? ==> c.impl == IFail(CouldNotCreate)
  {
    var g := GetType(e, ctx, require, rm);
    var ty := CheckedType(require, g);
    match g.result
    case Err(m) => Checked(ty, IFail(CouldNotCreate), PostError(g.extra, ExprMeta(e), m, None))
    case Ok(t) =>
      if require.None? then Checked(ty, t.impl, g.extra)
      else
        match Require(TypeEquals(t.ty, require.value), NotAssignable(t.ty, require.value))
        case None => Checked(ty, t.impl, g.extra)
        case Some(m) => Checked(ty, t.impl, PostError(g.extra, ExprMeta(e), m, None))
  }

  /** `getType`: first records what is required of the expression, then
      elaborates it. */
  function GetType(e: Expr, ctx: TypeContext, require: Option<TypeTree>, rm: ReturnMethod): (g: Elab)
    decreases e, 4, 0
    ensures |g.extra| >= 1 && g.extra[0] == Required(UnparseOpt(require), MethodFor(e, rm), ExprMeta(e))
  {
    var n := GetNode(e, ctx, require, MethodFor(e, rm));
    Elab(n.result, [Required(UnparseOpt(require), MethodFor(e, rm), ExprMeta(e))] + n.extra)
  }

  function GetNode(e: Expr, ctx: TypeContext, require: Option<TypeTree>, rm: ReturnMethod): Elab
    decreases e, 3, 0
  {
    match e
    case EIdent(_) => GetIdent(e, ctx, require)
    case ENum(n, _) => Done(BigIntToSuccs(n), IConst(VNum(n)), [])
    case ECall(_, _, _) => GetCall(e, ctx, require)
    case EGenericCall(_, _, _) => GetGenericCall(e, ctx)
    case EAnd(_, _, _) => GetAnd(e, ctx, require)
    case EStruct(_, _, _) => GetStruct(e, ctx, require)
    case EAs(_, _, _) => GetAs(e, ctx, require)
    case EDot(_, _, _) => GetDot(e, ctx, require)
    case ELambda(_, _, _, _, _) => GetLambda(e, ctx, require)
    case EFor(_, _, _, _, _, _, _) => GetFor(e, ctx, require)
    case EBlock(_, _, _) => Block(e, 0, ctx, require, rm, [], [])
    case ESwitch(sw) => SwitchType(sw, ctx, require, Break)
    case EArith(_, _, _, _) => GetArith(e, ctx)
  }

  // ---------------------------------------------------------------------
  // Names and numbers

  /** A name: `sorry` proves anything; otherwise a proof or a number in
      scope. As written, the unknown-name message prints the node itself. */
  function GetIdent(e: Expr, ctx: TypeContext, require: Option<TypeTree>): (g: Elab)
    requires e.EIdent?
    decreases e, 1, 0
    ensures e.id.value == "sorry" ==> g == Done(Any, IConst(VToken(SorryToken)), [VarHover(e.id.meta, if require.Some? then Unparse(require.value) else LowerAny)])
    ensures e.id.value != "sorry" ==> (g.result.Ok? <==> e.id.value in ctx && (ctx[e.id.value].Proof? || ctx[e.id.value].Arithmetic?))
    ensures e.id.value != "sorry" && g.result.Ok? ==> g.result.value == Typed(ctx[e.id.value].value, IVar(e.id.value))
  {
    var x := e.id.value;
    if x == "sorry" then
      Done(Any, IConst(VToken(SorryToken)), [VarHover(e.id.meta, if require.Some? then Unparse(require.value) else LowerAny)])
    else
      match RetrieveFromContext(ctx, x)
      case None => Fail(UnknownVariableObject, [])
      case Some(t) =>
        if !(t.Proof? || t.Arithmetic?) then Fail(TypeInExpression, [])
        else Done(t.value, IVar(x), [VarHover(e.id.meta, Unparse(t.value))])
  }

  // ---------------------------------------------------------------------
  // Generic built-ins: `makeLeft<A || B>`, `neverElim<T>`, `replace<P>`,
  // `excludedMiddle<T>`

  function GetGenericCall(e: Expr, ctx: TypeContext): (g: Elab)
    requires e.EGenericCall?
    decreases e, 1, 0
    ensures g.result.Ok? ==> e.name.value in {"makeLeft", "makeRight", "neverElim", "replace", "excludedMiddle"}
    ensures g.result.Ok? && e.name.value == "neverElim" ==> g.result.value.ty == Arrow("_", Never, Resolve(e.typeArg, ctx).ty)
    ensures g.result.Ok? && e.name.value == "excludedMiddle" ==>
              g.result.value.ty == Bin(OrOp, Resolve(e.typeArg, ctx).ty, Arrow("_", Resolve(e.typeArg, ctx).ty, Never))
    ensures g.result.Ok? && e.name.value == "replace" ==> ReplaceRule(e.typeArg, ctx).Ok? && g.result.value.ty == ReplaceRule(e.typeArg, ctx).value
  {
    var name := e.name.value;
    if name == "makeRight" || name == "makeLeft" then
      if !(e.typeArg.TBin? && e.typeArg.op == TOr) then Fail(MakeSideNeedsOr, [])
      else
        var side := if name == "makeRight" then RightSide else LeftSide;
        var provided := Resolve(if name == "makeRight" then e.typeArg.right else e.typeArg.left, ctx);
        var whole := Resolve(e.typeArg, ctx);
        Done(Arrow("_", provided.ty, whole.ty), ILambda("p", IInject(side, IVar("p"))), provided.extra + whole.extra)
    else if name == "neverElim" then
      var want := Resolve(e.typeArg, ctx);
      Done(Arrow("_", Never, want.ty), IFail(NeverElimGenericCalled), want.extra)
    else if name == "replace" then
      match ReplaceRule(e.typeArg, ctx)
      case Err(m) => Fail(m, [])
      case Ok(t) => Done(t, ILambda("L", ILambda("R", ILambda("eqLR", ILambda("propOfL", IVar("propOfL"))))), [])
    else if name == "excludedMiddle" then
      var a := Resolve(e.typeArg, ctx);
      Done(Bin(OrOp, a.ty, Arrow("_", a.ty, Never)), IFail(ExcludedMiddleCalled), a.extra)
    else Fail(UnknownGeneric, [])
  }

  // ---------------------------------------------------------------------
  // Calls

  predicate IsIdent(e: Expr, name: string) {
    e.EIdent? && e.id.value == name
  }

  predicate IsMethodCall(e: Expr, names: set<string>) {
    e.ECall? && e.fn.EDot? && e.fn.member.value in names
  }

  /** `f(x)(y)` where `f` is the named built-in. */
  predicate IsCurried(e: Expr, name: string) {
    e.ECall? && e.fn.ECall? && e.fn.callArg.Arg? && IsIdent(e.fn.fn, name)
  }

  /** A call: the built-ins first, in the order compile.ts tries them, then
      an ordinary application. */
  function GetCall(e: Expr, ctx: TypeContext, require: Option<TypeTree>): Elab
    requires e.ECall?
    decreases e, 2, 0
  {
    if IsMethodCall(e, {"symm", "sym"}) then GetSymm(e, ctx, require)
    else if IsMethodCall(e, {"trans"}) then GetTrans(e, ctx, require)
    else if IsMethodCall(e, {"map", "congr"}) then
      if e.callArg.EmptyCall? then Fail(EqMapNeedsArgument, []) else EqMapType(e, ctx, true)
    else if e.callArg.EmptyCall? && IsIdent(e.fn, "ring") then Done(Rung(Zero, Zero), EqImpl, [])
    else if e.callArg.EmptyCall? then Fail(NoArgumentCall, [])
    else if IsIdent(e.fn, "succ") then GetSucc(e, ctx)
    else if IsIdent(e.fn, "makeLeft") then GetMakeSide(e, ctx, require, LeftSide)
    else if IsIdent(e.fn, "makeRight") then GetMakeSide(e, ctx, require, RightSide)
    else if IsCurried(e, "eqMap") then EqMapType(e, ctx, false)
    else if IsIdent(e.fn, "ring") then GetRing(e, ctx)
    else if IsIdent(e.fn, "neverElim") then GetNeverElim(e, ctx, require)
    else if IsCurried(e, "replaceAll") then GetReplaceAll(e, ctx)
    else GetApply(e, ctx)
  }

  /** `eq.symm()`: the target is checked against the flipped requirement
      and its sides are swapped. */
  function GetSymm(e: Expr, ctx: TypeContext, require: Option<TypeTree>): (g: Elab)
    requires IsMethodCall(e, {"symm", "sym"})
    decreases e, 1, 0
    ensures g.result.Ok? ==> e.callArg.EmptyCall?
    ensures g.result.Ok? ==>
              var t := Check(e.fn.target, ctx, SymmRequire(require), Value).ty;
              IsEq(t) && g.result.value == Typed(Eq(t.right, t.left), EqImpl)
  {
    if !e.callArg.EmptyCall? then Fail(SymmTakesNoArguments, [])
    else
      var c := Check(e.fn.target, ctx, SymmRequire(require), Value);
      match SymmRule(c.ty)
      case Err(m) => Fail(m, c.extra)
      case Ok(t) => Done(t, EqImpl, c.extra)
  }

  /** `eq1.trans(eq2)`: both must be equalities that chain, or the
      argument a `rung` proving the missing link. */
  function GetTrans(e: Expr, ctx: TypeContext, require: Option<TypeTree>): (g: Elab)
    requires IsMethodCall(e, {"trans"})
    decreases e, 1, 0
    ensures g.result.Ok? ==> IsEq(Check(e.fn.target, ctx, None, Value).ty) && e.callArg.Arg?
    ensures g.result.Ok? ==> g.result.value.impl == EqImpl
    ensures g.result.Ok? && require.None? ==>
              IsEq(g.result.value.ty) && IsEq(Check(e.fn.target, ctx, None, Value).ty)
              && g.result.value.ty.left == Check(e.fn.target, ctx, None, Value).ty.left
  {
    var l := Check(e.fn.target, ctx, None, Value);
    if !IsEq(l.ty) then Fail(TransNotEquality(l.ty), l.extra)
    else if e.callArg.EmptyCall? then Fail(TransNeedsArgument, l.extra)
    else
      match TransRequire(require, l.ty)
      case Err(m) => Fail(m, l.extra)
      case Ok(rq) =>
        var r := Check(e.callArg.arg, ctx, rq, Value);
        match TransRule(l.ty, r.ty, require)
        case Err(m) => Fail(m, l.extra + r.extra)
        case Ok(t) => Done(t, EqImpl, l.extra + r.extra)
  }

  /** The function mapped by `eq.map(f)` (`viaDot`) or `eqMap(f)(eq)`, and
      the equality it maps. */
  function MapFunctionOf(e: Expr, viaDot: bool): Expr
    requires viaDot ==> e.ECall? && e.fn.EDot? && e.callArg.Arg?
    requires !viaDot ==> IsCurried(e, "eqMap") && e.callArg.Arg?
  {
    if viaDot then e.callArg.arg else e.fn.callArg.arg
  }

  function MappedEqualityOf(e: Expr, viaDot: bool): Expr
    requires viaDot ==> e.ECall? && e.fn.EDot? && e.callArg.Arg?
    requires !viaDot ==> IsCurried(e, "eqMap") && e.callArg.Arg?
  {
    if viaDot then e.fn.target else e.callArg.arg
  }

  /** `getEqMapType`: `succ` maps as `(x: N) => succ(x)`; any other
      function must map numbers to arithmetic terms. */
  function EqMapType(e: Expr, ctx: TypeContext, viaDot: bool): (g: Elab)
    requires viaDot ==> e.ECall? && e.fn.EDot? && e.callArg.Arg?
    requires !viaDot ==> IsCurried(e, "eqMap") && e.callArg.Arg?
    decreases e, 1, 0
    ensures g.result.Ok? ==> IsEq(g.result.value.ty) && g.result.value.impl == EqImpl
    ensures IsIdent(MapFunctionOf(e, viaDot), "succ") && g.result.Ok? ==>
              var eq := Check(MappedEqualityOf(e, viaDot), ctx, None, Value).ty;
              IsEq(eq) && EqMapRule(SuccMap, eq).Ok? && g.result.value.ty == EqMapRule(SuccMap, eq).value
  {
    var mapf := if viaDot then e.callArg.arg else e.fn.callArg.arg;
    var eqAst := if viaDot then e.fn.target else e.callArg.arg;
    var f := if IsIdent(mapf, "succ") then Checked(SuccMap, EqImpl, []) else Check(mapf, ctx, None, Value);
    var bad := if IsIdent(mapf, "succ") then None else EqMapFunction(f.ty);
    if bad.Some? then Fail(bad.value, f.extra)
    else
      var eq := Check(eqAst, ctx, None, Value);
      match EqMapRule(f.ty, eq.ty)
      case Err(m) => Fail(m, f.extra + eq.extra)
      case Ok(t) => Done(t, EqImpl, f.extra + eq.extra)
  }

  /** `succ(n)`: the argument must be arithmetic. */
  function GetSucc(e: Expr, ctx: TypeContext): (g: Elab)
    requires e.ECall? && e.callArg.Arg?
    decreases e, 1, 0
    ensures g.result.Ok? <==> IsArithmeticTyped(Check(e.callArg.arg, ctx, None, Value).ty)
    ensures g.result.Ok? ==>
              g.result.value == Typed(Succ(Check(e.callArg.arg, ctx, None, Value).ty), ISucc(Check(e.callArg.arg, ctx, None, Value).impl))
  {
    var a := Check(e.callArg.arg, ctx, None, Value);
    match SuccRule(a.ty)
    case Err(m) => Fail(m, a.extra)
    case Ok(t) => Done(t, ISucc(a.impl), a.extra)
  }

  /** `makeLeft(x)`, `makeRight(x)`: needs a required disjunction, whose
      side the argument proves. */
  function GetMakeSide(e: Expr, ctx: TypeContext, require: Option<TypeTree>, side: Side): (g: Elab)
    requires e.ECall? && e.callArg.Arg?
    decreases e, 1, 0
    ensures g.result.Ok? ==> require.Some? && IsOr(require.value) && g.result.value.ty == require.value
    ensures g.result.Ok? ==> g.result.value.impl.IInject? && g.result.value.impl.side == side
    ensures require.None? ==> g == Fail((if side == LeftSide then "makeLeft" else "makeRight") + NeedsAssertion, [])
  {
    var name := if side == LeftSide then "makeLeft" else "makeRight";
    if require.None? then Fail((if side == LeftSide then "makeLeft" else "makeRight") + NeedsAssertion, [])
    else if !IsOr(require.value) then Fail(name + NeedsOrAssertion + TypeTag(require.value), [])
    else
      var want := if side == LeftSide then require.value.left else require.value.right;
      var a := Check(e.callArg.arg, ctx, Some(want), Value);
      match Require(TypeEquals(a.ty, want), name + SideTypeMismatch)
      case Some(m) => Fail(m, a.extra)
      case None => Done(require.value, IInject(side, a.impl), a.extra)
  }

  /** `ring(eq)`: marks an equality to be compared modulo ring laws. */
  function GetRing(e: Expr, ctx: TypeContext): (g: Elab)
    requires e.ECall? && e.callArg.Arg?
    decreases e, 1, 0
    ensures var t := Check(e.callArg.arg, ctx, None, Value).ty;
            g.result.Ok? <==> t.Any? || IsEq(t)
    ensures var t := Check(e.callArg.arg, ctx, None, Value).ty;
            g.result.Ok? && IsEq(t) ==> g.result.value.ty == Rung(t.left, t.right)
  {
    var a := Check(e.callArg.arg, ctx, None, Value);
    if a.ty.Any? then Done(Any, EqImpl, a.extra)
    else if !IsEq(a.ty) then Fail(RingArgument + Unparse(a.ty), a.extra)
    else Done(Rung(a.ty.left, a.ty.right), a.impl, a.extra)
  }

  /** `neverElim(x)`: from a proof of `never`, anything that is required. */
  function GetNeverElim(e: Expr, ctx: TypeContext, require: Option<TypeTree>): (g: Elab)
    requires e.ECall? && e.callArg.Arg?
    decreases e, 1, 0
    ensures require.None? ==> g == Fail(NeverElimNeedsRequire, [])
    ensures g.result.Ok? ==> g.result.value == Typed(require.value, IFail(NeverElimCalled))
  {
    if require.None? then Fail(NeverElimNeedsRequire, [])
    else
      var a := Check(e.callArg.arg, ctx, Some(Never), Value);
      match Require(TypeEquals(a.ty, Never), NeverElimNeedsNever)
      case Some(m) => Fail(m, a.extra)
      case None => Done(require.value, IFail(NeverElimCalled), a.extra)
  }

  /** `replaceAll(p)(x == t)`: rewrites `x` to `t` in the type of `p`. */
  function GetReplaceAll(e: Expr, ctx: TypeContext): (g: Elab)
    requires IsCurried(e, "replaceAll") && e.callArg.Arg?
    decreases e, 1, 0
    ensures var eq := Check(e.callArg.arg, ctx, None, Value).ty;
            g.result.Ok? ==> IsEq(eq) && eq.left.Var?
    ensures var eq := Check(e.callArg.arg, ctx, None, Value).ty;
            var p := Check(e.fn.callArg.arg, ctx, None, Value);
            g.result.Ok? ==> IsEq(eq) && eq.left.Var? && RewriteType(p.ty, eq.left.name, eq.right).Ok?
                             && g.result.value == Typed(RewriteType(p.ty, eq.left.name, eq.right).value, p.impl)
  {
    var eq := Check(e.callArg.arg, ctx, None, Value);
    if !IsEq(eq.ty) then Fail(ReplaceAllNeedsEquality, eq.extra)
    else if !eq.ty.left.Var? then Fail(ReplaceAllLeftNotVar, eq.extra)
    else
      var p := Check(e.fn.callArg.arg, ctx, None, Value);
      match RewriteType(p.ty, eq.ty.left.name, eq.ty.right)
      case Err(m) => Fail(m, eq.extra + p.extra)
      case Ok(t) => Done(t, p.impl, eq.extra + p.extra)
  }

  /** An ordinary call: the callee is a function, a proof argument is
      checked against its domain, and the type is the application's. */
  function GetApply(e: Expr, ctx: TypeContext): (g: Elab)
    requires e.ECall? && e.callArg.Arg?
    decreases e, 1, 0
    ensures var f := Check(e.fn, ctx, None, Value).ty;
            g.result.Ok? ==> f.Any? || f.Arrow?
    ensures var f := Check(e.fn, ctx, None, Value).ty;
            g.result.Ok? && f.Arrow? ==>
              var a := Check(e.callArg.arg, ctx, if f.left.Nat? then None else Some(f.left), Value);
              ReduceType(f, a.ty).Ok? && g.result.value.ty == ReduceType(f, a.ty).value
  {
    var f := Check(e.fn, ctx, None, Value);
    if f.ty.Any? then Done(Any, IFail(CantCallAny), f.extra)
    else if !f.ty.Arrow? then Fail(LeftOfCall + Unparse(f.ty), f.extra)
    else
      var a := Check(e.callArg.arg, ctx, if f.ty.left.Nat? then None else Some(f.ty.left), Value);
      match ReduceType(f.ty, a.ty)
      case Err(m) => Fail(m, f.extra + a.extra)
      case Ok(t) => Done(t, IApply(f.impl, a.impl), f.extra + a.extra)
  }

  // ---------------------------------------------------------------------
  // Functions

  function ResolveOpt(t: Option<TypeAst>, ctx: TypeContext): (r: Option<Resolved>)
    ensures r.Some? <==> t.Some?
  {
    if t.Some? then Some(Resolve(t.value, ctx)) else None
  }

  function TypeOfOpt(r: Option<Resolved>): Option<TypeTree> {
    if r.Some? then Some(r.value.ty) else None
  }

  function ExtraOfOpt(r: Option<Resolved>): seq<Info> {
    if r.Some? then r.value.extra else []
  }

  /** The type a parameter is bound to: a number parameter is the variable
      itself. */
  function ParamType(x: string, left: TypeTree): TypeTree {
    if left.Nat? then Var(x) else left
  }

  /** `(x: T): A => body`. */
  function GetLambda(e: Expr, ctx: TypeContext, require: Option<TypeTree>): (g: Elab)
    requires e.ELambda?
    decreases e, 1, 0
    ensures g.result.Ok? ==> g.result.value.ty.Arrow? && g.result.value.ty.leftName == e.param.value
    ensures g.result.Ok? ==> g.result.value.impl.ILambda? && g.result.value.impl.param == e.param.value
    ensures g.result.Ok? ==> LambdaRequire(require, TypeOfOpt(ResolveOpt(e.paramType, ctx)), e.param.value).Ok?
    ensures g.result.Ok? ==> g.result.value.ty.left == LambdaRequire(require, TypeOfOpt(ResolveOpt(e.paramType, ctx)), e.param.value).value.left
    ensures require.None? && e.paramType.None? ==> g == Fail(Unconstrained, [])
  {
    var x := e.param.value;
    var declared := ResolveOpt(e.paramType, ctx);
    match LambdaRequire(require, TypeOfOpt(declared), x)
    case Err(m) => Fail(m, ExtraOfOpt(declared))
    case Ok(head) => LambdaBody(e, ctx, head, ExtraOfOpt(declared))
  }

  /** The rest of a lambda once its parameter type is known. */
  function LambdaBody(e: Expr, ctx: TypeContext, head: LambdaHead, extra: seq<Info>): (g: Elab)
    requires e.ELambda?
    decreases e, 0, 0
    ensures g.result.Ok? ==> g.result.value.ty.Arrow? && g.result.value.ty.leftName == e.param.value && g.result.value.ty.left == head.left
    ensures g.result.Ok? ==> g.result.value.impl.ILambda? && g.result.value.impl.param == e.param.value
  {
    var x := e.param.value;
    var assnCtx := if head.left.Nat? then ctx[x := Arithmetic(Var(x))] else ctx;
    var assn := ResolveOpt(e.assertion, assnCtx);
    var ex := extra + ExtraOfOpt(assn);
    match AssertionCheck(head.rightRequire, TypeOfOpt(assn))
    case Err(m) => Fail(m, ex)
    case Ok(rr) =>
      var lt := ParamType(x, head.left);
      var ex2 := ex + [VarDefined(Unparse(lt), x, ExprMeta(e.body)), VarHover(e.param.meta, Unparse(lt))];
      match MakeTagged(lt)
      case Err(m) => Fail(m, ex2)
      case Ok(tag) =>
        var b := Check(e.body, ctx[x := tag], rr, if e.body.EBlock? then Return else Value);
        var bad := if rr.Some? then Require(TypeEquals(b.ty, rr.value), BreaksRequirement(b.ty, rr.value)) else None;
        if bad.Some? then Fail(bad.value, ex2 + b.extra)
        else Done(Arrow(x, head.left, b.ty), ILambda(x, b.impl), ex2 + b.extra)
  }

  // ---------------------------------------------------------------------
  // Witnesses, conjunctions, annotations, projections

  /** The proof of a witness, without its `as`. */
  function ProofCode(e: Expr): Expr
    requires e.EStruct?
  {
    if e.proofField.value.EAs? then e.proofField.value.value else e.proofField.value
  }

  /** `{n: v, p: proof as P}`: the proof must prove `P` at `n = v`; the
      type binds the number field. */
  function GetStruct(e: Expr, ctx: TypeContext, require: Option<TypeTree>): (g: Elab)
    requires e.EStruct?
    decreases e, 1, 0
    ensures g.result.Ok? ==> g.result.value.ty.Struct?
    ensures g.result.Ok? ==> g.result.value.ty.first == Field(e.valueField.name.value, Nat)
    ensures g.result.Ok? ==> g.result.value.ty.second.name == e.proofField.name.value
    ensures g.result.Ok? && require.Some? ==> (require.value.Struct? && require.value.first.name == e.valueField.name.value
              && require.value.second.name == e.proofField.name.value)
    ensures g.result.Ok? ==> g.result.value.impl.IExists?
  {
    if require.Some? && !require.value.Struct? then Fail(DidntWantStruct + Unparse(require.value), [])
    else
      var vn := e.valueField.name.value;
      var pn := e.proofField.name.value;
      var v := Check(e.valueField.value, ctx, None, Value);
      match StructFieldsRequire(require, vn, pn)
      case Err(m) => Fail(m, v.extra)
      case Ok(outer) =>
        var asserted := if e.proofField.value.EAs? then Some(Resolve(e.proofField.value.asType, ctx[vn := Arithmetic(Var(vn))])) else None;
        var ex := v.extra + ExtraOfOpt(asserted);
        match StructAssertion(outer, TypeOfOpt(asserted))
        case Err(m) => Fail(m, ex)
        case Ok(pa) =>
          match RewriteType(pa, vn, v.ty)
          case Err(m) => Fail(m, ex)
          case Ok(pav) =>
            var p := Check(ProofCode(e), ctx, Some(pav), Value);
            match Require(TypeEquals(p.ty, pav), BadAs + Unparse(p.ty) + NotEqualSign + Unparse(pav))
            case Some(m) => Fail(m, ex + p.extra)
            case None => Done(Struct(Field(vn, Nat), Field(pn, pa)), IExists(v.impl, p.impl), ex + p.extra)
  }

  function LeftPart(t: Option<TypeTree>): Option<TypeTree>
    requires t.Some? ==> t.value.Bin?
  {
    if t.Some? then Some(t.value.left) else None
  }

  function RightPart(t: Option<TypeTree>): Option<TypeTree>
    requires t.Some? ==> t.value.Bin?
  {
    if t.Some? then Some(t.value.right) else None
  }

  /** `a && b`: each side against its part of a required conjunction. */
  function GetAnd(e: Expr, ctx: TypeContext, require: Option<TypeTree>): (g: Elab)
    requires e.EAnd?
    decreases e, 1, 0
    ensures g.result.Ok? <==> require.None? || IsAnd(require.value)
    ensures g.result.Ok? ==> g.result.value.ty == Bin(AndOp, Check(e.left, ctx, LeftPart(require), Value).ty, Check(e.right, ctx, RightPart(require), Value).ty)
    ensures g.result.Ok? && require.Some? ==> g.result.value.ty == require.value
  {
    if require.Some? && !IsAnd(require.value) then Fail(DidntWantAnd, [])
    else
      var l := Check(e.left, ctx, LeftPart(require), Value);
      var r := Check(e.right, ctx, RightPart(require), Value);
      Done(Bin(AndOp, l.ty, r.ty), IPair(l.impl, r.impl), l.extra + r.extra)
  }

  /** `e as T`: the annotation must agree with a requirement and is then
      what `e` is checked against. */
  function GetAs(e: Expr, ctx: TypeContext, require: Option<TypeTree>): (g: Elab)
    requires e.EAs?
    decreases e, 1, 0
    ensures g.result.Ok? ==> g.result.value.ty == Resolve(e.asType, ctx).ty
    ensures g.result.Ok? && require.Some? ==> TypeEquals(require.value, Resolve(e.asType, ctx).ty) == Ok(true)
    ensures g.result.Ok? ==> g.result.value.impl == Check(e.value, ctx, Some(Resolve(e.asType, ctx).ty), Value).impl
  {
    var a := Resolve(e.asType, ctx);
    var bad := if require.Some? then Require(TypeEquals(require.value, a.ty), AsInconsistentRequire + Unparse(require.value) + CommaGotColon + Unparse(a.ty)) else None;
    if bad.Some? then Fail(bad.value, a.extra)
    else
      var l := Check(e.value, ctx, Some(a.ty), Value);
      match Require(TypeEquals(l.ty, a.ty), AsInconsistentLeft)
      case Some(m) => Fail(m, a.extra + l.extra)
      case None => Done(a.ty, l.impl, a.extra + l.extra)
  }

  /** `pair.left`, `pair.right`. */
  function GetDot(e: Expr, ctx: TypeContext, require: Option<TypeTree>): (g: Elab)
    requires e.EDot?
    decreases e, 1, 0
    ensures g.result.Ok? ==> DotRule(Check(e.target, ctx, None, Value).ty, e.member.value, require) == Ok(g.result.value.ty)
    ensures g.result.Ok? ==> g.result.value.impl == IProject(if e.member.value == "left" then LeftSide else RightSide, Check(e.target, ctx, None, Value).impl)
  {
    var t := Check(e.target, ctx, None, Value);
    match DotRule(t.ty, e.member.value, require)
    case Err(m) => Fail(m, t.extra)
    case Ok(ty) => Done(ty, IProject(if e.member.value == "left" then LeftSide else RightSide, t.impl), t.extra)
  }

  /** `a + b`, `a * b`. */
  function GetArith(e: Expr, ctx: TypeContext): (g: Elab)
    requires e.EArith?
    decreases e, 1, 0
    ensures var l, r := Check(e.left, ctx, None, Value).ty, Check(e.right, ctx, None, Value).ty;
            g.result.Ok? <==> IsArithmeticTyped(l) && IsArithmeticTyped(r)
    ensures var l, r := Check(e.left, ctx, None, Value).ty, Check(e.right, ctx, None, Value).ty;
            g.result.Ok? ==> g.result.value.ty == Bin(BinOfArith(e.aop), l, r)
  {
    var l := Check(e.left, ctx, None, Value);
    var r := Check(e.right, ctx, None, Value);
    match ArithRule(e.aop, l.ty, r.ty)
    case Err(m) => Fail(m, l.extra + r.extra)
    case Ok(t) => Done(t, IArith(e.aop, l.impl, r.impl), l.extra + r.extra)
  }

  // ---------------------------------------------------------------------
  // Induction: `for (let i: N = 0, p: P = base; i < n; i++) { ... }`

  predicate IterAnnotationOk(d: ConstDecl) {
    d.annotation.None? || (d.annotation.value.TIdent? && d.annotation.value.id.value == "N")
  }

  /** The loop's bound, `n` in `i < n`. */
  function BoundOf(e: Expr, ctx: TypeContext): Checked
    requires e.EFor?
    decreases e, 0, 1
  {
    Check(e.condRight, ctx, None, Value)
  }

  /** A loop proving `P(i)` for every `i` up to its bound proves `P(n)`. */
  function GetFor(e: Expr, ctx: TypeContext, require: Option<TypeTree>): (g: Elab)
    requires e.EFor?
    decreases e, 1, 0
    ensures g.result.Ok? ==> IterAnnotationOk(e.iter)
    ensures g.result.Ok? ==> e.condLeft.EIdent? && e.condLeft.id.value == e.iter.name.value && e.step.value == e.iter.name.value
    ensures g.result.Ok? && require.Some? && e.proof.annotation.None? && BoundOf(e, ctx).ty.Var? ==>
              var i, n := e.iter.name.value, BoundOf(e, ctx).ty;
              RewriteType(require.value, n.name, Var(i)).Ok?
              && RewriteType(RewriteType(require.value, n.name, Var(i)).value, i, n).Ok?
              && g.result.value.ty == RewriteType(RewriteType(require.value, n.name, Var(i)).value, i, n).value
    ensures g.result.Ok? ==> (g.result.value.impl.IFor? && g.result.value.impl.iterName == e.iter.name.value
              && g.result.value.impl.proofName == e.proof.name.value)
  {
    if !IterAnnotationOk(e.iter) then Fail(IterMustBeN, [])
    else
      var z := Check(e.iter.init, ctx, Some(Zero), Value);
      match Require(TypeEquals(z.ty, Zero), IterInitZero)
      case Some(m) => Fail(m, z.extra)
      case None =>
        var i := e.iter.name.value;
        var b := BoundOf(e, ctx);
        var ann := ResolveOpt(e.proof.annotation, ctx[i := Arithmetic(Var(i))]);
        var ex := z.extra + b.extra + ExtraOfOpt(ann);
        match LoopInvariant(require, TypeOfOpt(ann), b.ty, i, e.proof.name.value)
        case Err(m) => Fail(m, ex)
        case Ok(p) => ForBody(e, ctx, p, b, ex)
  }

  /** The loop once its property `P(i)` is known: base at 0, header, step
      from `i` to `succ(i)`. */
  function ForBody(e: Expr, ctx: TypeContext, p: TypeTree, b: Checked, extra: seq<Info>): (g: Elab)
    requires e.EFor?
    decreases e, 0, 0
    ensures g.result.Ok? ==> e.condLeft.EIdent? && e.condLeft.id.value == e.iter.name.value && e.step.value == e.iter.name.value
    ensures g.result.Ok? ==> RewriteType(p, e.iter.name.value, b.ty).Ok? && g.result.value.ty == RewriteType(p, e.iter.name.value, b.ty).value
    ensures g.result.Ok? ==> (g.result.value.impl.IFor? && g.result.value.impl.iterName == e.iter.name.value
              && g.result.value.impl.proofName == e.proof.name.value && g.result.value.impl.bound == b.impl)
  {
    var i := e.iter.name.value;
    var pn := e.proof.name.value;
    match RewriteType(p, i, Zero)
    case Err(m) => Fail(m, extra)
    case Ok(baseReq) =>
      var base := Check(e.proof.init, ctx, Some(baseReq), Value);
      var ex := extra + base.extra;
      match LoopHeader(base.ty, baseReq, pn, e.condLeft, e.step, i)
      case Some(m) => Fail(m, ex)
      case None =>
        match RewriteType(p, i, Succ(Var(i)))
        case Err(m) => Fail(m, ex)
        case Ok(succP) =>
          var ex2 := ex + [VarDefined(Unparse(Var(i)), i, ExprMeta(e.loopBody)), VarDefined(Unparse(p), pn, ExprMeta(e.loopBody)),
                           VarHover(e.iter.name.meta, Unparse(Var(i))), VarHover(e.proof.name.meta, Unparse(p)),
                           VarHover(ExprMeta(e.condLeft), Unparse(Var(i))), VarHover(e.step.meta, Unparse(Var(i)))];
          var s := Check(e.loopBody, ctx[i := Arithmetic(Var(i))][pn := Proof(p)], Some(succP), Continue);
          match Require(TypeEquals(s.ty, succP), StepMismatch)
          case Some(m) => Fail(m, ex2 + s.extra)
          case None =>
            match RewriteType(p, i, b.ty)
            case Err(m) => Fail(m, ex2 + s.extra)
            case Ok(t) => Done(t, IFor(b.impl, base.impl, i, pn, s.impl), ex2 + s.extra)
  }

  // ---------------------------------------------------------------------
  // Case analysis

  /** `getSwitchType`: the scrutinee must be a disjunction; each case
      binds its side as a proof, and both cases must agree with each other
      and with the requirement. */
  function SwitchType(sw: Switch, ctx: TypeContext, require: Option<TypeTree>, rm: ReturnMethod): (g: Elab)
    decreases sw, 4, 0
    ensures var v := Check(sw.scrutinee, ctx, None, Value).ty;
            g.result.Ok? ==> v.Any? || (IsOr(v) && SwitchCases(sw.cases).Ok?)
    ensures var v := Check(sw.scrutinee, ctx, None, Value).ty;
            g.result.Ok? && !v.Any? && require.Some? ==> g.result.value.ty == require.value
    ensures var v := Check(sw.scrutinee, ctx, None, Value).ty;
            g.result.Ok? && !v.Any? ==> g.result.value.impl.ISwitch?
    ensures g.result.Ok? && require.Some? ==> g.result.value.ty == require.value || g.result.value.ty.Any?
  {
    var v := Check(sw.scrutinee, ctx, None, Value);
    if v.ty.Any? then Done(Any, IFail(GotAnyInSwitch), v.extra)
    else if !IsOr(v.ty) then Fail(SwitchValueMustBeOr + Unparse(v.ty), v.extra)
    else
      match SwitchCases(sw.cases)
      case Err(m) => Fail(m, v.extra)
      case Ok(arms) =>
        var lc, rc := sw.cases[arms.leftIndex], sw.cases[arms.rightIndex];
        var ex := v.extra + [VarDefined(Unparse(v.ty.left), lc.binder.value, ExprMeta(lc.caseBody)),
                             VarDefined(Unparse(v.ty.right), rc.binder.value, ExprMeta(rc.caseBody)),
                             VarHover(lc.binder.meta, Unparse(v.ty.left)), VarHover(rc.binder.meta, Unparse(v.ty.right))];
        var l := Check(lc.caseBody, ctx[lc.binder.value := Proof(v.ty.left)], require, rm);
        var r := Check(rc.caseBody, ctx[rc.binder.value := Proof(v.ty.right)], if require.Some? then require else Some(l.ty), rm);
        match SwitchAgree(l.ty, r.ty, require)
        case Some(m) => Fail(m, ex + l.extra + r.extra)
        case None => Done(l.ty, ISwitch(v.impl, lc.binder.value, l.impl, rc.binder.value, r.impl), ex + l.extra + r.extra)
  }

  // ---------------------------------------------------------------------
  // Blocks

  /** The statement loop from the `i`-th statement on. A statement that
      throws is reported at its range and the loop goes on; the first
      `return` or `switch` ends the block. Falling off the end yields `any`
      at the top level and is an error elsewhere. */
  function Block(e: Expr, i: nat, ctx: TypeContext, require: Option<TypeTree>, rm: ReturnMethod,
                 impls: seq<ImplStmt>, extra: seq<Info>): (g: Elab)
    requires e.EBlock? && i <= |e.stmts|
    decreases e, 1, |e.stmts| - i
    ensures extra <= g.extra
  {
    if i == |e.stmts| then
      if e.topLevel then Done(Any, IConst(VNum(TopLevelValue)), extra)
      else Fail(StatementMustEnd + ReturnMethodText(rm), extra)
    else
      var s := e.stmts[i];
      match Statement(s, e.meta, e.topLevel, ctx, require, rm, impls)
      case Returned(t, ex) => Done(t.ty, IBlock(impls, t.impl), extra + ex)
      case Next(ctx', impls', ex) => Block(e, i + 1, ctx', require, rm, impls', extra + ex)
      case Thrown(m, ctx', impls', ex) => Block(e, i + 1, ctx', require, rm, impls', PostError(extra + ex, StmtMeta(s), m, None))
  }

  /** The statement loop of a block, updating the context, the
      implementations and the diagnostics statement by statement. */
  method BlockLoop(e: Expr, ctx0: TypeContext, require: Option<TypeTree>, rm: ReturnMethod) returns (g: Elab)
    requires e.EBlock?
    ensures g == Block(e, 0, ctx0, require, rm, [], [])
  {
    var ctx, impls, extra := ctx0, [], [];
    var i := 0;
    while i < |e.stmts|
      invariant i <= |e.stmts|
      invariant Block(e, i, ctx, require, rm, impls, extra) == Block(e, 0, ctx0, require, rm, [], [])
    {
      var s := e.stmts[i];
      var o := Statement(s, e.meta, e.topLevel, ctx, require, rm, impls);
      match o {
        case Returned(t, ex) =>
          return Done(t.ty, IBlock(impls, t.impl), extra + ex);
        case Next(ctx', impls', ex) =>
          ctx, impls, extra := ctx', impls', extra + ex;
        case Thrown(m, ctx', impls', ex) =>
          ctx, impls, extra := ctx', impls', PostError(extra + ex, StmtMeta(s), m, None);
      }
      i := i + 1;
    }
    if e.topLevel {
      g := Done(Any, IConst(VNum(TopLevelValue)), extra);
    } else {
      g := Fail(StatementMustEnd + ReturnMethodText(rm), extra);
    }
  }

  /** One statement of a block whose range is `blockMeta`. */
  function Statement(s: Stmt, blockMeta: Meta, topLevel: bool, ctx: TypeContext, require: Option<TypeTree>,
                     rm: ReturnMethod, impls: seq<ImplStmt>): (o: StmtOutcome)
    decreases s, 3, 0
    ensures o.Returned? ==> s.SReturn? || s.SSwitch?
    ensures o.Returned? && require.Some? ==> o.typed.ty == require.value || o.typed.ty.Any?
  {
    match s
    case SSwitch(sw) =>
      var g := SwitchType(sw, ctx, require, rm);
      if g.result.Ok? then Returned(g.result.value, g.extra) else Thrown(g.result.msg, ctx, impls, g.extra)
    case SMultiConst(_, _, _) => MultiConstStatement(s, blockMeta, ctx, impls)
    case SConst(d) => ConstStatement(d, blockMeta, topLevel, ctx, impls)
    case SReturn(_, _, _) => ReturnStatement(s, ctx, require, rm)
    case STypedef(name, def, _) =>
      var r := Resolve(def, ctx);
      Next(ctx[name.value := Typedef(r.ty)], impls, r.extra)
    case SGenericTypedef(name, params, body, _) =>
      GenericTypedefStatement(s, ctx, impls)
    case SEmpty(_) => Next(ctx, impls, [])
    case SLog(_, _) => Next(ctx, impls, LogExtras(s, 0, topLevel, ctx))
  }

  /** `type F<x: N, P: Prop> = ...`: the parameters are bound while the
      body is resolved. */
  function GenericTypedefStatement(s: Stmt, ctx: TypeContext, impls: seq<ImplStmt>): (o: StmtOutcome)
    requires s.SGenericTypedef?
    ensures o.Next? <==> forall j :: 0 <= j < |s.params| ==> ValidParam(s.params[j])
    ensures o.Next? ==> o.impls == impls && s.genericName.value in o.ctx
    ensures o.Next? ==> o.ctx[s.genericName.value].GenericTypedef? && o.ctx[s.genericName.value].generic.args == GenericArgsOf(s.params)
    ensures o.Thrown? ==> o.msg == GenericParamKind && o.ctx == ctx
  {
    match GenericScope(s.params, 0, map[])
    case Err(m) => Thrown(m, ctx, impls, [])
    case Ok(scope) =>
      var r := Resolve(s.body, ctx + scope);
      Next(ctx[s.genericName.value := GenericTypedef(GenericType(GenericArgsOf(s.params), r.ty))], impls, r.extra)
  }

  /** `const x: T = e`: checks `e` against `T`, then binds `x`. Inside a
      function the binding's scope is recorded; a failing binding leaves
      the context as it was. */
  function ConstStatement(d: ConstDecl, blockMeta: Meta, topLevel: bool, ctx: TypeContext, impls: seq<ImplStmt>): (o: StmtOutcome)
    decreases d, 2, 0
    ensures !o.Returned?
    ensures o.Next? ==> o.impls == impls + [BindConst(d.name.value, Check(d.init, ctx, TypeOfOpt(ResolveOpt(d.annotation, ctx)), Value).impl)]
    ensures o.Next? ==> MakeTagged(Check(d.init, ctx, TypeOfOpt(ResolveOpt(d.annotation, ctx)), Value).ty).Ok?
    ensures o.Next? ==> o.ctx == ctx[d.name.value := MakeTagged(Check(d.init, ctx, TypeOfOpt(ResolveOpt(d.annotation, ctx)), Value).ty).value]
    ensures o.Thrown? ==> o.ctx == ctx && o.impls == impls
  {
    var ann := ResolveOpt(d.annotation, ctx);
    var c := Check(d.init, ctx, TypeOfOpt(ann), Value);
    var ex := ExtraOfOpt(ann) + c.extra + [VarHover(d.name.meta, Unparse(c.ty))];
    var scoped := if topLevel then Ok(ex) else
      match ScopeAfter(d.constMeta, blockMeta)
      case Err(m) => Err(m)
      case Ok(scope) => Ok(ex + [VarDefined(Unparse(c.ty), d.name.value, scope)]);
    match scoped
    case Err(m) => Thrown(m, ctx, impls, ex)
    case Ok(ex2) =>
      match MakeTagged(c.ty)
      case Err(m) => Thrown(m, ctx, impls, ex2)
      case Ok(tag) => Next(ctx[d.name.value := tag], impls + [BindConst(d.name.value, c.impl)], ex2)
  }

  /** `const {n: m, p: q} = w`: `w` must be a witness; names bound before a
      failure stay bound. */
  function MultiConstStatement(s: Stmt, blockMeta: Meta, ctx: TypeContext, impls: seq<ImplStmt>): (o: StmtOutcome)
    requires s.SMultiConst?
    decreases s, 2, 0
    ensures !o.Returned?
    ensures o.Next? ==> Check(s.source, ctx, None, Value).ty.Struct?
    ensures o.Next? ==> |o.impls| == |impls| + 1 && o.impls[..|impls|] == impls && o.impls[|impls|].BindExists?
    ensures o.Thrown? ==> o.impls == impls
  {
    var c := Check(s.source, ctx, None, Value);
    if !c.ty.Struct? then Thrown(NeedStruct + Unparse(c.ty), ctx, impls, c.extra)
    else
      var d := Destructure(c.ty, s.names, 0, s.stmtMeta, blockMeta, Destructured(ctx, [], None, None, []));
      var ex := c.extra + d.state.extra;
      if d.error.Some? then Thrown(d.error.value, d.state.ctx, impls, ex)
      else if d.state.num.None? || d.state.prop.None? then Thrown(MustGetNumberAndProp, d.state.ctx, impls, ex)
      else Next(d.state.ctx, impls + [BindExists(d.state.num.value, d.state.prop.value, c.impl)], ex)
  }

  /** `return e` (or `continue e`, `break e`): checks `e` against the
      block's requirement; the wrong keyword is reported with its fix. */
  function ReturnStatement(s: Stmt, ctx: TypeContext, require: Option<TypeTree>, rm: ReturnMethod): (o: StmtOutcome)
    requires s.SReturn?
    decreases s, 2, 0
    ensures o.Returned?
    ensures o.typed == Typed(Check(s.result, ctx, require, Value).ty, Check(s.result, ctx, require, Value).impl)
    ensures s.kind.value == ReturnMethodText(rm) ==> o.extra == Check(s.result, ctx, require, Value).extra
    ensures s.kind.value != ReturnMethodText(rm) && s.kind.meta.Some? ==>
              o.extra == Check(s.result, ctx, require, Value).extra
                         + [ErrorInfo(WrongKeyword(rm, s.kind.value), s.kind.meta.value, Some(ReplaceWith(ReturnMethodText(rm))))]
  {
    var c := Check(s.result, ctx, require, Value);
    var ex := if s.kind.value != ReturnMethodText(rm) then
      PostError(c.extra, s.kind.meta, WrongKeyword(rm, s.kind.value), Some(ReplaceWith(ReturnMethodText(rm))))
    else c.extra;
    Returned(Typed(c.ty, c.impl), ex)
  }

  /** `console.log(a, b, ...)`: at the top level each value is elaborated;
      every value adds a log entry at the statement. */
  function LogExtras(s: Stmt, k: nat, topLevel: bool, ctx: TypeContext): (r: seq<Info>)
    requires s.SLog? && k <= |s.values|
    decreases s, 2, |s.values| - k
    ensures !topLevel ==> |r| == |s.values| - k
    ensures !topLevel ==> forall j :: 0 <= j < |r| ==> r[j] == Log(s.stmtMeta)
  {
    if k == |s.values| then []
    else
      (if topLevel then Check(s.values[k], ctx, None, Value).extra else [])
      + [Log(s.stmtMeta)] + LogExtras(s, k + 1, topLevel, ctx)
  }
}
