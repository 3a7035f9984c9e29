/** What elaboration promises: the typing rules at the level of programs,
    the recovery of `rGetType` and of the statement loop, and `code2Stuff`. */
module ElaboratorProperties {
  import opened Wrappers
  import opened Types
  import opened EngineUtils
  import opened UiTypes
  import opened Ast
  import opened Assignability
  import opened Runtime
  import opened TypingRules
  import opened Axioms
  import opened Elaborator

  // ---------------------------------------------------------------------
  // rGetType

  /** A subterm that throws is reported once, at its range, and takes the
      required type, or `any` when nothing is required. */
  lemma FailureRecovers(e: Expr, ctx: TypeContext, require: Option<TypeTree>, rm: ReturnMethod)
    requires GetType(e, ctx, require, rm).result.Err?
    ensures Check(e, ctx, require, rm).ty == (if require.Some? then require.value else Any)
    ensures Check(e, ctx, require, rm).impl == IFail(CouldNotCreate)
    ensures ErrorCount(Check(e, ctx, require, rm).extra)
            == ErrorCount(GetType(e, ctx, require, rm).extra) + (if ExprMeta(e).Some? then 1 else 0)
  {
    var g := GetType(e, ctx, require, rm);
    PostErrorCount(g.extra, ExprMeta(e), g.result.msg, None);
  }

  /** A subterm of the wrong type is reported with both types, keeps its
      implementation and is taken to have the required type. */
  lemma MismatchReported(e: Expr, ctx: TypeContext, r: TypeTree, rm: ReturnMethod)
    requires GetType(e, ctx, Some(r), rm).result.Ok?
    requires TypeEquals(GetType(e, ctx, Some(r), rm).result.value.ty, r) == Ok(false)
    ensures Check(e, ctx, Some(r), rm).ty == r
    ensures Check(e, ctx, Some(r), rm).impl == GetType(e, ctx, Some(r), rm).result.value.impl
    ensures Check(e, ctx, Some(r), rm).extra
            == PostError(GetType(e, ctx, Some(r), rm).extra, ExprMeta(e), NotAssignable(GetType(e, ctx, Some(r), rm).result.value.ty, r), None)
    ensures ErrorCount(Check(e, ctx, Some(r), rm).extra)
            == ErrorCount(GetType(e, ctx, Some(r), rm).extra) + (if ExprMeta(e).Some? then 1 else 0)
  {
    var g := GetType(e, ctx, Some(r), rm);
    PostErrorCount(g.extra, ExprMeta(e), NotAssignable(g.result.value.ty, r), None);
  }

  // ---------------------------------------------------------------------
  // The equality rules in programs

  /** `eq.symm()` on a proof of `a == b` proves `b == a`. */
  lemma SymmSwapsSides(target: Expr, member: Identifier, m1: Meta, m2: Meta, ctx: TypeContext, a: TypeTree, b: TypeTree)
    requires member.value == "symm" || member.value == "sym"
    requires Check(target, ctx, None, Value).ty == Eq(a, b)
    ensures GetType(ECall(EDot(target, member, m1), EmptyCall, m2), ctx, None, Value).result == Ok(Typed(Eq(b, a), EqImpl))
  {
    var e := ECall(EDot(target, member, m1), EmptyCall, m2);
    assert IsMethodCall(e, {"symm", "sym"});
    assert SymmRequire(None) == None;
    assert SymmRule(Eq(a, b)) == Ok(Eq(b, a));
    assert GetSymm(e, ctx, None).result == Ok(Typed(Eq(b, a), EqImpl));
    assert GetCall(e, ctx, None) == GetSymm(e, ctx, None);
    assert GetNode(e, ctx, None, Value) == GetCall(e, ctx, None);
  }

  /** `eq1.trans(eq2)` on `a == b` and `b' == c` with `b` and `b'` equal
      proves `a == c`. */
  lemma TransChainsSides(target: Expr, member: Identifier, arg: Expr, m1: Meta, m2: Meta, ctx: TypeContext,
                         a: TypeTree, b: TypeTree, b2: TypeTree, c: TypeTree)
    requires member.value == "trans"
    requires Check(target, ctx, None, Value).ty == Eq(a, b)
    requires Check(arg, ctx, None, Value).ty == Eq(b2, c)
    requires TypeEquals(b, b2) == Ok(true)
    ensures GetType(ECall(EDot(target, member, m1), Arg(arg), m2), ctx, None, Value).result == Ok(Typed(Eq(a, c), EqImpl))
  {
    var e := ECall(EDot(target, member, m1), Arg(arg), m2);
    assert IsMethodCall(e, {"trans"});
    assert !IsMethodCall(e, {"symm", "sym"});
    assert TransRequire(None, Eq(a, b)) == Ok(None);
    assert TransRule(Eq(a, b), Eq(b2, c), None) == Ok(Eq(a, c));
    assert GetTrans(e, ctx, None).result == Ok(Typed(Eq(a, c), EqImpl));
    assert GetCall(e, ctx, None) == GetTrans(e, ctx, None);
    assert GetNode(e, ctx, None, Value) == GetCall(e, ctx, None);
  }

  // ---------------------------------------------------------------------
  // Induction

  /** A loop without an annotation, expected to prove `R(n)` for its bound
      `n`, proves exactly `R(n)` when no number binder inside `R` is named
      after the bound or the iteration variable. */
  lemma ForMeetsRequire(e: Expr, ctx: TypeContext, r: TypeTree, rm: ReturnMethod)
    requires e.EFor? && e.proof.annotation.None? && BoundOf(e, ctx).ty.Var?
    requires BindersAvoid(r, BoundOf(e, ctx).ty.name, e.iter.name.value) && !Mentions(e.iter.name.value, r)
    requires GetType(e, ctx, Some(r), rm).result.Ok?
    ensures GetType(e, ctx, Some(r), rm).result.value.ty == r
  {
    RenameRoundTrip(r, BoundOf(e, ctx).ty.name, e.iter.name.value);
  }

  // ---------------------------------------------------------------------
  // Blocks

  predicate NoTerminatorFrom(e: Expr, i: nat)
    requires e.EBlock?
  {
    forall j :: i <= j < |e.stmts| ==> !e.stmts[j].SReturn? && !e.stmts[j].SSwitch?
  }

  /** A block with no `return` or `switch` left yields `any` at the top
      level, and otherwise fails asking for the missing keyword. */
  lemma {:induction false} BlockWithoutTerminator(e: Expr, i: nat, ctx: TypeContext, require: Option<TypeTree>, rm: ReturnMethod,
                                                  impls: seq<ImplStmt>, extra: seq<Info>)
    requires e.EBlock? && i <= |e.stmts| && NoTerminatorFrom(e, i)
    ensures e.topLevel ==> Block(e, i, ctx, require, rm, impls, extra).result == Ok(Typed(Any, IConst(VNum(TopLevelValue))))
    ensures !e.topLevel ==> Block(e, i, ctx, require, rm, impls, extra).result == Err(StatementMustEnd + ReturnMethodText(rm))
    decreases |e.stmts| - i
  {
    if i < |e.stmts| {
      var s := e.stmts[i];
      match Statement(s, e.meta, e.topLevel, ctx, require, rm, impls)
      case Next(ctx', impls', ex) =>
        BlockWithoutTerminator(e, i + 1, ctx', require, rm, impls', extra + ex);
      case Thrown(m, ctx', impls', ex) =>
        BlockWithoutTerminator(e, i + 1, ctx', require, rm, impls', PostError(extra + ex, StmtMeta(s), m, None));
    }
  }

  /** The top-level statement list never throws. */
  lemma {:induction false} TopLevelNeverThrows(e: Expr, i: nat, ctx: TypeContext, require: Option<TypeTree>, rm: ReturnMethod,
                                               impls: seq<ImplStmt>, extra: seq<Info>)
    requires e.EBlock? && e.topLevel && i <= |e.stmts|
    ensures Block(e, i, ctx, require, rm, impls, extra).result.Ok?
    decreases |e.stmts| - i
  {
    if i < |e.stmts| {
      var s := e.stmts[i];
      match Statement(s, e.meta, e.topLevel, ctx, require, rm, impls)
      case Returned(_, _) =>
      case Next(ctx', impls', ex) =>
        TopLevelNeverThrows(e, i + 1, ctx', require, rm, impls', extra + ex);
      case Thrown(m, ctx', impls', ex) =>
        TopLevelNeverThrows(e, i + 1, ctx', require, rm, impls', PostError(extra + ex, StmtMeta(s), m, None));
    }
  }

  /** A block that is asked for a type and yields one yields that type, or
      `any`. */
  lemma {:induction false} BlockMeetsRequire(e: Expr, i: nat, ctx: TypeContext, r: TypeTree, rm: ReturnMethod,
                                             impls: seq<ImplStmt>, extra: seq<Info>)
    requires e.EBlock? && i <= |e.stmts|
    requires Block(e, i, ctx, Some(r), rm, impls, extra).result.Ok?
    ensures Block(e, i, ctx, Some(r), rm, impls, extra).result.value.ty in {r, Any}
    decreases |e.stmts| - i
  {
    if i < |e.stmts| {
      var s := e.stmts[i];
      match Statement(s, e.meta, e.topLevel, ctx, Some(r), rm, impls)
      case Returned(_, _) =>
      case Next(ctx', impls', ex) =>
        BlockMeetsRequire(e, i + 1, ctx', r, rm, impls', extra + ex);
      case Thrown(m, ctx', impls', ex) =>
        BlockMeetsRequire(e, i + 1, ctx', r, rm, impls', PostError(extra + ex, StmtMeta(s), m, None));
    }
  }

  /** A statement that throws is reported at its range, keeps what it bound
      before failing, and the block goes on with the next statement. */
  lemma ErrorDoesNotStopBlock(e: Expr, i: nat, ctx: TypeContext, require: Option<TypeTree>, rm: ReturnMethod,
                              impls: seq<ImplStmt>, extra: seq<Info>)
    requires e.EBlock? && i < |e.stmts| && StmtMeta(e.stmts[i]).Some?
    requires Statement(e.stmts[i], e.meta, e.topLevel, ctx, require, rm, impls).Thrown?
    ensures var o := Statement(e.stmts[i], e.meta, e.topLevel, ctx, require, rm, impls);
            Block(e, i, ctx, require, rm, impls, extra)
            == Block(e, i + 1, o.ctx, require, rm, o.impls, extra + o.extra + [ErrorInfo(o.msg, StmtMeta(e.stmts[i]).value, None)])
    ensures var o := Statement(e.stmts[i], e.meta, e.topLevel, ctx, require, rm, impls);
            extra + o.extra + [ErrorInfo(o.msg, StmtMeta(e.stmts[i]).value, None)] <= Block(e, i, ctx, require, rm, impls, extra).extra
  {
  }

  /** `continue x` where a `return` is due (or any other wrong keyword) is
      reported at the keyword with the right one as its fix; the value is
      still returned. */
  lemma WrongKeywordReported(e: Expr, i: nat, ctx: TypeContext, require: Option<TypeTree>, rm: ReturnMethod,
                             impls: seq<ImplStmt>, extra: seq<Info>)
    requires e.EBlock? && i < |e.stmts| && e.stmts[i].SReturn?
    requires e.stmts[i].kind.value != ReturnMethodText(rm) && e.stmts[i].kind.meta.Some?
    ensures Block(e, i, ctx, require, rm, impls, extra).result.Ok?
    ensures ErrorInfo(WrongKeyword(rm, e.stmts[i].kind.value), e.stmts[i].kind.meta.value, Some(ReplaceWith(ReturnMethodText(rm))))
            in Block(e, i, ctx, require, rm, impls, extra).extra
  {
    var s := e.stmts[i];
    var c := Check(s.result, ctx, require, Value);
    var err := ErrorInfo(WrongKeyword(rm, s.kind.value), s.kind.meta.value, Some(ReplaceWith(ReturnMethodText(rm))));
    assert (extra + (c.extra + [err]))[|extra| + |c.extra|] == err;
  }

  // ---------------------------------------------------------------------
  // code2Stuff

  /** `code2Stuff` on a parsed program: the printed type of the top-level
      block under the axioms, with its diagnostics. It never throws. */
  function CodeToType(program: Expr): (r: (string, seq<Info>))
    requires program.EBlock? && program.topLevel
    ensures GetType(program, AxiomContext, None, Value).result.Ok?
    ensures r == (Unparse(GetType(program, AxiomContext, None, Value).result.value.ty), GetType(program, AxiomContext, None, Value).extra)
  {
    TopLevelNeverThrows(program, 0, AxiomContext, None, Return, [], []);
    assert GetNode(program, AxiomContext, None, Return) == Block(program, 0, AxiomContext, None, Return, [], []);
    var g := GetType(program, AxiomContext, None, Value);
    (Unparse(g.result.value.ty), g.extra)
  }
}
