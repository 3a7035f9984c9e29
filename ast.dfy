/** The syntax trees the parser produces (astTypes.ts): type syntax,
    expressions and statements, each node with its source range. */
module Ast {
  import opened Wrappers
  import opened UiTypes

  datatype Identifier = Identifier(value: string, meta: Meta)

  /** A keyword token such as `return` or `break`. */
  datatype Keyword = Keyword(value: string, meta: Meta)

  // ---------------------------------------------------------------------
  // Type syntax

  datatype TypeOp = TEq | TNeq | TOr | TAnd | TPlus | TTimes

  /** Type syntax. Numerals hold the value of their digit token; a struct
      type has the two fields the grammar allows (grammar.ts:189). */
  datatype TypeAst =
    | TIdent(id: Identifier)
    | TNum(num: nat, numMeta: Meta)
    | TBin(op: TypeOp, left: TypeAst, right: TypeAst, meta: Meta)
    | TArrow(leftName: Identifier, left: TypeAst, right: TypeAst, meta: Meta)
    | TStruct(first: TField, second: TField, meta: Meta)
    | TCall(fn: Identifier, arg: TypeAst, meta: Meta)
    | TNot(value: TypeAst, meta: Meta)
    | TGenericCall(name: Identifier, args: seq<TypeAst>, meta: Meta)

  datatype TField = TField(name: Identifier, ty: TypeAst)

  function TypeOpText(op: TypeOp): string {
    match op
    case TEq => "=="
    case TNeq => "!="
    case TOr => "||"
    case TAnd => "&&"
    case TPlus => "+"
    case TTimes => "*"
  }

  function TypeAstMeta(t: TypeAst): Meta {
    match t
    case TIdent(id) => id.meta
    case TNum(_, m) => m
    case TBin(_, _, _, m) => m
    case TArrow(_, _, _, m) => m
    case TStruct(_, _, m) => m
    case TCall(_, _, m) => m
    case TNot(_, m) => m
    case TGenericCall(_, _, m) => m
  }

  // ---------------------------------------------------------------------
  // Expressions and statements

  datatype ArithOp = Plus | Times

  function ArithOpText(op: ArithOp): string {
    match op
    case Plus => "+"
    case Times => "*"
  }

  /** The argument of a call: `f()` has none. */
  datatype CallArg = EmptyCall | Arg(arg: Expr)

  datatype Expr =
    | EIdent(id: Identifier)
    | ENum(num: nat, numMeta: Meta)
    | ECall(fn: Expr, callArg: CallArg, meta: Meta)
    | EGenericCall(name: Identifier, typeArg: TypeAst, meta: Meta)
    | EAnd(left: Expr, right: Expr, meta: Meta)
    | EStruct(valueField: EField, proofField: EField, meta: Meta)
    | EAs(value: Expr, asType: TypeAst, meta: Meta)
    | EDot(target: Expr, member: Identifier, meta: Meta)
    | ELambda(param: Identifier, paramType: Option<TypeAst>, body: Expr, assertion: Option<TypeAst>, meta: Meta)
    | EFor(iter: ConstDecl, proof: ConstDecl, condLeft: Expr, condRight: Expr, step: Identifier, loopBody: Expr, meta: Meta)
    | EBlock(stmts: seq<Stmt>, topLevel: bool, meta: Meta)
    | ESwitch(sw: Switch)
    | EArith(aop: ArithOp, left: Expr, right: Expr, meta: Meta)

  datatype EField = EField(name: Identifier, value: Expr)

  /** `const x: T = e` (also the `let` heads of a `for`). */
  datatype ConstDecl = ConstDecl(name: Identifier, init: Expr, annotation: Option<TypeAst>, constMeta: Meta)

  /** `case {left: d}: { ... }`: the tag, the bound name and the block. */
  datatype Case = Case(tag: Identifier, binder: Identifier, caseBody: Expr)

  datatype Switch = Switch(scrutinee: Expr, cases: seq<Case>, switchMeta: Meta)

  /** `{from: to}` in a destructuring `const`; `to` defaults to `from`. */
  datatype Rename = Rename(from: Identifier, to: Option<Identifier>)

  datatype GenericParam = GenericParam(paramName: Identifier, constraint: Identifier)

  datatype Stmt =
    | SSwitch(sw: Switch)
    | SMultiConst(names: seq<Rename>, source: Expr, stmtMeta: Meta)
    | SConst(decl: ConstDecl)
    | SReturn(result: Expr, kind: Keyword, stmtMeta: Meta)
    | STypedef(typeName: Identifier, definition: TypeAst, stmtMeta: Meta)
    | SGenericTypedef(genericName: Identifier, params: seq<GenericParam>, body: TypeAst, stmtMeta: Meta)
    | SEmpty(stmtMeta: Meta)
    | SLog(values: seq<Expr>, stmtMeta: Meta)

  function ExprMeta(e: Expr): Meta {
    match e
    case EIdent(id) => id.meta
    case ENum(_, m) => m
    case ECall(_, _, m) => m
    case EGenericCall(_, _, m) => m
    case EAnd(_, _, m) => m
    case EStruct(_, _, m) => m
    case EAs(_, _, m) => m
    case EDot(_, _, m) => m
    case ELambda(_, _, _, _, m) => m
    case EFor(_, _, _, _, _, _, m) => m
    case EBlock(_, _, m) => m
    case ESwitch(sw) => sw.switchMeta
    case EArith(_, _, _, m) => m
  }

  /** The node's `type` tag, as error messages print it. */
  function ExprTag(e: Expr): string {
    match e
    case EIdent(_) => "identifier"
    case ENum(_, _) => "num"
    case ECall(_, _, _) => "call"
    case EGenericCall(_, _, _) => "generic call"
    case EAnd(_, _, _) => "e&&"
    case EStruct(_, _, _) => "estruct"
    case EAs(_, _, _) => "as"
    case EDot(_, _, _) => "."
    case ELambda(_, _, _, _, _) => "e=>"
    case EFor(_, _, _, _, _, _, _) => "for"
    case EBlock(_, _, _) => "statements"
    case ESwitch(_) => "switch"
    case EArith(op, _, _, _) => ArithOpText(op)
  }

  function StmtMeta(s: Stmt): Meta {
    match s
    case SSwitch(sw) => sw.switchMeta
    case SConst(d) => d.constMeta
    case _ => s.stmtMeta
  }
}
