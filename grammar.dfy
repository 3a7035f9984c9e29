/** The post-processors of grammar.ts that build the AST: source ranges,
    the currying of multi-parameter arrows, lambdas and calls, the
    literal sugar for pairs and sums, the identifier check, and how
    parse.ts classifies the parser's results. */
module Grammar {
  import opened Wrappers
  import opened UiTypes
  import opened Ast

  // ---------------------------------------------------------------------
  // Source ranges

  /** A lexer token: its offset and, for a well-formed token, its text. */
  datatype Token = Token(offset: int, text: Option<string>)

  const WeirdToken: string := "weird token"

  /** `tokenToBounds`. */
  function TokenToBounds(t: Token): (r: Result<Bounds>)
    ensures r.Ok? <==> t.text.Some?
    ensures r.Ok? ==> r.value.start == t.offset && r.value.end - r.value.start == |t.text.value|
    ensures r.Err? ==> r.msg == WeirdToken
  {
    if t.text.None? then Err(WeirdToken) else Ok(Bounds(t.offset, t.offset + |t.text.value|))
  }

  /** One step of `dataToBounds`: a child without a range changes nothing. */
  function Join(acc: Meta, m: Meta): Meta {
    if m.None? then acc
    else if acc.None? then m
    else Some(Bounds(if m.value.start < acc.value.start then m.value.start else acc.value.start,
                     if m.value.end > acc.value.end then m.value.end else acc.value.end))
  }

  /** The range of a rule's children: the least start and the greatest
      end over those that have a range. */
  function Span(metas: seq<Meta>): Meta
    decreases |metas|
  {
    if |metas| == 0 then None else Join(Span(metas[..|metas| - 1]), metas[|metas| - 1])
  }

  /** `dataToBounds`, as the loop over the children. */
  method DataToBounds(data: seq<Meta>) returns (r: Meta)
    ensures r == Span(data)
  {
    var lo: Option<int> := None;
    var hi: Option<int> := None;
    for i := 0 to |data|
      invariant lo.Some? <==> hi.Some?
      invariant Span(data[..i]) == if lo.Some? then Some(Bounds(lo.value, hi.value)) else None
    {
      assert data[..i + 1][..i] == data[..i];
      if data[i].Some? {
        if lo.None? || data[i].value.start < lo.value {
          lo := Some(data[i].value.start);
        }
        if hi.None? || data[i].value.end > hi.value {
          hi := Some(data[i].value.end);
        }
      }
    }
    assert data[..|data|] == data;
    if lo.None? || hi.None? {
      return None;
    }
    return Some(Bounds(lo.value, hi.value));
  }

  /** The span covers every child's range, its ends are some child's ends,
      and there is none exactly when no child has a range. */
  lemma {:induction false} SpanIsTight(metas: seq<Meta>)
    ensures Span(metas).None? <==> forall j :: 0 <= j < |metas| ==> metas[j].None?
    ensures Span(metas).Some? ==> forall j :: 0 <= j < |metas| && metas[j].Some? ==>
              Span(metas).value.start <= metas[j].value.start && metas[j].value.end <= Span(metas).value.end
    ensures Span(metas).Some? ==> exists j :: 0 <= j < |metas| && metas[j].Some? && metas[j].value.start == Span(metas).value.start
    ensures Span(metas).Some? ==> exists j :: 0 <= j < |metas| && metas[j].Some? && metas[j].value.end == Span(metas).value.end
    decreases |metas|
  {
    if |metas| > 0 {
      var init := metas[..|metas| - 1];
      SpanIsTight(init);
      assert forall j :: 0 <= j < |init| ==> init[j] == metas[j];
      var last := |metas| - 1;
      if Span(init).Some? && metas[last].Some? {
        var js :| 0 <= js < |init| && init[js].Some? && init[js].value.start == Span(init).value.start;
        var je :| 0 <= je < |init| && init[je].Some? && init[je].value.end == Span(init).value.end;
        if metas[last].value.start >= Span(init).value.start {
          assert metas[js].value.start == Span(metas).value.start;
        } else {
          assert metas[last].value.start == Span(metas).value.start;
        }
        if metas[last].value.end <= Span(init).value.end {
          assert metas[je].value.end == Span(metas).value.end;
        } else {
          assert metas[last].value.end == Span(metas).value.end;
        }
      } else if Span(init).Some? {
        var js :| 0 <= js < |init| && init[js].Some? && init[js].value.start == Span(init).value.start;
        var je :| 0 <= je < |init| && init[je].Some? && init[je].value.end == Span(init).value.end;
        assert metas[js].value.start == Span(metas).value.start;
        assert metas[je].value.end == Span(metas).value.end;
      } else if metas[last].Some? {
        assert metas[last].value.start == Span(metas).value.start;
      }
    }
  }

  // ---------------------------------------------------------------------
  // `(a: A, b: B) => C`

  datatype ArrowParam = ArrowParam(paramName: Identifier, paramType: TypeAst, paramMeta: Meta)

  /** The arrows from the `k`-th parameter on; the innermost takes the
      rule's range, each outer one the range of its parameter and body. */
  function NestArrows(params: seq<ArrowParam>, k: nat, body: TypeAst, whole: Meta): TypeAst
    requires k < |params|
    decreases |params| - k
  {
    if k == |params| - 1 then TArrow(params[k].paramName, params[k].paramType, body, whole)
    else
      var inner := NestArrows(params, k + 1, body, whole);
      TArrow(params[k].paramName, params[k].paramType, inner, Span([params[k].paramMeta, TypeAstMeta(inner)]))
  }

  /** The `impl` post-processor: folds the parameters from the last. */
  method CurryArrow(params: seq<ArrowParam>, body: TypeAst, whole: Meta) returns (t: TypeAst)
    requires |params| >= 1
    ensures t == NestArrows(params, 0, body, whole)
  {
    var k := |params| - 1;
    t := TArrow(params[k].paramName, params[k].paramType, body, whole);
    while k > 0
      invariant 0 <= k < |params|
      invariant t == NestArrows(params, k, body, whole)
    {
      k := k - 1;
      t := TArrow(params[k].paramName, params[k].paramType, t, Span([params[k].paramMeta, TypeAstMeta(t)]));
    }
  }

  /** The binders and domains of the first `n` nested arrows, and what is
      left. */
  function ArrowSpine(t: TypeAst, n: nat): Option<(seq<(Identifier, TypeAst)>, TypeAst)> {
    if n == 0 then Some(([], t))
    else if !t.TArrow? then None
    else
      match ArrowSpine(t.right, n - 1)
      case None => None
      case Some(s) => Some(([(t.leftName, t.left)] + s.0, s.1))
  }

  function ArrowParamsFrom(params: seq<ArrowParam>, k: nat): seq<(Identifier, TypeAst)>
    requires k <= |params|
  {
    seq(|params| - k, j requires 0 <= j < |params| - k => (params[k + j].paramName, params[k + j].paramType))
  }

  /** The first parameter is the outermost arrow, in order down to the
      body. */
  lemma {:induction false} ArrowsNestInOrder(params: seq<ArrowParam>, k: nat, body: TypeAst, whole: Meta)
    requires k < |params|
    ensures ArrowSpine(NestArrows(params, k, body, whole), |params| - k) == Some((ArrowParamsFrom(params, k), body))
    decreases |params| - k
  {
    if k < |params| - 1 {
      ArrowsNestInOrder(params, k + 1, body, whole);
      assert ArrowParamsFrom(params, k) == [(params[k].paramName, params[k].paramType)] + ArrowParamsFrom(params, k + 1);
    } else {
      assert ArrowSpine(body, 0) == Some(([], body));
      assert ArrowParamsFrom(params, k) == [(params[k].paramName, params[k].paramType)] + [];
    }
  }

  // ---------------------------------------------------------------------
  // `(a: A, b): C => body` and `function f(a, b) { ... }`

  datatype LambdaParam = LambdaParam(paramName: Identifier, paramType: Option<TypeAst>, paramMeta: Meta)

  /** The lambdas from the `k`-th parameter on; the return annotation goes
      on the innermost. */
  function NestLambdas(params: seq<LambdaParam>, k: nat, assertion: Option<TypeAst>, body: Expr): (e: Expr)
    requires k < |params|
    ensures e.ELambda?
    decreases |params| - k
  {
    var inner := if k == |params| - 1 then body else NestLambdas(params, k + 1, assertion, body);
    ELambda(params[k].paramName, params[k].paramType, inner, if k == |params| - 1 then assertion else None,
            Span([params[k].paramMeta, ExprMeta(inner)]))
  }

  /** The `eimpl_multiarg_head` post-processor applied to its body: the
      outermost lambda takes the range of the whole head and the body. */
  function CurryLambda(params: seq<LambdaParam>, assertion: Option<TypeAst>, head: seq<Meta>, body: Expr): Expr
    requires |params| >= 1
  {
    var l := NestLambdas(params, 0, assertion, body);
    ELambda(l.param, l.paramType, l.body, l.assertion, Span(head + [ExprMeta(body)]))
  }

  /** The same, as the loop that builds it. */
  method CurryLambdaLoop(params: seq<LambdaParam>, assertion: Option<TypeAst>, head: seq<Meta>, body: Expr) returns (e: Expr)
    requires |params| >= 1
    ensures e == CurryLambda(params, assertion, head, body)
  {
    var k := |params| - 1;
    e := ELambda(params[k].paramName, params[k].paramType, body, assertion, Span([params[k].paramMeta, ExprMeta(body)]));
    while k > 0
      invariant 0 <= k < |params|
      invariant e == NestLambdas(params, k, assertion, body)
    {
      k := k - 1;
      e := ELambda(params[k].paramName, params[k].paramType, e, None, Span([params[k].paramMeta, ExprMeta(e)]));
    }
    e := ELambda(e.param, e.paramType, e.body, e.assertion, Span(head + [ExprMeta(body)]));
  }

  /** Parameter, declared type and return annotation of the first `n`
      nested lambdas, and the innermost body. */
  function LambdaSpine(e: Expr, n: nat): Option<(seq<(Identifier, Option<TypeAst>, Option<TypeAst>)>, Expr)> {
    if n == 0 then Some(([], e))
    else if !e.ELambda? then None
    else
      match LambdaSpine(e.body, n - 1)
      case None => None
      case Some(s) => Some(([(e.param, e.paramType, e.assertion)] + s.0, s.1))
  }

  function LambdaParamsFrom(params: seq<LambdaParam>, k: nat, assertion: Option<TypeAst>): seq<(Identifier, Option<TypeAst>, Option<TypeAst>)>
    requires k <= |params|
  {
    seq(|params| - k, j requires 0 <= j < |params| - k =>
      (params[k + j].paramName, params[k + j].paramType, if k + j == |params| - 1 then assertion else None))
  }

  lemma {:induction false} LambdasNestInOrder(params: seq<LambdaParam>, k: nat, assertion: Option<TypeAst>, body: Expr)
    requires k < |params|
    ensures LambdaSpine(NestLambdas(params, k, assertion, body), |params| - k) == Some((LambdaParamsFrom(params, k, assertion), body))
    decreases |params| - k
  {
    if k < |params| - 1 {
      LambdasNestInOrder(params, k + 1, assertion, body);
      assert LambdaParamsFrom(params, k, assertion)
             == [(params[k].paramName, params[k].paramType, None)] + LambdaParamsFrom(params, k + 1, assertion);
    } else {
      assert LambdaSpine(body, 0) == Some(([], body));
      assert LambdaParamsFrom(params, k, assertion) == [(params[k].paramName, params[k].paramType, assertion)] + [];
    }
  }

  /** A multi-parameter lambda is the nest of one-parameter lambdas, first
      parameter outermost, with the return annotation on the innermost. */
  lemma LambdaCurries(params: seq<LambdaParam>, assertion: Option<TypeAst>, head: seq<Meta>, body: Expr)
    requires |params| >= 1
    ensures LambdaSpine(CurryLambda(params, assertion, head, body), |params|) == Some((LambdaParamsFrom(params, 0, assertion), body))
  {
    LambdasNestInOrder(params, 0, assertion, body);
  }

  /** The `eimpl_function` post-processor: `function f(...) {...}` is a
      constant bound to the curried lambda, without a type annotation. */
  function FunctionToConst(name: Identifier, params: seq<LambdaParam>, assertion: Option<TypeAst>, head: seq<Meta>, body: Expr, m: Meta): (s: Stmt)
    requires |params| >= 1
    ensures s.SConst? && s.decl.name == name && s.decl.annotation.None? && s.decl.constMeta == m
    ensures LambdaSpine(s.decl.init, |params|) == Some((LambdaParamsFrom(params, 0, assertion), body))
  {
    LambdaCurries(params, assertion, head, body);
    SConst(ConstDecl(name, CurryLambda(params, assertion, head, body), None, m))
  }

  // ---------------------------------------------------------------------
  // `f(a, b, c)`

  /** `((f(a))(b))(c)`: each call takes the range of its callee and
      argument. */
  function NestCalls(f: Expr, args: seq<Expr>): Expr
    decreases |args|
  {
    if |args| == 0 then f
    else
      var inner := NestCalls(f, args[..|args| - 1]);
      ECall(inner, Arg(args[|args| - 1]), Span([ExprMeta(inner), ExprMeta(args[|args| - 1])]))
  }

  /** The `arifun` post-processor: one call per argument, left to right. */
  method CurryCall(f: Expr, args: seq<Expr>) returns (r: Expr)
    ensures r == NestCalls(f, args)
  {
    r := f;
    for i := 0 to |args|
      invariant r == NestCalls(f, args[..i])
    {
      assert args[..i + 1][..i] == args[..i];
      r := ECall(r, Arg(args[i]), Span([ExprMeta(r), ExprMeta(args[i])]));
    }
    assert args[..|args|] == args;
  }

  /** The callee and arguments of `n` nested one-argument calls. */
  function CallSpine(e: Expr, n: nat): Option<(Expr, seq<Expr>)> {
    if n == 0 then Some((e, []))
    else if !(e.ECall? && e.callArg.Arg?) then None
    else
      match CallSpine(e.fn, n - 1)
      case None => None
      case Some(s) => Some((s.0, s.1 + [e.callArg.arg]))
  }

  /** Currying loses nothing: the callee and the arguments, in order, are
      read back from the nested calls. */
  lemma {:induction false} CallsCurry(f: Expr, args: seq<Expr>)
    ensures CallSpine(NestCalls(f, args), |args|) == Some((f, args))
    decreases |args|
  {
    if |args| > 0 {
      var init := args[..|args| - 1];
      CallsCurry(f, init);
      assert init + [args[|args| - 1]] == args;
    }
  }

  // ---------------------------------------------------------------------
  // Literals

  /** The `estruct` post-processor: `{left: a, right: b}` in either order is
      a pair; any other two fields are a witness. */
  function StructLiteral(n1: Identifier, v1: Expr, n2: Identifier, v2: Expr, m: Meta): (e: Expr)
    ensures n1.value == "left" && n2.value == "right" ==> e == EAnd(v1, v2, m)
    ensures n1.value == "right" && n2.value == "left" ==> e == EAnd(v2, v1, m)
    ensures e.EStruct? <==> !({n1.value, n2.value} == {"left", "right"})
    ensures e.EStruct? ==> e == EStruct(EField(n1, v1), EField(n2, v2), m)
  {
    if n1.value == "left" && n2.value == "right" then EAnd(v1, v2, m)
    else if n1.value == "right" && n2.value == "left" then EAnd(v2, v1, m)
    else EStruct(EField(n1, v1), EField(n2, v2), m)
  }

  /** The field order of a pair literal does not matter. */
  lemma PairOrderIrrelevant(l: Identifier, r: Identifier, a: Expr, b: Expr, m: Meta)
    requires l.value == "left" && r.value == "right"
    ensures StructLiteral(l, a, r, b, m) == StructLiteral(r, b, l, a, m)
  {
  }

  const InvalidMakeOr: string := "Invalid property for makeOr"

  /** The `makeOr` post-processor: `{left: v}` and `{right: v}`. */
  function MakeOr(property: Identifier, value: Expr, m: Meta): (r: Result<Expr>)
    ensures r.Ok? <==> property.value in {"left", "right"}
    ensures r.Ok? ==> r.value.ECall? && r.value.callArg == Arg(value) && r.value.meta == m
    ensures property.value == "left" ==> r.value.fn == EIdent(Identifier("makeLeft", property.meta))
    ensures property.value == "right" ==> r.value.fn == EIdent(Identifier("makeRight", property.meta))
    ensures r.Err? ==> r.msg == InvalidMakeOr
  {
    if property.value == "left" then Ok(ECall(EIdent(Identifier("makeLeft", property.meta)), Arg(value), m))
    else if property.value == "right" then Ok(ECall(EIdent(Identifier("makeRight", property.meta)), Arg(value), m))
    else Err(InvalidMakeOr)
  }

  // ---------------------------------------------------------------------
  // Identifiers

  /** The own property names of `Object.prototype`. */
  const ObjectPrototypeNames: set<string> := {
    "constructor", "__defineGetter__", "__defineSetter__", "hasOwnProperty", "__lookupGetter__",
    "__lookupSetter__", "isPrototypeOf", "propertyIsEnumerable", "toString", "valueOf", "__proto__",
    "toLocaleString" }

  const IllegalIdentifier: string := "Identifier \""
  const IllegalReason: string := "\" is illegal because of reasons. Use a different name."

  /** The `identifier` post-processor: the token's range, unless the name
      is one an object literal already has. */
  function IdentifierToken(t: Token): (r: Result<Identifier>)
    ensures r.Ok? <==> t.text.Some? && t.text.value !in ObjectPrototypeNames
    ensures r.Ok? ==> r.value.value == t.text.value && r.value.meta == Some(TokenToBounds(t).value)
    ensures t.text.Some? && t.text.value in ObjectPrototypeNames ==> r.msg == IllegalIdentifier + t.text.value + IllegalReason
  {
    match TokenToBounds(t)
    case Err(m) => Err(m)
    case Ok(b) =>
      if t.text.value in ObjectPrototypeNames then Err(IllegalIdentifier + t.text.value + IllegalReason)
      else Ok(Identifier(t.text.value, Some(b)))
  }

  // ---------------------------------------------------------------------
  // parse.ts

  const UnexpectedEnd: string := "Unexpected end of code. Forgot a ; at the end?"
  const Ambiguity: string := "Grammar ambiguity (parser bug). Try to add more parentheses."

  /** `safeParse`: exactly one parse is a result; none means the input
      ended early; several mean the grammar is ambiguous. */
  function Classify<T>(results: seq<T>): (r: Result<T>)
    ensures r.Ok? <==> |results| == 1
    ensures r.Ok? ==> r.value == results[0]
    ensures |results| == 0 ==> r == Err(UnexpectedEnd)
    ensures |results| > 1 ==> r == Err(Ambiguity)
  {
    if |results| == 1 then Ok(results[0])
    else if |results| == 0 then Err(UnexpectedEnd)
    else Err(Ambiguity)
  }
}
