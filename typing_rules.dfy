/** The typing rule of each expression form of compile.ts, stated on the
    types of its parts: what the checker demands of them, the error it
    raises otherwise, and the type it gives the whole. The elaborator
    supplies the parts' types; the rules themselves do not recurse. */
module TypingRules {
  import opened Wrappers
  import opened Types
  import opened EngineUtils
  import opened UiTypes
  import opened Ast
  import opened Assignability

  /** `if (!typeEquals(a, b)) throw new Error(msg)`: the message raised, if
      any. A comparison that itself fails raises its own message. */
  function Require(ok: Result<bool>, msg: string): (r: Option<string>)
    ensures r.None? <==> ok == Ok(true)
  {
    match ok
    case Ok(b) => if b then None else Some(msg)
    case Err(m) => Some(m)
  }

  // ---------------------------------------------------------------------
  // Equalities: `.symm()`, `.trans(e)`, `.map(f)` and `eqMap(f)(e)`

  const SymmTakesNoArguments: string := "symm takes no arguments"
  const SymmOn: string := ".symm can only be called on an equality, got \""
  const Quote: string := "\""

  /** `eq.symm()` is checked against the flipped requirement. */
  function SymmRequire(require: Option<TypeTree>): Option<TypeTree> {
    if require.Some? && IsEq(require.value) then Some(Eq(require.value.right, require.value.left)) else None
  }

  function SymmRule(t: TypeTree): (r: Result<TypeTree>)
    ensures r.Ok? <==> IsEq(t)
    ensures r.Ok? ==> IsEq(r.value) && r.value.left == t.right && r.value.right == t.left
  {
    if IsEq(t) then Ok(Eq(t.right, t.left))
    else Err(SymmOn + Unparse(t) + Quote)
  }

  /** Flipping twice gives back the equality. */
  lemma SymmInvolutive(t: TypeTree)
    requires IsEq(t)
    ensures SymmRule(SymmRule(t).value) == Ok(t)
  {
  }

  /** The flipped requirement, once met, yields exactly the requirement. */
  lemma SymmMeetsRequire(a: TypeTree, b: TypeTree)
    ensures SymmRequire(Some(Eq(a, b))) == Some(Eq(b, a))
    ensures SymmRule(Eq(b, a)) == Ok(Eq(a, b))
  {
  }

  const TransNeedsArgument: string := ".trans required an argument"
  const TransRungUnconstrained: string :=
    ".trans can only be called with a rung value if there is a type expectation. Add a type annotation or \"as\", or use an equality as the argument."

  const TransOn: string := ".trans can only be called on an equality, got \""
  const TransMiddle: string := "in eq1.trans(eq2), the right side of eq1 must match the left side of eq2. Got eq1="
  const AndEq2: string := " and eq2="
  const TransRequireOn: string := "required type is not an equality, eq.trans doesn't make sense here. Required: "
  const WrongTypeExpected: string := "wrong type, expected "
  const CommaGot: string := ", got "
  const TransWith: string := "eq.trans can only be called with another equality, got \""

  function TransNotEquality(t: TypeTree): string {
    TransOn + Unparse(t) + Quote
  }

  /** In `eq1.trans(eq2)`, when `a == c` is required and `eq1` proves
      `a == b`, `eq2` must prove `b == c`. Requires `eq1` an equality. */
  function TransRequire(require: Option<TypeTree>, lt: TypeTree): Result<Option<TypeTree>>
    requires IsEq(lt)
  {
    if require.Some? && IsEq(require.value) then
      var sameLeft :- TypeEquals(require.value.left, lt.left);
      if sameLeft then Ok(Some(Eq(lt.right, require.value.right))) else Ok(None)
    else Ok(None)
  }

  /** `eq1.trans(eq2)`: with two equalities whose middle sides agree, the
      outer sides; with a `rung` argument, the requirement, provided the
      rung proves its missing link. */
  function TransRule(lt: TypeTree, rt: TypeTree, require: Option<TypeTree>): (r: Result<TypeTree>)
    requires IsEq(lt)
    ensures r.Ok? && IsEq(rt) ==> r.value == Eq(lt.left, rt.right)
    ensures r.Ok? && !IsEq(rt) ==> rt.Rung? && require.Some? && r.value == require.value
    ensures !IsEq(rt) && !rt.Rung? ==> r.Err?
  {
    if IsEq(rt) then TransEqualities(lt, rt)
    else if rt.Rung? then TransRung(lt, rt, require)
    else Err(TransArgumentNotEquality(rt))
  }

  /** Two equalities chain when their middle sides agree. */
  function TransEqualities(lt: TypeTree, rt: TypeTree): (r: Result<TypeTree>)
    requires IsEq(lt) && IsEq(rt)
    ensures r.Ok? <==> TypeEquals(lt.right, rt.left) == Ok(true)
    ensures r.Ok? ==> r.value == Eq(lt.left, rt.right)
  {
    match Require(TypeEquals(lt.right, rt.left), TransMiddleMismatch(lt, rt))
    case Some(m) => Err(m)
    case None => Ok(Eq(lt.left, rt.right))
  }

  /** A `rung` argument must prove the missing link to a required
      equality. */
  function TransRung(lt: TypeTree, rt: TypeTree, require: Option<TypeTree>): (r: Result<TypeTree>)
    requires IsEq(lt) && rt.Rung?
    ensures r.Ok? <==> require.Some? && IsEq(require.value) && TypeEquals(Eq(lt.right, require.value.right), rt) == Ok(true)
    ensures r.Ok? ==> r.value == require.value
  {
    if require.None? then Err(TransRungUnconstrained)
    else if !IsEq(require.value) then Err(TransRequireNotEquality(require.value))
    else
      var wanted := Eq(lt.right, require.value.right);
      match Require(TypeEquals(wanted, rt), WrongType(wanted, rt))
      case Some(m) => Err(m)
      case None => Ok(require.value)
  }

  function TransMiddleMismatch(lt: TypeTree, rt: TypeTree): string {
    TransMiddle + Unparse(lt) + AndEq2 + Unparse(rt)
  }

  function TransRequireNotEquality(req: TypeTree): string {
    TransRequireOn + Unparse(req)
  }

  function WrongType(expected: TypeTree, got: TypeTree): string {
    WrongTypeExpected + Unparse(expected) + CommaGot + Unparse(got)
  }

  function TransArgumentNotEquality(rt: TypeTree): string {
    TransWith + Unparse(rt) + Quote
  }

  /** Chaining `a == b` with `b == c` proves `a == c`; a middle that does
      not match is an error. */
  lemma TransChains(a: TypeTree, b: TypeTree, b2: TypeTree, c: TypeTree, require: Option<TypeTree>)
    ensures TypeEquals(b, b2) == Ok(true) ==> TransRule(Eq(a, b), Eq(b2, c), require) == Ok(Eq(a, c))
    ensures TypeEquals(b, b2) != Ok(true) ==> TransRule(Eq(a, b), Eq(b2, c), require).Err?
  {
  }

  /** Under a requirement `a == c`, the argument of `(a == b).trans(...)`
      is asked to prove `b == c`. */
  lemma TransRequireShape(a: TypeTree, b: TypeTree, c: TypeTree)
    requires Comparable(a)
    ensures TransRequire(Some(Eq(a, c)), Eq(a, b)) == Ok(Some(Eq(b, c)))
  {
    TypeEqualsReflexive(a);
  }

  const EqMapNeedsArgument: string := "eq.map requires an argument"
  const EqMapNeedsFunction: string := "eq.map requires a function from N to N"
  const EqMapNeedsEquality: string := "eq.map argument must be a =="

  /** `succ` used as a function: `(x: N) => succ(x)`. */
  const SuccMap: TypeTree := Arrow("x", Nat, Succ(Var("x")))

  /** The function of `eq.map(f)` must map numbers to arithmetic terms. */
  function EqMapFunction(t: TypeTree): (r: Option<string>)
    ensures r.None? ==> t.Arrow? && IsArithmeticTyped(t.right)
  {
    if !t.Arrow? then Some(EqMapNeedsFunction)
    else
      match MakeTagged(t.right)
      case Err(m) => Some(m)
      case Ok(tag) => if tag.Arithmetic? then None else Some(EqMapNeedsFunction)
  }

  /** Congruence: from `a == b`, `f(a) == f(b)`. */
  function EqMapRule(f: TypeTree, eq: TypeTree): (r: Result<TypeTree>)
    ensures r.Ok? ==> IsEq(eq) && ReduceType(f, eq.left).Ok? && ReduceType(f, eq.right).Ok?
    ensures r.Ok? ==> r == Ok(Eq(ReduceType(f, eq.left).value, ReduceType(f, eq.right).value))
  {
    if !IsEq(eq) then Err(EqMapNeedsEquality)
    else
      var l :- ReduceType(f, eq.left);
      var r :- ReduceType(f, eq.right);
      Ok(Eq(l, r))
  }

  /** Mapping `succ` over `a == b` proves `succ(a) == succ(b)`. */
  lemma EqMapSuccCongruence(a: TypeTree, b: TypeTree)
    requires IsArithmeticTyped(a) && IsArithmeticTyped(b)
    ensures EqMapFunction(SuccMap).None?
    ensures EqMapRule(SuccMap, Eq(a, b)) == Ok(Eq(Succ(a), Succ(b)))
  {
    assert RewriteType(Var("x"), "x", a) == Ok(a);
    assert RewriteType(Succ(Var("x")), "x", a) == Ok(Succ(a));
    assert RewriteType(Var("x"), "x", b) == Ok(b);
    assert RewriteType(Succ(Var("x")), "x", b) == Ok(Succ(b));
  }

  // ---------------------------------------------------------------------
  // Arithmetic: `succ(e)`, `e + e`, `e * e`

  const SuccArgument: string := "succ argument must be an arithmetic type, got "

  function SuccRule(t: TypeTree): (r: Result<TypeTree>)
    ensures r.Ok? <==> IsArithmeticTyped(t)
    ensures r.Ok? ==> r.value == Succ(t) && IsArithmeticTyped(r.value)
  {
    var tag :- MakeTagged(t);
    if tag.Arithmetic? then Ok(Succ(t))
    else Err(SuccArgument + Unparse(t))
  }

  /** The successor of a numeral is the next numeral. */
  lemma SuccOfNumeral(n: nat)
    ensures SuccRule(BigIntToSuccs(n)) == Ok(BigIntToSuccs(n + 1))
  {
    NumeralIsArithmetic(n);
  }

  const LeftOf: string := "left of "
  const RightOf: string := "right of "
  const MustBeArithmetic: string := " must be arithmetic, got "

  function BinOfArith(op: ArithOp): BinOp {
    if op == Plus then PlusOp else TimesOp
  }

  /** Both operands must be arithmetic. As written, the message for a bad
      right operand prints the left operand's type. */
  function ArithRule(op: ArithOp, lt: TypeTree, rt: TypeTree): (r: Result<TypeTree>)
    ensures r.Ok? <==> IsArithmeticTyped(lt) && IsArithmeticTyped(rt)
    ensures r.Ok? ==> r.value == Bin(BinOfArith(op), lt, rt) && IsArithmeticTyped(r.value)
  {
    var lt' :- MakeTagged(lt);
    if !lt'.Arithmetic? then Err(LeftOf + ArithOpText(op) + MustBeArithmetic + Unparse(lt))
    else
      var rt' :- MakeTagged(rt);
      if !rt'.Arithmetic? then Err(RightOf + ArithOpText(op) + MustBeArithmetic + Unparse(lt))
      else Ok(Bin(BinOfArith(op), lt, rt))
  }

  /** A sum of arithmetic terms is again an arithmetic tree. */
  lemma ArithKeepsTrees(op: ArithOp, lt: TypeTree, rt: TypeTree)
    requires IsArithmeticTree(lt) && IsArithmeticTree(rt)
    ensures ArithRule(op, lt, rt).Ok?
    ensures IsArithmeticTree(ArithRule(op, lt, rt).value)
  {
  }

  // ---------------------------------------------------------------------
  // Conjunctions: `e && e` and `e.left`, `e.right`

  const DidntWantAnd: string := "didnt want a &&"
  const DotOn: string := "Only equalities and && object have . , got "
  const DotRequired: string := ". inconsistent with require: required: "
  const DotReturned: string := " returned: "
  const DotSide: string := ". must be left or right. For Exists types, use destructuring assignment."

  /** `e.left` and `e.right` project a conjunction. */
  function DotRule(lt: TypeTree, member: string, require: Option<TypeTree>): (r: Result<TypeTree>)
    ensures r.Ok? ==> IsAnd(lt) && (member == "left" || member == "right")
    ensures r.Ok? ==> r.value == (if member == "left" then lt.left else lt.right)
    ensures IsAnd(lt) && (member == "left" || member == "right") && require.None? ==> r.Ok?
  {
    if !IsAnd(lt) then Err(DotOn + Unparse(lt))
    else if member != "left" && member != "right" then Err(DotSide)
    else
      var ret := if member == "left" then lt.left else lt.right;
      if require.None? then Ok(ret)
      else
        match Require(TypeEquals(require.value, ret), DotRequired + Unparse(require.value) + DotReturned + Unparse(ret))
        case Some(m) => Err(m)
        case None => Ok(ret)
  }

  /** Projecting a pair gives back its parts. */
  lemma DotProjects(a: TypeTree, b: TypeTree)
    ensures DotRule(Bin(AndOp, a, b), "left", None) == Ok(a)
    ensures DotRule(Bin(AndOp, a, b), "right", None) == Ok(b)
    ensures DotRule(Bin(AndOp, a, b), "num", None) == Err(DotSide)
  {
  }

  // ---------------------------------------------------------------------
  // Functions: `(x: T): A => e`

  const Unconstrained: string := "unconstrained argument type"
  const RequiredNonFunction: string := "required non-function type "
  const RequiredInput: string := "required input type: "
  const CommaDeclared: string := ", declared: "
  const AnnotationInconsistent: string := "return type annotation inconsistent with expected type.\nasserted here: "
  const ExpectedReturn: string := "\nexpected return type: "
  const AnnotationBreaks: string := "return type annotation breaks requirement\ndeclared in function: "
  const NewlineRequired: string := "\nrequired: "

  /** The parameter's type and what the body must prove. */
  datatype LambdaHead = LambdaHead(left: TypeTree, rightRequire: Option<TypeTree>)

  /** An expected function type supplies the parameter type when none is
      declared, must agree with the declared one, and, when its binder is a
      number under another name, is renamed to the lambda's own binder. */
  function LambdaRequire(require: Option<TypeTree>, left: Option<TypeTree>, name: string): (r: Result<LambdaHead>)
    ensures require.None? ==> (r.Ok? <==> left.Some?)
    ensures require.None? && r.Ok? ==> r.value == LambdaHead(left.value, None)
    ensures r.Ok? && require.Some? ==> require.value.Arrow? && r.value.left == (if left.Some? then left.value else require.value.left)
    ensures r.Ok? && require.Some? && !(require.value.left.Nat? && require.value.leftName != name) ==> r.value.rightRequire == Some(require.value.right)
  {
    if require.None? then
      if left.None? then Err(Unconstrained) else Ok(LambdaHead(left.value, None))
    else
      var req := require.value;
      if !req.Arrow? then Err(RequiredNonFunction + Unparse(req))
      else
        var bad := if left.Some? then Require(TypeEquals(req.left, left.value),
          RequiredInput + Unparse(req.left) + CommaDeclared + Unparse(left.value)) else None;
        if bad.Some? then Err(bad.value)
        else
          var right :- if req.left.Nat? && req.leftName != name then RewriteType(req.right, req.leftName, Var(name)) else Ok(req.right);
          Ok(LambdaHead(if left.Some? then left.value else req.left, Some(right)))
  }

  /** A lambda `(y) => ...` checked against `(x: N) => P` proves `P` with
      `x` renamed to `y`, and the type it gets back is assignable to the
      required one, when no number binder inside `P` is named `x` or `y`. */
  lemma LambdaMeetsRequire(x: string, y: string, body: TypeTree)
    requires x != y
    requires Comparable(body) && BindersAvoid(body, x, y) && !Mentions(y, body)
    ensures RewriteType(body, x, Var(y)).Ok?
    ensures LambdaRequire(Some(Arrow(x, Nat, body)), None, y) == Ok(LambdaHead(Nat, Some(RewriteType(body, x, Var(y)).value)))
    ensures TypeEquals(Arrow(x, Nat, body), Arrow(y, Nat, RewriteType(body, x, Var(y)).value)) == Ok(true)
  {
    AlphaEquivalentArrows(x, y, Nat, body);
  }

  /** A return annotation on a lambda must agree with what the context
      expects of the body, and then replaces it. */
  function AssertionCheck(rightRequire: Option<TypeTree>, assn: Option<TypeTree>): (r: Result<Option<TypeTree>>)
    ensures assn.None? ==> r == Ok(rightRequire)
    ensures assn.Some? && r.Ok? ==> r.value == assn
    ensures assn.Some? && rightRequire.None? ==> r.Ok?
  {
    if assn.None? then Ok(rightRequire)
    else if rightRequire.None? then Ok(assn)
    else
      match Require(TypeEquals(rightRequire.value, assn.value),
        AnnotationInconsistent + Unparse(assn.value) + ExpectedReturn + Unparse(rightRequire.value))
      case Some(m) => Err(m)
      case None => Ok(assn)
  }

  function BreaksRequirement(declared: TypeTree, required: TypeTree): string {
    AnnotationBreaks + Unparse(declared) + NewlineRequired + Unparse(required)
  }

  // ---------------------------------------------------------------------
  // Witnesses: `{n: e, p: e as P}`

  const StructFieldsReceived: string := "struct fields must match assertion. Received: "
  const Space: string := " "
  const CommaExpected: string := ", expected: "
  const NeedProofAssertion: string := "unimplemented, need proof assertion in estruct"
  const AsInconsistentOuter: string := "as inconsistent with outer assertion in estruct"

  /** With a required struct type, the field names must be the required
      ones, and the proof field's type is the required property. */
  function StructFieldsRequire(require: Option<TypeTree>, valueName: string, proofName: string): (r: Result<Option<TypeTree>>)
    requires require.None? || require.value.Struct?
    ensures require.None? ==> r == Ok(None)
    ensures require.Some? ==> (r.Ok? <==> require.value.first.name == valueName && require.value.second.name == proofName)
    ensures require.Some? && r.Ok? ==> r.value == Some(require.value.second.ty)
  {
    if require.None? then Ok(None)
    else
      var s := require.value;
      if s.first.name != valueName || s.second.name != proofName then
        Err(StructFieldsReceived + valueName + Space + proofName + CommaExpected + s.first.name + Space + s.second.name)
      else Ok(Some(s.second.ty))
  }

  /** The property of a witness: the `as` annotation of its proof, which
      must agree with a required one, or else the required one. */
  function StructAssertion(required: Option<TypeTree>, asserted: Option<TypeTree>): (r: Result<TypeTree>)
    ensures r.Ok? <==> (asserted.Some? && (required.None? || TypeEquals(required.value, asserted.value) == Ok(true))) || (asserted.None? && required.Some?)
    ensures r.Ok? ==> r.value == (if asserted.Some? then asserted.value else required.value)
  {
    if asserted.Some? then
      if required.Some? then
        match Require(TypeEquals(required.value, asserted.value), AsInconsistentOuter)
        case Some(m) => Err(m)
        case None => Ok(asserted.value)
      else Ok(asserted.value)
    else if required.None? then Err(NeedProofAssertion)
    else Ok(required.value)
  }

  // ---------------------------------------------------------------------
  // Loops: `for (let i: N = 0, p: P = base; i < n; i++) { ... }`

  const IterMustBeN: string := "iter must be N"
  const IterInitZero: string := "iter must be initialized to 0"
  const StepMismatch: string := "step type mismatch"
  const BaseRequireMismatch: string := "base require mismatch. declared here: "
  const RequiredOfLoop: string := " but required of the loop: "
  const CouldNotConstrain: string := "could not constrain the proof variable type. Add a type annotation on \""
  const BaseTypeMismatch: string := "base type mismatch. Required type for \""
  const QuoteIs: string := "\" is "
  const ButGot: string := " but got "
  const ConditionNotIdentifier: string := "condition left side must be an identifier, got "
  const ConditionIdentifier: string := "condition left side identifier must be \""
  const QuoteCommaGot: string := "\", got \""
  const StepVariable: string := "step variable must be the first declared (\""
  const QuoteParenGot: string := "\"), got \""

  /** The loop property `P(i)`: the annotation on the proof variable, or,
      when the loop is expected to prove `R(n)` for a bound variable `n`,
      `R(i)`; both present must agree. */
  function LoopInvariant(require: Option<TypeTree>, annotation: Option<TypeTree>, bound: TypeTree, iterName: string, proofName: string): (r: Result<TypeTree>)
    ensures annotation.Some? && r.Ok? ==> r.value == annotation.value
    ensures r.Err? && annotation.None? && !(require.Some? && bound.Var?) ==>
      r.msg == CouldNotConstrain + proofName + Quote
    ensures annotation.None? && require.Some? && bound.Var? ==> r == RewriteType(require.value, bound.name, Var(iterName))
  {
    if require.Some? && bound.Var? then
      var outer :- RewriteType(require.value, bound.name, Var(iterName));
      if annotation.None? then Ok(outer)
      else
        match Require(TypeEquals(annotation.value, outer), BaseRequireMismatch + Unparse(annotation.value) + RequiredOfLoop + Unparse(outer))
        case Some(m) => Err(m)
        case None => Ok(annotation.value)
    else if annotation.None? then
      Err(CouldNotConstrain + proofName + Quote)
    else Ok(annotation.value)
  }

  /** A loop expected to prove `R(n)` for its bound `n`, with no annotation,
      takes `R(i)` as its property and, at `i = n`, proves exactly `R(n)`,
      when no number binder inside `R` is named `n` or `i`. */
  lemma LoopMeetsRequire(r: TypeTree, n: string, i: string, p: string)
    requires BindersAvoid(r, n, i) && !Mentions(i, r)
    ensures LoopInvariant(Some(r), None, Var(n), i, p).Ok?
    ensures RewriteType(LoopInvariant(Some(r), None, Var(n), i, p).value, i, Var(n)) == Ok(r)
  {
    RenameRoundTrip(r, n, i);
  }

  /** The checks of a loop's header after its base: the base proves
      `P(0)`, the condition is `i < ...` and the step is `i++`. */
  function LoopHeader(baseTy: TypeTree, baseReq: TypeTree, proofName: string, condLeft: Expr, step: Identifier, iterName: string): (r: Option<string>)
    ensures r.None? ==> condLeft.EIdent? && condLeft.id.value == iterName && step.value == iterName
  {
    var bad := Require(TypeEquals(baseTy, baseReq), BaseTypeMismatch + proofName + QuoteIs + Unparse(baseReq) + ButGot + Unparse(baseTy));
    if bad.Some? then bad
    else if !condLeft.EIdent? then Some(ConditionNotIdentifier + ExprTag(condLeft))
    else if condLeft.id.value != iterName then
      Some(ConditionIdentifier + iterName + QuoteCommaGot + condLeft.id.value + Quote)
    else if step.value != iterName then
      Some(StepVariable + iterName + QuoteParenGot + step.value + Quote)
    else None
  }

  // ---------------------------------------------------------------------
  // Case analysis: `switch (e) { case {left: a}: ...; case {right: b}: ... }`

  const SwitchTwoCases: string := "switch must have 2 cases"
  const SwitchLeftCase: string := "switch must have a left case"
  const SwitchRightCase: string := "switch must have a right case"
  const SwitchMismatch: string := "switch cases must have same type and also with require"

  datatype Arms = Arms(leftIndex: nat, rightIndex: nat)

  /** Exactly two cases, one tagged `left` and one tagged `right` (the
      first such of each). */
  function SwitchCases(cases: seq<Case>): (r: Result<Arms>)
    ensures r.Ok? <==> |cases| == 2 && (exists k :: 0 <= k < 2 && cases[k].tag.value == "left")
                                      && (exists k :: 0 <= k < 2 && cases[k].tag.value == "right")
    ensures r.Ok? ==> r.value.leftIndex < |cases| && r.value.rightIndex < |cases|
    ensures r.Ok? ==> cases[r.value.leftIndex].tag.value == "left" && cases[r.value.rightIndex].tag.value == "right"
    ensures r.Ok? ==> r.value.leftIndex != r.value.rightIndex
  {
    if |cases| != 2 then Err(SwitchTwoCases)
    else if cases[0].tag.value != "left" && cases[1].tag.value != "left" then Err(SwitchLeftCase)
    else if cases[0].tag.value != "right" && cases[1].tag.value != "right" then Err(SwitchRightCase)
    else Ok(Arms(if cases[0].tag.value == "left" then 0 else 1, if cases[0].tag.value == "right" then 0 else 1))
  }

  /** Both cases, and the requirement if any, must agree. */
  function SwitchAgree(lt: TypeTree, rt: TypeTree, require: Option<TypeTree>): (r: Option<string>)
    ensures r.None? <==> TypeEquals(lt, rt) == Ok(true) && (require.None? || TypeEquals(lt, require.value) == Ok(true))
  {
    match Require(TypeEquals(lt, rt), SwitchMismatch)
    case Some(m) => Some(m)
    case None => if require.Some? then Require(TypeEquals(lt, require.value), SwitchMismatch) else None
  }

  // ---------------------------------------------------------------------
  // Scopes and destructuring

  const NullMeta: string := "Cannot read properties of null (reading 'end')"

  /** A name declared by a statement is in scope from the statement's end
      to the block's end. */
  function ScopeAfter(stmtMeta: Meta, blockMeta: Meta): (r: Result<Meta>)
    ensures r.Ok? <==> stmtMeta.Some? && blockMeta.Some?
    ensures r.Ok? ==> r.value == Some(Bounds(stmtMeta.value.end, blockMeta.value.end))
  {
    if stmtMeta.None? || blockMeta.None? then Err(NullMeta)
    else Ok(Some(Bounds(stmtMeta.value.end, blockMeta.value.end)))
  }

  const DestructuringFailed: string := "destructuring assignment failed, \""
  const NotInStructText: string := "\" not in struct "
  const MustGetNumberAndProp: string := "destructuring assignment must get a number and a proposition"

  /** The type of a struct field by name; the first field wins. */
  function FieldType(t: TypeTree, name: string): (r: Option<TypeTree>)
    requires t.Struct?
    ensures r.Some? <==> t.first.name == name || t.second.name == name
  {
    if t.first.name == name then Some(t.first.ty)
    else if t.second.name == name then Some(t.second.ty)
    else None
  }

  datatype NameChange = NameChange(changedFrom: string, changedTo: string)

  /** Rewrites a type by each recorded renaming, in order. */
  function ApplyRenames(t: TypeTree, renames: seq<NameChange>): Result<TypeTree>
    decreases |renames|
  {
    if renames == [] then Ok(t)
    else
      var t' :- RewriteType(t, renames[0].changedFrom, Var(renames[0].changedTo));
      ApplyRenames(t', renames[1..])
  }

  /** Renaming by `first + rest` is renaming by `first` and then by
      `rest`; a failing renaming stops the rest. */
  lemma {:induction false} ApplyRenamesAppend(t: TypeTree, first: seq<NameChange>, rest: seq<NameChange>)
    ensures ApplyRenames(t, first + rest)
         == (match ApplyRenames(t, first)
             case Ok(t') => ApplyRenames(t', rest)
             case Err(msg) => Err(msg))
    decreases |first|
  {
    if first == [] {
      assert first + rest == rest;
    } else {
      assert (first + rest)[0] == first[0];
      assert (first + rest)[1..] == first[1..] + rest;
      var r := RewriteType(t, first[0].changedFrom, Var(first[0].changedTo));
      if r.Ok? {
        ApplyRenamesAppend(r.value, first[1..], rest);
      }
    }
  }

  /** The state of a destructuring `const {n: m, p: q} = e`: the typing
      context, the number fields renamed so far, the names bound to the
      number and the proof, and the diagnostics posted. */
  datatype Destructured = Destructured(ctx: TypeContext, renames: seq<NameChange>, num: Option<string>, prop: Option<string>, extra: seq<Info>)

  /** A stopped destructuring keeps what it had bound and says why it
      stopped. */
  datatype Destructuring = Destructuring(state: Destructured, error: Option<string>)

  function NotInStruct(from: string, t: TypeTree): string {
    DestructuringFailed + from + NotInStructText + Unparse(t)
  }

  /** Binds one `{from: to}`: a number field becomes the variable `to`; a
      proof field gets its type with the earlier number fields renamed. */
  function DestructureStep(t: TypeTree, r: Rename, stmtMeta: Meta, blockMeta: Meta, s: Destructured): (d: Destructuring)
    requires t.Struct?
    ensures d.error.None? ==> |d.state.extra| == |s.extra| + 2
  {
    var from := r.from.value;
    var to := if r.to.Some? then r.to.value else r.from;
    match FieldType(t, from)
    case None => Destructuring(s, Some(NotInStruct(from, t)))
    case Some(ft) =>
      var s1 := if ft.Nat? then s.(renames := s.renames + [NameChange(from, to.value)], num := Some(to.value))
                else s.(prop := Some(to.value));
      var typed := if ft.Nat? then Ok(Var(to.value)) else ApplyRenames(ft, s.renames);
      match typed
      case Err(m) => Destructuring(s1, Some(m))
      case Ok(vt) =>
        match ScopeAfter(stmtMeta, blockMeta)
        case Err(m) => Destructuring(s1, Some(m))
        case Ok(scope) =>
          var s2 := s1.(extra := s1.extra + [VarDefined(Unparse(vt), to.value, scope), VarHover(to.meta, Unparse(vt))]);
          match MakeTagged(vt)
          case Err(m) => Destructuring(s2, Some(m))
          case Ok(tag) => Destructuring(s2.(ctx := s2.ctx[to.value := tag]), None)
  }

  /** Binds the names from the `k`-th on, stopping at the first error. */
  function Destructure(t: TypeTree, names: seq<Rename>, k: nat, stmtMeta: Meta, blockMeta: Meta, s: Destructured): Destructuring
    requires t.Struct?
    decreases |names| - k
  {
    if k >= |names| then Destructuring(s, None)
    else
      var d := DestructureStep(t, names[k], stmtMeta, blockMeta, s);
      if d.error.Some? then d else Destructure(t, names, k + 1, stmtMeta, blockMeta, d.state)
  }

  /** The destructuring loop. */
  method DestructureLoop(t: TypeTree, names: seq<Rename>, stmtMeta: Meta, blockMeta: Meta, s0: Destructured) returns (d: Destructuring)
    requires t.Struct?
    ensures d == Destructure(t, names, 0, stmtMeta, blockMeta, s0)
  {
    var s := s0;
    var k := 0;
    while k < |names|
      invariant k <= |names|
      invariant Destructure(t, names, k, stmtMeta, blockMeta, s) == Destructure(t, names, 0, stmtMeta, blockMeta, s0)
    {
      var step := DestructureStep(t, names[k], stmtMeta, blockMeta, s);
      if step.error.Some? {
        return step;
      }
      s := step.state;
      k := k + 1;
    }
    d := Destructuring(s, None);
  }

  /** `const {n: m, p: q} = w` with `w: {n: N; p: P}` binds `m` as a number
      and `q` as a proof of `P` with `n` renamed to `m`. */
  lemma DestructureWitness(n: Identifier, m: Identifier, p: Identifier, q: Identifier, body: TypeTree,
                           stmtMeta: Meta, blockMeta: Meta, ctx: TypeContext, extra: seq<Info>)
    requires n.value != p.value
    requires stmtMeta.Some? && blockMeta.Some?
    requires RewriteType(body, n.value, Var(m.value)).Ok?
    requires MakeTagged(RewriteType(body, n.value, Var(m.value)).value).Ok?
    ensures Destructure(Struct(Field(n.value, Nat), Field(p.value, body)), [Rename(n, Some(m)), Rename(p, Some(q))], 0,
                        stmtMeta, blockMeta, Destructured(ctx, [], None, None, extra))
         == Destructuring(Destructured(
              ctx[m.value := Arithmetic(Var(m.value))][q.value := MakeTagged(RewriteType(body, n.value, Var(m.value)).value).value],
              [NameChange(n.value, m.value)], Some(m.value), Some(q.value),
              extra + [VarDefined(m.value, m.value, ScopeAfter(stmtMeta, blockMeta).value), VarHover(m.meta, m.value),
                       VarDefined(Unparse(RewriteType(body, n.value, Var(m.value)).value), q.value, ScopeAfter(stmtMeta, blockMeta).value),
                       VarHover(q.meta, Unparse(RewriteType(body, n.value, Var(m.value)).value))]), None)
  {
    var t := Struct(Field(n.value, Nat), Field(p.value, body));
    var names := [Rename(n, Some(m)), Rename(p, Some(q))];
    var renamed := RewriteType(body, n.value, Var(m.value)).value;
    var scope := ScopeAfter(stmtMeta, blockMeta).value;
    var s0 := Destructured(ctx, [], None, None, extra);
    var s1 := Destructured(ctx[m.value := Arithmetic(Var(m.value))], [NameChange(n.value, m.value)], Some(m.value), None,
                           extra + [VarDefined(m.value, m.value, scope), VarHover(m.meta, m.value)]);
    assert DestructureStep(t, names[0], stmtMeta, blockMeta, s0) == Destructuring(s1, None);
    assert ApplyRenames(body, [NameChange(n.value, m.value)]) == Ok(renamed) by {
      assert [NameChange(n.value, m.value)][1..] == [];
    }
    var s2 := Destructured(s1.ctx[q.value := MakeTagged(renamed).value], s1.renames, Some(m.value), Some(q.value),
                           s1.extra + [VarDefined(Unparse(renamed), q.value, scope), VarHover(q.meta, Unparse(renamed))]);
    assert DestructureStep(t, names[1], stmtMeta, blockMeta, s1) == Destructuring(s2, None);
    assert Destructure(t, names, 2, stmtMeta, blockMeta, s2) == Destructuring(s2, None);
    assert Destructure(t, names, 1, stmtMeta, blockMeta, s1) == Destructuring(s2, None);
  }

  // ---------------------------------------------------------------------
  // Generic typedefs: `type P<a extends N, q extends Prop> = ...`

  const GenericParamKind: string := "generic typedef parameter must be N or Prop"

  /** A number parameter stands for a variable in the body, a proposition
      parameter for a type variable. */
  function ParamBinding(p: GenericParam): TaggedType {
    if p.constraint.value == "N" then Typedef(Var(p.paramName.value)) else Typedef(TypeVar(p.paramName.value))
  }

  predicate ValidParam(p: GenericParam) {
    p.constraint.value == "N" || p.constraint.value == "Prop"
  }

  /** The scope of the parameters from the `k`-th on, over `scope`; a later
      parameter of the same name wins. */
  function GenericScope(params: seq<GenericParam>, k: nat, scope: TypeContext): (r: Result<TypeContext>)
    ensures r.Ok? <==> forall j :: k <= j < |params| ==> ValidParam(params[j])
    ensures r.Ok? ==> scope.Keys <= r.value.Keys
    ensures r.Ok? ==> forall j :: k <= j < |params| ==> params[j].paramName.value in r.value
    ensures r.Err? ==> r.msg == GenericParamKind
    decreases |params| - k
  {
    if k >= |params| then Ok(scope)
    else if !ValidParam(params[k]) then Err(GenericParamKind)
    else GenericScope(params, k + 1, scope[params[k].paramName.value := ParamBinding(params[k])])
  }

  /** The parameter loop of a generic typedef. */
  method GenericScopeLoop(params: seq<GenericParam>) returns (r: Result<TypeContext>)
    ensures r == GenericScope(params, 0, map[])
  {
    var scope: TypeContext := map[];
    var k := 0;
    while k < |params|
      invariant k <= |params|
      invariant GenericScope(params, k, scope) == GenericScope(params, 0, map[])
    {
      if !ValidParam(params[k]) {
        return Err(GenericParamKind);
      }
      scope := scope[params[k].paramName.value := ParamBinding(params[k])];
      k := k + 1;
    }
    r := Ok(scope);
  }

  /** With distinct names, each parameter is bound as its kind says. */
  lemma {:induction false} GenericScopeBinds(params: seq<GenericParam>, k: nat, scope: TypeContext, j: nat)
    requires k <= j < |params|
    requires GenericScope(params, k, scope).Ok?
    requires forall a, b :: k <= a < b < |params| ==> params[a].paramName.value != params[b].paramName.value
    ensures GenericScope(params, k, scope).value[params[j].paramName.value] == ParamBinding(params[j])
    decreases |params| - k
  {
    var next := scope[params[k].paramName.value := ParamBinding(params[k])];
    if j > k {
      GenericScopeBinds(params, k + 1, next, j);
    } else {
      GenericScopeKeeps(params, k + 1, next, params[k].paramName.value);
    }
  }

  /** Parameters past `k` leave a name none of them has alone. */
  lemma {:induction false} GenericScopeKeeps(params: seq<GenericParam>, k: nat, scope: TypeContext, name: string)
    requires GenericScope(params, k, scope).Ok?
    requires name in scope
    requires forall j :: k <= j < |params| ==> params[j].paramName.value != name
    ensures GenericScope(params, k, scope).value[name] == scope[name]
    decreases |params| - k
  {
    if k < |params| {
      GenericScopeKeeps(params, k + 1, scope[params[k].paramName.value := ParamBinding(params[k])], name);
    }
  }

  function ConstraintOf(p: GenericParam): Constraint {
    if p.constraint.value == "N" then NConstraint else PropConstraint
  }

  /** The generic's parameter list, in order. */
  function GenericArgsOf(params: seq<GenericParam>): (r: seq<GenericArg>)
    ensures |r| == |params|
    ensures forall j :: 0 <= j < |params| ==> r[j] == GenericArg(params[j].paramName.value, ConstraintOf(params[j]))
  {
    seq(|params|, j requires 0 <= j < |params| => GenericArg(params[j].paramName.value, ConstraintOf(params[j])))
  }

  // ---------------------------------------------------------------------
  // Rewriting: `replace<P>` and `replaceAll(p)(eq)`

  const ReplaceNeedsGeneric: string := "replace needs a generic type argument"
  const ReplaceAllNeedsEquality: string := "the second argument to replaceAll must be an equality"
  const ReplaceAllLeftNotVar: string := "replaceAll: left of eq must be a variable"
  const UnknownVariable: string := "unknown variable "
  const NotGenericTypedef: string := " is not a generic typedef"
  const ExactlyOneArgument: string := " must have exactly 1 argument"

  /** `replace<P>`: for a one-parameter generic `P`, the transport
      `(L: N) => (R: N) => (eqLR: L == R) => (propOfL: P<L>) => P<R>`. */
  function ReplaceRule(ta: TypeAst, ctx: TypeContext): (r: Result<TypeTree>)
    ensures r.Ok? ==> ta.TIdent? && ta.id.value in ctx && ctx[ta.id.value].GenericTypedef?
                      && |ctx[ta.id.value].generic.args| == 1
  {
    if !ta.TIdent? then Err(ReplaceNeedsGeneric)
    else
      var name := ta.id.value;
      match RetrieveFromContext(ctx, name)
      case None => Err(UnknownVariable + name)
      case Some(mot) =>
        if !mot.GenericTypedef? then Err(name + NotGenericTypedef)
        else if |mot.generic.args| != 1 then Err(name + ExactlyOneArgument)
        else
          var arg := mot.generic.args[0].name;
          var atL :- RewriteType(mot.generic.body, arg, Var("L"));
          var atR :- RewriteType(mot.generic.body, arg, Var("R"));
          Ok(Arrow("L", Nat, Arrow("R", Nat, Arrow("eqLR", Eq(Var("L"), Var("R")), Arrow("propOfL", atL, atR)))))
  }

  /** The transport's premise is the motive at `L` and its conclusion the
      motive at `R`; neither mentions the parameter any more. */
  lemma ReplaceTransports(ta: TypeAst, ctx: TypeContext)
    requires ReplaceRule(ta, ctx).Ok?
    ensures var g := ctx[ta.id.value].generic;
            var a := g.args[0].name;
            var t := ReplaceRule(ta, ctx).value;
            t.right.right.right.left == RewriteType(g.body, a, Var("L")).value
            && t.right.right.right.right == RewriteType(g.body, a, Var("R")).value
            && (a != "L" ==> !FreeIn(a, t.right.right.right.left))
            && (a != "R" ==> !FreeIn(a, t.right.right.right.right))
  {
    var g := ctx[ta.id.value].generic;
    var a := g.args[0].name;
    if a != "L" {
      RewriteEliminates(g.body, a, Var("L"));
    }
    if a != "R" {
      RewriteEliminates(g.body, a, Var("R"));
    }
  }
}
