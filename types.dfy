/** The engine's type trees (engineTypes.ts): propositions, arithmetic terms,
    binders and the tags a name carries in a typing context. */
module Types {
  import opened Decimal

  /** The binary connectives and arithmetic operators of a type tree. */
  datatype BinOp = EqOp | OrOp | AndOp | PlusOp | TimesOp

  /** A type tree. Arithmetic terms (`Var`, `Zero`, `Succ`, `+`, `*`) live in
      the same tree as propositions, as in the source. A struct type always
      has exactly two fields: a number field and a proof field about it. */
  datatype TypeTree =
    | Var(name: string)
    | Zero
    | Succ(value: TypeTree)
    | Bin(op: BinOp, left: TypeTree, right: TypeTree)
    | Arrow(leftName: string, left: TypeTree, right: TypeTree)
    | Struct(first: Field, second: Field)
    | Nat
    | Never
    | Any
    | Rung(eqLeft: TypeTree, eqRight: TypeTree)
    | TypeVar(name: string)

  datatype Field = Field(name: string, ty: TypeTree)

  datatype Constraint = NConstraint | PropConstraint

  datatype GenericArg = GenericArg(name: string, constraint: Constraint)

  datatype GenericType = GenericType(args: seq<GenericArg>, body: TypeTree)

  /** What a name in a typing context stands for. */
  datatype TaggedType =
    | GenericTypedef(generic: GenericType)
    | Arithmetic(value: TypeTree)
    | Proof(value: TypeTree)
    | Typedef(value: TypeTree)

  function Eq(l: TypeTree, r: TypeTree): TypeTree {
    Bin(EqOp, l, r)
  }

  predicate IsEq(t: TypeTree) {
    t.Bin? && t.op == EqOp
  }

  predicate IsOr(t: TypeTree) {
    t.Bin? && t.op == OrOp
  }

  predicate IsAnd(t: TypeTree) {
    t.Bin? && t.op == AndOp
  }

  /** The node kinds that `makeTagged` classifies as arithmetic. */
  predicate IsArithmeticNode(t: TypeTree) {
    t.Var? || t.Zero? || t.Succ? || (t.Bin? && (t.op == PlusOp || t.op == TimesOp))
  }

  /** A tree built from arithmetic nodes only, all the way down. */
  predicate IsArithmeticTree(t: TypeTree) {
    match t
    case Var(_) => true
    case Zero => true
    case Succ(v) => IsArithmeticTree(v)
    case Bin(op, l, r) => (op == PlusOp || op == TimesOp) && IsArithmeticTree(l) && IsArithmeticTree(r)
    case _ => false
  }

  /** The `type` tag the source prints for a node. */
  function TypeTag(t: TypeTree): string {
    match t
    case Var(_) => "var"
    case Zero => "zero"
    case Succ(_) => "succ"
    case Bin(op, _, _) => OpText(op)
    case Arrow(_, _, _) => "t=>"
    case Struct(_, _) => "tstruct"
    case Nat => "N"
    case Never => "never"
    case Any => "any"
    case Rung(_, _) => "rung"
    case TypeVar(_) => "typevar"
  }

  function OpText(op: BinOp): string {
    match op
    case EqOp => "=="
    case OrOp => "||"
    case AndOp => "&&"
    case PlusOp => "+"
    case TimesOp => "*"
  }

  function KindText(t: TaggedType): string {
    match t
    case GenericTypedef(_) => "generic typedef"
    case Arithmetic(_) => "arithmetic"
    case Proof(_) => "proof"
    case Typedef(_) => "typedef"
  }

  /** Strips the trailing run of digits from a name (`x_12` becomes `x_`),
      the non-greedy `^(.*?)(\d*)$` match of engineTypes.ts. */
  function RemoveNumberIndex(s: string): (r: string)
    ensures r <= s
    ensures r == [] || !IsDigit(r[|r| - 1])
    ensures AllDigits(s[|r|..])
  {
    if s != [] && IsDigit(s[|s| - 1]) then RemoveNumberIndex(s[..|s| - 1]) else s
  }

  /** The three properties above determine the result: it is the shortest
      prefix that leaves only digits behind. */
  lemma {:induction false} RemoveNumberIndexUnique(s: string, p: string)
    requires p <= s
    requires p == [] || !IsDigit(p[|p| - 1])
    requires AllDigits(s[|p|..])
    ensures p == RemoveNumberIndex(s)
  {
    if |s| > |p| {
      assert IsDigit(s[|s| - 1]) by {
        assert s[|p|..][|s| - 1 - |p|] == s[|s| - 1];
      }
      assert s[..|s| - 1][|p|..] == s[|p|..][..|s| - 1 - |p|];
      RemoveNumberIndexUnique(s[..|s| - 1], p);
    } else {
      assert p == s;
    }
  }

  /** Stripping twice strips nothing more. */
  lemma RemoveNumberIndexIdempotent(s: string)
    ensures RemoveNumberIndex(RemoveNumberIndex(s)) == RemoveNumberIndex(s)
  {
  }

  /** `x_12` loses its digits but keeps the underscore. */
  lemma RemoveNumberIndexExample()
    ensures RemoveNumberIndex("x_12") == "x_"
    ensures RemoveNumberIndex("abc") == "abc"
  {
    assert RemoveNumberIndex("x_1") == "x_";
  }
}
