/** The starting context of every program (axioms.ts): the Peano axioms as
    proof-kind names with their types, the `any` typedef, and the values
    that realize each axiom when a program runs. */
module Axioms {
  import opened Wrappers
  import opened Types
  import opened EngineUtils
  import opened UiTypes
  import opened Ast
  import opened TypeResolution
  import opened Runtime

  function All(x: string, body: TypeTree): TypeTree {
    Arrow(x, Nat, body)
  }

  const X: TypeTree := Var("x")
  const Y: TypeTree := Var("y")
  const Z: TypeTree := Var("z")

  const EqReflType: TypeTree := All("x", Eq(X, X))
  const EqSymType: TypeTree := All("x", All("y", Arrow("eqXY", Eq(X, Y), Eq(Y, X))))
  const EqTransType: TypeTree :=
    All("x", All("y", All("z", Arrow("eqXY", Eq(X, Y), Arrow("eqYZ", Eq(Y, Z), Eq(X, Z))))))
  const SuccInjType: TypeTree := All("x", All("y", Arrow("eqSuccXY", Eq(Succ(X), Succ(Y)), Eq(X, Y))))
  const SuccNotZeroType: TypeTree := All("x", Arrow("p", Eq(Succ(X), Zero), Never))
  const AddZeroType: TypeTree := All("x", Eq(Bin(PlusOp, X, Zero), X))
  const AddSuccType: TypeTree := All("x", All("y", Eq(Bin(PlusOp, X, Succ(Y)), Succ(Bin(PlusOp, X, Y)))))
  const MulZeroType: TypeTree := All("x", Eq(Bin(TimesOp, X, Zero), Zero))
  const MulSuccType: TypeTree := All("x", All("y", Eq(Bin(TimesOp, X, Succ(Y)), Bin(PlusOp, Bin(TimesOp, X, Y), X))))

  /** The context a program is checked in. `eqSymm` is a second name for
      `eqSym`. */
  const AxiomContext: TypeContext := map[
    "eqRefl" := Proof(EqReflType),
    "eqSym" := Proof(EqSymType),
    "eqSymm" := Proof(EqSymType),
    "eqTrans" := Proof(EqTransType),
    "succInj" := Proof(SuccInjType),
    "succNotZero" := Proof(SuccNotZeroType),
    "addZero" := Proof(AddZeroType),
    "addSucc" := Proof(AddSuccType),
    "mulZero" := Proof(MulZeroType),
    "mulSucc" := Proof(MulSuccType),
    "any" := Typedef(Any)
  ]

  const SuccNotZeroCalled: string := "runtimeError: succNotZero called"

  const Equality: Impl := IConst(VToken(EqToken))

  /** The realizers: each takes as many arguments as its axiom has
      binders. Equalities carry no content, so most return `(eq)` or the
      equality they were given; `succNotZero` can never be reached with a
      real proof and fails. */
  const AxiomImpls: Env := map[
    "eqRefl" := VClosure("x", Equality, map[]),
    "eqSym" := VClosure("x", ILambda("y", ILambda("eqXY", IVar("eqXY"))), map[]),
    "eqSymm" := VClosure("x", ILambda("y", ILambda("eqXY", IVar("eqXY"))), map[]),
    "eqTrans" := VClosure("x", ILambda("y", ILambda("z", ILambda("eqXY", ILambda("eqYZ", IVar("eqXY"))))), map[]),
    "succInj" := VClosure("x", ILambda("y", ILambda("eqSuccXY", IVar("eqSuccXY"))), map[]),
    "succNotZero" := VClosure("x", ILambda("p", IFail(SuccNotZeroCalled)), map[]),
    "addZero" := VClosure("x", Equality, map[]),
    "addSucc" := VClosure("x", ILambda("y", Equality), map[]),
    "mulZero" := VClosure("x", Equality, map[]),
    "mulSucc" := VClosure("x", ILambda("y", Equality), map[])
  ]

  /** Applies a value to arguments one at a time. */
  function ApplyAll(f: Value, args: seq<Value>, fuel: nat): Result<Value>
    decreases |args|
  {
    if args == [] then Ok(f)
    else
      var g :- Apply(f, args[0], fuel);
      ApplyAll(g, args[1..], fuel)
  }

  /** How many arguments a type takes before its conclusion. */
  function Arity(t: TypeTree): nat {
    if t.Arrow? then 1 + Arity(t.right) else 0
  }

  // ---------------------------------------------------------------------
  // Properties of the axiom table

  /** Every name but `any` is a proof of a closed proposition, and every
      proof has a realizer. */
  lemma AxiomsClosed(name: string)
    requires name in AxiomContext && name != "any"
    ensures AxiomContext[name].Proof?
    ensures FreeVars(AxiomContext[name].value) == {}
    ensures name in AxiomImpls
  {
    EqualityAxiomsClosed();
    ArithmeticAxiomsClosed();
  }

  lemma EqualityAxiomsClosed()
    ensures FreeVars(EqReflType) == {} && FreeVars(EqSymType) == {} && FreeVars(EqTransType) == {}
    ensures FreeVars(SuccInjType) == {} && FreeVars(SuccNotZeroType) == {}
  {
    assert FreeVars(Eq(X, Y)) == {"x", "y"};
    assert FreeVars(Eq(Y, Z)) == {"y", "z"};
  }

  lemma ArithmeticAxiomsClosed()
    ensures FreeVars(AddZeroType) == {} && FreeVars(AddSuccType) == {}
    ensures FreeVars(MulZeroType) == {} && FreeVars(MulSuccType) == {}
  {
  }

  lemma AnyIsTypedef()
    ensures AxiomContext["any"] == Typedef(Any)
    ensures "any" !in AxiomImpls
  {
  }

  /** The realizers cover the proof names and nothing else. */
  lemma RealizersMatchAxioms()
    ensures AxiomImpls.Keys == AxiomContext.Keys - {"any"}
  {
  }

  /** `eqSymm` is `eqSym` under another name. */
  lemma SymmIsSym()
    ensures AxiomContext["eqSymm"] == AxiomContext["eqSym"]
    ensures AxiomImpls["eqSymm"] == AxiomImpls["eqSym"]
  {
  }

  /** `(x: N) => x == x` is what the axiom's text resolves to. */
  lemma EqReflParses(m1: Meta, m2: Meta, m3: Meta, m4: Meta)
    ensures Resolve(TArrow(Identifier("x", m1), TIdent(Identifier("N", m2)),
                           TBin(TEq, TIdent(Identifier("x", m1)), TIdent(Identifier("x", m1)), m3), m4), map[])
         == Resolved(EqReflType, [])
  {
    NumberBinderScopes(Identifier("x", m1), Identifier("N", m2), m3, m4, map[]);
  }

  /** `(x: N) => x + 0 == x` is what the axiom's text resolves to. */
  lemma AddZeroParses(x: Identifier, n: Identifier, m1: Meta, m2: Meta, m3: Meta, m4: Meta)
    requires x.value == "x" && n.value == "N"
    ensures Resolve(TArrow(x, TIdent(n), TBin(TEq, TBin(TPlus, TIdent(x), TNum(0, m1), m2), TIdent(x), m3), m4), map[])
         == Resolved(AddZeroType, [])
  {
    var inner: TypeContext := map[][x.value := BinderBinding(x.value, Nat)];
    assert Resolve(TIdent(n), map[]) == Resolved(Nat, []);
    assert inner["x"] == Arithmetic(X);
    ResolveEquation(TBin(TPlus, TIdent(x), TNum(0, m1), m2), TIdent(x), m3, inner);
    ResolveOperation(TPlus, TIdent(x), TNum(0, m1), m2, inner);
    assert Resolve(TIdent(x), inner) == Resolved(X, []);
    assert ArithmeticBinary(TPlus, X, Zero) == Ok(Bin(PlusOp, X, Zero));
  }

  // ---------------------------------------------------------------------
  // The realizers

  /** `eqRefl(x)` is a bare equality. */
  lemma EqReflRealizer(x: Value, fuel: nat)
    requires fuel >= 2
    ensures ApplyAll(AxiomImpls["eqRefl"], [x], fuel) == Ok(VToken(EqToken))
  {
    assert Apply(AxiomImpls["eqRefl"], x, fuel) == Ok(VToken(EqToken));
    assert [x][1..] == [];
  }

  /** `eqSym(x)(y)(e)` hands back the equality `e` it was given. */
  lemma EqSymRealizer(x: Value, y: Value, e: Value, fuel: nat)
    requires fuel >= 2
    ensures ApplyAll(AxiomImpls["eqSym"], [x, y, e], fuel) == Ok(e)
  {
    var f := AxiomImpls["eqSym"];
    var g := VClosure("y", ILambda("eqXY", IVar("eqXY")), map["x" := x]);
    var h := VClosure("eqXY", IVar("eqXY"), map["x" := x]["y" := y]);
    assert Apply(f, x, fuel) == Ok(g);
    assert Apply(g, y, fuel) == Ok(h);
    assert Apply(h, e, fuel) == Ok(e);
    assert [x, y, e][1..] == [y, e] && [y, e][1..] == [e] && [e][1..] == [];
    assert ApplyAll(h, [e], fuel) == Ok(e);
    assert ApplyAll(g, [y, e], fuel) == Ok(e);
  }

  /** `eqTrans(x)(y)(z)(e1)(e2)` hands back the first equality. */
  lemma EqTransRealizer(x: Value, y: Value, z: Value, e1: Value, e2: Value, fuel: nat)
    requires fuel >= 2
    ensures ApplyAll(AxiomImpls["eqTrans"], [x, y, z, e1, e2], fuel) == Ok(e1)
  {
    var env1 := map["x" := x];
    var env2 := env1["y" := y];
    var env3 := env2["z" := z];
    var env4 := env3["eqXY" := e1];
    var f2 := VClosure("y", ILambda("z", ILambda("eqXY", ILambda("eqYZ", IVar("eqXY")))), env1);
    var f3 := VClosure("z", ILambda("eqXY", ILambda("eqYZ", IVar("eqXY"))), env2);
    var f4 := VClosure("eqXY", ILambda("eqYZ", IVar("eqXY")), env3);
    var f5 := VClosure("eqYZ", IVar("eqXY"), env4);
    assert Apply(AxiomImpls["eqTrans"], x, fuel) == Ok(f2);
    assert Apply(f2, y, fuel) == Ok(f3);
    assert Apply(f3, z, fuel) == Ok(f4);
    assert Apply(f4, e1, fuel) == Ok(f5);
    assert Apply(f5, e2, fuel) == Ok(e1);
    assert [x, y, z, e1, e2][1..] == [y, z, e1, e2] && [y, z, e1, e2][1..] == [z, e1, e2];
    assert [z, e1, e2][1..] == [e1, e2] && [e1, e2][1..] == [e2] && [e2][1..] == [];
    assert ApplyAll(f5, [e2], fuel) == Ok(e1);
    assert ApplyAll(f4, [e1, e2], fuel) == Ok(e1);
    assert ApplyAll(f3, [z, e1, e2], fuel) == Ok(e1);
    assert ApplyAll(f2, [y, z, e1, e2], fuel) == Ok(e1);
  }

  /** `succNotZero(x)(p)` fails: no proof of `succ(x) == 0` exists to
      call it with. */
  lemma SuccNotZeroRealizer(x: Value, p: Value, fuel: nat)
    requires fuel >= 2
    ensures ApplyAll(AxiomImpls["succNotZero"], [x, p], fuel) == Err(SuccNotZeroCalled)
  {
    var g := VClosure("p", IFail(SuccNotZeroCalled), map["x" := x]);
    assert Apply(AxiomImpls["succNotZero"], x, fuel) == Ok(g);
    assert Apply(g, p, fuel) == Err(SuccNotZeroCalled);
    assert [x, p][1..] == [p];
    assert ApplyAll(g, [p], fuel) == Err(SuccNotZeroCalled);
  }

  /** The arithmetic axioms return a bare equality once given all their
      arguments. */
  lemma ArithmeticRealizers(x: Value, y: Value, fuel: nat)
    requires fuel >= 2
    ensures ApplyAll(AxiomImpls["addZero"], [x], fuel) == Ok(VToken(EqToken))
    ensures ApplyAll(AxiomImpls["mulZero"], [x], fuel) == Ok(VToken(EqToken))
    ensures ApplyAll(AxiomImpls["addSucc"], [x, y], fuel) == Ok(VToken(EqToken))
    ensures ApplyAll(AxiomImpls["mulSucc"], [x, y], fuel) == Ok(VToken(EqToken))
  {
    var g := VClosure("y", Equality, map["x" := x]);
    assert Apply(AxiomImpls["addZero"], x, fuel) == Ok(VToken(EqToken));
    assert Apply(AxiomImpls["mulZero"], x, fuel) == Ok(VToken(EqToken));
    assert Apply(AxiomImpls["addSucc"], x, fuel) == Ok(g);
    assert Apply(AxiomImpls["mulSucc"], x, fuel) == Ok(g);
    assert Apply(g, y, fuel) == Ok(VToken(EqToken));
    assert [x, y][1..] == [y] && [y][1..] == [] && [x][1..] == [];
    assert ApplyAll(g, [y], fuel) == Ok(VToken(EqToken));
  }

  /** Each realizer takes exactly as many arguments as its axiom's type
      has binders: the shapes of the two tables agree. */
  lemma RealizerArities()
    ensures Arity(EqReflType) == 1 && Arity(AddZeroType) == 1 && Arity(MulZeroType) == 1
    ensures Arity(SuccNotZeroType) == 2 && Arity(AddSuccType) == 2 && Arity(MulSuccType) == 2
    ensures Arity(EqSymType) == 3 && Arity(SuccInjType) == 3
    ensures Arity(EqTransType) == 5
  {
  }
}
