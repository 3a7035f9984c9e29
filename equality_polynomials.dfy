/** The `ring` decision procedure (equalityPolynomials.ts): an arithmetic
    tree becomes a polynomial, and two equations are interchangeable when
    their differences `left - right` are equal or opposite polynomials. */
module EqualityPolynomials {
  import opened Wrappers
  import opened Types
  import opened Polynomials
  import opened PolynomialEvaluation
  import EngineUtils

  const UnsupportedNode: string := "ArithmeticTreeToPolynomial: unsupported node type: "

  /** The two sides of an `==` type. */
  datatype Equation = Equation(left: TypeTree, right: TypeTree)

  predicate IsArithmeticEquation(e: Equation) {
    IsArithmeticTree(e.left) && IsArithmeticTree(e.right)
  }

  /** The constant polynomial 1. */
  function One(): Polynomial {
    [Term(1, map[])]
  }

  /** `ArithmeticTreeToPolynomial`; a node outside `0`, `succ`, variables,
      `+` and `*` is an error naming the node's type. */
  function ToPolynomial(t: TypeTree): (r: Result<Polynomial>)
    ensures r.Ok? <==> IsArithmeticTree(t)
  {
    match t
    case Zero => Ok([])
    case Succ(v) =>
      var p :- ToPolynomial(v);
      Ok(Add(p, One()))
    case Var(n) => Ok([Term(1, map[n := 1])])
    case Bin(op, l, r) =>
      if op == PlusOp then
        var pl :- ToPolynomial(l);
        var pr :- ToPolynomial(r);
        Ok(Add(pl, pr))
      else if op == TimesOp then
        var pl :- ToPolynomial(l);
        var pr :- ToPolynomial(r);
        Ok(Multiply(pl, pr))
      else Err(UnsupportedNode + OpText(op))
    case _ => Err(UnsupportedNode + TypeTag(t))
  }

  /** The polynomial `left - right` of an equation, simplified. */
  function Difference(e: Equation): (r: Result<Polynomial>)
    ensures r.Ok? <==> IsArithmeticEquation(e)
  {
    var pl :- ToPolynomial(e.left);
    var pr :- ToPolynomial(e.right);
    Ok(Simplify(Subtract(pl, pr)))
  }

  /** `identitiesEquivalent`; an error when a side is not arithmetic. */
  function IdentitiesEquivalent(a: Equation, b: Equation): (r: Result<bool>)
    ensures r.Ok? <==> IsArithmeticEquation(a) && IsArithmeticEquation(b)
  {
    var da :- Difference(a);
    var db :- Difference(b);
    Ok(PolynomialsEqual(da, db) || PolynomialsEqual(da, Negate(db)))
  }

  /** The number an arithmetic tree denotes when its variables are `env`. */
  function EvalArith(t: TypeTree, env: Env): int {
    match t
    case Var(n) => env(n)
    case Zero => 0
    case Succ(v) => EvalArith(v, env) + 1
    case Bin(op, l, r) =>
      if op == PlusOp then EvalArith(l, env) + EvalArith(r, env)
      else if op == TimesOp then EvalArith(l, env) * EvalArith(r, env)
      else 0
    case _ => 0
  }

  predicate Holds(e: Equation, env: Env) {
    EvalArith(e.left, env) == EvalArith(e.right, env)
  }

  lemma EvalOne(env: Env)
    ensures Eval(One(), env) == 1
  {
    EvalSnoc([], Term(1, map[]), env);
    assert [] + [Term(1, map[])] == One();
  }

  lemma EvalVariable(n: string, env: Env)
    ensures Eval([Term(1, map[n := 1])], env) == env(n)
  {
    var m := map[n := 1];
    EvalSnoc([], Term(1, m), env);
    assert [] + [Term(1, m)] == [Term(1, m)];
    MonoEvalRemove(m, n, env);
    assert |m - {n}| == 0 by {
      assert (m - {n}).Keys == {};
    }
  }

  /** Polynomials of trees have no negative exponent. */
  lemma {:induction false} ToPolynomialNonNegative(t: TypeTree)
    requires IsArithmeticTree(t)
    ensures NonNegative(ToPolynomial(t).value)
  {
    match t
    case Zero =>
    case Succ(v) =>
      ToPolynomialNonNegative(v);
      AddNonNegative(ToPolynomial(v).value, One());
    case Var(n) =>
    case Bin(op, l, r) =>
      ToPolynomialNonNegative(l);
      ToPolynomialNonNegative(r);
      if op == PlusOp {
        AddNonNegative(ToPolynomial(l).value, ToPolynomial(r).value);
      } else {
        MultiplyNonNegative(ToPolynomial(l).value, ToPolynomial(r).value);
      }
  }

  /** The polynomial of a tree has the tree's value everywhere. */
  lemma {:induction false} ToPolynomialEval(t: TypeTree, env: Env)
    requires IsArithmeticTree(t)
    ensures Eval(ToPolynomial(t).value, env) == EvalArith(t, env)
  {
    match t
    case Zero =>
    case Succ(v) =>
      ToPolynomialEval(v, env);
      EvalAdd(ToPolynomial(v).value, One(), env);
      EvalOne(env);
    case Var(n) =>
      EvalVariable(n, env);
    case Bin(op, l, r) =>
      ToPolynomialEval(l, env);
      ToPolynomialEval(r, env);
      if op == PlusOp {
        EvalAdd(ToPolynomial(l).value, ToPolynomial(r).value, env);
      } else {
        ToPolynomialNonNegative(l);
        ToPolynomialNonNegative(r);
        EvalMultiply(ToPolynomial(l).value, ToPolynomial(r).value, env);
      }
  }

  lemma DifferenceEval(e: Equation, env: Env)
    requires IsArithmeticEquation(e)
    ensures Eval(Difference(e).value, env) == EvalArith(e.left, env) - EvalArith(e.right, env)
  {
    var pl, pr := ToPolynomial(e.left).value, ToPolynomial(e.right).value;
    ToPolynomialEval(e.left, env);
    ToPolynomialEval(e.right, env);
    EvalSubtract(pl, pr, env);
    EvalSimplify(Subtract(pl, pr), env);
  }

  /** Soundness of `ring`: when it accepts, the two equations hold for
      exactly the same values of their variables, over all integers (and so
      over the naturals the language's numbers range over). */
  lemma RingSound(a: Equation, b: Equation, env: Env)
    requires IdentitiesEquivalent(a, b) == Ok(true)
    ensures Holds(a, env) <==> Holds(b, env)
  {
    var da, db := Difference(a).value, Difference(b).value;
    DifferenceEval(a, env);
    DifferenceEval(b, env);
    if PolynomialsEqual(da, db) {
      PolynomialsEqualIffSameCoefficients(da, db);
      SameCoefficientsSameValue(da, db, env);
    } else {
      PolynomialsEqualIffSameCoefficients(da, Negate(db));
      SameCoefficientsSameValue(da, Negate(db), env);
      EvalNegate(db, env);
    }
  }

  /** The coefficient of `m` in `left - right`, read off the two sides. */
  function CoeffDifference(e: Equation, m: Monomial): int
    requires IsArithmeticEquation(e)
  {
    Coeff(ToPolynomial(e.left).value, m) - Coeff(ToPolynomial(e.right).value, m)
  }

  /** Every monomial has the same coefficient in the two differences. */
  ghost predicate SameDifference(a: Equation, b: Equation)
    requires IsArithmeticEquation(a) && IsArithmeticEquation(b)
  {
    forall m :: CoeffDifference(a, m) == CoeffDifference(b, m)
  }

  /** Every monomial has opposite coefficients in the two differences. */
  ghost predicate OppositeDifference(a: Equation, b: Equation)
    requires IsArithmeticEquation(a) && IsArithmeticEquation(b)
  {
    forall m :: CoeffDifference(a, m) == -CoeffDifference(b, m)
  }

  lemma DifferenceCoeff(e: Equation, m: Monomial)
    requires IsArithmeticEquation(e)
    ensures Coeff(Difference(e).value, m) == CoeffDifference(e, m)
  {
  }

  lemma SameCoefficientsIffSameDifference(a: Equation, b: Equation)
    requires IsArithmeticEquation(a) && IsArithmeticEquation(b)
    ensures SameCoefficients(Difference(a).value, Difference(b).value) <==> SameDifference(a, b)
  {
    var da, db := Difference(a).value, Difference(b).value;
    if SameCoefficients(da, db) {
      forall m ensures CoeffDifference(a, m) == CoeffDifference(b, m) {
        DifferenceCoeff(a, m);
        DifferenceCoeff(b, m);
        assert Coeff(da, m) == Coeff(db, m);
      }
    }
    if SameDifference(a, b) {
      forall m ensures Coeff(da, m) == Coeff(db, m) {
        DifferenceCoeff(a, m);
        DifferenceCoeff(b, m);
        assert CoeffDifference(a, m) == CoeffDifference(b, m);
      }
    }
  }

  lemma SameCoefficientsIffOppositeDifference(a: Equation, b: Equation)
    requires IsArithmeticEquation(a) && IsArithmeticEquation(b)
    ensures SameCoefficients(Difference(a).value, Negate(Difference(b).value)) <==> OppositeDifference(a, b)
  {
    var da, db := Difference(a).value, Difference(b).value;
    if SameCoefficients(da, Negate(db)) {
      forall m ensures CoeffDifference(a, m) == -CoeffDifference(b, m) {
        DifferenceCoeff(a, m);
        DifferenceCoeff(b, m);
        CoeffNegate(db, m);
        assert Coeff(da, m) == Coeff(Negate(db), m);
      }
    }
    if OppositeDifference(a, b) {
      forall m ensures Coeff(da, m) == Coeff(Negate(db), m) {
        DifferenceCoeff(a, m);
        DifferenceCoeff(b, m);
        CoeffNegate(db, m);
        assert CoeffDifference(a, m) == -CoeffDifference(b, m);
      }
    }
  }

  /** What `ring` decides: the differences agree, or are opposite, on every
      monomial. */
  lemma IdentitiesEquivalentIff(a: Equation, b: Equation)
    requires IsArithmeticEquation(a) && IsArithmeticEquation(b)
    ensures IdentitiesEquivalent(a, b) == Ok(SameDifference(a, b) || OppositeDifference(a, b))
  {
    var da, db := Difference(a).value, Difference(b).value;
    PolynomialsEqualIffSameCoefficients(da, db);
    PolynomialsEqualIffSameCoefficients(da, Negate(db));
    SameCoefficientsIffSameDifference(a, b);
    SameCoefficientsIffOppositeDifference(a, b);
  }

  /** Every arithmetic equation is interchangeable with itself. */
  lemma IdentitiesEquivalentReflexive(a: Equation)
    requires IsArithmeticEquation(a)
    ensures IdentitiesEquivalent(a, a) == Ok(true)
  {
    IdentitiesEquivalentIff(a, a);
  }

  /** `ring` does not care which equation comes first. */
  lemma IdentitiesEquivalentSymmetric(a: Equation, b: Equation)
    requires IsArithmeticEquation(a) && IsArithmeticEquation(b)
    ensures IdentitiesEquivalent(a, b) == IdentitiesEquivalent(b, a)
  {
    {
      IdentitiesEquivalentIff(a, b);
      IdentitiesEquivalentIff(b, a);
      assert SameDifference(a, b) <==> SameDifference(b, a);
      assert OppositeDifference(a, b) <==> OppositeDifference(b, a) by {
        if OppositeDifference(a, b) {
          forall m ensures CoeffDifference(b, m) == -CoeffDifference(a, m) {
            assert CoeffDifference(a, m) == -CoeffDifference(b, m);
          }
        }
        if OppositeDifference(b, a) {
          forall m ensures CoeffDifference(a, m) == -CoeffDifference(b, m) {
            assert CoeffDifference(b, m) == -CoeffDifference(a, m);
          }
        }
      }
    }
  }

  /** `ring` turns `l == r` into `r == l`. */
  lemma IdentitiesEquivalentSwap(a: Equation)
    requires IsArithmeticEquation(a)
    ensures IdentitiesEquivalent(a, Equation(a.right, a.left)) == Ok(true)
  {
    var b := Equation(a.right, a.left);
    IdentitiesEquivalentIff(a, b);
    assert OppositeDifference(a, b) by {
      forall m ensures CoeffDifference(a, m) == -CoeffDifference(b, m) {
      }
    }
  }

  lemma OneCoeff(m: Monomial)
    ensures Coeff(One(), m) == if m == map[] then 1 else 0
  {
    assert Front(One()) == [];
  }

  /** The polynomial of the numeral `n` is the constant `n`. */
  lemma {:induction false} NumeralCoeff(n: nat, m: Monomial)
    ensures IsArithmeticTree(EngineUtils.BigIntToSuccs(n))
    ensures Coeff(ToPolynomial(EngineUtils.BigIntToSuccs(n)).value, m) == if m == map[] then n else 0
  {
    if n > 0 {
      NumeralCoeff(n - 1, m);
      OneCoeff(m);
    }
  }

  /** The `ring simple` test: `1 + 1 == 2` follows from `2 == 2`. */
  lemma RingSimpleExample()
    ensures IdentitiesEquivalent(
              Equation(Bin(PlusOp, EngineUtils.BigIntToSuccs(1), EngineUtils.BigIntToSuccs(1)), EngineUtils.BigIntToSuccs(2)),
              Equation(EngineUtils.BigIntToSuccs(2), EngineUtils.BigIntToSuccs(2))) == Ok(true)
  {
    var one, two := EngineUtils.BigIntToSuccs(1), EngineUtils.BigIntToSuccs(2);
    var a, b := Equation(Bin(PlusOp, one, one), two), Equation(two, two);
    forall m ensures CoeffDifference(a, m) == CoeffDifference(b, m) {
      NumeralCoeff(1, m);
      NumeralCoeff(2, m);
    }
    IdentitiesEquivalentIff(a, b);
  }

  /** An equation pair that some assignment tells apart is rejected: for
      instance `x * x == 9` and `x == 3`, which have the same natural
      solutions but not the same integer ones (`x = -3`). */
  lemma RingRejects(a: Equation, b: Equation, env: Env)
    requires IsArithmeticEquation(a) && IsArithmeticEquation(b)
    requires Holds(a, env) != Holds(b, env)
    ensures IdentitiesEquivalent(a, b) == Ok(false)
  {
    if IdentitiesEquivalent(a, b) == Ok(true) {
      RingSound(a, b, env);
    }
  }

  lemma {:induction false} NumeralValue(n: nat, env: Env)
    ensures IsArithmeticTree(EngineUtils.BigIntToSuccs(n))
    ensures EvalArith(EngineUtils.BigIntToSuccs(n), env) == n
  {
    if n > 0 {
      NumeralValue(n - 1, env);
    }
  }
}
