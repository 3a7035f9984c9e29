/** Multivariate polynomials with integer coefficients (polynomials.ts).
    A polynomial is a list of terms; `Simplify` combines like terms in the
    order their monomials first occur and drops zero coefficients. */
module Polynomials {

  /** A monomial: the exponent of each variable that occurs in it. */
  type Monomial = map<string, int>

  datatype Term = Term(coefficient: int, variables: Monomial)

  type Polynomial = seq<Term>

  function Front<T>(s: seq<T>): seq<T>
    requires |s| > 0
  {
    s[..|s| - 1]
  }

  function Last<T>(s: seq<T>): T
    requires |s| > 0
  {
    s[|s| - 1]
  }

  /** The coefficient `p` gives to monomial `m`: the sum of the coefficients
      of the terms over exactly `m`. */
  function Coeff(p: Polynomial, m: Monomial): int {
    if p == [] then 0
    else Coeff(Front(p), m) + (if Last(p).variables == m then Last(p).coefficient else 0)
  }

  /** Two polynomials giving every monomial the same coefficient. */
  ghost predicate SameCoefficients(a: Polynomial, b: Polynomial) {
    forall m :: Coeff(a, m) == Coeff(b, m)
  }

  /** Whether some term of `p` is over `m`. */
  predicate Occurs(p: Polynomial, m: Monomial) {
    exists i :: 0 <= i < |p| && p[i].variables == m
  }

  predicate Distinct(ks: seq<Monomial>) {
    forall i, j :: 0 <= i < j < |ks| ==> ks[i] != ks[j]
  }

  /** A polynomial in normal form: no zero coefficient, no monomial twice. */
  predicate Canonical(p: Polynomial) {
    (forall i :: 0 <= i < |p| ==> p[i].coefficient != 0) &&
    (forall i, j :: 0 <= i < j < |p| ==> p[i].variables != p[j].variables)
  }

  /** The distinct monomials of `p` in order of first occurrence: the order
      in which the source's `Map` receives its keys. */
  function Keys(p: Polynomial): seq<Monomial> {
    if p == [] then []
    else
      var ks := Keys(Front(p));
      if Last(p).variables in ks then ks else ks + [Last(p).variables]
  }

  /** One term per monomial of `ks` with its total coefficient in `p`,
      leaving out those whose total is zero. */
  function Collect(p: Polynomial, ks: seq<Monomial>): Polynomial {
    if ks == [] then []
    else
      var c := Coeff(p, Last(ks));
      Collect(p, Front(ks)) + (if c != 0 then [Term(c, Last(ks))] else [])
  }

  /** `simplifyPolynomial`: like terms combined, zero terms dropped. */
  function Simplify(p: Polynomial): (r: Polynomial)
    ensures Canonical(r)
    ensures forall m :: Coeff(r, m) == Coeff(p, m)
  {
    SimplifyFacts(p);
    Collect(p, Keys(p))
  }

  function Neg(t: Term): Term {
    Term(-t.coefficient, t.variables)
  }

  /** Every coefficient negated. */
  function Negate(p: Polynomial): (r: Polynomial)
    ensures |r| == |p|
    ensures forall i :: 0 <= i < |p| ==> r[i] == Neg(p[i])
  {
    if p == [] then [] else Negate(Front(p)) + [Neg(Last(p))]
  }

  /** `addPolynomials`. */
  function Add(a: Polynomial, b: Polynomial): (r: Polynomial)
    ensures Canonical(r)
    ensures forall m :: Coeff(r, m) == Coeff(a, m) + Coeff(b, m)
  {
    forall m ensures Coeff(a + b, m) == Coeff(a, m) + Coeff(b, m) {
      CoeffAppend(a, b, m);
    }
    Simplify(a + b)
  }

  /** `subtractPolynomials`. */
  function Subtract(a: Polynomial, b: Polynomial): (r: Polynomial)
    ensures Canonical(r)
    ensures forall m :: Coeff(r, m) == Coeff(a, m) - Coeff(b, m)
  {
    forall m ensures Coeff(a + Negate(b), m) == Coeff(a, m) - Coeff(b, m) {
      CoeffAppend(a, Negate(b), m);
      CoeffNegate(b, m);
    }
    Simplify(a + Negate(b))
  }

  /** The exponent of `k` in `m`, zero when `k` does not occur. */
  function Get0(m: Monomial, k: string): int {
    if k in m then m[k] else 0
  }

  /** The product of two monomials: exponents add up. */
  function MapAdd(x: Monomial, y: Monomial): (r: Monomial)
    ensures r.Keys == x.Keys + y.Keys
    ensures forall k :: k in r ==> r[k] == Get0(x, k) + Get0(y, k)
  {
    map k | k in x.Keys + y.Keys :: Get0(x, k) + Get0(y, k)
  }

  function MulTerm(a: Term, b: Term): Term {
    Term(a.coefficient * b.coefficient, MapAdd(a.variables, b.variables))
  }

  /** The products of `t` with each term of `b`, in order. */
  function Row(t: Term, b: Polynomial): (r: Polynomial)
    ensures |r| == |b|
  {
    if b == [] then [] else Row(t, Front(b)) + [MulTerm(t, Last(b))]
  }

  /** The products of every term of `a` with every term of `b`, `a` outer. */
  function Products(a: Polynomial, b: Polynomial): Polynomial {
    if a == [] then [] else Products(Front(a), b) + Row(Last(a), b)
  }

  /** `multiplyPolynomials`. */
  function Multiply(a: Polynomial, b: Polynomial): (r: Polynomial)
    ensures Canonical(r)
  {
    Simplify(Products(a, b))
  }

  /** `termsAreEquivalent`: same coefficient, as many variables, and every
      variable of `a` with the same exponent in `b`. */
  predicate TermsEquivalent(a: Term, b: Term) {
    a.coefficient == b.coefficient &&
    |a.variables| == |b.variables| &&
    forall v :: v in a.variables ==> v in b.variables && b.variables[v] == a.variables[v]
  }

  /** `polynomialsAreEqual`: the simplified polynomials have the same length
      and every term of the first has an equivalent term in the second. */
  predicate PolynomialsEqual(a: Polynomial, b: Polynomial) {
    var sa := Simplify(a);
    var sb := Simplify(b);
    |sa| == |sb| &&
    forall i :: 0 <= i < |sa| ==> exists j :: 0 <= j < |sb| && TermsEquivalent(sa[i], sb[j])
  }

  // ---------------------------------------------------------------------
  // The loops of the source

  method SimplifyPolynomial(p: Polynomial) returns (r: Polynomial)
    ensures r == Simplify(p)
  {
    var order: seq<Monomial> := [];
    var sums: map<Monomial, int> := map[];
    var i := 0;
    while i < |p|
      invariant 0 <= i <= |p|
      invariant order == Keys(p[..i])
      invariant forall k :: k in sums <==> k in order
      invariant forall k :: k in sums ==> sums[k] == Coeff(p[..i], k)
    {
      var t := p[i];
      assert p[..i + 1] == p[..i] + [t];
      forall k ensures Coeff(p[..i + 1], k) == Coeff(p[..i], k) + (if t.variables == k then t.coefficient else 0) {
        CoeffSnoc(p[..i], t, k);
      }
      assert Front(p[..i + 1]) == p[..i];
      if t.variables in sums {
        sums := sums[t.variables := sums[t.variables] + t.coefficient];
      } else {
        KeysFacts(p[..i]);
        CoeffAbsent(p[..i], t.variables);
        sums := sums[t.variables := t.coefficient];
        order := order + [t.variables];
      }
      i := i + 1;
    }
    assert p[..|p|] == p;
    r := [];
    var j := 0;
    while j < |order|
      invariant 0 <= j <= |order|
      invariant r == Collect(p, order[..j])
    {
      assert Front(order[..j + 1]) == order[..j];
      var c := sums[order[j]];
      if c != 0 {
        r := r + [Term(c, order[j])];
      }
      j := j + 1;
    }
    assert order[..|order|] == order;
  }

  method MultiplyTerms(a: Term, b: Term) returns (t: Term)
    ensures t == MulTerm(a, b)
  {
    var vars := a.variables;
    var rest := b.variables.Keys;
    while rest != {}
      invariant rest <= b.variables.Keys
      invariant vars == MapAdd(a.variables, b.variables - rest)
      decreases rest
    {
      var v :| v in rest;
      MapAddStep(a.variables, b.variables, rest, v);
      vars := vars[v := (if v in vars then vars[v] else 0) + b.variables[v]];
      rest := rest - {v};
    }
    assert b.variables - {} == b.variables;
    t := Term(a.coefficient * b.coefficient, vars);
  }

  lemma MapAddStep(x: Monomial, y: Monomial, rest: set<string>, v: string)
    requires v in rest && rest <= y.Keys
    ensures MapAdd(x, y - (rest - {v}))
         == MapAdd(x, y - rest)[v := Get0(MapAdd(x, y - rest), v) + y[v]]
  {
    var lhs := MapAdd(x, y - (rest - {v}));
    var rhs := MapAdd(x, y - rest)[v := Get0(MapAdd(x, y - rest), v) + y[v]];
    assert lhs.Keys == rhs.Keys;
    forall k | k in lhs.Keys ensures lhs[k] == rhs[k] {
    }
  }

  method MultiplyPolynomials(a: Polynomial, b: Polynomial) returns (r: Polynomial)
    ensures r == Multiply(a, b)
  {
    var result: Polynomial := [];
    var i := 0;
    while i < |a|
      invariant 0 <= i <= |a|
      invariant result == Products(a[..i], b)
    {
      var j := 0;
      while j < |b|
        invariant 0 <= j <= |b|
        invariant result == Products(a[..i], b) + Row(a[i], b[..j])
      {
        var t := MultiplyTerms(a[i], b[j]);
        assert Front(b[..j + 1]) == b[..j];
        result := result + [t];
        j := j + 1;
      }
      assert b[..|b|] == b;
      assert Front(a[..i + 1]) == a[..i];
      i := i + 1;
    }
    assert a[..|a|] == a;
    r := SimplifyPolynomial(result);
  }

  method TermsAreEquivalent(a: Term, b: Term) returns (r: bool)
    ensures r == TermsEquivalent(a, b)
  {
    if a.coefficient != b.coefficient {
      return false;
    }
    if |a.variables| != |b.variables| {
      return false;
    }
    var rest := a.variables.Keys;
    while rest != {}
      invariant rest <= a.variables.Keys
      invariant forall v :: v in a.variables.Keys - rest ==> v in b.variables && b.variables[v] == a.variables[v]
      decreases rest
    {
      var v :| v in rest;
      if !(v in b.variables && b.variables[v] == a.variables[v]) {
        return false;
      }
      rest := rest - {v};
    }
    return true;
  }

  method PolynomialsAreEqual(a: Polynomial, b: Polynomial) returns (r: bool)
    ensures r == PolynomialsEqual(a, b)
  {
    var sa := SimplifyPolynomial(a);
    var sb := SimplifyPolynomial(b);
    if |sa| != |sb| {
      return false;
    }
    var i := 0;
    while i < |sa|
      invariant 0 <= i <= |sa|
      invariant forall k :: 0 <= k < i ==> exists j :: 0 <= j < |sb| && TermsEquivalent(sa[k], sb[j])
    {
      var j := 0;
      var found := false;
      while j < |sb| && !found
        invariant 0 <= j <= |sb|
        invariant found ==> j > 0 && TermsEquivalent(sa[i], sb[j - 1])
        invariant !found ==> forall l :: 0 <= l < j ==> !TermsEquivalent(sa[i], sb[l])
      {
        found := TermsAreEquivalent(sa[i], sb[j]);
        j := j + 1;
      }
      if !found {
        return false;
      }
      i := i + 1;
    }
    return true;
  }

  // ---------------------------------------------------------------------
  // Coefficients

  lemma CoeffSnoc(p: Polynomial, t: Term, m: Monomial)
    ensures Coeff(p + [t], m) == Coeff(p, m) + (if t.variables == m then t.coefficient else 0)
  {
    assert Front(p + [t]) == p;
  }

  /** Concatenation adds coefficients. */
  lemma {:induction false} CoeffAppend(a: Polynomial, b: Polynomial, m: Monomial)
    ensures Coeff(a + b, m) == Coeff(a, m) + Coeff(b, m)
    decreases |b|
  {
    if b == [] {
      assert a + b == a;
    } else {
      assert a + b == (a + Front(b)) + [Last(b)];
      CoeffSnoc(a + Front(b), Last(b), m);
      CoeffAppend(a, Front(b), m);
    }
  }

  lemma {:induction false} CoeffNegate(p: Polynomial, m: Monomial)
    ensures Coeff(Negate(p), m) == -Coeff(p, m)
    decreases |p|
  {
    if p != [] {
      CoeffSnoc(Negate(Front(p)), Neg(Last(p)), m);
      CoeffNegate(Front(p), m);
    }
  }

  /** A monomial with no term has coefficient zero. */
  lemma {:induction false} CoeffAbsent(p: Polynomial, m: Monomial)
    requires !Occurs(p, m)
    ensures Coeff(p, m) == 0
    decreases |p|
  {
    if p != [] {
      assert !Occurs(Front(p), m);
      CoeffAbsent(Front(p), m);
      assert Last(p).variables != m;
    }
  }

  /** `Keys` lists exactly the monomials that occur, each once. */
  lemma {:induction false} KeysFacts(p: Polynomial)
    ensures Distinct(Keys(p))
    ensures forall m :: m in Keys(p) <==> Occurs(p, m)
    decreases |p|
  {
    if p != [] {
      KeysFacts(Front(p));
      forall m ensures m in Keys(p) <==> Occurs(p, m) {
        if Occurs(p, m) && m != Last(p).variables {
          var i :| 0 <= i < |p| && p[i].variables == m;
          assert Front(p)[i].variables == m;
        }
      }
    }
  }

  lemma {:induction false} CoeffCollect(p: Polynomial, ks: seq<Monomial>, m: Monomial)
    requires Distinct(ks)
    ensures Coeff(Collect(p, ks), m) == if m in ks then Coeff(p, m) else 0
    decreases |ks|
  {
    if ks != [] {
      var k := Last(ks);
      var c := Coeff(p, k);
      assert ks == Front(ks) + [k];
      CoeffCollect(p, Front(ks), m);
      CoeffAppend(Collect(p, Front(ks)), if c != 0 then [Term(c, k)] else [], m);
      if m == k {
        assert m !in Front(ks);
      }
    }
  }

  lemma {:induction false} CollectCanonical(p: Polynomial, ks: seq<Monomial>)
    requires Distinct(ks)
    ensures Canonical(Collect(p, ks))
    ensures forall i :: 0 <= i < |Collect(p, ks)| ==> Collect(p, ks)[i].variables in ks
    decreases |ks|
  {
    if ks != [] {
      var k := Last(ks);
      assert ks == Front(ks) + [k];
      CollectCanonical(p, Front(ks));
      assert k !in Front(ks);
    }
  }

  lemma SimplifyFacts(p: Polynomial)
    ensures Canonical(Collect(p, Keys(p)))
    ensures forall m :: Coeff(Collect(p, Keys(p)), m) == Coeff(p, m)
  {
    KeysFacts(p);
    CollectCanonical(p, Keys(p));
    forall m ensures Coeff(Collect(p, Keys(p)), m) == Coeff(p, m) {
      CoeffCollect(p, Keys(p), m);
      if m !in Keys(p) {
        CoeffAbsent(p, m);
      }
    }
  }

  lemma {:induction false} CollectSameCoeff(p: Polynomial, q: Polynomial, ks: seq<Monomial>)
    requires forall k :: k in ks ==> Coeff(p, k) == Coeff(q, k)
    ensures Collect(p, ks) == Collect(q, ks)
    decreases |ks|
  {
    if ks != [] {
      CollectSameCoeff(p, q, Front(ks));
    }
  }

  /** A polynomial already in normal form is left exactly as it is. */
  lemma {:induction false} SimplifyCanonicalIdentity(p: Polynomial)
    requires Canonical(p)
    ensures Simplify(p) == p
    decreases |p|
  {
    if p != [] {
      var q, t := Front(p), Last(p);
      assert p == q + [t];
      assert Canonical(q);
      SimplifyCanonicalIdentity(q);
      assert !Occurs(q, t.variables);
      KeysFacts(q);
      CoeffAbsent(q, t.variables);
      assert Keys(p) == Keys(q) + [t.variables];
      CoeffSnoc(q, t, t.variables);
      forall k | k in Keys(q) ensures Coeff(p, k) == Coeff(q, k) {
        CoeffSnoc(q, t, k);
      }
      CollectSameCoeff(p, q, Keys(q));
      assert Front(Keys(q) + [t.variables]) == Keys(q);
    }
  }

  /** Simplifying twice is simplifying once. */
  lemma SimplifyIdempotent(p: Polynomial)
    ensures Simplify(Simplify(p)) == Simplify(p)
  {
    SimplifyCanonicalIdentity(Simplify(p));
  }

  /** A polynomial whose coefficients are all zero simplifies to nothing. */
  lemma {:induction false} CollectAllZero(p: Polynomial, ks: seq<Monomial>)
    requires forall m :: Coeff(p, m) == 0
    ensures Collect(p, ks) == []
    decreases |ks|
  {
    if ks != [] {
      CollectAllZero(p, Front(ks));
    }
  }

  lemma SimplifyZero(p: Polynomial)
    requires forall m :: Coeff(p, m) == 0
    ensures Simplify(p) == []
  {
    CollectAllZero(p, Keys(p));
  }

  // ---------------------------------------------------------------------
  // What polynomialsAreEqual decides

  lemma SubsetSameSize<T>(a: set<T>, b: set<T>)
    requires a <= b && |a| == |b|
    ensures a == b
  {
    assert b == a + (b - a);
    assert |b| == |a| + |b - a|;
    assert b - a == {};
  }

  /** Equivalent terms are equal terms. */
  lemma TermsEquivalentIffEqual(a: Term, b: Term)
    ensures TermsEquivalent(a, b) <==> a == b
  {
    if TermsEquivalent(a, b) {
      SubsetSameSize(a.variables.Keys, b.variables.Keys);
      assert a.variables == b.variables;
    }
  }

  function VarSet(s: Polynomial): set<Monomial> {
    set i | 0 <= i < |s| :: s[i].variables
  }

  lemma {:induction false} CanonicalCard(s: Polynomial)
    requires Canonical(s)
    ensures |VarSet(s)| == |s|
    decreases |s|
  {
    if s != [] {
      var q, t := Front(s), Last(s);
      assert Canonical(q);
      CanonicalCard(q);
      assert VarSet(s) == VarSet(q) + {t.variables} by {
        forall m | m in VarSet(s) ensures m in VarSet(q) + {t.variables} {
          var i :| 0 <= i < |s| && s[i].variables == m;
          if i < |q| {
            assert q[i].variables == m;
          }
        }
        forall m | m in VarSet(q) ensures m in VarSet(s) {
          var i :| 0 <= i < |q| && q[i].variables == m;
          assert s[i].variables == m;
        }
      }
      assert t.variables !in VarSet(q);
    }
  }

  /** In normal form, a term's coefficient is its monomial's coefficient. */
  lemma {:induction false} CanonicalCoeffOfTerm(s: Polynomial, i: nat)
    requires Canonical(s) && i < |s|
    ensures Coeff(s, s[i].variables) == s[i].coefficient
    decreases |s|
  {
    var q, t := Front(s), Last(s);
    assert Canonical(q);
    if i == |q| {
      assert !Occurs(q, t.variables);
      CoeffAbsent(q, t.variables);
    } else {
      assert q[i] == s[i];
      CanonicalCoeffOfTerm(q, i);
    }
  }

  lemma CanonicalSupport(s: Polynomial, m: Monomial)
    requires Canonical(s)
    ensures m in VarSet(s) <==> Coeff(s, m) != 0
  {
    if m in VarSet(s) {
      var i :| 0 <= i < |s| && s[i].variables == m;
      CanonicalCoeffOfTerm(s, i);
    } else {
      assert !Occurs(s, m);
      CoeffAbsent(s, m);
    }
  }

  lemma SameCoefficientsSameSupport(sa: Polynomial, sb: Polynomial)
    requires Canonical(sa) && Canonical(sb)
    requires forall m :: Coeff(sa, m) == Coeff(sb, m)
    ensures VarSet(sa) == VarSet(sb)
  {
    forall m ensures m in VarSet(sa) <==> m in VarSet(sb) {
      CanonicalSupport(sa, m);
      CanonicalSupport(sb, m);
    }
  }

  lemma SameCoefficientsMatch(sa: Polynomial, sb: Polynomial, i: nat)
    requires Canonical(sa) && Canonical(sb) && i < |sa|
    requires VarSet(sa) == VarSet(sb)
    requires forall m :: Coeff(sa, m) == Coeff(sb, m)
    ensures exists j :: 0 <= j < |sb| && TermsEquivalent(sa[i], sb[j])
  {
    assert sa[i].variables in VarSet(sb);
    var j :| 0 <= j < |sb| && sb[j].variables == sa[i].variables;
    CanonicalCoeffOfTerm(sa, i);
    CanonicalCoeffOfTerm(sb, j);
    TermsEquivalentIffEqual(sa[i], sb[j]);
  }

  lemma SameCoefficientsEqual(a: Polynomial, b: Polynomial)
    requires forall m :: Coeff(a, m) == Coeff(b, m)
    ensures PolynomialsEqual(a, b)
  {
    var sa, sb := Simplify(a), Simplify(b);
    CanonicalCard(sa);
    CanonicalCard(sb);
    SameCoefficientsSameSupport(sa, sb);
    forall i | 0 <= i < |sa| ensures exists j :: 0 <= j < |sb| && TermsEquivalent(sa[i], sb[j]) {
      SameCoefficientsMatch(sa, sb, i);
    }
  }

  lemma MatchedSupport(sa: Polynomial, sb: Polynomial)
    requires Canonical(sa) && Canonical(sb) && |sa| == |sb|
    requires forall i :: 0 <= i < |sa| ==> exists j :: 0 <= j < |sb| && TermsEquivalent(sa[i], sb[j])
    ensures VarSet(sa) == VarSet(sb)
  {
    CanonicalCard(sa);
    CanonicalCard(sb);
    assert VarSet(sa) <= VarSet(sb) by {
      forall m | m in VarSet(sa) ensures m in VarSet(sb) {
        var i :| 0 <= i < |sa| && sa[i].variables == m;
        var j :| 0 <= j < |sb| && TermsEquivalent(sa[i], sb[j]);
        TermsEquivalentIffEqual(sa[i], sb[j]);
      }
    }
    SubsetSameSize(VarSet(sa), VarSet(sb));
  }

  lemma EqualSameCoefficients(a: Polynomial, b: Polynomial, m: Monomial)
    requires PolynomialsEqual(a, b)
    ensures Coeff(a, m) == Coeff(b, m)
  {
    var sa, sb := Simplify(a), Simplify(b);
    MatchedSupport(sa, sb);
    if m in VarSet(sa) {
      var i :| 0 <= i < |sa| && sa[i].variables == m;
      var j :| 0 <= j < |sb| && TermsEquivalent(sa[i], sb[j]);
      TermsEquivalentIffEqual(sa[i], sb[j]);
      CanonicalCoeffOfTerm(sa, i);
      CanonicalCoeffOfTerm(sb, j);
    } else {
      CanonicalSupport(sa, m);
      CanonicalSupport(sb, m);
    }
  }

  /** `polynomialsAreEqual` holds exactly when the two polynomials give every
      monomial the same coefficient. */
  lemma PolynomialsEqualIffSameCoefficients(a: Polynomial, b: Polynomial)
    ensures PolynomialsEqual(a, b) <==> SameCoefficients(a, b)
  {
    if PolynomialsEqual(a, b) {
      EqualAllSameCoefficients(a, b);
    } else {
      ConverseOfEqual(a, b);
    }
  }

  lemma ConverseOfEqual(a: Polynomial, b: Polynomial)
    ensures SameCoefficients(a, b) ==> PolynomialsEqual(a, b)
  {
    if SameCoefficients(a, b) {
      SameCoefficientsEqual(a, b);
    }
  }

  lemma EqualAllSameCoefficients(a: Polynomial, b: Polynomial)
    requires PolynomialsEqual(a, b)
    ensures SameCoefficients(a, b)
  {
    forall m ensures Coeff(a, m) == Coeff(b, m) {
      EqualSameCoefficients(a, b, m);
    }
  }
}

/** The value of a polynomial under an assignment of integers to variables,
    and the laws that make normalisation sound: simplifying keeps the
    value, sums and products evaluate to sums and products. */
module PolynomialEvaluation {
  import opened Polynomials

  type Env = string -> int

  /** `x` to the power `e`; a negative exponent counts as zero. */
  function Pow(x: int, e: int): int
    decreases e
  {
    if e <= 0 then 1 else x * Pow(x, e - 1)
  }

  lemma {:induction false} PowAdd(x: int, a: int, b: int)
    requires a >= 0 && b >= 0
    ensures Pow(x, a + b) == Pow(x, a) * Pow(x, b)
    decreases a
  {
    if a > 0 {
      PowAdd(x, a - 1, b);
    }
  }

  lemma NegMul(c: int, v: int)
    ensures (-c) * v == -(c * v)
  {
  }

  lemma Interchange(a: int, b: int, c: int, d: int)
    ensures (a * b) * (c * d) == (a * c) * (b * d)
  {
  }

  lemma Swap(a: int, b: int, c: int)
    ensures a * (b * c) == b * (a * c)
  {
  }

  lemma Commute(a: int, b: int)
    ensures a * b == b * a
  {
  }

  lemma Distribute(a: int, b: int, c: int)
    ensures a * c + b * c == (a + b) * c
  {
  }

  predicate NonNegativeExponents(m: Monomial) {
    forall k :: k in m ==> m[k] >= 0
  }

  predicate NonNegative(p: Polynomial) {
    forall i :: 0 <= i < |p| ==> NonNegativeExponents(p[i].variables)
  }

  ghost function PickKey(m: Monomial): (k: string)
    requires |m| > 0
    ensures k in m
  {
    assert m.Keys != {};
    var k :| k in m.Keys; k
  }

  /** The value of a monomial. */
  ghost function MonoEval(m: Monomial, env: Env): int
    decreases |m|
  {
    if |m| == 0 then 1
    else
      var k := PickKey(m);
      assert |m - {k}| < |m| by {
        assert (m - {k}).Keys == m.Keys - {k};
      }
      Pow(env(k), m[k]) * MonoEval(m - {k}, env)
  }

  /** The value of a monomial does not depend on the order of its keys. */
  lemma {:induction false} MonoEvalRemove(m: Monomial, k: string, env: Env)
    requires k in m
    ensures MonoEval(m, env) == Pow(env(k), m[k]) * MonoEval(m - {k}, env)
    decreases |m|
  {
    var k0 := PickKey(m);
    if k0 != k {
      var m0, mk := m - {k0}, m - {k};
      assert m0.Keys == m.Keys - {k0};
      assert mk.Keys == m.Keys - {k};
      assert k in m0 && m0[k] == m[k];
      assert k0 in mk && mk[k0] == m[k0];
      MonoEvalRemove(m0, k, env);
      MonoEvalRemove(mk, k0, env);
      assert m0 - {k} == mk - {k0};
      ReorderFactors(Pow(env(k0), m[k0]), Pow(env(k), m[k]), MonoEval(m0 - {k}, env),
                     MonoEval(m, env), MonoEval(m0, env), MonoEval(mk, env));
    }
  }

  lemma ReorderFactors(a: int, b: int, rest: int, whole: int, withoutA: int, withoutB: int)
    requires whole == a * withoutA && withoutA == b * rest && withoutB == a * rest
    ensures whole == b * withoutB
  {
    Swap(a, b, rest);
  }

  lemma RemoveKey(x: Monomial, k: string)
    requires k in x
    ensures (x - {k}).Keys == x.Keys - {k}
    ensures |x - {k}| < |x|
  {
    assert (x - {k}).Keys == x.Keys - {k};
  }

  lemma MapAddRemove(x: Monomial, y: Monomial, k: string)
    ensures MapAdd(x, y) - {k} == MapAdd(x - {k}, y - {k})
  {
    var l, r := MapAdd(x, y) - {k}, MapAdd(x - {k}, y - {k});
    assert l.Keys == r.Keys by {
      assert l.Keys == (x.Keys + y.Keys) - {k};
      assert r.Keys == (x.Keys - {k}) + (y.Keys - {k});
    }
    forall j | j in l
      ensures l[j] == r[j]
    {
      assert Get0(x, j) == Get0(x - {k}, j);
      assert Get0(y, j) == Get0(y - {k}, j);
    }
  }

  lemma MapAddEmpty(x: Monomial, y: Monomial)
    requires |x| == 0
    ensures MapAdd(x, y) == y
  {
    assert x.Keys == {};
  }

  /** Like `MonoEvalRemove`, for a key that may be absent. */
  lemma MonoEvalSplit(m: Monomial, k: string, env: Env)
    ensures MonoEval(m, env) == Pow(env(k), Get0(m, k)) * MonoEval(m - {k}, env)
  {
    if k in m {
      MonoEvalRemove(m, k, env);
    } else {
      assert m - {k} == m;
    }
  }

  lemma MapAddSplit(x: Monomial, y: Monomial, k: string, env: Env)
    requires k in x && x[k] >= 0 && Get0(y, k) >= 0
    ensures MonoEval(MapAdd(x, y), env)
         == (Pow(env(k), x[k]) * Pow(env(k), Get0(y, k))) * MonoEval(MapAdd(x - {k}, y - {k}), env)
  {
    var s := MapAdd(x, y);
    assert Get0(s, k) == x[k] + Get0(y, k);
    MapAddRemove(x, y, k);
    MonoEvalSplit(s, k, env);
    PowAdd(env(k), x[k], Get0(y, k));
  }

  lemma MonoEvalStep(x: Monomial, y: Monomial, k: string, env: Env)
    requires k in x && x[k] >= 0 && Get0(y, k) >= 0
    ensures MonoEval(MapAdd(x, y), env)
         == (Pow(env(k), x[k]) * Pow(env(k), Get0(y, k))) * MonoEval(MapAdd(x - {k}, y - {k}), env)
    ensures MonoEval(x, env) == Pow(env(k), x[k]) * MonoEval(x - {k}, env)
    ensures MonoEval(y, env) == Pow(env(k), Get0(y, k)) * MonoEval(y - {k}, env)
  {
    MonoEvalSplit(x, k, env);
    MonoEvalSplit(y, k, env);
    MapAddSplit(x, y, k, env);
  }

  /** Multiplying monomials multiplies their values. */
  lemma {:induction false} MonoEvalMapAdd(x: Monomial, y: Monomial, env: Env)
    requires NonNegativeExponents(x) && NonNegativeExponents(y)
    ensures MonoEval(MapAdd(x, y), env) == MonoEval(x, env) * MonoEval(y, env)
    decreases |x|
  {
    if |x| == 0 {
      MapAddEmpty(x, y);
    } else {
      var k := PickKey(x);
      RemoveKey(x, k);
      MonoEvalStep(x, y, k, env);
      MonoEvalMapAdd(x - {k}, y - {k}, env);
      Interchange(Pow(env(k), x[k]), Pow(env(k), Get0(y, k)), MonoEval(x - {k}, env), MonoEval(y - {k}, env));
    }
  }

  /** The value of a polynomial: the sum of its terms' values. */
  ghost function Eval(p: Polynomial, env: Env): int {
    if p == [] then 0 else Eval(Front(p), env) + Last(p).coefficient * MonoEval(Last(p).variables, env)
  }

  lemma EvalSnoc(p: Polynomial, t: Term, env: Env)
    ensures Eval(p + [t], env) == Eval(p, env) + t.coefficient * MonoEval(t.variables, env)
  {
    assert Front(p + [t]) == p;
  }

  lemma {:induction false} EvalAppend(a: Polynomial, b: Polynomial, env: Env)
    ensures Eval(a + b, env) == Eval(a, env) + Eval(b, env)
    decreases |b|
  {
    if b == [] {
      assert a + b == a;
    } else {
      assert a + b == (a + Front(b)) + [Last(b)];
      EvalSnoc(a + Front(b), Last(b), env);
      EvalAppend(a, Front(b), env);
    }
  }

  lemma {:induction false} EvalNegate(p: Polynomial, env: Env)
    ensures Eval(Negate(p), env) == -Eval(p, env)
    decreases |p|
  {
    if p != [] {
      var q, t := Front(p), Last(p);
      assert Negate(p) == Negate(q) + [Neg(t)];
      EvalSnoc(Negate(q), Neg(t), env);
      EvalNegate(q, env);
      NegMul(t.coefficient, MonoEval(t.variables, env));
    }
  }

  /** The sum, over the monomials `ks`, of each one's coefficient in `p`
      times its value. */
  ghost function EvalKeys(p: Polynomial, ks: seq<Monomial>, env: Env): int {
    if ks == [] then 0 else EvalKeys(p, Front(ks), env) + Coeff(p, Last(ks)) * MonoEval(Last(ks), env)
  }

  lemma {:induction false} EvalCollect(p: Polynomial, ks: seq<Monomial>, env: Env)
    ensures Eval(Collect(p, ks), env) == EvalKeys(p, ks, env)
    decreases |ks|
  {
    if ks != [] {
      var k := Last(ks);
      var c := Coeff(p, k);
      EvalCollect(p, Front(ks), env);
      EvalAppend(Collect(p, Front(ks)), if c != 0 then [Term(c, k)] else [], env);
      if c != 0 {
        EvalSnoc([], Term(c, k), env);
      }
    }
  }

  lemma {:induction false} EvalKeysSnoc(p: Polynomial, t: Term, ks: seq<Monomial>, env: Env)
    requires Distinct(ks)
    ensures EvalKeys(p + [t], ks, env)
         == EvalKeys(p, ks, env) + (if t.variables in ks then t.coefficient * MonoEval(t.variables, env) else 0)
    decreases |ks|
  {
    if ks != [] {
      var f, k := Front(ks), Last(ks);
      assert ks == f + [k];
      assert Distinct(f) by {
        forall i, j | 0 <= i < j < |f| ensures f[i] != f[j] {
          assert f[i] == ks[i] && f[j] == ks[j];
        }
      }
      EvalKeysSnoc(p, t, f, env);
      CoeffSnoc(p, t, k);
      var tv := t.coefficient * MonoEval(t.variables, env);
      assert EvalKeys(p + [t], ks, env) == EvalKeys(p + [t], f, env) + Coeff(p + [t], k) * MonoEval(k, env);
      assert EvalKeys(p, ks, env) == EvalKeys(p, f, env) + Coeff(p, k) * MonoEval(k, env);
      if t.variables == k {
        assert k !in f by {
          forall i | 0 <= i < |f| ensures f[i] != k {
            assert f[i] == ks[i] && k == ks[|ks| - 1];
          }
        }
        KeysStepHit(EvalKeys(p + [t], f, env), EvalKeys(p, f, env), Coeff(p + [t], k), Coeff(p, k),
                    MonoEval(k, env), t.coefficient, tv);
      } else {
        assert (t.variables in ks) == (t.variables in f);
        KeysStepMiss(EvalKeys(p + [t], f, env), EvalKeys(p, f, env), Coeff(p + [t], k), Coeff(p, k),
                     MonoEval(k, env), if t.variables in f then tv else 0);
      }
    }
  }

  /** The arithmetic of `EvalKeysSnoc` when the new term's monomial is the
      last key. */
  lemma KeysStepHit(front: int, front0: int, c: int, c0: int, mk: int, tc: int, tv: int)
    requires front == front0 && c == c0 + tc && tv == tc * mk
    ensures front + c * mk == (front0 + c0 * mk) + tv
  {
    assert (c0 + tc) * mk == c0 * mk + tc * mk;
  }

  /** The same when it is not. */
  lemma KeysStepMiss(front: int, front0: int, c: int, c0: int, mk: int, d: int)
    requires front == front0 + d && c == c0
    ensures front + c * mk == (front0 + c0 * mk) + d
  {
  }

  lemma {:induction false} EvalAsKeys(p: Polynomial, env: Env)
    ensures Eval(p, env) == EvalKeys(p, Keys(p), env)
    decreases |p|
  {
    if p != [] {
      var q, t := Front(p), Last(p);
      assert p == q + [t];
      EvalAsKeys(q, env);
      KeysFacts(q);
      EvalKeysSnoc(q, t, Keys(q), env);
      if t.variables !in Keys(q) {
        var ks := Keys(q) + [t.variables];
        assert Keys(p) == ks;
        assert Front(ks) == Keys(q) && Last(ks) == t.variables;
        CoeffAbsent(q, t.variables);
        CoeffSnoc(q, t, t.variables);
        assert Coeff(p, t.variables) == t.coefficient;
        EvalKeysSnoc(q, t, Keys(q), env);
        assert EvalKeys(p, ks, env) == EvalKeys(p, Keys(q), env) + t.coefficient * MonoEval(t.variables, env);
      } else {
        assert Keys(p) == Keys(q);
      }
    }
  }

  /** Simplifying keeps the value. */
  lemma EvalSimplify(p: Polynomial, env: Env)
    ensures Eval(Simplify(p), env) == Eval(p, env)
  {
    EvalCollect(p, Keys(p), env);
    EvalAsKeys(p, env);
  }

  /** Polynomials with the same coefficients have the same value. */
  lemma SameCoefficientsSameValue(a: Polynomial, b: Polynomial, env: Env)
    requires SameCoefficients(a, b)
    ensures Eval(a, env) == Eval(b, env)
  {
    var d := a + Negate(b);
    forall m ensures Coeff(d, m) == 0 {
      CoeffAppend(a, Negate(b), m);
      CoeffNegate(b, m);
    }
    SimplifyZero(d);
    EvalSimplify(d, env);
    EvalAppend(a, Negate(b), env);
    EvalNegate(b, env);
  }

  lemma {:induction false} EvalRow(t: Term, b: Polynomial, env: Env)
    requires NonNegativeExponents(t.variables) && NonNegative(b)
    ensures Eval(Row(t, b), env) == (t.coefficient * MonoEval(t.variables, env)) * Eval(b, env)
    decreases |b|
  {
    if b != [] {
      var q, u := Front(b), Last(b);
      assert Row(t, b) == Row(t, q) + [MulTerm(t, u)];
      assert NonNegative(q) by {
        forall i | 0 <= i < |q| ensures NonNegativeExponents(q[i].variables) {
          assert q[i] == b[i];
        }
      }
      EvalRow(t, q, env);
      EvalSnoc(Row(t, q), MulTerm(t, u), env);
      MonoEvalMapAdd(t.variables, u.variables, env);
      RowStep(t.coefficient, MonoEval(t.variables, env), u.coefficient, MonoEval(u.variables, env),
              Eval(q, env), Eval(Row(t, q), env), Eval(Row(t, b), env), Eval(b, env));
    }
  }

  /** The arithmetic of one step of `EvalRow`. */
  lemma RowStep(tc: int, tm: int, uc: int, um: int, eq: int, rowQ: int, rowB: int, eb: int)
    requires rowQ == (tc * tm) * eq
    requires rowB == rowQ + (tc * uc) * (tm * um)
    requires eb == eq + uc * um
    ensures rowB == (tc * tm) * eb
  {
    Interchange(tc, uc, tm, um);
    Distribute(eq, uc * um, tc * tm);
    Commute(tc * tm, eq);
    Commute(tc * tm, uc * um);
    Commute(tc * tm, eb);
  }

  lemma {:induction false} EvalProducts(a: Polynomial, b: Polynomial, env: Env)
    requires NonNegative(a) && NonNegative(b)
    ensures Eval(Products(a, b), env) == Eval(a, env) * Eval(b, env)
    decreases |a|
  {
    if a != [] {
      var q, t := Front(a), Last(a);
      assert NonNegative(q) by {
        forall i | 0 <= i < |q| ensures NonNegativeExponents(q[i].variables) {
          assert q[i] == a[i];
        }
      }
      EvalProducts(q, b, env);
      assert Products(a, b) == Products(q, b) + Row(t, b);
      EvalAppend(Products(q, b), Row(t, b), env);
      EvalRow(t, b, env);
      ProductsStep(Eval(q, env), Eval(b, env), t.coefficient * MonoEval(t.variables, env), Eval(a, env),
                   Eval(Products(q, b), env), Eval(Row(t, b), env), Eval(Products(a, b), env));
    }
  }

  /** The arithmetic of one step of `EvalProducts`. */
  lemma ProductsStep(eq: int, eb: int, w: int, ea: int, prodQ: int, row: int, prodA: int)
    requires prodQ == eq * eb && row == w * eb && prodA == prodQ + row && ea == eq + w
    ensures prodA == ea * eb
  {
    Distribute(eq, w, eb);
  }

  lemma SimplifyNonNegative(p: Polynomial)
    requires NonNegative(p)
    ensures NonNegative(Simplify(p))
  {
    KeysFacts(p);
    CollectCanonical(p, Keys(p));
  }

  lemma NegateNonNegative(p: Polynomial)
    requires NonNegative(p)
    ensures NonNegative(Negate(p))
  {
  }

  lemma {:induction false} ProductsNonNegative(a: Polynomial, b: Polynomial)
    requires NonNegative(a) && NonNegative(b)
    ensures NonNegative(Products(a, b))
    decreases |a|
  {
    if a != [] {
      ProductsNonNegative(Front(a), b);
      RowNonNegative(Last(a), b);
    }
  }

  lemma {:induction false} RowNonNegative(t: Term, b: Polynomial)
    requires NonNegativeExponents(t.variables) && NonNegative(b)
    ensures NonNegative(Row(t, b))
    decreases |b|
  {
    if b != [] {
      RowNonNegative(t, Front(b));
    }
  }

  lemma AddNonNegative(a: Polynomial, b: Polynomial)
    requires NonNegative(a) && NonNegative(b)
    ensures NonNegative(Add(a, b))
  {
    SimplifyNonNegative(a + b);
  }

  lemma SubtractNonNegative(a: Polynomial, b: Polynomial)
    requires NonNegative(a) && NonNegative(b)
    ensures NonNegative(Subtract(a, b))
  {
    SimplifyNonNegative(a + Negate(b));
  }

  lemma MultiplyNonNegative(a: Polynomial, b: Polynomial)
    requires NonNegative(a) && NonNegative(b)
    ensures NonNegative(Multiply(a, b))
  {
    ProductsNonNegative(a, b);
    SimplifyNonNegative(Products(a, b));
  }

  /** `addPolynomials` evaluates to the sum. */
  lemma EvalAdd(a: Polynomial, b: Polynomial, env: Env)
    ensures Eval(Add(a, b), env) == Eval(a, env) + Eval(b, env)
  {
    EvalSimplify(a + b, env);
    EvalAppend(a, b, env);
  }

  /** `subtractPolynomials` evaluates to the difference. */
  lemma EvalSubtract(a: Polynomial, b: Polynomial, env: Env)
    ensures Eval(Subtract(a, b), env) == Eval(a, env) - Eval(b, env)
  {
    EvalSimplify(a + Negate(b), env);
    EvalAppend(a, Negate(b), env);
    EvalNegate(b, env);
  }

  /** `multiplyPolynomials` evaluates to the product, for exponents that
      are not negative (the only ones the language produces). */
  lemma EvalMultiply(a: Polynomial, b: Polynomial, env: Env)
    requires NonNegative(a) && NonNegative(b)
    ensures Eval(Multiply(a, b), env) == Eval(a, env) * Eval(b, env)
  {
    EvalSimplify(Products(a, b), env);
    EvalProducts(a, b, env);
  }
}
