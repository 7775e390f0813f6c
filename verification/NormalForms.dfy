/** The normal form of arithmetic terms: sorted sums of sorted products, each product once and none with coefficient zero. */
module NormalForms {
  import opened Wrappers
  import opened Arithmetic

  // ---------- orders ----------

  ghost predicate StrictTotalAt(before: IdOrder, a: ArithTerm, b: ArithTerm, c: ArithTerm) {
    && !before(a, a)
    && (before(a, b) && before(b, c) ==> before(a, c))
    && (a != b ==> before(a, b) || before(b, a))
  }

  /** The order of creation is a strict total order. */
  ghost predicate StrictTotal(before: IdOrder) {
    forall a, b, c :: StrictTotalAt(before, a, b, c)
  }

  lemma FactorOrder(before: IdOrder, a: ArithTerm, b: ArithTerm, c: ArithTerm)
    requires StrictTotal(before)
    ensures StrictTotalAt((x, y) => MultiplicationBefore(before, x, y), a, b, c)
    ensures !(MultiplicationBefore(before, a, b) && MultiplicationBefore(before, b, a))
  {
    assert StrictTotalAt(before, a, b, c) && StrictTotalAt(before, a, b, a);
  }

  /** The factors of a product other than the constant. */
  type Key = seq<ArithTerm>

  /** The first place at which two lists of factors differ decides. */
  predicate LexBefore(before: IdOrder, k: Key, l: Key)
    requires |k| == |l|
  {
    k != [] && if k[0] == l[0] then LexBefore(before, k[1..], l[1..]) else MultiplicationBefore(before, k[0], l[0])
  }

  predicate KeyBefore(before: IdOrder, k: Key, l: Key) {
    |k| < |l| || (|k| == |l| && LexBefore(before, k, l))
  }

  lemma {:induction false} LexOrder(before: IdOrder, k: Key, l: Key, m: Key)
    requires StrictTotal(before) && |k| == |l| == |m|
    ensures !LexBefore(before, k, k)
    ensures LexBefore(before, k, l) && LexBefore(before, l, m) ==> LexBefore(before, k, m)
    ensures k != l ==> LexBefore(before, k, l) || LexBefore(before, l, k)
    decreases k
  {
    if k != [] {
      LexOrder(before, k[1..], l[1..], m[1..]);
      FactorOrder(before, k[0], l[0], m[0]);
      assert k[0] == l[0] && k[1..] == l[1..] ==> k == [k[0]] + k[1..] == l;
    }
  }

  lemma KeyOrder(before: IdOrder, k: Key, l: Key, m: Key)
    requires StrictTotal(before)
    ensures !KeyBefore(before, k, k)
    ensures KeyBefore(before, k, l) && KeyBefore(before, l, m) ==> KeyBefore(before, k, m)
    ensures k != l ==> KeyBefore(before, k, l) || KeyBefore(before, l, k)
    ensures !(KeyBefore(before, k, l) && KeyBefore(before, l, k))
  {
    LexOrder(before, k, k, k);
    if |k| == |l| {
      LexOrder(before, k, l, k);
      if |l| == |m| { LexOrder(before, k, l, m); }
    }
  }

  /** The order of terms looks at their factors only. */
  lemma TermOrderIsKeyOrder(before: IdOrder, a: ArithTerm, b: ArithTerm)
    requires StrictTotal(before)
    ensures TermOrderBefore(before, a, b) <==> KeyBefore(before, Factors(a)[1..], Factors(b)[1..])
  {
    if |Factors(a)| == |Factors(b)| { LexFrom(before, Factors(a), Factors(b), 1); }
  }

  lemma {:induction false} LexFrom(before: IdOrder, x: seq<ArithTerm>, y: seq<ArithTerm>, i: nat)
    requires StrictTotal(before) && 1 <= i <= |x| == |y| && forall m :: 1 <= m < i ==> x[m] == y[m]
    ensures LexBefore(before, x[i..], y[i..]) <==>
      exists n :: 1 <= n < |x| && MultiplicationBefore(before, x[n], y[n]) && NotAfter(before, x, y, n)
    decreases |x| - i
  {
    forall m | 1 <= m < |x| ensures !MultiplicationBefore(before, x[m], x[m]) { FactorOrder(before, x[m], x[m], x[m]); }
    if i < |x| {
      FactorOrder(before, x[i], y[i], x[i]);
      if x[i] == y[i] {
        LexFrom(before, x, y, i + 1);
        assert x[i..][1..] == x[i + 1..] && y[i..][1..] == y[i + 1..];
      } else if MultiplicationBefore(before, x[i], y[i]) {
        assert NotAfter(before, x, y, i);
      }
    }
  }

  // ---------- products ----------

  /** A constant times factors that are unknowns or calls. */
  datatype Mono = Mono(coef: real, key: Key)

  const ZERO := Mono(0.0, [])
  const ONE := Mono(1.0, [])

  predicate IsAtom(t: ArithTerm) {
    t.Unknown? || t.Call?
  }

  /** The factors are sorted. */
  predicate OkKey(before: IdOrder, k: Key) {
    && (forall i :: 0 <= i < |k| ==> IsAtom(k[i]))
    && forall i, j :: 0 <= i < j < |k| ==> !before(k[j], k[i])
  }

  predicate OkMono(before: IdOrder, m: Mono) {
    m.coef != 0.0 && OkKey(before, m.key)
  }

  function Chain(parts: seq<ArithTerm>): ArithTerm
    requires parts != []
  {
    if |parts| == 1 then parts[0] else Times(Chain(parts[..|parts| - 1]), parts[|parts| - 1])
  }

  /** What stands in the term of a product; the constant 1 is left out. */
  function Parts(m: Mono): (r: seq<ArithTerm>)
    ensures r != []
  {
    if m.coef == 1.0 && m.key != [] then m.key else [Number(m.coef)] + m.key
  }

  function MonoTerm(m: Mono): ArithTerm {
    Chain(Parts(m))
  }

  function MonoOf(t: ArithTerm): Mono {
    Mono(Factors(t)[0].value, Factors(t)[1..])
  }

  lemma {:induction false} ChainFactors(parts: seq<ArithTerm>)
    requires parts != [] && !parts[0].Times? && !parts[0].Plus?
    ensures Factors(Chain(parts)) == if parts[0].Number? then parts else [Number(1.0)] + parts
    ensures Chain(parts).Times? <==> |parts| > 1
    ensures !Chain(parts).Plus?
    decreases parts
  {
    if |parts| > 1 {
      ChainFactors(parts[..|parts| - 1]);
      assert parts[..|parts| - 1] + [parts[|parts| - 1]] == parts;
    }
  }

  /** A product can be read off its term. */
  lemma MonoFactors(m: Mono)
    requires forall i :: 0 <= i < |m.key| ==> IsAtom(m.key[i])
    ensures Factors(MonoTerm(m)) == [Number(m.coef)] + m.key && MonoOf(MonoTerm(m)) == m
    ensures MonoTerm(m).Times? <==> |Parts(m)| > 1
    ensures !MonoTerm(m).Plus? && (MonoTerm(m).Number? <==> m.key == [])
    ensures |Parts(m)| == 1 ==> MonoTerm(m) == Parts(m)[0]
    ensures |Parts(m)| > 1 ==> MonoTerm(m) == Times(Chain(Parts(m)[..|Parts(m)| - 1]), m.key[|m.key| - 1])
  {
    ChainFactors(Parts(m));
    assert [Number(m.coef)] + [] == [Number(m.coef)];
  }

  // ---------- sums ----------

  type Poly = seq<Mono>

  /** Each product once, in increasing order. */
  predicate OkPoly(before: IdOrder, p: Poly) {
    && (forall i :: 0 <= i < |p| ==> OkMono(before, p[i]))
    && forall i, j :: 0 <= i < j < |p| ==> KeyBefore(before, p[i].key, p[j].key)
  }

  function PolyTerm(p: Poly): ArithTerm {
    if p == [] then Number(0.0)
    else if |p| == 1 then MonoTerm(p[0])
    else Plus(PolyTerm(p[..|p| - 1]), MonoTerm(p[|p| - 1]))
  }

  /** The products of a sum, from left to right. */
  function Monomials(t: ArithTerm): Poly {
    if t.Plus? then Monomials(t.left) + [MonoOf(t.right)]
    else if t == Number(0.0) then []
    else [MonoOf(t)]
  }

  /** A term in normal form. */
  predicate Normal(before: IdOrder, t: ArithTerm) {
    OkPoly(before, Monomials(t)) && t == PolyTerm(Monomials(t))
  }

  /** Products in any order, zero among them. */
  ghost predicate Loose(before: IdOrder, p: Poly) {
    forall i :: 0 <= i < |p| ==> p[i] == ZERO || OkMono(before, p[i])
  }

  /** A sum can be read off its term. */
  lemma {:induction false} PolyMonomials(before: IdOrder, p: Poly)
    requires Loose(before, p) && (p != [] ==> p[0] != ZERO)
    ensures Monomials(PolyTerm(p)) == p
    ensures PolyTerm(p).Plus? <==> |p| > 1
    decreases p
  {
    if p != [] { MonoFactors(p[|p| - 1]); }
    if |p| > 1 { PolyMonomials(before, p[..|p| - 1]); }
  }

  lemma NormalPoly(before: IdOrder, p: Poly)
    requires OkPoly(before, p)
    ensures Normal(before, PolyTerm(p)) && Monomials(PolyTerm(p)) == p && (PolyTerm(p).Plus? <==> |p| > 1)
  {
    PolyMonomials(before, p);
  }

  // ---------- a normal term is determined by its coefficients ----------

  /** The coefficient of a product of unknowns and calls in a sum: all its occurrences together. */
  function Coefficient(t: ArithTerm, k: Key): real {
    if t.Plus? then Coefficient(t.left, k) + Coefficient(t.right, k)
    else if Factors(t)[1..] == k then Factors(t)[0].value else 0.0
  }

  function CoefficientIn(p: Poly, k: Key): real {
    if p == [] then 0.0 else CoefficientIn(p[..|p| - 1], k) + CoefficientOf(p[|p| - 1], k)
  }

  function CoefficientOf(m: Mono, k: Key): real {
    if m.key == k then m.coef else 0.0
  }

  lemma {:induction false} CoefficientsAre(before: IdOrder, p: Poly, k: Key)
    requires OkPoly(before, p)
    ensures Coefficient(PolyTerm(p), k) == CoefficientIn(p, k)
    decreases p
  {
    if p != [] { MonoFactors(p[|p| - 1]); }
    if |p| > 1 { CoefficientsAre(before, p[..|p| - 1], k); }
  }

  /** A product that comes after the whole sum does not occur in it. */
  lemma {:induction false} NotAmong(p: Poly, k: Key)
    requires forall i :: 0 <= i < |p| ==> p[i].key != k
    ensures CoefficientIn(p, k) == 0.0
    decreases p
  {
    if p != [] { NotAmong(p[..|p| - 1], k); }
  }

  lemma LastCoefficient(before: IdOrder, p: Poly)
    requires StrictTotal(before) && OkPoly(before, p) && p != []
    ensures CoefficientIn(p, p[|p| - 1].key) == p[|p| - 1].coef
    ensures CoefficientIn(p[..|p| - 1], p[|p| - 1].key) == 0.0
  {
    forall i | 0 <= i < |p| - 1 ensures p[i].key != p[|p| - 1].key { KeyOrder(before, p[i].key, p[i].key, p[i].key); }
    NotAmong(p[..|p| - 1], p[|p| - 1].key);
  }

  lemma LastAfter(before: IdOrder, p: Poly, k: Key)
    requires StrictTotal(before) && OkPoly(before, p) && (p != [] ==> KeyBefore(before, p[|p| - 1].key, k))
    ensures CoefficientIn(p, k) == 0.0
    ensures forall i :: 0 <= i < |p| ==> KeyBefore(before, p[i].key, k) && p[i].key != k
  {
    forall i | 0 <= i < |p| ensures KeyBefore(before, p[i].key, k) && p[i].key != k {
      KeyOrder(before, p[i].key, p[|p| - 1].key, k);
      KeyOrder(before, k, k, k);
    }
    NotAmong(p, k);
  }

  ghost predicate SameIn(p: Poly, q: Poly) {
    forall k: Key :: CoefficientIn(p, k) == CoefficientIn(q, k)
  }

  lemma {:induction false} SamePoly(before: IdOrder, p: Poly, q: Poly)
    requires StrictTotal(before) && OkPoly(before, p) && OkPoly(before, q) && SameIn(p, q)
    ensures p == q
    decreases |p| + |q|
  {
    if p == [] && q == [] {
      return;
    }
    if q == [] || (p != [] && KeyBefore(before, q[|q| - 1].key, p[|p| - 1].key)) {
      LastCoefficient(before, p);
      LastAfter(before, q, p[|p| - 1].key);
      assert false;
    } else if p == [] || KeyBefore(before, p[|p| - 1].key, q[|q| - 1].key) {
      LastCoefficient(before, q);
      LastAfter(before, p, q[|q| - 1].key);
      assert false;
    } else {
      KeyOrder(before, p[|p| - 1].key, q[|q| - 1].key, []);
      LastCoefficient(before, p);
      LastCoefficient(before, q);
      var p', q' := p[..|p| - 1], q[..|q| - 1];
      assert p[|p| - 1] == q[|q| - 1];
      forall k ensures CoefficientIn(p', k) == CoefficientIn(q', k) { assert CoefficientIn(p, k) == CoefficientIn(q, k); }
      SamePoly(before, p', q');
      assert p == p' + [p[|p| - 1]] && q == q' + [q[|q| - 1]];
    }
  }

  /** Two normal terms with the same coefficients are the same term. */
  lemma SameCoefficients(before: IdOrder, a: ArithTerm, b: ArithTerm)
    requires StrictTotal(before) && Normal(before, a) && Normal(before, b)
    requires forall k: Key :: Coefficient(a, k) == Coefficient(b, k)
    ensures a == b
  {
    var p, q := Monomials(a), Monomials(b);
    forall k ensures CoefficientIn(p, k) == CoefficientIn(q, k) {
      CoefficientsAre(before, p, k);
      CoefficientsAre(before, q, k);
      assert Coefficient(a, k) == Coefficient(b, k);
    }
    assert SameIn(p, q);
    SamePoly(before, p, q);
  }
}
