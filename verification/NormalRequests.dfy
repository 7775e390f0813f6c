/** Products of sums, and what the manager makes of whole requests and comparisons of normal terms. */
module NormalRequests {
  import opened Wrappers
  import opened Arithmetic
  import opened ArithmeticRewriting
  import opened Comparisons
  import opened NormalForms
  import opened NormalSums
  import opened NormalProducts

  // ---------- products of sums ----------

  /** The product of two sums, mathematically: every product of the one with every product of the other. */
  function MulPoly(before: IdOrder, p: Poly, q: Poly): Poly
    decreases |p| + |q|
  {
    if p == [] || q == [] then []
    else if |p| > 1 then AddPoly(before, MulPoly(before, p[..|p| - 1], q), MulPoly(before, [p[|p| - 1]], q))
    else if |q| > 1 then AddPoly(before, MulPoly(before, p, q[..|q| - 1]), MulPoly(before, p, [q[|q| - 1]]))
    else [MulMono(before, p[0], q[0])]
  }

  /** All products of two products that occur have to settle, and so have their sums. */
  predicate ProductSettles(before: IdOrder, p: Poly, q: Poly)
    decreases |p| + |q|
  {
    p == [] || q == [] || p == [ONE] || q == [ONE] ||
    if |p| > 1 then
      && ProductSettles(before, p[..|p| - 1], q) && ProductSettles(before, [p[|p| - 1]], q)
      && Settles(before, MulPoly(before, p[..|p| - 1], q), MulPoly(before, [p[|p| - 1]], q))
    else if |q| > 1 then
      && ProductSettles(before, p, q[..|q| - 1]) && ProductSettles(before, p, [q[|q| - 1]])
      && Settles(before, MulPoly(before, p, q[..|q| - 1]), MulPoly(before, p, [q[|q| - 1]]))
    else MonoSettles(before, p[0], q[0])
  }

  /** The coefficient of the product with factors k in m times q. */
  function RowCoefficient(before: IdOrder, m: Mono, q: Poly, k: Key): real {
    if q == [] then 0.0 else RowCoefficient(before, m, q[..|q| - 1], k) + CoefficientOf(MulMono(before, m, q[|q| - 1]), k)
  }

  function PairsCoefficient(before: IdOrder, p: Poly, q: Poly, k: Key): real {
    if p == [] then 0.0 else PairsCoefficient(before, p[..|p| - 1], q, k) + RowCoefficient(before, p[|p| - 1], q, k)
  }

  lemma SingleOk(before: IdOrder, m: Mono)
    requires OkMono(before, m)
    ensures OkPoly(before, [m])
  {
  }

  /** The coefficients are those of all pairs with the same factors. */
  lemma {:induction false} MulPolyOk(before: IdOrder, p: Poly, q: Poly)
    requires StrictTotal(before) && OkPoly(before, p) && OkPoly(before, q)
    ensures OkPoly(before, MulPoly(before, p, q))
    ensures forall k: Key :: CoefficientIn(MulPoly(before, p, q), k) == PairsCoefficient(before, p, q, k)
    decreases |p| + |q|
  {
    hide OkPoly, MulMono, AddPoly;
    if p == [] || q == [] {
      NoPairs(before, p, q);
    } else if |p| > 1 {
      PartsOk(before, p);
      MulPolyOk(before, p[..|p| - 1], q);
      MulPolyOk(before, [p[|p| - 1]], q);
      AddPolyOk(before, MulPoly(before, p[..|p| - 1], q), MulPoly(before, [p[|p| - 1]], q));
      var l := p[|p| - 1];
      forall k: Key ensures PairsCoefficient(before, [l], q, k) == RowCoefficient(before, l, q, k) { SinglePairs(before, l, q, k); }
    } else if |q| > 1 {
      PartsOk(before, q);
      MulPolyOk(before, p, q[..|q| - 1]);
      MulPolyOk(before, p, [q[|q| - 1]]);
      AddPolyOk(before, MulPoly(before, p, q[..|q| - 1]), MulPoly(before, p, [q[|q| - 1]]));
      forall k: Key ensures PairsCoefficient(before, p, q, k) ==
        PairsCoefficient(before, p, q[..|q| - 1], k) + PairsCoefficient(before, p, [q[|q| - 1]], k)
      {
        assert p == [p[0]];
        SinglePairs(before, p[0], q, k);
        SinglePairs(before, p[0], q[..|q| - 1], k);
        SinglePairs(before, p[0], [q[|q| - 1]], k);
        SingleRow(before, p[0], q[|q| - 1], k);
      }
    } else {
      assert p == [p[0]] && q == [q[0]];
      PartsOk(before, p);
      PartsOk(before, q);
      MulMonoOk(before, p[0], q[0]);
      SingleOk(before, MulMono(before, p[0], q[0]));
      forall k: Key ensures CoefficientIn([MulMono(before, p[0], q[0])], k) == PairsCoefficient(before, p, q, k) {
        SinglePairs(before, p[0], q, k);
        SingleRow(before, p[0], q[0], k);
        SingleCoefficient(MulMono(before, p[0], q[0]), k);
      }
    }
  }

  lemma {:induction false} NoPairs(before: IdOrder, p: Poly, q: Poly)
    requires p == [] || q == []
    ensures forall k: Key :: PairsCoefficient(before, p, q, k) == 0.0
    decreases p
  {
    if p != [] { NoPairs(before, p[..|p| - 1], q); }
  }

  lemma SinglePairs(before: IdOrder, m: Mono, q: Poly, k: Key)
    ensures PairsCoefficient(before, [m], q, k) == RowCoefficient(before, m, q, k)
  {
    assert [m][..0] == [];
    assert PairsCoefficient(before, [], q, k) == 0.0;
  }

  lemma SingleRow(before: IdOrder, m: Mono, n: Mono, k: Key)
    ensures RowCoefficient(before, m, [n], k) == CoefficientOf(MulMono(before, m, n), k)
  {
    assert [n][..0] == [];
    assert RowCoefficient(before, m, [], k) == 0.0;
  }

  lemma SingleCoefficient(m: Mono, k: Key)
    ensures CoefficientIn([m], k) == CoefficientOf(m, k)
  {
    assert [m][..0] == [];
  }

  lemma PartsOk(before: IdOrder, p: Poly)
    requires OkPoly(before, p) && p != []
    ensures OkPoly(before, p[..|p| - 1]) && OkPoly(before, [p[|p| - 1]]) && OkMono(before, p[|p| - 1])
  {
  }

  // ---------- the recursion ----------

  lemma SumsOfProducts(fuel: nat, before: IdOrder, a: ArithTerm, b: ArithTerm)
    requires fuel > 0 && (a.Plus? || b.Plus?) && (a.Number? ==> a.value != 0.0 && a.value != 1.0) && (b.Number? ==> b.value != 0.0 && b.value != 1.0)
    ensures ProductTerm(fuel, before, a, b) ==
      if a.Plus? then SumOfProducts(fuel, before, a.left, b, a.right, b) else SumOfProducts(fuel, before, a, b.left, a, b.right)
  {
  }

  lemma TrivialProducts(fuel: nat, before: IdOrder, a: ArithTerm)
    requires fuel > 0
    ensures ProductTerm(fuel, before, Number(0.0), a) == Some(Number(0.0))
    ensures ProductTerm(fuel, before, a, Number(0.0)) == Some(Number(0.0))
    ensures ProductTerm(fuel, before, Number(1.0), a) == Some(a)
    ensures ProductTerm(fuel, before, a, Number(1.0)) == Some(a)
  {
    if a.Number? { ConstantZero(a.value); }
  }

  lemma ConstantZero(x: real)
    ensures ConstantProduct(x, 0.0) == Number(0.0) && ConstantProduct(x, 1.0) == Number(x)
  {
  }

  /** What a sum with several products is, and when it is a constant. */
  lemma PolyShape(before: IdOrder, p: Poly)
    requires OkPoly(before, p)
    ensures PolyTerm(p) == Number(0.0) <==> p == []
    ensures PolyTerm(p) == Number(1.0) <==> p == [ONE]
    ensures PolyTerm(p).Plus? <==> |p| > 1
    ensures |p| > 1 ==> PolyTerm(p) == Plus(PolyTerm(p[..|p| - 1]), PolyTerm([p[|p| - 1]]))
  {
    NormalPoly(before, p);
    if |p| > 1 { FewProducts([p[|p| - 1]]); }
    if |p| == 1 {
      MonoNumbers(before, p[0]);
      assert p == [p[0]];
    }
  }

  lemma {:induction false} TimesOneIs(before: IdOrder, p: Poly)
    requires StrictTotal(before) && OkPoly(before, p)
    ensures MulPoly(before, [ONE], p) == p && MulPoly(before, p, [ONE]) == p
  {
    MulOk(before, [ONE], p);
    MulOk(before, p, [ONE]);
    forall k: Key ensures PairsCoefficient(before, [ONE], p, k) == CoefficientIn(p, k) && PairsCoefficient(before, p, [ONE], k) == CoefficientIn(p, k) {
      OneRow(before, p, k);
    }
    SamePoly(before, MulPoly(before, [ONE], p), p);
    SamePoly(before, MulPoly(before, p, [ONE]), p);
  }

  lemma MulOk(before: IdOrder, p: Poly, q: Poly)
    requires StrictTotal(before) && (p == [ONE] || OkPoly(before, p)) && (q == [ONE] || OkPoly(before, q))
    ensures OkPoly(before, MulPoly(before, p, q))
    ensures forall k: Key :: CoefficientIn(MulPoly(before, p, q), k) == PairsCoefficient(before, p, q, k)
  {
    SingleOk(before, ONE);
    MulPolyOk(before, p, q);
  }

  lemma {:induction false} OneRow(before: IdOrder, p: Poly, k: Key)
    requires StrictTotal(before) && OkPoly(before, p)
    ensures PairsCoefficient(before, [ONE], p, k) == CoefficientIn(p, k) && PairsCoefficient(before, p, [ONE], k) == CoefficientIn(p, k)
    decreases p
  {
    SinglePairs(before, ONE, p, k);
    if p != [] {
      PartsOk(before, p);
      OneRow(before, p[..|p| - 1], k);
      SinglePairs(before, ONE, p[..|p| - 1], k);
      SingleRow(before, p[|p| - 1], ONE, k);
      Multiplies(before, ONE, p[|p| - 1], p[|p| - 1]);
      Commutes(before, ONE, p[|p| - 1]);
    }
  }

  /** Where the products settle, there is an answer, and it is the normal term of the product. */
  lemma {:induction false} ProductsSettle(before: IdOrder, p: Poly, q: Poly) returns (n: nat)
    requires StrictTotal(before) && OkPoly(before, p) && OkPoly(before, q) && ProductSettles(before, p, q)
    ensures ProductTerm(n, before, PolyTerm(p), PolyTerm(q)) == Some(PolyTerm(MulPoly(before, p, q)))
    decreases |p| + |q|
  {
    hide ProductTerm, PolyTerm, OkPoly, MonoTerm, MulMono, Settles, MonoSettles, AddPoly;
    PolyShape(before, p);
    PolyShape(before, q);
    n := 1;
    if p == [] || q == [] || p == [ONE] || q == [ONE] {
      TrivialProducts(1, before, PolyTerm(p));
      TrivialProducts(1, before, PolyTerm(q));
      TimesOneIs(before, p);
      TimesOneIs(before, q);
      FewProducts([]);
      EmptyTerm();
    } else if |p| > 1 {
      PartsOk(before, p);
      var init, l := p[..|p| - 1], [p[|p| - 1]];
      var n1 := ProductsSettle(before, init, q);
      var n2 := ProductsSettle(before, l, q);
      MulPolyOk(before, init, q);
      MulPolyOk(before, l, q);
      n := Enlarged(before, PolyTerm(init), PolyTerm(q), PolyTerm(l), PolyTerm(q), n1, n2, MulPoly(before, init, q), MulPoly(before, l, q));
      SumsOfProducts(n, before, PolyTerm(p), PolyTerm(q));
    } else if |q| > 1 {
      PartsOk(before, q);
      var init, l := q[..|q| - 1], [q[|q| - 1]];
      var n1 := ProductsSettle(before, p, init);
      var n2 := ProductsSettle(before, p, l);
      MulPolyOk(before, p, init);
      MulPolyOk(before, p, l);
      n := Enlarged(before, PolyTerm(p), PolyTerm(init), PolyTerm(p), PolyTerm(l), n1, n2, MulPoly(before, p, init), MulPoly(before, p, l));
      SumsOfProducts(n, before, PolyTerm(p), PolyTerm(q));
    } else {
      PartsOk(before, p);
      PartsOk(before, q);
      FewProducts(p);
      FewProducts(q);
      FewProducts([MulMono(before, p[0], q[0])]);
      n := |p[0].key| + 2 * |q[0].key| + 6;
      MonosSettle(n, before, p[0], q[0]);
    }
  }

  lemma EmptyTerm()
    ensures PolyTerm([]) == Number(0.0)
  {
  }

  /** Fuel for two products and their sum. */
  lemma Enlarged(before: IdOrder, a: ArithTerm, b: ArithTerm, c: ArithTerm, d: ArithTerm, n1: nat, n2: nat, p: Poly, q: Poly) returns (n: nat)
    requires StrictTotal(before) && Settles(before, p, q)
    requires ProductTerm(n1, before, a, b) == Some(PolyTerm(p)) && ProductTerm(n2, before, c, d) == Some(PolyTerm(q))
    requires OkPoly(before, p) && OkPoly(before, q)
    ensures n > 0 && SumOfProducts(n, before, a, b, c, d) == Some(PolyTerm(AddPoly(before, p, q)))
  {
    hide ProductTerm, SumTerm, PolyTerm, OkPoly, Settles;
    n := n1 + n2 + |p| + 2 * |q| + 6;
    MoreFuel(n1, n - 1, before, a, b);
    MoreFuel(n2, n - 1, before, c, d);
    SumsSettle(n - 1, before, p, q);
  }

  // ---------- multiples ----------

  /** The coefficients times a constant. */
  function Multiple(c: real, p: Poly): (r: Poly)
    ensures |r| == |p|
  {
    seq(|p|, i requires 0 <= i < |p| => Mono(CoefProduct(c, p[i].coef), p[i].key))
  }

  /** Does the product start with a call that has other factors behind it? */
  predicate CallFirst(m: Mono) {
    |Parts(m)| > 1 && Parts(m)[0].Call?
  }

  lemma ConstantSettles(before: IdOrder, c: real, m: Mono)
    requires StrictTotal(before) && OkMono(before, m) && c != 0.0 && c != 1.0
    ensures MonoSettles(before, Mono(c, []), m) <==> !CallFirst(m)
    ensures MulMono(before, Mono(c, []), m) == Mono(CoefProduct(c, m.coef), m.key)
  {
    PartsAreParts(before, m);
    assert Parts(Mono(c, [])) == [Number(c)];
    Multiplies(before, Mono(c, []), m, Mono(CoefProduct(c, m.coef), m.key));
  }

  lemma MultipleOk(before: IdOrder, c: real, p: Poly)
    requires OkPoly(before, p) && c != 0.0
    ensures OkPoly(before, Multiple(c, p))
  {
    var r := Multiple(c, p);
    forall i, j | 0 <= i < j < |r| ensures KeyBefore(before, r[i].key, r[j].key) { assert KeyBefore(before, p[i].key, p[j].key); }
  }

  /** A last product is always free to go behind the others. */
  lemma LastSettles(before: IdOrder, p: Poly, m: Mono)
    requires StrictTotal(before) && p != [] && Below(before, p, m.key)
    ensures Settles(before, p, [m]) && AddPoly(before, p, [m]) == AddMono(before, p, m)
    ensures m.coef != 0.0 ==> AddMono(before, p, m) == p + [m]
  {
    hide KeyBefore;
    assert [m][..0] == [];
    KeyOrder(before, p[0].key, m.key, m.key);
    KeyOrder(before, p[|p| - 1].key, m.key, m.key);
    if CancelsLater(p, m) {
      var i :| 0 < i < |p| && p[i].key == m.key && p[i].coef + m.coef == 0.0;
      KeyOrder(before, p[i].key, m.key, m.key);
    }
  }

  /** Multiplication with a constant settles if and only if no product starts with a call that has other factors behind it. */
  lemma {:induction false} MultiplesSettle(before: IdOrder, c: real, p: Poly)
    requires StrictTotal(before) && OkPoly(before, p) && c != 0.0 && c != 1.0
    ensures ProductSettles(before, [Mono(c, [])], p) <==> forall i :: 0 <= i < |p| ==> !CallFirst(p[i])
    ensures MulPoly(before, [Mono(c, [])], p) == Multiple(c, p)
    decreases |p|
  {
    hide Parts, MulMono, MonoSettles, Settles, AddMono, AddPoly, OkKey, KeyBefore;
    if p == [] {
    } else {
      PartsOk(before, p);
      var init, m := p[..|p| - 1], p[|p| - 1];
      ConstantSettles(before, c, m);
      if |p| == 1 {
        assert p == [m];
        if m == ONE { OneParts(); }
      } else {
        MultiplesSettle(before, c, init);
        MultiplesSettle(before, c, [m]);
        MultipleOk(before, c, p);
        var r := Multiple(c, p);
        assert Multiple(c, [m]) == [r[|r| - 1]] && Multiple(c, init) == r[..|r| - 1];
        NonZero(c, m.coef);
        LastSettles(before, Multiple(c, init), r[|r| - 1]);
        assert r[..|r| - 1] + [r[|r| - 1]] == r;
        assert init + [m] == p;
      }
    }
  }

  lemma OneParts()
    ensures !CallFirst(ONE)
  {
  }

  lemma NonZero(c: real, d: real)
    requires c != 0.0 && d != 0.0
    ensures CoefProduct(c, d) != 0.0
  {
  }

  // ---------- requests ----------

  const MINUS := [Mono(-1.0, [])]

  /** Every product and sum on the way settles. */
  predicate RequestSettles(before: IdOrder, request: Request) {
    match request
    case Negation(a) => ProductSettles(before, MINUS, Monomials(a))
    case Difference(a, b) =>
      ProductSettles(before, MINUS, Monomials(b)) && Settles(before, Monomials(a), MulPoly(before, MINUS, Monomials(b)))
    case Sum(a, b) => Settles(before, Monomials(a), Monomials(b))
    case Product(a, b) => ProductSettles(before, Monomials(a), Monomials(b))
    case Other(_, _) => true
  }

  predicate RequestNormal(before: IdOrder, request: Request) {
    match request
    case Negation(a) => Normal(before, a)
    case Difference(a, b) => Normal(before, a) && Normal(before, b)
    case Sum(a, b) => Normal(before, a) && Normal(before, b)
    case Product(a, b) => Normal(before, a) && Normal(before, b)
    case Other(_, _) => true
  }

  lemma MinusOk(before: IdOrder)
    ensures OkPoly(before, MINUS) && PolyTerm(MINUS) == Number(-1.0)
  {
    FewProducts(MINUS);
  }

  lemma Negated(before: IdOrder, a: ArithTerm) returns (n: nat)
    requires StrictTotal(before) && Normal(before, a) && ProductSettles(before, MINUS, Monomials(a))
    ensures ProductTerm(n, before, Number(-1.0), a) == Some(PolyTerm(MulPoly(before, MINUS, Monomials(a))))
    ensures OkPoly(before, MulPoly(before, MINUS, Monomials(a)))
  {
    MinusOk(before);
    n := ProductsSettle(before, MINUS, Monomials(a));
    MulPolyOk(before, MINUS, Monomials(a));
  }

  lemma {:induction false} Answered(before: IdOrder, request: Request) returns (n: nat)
    requires StrictTotal(before) && RequestNormal(before, request) && RequestSettles(before, request)
    ensures var r := RequestedTerm(n, before, request); r.Some? && Normal(before, r.value)
  {
    hide ProductTerm, SumTerm, PolyTerm, Normal, OkPoly, Settles, ProductSettles, MulPoly;
    match request
    case Negation(a) =>
      n := Negated(before, a);
      NormalPoly(before, MulPoly(before, MINUS, Monomials(a)));
    case Difference(a, b) =>
      var n1 := Negated(before, b);
      var minus := PolyTerm(MulPoly(before, MINUS, Monomials(b)));
      NormalPoly(before, MulPoly(before, MINUS, Monomials(b)));
      n := n1 + |Monomials(a)| + 2 * |Monomials(minus)| + 5;
      MoreFuel(n1, n, before, Number(-1.0), b);
      SumNormalExactly(n, before, a, minus);
    case Sum(a, b) =>
      n := |Monomials(a)| + 2 * |Monomials(b)| + 5;
      SumNormalExactly(n, before, a, b);
    case Product(a, b) =>
      ProductAnswered(before, a, b);
      n := ProductsSettle(before, Monomials(a), Monomials(b));
      NormalPoly(before, MulPoly(before, Monomials(a), Monomials(b)));
    case Other(f, args) =>
      n := 0;
      CallNormal(before, f, args);
  }

  lemma ProductAnswered(before: IdOrder, a: ArithTerm, b: ArithTerm)
    requires StrictTotal(before) && Normal(before, a) && Normal(before, b)
    ensures OkPoly(before, Monomials(a)) && OkPoly(before, Monomials(b)) && OkPoly(before, MulPoly(before, Monomials(a), Monomials(b)))
    ensures a == PolyTerm(Monomials(a)) && b == PolyTerm(Monomials(b))
  {
    MulPolyOk(before, Monomials(a), Monomials(b));
  }

  lemma CallNormal(before: IdOrder, f: string, args: seq<ArithTerm>)
    requires StrictTotal(before)
    ensures Normal(before, Call(f, args))
  {
    var m := Mono(1.0, [Call(f, args)]);
    MonoFactors(m);
    SingleNormal(before, m);
  }

  /** Normal terms give normal answers where everything settles, with enough fuel and whatever the fuel. */
  lemma RequestAnsweredNormal(before: IdOrder, request: Request) returns (n: nat)
    requires StrictTotal(before) && RequestNormal(before, request) && RequestSettles(before, request)
    ensures forall fuel: nat :: fuel >= n ==> RequestedTerm(fuel, before, request).Some?
    ensures forall fuel: nat :: RequestedTerm(fuel, before, request).Some? ==> Normal(before, RequestedTerm(fuel, before, request).value)
  {
    hide RequestedTerm, Normal;
    n := Answered(before, request);
    forall fuel: nat ensures fuel >= n ==> RequestedTerm(fuel, before, request).Some?
      ensures RequestedTerm(fuel, before, request).Some? ==> Normal(before, RequestedTerm(fuel, before, request).value)
    {
      if fuel >= n {
        RequestAnsweredOnce(n, fuel, before, request);
      } else if RequestedTerm(fuel, before, request).Some? {
        RequestAnsweredOnce(fuel, n, before, request);
      }
    }
  }

  // ---------- comparisons ----------

  /** An equation of normal terms with the same coefficients is the true kernel. */
  lemma EqualSides(fuel: nat, before: IdOrder, left: ArithTerm, right: ArithTerm)
    requires StrictTotal(before) && Normal(before, left) && Normal(before, right)
    requires forall k: Key :: Coefficient(left, k) == Coefficient(right, k)
    ensures ComparisonTerm(fuel, before, EQ, left, right) == Some(AlwaysTrue)
  {
    SameCoefficients(before, left, right);
  }

  /** A comparison of normal terms is stored with their difference, in normal form, on the left, unless that is a constant. */
  lemma ComparedNormal(before: IdOrder, op: Comparator, left: ArithTerm, right: ArithTerm) returns (n: nat, difference: ArithTerm)
    requires StrictTotal(before) && Normal(before, left) && Normal(before, right) && RequestSettles(before, Difference(left, right))
    requires right != Number(0.0) && left != right
    ensures Normal(before, difference) && forall k: Key :: Coefficient(difference, k) == Coefficient(left, k) - Coefficient(right, k)
    ensures !difference.Number? ==> ComparisonTerm(n, before, op, left, right) == Some(Compare(op, difference, Number(0.0)))
  {
    hide ProductTerm, SumTerm, PolyTerm, Normal, OkPoly, Settles, ProductSettles, MulPoly, Coefficient, Multiple;
    var n1 := Negated(before, right);
    var p, q := Monomials(left), MulPoly(before, MINUS, Monomials(right));
    var minus := PolyTerm(q);
    NormalPoly(before, q);
    var m := n1 + |p| + 2 * |q| + 5;
    MoreFuel(n1, m, before, Number(-1.0), right);
    SumNormalExactly(m, before, left, minus);
    difference := SumTerm(m, before, left, minus).value;
    n := m + 2;
    MoreFuel(m, m + 1, before, Number(-1.0), right);
    MoreFuel(m, m + 1, before, left, minus);
    forall k: Key ensures Coefficient(difference, k) == Coefficient(left, k) - Coefficient(right, k) {
      MinusCoefficient(before, right, k);
    }
  }

  lemma MinusCoefficient(before: IdOrder, t: ArithTerm, k: Key)
    requires StrictTotal(before) && Normal(before, t)
    ensures Coefficient(PolyTerm(MulPoly(before, MINUS, Monomials(t))), k) == -Coefficient(t, k)
  {
    var p := Monomials(t);
    MultiplesSettle(before, -1.0, p);
    MultipleOk(before, -1.0, p);
    CoefficientsAre(before, p, k);
    CoefficientsAre(before, Multiple(-1.0, p), k);
    MultipleCoefficient(p, k);
  }

  lemma {:induction false} MultipleCoefficient(p: Poly, k: Key)
    ensures CoefficientIn(Multiple(-1.0, p), k) == -CoefficientIn(p, k)
    decreases p
  {
    if p != [] {
      MultipleCoefficient(p[..|p| - 1], k);
      assert Multiple(-1.0, p)[..|p| - 1] == Multiple(-1.0, p[..|p| - 1]);
    }
  }
}
