/** Sums of normal terms: when the manager's answer is normal again.  A term keeps its first summand in front for ever
    when that is a product or a call, so nothing can be put before it, and no constant zero taken away behind it. */
module NormalSums {
  import opened Wrappers
  import opened Arithmetic
  import opened ArithmeticRewriting
  import opened NormalForms

  // ---------- one step of the recursion ----------

  /** A factor that need not be moved. */
  lemma TimesStep(fuel: nat, before: IdOrder, a: ArithTerm, f: ArithTerm)
    requires fuel > 0 && IsAtom(f) && !a.Plus? && a != Number(0.0) && a != Number(1.0)
    requires a.Times? ==> !MultiplicationBefore(before, f, a.right)
    requires !a.IsFuncTerm() ==> !MultiplicationBefore(before, f, a)
    ensures ProductTerm(fuel, before, a, f) == Some(Times(a, f))
  {
  }

  /** One more factor, at the end. */
  lemma FactorAppended(fuel: nat, before: IdOrder, m: Mono, f: ArithTerm)
    requires StrictTotal(before) && fuel > 0 && m.coef != 0.0 && OkKey(before, m.key + [f])
    ensures ProductTerm(fuel, before, MonoTerm(m), f) == Some(MonoTerm(Mono(m.coef, m.key + [f])))
  {
    hide ProductTerm, SumTerm, Factors;
    var k := m.key + [f];
    assert IsAtom(k[|m.key|]) && forall i :: 0 <= i < |m.key| ==> m.key[i] == k[i] && IsAtom(k[i]);
    if m == ONE {
      OneFactor(fuel, before, f);
    } else {
      MonoFactors(m);
      assert Parts(Mono(m.coef, k)) == Parts(m) + [f];
      assert (Parts(m) + [f])[..|Parts(m)|] == Parts(m);
      if m.key != [] { assert !before(k[|m.key|], k[|m.key| - 1]); }
      TimesStep(fuel, before, MonoTerm(m), f);
    }
  }

  lemma OneFactor(fuel: nat, before: IdOrder, f: ArithTerm)
    requires fuel > 0
    ensures ProductTerm(fuel, before, MonoTerm(ONE), f) == Some(MonoTerm(Mono(1.0, [f])))
  {
  }

  function Scaled(c: real, k: Key): Mono {
    if c == 0.0 then ZERO else Mono(c, k)
  }

  /** The sum of the constants times the common factors. */
  lemma {:induction false} ConstantsSummed(fuel: nat, before: IdOrder, c: real, d: real, k: Key, n: nat)
    requires StrictTotal(before) && fuel > 0 && OkKey(before, k) && 1 <= n <= |k| + 1
    ensures ConstantsAdded(fuel, before, [Number(c)] + k, Number(d), n) == Some(MonoTerm(Scaled(c + d, k[..n - 1])))
    decreases n
  {
    if n > 1 {
      ConstantsSummed(fuel, before, c, d, k, n - 1);
      assert ([Number(c)] + k)[n - 1] == k[n - 2];
      assert k[..n - 2] + [k[n - 2]] == k[..n - 1];
      if c + d != 0.0 { FactorAppended(fuel, before, Mono(c + d, k[..n - 2]), k[n - 2]); }
    }
  }

  lemma AllConstantsSummed(fuel: nat, before: IdOrder, l: Mono, m: Mono)
    requires StrictTotal(before) && fuel > 0 && OkKey(before, l.key)
    ensures ConstantsAdded(fuel, before, [Number(l.coef)] + l.key, Number(m.coef), |l.key| + 1) == Some(MonoTerm(Scaled(l.coef + m.coef, l.key)))
  {
    ConstantsSummed(fuel, before, l.coef, m.coef, l.key, |l.key| + 1);
    assert l.key[..|l.key|] == l.key;
  }

  lemma PlusUnfolds(fuel: nat, before: IdOrder, a: ArithTerm, b: ArithTerm)
    requires fuel > 0 && a.Plus? && !b.Plus?
    ensures SumTerm(fuel, before, a, b) ==
      if TermOrderBefore(before, b, a.right) then SumTwice(fuel, before, a.left, b, a.right) else MergedTerm(fuel, before, a, b)
  {
    hide TermOrderBefore;
  }

  lemma SingleUnfolds(fuel: nat, before: IdOrder, a: ArithTerm, b: ArithTerm)
    requires fuel > 0 && !a.Plus? && a != Number(0.0) && !(a.Number? && b.Number?)
    ensures SumTerm(fuel, before, a, b) ==
      if !a.IsFuncTerm() && (b.Plus? || TermOrderBefore(before, b, a)) then SumTerm(fuel - 1, before, b, a)
      else MergedTerm(fuel, before, a, b)
  {
    hide TermOrderBefore;
  }

  /** Products are added by their constants when they have the same other factors. */
  lemma Merges(fuel: nat, before: IdOrder, a: ArithTerm, l: Mono, m: Mono)
    requires StrictTotal(before) && fuel > 0 && OkKey(before, l.key) && OkKey(before, m.key)
    requires fuel == 1 && m.key == l.key ==> a.Plus?
    requires MonoTerm(l) == if a.Plus? then a.right else a
    ensures MergedTerm(fuel, before, a, MonoTerm(m)) ==
      if m.key != l.key then Some(Plus(a, MonoTerm(m)))
      else if a.Plus? then SumTerm(fuel - 1, before, a.left, MonoTerm(Scaled(l.coef + m.coef, l.key)))
      else Some(MonoTerm(Scaled(l.coef + m.coef, l.key)))
  {
    hide SumTerm, ConstantsAdded, ProductTerm, Factors, Chain, Parts;
    MonoFactors(l);
    MonoFactors(m);
    if m.key == l.key {
      if fuel > 1 {
        AllConstantsSummed(fuel - 1, before, l, m);
      } else {
        NoFuel(before, [Number(l.coef)] + l.key, Number(m.coef), MonoTerm(Scaled(l.coef + m.coef, l.key)));
      }
    }
  }

  lemma NoFuel(before: IdOrder, factors: seq<ArithTerm>, c: ArithTerm, b: ArithTerm)
    requires factors != []
    ensures ConstantsAdded(0, before, factors, c, |factors|) == None && forall a :: SumTerm(0, before, a, b) == None
  {
    NoConstants(0, before, factors, c, 1, |factors|);
  }

  /** A product added to a sum whose last product is l. */
  lemma PlusStep(fuel: nat, before: IdOrder, left: ArithTerm, l: Mono, m: Mono)
    requires StrictTotal(before) && fuel > 0 && OkKey(before, l.key) && OkKey(before, m.key)
    ensures var a, b := Plus(left, MonoTerm(l)), MonoTerm(m);
      SumTerm(fuel, before, a, b) ==
        if KeyBefore(before, m.key, l.key) then SumTwice(fuel, before, left, b, MonoTerm(l))
        else if m.key == l.key then SumTerm(fuel - 1, before, left, MonoTerm(Scaled(l.coef + m.coef, l.key)))
        else Some(Plus(a, b))
  {
    hide SumTerm, SumTwice, MergedTerm, ProductTerm, TermOrderBefore, KeyBefore, Factors, Chain, Parts, MonoTerm;
    MonoFactors(l);
    MonoFactors(m);
    TermOrderIsKeyOrder(before, MonoTerm(m), MonoTerm(l));
    PlusUnfolds(fuel, before, Plus(left, MonoTerm(l)), MonoTerm(m));
    Merges(fuel, before, Plus(left, MonoTerm(l)), l, m);
  }

  /** The term of the product is a function term: nothing moves before it. */
  predicate Fixed(m: Mono) {
    MonoTerm(m).IsFuncTerm()
  }

  /** A product added to a single product. */
  lemma SingleStep(fuel: nat, before: IdOrder, h: Mono, m: Mono)
    requires StrictTotal(before) && fuel > 0 && OkMono(before, h) && OkKey(before, m.key) && (fuel == 1 ==> m.key != h.key)
    ensures var a, b := MonoTerm(h), MonoTerm(m);
      SumTerm(fuel, before, a, b) ==
        if !Fixed(h) && KeyBefore(before, m.key, h.key) then SumTerm(fuel - 1, before, b, a)
        else if m.key == h.key then Some(MonoTerm(Scaled(h.coef + m.coef, h.key)))
        else Some(Plus(a, b))
  {
    hide MergedTerm, ProductTerm, TermOrderBefore, KeyBefore, Factors;
    MonoFactors(h);
    MonoFactors(m);
    KeyOrder(before, h.key, h.key, h.key);
    if h.key == [] && m.key == [] {
      BothConstants(fuel, before, h.coef, m.coef);
    } else {
      hide SumTerm, MonoTerm;
      TermOrderIsKeyOrder(before, MonoTerm(m), MonoTerm(h));
      SingleUnfolds(fuel, before, MonoTerm(h), MonoTerm(m));
      Merges(fuel, before, MonoTerm(h), h, m);
    }
  }

  lemma BothConstants(fuel: nat, before: IdOrder, c: real, d: real)
    requires fuel > 0
    ensures SumTerm(fuel, before, MonoTerm(Mono(c, [])), MonoTerm(Mono(d, []))) == Some(MonoTerm(Scaled(c + d, [])))
  {
  }

  lemma PlusTerm(p: Poly, m: Mono)
    requires p != []
    ensures PolyTerm(p + [m]) == Plus(PolyTerm(p), MonoTerm(m))
  {
    assert (p + [m])[..|p|] == p;
  }

  lemma FewProducts(q: Poly)
    ensures |q| == 1 ==> PolyTerm(q) == MonoTerm(q[0])
    ensures q == [] ==> PolyTerm(q) == MonoTerm(ZERO)
  {
  }

  // ---------- adding one product ----------

  /** Adding a product to a sum, mathematically. */
  function AddMono(before: IdOrder, p: Poly, m: Mono): Poly {
    if m.coef == 0.0 then p
    else if p == [] then [m]
    else
      var init, l := p[..|p| - 1], p[|p| - 1];
      if KeyBefore(before, m.key, l.key) then AddMono(before, init, m) + [l]
      else if m.key != l.key then p + [m]
      else if l.coef + m.coef == 0.0 then init
      else init + [Mono(l.coef + m.coef, l.key)]
  }

  /** Everything in the sum comes before the key. */
  ghost predicate Below(before: IdOrder, p: Poly, k: Key) {
    forall i :: 0 <= i < |p| ==> KeyBefore(before, p[i].key, k)
  }

  lemma {:induction false} AddMonoBelow(before: IdOrder, p: Poly, m: Mono, k: Key)
    requires Below(before, p, k) && KeyBefore(before, m.key, k)
    ensures Below(before, AddMono(before, p, m), k)
    decreases p
  {
    hide KeyBefore;
    if p != [] { AddMonoBelow(before, p[..|p| - 1], m, k); }
  }

  lemma {:induction false} AddMonoOk(before: IdOrder, p: Poly, m: Mono)
    requires StrictTotal(before) && OkPoly(before, p) && (m == ZERO || OkMono(before, m))
    ensures OkPoly(before, AddMono(before, p, m)) && |AddMono(before, p, m)| <= |p| + 1
    decreases p
  {
    hide KeyBefore, OkKey;
    if m.coef != 0.0 && p != [] {
      var init, l := p[..|p| - 1], p[|p| - 1];
      KeyOrder(before, m.key, l.key, m.key);
      if KeyBefore(before, m.key, l.key) {
        AddMonoOk(before, init, m);
        AddMonoBelow(before, init, m, l.key);
      } else if m.key != l.key {
        LastAfter(before, p, m.key);
      }
    }
  }

  /** Coefficients are added. */
  lemma {:induction false} AddMonoCoefficient(before: IdOrder, p: Poly, m: Mono, k: Key)
    requires StrictTotal(before) && OkPoly(before, p)
    ensures CoefficientIn(AddMono(before, p, m), k) == CoefficientIn(p, k) + CoefficientOf(m, k)
    decreases p
  {
    hide KeyBefore, OkKey;
    if m.coef == 0.0 {
    } else if p == [] {
      assert [m][..0] == [];
    } else {
      var init, l := p[..|p| - 1], p[|p| - 1];
      AddMonoCoefficient(before, init, m, k);
      var r := AddMono(before, p, m);
      assert r != [] && r[|r| - 1] == l && KeyBefore(before, m.key, l.key) ==> r[..|r| - 1] == AddMono(before, init, m);
      if !KeyBefore(before, m.key, l.key) && (m.key != l.key || l.coef + m.coef != 0.0) {
        assert r[..|r| - 1] == if m.key != l.key then p else init;
      }
    }
  }

  /** Is there something that the product would cancel, other than at the front? */
  predicate CancelsLater(p: Poly, m: Mono) {
    exists i :: 0 < i < |p| && p[i].key == m.key && p[i].coef + m.coef == 0.0
  }

  /** Nothing has to be moved before a first summand that stays in front, and none behind it vanishes. */
  predicate Free(before: IdOrder, p: Poly, m: Mono)
    requires p != []
  {
    Fixed(p[0]) ==> !KeyBefore(before, m.key, p[0].key) && !CancelsLater(p, m)
  }

  lemma Appended(fuel: nat, before: IdOrder, p: Poly, m: Mono)
    requires StrictTotal(before) && fuel > 1 && OkPoly(before, p) && OkMono(before, m)
    requires p != [] ==> KeyBefore(before, p[|p| - 1].key, m.key)
    ensures SumTerm(fuel, before, PolyTerm(p), MonoTerm(m)) == Some(PolyTerm(p + [m]))
  {
    if p != [] {
      var init, l := p[..|p| - 1], p[|p| - 1];
      KeyOrder(before, m.key, l.key, m.key);
      KeyOrder(before, m.key, m.key, m.key);
      assert (p + [m])[..|p|] == p;
      if |p| > 1 { PlusStep(fuel, before, PolyTerm(init), l, m); } else { SingleStep(fuel, before, l, m); }
    }
  }

  lemma FixedKey(before: IdOrder, h: Mono)
    requires OkKey(before, h.key) && Fixed(h)
    ensures h.key != [] && h != ZERO && KeyBefore(before, [], h.key)
  {
    MonoFactors(h);
  }

  /** A product added where it is free to go gives the normal term of the sum. */
  lemma {:induction false} Inserted(fuel: nat, before: IdOrder, p: Poly, m: Mono)
    requires StrictTotal(before) && OkPoly(before, p) && p != [] && (m == ZERO || OkMono(before, m))
    requires Free(before, p, m) && fuel >= |p| + 3
    ensures SumTerm(fuel, before, PolyTerm(p), MonoTerm(m)) == Some(PolyTerm(AddMono(before, p, m)))
    decreases p
  {
    hide SumTerm, MonoTerm, KeyBefore, PolyTerm;
    var init, l := p[..|p| - 1], p[|p| - 1];
    if |p| == 1 {
      FewProducts(p);
      assert p == [l];
      InsertedInSingle(fuel, before, l, m);
    } else {
      FirstKeyOnly(before, p);
      PlusTerm(init, l);
      assert init + [l] == p;
      PlusStep(fuel, before, PolyTerm(init), l, m);
      if KeyBefore(before, m.key, l.key) {
        Inserted(fuel - 1, before, init, m);
        InsertedBefore(fuel, before, p, m);
      } else if m.key == l.key {
        InsertedLast(fuel, before, p, m);
      } else {
        PlusTerm(p, m);
      }
    }
  }

  lemma EmptyKey(before: IdOrder, k: Key)
    requires k != []
    ensures KeyBefore(before, [], k)
  {
  }

  /** Only the first of several products can be a constant. */
  lemma FirstKeyOnly(before: IdOrder, p: Poly)
    requires StrictTotal(before) && OkPoly(before, p) && |p| > 1
    ensures p[|p| - 1].key != [] && KeyBefore(before, [], p[|p| - 1].key)
  {
    assert KeyBefore(before, p[0].key, p[|p| - 1].key);
  }

  lemma ZeroAdded(fuel: nat, before: IdOrder, b: ArithTerm)
    requires fuel > 0
    ensures SumTerm(fuel, before, MonoTerm(ZERO), b) == Some(b) && MonoTerm(ZERO) == Number(0.0)
  {
  }

  lemma InsertedInSingle(fuel: nat, before: IdOrder, l: Mono, m: Mono)
    requires StrictTotal(before) && OkPoly(before, [l]) && (m == ZERO || OkMono(before, m)) && Free(before, [l], m) && fuel >= 4
    ensures SumTerm(fuel, before, MonoTerm(l), MonoTerm(m)) == Some(PolyTerm(AddMono(before, [l], m)))
  {
    hide SumTerm, MonoTerm, KeyBefore;
    assert OkMono(before, [l][0]);
    SingleStep(fuel, before, l, m);
    KeyOrder(before, m.key, l.key, m.key);
    assert [l][..0] == [] && ([l] + [m])[..1] == [l];
    if l.key != [] { EmptyKey(before, l.key); }
    ZeroAdded(fuel, before, MonoTerm(l));
    assert PolyTerm([l]) == MonoTerm(l) && [] + [Mono(l.coef + m.coef, l.key)] == [Mono(l.coef + m.coef, l.key)];
    if !Fixed(l) && KeyBefore(before, m.key, l.key) {
      if m == ZERO {
        ZeroAdded(fuel - 1, before, MonoTerm(l));
      } else {
        assert PolyTerm([m]) == MonoTerm(m);
        Appended(fuel - 1, before, [m], l);
      }
    }
  }

  lemma InsertedBefore(fuel: nat, before: IdOrder, p: Poly, m: Mono)
    requires StrictTotal(before) && OkPoly(before, p) && |p| > 1 && (m == ZERO || OkMono(before, m)) && fuel >= |p| + 3
    requires KeyBefore(before, m.key, p[|p| - 1].key)
    requires SumTerm(fuel - 1, before, PolyTerm(p[..|p| - 1]), MonoTerm(m)) == Some(PolyTerm(AddMono(before, p[..|p| - 1], m)))
    ensures SumTwice(fuel, before, PolyTerm(p[..|p| - 1]), MonoTerm(m), MonoTerm(p[|p| - 1])) == Some(PolyTerm(AddMono(before, p, m)))
  {
    hide SumTerm, MonoTerm, KeyBefore, OkKey, PolyTerm;
    var init, l := p[..|p| - 1], p[|p| - 1];
    AddMonoOk(before, init, m);
    AddMonoBelow(before, init, m, l.key);
    Appended(fuel - 1, before, AddMono(before, init, m), l);
    assert init + [l] == p;
  }

  lemma InsertedLast(fuel: nat, before: IdOrder, p: Poly, m: Mono)
    requires StrictTotal(before) && OkPoly(before, p) && |p| > 1 && OkMono(before, m) && Free(before, p, m) && fuel >= |p| + 3
    requires m.key == p[|p| - 1].key
    ensures SumTerm(fuel - 1, before, PolyTerm(p[..|p| - 1]), MonoTerm(Scaled(p[|p| - 1].coef + m.coef, m.key))) ==
      Some(PolyTerm(AddMono(before, p, m)))
    decreases p, 0
  {
    hide SumTerm, MonoTerm, KeyBefore, OkKey;
    var init, l := p[..|p| - 1], p[|p| - 1];
    KeyOrder(before, m.key, m.key, m.key);
    if l.coef + m.coef == 0.0 {
      assert CancelsLater(p, m);
      Inserted(fuel - 1, before, init, ZERO);
    } else {
      Appended(fuel - 1, before, init, Mono(l.coef + m.coef, l.key));
    }
  }

  // ---------- what stays in front ----------

  /** A sum with a fixed first product, and a product behind it that should come before. */
  ghost predicate Broken(before: IdOrder, p: Poly) {
    && |p| > 1 && Loose(before, p) && Fixed(p[0])
    && exists i :: 0 < i < |p| && KeyBefore(before, p[i].key, p[0].key)
  }

  ghost predicate Stuck(before: IdOrder, t: ArithTerm) {
    exists p: Poly :: Broken(before, p) && t == PolyTerm(p)
  }

  lemma StuckNotNormal(before: IdOrder, t: ArithTerm)
    requires StrictTotal(before) && Stuck(before, t)
    ensures !Normal(before, t) && t.Plus?
  {
    var p: Poly :| Broken(before, p) && t == PolyTerm(p);
    assert MonoTerm(ZERO) == Number(0.0);
    PolyMonomials(before, p);
    var i :| 0 < i < |p| && KeyBefore(before, p[i].key, p[0].key);
    KeyOrder(before, p[0].key, p[i].key, p[0].key);
  }

  lemma BrokenAt(before: IdOrder, p: Poly, i: nat)
    requires Loose(before, p) && 0 < i < |p| && Fixed(p[0]) && KeyBefore(before, p[i].key, p[0].key)
    ensures Stuck(before, PolyTerm(p))
  {
    assert Broken(before, p);
  }

  lemma BrokenLonger(before: IdOrder, p: Poly, m: Mono)
    requires Loose(before, p) && p != [] && Fixed(p[0]) && (m == ZERO || OkMono(before, m))
    requires Broken(before, p) || KeyBefore(before, m.key, p[0].key)
    ensures Stuck(before, Plus(PolyTerm(p), MonoTerm(m)))
  {
    hide PolyTerm, KeyBefore, MonoTerm;
    var q := p + [m];
    assert q[..|p|] == p;
    var i :| 0 < i < |q| && KeyBefore(before, q[i].key, q[0].key);
    BrokenAt(before, q, i);
    PlusTerm(p, m);
  }

  lemma LooseKey(before: IdOrder, m: Mono)
    requires m == ZERO || OkMono(before, m)
    ensures OkKey(before, m.key)
  {
  }

  /** Whatever is added to a broken sum, or should come before its first product, leaves it broken. */
  lemma {:induction false} StaysStuck(fuel: nat, before: IdOrder, p: Poly, m: Mono)
    requires StrictTotal(before) && Loose(before, p) && p != [] && Fixed(p[0]) && (m == ZERO || OkMono(before, m))
    requires Broken(before, p) || KeyBefore(before, m.key, p[0].key)
    requires SumTerm(fuel, before, PolyTerm(p), MonoTerm(m)).Some?
    ensures Stuck(before, SumTerm(fuel, before, PolyTerm(p), MonoTerm(m)).value)
    decreases fuel
  {
    hide SumTerm, SumTwice, KeyBefore, MonoTerm;
    if fuel == 0 {
      NoFuel(before, [MonoTerm(m)], MonoTerm(m), MonoTerm(m));
    } else {
      var init, l := p[..|p| - 1], p[|p| - 1];
      LooseKey(before, l);
      LooseKey(before, m);
      BrokenLonger(before, p, m);
      if |p| == 1 {
        FixedKey(before, l);
        KeyOrder(before, m.key, m.key, m.key);
        KeyOrder(before, m.key, l.key, m.key);
        SingleStep(fuel, before, l, m);
      } else {
        PlusStep(fuel, before, PolyTerm(init), l, m);
        if KeyBefore(before, m.key, l.key) {
          StaysStuckBefore(fuel, before, p, m);
        } else if m.key == l.key {
          StaysStuckLast(fuel, before, p, m);
        }
      }
    }
  }

  lemma StaysStuckBefore(fuel: nat, before: IdOrder, p: Poly, m: Mono)
    requires StrictTotal(before) && Loose(before, p) && |p| > 1 && Fixed(p[0]) && (m == ZERO || OkMono(before, m)) && fuel > 0
    requires Broken(before, p) || KeyBefore(before, m.key, p[0].key)
    requires KeyBefore(before, m.key, p[|p| - 1].key)
    requires SumTwice(fuel, before, PolyTerm(p[..|p| - 1]), MonoTerm(m), MonoTerm(p[|p| - 1])).Some?
    ensures Stuck(before, SumTwice(fuel, before, PolyTerm(p[..|p| - 1]), MonoTerm(m), MonoTerm(p[|p| - 1])).value)
    decreases fuel, 0
  {
    hide SumTerm, KeyBefore, MonoTerm, PolyTerm;
    var init, l := p[..|p| - 1], p[|p| - 1];
    if !Broken(before, init) { OnlyLast(before, p, m.key); }
    StaysStuck(fuel - 1, before, init, m);
    var t := SumTerm(fuel - 1, before, PolyTerm(init), MonoTerm(m)).value;
    var q: Poly :| Broken(before, q) && t == PolyTerm(q);
    StaysStuck(fuel - 1, before, q, l);
  }

  /** If only the last product should come before the first one, then so should whatever comes before the last. */
  lemma OnlyLast(before: IdOrder, p: Poly, k: Key)
    requires StrictTotal(before) && Loose(before, p) && |p| > 1 && Fixed(p[0]) && !Broken(before, p[..|p| - 1])
    requires Broken(before, p) || KeyBefore(before, k, p[0].key)
    requires KeyBefore(before, k, p[|p| - 1].key) || k == p[|p| - 1].key
    ensures KeyBefore(before, k, p[0].key)
  {
    var init := p[..|p| - 1];
    assert forall i :: 0 < i < |init| ==> init[i] == p[i] && init[0] == p[0];
    if Broken(before, p) {
      KeyOrder(before, k, p[|p| - 1].key, p[0].key);
    }
  }

  lemma StaysStuckLast(fuel: nat, before: IdOrder, p: Poly, m: Mono)
    requires StrictTotal(before) && Loose(before, p) && |p| > 1 && Fixed(p[0]) && (m == ZERO || OkMono(before, m)) && fuel > 0
    requires Broken(before, p) || KeyBefore(before, m.key, p[0].key)
    requires m.key == p[|p| - 1].key
    requires SumTerm(fuel - 1, before, PolyTerm(p[..|p| - 1]), MonoTerm(Scaled(p[|p| - 1].coef + m.coef, p[|p| - 1].key))).Some?
    ensures Stuck(before, SumTerm(fuel - 1, before, PolyTerm(p[..|p| - 1]), MonoTerm(Scaled(p[|p| - 1].coef + m.coef, p[|p| - 1].key))).value)
    decreases fuel, 0
  {
    hide SumTerm, KeyBefore, MonoTerm, PolyTerm;
    var init, l := p[..|p| - 1], p[|p| - 1];
    LooseKey(before, l);
    if !Broken(before, init) {
      OnlyLast(before, p, m.key);
      FixedKey(before, p[0]);
    }
    StaysStuck(fuel - 1, before, init, Scaled(l.coef + m.coef, l.key));
  }

  /** A product that cancels one behind a fixed first product leaves a zero there. */
  lemma {:induction false} LeavesZero(fuel: nat, before: IdOrder, p: Poly, m: Mono)
    requires StrictTotal(before) && OkPoly(before, p) && p != [] && Fixed(p[0]) && OkMono(before, m) && CancelsLater(p, m)
    requires SumTerm(fuel, before, PolyTerm(p), MonoTerm(m)).Some?
    ensures Stuck(before, SumTerm(fuel, before, PolyTerm(p), MonoTerm(m)).value)
    decreases fuel
  {
    hide SumTerm, KeyBefore, MonoTerm;
    if fuel == 0 {
      NoFuel(before, [MonoTerm(m)], MonoTerm(m), MonoTerm(m));
    } else {
      var init, l := p[..|p| - 1], p[|p| - 1];
      var i :| 0 < i < |p| && p[i].key == m.key && p[i].coef + m.coef == 0.0;
      PlusStep(fuel, before, PolyTerm(init), l, m);
      KeyOrder(before, m.key, m.key, m.key);
      KeyOrder(before, m.key, l.key, m.key);
      if KeyBefore(before, m.key, l.key) {
        assert init[i] == p[i];
        LeavesZero(fuel - 1, before, init, m);
        var q: Poly :| Broken(before, q) && SumTerm(fuel - 1, before, PolyTerm(init), MonoTerm(m)).value == PolyTerm(q);
        StaysStuck(fuel - 1, before, q, l);
      } else {
        assert i == |p| - 1;
        FixedKey(before, p[0]);
        StaysStuck(fuel - 1, before, init, ZERO);
      }
    }
  }

  // ---------- adding sums ----------

  /** The sum of two sums, mathematically. */
  function AddPoly(before: IdOrder, p: Poly, q: Poly): Poly
    decreases q
  {
    if q == [] then p else AddPoly(before, AddMono(before, p, q[|q| - 1]), q[..|q| - 1])
  }

  /** Nothing of q has to be put before a first product of p that stays in front, and nothing behind it vanishes;
      where p is, or has become, a single product, it is added to what is left of q instead. */
  predicate Settles(before: IdOrder, p: Poly, q: Poly)
    decreases q
  {
    p == [] ||
    if q == [] then !Fixed(p[0])
    else if |q| == 1 then Free(before, p, q[0])
    else if |p| == 1 then !Fixed(p[0]) && Free(before, q, p[0])
    else Free(before, p, q[|q| - 1]) && Settles(before, AddMono(before, p, q[|q| - 1]), q[..|q| - 1])
  }

  lemma {:induction false} AddPolyOk(before: IdOrder, p: Poly, q: Poly)
    requires StrictTotal(before) && OkPoly(before, p) && OkPoly(before, q)
    ensures OkPoly(before, AddPoly(before, p, q))
    ensures forall k: Key :: CoefficientIn(AddPoly(before, p, q), k) == CoefficientIn(p, k) + CoefficientIn(q, k)
    decreases q
  {
    if q != [] {
      AddMonoOk(before, p, q[|q| - 1]);
      AddPolyOk(before, AddMono(before, p, q[|q| - 1]), q[..|q| - 1]);
      forall k: Key ensures CoefficientIn(AddPoly(before, p, q), k) == CoefficientIn(p, k) + CoefficientIn(q, k) {
        AddMonoCoefficient(before, p, q[|q| - 1], k);
      }
    }
  }

  /** The sum as it is, whichever is added to which. */
  lemma AddsUp(before: IdOrder, p: Poly, q: Poly, r: Poly)
    requires StrictTotal(before) && OkPoly(before, p) && OkPoly(before, q) && OkPoly(before, r)
    requires forall k: Key :: CoefficientIn(r, k) == CoefficientIn(p, k) + CoefficientIn(q, k)
    ensures r == AddPoly(before, p, q)
  {
    AddPolyOk(before, p, q);
    SamePoly(before, r, AddPoly(before, p, q));
  }

  /** Two normal sums with at least two products each: the first step. */
  lemma PlusPlus(fuel: nat, before: IdOrder, p: Poly, q: Poly)
    requires fuel > 0 && OkPoly(before, p) && OkPoly(before, q) && |p| > 1 && |q| > 1
    ensures SumTerm(fuel, before, PolyTerm(p), PolyTerm(q)) ==
      SumTwice(fuel, before, PolyTerm(p), MonoTerm(q[|q| - 1]), PolyTerm(q[..|q| - 1]))
  {
    hide MonoTerm, SumTwice, MergedTerm, TermOrderBefore;
  }

  /** A single product to which a sum is added: the sum takes it up, unless the product stays in front. */
  lemma SinglePlus(fuel: nat, before: IdOrder, h: Mono, q: Poly)
    requires StrictTotal(before) && fuel > 0 && OkMono(before, h) && OkPoly(before, q) && |q| > 1
    ensures SumTerm(fuel, before, MonoTerm(h), PolyTerm(q)) ==
      if Fixed(h) then Some(Plus(MonoTerm(h), PolyTerm(q))) else SumTerm(fuel - 1, before, PolyTerm(q), MonoTerm(h))
  {
    hide SumTerm, Chain, Parts, ProductTerm, ConstantsAdded, TermOrderBefore;
    MonoFactors(h);
    SingleUnfolds(fuel, before, MonoTerm(h), PolyTerm(q));
    if Fixed(h) { assert Factors(PolyTerm(q))[1..] == [PolyTerm(q)]; }
  }

  /** No normal term has a sum on the right. */
  lemma SumOnTheRight(before: IdOrder, a: ArithTerm, b: ArithTerm)
    requires b.Plus?
    ensures !Normal(before, Plus(a, b))
  {
    if Normal(before, Plus(a, b)) {
      var p := Monomials(Plus(a, b));
      MonoFactors(p[|p| - 1]);
    }
  }

  /** A broken sum stays broken, whatever normal sum is added. */
  lemma {:induction false} SumStaysStuck(fuel: nat, before: IdOrder, p: Poly, q: Poly)
    requires StrictTotal(before) && Broken(before, p) && OkPoly(before, q) && q != []
    requires SumTerm(fuel, before, PolyTerm(p), PolyTerm(q)).Some?
    ensures Stuck(before, SumTerm(fuel, before, PolyTerm(p), PolyTerm(q)).value)
    decreases q
  {
    hide SumTerm, MonoTerm, PolyTerm, KeyBefore;
    if |q| == 1 {
      FewProducts(q);
      StaysStuck(fuel, before, p, q[0]);
    } else if fuel == 0 {
      NoFuel(before, [PolyTerm(q)], PolyTerm(q), PolyTerm(q));
    } else {
      BrokenPlus(fuel, before, p, q);
      StaysStuck(fuel - 1, before, p, q[|q| - 1]);
      var t := SumTerm(fuel - 1, before, PolyTerm(p), MonoTerm(q[|q| - 1])).value;
      var p': Poly :| Broken(before, p') && t == PolyTerm(p');
      SumStaysStuck(fuel - 1, before, p', q[..|q| - 1]);
    }
  }

  lemma BrokenPlus(fuel: nat, before: IdOrder, p: Poly, q: Poly)
    requires fuel > 0 && Broken(before, p) && OkPoly(before, q) && |q| > 1
    ensures SumTerm(fuel, before, PolyTerm(p), PolyTerm(q)) ==
      SumTwice(fuel, before, PolyTerm(p), MonoTerm(q[|q| - 1]), PolyTerm(q[..|q| - 1]))
  {
    hide MonoTerm, SumTwice, MergedTerm, TermOrderBefore, KeyBefore;
  }

  /** Where the sums settle, the answer is the normal term of the sum. */
  lemma {:induction false} SumsSettle(fuel: nat, before: IdOrder, p: Poly, q: Poly)
    requires StrictTotal(before) && OkPoly(before, p) && OkPoly(before, q) && Settles(before, p, q)
    requires fuel >= |p| + 2 * |q| + 5
    ensures SumTerm(fuel, before, PolyTerm(p), PolyTerm(q)) == Some(PolyTerm(AddPoly(before, p, q)))
    decreases q
  {
    hide SumTerm, MonoTerm, KeyBefore, PolyTerm, AddMono, Free;
    if p == [] || |q| <= 1 || |p| == 1 {
      FewSettle(fuel, before, p, q);
    } else {
      PlusPlus(fuel, before, p, q);
      Inserted(fuel - 1, before, p, q[|q| - 1]);
      AddMonoOk(before, p, q[|q| - 1]);
      SumsSettle(fuel - 1, before, AddMono(before, p, q[|q| - 1]), q[..|q| - 1]);
    }
  }

  lemma FewSettle(fuel: nat, before: IdOrder, p: Poly, q: Poly)
    requires StrictTotal(before) && OkPoly(before, p) && OkPoly(before, q) && Settles(before, p, q)
    requires fuel >= |p| + 2 * |q| + 5 && (p == [] || |q| <= 1 || |p| == 1)
    ensures SumTerm(fuel, before, PolyTerm(p), PolyTerm(q)) == Some(PolyTerm(AddPoly(before, p, q)))
  {
    hide SumTerm, MonoTerm, KeyBefore, PolyTerm;
    FewProducts(p);
    FewProducts(q);
    if p == [] {
      ZeroAdded(fuel, before, PolyTerm(q));
      AddsUp(before, p, q, q);
    } else if q == [] {
      Inserted(fuel, before, p, ZERO);
    } else if |q| == 1 {
      assert q[..0] == [];
      Inserted(fuel, before, p, q[0]);
    } else {
      SinglePlus(fuel, before, p[0], q);
      Inserted(fuel - 1, before, q, p[0]);
      AddsTo(before, q, p);
    }
  }

  lemma AddsTo(before: IdOrder, q: Poly, p: Poly)
    requires StrictTotal(before) && OkPoly(before, p) && OkPoly(before, q) && |p| == 1
    ensures AddMono(before, q, p[0]) == AddPoly(before, p, q)
  {
    AddMonoOk(before, q, p[0]);
    forall k: Key ensures CoefficientIn(AddMono(before, q, p[0]), k) == CoefficientIn(p, k) + CoefficientIn(q, k) {
      AddMonoCoefficient(before, q, p[0], k);
      assert p[..0] == [];
    }
    AddsUp(before, p, q, AddMono(before, q, p[0]));
  }

  /** Where a product is not free to go, the answer is not normal. */
  lemma NotInserted(fuel: nat, before: IdOrder, p: Poly, m: Mono)
    requires StrictTotal(before) && OkPoly(before, p) && p != [] && (m == ZERO || OkMono(before, m)) && !Free(before, p, m)
    requires SumTerm(fuel, before, PolyTerm(p), MonoTerm(m)).Some?
    ensures Stuck(before, SumTerm(fuel, before, PolyTerm(p), MonoTerm(m)).value)
  {
    hide SumTerm, KeyBefore;
    if KeyBefore(before, m.key, p[0].key) {
      StaysStuck(fuel, before, p, m);
    } else {
      FixedKey(before, p[0]);
      LeavesZero(fuel, before, p, m);
    }
  }

  /** Where the sums do not settle, no answer is normal. */
  lemma {:induction false} SumsDoNotSettle(fuel: nat, before: IdOrder, p: Poly, q: Poly)
    requires StrictTotal(before) && OkPoly(before, p) && OkPoly(before, q) && !Settles(before, p, q)
    requires SumTerm(fuel, before, PolyTerm(p), PolyTerm(q)).Some?
    ensures !Normal(before, SumTerm(fuel, before, PolyTerm(p), PolyTerm(q)).value)
    decreases q
  {
    hide SumTerm, MonoTerm, KeyBefore, PolyTerm, Normal;
    if fuel == 0 {
      NoFuel(before, [PolyTerm(q)], PolyTerm(q), PolyTerm(q));
    } else if |q| <= 1 || |p| == 1 {
      FewDoNotSettle(fuel, before, p, q);
    } else if Free(before, p, q[|q| - 1]) {
      PlusPlus(fuel, before, p, q);
      var l := q[|q| - 1];
      AddMonoOk(before, p, l);
      Inserted(fuel + |p| + 3, before, p, l);
      MoreFuel(fuel - 1, fuel + |p| + 3, before, PolyTerm(p), MonoTerm(l));
      SumsDoNotSettle(fuel - 1, before, AddMono(before, p, l), q[..|q| - 1]);
    } else {
      PlusPlus(fuel, before, p, q);
      NotInserted(fuel - 1, before, p, q[|q| - 1]);
      var p': Poly :| Broken(before, p') && SumTerm(fuel - 1, before, PolyTerm(p), MonoTerm(q[|q| - 1])).value == PolyTerm(p');
      SumStaysStuck(fuel - 1, before, p', q[..|q| - 1]);
      StuckNotNormal(before, SumTerm(fuel, before, PolyTerm(p), PolyTerm(q)).value);
    }
  }

  lemma FewDoNotSettle(fuel: nat, before: IdOrder, p: Poly, q: Poly)
    requires StrictTotal(before) && OkPoly(before, p) && OkPoly(before, q) && !Settles(before, p, q)
    requires fuel > 0 && (|q| <= 1 || |p| == 1) && SumTerm(fuel, before, PolyTerm(p), PolyTerm(q)).Some?
    ensures !Normal(before, SumTerm(fuel, before, PolyTerm(p), PolyTerm(q)).value)
  {
    hide SumTerm, MonoTerm, KeyBefore, PolyTerm, Normal;
    FewProducts(p);
    var t := SumTerm(fuel, before, PolyTerm(p), PolyTerm(q)).value;
    if |q| <= 1 {
      var m := if q == [] then ZERO else q[0];
      NothingBefore(before, p, q, m);
      NotInserted(fuel, before, p, m);
      StuckNotNormal(before, t);
    } else {
      SinglePlus(fuel, before, p[0], q);
      if Fixed(p[0]) {
        NormalPoly(before, q);
        SumOnTheRight(before, MonoTerm(p[0]), PolyTerm(q));
      } else {
        NotInserted(fuel - 1, before, q, p[0]);
        StuckNotNormal(before, t);
      }
    }
  }

  lemma NothingBefore(before: IdOrder, p: Poly, q: Poly, m: Mono)
    requires OkPoly(before, p) && OkPoly(before, q) && |q| <= 1 && m == if q == [] then ZERO else q[0]
    requires !Settles(before, p, q)
    ensures p != [] && !Free(before, p, m) && PolyTerm(q) == MonoTerm(m)
  {
    if q == [] { FixedKey(before, p[0]); }
  }

  // ---------- terms ----------

  /** The sum of two normal terms, once there is an answer, is normal if and only if the sums settle; then the coefficients
      are added up, so that like terms have been merged, and there is an answer whenever the fuel is twice the number of products. */
  lemma SumNormalExactly(fuel: nat, before: IdOrder, a: ArithTerm, b: ArithTerm)
    requires StrictTotal(before) && Normal(before, a) && Normal(before, b)
    ensures var r, p, q := SumTerm(fuel, before, a, b), Monomials(a), Monomials(b);
      && (r.Some? ==> (Normal(before, r.value) <==> Settles(before, p, q)))
      && (Settles(before, p, q) && fuel >= |p| + 2 * |q| + 5 ==> r.Some?)
      && (Settles(before, p, q) && r.Some? ==> forall k: Key :: Coefficient(r.value, k) == Coefficient(a, k) + Coefficient(b, k))
  {
    hide SumTerm, PolyTerm, Settles;
    var p, q, r := Monomials(a), Monomials(b), SumTerm(fuel, before, a, b);
    if Settles(before, p, q) {
      var enough := fuel + |p| + 2 * |q| + 5;
      SumsSettle(enough, before, p, q);
      if fuel >= |p| + 2 * |q| + 5 { SumsSettle(fuel, before, p, q); }
      MoreFuel(fuel, enough, before, a, b);
      AddPolyOk(before, p, q);
      NormalPoly(before, AddPoly(before, p, q));
      forall k: Key ensures Coefficient(PolyTerm(AddPoly(before, p, q)), k) == Coefficient(a, k) + Coefficient(b, k) {
        CoefficientsAre(before, p, k);
        CoefficientsAre(before, q, k);
        CoefficientsAre(before, AddPoly(before, p, q), k);
      }
    } else if r.Some? {
      SumsDoNotSettle(fuel, before, p, q);
    }
  }

  /** Twice an unknown stays in front of another unknown that comes before it, so this sum is not normal, and it is not
      the sum the other way round, which is. */
  lemma SumOutOfOrder(fuel: nat, before: IdOrder, x: nat, y: nat)
    requires StrictTotal(before) && before(Unknown(x), Unknown(y)) && fuel >= 2
    ensures var a, b := Times(Number(2.0), Unknown(y)), Unknown(x);
      && Normal(before, a) && Normal(before, b)
      && SumTerm(fuel, before, a, b) == Some(Plus(a, b)) && !Normal(before, Plus(a, b))
      && SumTerm(fuel, before, b, a) == Some(Plus(b, a)) && Normal(before, Plus(b, a))
  {
    hide SumTerm;
    var m, l := Mono(2.0, [Unknown(y)]), Mono(1.0, [Unknown(x)]);
    assert StrictTotalAt(before, Unknown(x), Unknown(y), Unknown(x));
    MonoFactors(m);
    MonoFactors(l);
    assert Parts(m)[..1] == [Number(2.0)];
    assert MonoTerm(m) == Times(Number(2.0), Unknown(y)) && MonoTerm(l) == Unknown(x);
    SingleStep(fuel, before, m, l);
    SingleStep(fuel, before, l, m);
    hide MonoTerm;
    PlusTerm([m], l);
    PlusTerm([l], m);
    FewProducts([m]);
    FewProducts([l]);
    NormalPoly(before, [m]);
    NormalPoly(before, [l]);
    NormalPoly(before, [l] + [m]);
    BrokenAt(before, [m] + [l], 1);
    StuckNotNormal(before, PolyTerm([m] + [l]));
  }
}
