/** Products of sums: multiplication respects the order of products, so that where every two products settle the answer is
    normal exactly when the sums settle, too.  Where they do not, a later sum can put things right. */
module NormalExpansion {
  import opened Wrappers
  import opened Arithmetic
  import opened ArithmeticRewriting
  import opened NormalForms
  import opened NormalSums
  import opened NormalProducts
  import opened NormalRequests

  // ---------- multiplication respects the order ----------

  /** A factor in its place, looked for from the left. */
  function InsertFront(before: IdOrder, k: Key, f: ArithTerm): Key {
    if k == [] || before(f, k[0]) then [f] + k else [k[0]] + InsertFront(before, k[1..], f)
  }

  lemma {:induction false} FrontOk(before: IdOrder, k: Key, f: ArithTerm)
    requires StrictTotal(before) && OkKey(before, k) && IsAtom(f)
    ensures OkKey(before, InsertFront(before, k, f)) && multiset(InsertFront(before, k, f)) == multiset(k) + multiset{f}
    decreases k
  {
    if k != [] {
      var r := InsertFront(before, k, f);
      assert k == [k[0]] + k[1..];
      if before(f, k[0]) {
        forall j | 0 < j < |r| ensures !before(r[j], f) { FirstLeast(before, k, f, j - 1); }
      } else {
        FrontOk(before, k[1..], f);
        var s := InsertFront(before, k[1..], f);
        forall j | 0 <= j < |s| ensures !before(s[j], k[0]) {
          assert s[j] in multiset(s);
          if s[j] != f { assert s[j] in k[1..]; }
        }
        assert r[1..] == s;
      }
    }
  }

  lemma FirstLeast(before: IdOrder, k: Key, f: ArithTerm, j: nat)
    requires StrictTotal(before) && OkKey(before, k) && j < |k| && before(f, k[0])
    ensures !before(k[j], f)
  {
    assert StrictTotalAt(before, k[j], f, k[0]) && StrictTotalAt(before, f, k[0], f);
  }

  lemma FrontIsInserted(before: IdOrder, k: Key, f: ArithTerm)
    requires StrictTotal(before) && OkKey(before, k) && IsAtom(f)
    ensures InsertFront(before, k, f) == InsertKey(before, k, f)
  {
    FrontOk(before, k, f);
    InsertKeyOk(before, k, f);
    SortedOnce(before, InsertFront(before, k, f), InsertKey(before, k, f));
  }

  /** The first of the factors, after one that is not after any of them is put in. */
  lemma FrontFirst(before: IdOrder, k: Key, f: ArithTerm)
    requires StrictTotal(before) && (k != [] ==> !before(k[0], f))
    ensures InsertFront(before, k, f) != [] && InsertFront(before, k, f)[0] == f
  {
    if k != [] { assert StrictTotalAt(before, f, k[0], f); }
  }

  lemma {:induction false} FrontLength(before: IdOrder, k: Key, f: ArithTerm)
    ensures |InsertFront(before, k, f)| == |k| + 1
    decreases k
  {
    if k != [] { FrontLength(before, k[1..], f); }
  }

  lemma {:induction false} FrontMonotone(before: IdOrder, k: Key, l: Key, f: ArithTerm)
    requires StrictTotal(before) && OkKey(before, k) && OkKey(before, l) && IsAtom(f) && |k| == |l| && LexBefore(before, k, l)
    ensures |InsertFront(before, k, f)| == |InsertFront(before, l, f)| && LexBefore(before, InsertFront(before, k, f), InsertFront(before, l, f))
    decreases k
  {
    FrontLength(before, k, f);
    FrontLength(before, l, f);
    var a, b, k', l' := k[0], l[0], k[1..], l[1..];
    assert StrictTotalAt(before, f, a, b) && StrictTotalAt(before, a, f, b);
    assert ([f] + k)[1..] == k && ([f] + l)[1..] == l;
    if before(f, a) {
      assert a == b || before(a, b);
    } else if a == b {
      FrontMonotone(before, k', l', f);
      assert ([a] + InsertFront(before, k', f))[1..] == InsertFront(before, k', f) && ([a] + InsertFront(before, l', f))[1..] == InsertFront(before, l', f);
    } else if a == f {
      FrontFirst(before, k', f);
      FrontLength(before, k', f);
      assert ([a] + InsertFront(before, k', f))[1..] == InsertFront(before, k', f);
    }
  }

  lemma InsertMonotone(before: IdOrder, k: Key, l: Key, f: ArithTerm)
    requires StrictTotal(before) && OkKey(before, k) && OkKey(before, l) && IsAtom(f) && KeyBefore(before, k, l)
    ensures KeyBefore(before, InsertKey(before, k, f), InsertKey(before, l, f))
  {
    hide OkKey, LexBefore;
    InsertKeyLength(before, k, f);
    InsertKeyLength(before, l, f);
    if |k| == |l| {
      FrontMonotone(before, k, l, f);
      FrontIsInserted(before, k, f);
      FrontIsInserted(before, l, f);
    }
  }

  lemma {:induction false} MulMonotone(before: IdOrder, k: Key, l: Key, n: Key)
    requires StrictTotal(before) && OkKey(before, k) && OkKey(before, l) && OkKey(before, n) && KeyBefore(before, k, l)
    ensures KeyBefore(before, MulKey(before, k, n), MulKey(before, l, n))
    decreases n
  {
    hide KeyBefore;
    if n != [] {
      var f := n[|n| - 1];
      InsertMonotone(before, k, l, f);
      InsertKeyOk(before, k, f);
      InsertKeyOk(before, l, f);
      MulMonotone(before, InsertKey(before, k, f), InsertKey(before, l, f), n[..|n| - 1]);
    }
  }

  lemma KeysCommute(before: IdOrder, k: Key, l: Key)
    requires StrictTotal(before) && OkKey(before, k) && OkKey(before, l)
    ensures MulKey(before, k, l) == MulKey(before, l, k)
  {
    MulKeyOk(before, k, l);
    MulKeyOk(before, l, k);
    SortedOnce(before, MulKey(before, k, l), MulKey(before, l, k));
  }

  predicate NotBefore(before: IdOrder, k: Key, l: Key) {
    k == l || KeyBefore(before, l, k)
  }

  /** Multiplication respects the order of products: of both factors at once. */
  lemma ProductsOrdered(before: IdOrder, k: Key, l: Key, m: Key, n: Key)
    requires StrictTotal(before) && OkKey(before, k) && OkKey(before, l) && OkKey(before, m) && OkKey(before, n)
    requires NotBefore(before, l, k) && NotBefore(before, n, m)
    ensures NotBefore(before, MulKey(before, l, n), MulKey(before, k, m))
    ensures MulKey(before, l, n) == MulKey(before, k, m) <==> k == l && m == n
  {
    hide KeyBefore, OkKey, MulKey;
    if KeyBefore(before, k, l) { MulMonotone(before, k, l, m); }
    if KeyBefore(before, m, n) {
      MulMonotone(before, m, n, l);
      KeysCommute(before, m, l);
      KeysCommute(before, n, l);
    }
    KeyOrder(before, MulKey(before, k, m), MulKey(before, l, m), MulKey(before, l, n));
    KeyOrder(before, MulKey(before, k, m), MulKey(before, k, m), MulKey(before, k, m));
    KeyOrder(before, k, k, k);
    KeyOrder(before, m, m, m);
    KeyOrder(before, MulKey(before, k, m), MulKey(before, l, n), MulKey(before, k, m));
  }

  // ---------- rows ----------

  /** Every product of the one settles with every product of the other. */
  predicate AllSettle(before: IdOrder, p: Poly, q: Poly) {
    forall i, j :: 0 <= i < |p| && 0 <= j < |q| ==> MonoSettles(before, p[i], q[j])
  }

  function Row(before: IdOrder, m: Mono, q: Poly): (r: Poly)
    ensures |r| == |q|
  {
    seq(|q|, j requires 0 <= j < |q| => MulMono(before, m, q[j]))
  }

  lemma RowOk(before: IdOrder, m: Mono, q: Poly)
    requires StrictTotal(before) && OkMono(before, m) && OkPoly(before, q)
    ensures OkPoly(before, Row(before, m, q))
  {
    hide KeyBefore, OkKey, MulKey;
    var r := Row(before, m, q);
    forall j | 0 <= j < |r| ensures OkMono(before, r[j]) { MulMonoOk(before, m, q[j]); }
    forall i, j | 0 <= i < j < |r| ensures KeyBefore(before, r[i].key, r[j].key) {
      MulMonotone(before, q[i].key, q[j].key, m.key);
      KeysCommute(before, q[i].key, m.key);
      KeysCommute(before, q[j].key, m.key);
    }
  }

  /** A product times a sum is in order already. */
  lemma {:induction false} RowSettles(before: IdOrder, m: Mono, q: Poly)
    requires StrictTotal(before) && OkMono(before, m) && OkPoly(before, q) && AllSettle(before, [m], q)
    ensures ProductSettles(before, [m], q) && MulPoly(before, [m], q) == Row(before, m, q)
    decreases |q|
  {
    hide MonoSettles, OkMono, MulMono, KeyBefore, Settles, AddPoly;
    if q != [] {
      var init, l := q[..|q| - 1], q[|q| - 1];
      assert MonoSettles(before, [m][0], l);
      if |q| > 1 {
        PartsOk(before, q);
        RowSettles(before, m, init);
        RowSettles(before, m, [l]);
        RowOk(before, m, q);
        var r := Row(before, m, q);
        assert Row(before, m, init) == r[..|r| - 1] && Row(before, m, [l]) == [r[|r| - 1]];
        NotZero(before, r, |r| - 1);
        LastSettles(before, r[..|r| - 1], r[|r| - 1]);
        assert r[..|r| - 1] + [r[|r| - 1]] == r;
      }
    }
  }

  lemma NotZero(before: IdOrder, p: Poly, i: nat)
    requires OkPoly(before, p) && i < |p|
    ensures p[i].coef != 0.0 && OkMono(before, p[i])
  {
  }

  // ---------- the least and the greatest product ----------

  lemma {:induction false} RowOutside(before: IdOrder, m: Mono, q: Poly, k: Key)
    requires forall j :: 0 <= j < |q| ==> MulKey(before, m.key, q[j].key) != k
    ensures RowCoefficient(before, m, q, k) == 0.0
    decreases q
  {
    if q != [] { RowOutside(before, m, q[..|q| - 1], k); }
  }

  lemma {:induction false} PairsOutside(before: IdOrder, p: Poly, q: Poly, k: Key)
    requires forall i, j :: 0 <= i < |p| && 0 <= j < |q| ==> MulKey(before, p[i].key, q[j].key) != k
    ensures PairsCoefficient(before, p, q, k) == 0.0
    decreases p
  {
    if p != [] {
      PairsOutside(before, p[..|p| - 1], q, k);
      RowOutside(before, p[|p| - 1], q, k);
    }
  }

  /** Keys of a normal sum in their order. */
  lemma KeysAt(before: IdOrder, p: Poly, i: nat, j: nat)
    requires StrictTotal(before) && OkPoly(before, p) && i < |p| && j < |p|
    ensures i <= j ==> NotBefore(before, p[j].key, p[i].key)
    ensures p[i].key == p[j].key <==> i == j
    ensures OkKey(before, p[i].key) && OkKey(before, p[j].key)
  {
    hide KeyBefore;
    KeyOrder(before, p[i].key, p[j].key, p[i].key);
    assert OkMono(before, p[i]) && OkMono(before, p[j]);
  }

  /** No two products are as small as the first two, or as great as the last two. */
  lemma PairAt(before: IdOrder, p: Poly, q: Poly, i: nat, j: nat, m: nat, n: nat)
    requires StrictTotal(before) && OkPoly(before, p) && OkPoly(before, q) && i <= m < |p| && j <= n < |q|
    ensures NotBefore(before, MulKey(before, p[m].key, q[n].key), MulKey(before, p[i].key, q[j].key))
    ensures MulKey(before, p[i].key, q[j].key) == MulKey(before, p[m].key, q[n].key) <==> i == m && j == n
  {
    hide KeyBefore, OkKey, OkPoly, MulKey, NotBefore;
    KeysAt(before, p, i, m);
    KeysAt(before, q, j, n);
    ProductsOrdered(before, p[i].key, p[m].key, q[j].key, q[n].key);
  }

  function Low(before: IdOrder, p: Poly, q: Poly): Key
    requires p != [] && q != []
  {
    MulKey(before, p[0].key, q[0].key)
  }

  function High(before: IdOrder, p: Poly, q: Poly): Key
    requires p != [] && q != []
  {
    MulKey(before, p[|p| - 1].key, q[|q| - 1].key)
  }

  lemma HighCoefficient(before: IdOrder, p: Poly, q: Poly)
    requires StrictTotal(before) && OkPoly(before, p) && OkPoly(before, q) && p != [] && q != []
    ensures PairsCoefficient(before, p, q, High(before, p, q)) == CoefProduct(p[|p| - 1].coef, q[|q| - 1].coef)
  {
    hide OkPoly, MulKey;
    var x, y, k := p[|p| - 1], q[|q| - 1], High(before, p, q);
    forall i, j | 0 <= i < |p| && 0 <= j < |q| ensures MulKey(before, p[i].key, q[j].key) == k <==> i == |p| - 1 && j == |q| - 1 {
      PairAt(before, p, q, i, j, |p| - 1, |q| - 1);
    }
    PairsOutside(before, p[..|p| - 1], q, k);
    RowOutside(before, x, q[..|q| - 1], k);
  }

  lemma {:induction false} LowCoefficient(before: IdOrder, p: Poly, q: Poly)
    requires StrictTotal(before) && OkPoly(before, p) && OkPoly(before, q) && p != [] && q != []
    ensures PairsCoefficient(before, p, q, Low(before, p, q)) == CoefProduct(p[0].coef, q[0].coef)
    decreases |p|
  {
    hide OkPoly, MulKey;
    var k := Low(before, p, q);
    if |p| > 1 {
      PartsOk(before, p);
      LowCoefficient(before, p[..|p| - 1], q);
      forall j | 0 <= j < |q| ensures MulKey(before, p[|p| - 1].key, q[j].key) != k { PairAt(before, p, q, 0, 0, |p| - 1, j); }
      RowOutside(before, p[|p| - 1], q, k);
    } else {
      assert p == [p[0]];
      SinglePairs(before, p[0], q, k);
      LowInRow(before, p, q);
    }
  }

  lemma {:induction false} LowInRow(before: IdOrder, p: Poly, q: Poly)
    requires StrictTotal(before) && OkPoly(before, p) && OkPoly(before, q) && p != [] && q != []
    ensures RowCoefficient(before, p[0], q, Low(before, p, q)) == CoefProduct(p[0].coef, q[0].coef)
    decreases |q|
  {
    hide OkPoly, MulKey;
    if |q| > 1 {
      PartsOk(before, q);
      LowInRow(before, p, q[..|q| - 1]);
      PairAt(before, p, q, 0, 0, 0, |q| - 1);
    }
  }

  lemma {:induction false} OwnCoefficient(before: IdOrder, p: Poly, i: nat)
    requires StrictTotal(before) && OkPoly(before, p) && i < |p|
    ensures CoefficientIn(p, p[i].key) == p[i].coef
    decreases |p|
  {
    if i == |p| - 1 {
      LastCoefficient(before, p);
    } else {
      OwnCoefficient(before, p[..|p| - 1], i);
      KeyOrder(before, p[i].key, p[i].key, p[i].key);
    }
  }

  /** A product of sums has its least and its greatest product, and nothing after that. */
  lemma Extremes(before: IdOrder, p: Poly, q: Poly)
    requires StrictTotal(before) && OkPoly(before, p) && OkPoly(before, q) && p != [] && q != []
    ensures var r := MulPoly(before, p, q);
      && OkPoly(before, r)
      && CoefficientIn(r, Low(before, p, q)) != 0.0 && CoefficientIn(r, High(before, p, q)) != 0.0
      && (|q| > 1 ==> Low(before, p, q) != High(before, p, q))
      && forall i :: 0 <= i < |r| ==> NotBefore(before, High(before, p, q), r[i].key)
  {
    hide OkPoly, MulKey, MulPoly, NotBefore;
    var r := MulPoly(before, p, q);
    MulPolyOk(before, p, q);
    LowCoefficient(before, p, q);
    HighCoefficient(before, p, q);
    NotZero(before, p, 0);
    NotZero(before, q, 0);
    NotZero(before, p, |p| - 1);
    NotZero(before, q, |q| - 1);
    NonZero(p[0].coef, q[0].coef);
    NonZero(p[|p| - 1].coef, q[|q| - 1].coef);
    PairAt(before, p, q, 0, 0, |p| - 1, |q| - 1);
    forall i | 0 <= i < |r| ensures NotBefore(before, High(before, p, q), r[i].key) {
      OwnCoefficient(before, r, i);
      NotZero(before, r, i);
      var m, n := Origin(before, p, q, r[i].key);
      PairAt(before, p, q, m, n, |p| - 1, |q| - 1);
    }
  }

  lemma Origin(before: IdOrder, p: Poly, q: Poly, k: Key) returns (i: nat, j: nat)
    requires PairsCoefficient(before, p, q, k) != 0.0
    ensures i < |p| && j < |q| && MulKey(before, p[i].key, q[j].key) == k
  {
    if forall i, j :: 0 <= i < |p| && 0 <= j < |q| ==> MulKey(before, p[i].key, q[j].key) != k { PairsOutside(before, p, q, k); }
    i, j :| 0 <= i < |p| && 0 <= j < |q| && MulKey(before, p[i].key, q[j].key) == k;
  }

  // ---------- sums that do not settle ----------

  /** Two products that stay whatever is added of q. */
  ghost predicate Steady(p: Poly, q: Poly, low: Key, high: Key) {
    && low != high && CoefficientIn(p, low) != 0.0 && CoefficientIn(p, high) != 0.0
    && forall j :: 0 <= j < |q| ==> q[j].key != low && q[j].key != high
  }

  lemma FewCoefficients(p: Poly, k: Key)
    requires |p| <= 1 && CoefficientIn(p, k) != 0.0
    ensures |p| == 1 && p[0].key == k
  {
    assert p[..|p| - 1] == [];
  }

  lemma TwoProducts(p: Poly, low: Key, high: Key)
    requires low != high && CoefficientIn(p, low) != 0.0 && CoefficientIn(p, high) != 0.0
    ensures |p| > 1
  {
    if |p| <= 1 {
      FewCoefficients(p, low);
      FewCoefficients(p, high);
    }
  }

  lemma {:induction false} SteadyStuck(fuel: nat, before: IdOrder, p: Poly, q: Poly, low: Key, high: Key)
    requires StrictTotal(before) && OkPoly(before, p) && OkPoly(before, q) && Steady(p, q, low, high) && !Settles(before, p, q)
    requires SumTerm(fuel, before, PolyTerm(p), PolyTerm(q)).Some?
    ensures Stuck(before, SumTerm(fuel, before, PolyTerm(p), PolyTerm(q)).value)
    decreases q
  {
    hide SumTerm, MonoTerm, KeyBefore, PolyTerm, OkPoly, Stuck;
    TwoProducts(p, low, high);
    if |q| <= 1 {
      FewStuck(fuel, before, p, q);
    } else if fuel == 0 {
      NoFuel(before, [PolyTerm(q)], PolyTerm(q), PolyTerm(q));
    } else if Free(before, p, q[|q| - 1]) {
      var init, l := q[..|q| - 1], q[|q| - 1];
      OneAdded(fuel, before, p, q);
      AddMonoCoefficient(before, p, l, low);
      AddMonoCoefficient(before, p, l, high);
      SteadyStuck(fuel - 1, before, AddMono(before, p, l), init, low, high);
    } else {
      NotFreeStuck(fuel, before, p, q);
    }
  }

  lemma FewStuck(fuel: nat, before: IdOrder, p: Poly, q: Poly)
    requires StrictTotal(before) && OkPoly(before, p) && OkPoly(before, q) && !Settles(before, p, q) && |q| <= 1
    requires SumTerm(fuel, before, PolyTerm(p), PolyTerm(q)).Some?
    ensures Stuck(before, SumTerm(fuel, before, PolyTerm(p), PolyTerm(q)).value)
  {
    hide SumTerm, MonoTerm, PolyTerm, Free, Stuck;
    var m := if q == [] then ZERO else q[0];
    NothingBefore(before, p, q, m);
    NotInserted(fuel, before, p, m);
  }

  /** The last of the second sum goes into the first. */
  lemma OneAdded(fuel: nat, before: IdOrder, p: Poly, q: Poly)
    requires StrictTotal(before) && OkPoly(before, p) && OkPoly(before, q) && |p| > 1 && |q| > 1 && fuel > 0
    requires Free(before, p, q[|q| - 1]) && SumTerm(fuel, before, PolyTerm(p), PolyTerm(q)).Some? && !Settles(before, p, q)
    ensures OkPoly(before, AddMono(before, p, q[|q| - 1])) && OkPoly(before, q[..|q| - 1])
    ensures !Settles(before, AddMono(before, p, q[|q| - 1]), q[..|q| - 1])
    ensures SumTerm(fuel, before, PolyTerm(p), PolyTerm(q)) ==
      SumTerm(fuel - 1, before, PolyTerm(AddMono(before, p, q[|q| - 1])), PolyTerm(q[..|q| - 1]))
  {
    hide SumTerm, MonoTerm, PolyTerm, Free;
    var l := q[|q| - 1];
    PlusPlus(fuel, before, p, q);
    AddMonoOk(before, p, l);
    Inserted(fuel + |p| + 3, before, p, l);
    MoreFuel(fuel - 1, fuel + |p| + 3, before, PolyTerm(p), MonoTerm(l));
  }

  lemma NotFreeStuck(fuel: nat, before: IdOrder, p: Poly, q: Poly)
    requires StrictTotal(before) && OkPoly(before, p) && OkPoly(before, q) && |p| > 1 && |q| > 1 && fuel > 0
    requires !Free(before, p, q[|q| - 1]) && SumTerm(fuel, before, PolyTerm(p), PolyTerm(q)).Some?
    ensures Stuck(before, SumTerm(fuel, before, PolyTerm(p), PolyTerm(q)).value)
  {
    hide SumTerm, MonoTerm, PolyTerm, Free;
    PlusPlus(fuel, before, p, q);
    NotInserted(fuel - 1, before, p, q[|q| - 1]);
    var p': Poly :| Broken(before, p') && SumTerm(fuel - 1, before, PolyTerm(p), MonoTerm(q[|q| - 1])).value == PolyTerm(p');
    SumStaysStuck(fuel - 1, before, p', q[..|q| - 1]);
  }

  /** Likewise when the last of the second sum comes after all of the first. */
  lemma LaterStuck(fuel: nat, before: IdOrder, p: Poly, q: Poly, low: Key)
    requires StrictTotal(before) && OkPoly(before, p) && OkPoly(before, q) && !Settles(before, p, q) && p != [] && q != []
    requires (|q| > 1 ==> |p| > 1) && CoefficientIn(p, low) != 0.0 && Below(before, p, q[|q| - 1].key)
    requires forall j :: 0 <= j < |q| ==> q[j].key != low
    requires SumTerm(fuel, before, PolyTerm(p), PolyTerm(q)).Some?
    ensures Stuck(before, SumTerm(fuel, before, PolyTerm(p), PolyTerm(q)).value)
  {
    hide SumTerm, MonoTerm, PolyTerm, OkPoly, Stuck, KeyBefore;
    if |q| == 1 {
      FewStuck(fuel, before, p, q);
    } else if fuel == 0 {
      NoFuel(before, [PolyTerm(q)], PolyTerm(q), PolyTerm(q));
    } else if Free(before, p, q[|q| - 1]) {
      var init, l := q[..|q| - 1], q[|q| - 1];
      OneAdded(fuel, before, p, q);
      NotZero(before, q, |q| - 1);
      AddMonoCoefficient(before, p, l, low);
      AddMonoCoefficient(before, p, l, l.key);
      KeyOrder(before, l.key, l.key, l.key);
      NotAmong(p, l.key);
      forall j | 0 <= j < |init| ensures init[j].key != l.key { KeysAt(before, q, j, |q| - 1); }
      SteadyStuck(fuel - 1, before, AddMono(before, p, l), init, low, l.key);
    } else {
      NotFreeStuck(fuel, before, p, q);
    }
  }

  // ---------- products of sums ----------

  lemma {:induction false} ProductsStuck(fuel: nat, before: IdOrder, p: Poly, q: Poly)
    requires StrictTotal(before) && OkPoly(before, p) && OkPoly(before, q) && AllSettle(before, p, q) && !ProductSettles(before, p, q)
    requires ProductTerm(fuel, before, PolyTerm(p), PolyTerm(q)).Some?
    ensures Stuck(before, ProductTerm(fuel, before, PolyTerm(p), PolyTerm(q)).value)
    decreases |p|
  {
    hide ProductTerm, SumTerm, PolyTerm, MonoTerm, OkPoly, MonoSettles, Settles, MulPoly, Stuck;
    PolyShape(before, p);
    PolyShape(before, q);
    PartsOk(before, p);
    var init, l := p[..|p| - 1], p[|p| - 1];
    RowSettles(before, l, q);
    assert p == init + [l];
    if fuel == 0 {
      NoProduct(before, PolyTerm(p), PolyTerm(q));
    } else {
      SumsOfProducts(fuel, before, PolyTerm(p), PolyTerm(q));
      var n := ProductsSettle(before, [l], q);
      AnswersAgree(n, fuel - 1, before, PolyTerm([l]), PolyTerm(q));
      RowOk(before, l, q);
      if ProductSettles(before, init, q) {
        var n' := ProductsSettle(before, init, q);
        AnswersAgree(n', fuel - 1, before, PolyTerm(init), PolyTerm(q));
        RowAdded(fuel - 1, before, p, q);
      } else {
        ProductsStuck(fuel - 1, before, init, q);
        StillStuck(fuel - 1, before, ProductTerm(fuel - 1, before, PolyTerm(init), PolyTerm(q)).value, Row(before, l, q));
      }
    }
  }

  lemma StillStuck(fuel: nat, before: IdOrder, t: ArithTerm, q: Poly)
    requires StrictTotal(before) && Stuck(before, t) && OkPoly(before, q) && q != [] && SumTerm(fuel, before, t, PolyTerm(q)).Some?
    ensures Stuck(before, SumTerm(fuel, before, t, PolyTerm(q)).value)
  {
    hide SumTerm, PolyTerm;
    var p: Poly :| Broken(before, p) && t == PolyTerm(p);
    SumStaysStuck(fuel, before, p, q);
  }

  /** The row of the last product comes after the least product of the others, and ends after their greatest. */
  lemma RowAdded(fuel: nat, before: IdOrder, p: Poly, q: Poly)
    requires StrictTotal(before) && OkPoly(before, p) && OkPoly(before, q) && |p| > 1 && q != []
    requires !Settles(before, MulPoly(before, p[..|p| - 1], q), Row(before, p[|p| - 1], q))
    requires SumTerm(fuel, before, PolyTerm(MulPoly(before, p[..|p| - 1], q)), PolyTerm(Row(before, p[|p| - 1], q))).Some?
    ensures Stuck(before, SumTerm(fuel, before, PolyTerm(MulPoly(before, p[..|p| - 1], q)), PolyTerm(Row(before, p[|p| - 1], q))).value)
  {
    hide SumTerm, PolyTerm, OkPoly, Settles, MulPoly, Stuck, MulKey, KeyBefore;
    var init, l, n := p[..|p| - 1], p[|p| - 1], |q| - 1;
    var r, row := MulPoly(before, init, q), Row(before, l, q);
    PartsOk(before, p);
    RowOk(before, l, q);
    Extremes(before, init, q);
    var low, high := Low(before, init, q), High(before, init, q);
    if |q| > 1 { TwoProducts(r, low, high); }
    forall j | 0 <= j < |row| ensures row[j].key != low { PairAt(before, p, q, 0, 0, |p| - 1, j); }
    PairAt(before, p, q, |p| - 2, n, |p| - 1, n);
    forall i | 0 <= i < |r| ensures KeyBefore(before, r[i].key, row[n].key) { KeyOrder(before, r[i].key, high, row[n].key); }
    LaterStuck(fuel, before, r, row, low);
  }

  /** Where every two products settle, the product of two normal terms is normal if and only if the sums on the way settle. */
  lemma ProductNormalExactly(fuel: nat, before: IdOrder, a: ArithTerm, b: ArithTerm)
    requires StrictTotal(before) && Normal(before, a) && Normal(before, b) && AllSettle(before, Monomials(a), Monomials(b))
    requires ProductTerm(fuel, before, a, b).Some?
    ensures Normal(before, ProductTerm(fuel, before, a, b).value) <==> ProductSettles(before, Monomials(a), Monomials(b))
  {
    hide ProductTerm, SumTerm, PolyTerm, OkPoly, ProductSettles, MulPoly, AllSettle, Monomials;
    if ProductSettles(before, Monomials(a), Monomials(b)) {
      var n := RequestAnsweredNormal(before, Product(a, b));
      assert RequestedTerm(fuel, before, Product(a, b)) == ProductTerm(fuel, before, a, b);
    } else {
      ProductsStuck(fuel, before, Monomials(a), Monomials(b));
      StuckNotNormal(before, ProductTerm(fuel, before, a, b).value);
    }
  }

  // ---------- a product that does not settle, put right ----------

  predicate Three(before: IdOrder, x: ArithTerm, f: ArithTerm, g: ArithTerm) {
    && x.Unknown? && f.Call? && g.Unknown?
    && before(x, f) && before(x, g) && before(f, g)
    && !before(f, x) && !before(g, x) && !before(g, f) && !before(x, x) && !before(f, f) && !before(g, g)
  }

  /** The call stays in front of the unknown x. */
  lemma CallStays(fuel: nat, before: IdOrder, x: ArithTerm, f: ArithTerm, g: ArithTerm)
    requires Three(before, x, f, g) && fuel >= 2
    ensures ProductTerm(fuel, before, Times(f, g), x) == Some(Times(Times(f, x), g))
  {
    hide ProductTerm;
    TimesUnfolds(fuel, before, Times(f, g), x);
    SingleTimes(fuel - 1, before, f, x);
    TimesUnfolds(fuel - 1, before, Times(f, x), g);
  }

  lemma SquareOfProduct(before: IdOrder, x: ArithTerm, f: ArithTerm, g: ArithTerm)
    requires Three(before, x, f, g)
    ensures ProductTerm(4, before, Times(f, g), Times(f, g)) == Some(Times(Times(Times(f, f), g), g))
  {
    var fg, ff := Times(f, g), Times(f, f);
    assert ProductTerm(3, before, fg, g) == Some(Times(fg, g));
    assert ProductTerm(1, before, f, f) == Some(ff) && ProductTerm(1, before, ff, g) == Some(Times(ff, g));
    assert ProductTerm(2, before, fg, f) == Some(Times(ff, g));
    assert ProductTerm(2, before, Times(ff, g), g) == Some(Times(Times(ff, g), g));
    assert ProductTerm(3, before, Times(fg, g), f) == Some(Times(Times(ff, g), g));
  }

  /** Two of the products that did not settle are like terms, and added up they are in order. */
  lemma AddedUp(before: IdOrder, x: ArithTerm, f: ArithTerm, g: ArithTerm)
    requires Three(before, x, f, g)
    ensures ConstantsAdded(2, before, [Number(1.0), f, x, g], Number(1.0), 4) == Some(Times(Times(Times(Number(2.0), x), f), g))
  {
    var factors := [Number(1.0), f, x, g];
    assert ConstantsAdded(2, before, factors, Number(1.0), 1) == Some(Number(2.0));
    assert ConstantsAdded(2, before, factors, Number(1.0), 2) == Some(Times(Number(2.0), f));
    assert ProductTerm(1, before, Number(2.0), x) == Some(Times(Number(2.0), x));
    assert ProductTerm(1, before, Times(Number(2.0), x), f) == Some(Times(Times(Number(2.0), x), f));
    assert ConstantsAdded(2, before, factors, Number(1.0), 3) == Some(Times(Times(Number(2.0), x), f));
  }

  function Squared(x: ArithTerm, f: ArithTerm, g: ArithTerm): ArithTerm {
    Plus(Plus(Times(x, x), Times(Times(Times(Number(2.0), x), f), g)), Times(Times(Times(f, f), g), g))
  }

  lemma Together(before: IdOrder, xx: ArithTerm, fxg: ArithTerm, ffgg: ArithTerm, merged: ArithTerm)
    requires xx.Times? && fxg.Times? && ffgg.Times? && merged.Times?
    requires |Factors(xx)| < |Factors(fxg)| == |Factors(merged)| < |Factors(ffgg)| && !TermOrderBefore(before, fxg, fxg)
    requires ConstantsAdded(2, before, Factors(fxg), Factors(fxg)[0], |Factors(fxg)|) == Some(merged)
    ensures SumTerm(5, before, Plus(xx, fxg), Plus(fxg, ffgg)) == Some(Plus(Plus(xx, merged), ffgg))
  {
    hide Factors;
    assert forall s: seq<ArithTerm>, t: seq<ArithTerm> :: |s| != |t| && s != [] && t != [] ==> s[1..] != t[1..] by {
      forall s: seq<ArithTerm>, t: seq<ArithTerm> | |s| != |t| && s != [] && t != [] ensures s[1..] != t[1..] { assert |s[1..]| != |t[1..]|; }
    }
    assert SumTerm(2, before, xx, merged) == Some(Plus(xx, merged));
    assert SumTerm(3, before, Plus(xx, fxg), fxg) == Some(Plus(xx, merged));
    assert SumTerm(3, before, Plus(xx, merged), ffgg) == Some(Plus(Plus(xx, merged), ffgg));
    assert SumTerm(4, before, Plus(xx, fxg), ffgg) == Some(Plus(Plus(xx, fxg), ffgg));
    assert SumTerm(4, before, Plus(Plus(xx, fxg), ffgg), fxg) == Some(Plus(Plus(xx, merged), ffgg));
  }

  lemma FactorsOfThem(before: IdOrder, x: ArithTerm, f: ArithTerm, g: ArithTerm)
    requires Three(before, x, f, g)
    ensures Factors(Times(x, x)) == [Number(1.0), x, x] && Factors(Times(Times(f, x), g)) == [Number(1.0), f, x, g]
    ensures Factors(Times(Times(Times(Number(2.0), x), f), g)) == [Number(2.0), x, f, g]
    ensures Factors(Times(Times(Times(f, f), g), g)) == [Number(1.0), f, f, g, g]
  {
    assert Factors(Times(f, x)) == [Number(1.0), f, x];
    assert Factors(Times(Number(2.0), x)) == [Number(2.0), x] && Factors(Times(Times(Number(2.0), x), f)) == [Number(2.0), x, f];
    assert Factors(Times(f, f)) == [Number(1.0), f, f] && Factors(Times(Times(f, f), g)) == [Number(1.0), f, f, g];
  }

  lemma RowsAdded(before: IdOrder, x: ArithTerm, f: ArithTerm, g: ArithTerm)
    requires Three(before, x, f, g)
    ensures var xx, fxg, ffgg := Times(x, x), Times(Times(f, x), g), Times(Times(Times(f, f), g), g);
      && SumTerm(5, before, Plus(xx, fxg), Plus(fxg, ffgg)) == Some(Squared(x, f, g))
      && SumTerm(4, before, xx, fxg) == Some(Plus(xx, fxg)) && SumTerm(4, before, fxg, ffgg) == Some(Plus(fxg, ffgg))
  {
    var xx, fxg, ffgg, merged := Times(x, x), Times(Times(f, x), g), Times(Times(Times(f, f), g), g), Times(Times(Times(Number(2.0), x), f), g);
    FactorsOfThem(before, x, f, g);
    AddedUp(before, x, f, g);
    hide ConstantsAdded, Factors;
    Together(before, xx, fxg, ffgg, merged);
  }

  /** The product of x + f * g and itself, for an unknown x that comes before the call f, is normal, although x and f * g do not
      settle: f * x * g is out of order in both rows, and in order when the rows are added up. */
  lemma SquarePutRight(before: IdOrder, x: ArithTerm, f: ArithTerm, g: ArithTerm)
    requires StrictTotal(before) && Three(before, x, f, g)
    ensures var a := Plus(x, Times(f, g));
      && Normal(before, a) && !ProductSettles(before, Monomials(a), Monomials(a))
      && ProductTerm(6, before, a, a) == Some(Squared(x, f, g)) && Normal(before, Squared(x, f, g))
  {
    RowsAdded(before, x, f, g);
    SquareOfProduct(before, x, f, g);
    CallStays(3, before, x, f, g);
    CallStays(4, before, x, f, g);
    SquareExpanded(before, x, f, g);
    SquareNormal(before, x, f, g);
  }

  lemma SquareExpanded(before: IdOrder, x: ArithTerm, f: ArithTerm, g: ArithTerm)
    requires Three(before, x, f, g)
    requires var xx, fxg, ffgg := Times(x, x), Times(Times(f, x), g), Times(Times(Times(f, f), g), g);
      && SumTerm(5, before, Plus(xx, fxg), Plus(fxg, ffgg)) == Some(Squared(x, f, g))
      && SumTerm(4, before, xx, fxg) == Some(Plus(xx, fxg)) && SumTerm(4, before, fxg, ffgg) == Some(Plus(fxg, ffgg))
      && ProductTerm(3, before, Times(f, g), x) == Some(fxg) && ProductTerm(4, before, Times(f, g), x) == Some(fxg)
      && ProductTerm(4, before, Times(f, g), Times(f, g)) == Some(ffgg)
    ensures ProductTerm(6, before, Plus(x, Times(f, g)), Plus(x, Times(f, g))) == Some(Squared(x, f, g))
  {
    hide SumTerm;
    var fg, a := Times(f, g), Plus(x, Times(f, g));
    assert ProductTerm(4, before, x, x) == Some(Times(x, x));
    assert ProductTerm(4, before, x, fg) == Some(Times(Times(f, x), g));
    assert ProductTerm(5, before, x, a) == Some(Plus(Times(x, x), Times(Times(f, x), g)));
    assert ProductTerm(5, before, fg, a) == Some(Plus(Times(Times(f, x), g), Times(Times(Times(f, f), g), g)));
  }

  lemma SquareNormal(before: IdOrder, x: ArithTerm, f: ArithTerm, g: ArithTerm)
    requires StrictTotal(before) && Three(before, x, f, g)
    ensures var a := Plus(x, Times(f, g)); Normal(before, a) && !ProductSettles(before, Monomials(a), Monomials(a))
    ensures Normal(before, Squared(x, f, g))
  {
    hide OkKey, LexBefore, MonoTerm, ProductSettles, Normal;
    var m, n := Mono(1.0, [x]), Mono(1.0, [f, g]);
    var xx, xfg, ffgg := Mono(1.0, [x, x]), Mono(2.0, [x, f, g]), Mono(1.0, [f, f, g, g]);
    KeysOfThem(before, x, f, g);
    TermsOfThem(x, f, g);
    FewProducts([m]);
    PlusTerm([m], n);
    assert [m] + [n] == [m, n];
    NormalPoly(before, [m, n]);
    NotSettled(before, x, f, g);
    FewProducts([xx]);
    PlusTerm([xx], xfg);
    assert [xx] + [xfg] == [xx, xfg];
    PlusTerm([xx, xfg], ffgg);
    assert [xx, xfg] + [ffgg] == [xx, xfg, ffgg];
    NormalPoly(before, [xx, xfg, ffgg]);
  }

  lemma KeysOfThem(before: IdOrder, x: ArithTerm, f: ArithTerm, g: ArithTerm)
    requires Three(before, x, f, g)
    ensures OkKey(before, [x]) && OkKey(before, [f, g]) && OkKey(before, [x, x]) && OkKey(before, [x, f, g]) && OkKey(before, [f, f, g, g])
  {
  }

  /** The call in f * g has to stay behind x. */
  lemma NotSettled(before: IdOrder, x: ArithTerm, f: ArithTerm, g: ArithTerm)
    requires Three(before, x, f, g)
    ensures var p := [Mono(1.0, [x]), Mono(1.0, [f, g])]; !ProductSettles(before, p, p)
  {
    hide Settles;
    var m, n := Mono(1.0, [x]), Mono(1.0, [f, g]);
    var p := [m, n];
    assert p[..1] == [m];
    assert Parts(m) == [x] && Parts(n) == [f, g];
    assert !MonoSettles(before, m, n);
    assert !ProductSettles(before, [m], [n]);
    assert !ProductSettles(before, [m], p);
  }

  lemma Chained(parts: seq<ArithTerm>, f: ArithTerm)
    requires parts != []
    ensures Chain(parts + [f]) == Times(Chain(parts), f)
  {
    assert (parts + [f])[..|parts|] == parts;
  }

  lemma TermsOfThem(x: ArithTerm, f: ArithTerm, g: ArithTerm)
    requires x.Unknown? && f.Call? && g.Unknown?
    ensures MonoTerm(Mono(1.0, [x])) == x && MonoTerm(Mono(1.0, [f, g])) == Times(f, g) && MonoTerm(Mono(1.0, [x, x])) == Times(x, x)
    ensures MonoTerm(Mono(2.0, [x, f, g])) == Times(Times(Times(Number(2.0), x), f), g)
    ensures MonoTerm(Mono(1.0, [f, f, g, g])) == Times(Times(Times(f, f), g), g)
  {
    assert Chain([x]) == x;
    TwoParts(x, x);
    TwoParts(f, g);
    TwoParts(f, f);
    TwoParts(Number(2.0), x);
    hide Chain;
    Chained([f, f], g);
    Chained([f, f, g], g);
    Chained([Number(2.0), x], f);
    Chained([Number(2.0), x, f], g);
    assert [f, f] + [g] == [f, f, g] && [f, f, g] + [g] == [f, f, g, g];
    assert [Number(2.0), x] + [f] == [Number(2.0), x, f] && [Number(2.0), x, f] + [g] == [Number(2.0)] + [x, f, g];
  }
}
