/** Products of normal terms: when the manager's answer is normal again.  A product that starts with a call keeps the
    call in front for ever, so nothing can be put before it. */
module NormalProducts {
  import opened Wrappers
  import opened Arithmetic
  import opened ArithmeticRewriting
  import opened NormalForms
  import opened NormalSums

  // ---------- one more factor ----------

  /** Puts a factor in its place. */
  function InsertKey(before: IdOrder, k: Key, f: ArithTerm): Key {
    if k != [] && before(f, k[|k| - 1]) then InsertKey(before, k[..|k| - 1], f) + [k[|k| - 1]] else k + [f]
  }

  lemma {:induction false} InsertKeyOk(before: IdOrder, k: Key, f: ArithTerm)
    requires StrictTotal(before) && OkKey(before, k) && IsAtom(f)
    ensures OkKey(before, InsertKey(before, k, f)) && multiset(InsertKey(before, k, f)) == multiset(k) + multiset{f}
    decreases k
  {
    InsertKeyAll(before, k, f);
    if k != [] && before(f, k[|k| - 1]) {
      InsertKeyOk(before, k[..|k| - 1], f);
      NoneAfter(before, k[..|k| - 1], f, k[|k| - 1]);
    } else if k != [] {
      forall i | 0 <= i < |k| ensures !before(f, k[i]) { assert StrictTotalAt(before, f, k[i], k[|k| - 1]) && StrictTotalAt(before, k[|k| - 1], k[i], f); }
    }
  }

  lemma {:induction false} InsertKeyAll(before: IdOrder, k: Key, f: ArithTerm)
    ensures multiset(InsertKey(before, k, f)) == multiset(k) + multiset{f}
    decreases k
  {
    if k != [] && before(f, k[|k| - 1]) {
      assert k[..|k| - 1] + [k[|k| - 1]] == k;
      InsertKeyAll(before, k[..|k| - 1], f);
    }
  }

  lemma {:induction false} NoneAfter(before: IdOrder, k: Key, f: ArithTerm, l: ArithTerm)
    requires StrictTotal(before) && before(f, l) && forall i :: 0 <= i < |k| ==> !before(l, k[i])
    ensures forall i :: 0 <= i < |InsertKey(before, k, f)| ==> !before(l, InsertKey(before, k, f)[i])
    decreases k
  {
    assert StrictTotalAt(before, f, l, f);
    if k != [] { NoneAfter(before, k[..|k| - 1], f, l); }
  }

  /** The last of the sorted factors is the greatest. */
  lemma LastGreatest(before: IdOrder, k: Key, f: ArithTerm)
    requires OkKey(before, k) && f in k
    ensures !before(k[|k| - 1], f) || f == k[|k| - 1]
  {
  }

  lemma WithoutLast(k: Key)
    requires k != []
    ensures multiset(k[..|k| - 1]) == multiset(k) - multiset{k[|k| - 1]} && k[|k| - 1] in multiset(k)
    ensures k[..|k| - 1] + [k[|k| - 1]] == k
  {
    assert k[..|k| - 1] + [k[|k| - 1]] == k;
  }

  lemma SameLength(k: Key, l: Key)
    requires multiset(k) == multiset(l)
    ensures |k| == |l| && forall f :: f in k <==> f in l
  {
    assert |multiset(k)| == |k| && |multiset(l)| == |l|;
    forall f ensures f in k <==> f in l { assert f in multiset(k) <==> f in multiset(l); }
  }

  /** A list of factors can be sorted in one way only. */
  lemma {:induction false} SortedOnce(before: IdOrder, k: Key, l: Key)
    requires StrictTotal(before) && OkKey(before, k) && OkKey(before, l) && multiset(k) == multiset(l)
    ensures k == l
    decreases k
  {
    SameLength(k, l);
    if k != [] {
      var x, y := k[|k| - 1], l[|l| - 1];
      LastGreatest(before, k, y);
      LastGreatest(before, l, x);
      assert StrictTotalAt(before, x, y, x);
      WithoutLast(k);
      WithoutLast(l);
      SortedOnce(before, k[..|k| - 1], l[..|l| - 1]);
    }
  }

  function CoefProduct(x: real, y: real): real {
    x * y
  }

  /** A product with one more factor or constant. */
  function InsertPart(before: IdOrder, m: Mono, f: ArithTerm): Mono {
    if f.Number? then Mono(CoefProduct(m.coef, f.value), m.key) else Mono(m.coef, InsertKey(before, m.key, f))
  }

  /** What stands in a normal product: unknowns, calls, and a constant other than 0. */
  predicate IsPart(f: ArithTerm) {
    IsAtom(f) || (f.Number? && f.value != 0.0)
  }

  /** The factor need not be put before a call that stays in front. */
  predicate PartFree(before: IdOrder, m: Mono, f: ArithTerm) {
    f == Number(1.0) || (Parts(m)[0].Call? ==> !MultiplicationBefore(before, f, Parts(m)[0]))
  }

  lemma InsertPartOk(before: IdOrder, m: Mono, f: ArithTerm)
    requires StrictTotal(before) && OkMono(before, m) && IsPart(f)
    ensures OkMono(before, InsertPart(before, m, f))
  {
    if !f.Number? { InsertKeyOk(before, m.key, f); }
  }

  /** The last of several parts, and what stands before it. */
  lemma LastPart(before: IdOrder, m: Mono)
    requires OkMono(before, m) && |Parts(m)| > 1
    ensures m.key != [] && OkMono(before, Mono(m.coef, m.key[..|m.key| - 1]))
    ensures Parts(Mono(m.coef, m.key[..|m.key| - 1])) == Parts(m)[..|Parts(m)| - 1]
    ensures MonoTerm(m) == Times(MonoTerm(Mono(m.coef, m.key[..|m.key| - 1])), m.key[|m.key| - 1])
    ensures m.key[..|m.key| - 1] + [m.key[|m.key| - 1]] == m.key
  {
    hide Chain;
    MonoFactors(m);
    InitialParts(m);
  }

  lemma InitialParts(m: Mono)
    requires |Parts(m)| > 1
    ensures m.key != [] && Parts(Mono(m.coef, m.key[..|m.key| - 1])) == Parts(m)[..|Parts(m)| - 1]
  {
    assert m.coef == 1.0 && |m.key| > 1 ==> m.key[..|m.key| - 1] != [];
  }

  lemma TimesUnfolds(fuel: nat, before: IdOrder, a: ArithTerm, f: ArithTerm)
    requires fuel > 0 && IsPart(f) && f != Number(1.0) && a.Times?
    ensures ProductTerm(fuel, before, a, f) ==
      if MultiplicationBefore(before, f, a.right) then ProductTwice(fuel, before, a.left, f, a.right) else Some(Times(a, f))
  {
  }

  lemma SingleTimes(fuel: nat, before: IdOrder, h: ArithTerm, f: ArithTerm)
    requires fuel > 0 && IsPart(f) && f != Number(1.0) && IsPart(h) && h != Number(1.0)
    ensures ProductTerm(fuel, before, h, f) ==
      if h.Number? && f.Number? then Some(Number(CoefProduct(h.value, f.value)))
      else if !h.Call? && MultiplicationBefore(before, f, h) then ProductTerm(fuel - 1, before, f, h)
      else Some(Times(h, f))
  {
    hide SumTerm, SumOfProducts, ProductTwice;
    if h.Number? && f.Number? { assert ConstantProduct(h.value, f.value) == Number(CoefProduct(h.value, f.value)); }
  }

  lemma TimesOne(fuel: nat, before: IdOrder, a: ArithTerm, b: ArithTerm)
    requires fuel > 0
    ensures ProductTerm(fuel, before, Number(1.0), b) == Some(b)
    ensures a != Number(0.0) ==> ProductTerm(fuel, before, a, Number(1.0)) == Some(a)
  {
  }

  /** A factor that is free to go is put in its place. */
  lemma {:induction false} PartInserted(fuel: nat, before: IdOrder, m: Mono, f: ArithTerm)
    requires StrictTotal(before) && OkMono(before, m) && IsPart(f) && PartFree(before, m, f) && fuel >= |Parts(m)| + 2
    ensures ProductTerm(fuel, before, MonoTerm(m), f) == Some(MonoTerm(InsertPart(before, m, f)))
    decreases |Parts(m)|
  {
    hide ProductTerm, MonoTerm;
    MonoFactors(m);
    if f == Number(1.0) {
      TimesOne(fuel, before, MonoTerm(m), f);
    } else if |Parts(m)| == 1 {
      PartWithSingle(fuel, before, m, f);
    } else {
      LastPart(before, m);
      var m', l := Mono(m.coef, m.key[..|m.key| - 1]), m.key[|m.key| - 1];
      TimesUnfolds(fuel, before, MonoTerm(m), f);
      if MultiplicationBefore(before, f, l) {
        PartInserted(fuel - 1, before, m', f);
        InsertPartOk(before, m', f);
        InsertPartOk(before, m, f);
        FactorAppended(fuel - 1, before, InsertPart(before, m', f), l);
      } else {
        InsertPartOk(before, m, f);
        FactorAppended(fuel, before, m, f);
      }
    }
  }

  lemma PartWithSingle(fuel: nat, before: IdOrder, m: Mono, f: ArithTerm)
    requires StrictTotal(before) && OkMono(before, m) && IsPart(f) && f != Number(1.0) && PartFree(before, m, f)
    requires |Parts(m)| == 1 && fuel >= 3
    ensures ProductTerm(fuel, before, MonoTerm(m), f) == Some(MonoTerm(InsertPart(before, m, f)))
  {
    hide ProductTerm;
    var h := Parts(m)[0];
    MonoFactors(m);
    FactorOrder(before, f, h, f);
    InsertPartOk(before, m, f);
    assert [h][..0] == [] && [] + [f] == [f];
    if m == ONE {
      TimesOne(fuel, before, f, f);
      assert MonoTerm(InsertPart(before, m, f)) == f;
    } else {
      SingleTimes(fuel, before, h, f);
      if !(h.Number? && f.Number?) && !h.Call? && MultiplicationBefore(before, f, h) {
        SingleTimes(fuel - 1, before, f, h);
        TwoParts(f, h);
        assert m.key == [h] && m.coef == 1.0;
        if f.Number? {
          assert InsertPart(before, m, f) == Mono(f.value, [h]) && f.value != 1.0;
          assert [Number(f.value)] + [h] == [f, h];
        } else {
          assert m.key[..0] == [] && InsertKey(before, [], f) == [f];
          assert InsertKey(before, m.key, f) == [f] + [h] == [f, h];
          assert Parts(InsertPart(before, m, f)) == [f, h];
        }
      } else if !(h.Number? && f.Number?) {
        TwoParts(h, f);
        assert Parts(InsertPart(before, m, f)) == [h, f];
      }
    }
  }

  lemma TwoParts(f: ArithTerm, h: ArithTerm)
    ensures Chain([f, h]) == Times(f, h)
  {
    assert [f, h][..1] == [f];
  }

  // ---------- what stays in front ----------

  /** Factors that start with a call, and one behind it that should come before. */
  ghost predicate Jammed(before: IdOrder, parts: seq<ArithTerm>) {
    && |parts| > 1 && parts[0].Call?
    && (forall i :: 0 <= i < |parts| ==> IsPart(parts[i]) && parts[i] != Number(1.0))
    && exists i :: 0 < i < |parts| && MultiplicationBefore(before, parts[i], parts[0])
  }

  ghost predicate CallInFront(before: IdOrder, t: ArithTerm) {
    exists parts :: Jammed(before, parts) && t == Chain(parts)
  }

  lemma NormalSingle(before: IdOrder, t: ArithTerm)
    requires Normal(before, t) && !t.Plus? && t != Number(0.0)
    ensures OkKey(before, MonoOf(t).key)
  {
    assert Monomials(t)[0] == MonoOf(t);
  }

  lemma InFrontNotNormal(before: IdOrder, t: ArithTerm)
    requires StrictTotal(before) && CallInFront(before, t)
    ensures !Normal(before, t)
  {
    hide Normal, Chain;
    var parts :| Jammed(before, parts) && t == Chain(parts);
    ChainFactors(parts);
    if Normal(before, t) { NormalSingle(before, t); }
  }

  lemma JammedLonger(before: IdOrder, parts: seq<ArithTerm>, f: ArithTerm)
    requires parts != [] && parts[0].Call? && (forall i :: 0 <= i < |parts| ==> IsPart(parts[i]) && parts[i] != Number(1.0))
    requires IsPart(f) && f != Number(1.0) && (Jammed(before, parts) || MultiplicationBefore(before, f, parts[0]))
    ensures CallInFront(before, Times(Chain(parts), f))
  {
    hide MultiplicationBefore;
    var q := parts + [f];
    assert q[..|parts|] == parts;
    var i :| 0 < i < |q| && MultiplicationBefore(before, q[i], q[0]);
    assert Jammed(before, q);
  }

  /** Whatever is multiplied to such factors, or should come before the call, leaves the call in front. */
  lemma {:induction false} StaysInFront(fuel: nat, before: IdOrder, parts: seq<ArithTerm>, f: ArithTerm)
    requires StrictTotal(before)
    requires parts != [] && parts[0].Call? && (forall i :: 0 <= i < |parts| ==> IsPart(parts[i]) && parts[i] != Number(1.0))
    requires IsPart(f) && f != Number(1.0) && (Jammed(before, parts) || MultiplicationBefore(before, f, parts[0]))
    requires ProductTerm(fuel, before, Chain(parts), f).Some?
    ensures CallInFront(before, ProductTerm(fuel, before, Chain(parts), f).value)
    decreases fuel
  {
    hide ProductTerm, MultiplicationBefore;
    if fuel == 0 {
      NoProduct(before, Chain(parts), f);
    } else if |parts| == 1 {
      JammedLonger(before, parts, f);
      SingleTimes(fuel, before, parts[0], f);
    } else {
      var init, l := parts[..|parts| - 1], parts[|parts| - 1];
      TimesUnfolds(fuel, before, Chain(parts), f);
      if MultiplicationBefore(before, f, l) {
        InitJammed(before, parts, f);
        StaysInFront(fuel - 1, before, init, f);
        var q :| Jammed(before, q) && ProductTerm(fuel - 1, before, Chain(init), f).value == Chain(q);
        StaysInFront(fuel - 1, before, q, l);
      } else {
        JammedLonger(before, parts, f);
      }
    }
  }

  /** A factor that goes before the last part should come before the call, or another part that stays should. */
  lemma InitJammed(before: IdOrder, parts: seq<ArithTerm>, f: ArithTerm)
    requires StrictTotal(before) && |parts| > 1 && IsPart(f) && f != Number(1.0) && MultiplicationBefore(before, f, parts[|parts| - 1])
    requires Jammed(before, parts) || (parts[0].Call? && MultiplicationBefore(before, f, parts[0]))
    ensures Jammed(before, parts[..|parts| - 1]) || MultiplicationBefore(before, f, parts[0])
  {
    hide MultiplicationBefore;
    var init, l := parts[..|parts| - 1], parts[|parts| - 1];
    if !MultiplicationBefore(before, f, parts[0]) {
      FactorOrder(before, f, l, parts[0]);
      var i :| 0 < i < |parts| && MultiplicationBefore(before, parts[i], parts[0]);
      assert i < |init| ==> init[i] == parts[i];
    }
  }

  lemma NoProduct(before: IdOrder, a: ArithTerm, b: ArithTerm)
    ensures ProductTerm(0, before, a, b) == None
  {
  }

  lemma PartsAreParts(before: IdOrder, m: Mono)
    requires OkMono(before, m)
    ensures forall i :: 0 <= i < |Parts(m)| ==> IsPart(Parts(m)[i])
    ensures Parts(m)[0].Call? || |Parts(m)| > 1 ==> forall i :: 0 <= i < |Parts(m)| ==> Parts(m)[i] != Number(1.0)
    ensures forall i :: 0 < i < |Parts(m)| ==> IsAtom(Parts(m)[i])
  {
  }

  lemma PartNotInserted(fuel: nat, before: IdOrder, m: Mono, f: ArithTerm)
    requires StrictTotal(before) && OkMono(before, m) && IsPart(f) && !PartFree(before, m, f)
    requires ProductTerm(fuel, before, MonoTerm(m), f).Some?
    ensures CallInFront(before, ProductTerm(fuel, before, MonoTerm(m), f).value)
  {
    hide ProductTerm, MultiplicationBefore;
    PartsAreParts(before, m);
    StaysInFront(fuel, before, Parts(m), f);
  }

  // ---------- products of products ----------

  /** All factors of both, sorted. */
  function MulKey(before: IdOrder, k: Key, l: Key): Key
    decreases l
  {
    if l == [] then k else MulKey(before, InsertKey(before, k, l[|l| - 1]), l[..|l| - 1])
  }

  function MulMono(before: IdOrder, m: Mono, n: Mono): Mono {
    Mono(CoefProduct(m.coef, n.coef), MulKey(before, m.key, n.key))
  }

  lemma {:induction false} MulKeyOk(before: IdOrder, k: Key, l: Key)
    requires StrictTotal(before) && OkKey(before, k) && OkKey(before, l)
    ensures OkKey(before, MulKey(before, k, l)) && multiset(MulKey(before, k, l)) == multiset(k) + multiset(l)
    decreases l
  {
    if l != [] {
      InsertKeyOk(before, k, l[|l| - 1]);
      WithoutLast(l);
      MulKeyOk(before, InsertKey(before, k, l[|l| - 1]), l[..|l| - 1]);
    }
  }

  lemma MulMonoOk(before: IdOrder, m: Mono, n: Mono)
    requires StrictTotal(before) && OkMono(before, m) && OkMono(before, n)
    ensures OkMono(before, MulMono(before, m, n))
  {
    MulKeyOk(before, m.key, n.key);
  }

  /** The constants multiplied and all factors: there is one such product. */
  lemma Multiplies(before: IdOrder, m: Mono, n: Mono, r: Mono)
    requires StrictTotal(before) && OkMono(before, m) && OkMono(before, n) && OkMono(before, r)
    requires r.coef == CoefProduct(m.coef, n.coef) && multiset(r.key) == multiset(m.key) + multiset(n.key)
    ensures r == MulMono(before, m, n)
  {
    MulKeyOk(before, m.key, n.key);
    SortedOnce(before, r.key, MulKey(before, m.key, n.key));
  }

  /** No factor of n has to be put before a call with which m starts; where m is a single factor it is multiplied to n instead. */
  predicate MonoSettles(before: IdOrder, m: Mono, n: Mono)
    decreases |n.key|
  {
    m == ONE ||
    if |Parts(n)| == 1 then PartFree(before, m, Parts(n)[0])
    else if |Parts(m)| == 1 then !Parts(m)[0].Call? && PartFree(before, n, Parts(m)[0])
    else n.key != [] && PartFree(before, m, n.key[|n.key| - 1])
         && MonoSettles(before, InsertPart(before, m, n.key[|n.key| - 1]), Mono(n.coef, n.key[..|n.key| - 1]))
  }

  lemma TwiceUnfolds(fuel: nat, before: IdOrder, a: ArithTerm, b: ArithTerm)
    requires fuel > 0 && b.Times? && !a.Plus? && a != Number(0.0) && a != Number(1.0)
    ensures ProductTerm(fuel, before, a, b) ==
      if a.Times? then ProductTwice(fuel, before, a, b.right, b.left)
      else if a.Call? then Some(Times(a, b)) else ProductTerm(fuel - 1, before, b, a)
  {
  }

  /** Where the products settle, the answer is the normal term of the product. */
  lemma {:induction false} MonosSettle(fuel: nat, before: IdOrder, m: Mono, n: Mono)
    requires StrictTotal(before) && OkMono(before, m) && OkMono(before, n) && MonoSettles(before, m, n)
    requires fuel >= |m.key| + 2 * |n.key| + 6
    ensures ProductTerm(fuel, before, MonoTerm(m), MonoTerm(n)) == Some(MonoTerm(MulMono(before, m, n)))
    decreases |n.key|
  {
    hide ProductTerm, MonoTerm, MultiplicationBefore, Parts;
    MonoFactors(m);
    MonoFactors(n);
    if m == ONE || |Parts(n)| == 1 || |Parts(m)| == 1 {
      FewFactorsSettle(fuel, before, m, n);
    } else {
      LastPart(before, n);
      var n', l := Mono(n.coef, n.key[..|n.key| - 1]), n.key[|n.key| - 1];
      assert IsAtom(l);
      TwiceUnfolds(fuel, before, MonoTerm(m), MonoTerm(n));
      ManyParts(m);
      PartInserted(fuel - 1, before, m, l);
      InsertPartOk(before, m, l);
      InsertKeyLength(before, m.key, l);
      MonosSettle(fuel - 1, before, InsertPart(before, m, l), n');
    }
  }

  lemma {:induction false} InsertKeyLength(before: IdOrder, k: Key, f: ArithTerm)
    ensures |InsertKey(before, k, f)| == |k| + 1
    decreases k
  {
    if k != [] { InsertKeyLength(before, k[..|k| - 1], f); }
  }

  lemma ManyParts(m: Mono)
    ensures |Parts(m)| <= |m.key| + 1
  {
  }

  lemma FewFactorsSettle(fuel: nat, before: IdOrder, m: Mono, n: Mono)
    requires StrictTotal(before) && OkMono(before, m) && OkMono(before, n) && MonoSettles(before, m, n)
    requires fuel >= |m.key| + 2 * |n.key| + 6 && (m == ONE || |Parts(n)| == 1 || |Parts(m)| == 1)
    ensures ProductTerm(fuel, before, MonoTerm(m), MonoTerm(n)) == Some(MonoTerm(MulMono(before, m, n)))
  {
    hide ProductTerm, MonoTerm, MultiplicationBefore, MulMono, PartFree, OkKey, Parts;
    if m == ONE {
      OneTerm();
      TimesOne(fuel, before, MonoTerm(n), MonoTerm(n));
      TimesOneSame(before, n);
    } else if |Parts(n)| == 1 {
      SingleTerm(before, n);
      ManyParts(m);
      PartInserted(fuel, before, m, Parts(n)[0]);
      InsertsSingle(before, m, n);
    } else {
      TakenUp(fuel, before, m, n);
    }
  }

  lemma TimesOneSame(before: IdOrder, n: Mono)
    requires StrictTotal(before) && OkMono(before, n)
    ensures MulMono(before, ONE, n) == n
  {
    Multiplies(before, ONE, n, n);
  }

  lemma SingleTerm(before: IdOrder, n: Mono)
    requires OkMono(before, n) && |Parts(n)| == 1
    ensures MonoTerm(n) == Parts(n)[0] && IsPart(Parts(n)[0])
  {
    MonoFactors(n);
    PartsAreParts(before, n);
  }

  /** A single factor is multiplied to the product instead. */
  lemma TakenUp(fuel: nat, before: IdOrder, m: Mono, n: Mono)
    requires StrictTotal(before) && OkMono(before, m) && OkMono(before, n) && m != ONE && |Parts(n)| > 1 && |Parts(m)| == 1
    requires !Parts(m)[0].Call? && PartFree(before, n, Parts(m)[0]) && fuel >= |n.key| + 4
    ensures ProductTerm(fuel, before, MonoTerm(m), MonoTerm(n)) == Some(MonoTerm(MulMono(before, m, n)))
  {
    hide ProductTerm, MonoTerm, MultiplicationBefore, MulMono, PartFree, OkKey, Parts;
    SingleTerm(before, m);
    MonoNumbers(before, m);
    LastPart(before, n);
    ManyParts(n);
    TwiceUnfolds(fuel, before, MonoTerm(m), MonoTerm(n));
    PartInserted(fuel - 1, before, n, Parts(m)[0]);
    InsertsSingle(before, n, m);
    Commutes(before, m, n);
  }

  lemma OneTerm()
    ensures MonoTerm(ONE) == Number(1.0)
  {
  }

  /** Putting in the only part of a product multiplies by the product. */
  lemma InsertsSingle(before: IdOrder, m: Mono, n: Mono)
    requires StrictTotal(before) && OkMono(before, m) && OkMono(before, n) && |Parts(n)| == 1
    ensures InsertPart(before, m, Parts(n)[0]) == MulMono(before, m, n)
  {
    PartsAreParts(before, n);
    InsertPartOk(before, m, Parts(n)[0]);
    if n.key != [] {
      InsertKeyOk(before, m.key, n.key[0]);
      assert multiset(n.key) == multiset{n.key[0]};
    }
    Multiplies(before, m, n, InsertPart(before, m, Parts(n)[0]));
  }

  lemma Commutes(before: IdOrder, m: Mono, n: Mono)
    requires StrictTotal(before) && OkMono(before, m) && OkMono(before, n)
    ensures MulMono(before, m, n) == MulMono(before, n, m)
  {
    MulMonoOk(before, n, m);
    MulKeyOk(before, n.key, m.key);
    assert CoefProduct(n.coef, m.coef) == CoefProduct(m.coef, n.coef);
    Multiplies(before, m, n, MulMono(before, n, m));
  }

  /** No normal term is a call times a product. */
  lemma ProductOnTheRight(before: IdOrder, a: ArithTerm, b: ArithTerm)
    requires b.Times?
    ensures !Normal(before, Times(a, b))
  {
    var k := MonoOf(Times(a, b)).key;
    assert k[|k| - 1] == b;
  }

  lemma {:induction false} JammedStays(fuel: nat, before: IdOrder, parts: seq<ArithTerm>, n: Mono)
    requires StrictTotal(before) && Jammed(before, parts) && OkMono(before, n) && n != ONE
    requires ProductTerm(fuel, before, Chain(parts), MonoTerm(n)).Some?
    ensures CallInFront(before, ProductTerm(fuel, before, Chain(parts), MonoTerm(n)).value)
    decreases |n.key|
  {
    hide ProductTerm, MonoTerm, MultiplicationBefore, Parts, Chain, Factors, OkKey;
    PartsAreParts(before, n);
    if |Parts(n)| == 1 {
      SingleTerm(before, n);
      SingleNotOne(before, n);
      StaysInFront(fuel, before, parts, Parts(n)[0]);
    } else if fuel == 0 {
      NoProduct(before, Chain(parts), MonoTerm(n));
    } else {
      LastPart(before, n);
      LastIsAtom(before, n);
      var n', l := Mono(n.coef, n.key[..|n.key| - 1]), n.key[|n.key| - 1];
      ChainFactors(parts);
      TwiceUnfolds(fuel, before, Chain(parts), MonoTerm(n));
      StaysInFront(fuel - 1, before, parts, l);
      var q :| Jammed(before, q) && ProductTerm(fuel - 1, before, Chain(parts), l).value == Chain(q);
      NotOne(before, n);
      JammedStays(fuel - 1, before, q, n');
    }
  }

  lemma SingleNotOne(before: IdOrder, n: Mono)
    requires OkMono(before, n) && |Parts(n)| == 1 && n != ONE
    ensures Parts(n)[0] != Number(1.0)
  {
  }

  lemma NotOne(before: IdOrder, n: Mono)
    requires OkMono(before, n) && |Parts(n)| > 1
    ensures Mono(n.coef, n.key[..|n.key| - 1]) != ONE
  {
  }

  /** Where the products do not settle, no answer is normal. */
  lemma {:induction false} MonosDoNotSettle(fuel: nat, before: IdOrder, m: Mono, n: Mono)
    requires StrictTotal(before) && OkMono(before, m) && OkMono(before, n) && !MonoSettles(before, m, n)
    requires ProductTerm(fuel, before, MonoTerm(m), MonoTerm(n)).Some?
    ensures !Normal(before, ProductTerm(fuel, before, MonoTerm(m), MonoTerm(n)).value)
    decreases |n.key|
  {
    hide ProductTerm, MonoTerm, MultiplicationBefore, Parts, Normal, Chain, PartFree, OkKey;
    if fuel == 0 {
      NoProduct(before, MonoTerm(m), MonoTerm(n));
    } else if |Parts(n)| == 1 {
      SingleTerm(before, n);
      PartNotInserted(fuel, before, m, Parts(n)[0]);
      InFrontNotNormal(before, ProductTerm(fuel, before, MonoTerm(m), MonoTerm(n)).value);
    } else if |Parts(m)| == 1 {
      NotTakenUp(fuel, before, m, n);
    } else {
      LastPart(before, n);
      LastPart(before, m);
      PartsAreParts(before, n);
      var n', l := Mono(n.coef, n.key[..|n.key| - 1]), n.key[|n.key| - 1];
      LastIsAtom(before, n);
      TwiceUnfolds(fuel, before, MonoTerm(m), MonoTerm(n));
      if PartFree(before, m, l) {
        ManyParts(m);
        PartInserted(fuel + |m.key| + 3, before, m, l);
        MoreFuel(fuel - 1, fuel + |m.key| + 3, before, MonoTerm(m), l);
        InsertPartOk(before, m, l);
        MonosDoNotSettle(fuel - 1, before, InsertPart(before, m, l), n');
      } else {
        NotPut(fuel, before, m, n, n', l);
      }
    }
  }

  lemma LastIsAtom(before: IdOrder, n: Mono)
    requires OkMono(before, n) && n.key != []
    ensures IsAtom(n.key[|n.key| - 1])
  {
  }

  lemma NotPut(fuel: nat, before: IdOrder, m: Mono, n: Mono, n': Mono, l: ArithTerm)
    requires StrictTotal(before) && OkMono(before, m) && OkMono(before, n) && OkMono(before, n') && |Parts(n)| > 1 && n.key != [] && fuel > 0
    requires n' == Mono(n.coef, n.key[..|n.key| - 1]) && IsPart(l) && !PartFree(before, m, l)
    requires ProductTwice(fuel, before, MonoTerm(m), l, MonoTerm(n')).Some?
    ensures !Normal(before, ProductTwice(fuel, before, MonoTerm(m), l, MonoTerm(n')).value)
  {
    hide ProductTerm, MonoTerm, MultiplicationBefore, Normal, Chain, PartFree, OkKey;
    PartNotInserted(fuel - 1, before, m, l);
    var q :| Jammed(before, q) && ProductTerm(fuel - 1, before, MonoTerm(m), l).value == Chain(q);
    NotOne(before, n);
    JammedStays(fuel - 1, before, q, n');
    InFrontNotNormal(before, ProductTwice(fuel, before, MonoTerm(m), l, MonoTerm(n')).value);
  }

  lemma NotTakenUp(fuel: nat, before: IdOrder, m: Mono, n: Mono)
    requires StrictTotal(before) && OkMono(before, m) && OkMono(before, n) && m != ONE && |Parts(n)| > 1 && |Parts(m)| == 1
    requires Parts(m)[0].Call? || !PartFree(before, n, Parts(m)[0])
    requires fuel > 0 && ProductTerm(fuel, before, MonoTerm(m), MonoTerm(n)).Some?
    ensures !Normal(before, ProductTerm(fuel, before, MonoTerm(m), MonoTerm(n)).value)
  {
    hide ProductTerm, MonoTerm, MultiplicationBefore, Normal, Chain, PartFree, OkKey, Parts;
    SingleTerm(before, m);
    MonoNumbers(before, m);
    LastPart(before, n);
    TwiceUnfolds(fuel, before, MonoTerm(m), MonoTerm(n));
    if Parts(m)[0].Call? {
      ProductOnTheRight(before, MonoTerm(m), MonoTerm(n));
    } else {
      PartNotInserted(fuel - 1, before, n, Parts(m)[0]);
      InFrontNotNormal(before, ProductTerm(fuel, before, MonoTerm(m), MonoTerm(n)).value);
    }
  }

  lemma MonoNumbers(before: IdOrder, m: Mono)
    requires OkMono(before, m)
    ensures MonoTerm(m) != Number(0.0) && (MonoTerm(m) == Number(1.0) <==> m == ONE)
  {
    MonoFactors(m);
  }

  /** The product of two normal products, once there is an answer, is normal if and only if they settle; then it has the product
      of the constants and all factors of both, and there is an answer whenever the fuel is twice the number of factors. */
  lemma MonoNormalExactly(fuel: nat, before: IdOrder, m: Mono, n: Mono)
    requires StrictTotal(before) && OkMono(before, m) && OkMono(before, n)
    ensures var r := ProductTerm(fuel, before, MonoTerm(m), MonoTerm(n));
      && (r.Some? ==> (Normal(before, r.value) <==> MonoSettles(before, m, n)))
      && (MonoSettles(before, m, n) && fuel >= |m.key| + 2 * |n.key| + 6 ==> r.Some?)
      && (MonoSettles(before, m, n) && r.Some? ==>
            MonoOf(r.value).coef == m.coef * n.coef && multiset(MonoOf(r.value).key) == multiset(m.key) + multiset(n.key))
  {
    hide ProductTerm, MonoTerm, MonoSettles, Parts, Chain, MulKey, OkKey, Normal, Factors;
    var r := ProductTerm(fuel, before, MonoTerm(m), MonoTerm(n));
    if MonoSettles(before, m, n) {
      var enough := fuel + |m.key| + 2 * |n.key| + 6;
      MonosSettle(enough, before, m, n);
      if fuel >= |m.key| + 2 * |n.key| + 6 { MonosSettle(fuel, before, m, n); }
      MoreFuel(fuel, enough, before, MonoTerm(m), MonoTerm(n));
      MulMonoOk(before, m, n);
      MulKeyOk(before, m.key, n.key);
      SingleNormal(before, MulMono(before, m, n));
    } else if r.Some? {
      MonosDoNotSettle(fuel, before, m, n);
    }
  }

  lemma SingleNormal(before: IdOrder, m: Mono)
    requires OkMono(before, m)
    ensures Normal(before, MonoTerm(m)) && Monomials(MonoTerm(m)) == [m] && MonoOf(MonoTerm(m)) == m
  {
    MonoFactors(m);
    FewProducts([m]);
    NormalPoly(before, [m]);
  }

  /** A call stays in front of an unknown that comes before it, so this product is not normal. */
  lemma ProductOutOfOrder(fuel: nat, before: IdOrder, x: nat, f: string, args: seq<ArithTerm>)
    requires StrictTotal(before) && before(Unknown(x), Call(f, args)) && fuel >= 1
    ensures var a, b := Call(f, args), Unknown(x);
      && Normal(before, a) && Normal(before, b)
      && ProductTerm(fuel, before, a, b) == Some(Times(a, b)) && !Normal(before, Times(a, b))
  {
    hide ProductTerm, Normal;
    var a, b := Call(f, args), Unknown(x);
    SingleTimes(fuel, before, a, b);
    MonoFactors(Mono(1.0, [a]));
    MonoFactors(Mono(1.0, [b]));
    SingleNormal(before, Mono(1.0, [a]));
    SingleNormal(before, Mono(1.0, [b]));
    TwoParts(a, b);
    assert MultiplicationBefore(before, [a, b][1], [a, b][0]);
    assert Jammed(before, [a, b]);
    InFrontNotNormal(before, Chain([a, b]));
  }
}
