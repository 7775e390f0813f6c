/** Constant multiples of sums, negations and differences: exactly when the manager's answer is normal.  A constant that
    is multiplied to a product with a call in front ends up behind the call, and stays there whatever is added. */
module NormalMultiples {
  import opened Wrappers
  import opened Arithmetic
  import opened ArithmeticRewriting
  import opened NormalForms
  import opened NormalSums
  import opened NormalProducts
  import opened NormalRequests
  import opened NormalExpansion

  // ---------- sums of any terms ----------

  function Line(ts: seq<ArithTerm>): ArithTerm {
    if ts == [] then Number(0.0)
    else if |ts| == 1 then ts[0] else Plus(Line(ts[..|ts| - 1]), ts[|ts| - 1])
  }

  ghost predicate Pure(before: IdOrder, t: ArithTerm) {
    exists m: Mono :: (m == ZERO || OkMono(before, m)) && t == MonoTerm(m)
  }

  ghost predicate NumberIn(k: Key) {
    exists i :: 0 <= i < |k| && k[i].Number?
  }

  ghost predicate SumIn(k: Key) {
    exists i :: 0 <= i < |k| && k[i].Plus?
  }

  /** A product with a constant behind another factor. */
  ghost predicate Impure(t: ArithTerm) {
    !t.Plus? && NumberIn(Factors(t)[1..]) && !SumIn(Factors(t)[1..])
  }

  lemma PureIsNot(before: IdOrder, t: ArithTerm)
    requires Pure(before, t)
    ensures !t.Plus? && !NumberIn(Factors(t)[1..]) && !SumIn(Factors(t)[1..]) && !Impure(t)
  {
    var m: Mono :| (m == ZERO || OkMono(before, m)) && t == MonoTerm(m);
    MonoFactors(m);
  }

  /** No two of the terms are like terms. */
  ghost predicate Apart(all: set<ArithTerm>) {
    && (forall t :: t in all ==> Impure(t))
    && forall t, u :: t in all && u in all && t != u ==> Factors(t)[1..] != Factors(u)[1..]
  }

  /** The impure ones among the terms are these, each once. */
  ghost predicate Carries(before: IdOrder, ts: seq<ArithTerm>, all: set<ArithTerm>) {
    && ts != []
    && (forall i :: 0 <= i < |ts| ==> Pure(before, ts[i]) || ts[i] in all)
    && forall t :: t in all ==> multiset(ts)[t] == 1
  }

  ghost predicate Carried(before: IdOrder, t: ArithTerm, all: set<ArithTerm>) {
    exists ts :: Carries(before, ts, all) && t == Line(ts)
  }

  lemma CarriedTerms(before: IdOrder, ts: seq<ArithTerm>, all: set<ArithTerm>)
    requires Carries(before, ts, all)
    ensures ts != []
  {
  }

  lemma InitCarries(before: IdOrder, ts: seq<ArithTerm>, all: set<ArithTerm>)
    requires Carries(before, ts, all) && Apart(all) && |ts| > 1
    ensures Carries(before, ts[..|ts| - 1], all - {ts[|ts| - 1]})
    ensures Carries(before, [ts[|ts| - 1]], all * {ts[|ts| - 1]})
    ensures all - {ts[|ts| - 1]} + all * {ts[|ts| - 1]} == all
  {
    hide Pure, Impure;
    var init, l := ts[..|ts| - 1], ts[|ts| - 1];
    assert ts == init + [l];
    assert multiset(ts) == multiset(init) + multiset{l};
    forall i | 0 <= i < |init| ensures Pure(before, init[i]) || init[i] in all - {l} {
      assert init[i] == ts[i] && init[i] in multiset(init);
    }
  }

  lemma Joined(before: IdOrder, ts: seq<ArithTerm>, all: set<ArithTerm>, t: ArithTerm, more: set<ArithTerm>)
    requires Carries(before, ts, all) && Carries(before, [t], more) && all !! more && Apart(all + more)
    ensures Carries(before, ts + [t], all + more) && Line(ts + [t]) == Plus(Line(ts), t)
  {
    hide Pure, Impure, Line;
    assert (ts + [t])[..|ts|] == ts;
    Extends(ts, t);
    forall u | u in all + more ensures multiset(ts + [t])[u] == 1 {
      if u in all {
        OneOf(before, t, more, u);
      } else {
        NotAmongThem(before, ts, all, u);
        assert multiset([t])[u] == 1;
      }
    }
  }

  lemma Extends(ts: seq<ArithTerm>, t: ArithTerm)
    ensures multiset(ts + [t]) == multiset(ts) + multiset([t]) && Line(ts + [t]) == if ts == [] then t else Plus(Line(ts), t)
  {
    assert (ts + [t])[..|ts|] == ts;
  }

  lemma OneOf(before: IdOrder, t: ArithTerm, more: set<ArithTerm>, u: ArithTerm)
    requires Carries(before, [t], more) && u !in more && Impure(u)
    ensures multiset([t])[u] == 0
  {
    NotAmongThem(before, [t], more, u);
  }

  lemma NotAmongThem(before: IdOrder, ts: seq<ArithTerm>, all: set<ArithTerm>, u: ArithTerm)
    requires Carries(before, ts, all) && u !in all && Impure(u)
    ensures multiset(ts)[u] == 0
  {
    hide Impure;
    if u in multiset(ts) {
      var i :| 0 <= i < |ts| && ts[i] == u;
      PureIsNot(before, u);
    }
  }

  /** Like terms are pure. */
  lemma LikeArePure(before: IdOrder, t: ArithTerm, all: set<ArithTerm>, u: ArithTerm, more: set<ArithTerm>)
    requires Carries(before, [t], all) && Carries(before, [u], more) && all !! more && Apart(all + more)
    requires Factors(t)[1..] == Factors(u)[1..]
    ensures all == {} && more == {} && Pure(before, t) && Pure(before, u)
  {
    hide Pure, NumberIn, SumIn;
    assert [t][0] == t && [u][0] == u;
    SingleCarried(before, t, all);
    SingleCarried(before, u, more);
    if Pure(before, t) { PureIsNot(before, t); }
    if Pure(before, u) { PureIsNot(before, u); }
  }

  lemma SingleCarried(before: IdOrder, t: ArithTerm, all: set<ArithTerm>)
    requires Carries(before, [t], all) && Apart(all)
    ensures if Pure(before, t) then all == {} else all == {t} && Impure(t)
  {
    hide Pure, Impure;
    assert [t][0] == t;
    forall u | u in all ensures u == t { assert u in multiset([t]); }
    if Pure(before, t) { PureIsNot(before, t); }
  }

  // ---------- what is added to what ----------

  lemma LineUnfolds(fuel: nat, before: IdOrder, ts: seq<ArithTerm>, t: ArithTerm)
    requires fuel > 0 && |ts| > 1 && !t.Plus?
    ensures SumTerm(fuel, before, Line(ts), t) ==
      if TermOrderBefore(before, t, ts[|ts| - 1]) then SumTwice(fuel, before, Line(ts[..|ts| - 1]), t, ts[|ts| - 1])
      else MergedTerm(fuel, before, Line(ts), t)
  {
    PlusUnfolds(fuel, before, Line(ts), t);
  }

  /** Like terms that are pure become one pure term. */
  lemma PureMerged(fuel: nat, before: IdOrder, a: ArithTerm, t: ArithTerm) returns (s: ArithTerm)
    requires StrictTotal(before) && fuel > 0 && MergedTerm(fuel, before, a, t).Some?
    requires var right := if a.Plus? then a.right else a; Factors(right)[1..] == Factors(t)[1..] && Pure(before, right) && Pure(before, t)
    ensures Pure(before, s) && MergedTerm(fuel, before, a, t) == if a.Plus? then SumTerm(fuel - 1, before, a.left, s) else Some(s)
  {
    hide SumTerm, MonoTerm, Factors, KeyBefore;
    var right := if a.Plus? then a.right else a;
    var l: Mono :| (l == ZERO || OkMono(before, l)) && right == MonoTerm(l);
    var m: Mono :| (m == ZERO || OkMono(before, m)) && t == MonoTerm(m);
    MonoFactors(l);
    MonoFactors(m);
    if fuel == 1 { NoFuel(before, Factors(right), Factors(t)[0], t); }
    Merges(fuel, before, a, l, m);
    s := MonoTerm(Scaled(l.coef + m.coef, l.key));
  }

  lemma CarriedSingle(before: IdOrder, t: ArithTerm)
    requires Pure(before, t)
    ensures Carries(before, [t], {}) && Carried(before, t, {})
  {
    hide Pure;
    assert Line([t]) == t;
  }

  /** A term added to a sum leaves all impure terms where they are, or moves them. */
  lemma {:induction false} PartAdded(fuel: nat, before: IdOrder, ts: seq<ArithTerm>, all: set<ArithTerm>, t: ArithTerm, more: set<ArithTerm>)
    requires StrictTotal(before) && Carries(before, ts, all) && Carries(before, [t], more) && all !! more && Apart(all + more)
    requires SumTerm(fuel, before, Line(ts), t).Some?
    ensures Carried(before, SumTerm(fuel, before, Line(ts), t).value, all + more)
    decreases fuel, 1
  {
    hide SumTerm, Pure, Impure, Carries, TermOrderBefore, Line, MergedTerm, Factors;
    CarriedTerms(before, ts, all);
    NotSum(before, t, more);
    if fuel == 0 {
      NoFuel(before, [t], t, t);
    } else if |ts| == 1 {
      OnlyTerm(ts);
      SinglePart(fuel, before, ts[0], all, t, more);
    } else {
      var init, l := ts[..|ts| - 1], ts[|ts| - 1];
      LineUnfolds(fuel, before, ts, t);
      if TermOrderBefore(before, t, l) {
        InitCarries(before, ts, all);
        PartAdded(fuel - 1, before, init, all - {l}, t, more);
        var q :| Carries(before, q, all - {l} + more) && SumTerm(fuel - 1, before, Line(init), t).value == Line(q);
        assert all - {l} + more + all * {l} == all + more;
        PartAdded(fuel - 1, before, q, all - {l} + more, l, all * {l});
      } else {
        PartMerged(fuel, before, ts, all, t, more);
      }
    }
  }

  lemma NotSum(before: IdOrder, t: ArithTerm, more: set<ArithTerm>)
    requires Carries(before, [t], more) && Apart(more)
    ensures !t.Plus? && !SumIn(Factors(t)[1..]) && (t.Number? ==> Pure(before, t) && more == {})
  {
    hide Pure;
    SingleCarried(before, t, more);
    if Pure(before, t) { PureIsNot(before, t); }
  }

  lemma NumberIsPure(before: IdOrder, x: real)
    ensures Pure(before, Number(x))
  {
    var m := Mono(x, []);
    assert MonoTerm(m) == Number(x);
  }

  lemma {:induction false} PartMerged(fuel: nat, before: IdOrder, ts: seq<ArithTerm>, all: set<ArithTerm>, t: ArithTerm, more: set<ArithTerm>)
    requires StrictTotal(before) && Carries(before, ts, all) && Carries(before, [t], more) && all !! more && Apart(all + more)
    requires fuel > 0 && |ts| > 1 && MergedTerm(fuel, before, Line(ts), t).Some?
    ensures Carried(before, MergedTerm(fuel, before, Line(ts), t).value, all + more)
    decreases fuel, 0
  {
    hide SumTerm, Pure, Impure, Carries, Factors;
    var init, l := ts[..|ts| - 1], ts[|ts| - 1];
    if Factors(l)[1..] != Factors(t)[1..] {
      Joined(before, ts, all, t, more);
    } else {
      InitCarries(before, ts, all);
      LikeArePure(before, l, all * {l}, t, more);
      var s := PureMerged(fuel, before, Line(ts), t);
      CarriedSingle(before, s);
      assert all - {l} == all == all + {} == all + more;
      PartAdded(fuel - 1, before, init, all, s, {});
    }
  }

  lemma {:induction false} SinglePart(fuel: nat, before: IdOrder, h: ArithTerm, all: set<ArithTerm>, t: ArithTerm, more: set<ArithTerm>)
    requires StrictTotal(before) && Carries(before, [h], all) && Carries(before, [t], more) && all !! more && Apart(all + more)
    requires fuel > 0 && SumTerm(fuel, before, h, t).Some?
    ensures Carried(before, SumTerm(fuel, before, h, t).value, all + more)
    decreases fuel, 0
  {
    hide Pure, Impure, Carries, TermOrderBefore, MergedTerm, Factors, SumIn;
    NotSum(before, h, all);
    NotSum(before, t, more);
    assert Line([h]) == h && Line([t]) == t && more + all == all + more;
    if h == Number(0.0) {
      assert {} + more == more;
    } else if h.Number? && t.Number? {
      NumberIsPure(before, h.value + t.value);
      CarriedSingle(before, Number(h.value + t.value));
      assert SumTerm(fuel, before, h, t).value == Number(h.value + t.value) && all + more == {};
    } else {
      hide SumTerm;
      SingleUnfolds(fuel, before, h, t);
      if !h.IsFuncTerm() && TermOrderBefore(before, t, h) {
        PartAdded(fuel - 1, before, [t], more, h, all);
      } else {
        SingleMerged(fuel, before, h, all, t, more);
      }
    }
  }

  lemma SingleMerged(fuel: nat, before: IdOrder, h: ArithTerm, all: set<ArithTerm>, t: ArithTerm, more: set<ArithTerm>)
    requires StrictTotal(before) && Carries(before, [h], all) && Carries(before, [t], more) && all !! more && Apart(all + more)
    requires fuel > 0 && !h.Plus? && MergedTerm(fuel, before, h, t).Some?
    ensures Carried(before, MergedTerm(fuel, before, h, t).value, all + more)
  {
    hide SumTerm, Pure, Impure, Carries, Factors;
    assert Line([h]) == h;
    if Factors(h)[1..] != Factors(t)[1..] {
      Joined(before, [h], all, t, more);
    } else {
      LikeArePure(before, h, all, t, more);
      var s := PureMerged(fuel, before, h, t);
      CarriedSingle(before, s);
      assert all + more == {};
    }
  }

  /** A sum on the right of a sum, or impure terms in it: either way it is not normal. */
  ghost predicate Spoilt(before: IdOrder, t: ArithTerm, all: set<ArithTerm>) {
    Carried(before, t, all) || (t.Plus? && t.right.Plus?)
  }

  lemma {:induction false} LineAdded(fuel: nat, before: IdOrder, ts: seq<ArithTerm>, all: set<ArithTerm>, us: seq<ArithTerm>, more: set<ArithTerm>)
    requires StrictTotal(before) && Carries(before, ts, all) && Carries(before, us, more) && all !! more && Apart(all + more)
    requires SumTerm(fuel, before, Line(ts), Line(us)).Some?
    ensures Spoilt(before, SumTerm(fuel, before, Line(ts), Line(us)).value, all + more)
    decreases fuel
  {
    hide SumTerm, Pure, Impure, Carries, Line, Factors;
    CarriedTerms(before, ts, all);
    CarriedTerms(before, us, more);
    if fuel == 0 {
      NoFuel(before, [Line(us)], Line(us), Line(us));
    } else if |us| == 1 {
      OnlyTerm(us);
      PartAdded(fuel, before, ts, all, us[0], more);
    } else if |ts| == 1 {
      OnlyTerm(ts);
      SingleLine(fuel, before, ts[0], all, us, more);
    } else {
      var init, l := us[..|us| - 1], us[|us| - 1];
      LinesUnfold(fuel, before, ts, us);
      InitCarries(before, us, more);
      PartAdded(fuel - 1, before, ts, all, l, more * {l});
      var q :| Carries(before, q, all + more * {l}) && SumTerm(fuel - 1, before, Line(ts), l).value == Line(q);
      assert all + more * {l} + (more - {l}) == all + more;
      LineAdded(fuel - 1, before, q, all + more * {l}, init, more - {l});
    }
  }

  lemma OnlyTerm(ts: seq<ArithTerm>)
    requires |ts| == 1
    ensures ts == [ts[0]] && Line(ts) == ts[0]
  {
  }

  lemma LinesUnfold(fuel: nat, before: IdOrder, ts: seq<ArithTerm>, us: seq<ArithTerm>)
    requires fuel > 0 && |ts| > 1 && |us| > 1
    ensures SumTerm(fuel, before, Line(ts), Line(us)) == SumTwice(fuel, before, Line(ts), us[|us| - 1], Line(us[..|us| - 1]))
  {
    hide TermOrderBefore, MergedTerm, SumTwice;
  }

  lemma SingleLine(fuel: nat, before: IdOrder, h: ArithTerm, all: set<ArithTerm>, us: seq<ArithTerm>, more: set<ArithTerm>)
    requires StrictTotal(before) && Carries(before, [h], all) && Carries(before, us, more) && all !! more && Apart(all + more)
    requires fuel > 0 && |us| > 1 && SumTerm(fuel, before, h, Line(us)).Some?
    ensures Spoilt(before, SumTerm(fuel, before, h, Line(us)).value, all + more)
  {
    hide Pure, Impure, Carries, Factors, TermOrderBefore;
    NotSum(before, h, all);
    assert more + all == all + more;
    if h == Number(0.0) {
      assert {} + more == more;
    } else {
      hide SumTerm;
      SingleUnfolds(fuel, before, h, Line(us));
      if !h.IsFuncTerm() {
        PartAdded(fuel - 1, before, us, more, h, all);
      } else {
        SumFactors(h, Line(us));
      }
    }
  }

  lemma SumFactors(h: ArithTerm, b: ArithTerm)
    requires b.Plus? && !SumIn(Factors(h)[1..])
    ensures Factors(h)[1..] != Factors(b)[1..]
  {
    assert Factors(b)[1..] == [b] && [b][0].Plus?;
  }

  lemma {:induction false} AmongMonomials(ts: seq<ArithTerm>, t: ArithTerm)
    requires t in ts && !t.Number? && forall i :: 0 <= i < |ts| ==> !ts[i].Plus?
    ensures MonoOf(t) in Monomials(Line(ts))
    decreases ts
  {
    hide MonoOf, Factors;
    if |ts| > 1 && t != ts[|ts| - 1] { AmongMonomials(ts[..|ts| - 1], t); }
  }

  lemma SpoiltNotNormal(before: IdOrder, t: ArithTerm, all: set<ArithTerm>)
    requires Spoilt(before, t, all) && Apart(all) && all != {}
    ensures !Normal(before, t)
  {
    if t.Plus? && t.right.Plus? {
      SumOnTheRight(before, t.left, t.right);
    } else {
      var ts: seq<ArithTerm> :| Carries(before, ts, all) && t == Line(ts);
      var u :| u in all;
      assert u in multiset(ts);
      forall i | 0 <= i < |ts| ensures !ts[i].Plus? { if Pure(before, ts[i]) { PureIsNot(before, ts[i]); } }
      AmongMonomials(ts, u);
      assert NumberIn(MonoOf(u).key);
    }
  }

  // ---------- multiples ----------

  /** What the manager makes of a constant times a product. */
  function Scaling(c: real, m: Mono): ArithTerm {
    if CallFirst(m) then Chain([Parts(m)[0], Number(c)] + Parts(m)[1..]) else MonoTerm(Mono(CoefProduct(c, m.coef), m.key))
  }

  /** A constant goes behind the call, and before all other factors. */
  lemma {:induction false} ConstantTaken(fuel: nat, before: IdOrder, parts: Key, c: real)
    requires StrictTotal(before) && OkKey(before, parts) && parts != [] && parts[0].Call? && c != 0.0 && c != 1.0
    requires ProductTerm(fuel, before, Chain(parts), Number(c)).Some?
    ensures ProductTerm(fuel, before, Chain(parts), Number(c)).value == Chain([parts[0], Number(c)] + parts[1..])
    decreases |parts|
  {
    hide ProductTerm;
    var f, x := Number(c), [parts[0], Number(c)] + parts[1..];
    if fuel == 0 {
      NoProduct(before, Chain(parts), f);
    } else if |parts| == 1 {
      SingleTimes(fuel, before, parts[0], f);
      TwoParts(parts[0], f);
      assert x == [parts[0], f];
    } else {
      var init, l := parts[..|parts| - 1], parts[|parts| - 1];
      TimesUnfolds(fuel, before, Chain(parts), f);
      ConstantTaken(fuel - 1, before, init, c);
      var y := [init[0], f] + init[1..];
      assert x == y + [l] && x[..|y|] == y && Chain(x) == Times(Chain(y), l);
      assert |init| > 1 ==> init[1..] != [] && y[|y| - 1] == init[|init| - 1];
      assert !MultiplicationBefore(before, l, y[|y| - 1]);
      if fuel == 1 { NoProduct(before, Chain(y), l); }
      else { TimesUnfolds(fuel - 1, before, Chain(y), l); }
    }
  }

  lemma MonoScaled(fuel: nat, before: IdOrder, c: real, m: Mono)
    requires StrictTotal(before) && OkMono(before, m) && c != 0.0 && c != 1.0
    requires ProductTerm(fuel, before, Number(c), MonoTerm(m)).Some?
    ensures ProductTerm(fuel, before, Number(c), MonoTerm(m)).value == Scaling(c, m)
  {
    hide ProductTerm, Chain;
    MonoFactors(m);
    hide OkKey;
    if fuel == 0 {
      NoProduct(before, Number(c), MonoTerm(m));
    } else if CallFirst(m) {
      TwiceUnfolds(fuel, before, Number(c), MonoTerm(m));
      assert Parts(m) == m.key;
      ConstantTaken(fuel - 1, before, m.key, c);
    } else {
      var enough := fuel + 2 * |m.key| + 6;
      ConstantSettles(before, c, m);
      FewProducts([Mono(c, [])]);
      ConstantTerm(c);
      MonosSettle(enough, before, Mono(c, []), m);
      MoreFuel(fuel, enough, before, Number(c), MonoTerm(m));
    }
  }

  lemma ConstantTerm(c: real)
    ensures MonoTerm(Mono(c, [])) == Number(c) && Parts(Mono(c, [])) == [Number(c)]
  {
  }

  lemma ScalingFactors(before: IdOrder, c: real, m: Mono)
    requires OkMono(before, m) && CallFirst(m)
    ensures Factors(Scaling(c, m))[1..] == [m.key[0], Number(c)] + m.key[1..] && Impure(Scaling(c, m))
  {
    assert Parts(m) == m.key;
    var x := [m.key[0], Number(c)] + m.key[1..];
    ChainFactors(x);
    assert x[1] == Number(c) && ([Number(1.0)] + x)[1..] == x;
    forall i | 0 <= i < |x| ensures !x[i].Plus? { assert i >= 2 ==> x[i] == m.key[i - 1]; }
  }

  /** The products of the sum from which impure terms come. */
  ghost function Impurities(c: real, p: Poly): set<ArithTerm> {
    set i | 0 <= i < |p| && CallFirst(p[i]) :: Scaling(c, p[i])
  }

  lemma ImpuritiesApart(before: IdOrder, c: real, p: Poly)
    requires StrictTotal(before) && OkPoly(before, p)
    ensures Apart(Impurities(c, p))
  {
    hide Scaling, CallFirst, KeyBefore, Impure, Factors;
    forall t | t in Impurities(c, p) ensures Impure(t) {
      var i :| 0 <= i < |p| && CallFirst(p[i]) && t == Scaling(c, p[i]);
      ScalingFactors(before, c, p[i]);
    }
    forall t, u | t in Impurities(c, p) && u in Impurities(c, p) && t != u ensures Factors(t)[1..] != Factors(u)[1..] {
      var i :| 0 <= i < |p| && CallFirst(p[i]) && t == Scaling(c, p[i]);
      var j :| 0 <= j < |p| && CallFirst(p[j]) && u == Scaling(c, p[j]);
      OtherImpurity(before, c, p, i, j);
    }
  }

  lemma OtherImpurity(before: IdOrder, c: real, p: Poly, i: nat, j: nat)
    requires StrictTotal(before) && OkPoly(before, p) && i < |p| && j < |p| && i != j && CallFirst(p[i]) && CallFirst(p[j])
    ensures Factors(Scaling(c, p[i]))[1..] != Factors(Scaling(c, p[j]))[1..]
  {
    hide Scaling, KeyBefore, Impure, Factors;
    var k, l := p[i].key, p[j].key;
    ScalingFactors(before, c, p[i]);
    ScalingFactors(before, c, p[j]);
    KeyOrder(before, k, k, k);
    assert k != l;
    var x, y := [k[0], Number(c)] + k[1..], [l[0], Number(c)] + l[1..];
    assert x[2..] == k[1..] && y[2..] == l[1..] && [x[0]] + x[2..] == k && [y[0]] + y[2..] == l;
  }

  lemma LastImpurity(before: IdOrder, c: real, p: Poly)
    requires StrictTotal(before) && OkPoly(before, p) && p != []
    ensures Impurities(c, p) == Impurities(c, p[..|p| - 1]) + Impurities(c, [p[|p| - 1]])
    ensures Impurities(c, p[..|p| - 1]) !! Impurities(c, [p[|p| - 1]])
  {
    hide Scaling, CallFirst, KeyBefore, Factors;
    var init, l := p[..|p| - 1], p[|p| - 1];
    assert init + [l] == p;
    forall t | t in Impurities(c, p) ensures t in Impurities(c, init) + Impurities(c, [l]) {
      var i :| 0 <= i < |p| && CallFirst(p[i]) && t == Scaling(c, p[i]);
      assert if i < |init| then init[i] == p[i] else [l][0] == p[i];
    }
    forall t | t in Impurities(c, init) ensures t in Impurities(c, p) && t !in Impurities(c, [l]) {
      var i :| 0 <= i < |init| && CallFirst(init[i]) && t == Scaling(c, init[i]);
      assert init[i] == p[i];
      if CallFirst(l) { OtherImpurity(before, c, p, i, |p| - 1); }
    }
  }

  /** A constant times a sum: the impure terms are those that come from products with a call in front. */
  lemma {:induction false} SumScaled(fuel: nat, before: IdOrder, c: real, p: Poly)
    requires StrictTotal(before) && OkPoly(before, p) && p != [] && c != 0.0 && c != 1.0
    requires ProductTerm(fuel, before, Number(c), PolyTerm(p)).Some?
    ensures Carried(before, ProductTerm(fuel, before, Number(c), PolyTerm(p)).value, Impurities(c, p))
    decreases |p|
  {
    hide ProductTerm, SumTerm, PolyTerm, Impurities, OkPoly, MonoTerm, Scaling, Line, Pure, Impure, Factors, Apart, Carries;
    var init, l := p[..|p| - 1], p[|p| - 1];
    PolyShape(before, p);
    if fuel == 0 {
      NoProduct(before, Number(c), PolyTerm(p));
    } else if |p| == 1 {
      FewProducts(p);
      SingleScaled(fuel, before, c, p);
    } else {
      PartsOk(before, p);
      SumsOfProducts(fuel, before, Number(c), PolyTerm(p));
      SumScaled(fuel - 1, before, c, init);
      FewProducts([l]);
      SingleScaled(fuel - 1, before, c, [l]);
      LastImpurity(before, c, p);
      ImpuritiesApart(before, c, p);
      var ts :| Carries(before, ts, Impurities(c, init)) && ProductTerm(fuel - 1, before, Number(c), PolyTerm(init)).value == Line(ts);
      PartAdded(fuel - 1, before, ts, Impurities(c, init), ProductTerm(fuel - 1, before, Number(c), PolyTerm([l])).value, Impurities(c, [l]));
    }
  }

  lemma SingleScaled(fuel: nat, before: IdOrder, c: real, p: Poly)
    requires StrictTotal(before) && OkPoly(before, p) && |p| == 1 && c != 0.0 && c != 1.0
    requires ProductTerm(fuel, before, Number(c), PolyTerm(p)).Some?
    ensures var t := ProductTerm(fuel, before, Number(c), PolyTerm(p)).value; Carries(before, [t], Impurities(c, p)) && Carried(before, t, Impurities(c, p))
  {
    hide ProductTerm, CallFirst, MonoTerm, Chain, Factors, NumberIn, SumIn;
    FewProducts(p);
    MonoScaled(fuel, before, c, p[0]);
    var t := Scaling(c, p[0]);
    assert Line([t]) == t;
    if CallFirst(p[0]) {
      ScalingFactors(before, c, p[0]);
      assert Impurities(c, p) == {t};
    } else {
      assert Impurities(c, p) == {};
      NonZero(c, p[0].coef);
      var m := Mono(CoefProduct(c, p[0].coef), p[0].key);
      assert OkMono(before, m) && t == MonoTerm(m);
      CarriedSingle(before, t);
    }
  }

  lemma SomeImpurity(c: real, p: Poly)
    ensures Impurities(c, p) == {} <==> forall i :: 0 <= i < |p| ==> !CallFirst(p[i])
  {
    hide Scaling, CallFirst;
    forall i | 0 <= i < |p| && CallFirst(p[i]) ensures Impurities(c, p) != {} { assert Scaling(c, p[i]) in Impurities(c, p); }
  }

  /** Where the multiple does not settle, no answer is normal, nor is a sum of it and a normal term. */
  lemma MultipleNotNormal(fuel: nat, before: IdOrder, c: real, t: ArithTerm)
    requires StrictTotal(before) && Normal(before, t) && c != 0.0 && c != 1.0 && !ProductSettles(before, [Mono(c, [])], Monomials(t))
    requires ProductTerm(fuel, before, Number(c), t).Some?
    ensures var r := ProductTerm(fuel, before, Number(c), t).value;
      && !Normal(before, r)
      && forall a :: Normal(before, a) && SumTerm(fuel, before, a, r).Some? ==> !Normal(before, SumTerm(fuel, before, a, r).value)
  {
    hide ProductTerm, SumTerm, PolyTerm, Impurities, OkPoly, CallFirst, Line, Pure, Impure, Factors, Apart, Carries, ProductSettles;
    var p, r := Monomials(t), ProductTerm(fuel, before, Number(c), t).value;
    assert OkPoly(before, p) && t == PolyTerm(p);
    MultiplesSettle(before, c, p);
    SomeImpurity(c, p);
    var all := Impurities(c, p);
    SumScaled(fuel, before, c, p);
    ImpuritiesApart(before, c, p);
    SpoiltNotNormal(before, r, all);
    var us :| Carries(before, us, all) && r == Line(us);
    forall a | Normal(before, a) && SumTerm(fuel, before, a, r).Some? ensures !Normal(before, SumTerm(fuel, before, a, r).value) {
      var ts := NormalIsLine(before, a);
      assert {} + all == all;
      LineAdded(fuel, before, ts, {}, us, all);
      SpoiltNotNormal(before, SumTerm(fuel, before, a, r).value, all);
    }
  }

  lemma {:induction false} PolyIsLine(before: IdOrder, p: Poly) returns (ts: seq<ArithTerm>)
    requires OkPoly(before, p) && p != []
    ensures Carries(before, ts, {}) && Line(ts) == PolyTerm(p) && |ts| == |p|
    decreases p
  {
    hide OkMono, MonoTerm, KeyBefore;
    var l := p[|p| - 1];
    assert Pure(before, MonoTerm(l));
    ts := [MonoTerm(l)];
    if |p| > 1 {
      ts := PolyIsLine(before, p[..|p| - 1]);
      Extends(ts, MonoTerm(l));
      ts := ts + [MonoTerm(l)];
    }
  }

  lemma NormalIsLine(before: IdOrder, a: ArithTerm) returns (ts: seq<ArithTerm>)
    requires Normal(before, a)
    ensures Carries(before, ts, {}) && Line(ts) == a
  {
    if Monomials(a) == [] {
      NumberIsPure(before, 0.0);
      ts := [Number(0.0)];
    } else {
      ts := PolyIsLine(before, Monomials(a));
    }
  }

  // ---------- requests ----------

  /** A product is of a constant and a term, or of two terms that are not sums, or every two products in it settle. */
  predicate Predictable(before: IdOrder, request: Request) {
    request.Product? ==>
      || request.left.Number?
      || (!request.left.Plus? && !request.right.Plus?)
      || AllSettle(before, Monomials(request.left), Monomials(request.right))
  }

  /** The answer to a request about normal terms is normal if and only if every product and sum on the way settles. */
  lemma RequestNormalExactly(fuel: nat, before: IdOrder, request: Request)
    requires StrictTotal(before) && RequestNormal(before, request) && Predictable(before, request)
    requires RequestedTerm(fuel, before, request).Some?
    ensures Normal(before, RequestedTerm(fuel, before, request).value) <==> RequestSettles(before, request)
  {
    hide ProductTerm, SumTerm, PolyTerm, Normal, OkPoly, Settles, ProductSettles, MulPoly, Monomials;
    if RequestSettles(before, request) {
      var n := RequestAnsweredNormal(before, request);
    } else {
      match request
      case Negation(a) => MultipleNotNormal(fuel, before, -1.0, a);
      case Difference(a, b) => DifferenceNotNormal(fuel, before, a, b);
      case Sum(a, b) => SumNormalExactly(fuel, before, a, b);
      case Product(a, b) => ProductNotNormal(fuel, before, a, b);
      case Other(_, _) =>
    }
  }

  lemma DifferenceNotNormal(fuel: nat, before: IdOrder, a: ArithTerm, b: ArithTerm)
    requires StrictTotal(before) && Normal(before, a) && Normal(before, b) && !RequestSettles(before, Difference(a, b))
    requires RequestedTerm(fuel, before, Difference(a, b)).Some?
    ensures !Normal(before, RequestedTerm(fuel, before, Difference(a, b)).value)
  {
    hide ProductTerm, SumTerm, PolyTerm, Normal, OkPoly, Settles, ProductSettles, MulPoly, Monomials;
    if ProductSettles(before, MINUS, Monomials(b)) {
      var n := Negated(before, b);
      AnswersAgree(n, fuel, before, Number(-1.0), b);
      var q := MulPoly(before, MINUS, Monomials(b));
      NormalPoly(before, q);
      SumNormalExactly(fuel, before, a, PolyTerm(q));
    } else {
      MultipleNotNormal(fuel, before, -1.0, b);
    }
  }

  lemma ProductNotNormal(fuel: nat, before: IdOrder, a: ArithTerm, b: ArithTerm)
    requires StrictTotal(before) && Normal(before, a) && Normal(before, b) && Predictable(before, Product(a, b))
    requires !ProductSettles(before, Monomials(a), Monomials(b)) && ProductTerm(fuel, before, a, b).Some?
    ensures !Normal(before, ProductTerm(fuel, before, a, b).value)
  {
    hide ProductTerm, SumTerm, OkPoly, MonoSettles, MulPoly, MonoTerm, AllSettle;
    var p, q := Monomials(a), Monomials(b);
    if a.Number? {
      NumberMonomials(a.value);
      MultipleNotNormal(fuel, before, a.value, b);
    } else if AllSettle(before, p, q) {
      ProductNormalExactly(fuel, before, a, b);
    } else {
      PolyShape(before, p);
      PolyShape(before, q);
      FewProducts(p);
      FewProducts(q);
      assert |p| <= 1 && |q| <= 1 && p != [] && q != [];
      PartsOk(before, p);
      PartsOk(before, q);
      MonoNormalExactly(fuel, before, p[0], q[0]);
    }
  }

  lemma NumberMonomials(c: real)
    ensures Monomials(Number(c)) == if c == 0.0 then [] else [Mono(c, [])]
  {
    assert Factors(Number(c)) == [Number(c)] && [Number(c)][1..] == [];
  }
}
