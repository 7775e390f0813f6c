/** The estimated chance that a diagram is true, with exact arithmetic. */
module Estimations {
  import opened KernelOrders
  import opened Diagrams
  import opened Syntax
  import opened Semantics
  import opened Store
  import opened ManagerState
  import opened Operations
  import opened Wrappers

  type Chances = KernelId -> real

  ghost predicate AreChances(p: Chances) {
    forall k: KernelId {:trigger p(k)} :: 0.0 <= p(k) <= 1.0
  }

  function Mix(p: real, a: real, b: real): real {
    p * a + (1.0 - p) * b
  }

  /** The chance of a diagram when its kernels are taken as independent. */
  function Chance(d: Tree, p: Chances): real {
    match d
    case Leaf(b) => if b then 1.0 else 0.0
    case Branch(k, t, f) => Mix(p(k), Chance(t, p), Chance(f, p))
  }

  lemma MixBounds(p: real, a: real, b: real)
    requires 0.0 <= p <= 1.0 && 0.0 <= a <= 1.0 && 0.0 <= b <= 1.0
    ensures 0.0 <= Mix(p, a, b) <= 1.0
  {
    assert 0.0 <= p * a <= p;
    assert 0.0 <= (1.0 - p) * b <= 1.0 - p;
  }

  lemma {:induction false} ChanceBounds(d: Tree, p: Chances)
    requires AreChances(p)
    ensures 0.0 <= Chance(d, p) <= 1.0
    decreases d
  {
    match d
    case Leaf(_) =>
    case Branch(k, t, f) =>
      ChanceBounds(t, p);
      ChanceBounds(f, p);
      MixBounds(p(k), Chance(t, p), Chance(f, p));
  }

  lemma {:induction false} ChanceDependsOnKernels(d: Tree, p: Chances, q: Chances)
    requires forall k :: k in Kernels(d) ==> p(k) == q(k)
    ensures Chance(d, p) == Chance(d, q)
    decreases d
  {
    match d
    case Leaf(_) =>
    case Branch(k, t, f) =>
      ChanceDependsOnKernels(t, p, q);
      ChanceDependsOnKernels(f, p, q);
  }

  /** When every kernel is known to be true or false, so is the diagram. */
  lemma {:induction false} ChanceOfValuation(d: Tree, v: Valuation)
    ensures Chance(d, (k: KernelId) => if v(k) then 1.0 else 0.0) == if Eval(d, v) then 1.0 else 0.0
    decreases d
  {
    match d
    case Leaf(_) =>
    case Branch(k, t, f) =>
      ChanceOfValuation(t, v);
      ChanceOfValuation(f, v);
  }

  // ---------- the chance as a sum over all valuations ----------

  /** All valuations of the listed kernels; the other kernels are as in v. */
  ghost function Valuations(ks: seq<KernelId>, v: Valuation): seq<Valuation> {
    if ks == [] then [v] else Valuations(ks[1..], Assign(v, ks[0], true)) + Valuations(ks[1..], Assign(v, ks[0], false))
  }

  /** A chance x times that of a kernel of chance p to be b. */
  function Drawn(p: real, b: bool, x: real): real {
    (if b then p else 1.0 - p) * x
  }

  /** The chance that the listed kernels, drawn independently, have the values of u. */
  ghost function Likelihood(ks: seq<KernelId>, u: Valuation, p: Chances): real {
    if ks == [] then 1.0 else Drawn(p(ks[0]), u(ks[0]), Likelihood(ks[1..], u, p))
  }

  /** The sum of the chances of those of the valuations that make the diagram true. */
  ghost function TrueChance(d: Tree, us: seq<Valuation>, ks: seq<KernelId>, p: Chances): real {
    if us == [] then 0.0 else (if Eval(d, us[0]) then Likelihood(ks, us[0], p) else 0.0) + TrueChance(d, us[1..], ks, p)
  }

  /** Every way to choose values for the listed kernels is among the valuations, and there are two to the power of their number. */
  lemma {:induction false} ValuationsComplete(ks: seq<KernelId>, v: Valuation, u: Valuation)
    requires forall k: KernelId :: k !in ks ==> u(k) == v(k)
    ensures |Valuations(ks, v)| == TwoToThe(|ks|)
    ensures exists i :: 0 <= i < |Valuations(ks, v)| && forall k: KernelId :: Valuations(ks, v)[i](k) == u(k)
    decreases ks
  {
    if ks == [] {
      assert Valuations(ks, v)[0] == v;
    } else {
      var us, os := Valuations(ks[1..], Assign(v, ks[0], true)), Valuations(ks[1..], Assign(v, ks[0], false));
      var side, other := u(ks[0]), Assign(u, ks[0], !u(ks[0]));
      forall k: KernelId | k !in ks[1..] ensures u(k) == Assign(v, ks[0], side)(k) && other(k) == Assign(v, ks[0], !side)(k) {
        assert ks == [ks[0]] + ks[1..];
      }
      ValuationsComplete(ks[1..], Assign(v, ks[0], side), u);
      ValuationsComplete(ks[1..], Assign(v, ks[0], !side), other);
      var part := if side then us else os;
      var i :| 0 <= i < |part| && forall k: KernelId :: part[i](k) == u(k);
      assert Valuations(ks, v)[if side then i else |us| + i] == part[i];
    }
  }

  lemma {:induction false} TrueChanceAppend(d: Tree, us: seq<Valuation>, os: seq<Valuation>, ks: seq<KernelId>, p: Chances)
    ensures TrueChance(d, us + os, ks, p) == TrueChance(d, us, ks, p) + TrueChance(d, os, ks, p)
    decreases us
  {
    if us == [] {
      assert us + os == os;
    } else {
      assert (us + os)[1..] == us[1..] + os;
      TrueChanceAppend(d, us[1..], os, ks, p);
    }
  }

  lemma DrawnSum(p: real, b: bool, x: real, y: real)
    ensures Drawn(p, b, x) + Drawn(p, b, y) == Drawn(p, b, x + y) && Drawn(p, b, 0.0) == 0.0
  {
  }

  /** A kernel with the same value in all valuations contributes its chance as a factor. */
  lemma {:induction false} TrueChanceFactor(d: Tree, us: seq<Valuation>, ks: seq<KernelId>, b: bool, p: Chances)
    requires ks != [] && forall i :: 0 <= i < |us| ==> us[i](ks[0]) == b
    ensures TrueChance(d, us, ks, p) == Drawn(p(ks[0]), b, TrueChance(d, us, ks[1..], p))
    decreases us
  {
    if us == [] {
      DrawnSum(p(ks[0]), b, 0.0, 0.0);
    } else {
      TrueChanceFactor(d, us[1..], ks, b, p);
      var x := if Eval(d, us[0]) then Likelihood(ks[1..], us[0], p) else 0.0;
      DrawnSum(p(ks[0]), b, x, TrueChance(d, us[1..], ks[1..], p));
    }
  }

  lemma {:induction false} ValuationsFix(ks: seq<KernelId>, v: Valuation, k: KernelId)
    requires k !in ks
    ensures forall i :: 0 <= i < |Valuations(ks, v)| ==> Valuations(ks, v)[i](k) == v(k)
    decreases ks
  {
    if ks != [] {
      ValuationsFix(ks[1..], Assign(v, ks[0], true), k);
      ValuationsFix(ks[1..], Assign(v, ks[0], false), k);
    }
  }

  /** The valuations in which the first kernel is b. */
  lemma TrueChanceSide(d: Tree, ks: seq<KernelId>, us: seq<Valuation>, v: Valuation, b: bool, p: Chances) returns (all: real, part: real)
    requires ks != [] && NoRepeats(ks) && us == Valuations(ks[1..], Assign(v, ks[0], b))
    ensures all == TrueChance(d, us, ks, p) && part == TrueChance(d, us, ks[1..], p)
    ensures all == Drawn(p(ks[0]), b, part)
  {
    ValuationsFix(ks[1..], Assign(v, ks[0], b), ks[0]);
    TrueChanceFactor(d, us, ks, b, p);
    all, part := TrueChance(d, us, ks, p), TrueChance(d, us, ks[1..], p);
  }

  /** The sum over the valuations, split by the value of the first kernel. */
  lemma TrueChanceSplit(d: Tree, ks: seq<KernelId>, us: seq<Valuation>, os: seq<Valuation>, v: Valuation, p: Chances) returns (x: real, y: real)
    requires ks != [] && NoRepeats(ks)
    requires us == Valuations(ks[1..], Assign(v, ks[0], true)) && os == Valuations(ks[1..], Assign(v, ks[0], false))
    ensures x == TrueChance(d, us, ks[1..], p) && y == TrueChance(d, os, ks[1..], p)
    ensures TrueChance(d, us + os, ks, p) == Mix(p(ks[0]), x, y)
  {
    var a, b;
    a, x := TrueChanceSide(d, ks, us, v, true, p);
    b, y := TrueChanceSide(d, ks, os, v, false, p);
    TrueChanceAppend(d, us, os, ks, p);
    MixOf(p(ks[0]), x, y, a, b);
  }

  lemma MixOf(q: real, x: real, y: real, a: real, b: real)
    requires a == Drawn(q, true, x) && b == Drawn(q, false, y)
    ensures a + b == Mix(q, x, y)
  {
  }

  /** Drawing the kernels one after the other gives the sum over the valuations. */
  lemma {:induction false} ExpectedIsSum(d: Tree, ks: seq<KernelId>, v: Valuation, p: Chances)
    requires NoRepeats(ks)
    ensures Expected(d, ks, v, p) == TrueChance(d, Valuations(ks, v), ks, p)
    decreases ks
  {
    if ks == [] {
      assert TrueChance(d, Valuations(ks, v)[1..], ks, p) == 0.0;
    } else {
      ExpectedIsSum(d, ks[1..], Assign(v, ks[0], true), p);
      ExpectedIsSum(d, ks[1..], Assign(v, ks[0], false), p);
      var x, y := TrueChanceSplit(d, ks, Valuations(ks[1..], Assign(v, ks[0], true)), Valuations(ks[1..], Assign(v, ks[0], false)), v, p);
    }
  }

  /** The chance that d is true when the listed kernels are drawn one after the other and the others are as in v. */
  ghost function Expected(d: Tree, ks: seq<KernelId>, v: Valuation, p: Chances): real {
    if ks == [] then (if Eval(d, v) then 1.0 else 0.0)
    else Mix(p(ks[0]), Expected(d, ks[1..], Assign(v, ks[0], true), p), Expected(d, ks[1..], Assign(v, ks[0], false), p))
  }

  lemma {:induction false} ExpectedSame(d: Tree, d': Tree, ks: seq<KernelId>, v: Valuation, p: Chances)
    requires Equivalent(d, d')
    ensures Expected(d, ks, v, p) == Expected(d', ks, v, p)
    decreases ks
  {
    if ks != [] {
      ExpectedSame(d, d', ks[1..], Assign(v, ks[0], true), p);
      ExpectedSame(d, d', ks[1..], Assign(v, ks[0], false), p);
    }
  }

  lemma {:induction false} ExpectedNegation(d: Tree, d': Tree, ks: seq<KernelId>, v: Valuation, p: Chances)
    requires forall u: Valuation :: Eval(d', u) == !Eval(d, u)
    ensures Expected(d', ks, v, p) == 1.0 - Expected(d, ks, v, p)
    decreases ks
  {
    if ks != [] {
      var x, y := Expected(d, ks[1..], Assign(v, ks[0], true), p), Expected(d, ks[1..], Assign(v, ks[0], false), p);
      ExpectedNegation(d, d', ks[1..], Assign(v, ks[0], true), p);
      ExpectedNegation(d, d', ks[1..], Assign(v, ks[0], false), p);
      MixNegation(p(ks[0]), x, y);
    }
  }

  lemma MixNegation(p: real, a: real, b: real)
    ensures Mix(p, 1.0 - a, 1.0 - b) == 1.0 - Mix(p, a, b)
  {
  }

  /** Only the values on the kernels of the diagram matter. */
  lemma {:induction false} ExpectedDepends(d: Tree, ks: seq<KernelId>, v: Valuation, u: Valuation, p: Chances)
    requires forall k :: k in Kernels(d) && k !in ks ==> v(k) == u(k)
    ensures Expected(d, ks, v, p) == Expected(d, ks, u, p)
    decreases ks
  {
    if ks == [] {
      EvalDependsOnKernels(d, v, u);
    } else {
      forall k | k in Kernels(d) && k !in ks[1..] && k != ks[0] ensures v(k) == u(k) {
        assert ks == [ks[0]] + ks[1..];
      }
      ExpectedDepends(d, ks[1..], Assign(v, ks[0], true), Assign(u, ks[0], true), p);
      ExpectedDepends(d, ks[1..], Assign(v, ks[0], false), Assign(u, ks[0], false), p);
    }
  }

  /** A fixed root chooses its branch. */
  lemma {:induction false} ExpectedFixed(k: KernelId, t: Tree, f: Tree, ks: seq<KernelId>, v: Valuation, p: Chances)
    requires k !in ks
    ensures Expected(Branch(k, t, f), ks, v, p) == Expected(if v(k) then t else f, ks, v, p)
    decreases ks
  {
    if ks != [] {
      ExpectedFixed(k, t, f, ks[1..], Assign(v, ks[0], true), p);
      ExpectedFixed(k, t, f, ks[1..], Assign(v, ks[0], false), p);
    }
  }

  ghost predicate NoRepeats(ks: seq<KernelId>) {
    forall i, j :: 0 <= i < j < |ks| ==> ks[i] != ks[j]
  }

  /** The place of a kernel in the list does not matter: the root may be drawn first. */
  lemma {:induction false} ExpectedBranch(k: KernelId, t: Tree, f: Tree, ks: seq<KernelId>, v: Valuation, p: Chances)
    requires k in ks && NoRepeats(ks) && k !in Kernels(t) && k !in Kernels(f)
    ensures Expected(Branch(k, t, f), ks, v, p) == Mix(p(k), Expected(t, ks, v, p), Expected(f, ks, v, p))
    decreases ks
  {
    var d, rest := Branch(k, t, f), ks[1..];
    var v1, v0 := Assign(v, ks[0], true), Assign(v, ks[0], false);
    if ks[0] == k {
      assert k !in rest;
      ExpectedFixed(k, t, f, rest, v1, p);
      ExpectedFixed(k, t, f, rest, v0, p);
      ExpectedDepends(t, rest, v0, v1, p);
      ExpectedDepends(f, rest, v0, v1, p);
      MixSame(p(k), Expected(t, rest, v1, p));
      MixSame(p(k), Expected(f, rest, v1, p));
    } else {
      assert k in rest;
      ExpectedBranch(k, t, f, rest, v1, p);
      ExpectedBranch(k, t, f, rest, v0, p);
      MixExchange(p(ks[0]), p(k), Expected(t, rest, v1, p), Expected(f, rest, v1, p), Expected(t, rest, v0, p), Expected(f, rest, v0, p));
    }
  }

  lemma MixSame(p: real, a: real)
    ensures Mix(p, a, a) == a
  {
  }

  lemma MixExchange(p: real, q: real, a: real, b: real, c: real, d: real)
    ensures Mix(p, Mix(q, a, b), Mix(q, c, d)) == Mix(q, Mix(p, a, c), Mix(p, b, d))
  {
    var p', q' := 1.0 - p, 1.0 - q;
    assert p * (q * a + q' * b) == p * q * a + p * q' * b;
    assert p' * (q * c + q' * d) == p' * q * c + p' * q' * d;
    assert q * (p * a + p' * c) == p * q * a + p' * q * c;
    assert q' * (p * b + p' * d) == p * q' * b + p' * q' * d;
  }

  /** On a diagram that tests no kernel twice, the estimate is the sum, over the valuations of its kernels that make it
      true, of the products of their chances. */
  lemma ChanceIsExpected(d: Tree, ks: seq<KernelId>, v: Valuation, p: Chances)
    requires ReadOnce(d) && NoRepeats(ks) && forall k :: k in Kernels(d) ==> k in ks
    ensures Chance(d, p) == TrueChance(d, Valuations(ks, v), ks, p)
  {
    ChanceDrawn(d, ks, v, p);
    ExpectedIsSum(d, ks, v, p);
  }

  lemma {:induction false} ChanceDrawn(d: Tree, ks: seq<KernelId>, v: Valuation, p: Chances)
    requires ReadOnce(d) && NoRepeats(ks) && forall k :: k in Kernels(d) ==> k in ks
    ensures Chance(d, p) == Expected(d, ks, v, p)
    decreases d
  {
    match d
    case Leaf(b) => ExpectedLeaf(b, ks, v, p);
    case Branch(k, t, f) =>
      ChanceDrawn(t, ks, v, p);
      ChanceDrawn(f, ks, v, p);
      ExpectedBranch(k, t, f, ks, v, p);
  }

  lemma {:induction false} ExpectedLeaf(b: bool, ks: seq<KernelId>, v: Valuation, p: Chances)
    ensures Expected(Leaf(b), ks, v, p) == if b then 1.0 else 0.0
    decreases ks
  {
    if ks != [] {
      ExpectedLeaf(b, ks[1..], Assign(v, ks[0], true), p);
      ExpectedLeaf(b, ks[1..], Assign(v, ks[0], false), p);
      MixSame(p(ks[0]), if b then 1.0 else 0.0);
    }
  }

  lemma {:induction false} ListOf(s: set<KernelId>) returns (ks: seq<KernelId>)
    ensures NoRepeats(ks) && forall k :: k in ks <==> k in s
    decreases s
  {
    if s == {} {
      ks := [];
    } else {
      var k :| k in s;
      var rest := ListOf(s - {k});
      ks := [k] + rest;
      forall i | 0 <= i < |rest| ensures rest[i] != k { assert rest[i] in rest; }
    }
  }

  /** The estimate depends on the truth function only, whatever the order of the kernels. */
  lemma ChanceOfEquivalent(d: Tree, d': Tree, p: Chances)
    requires ReadOnce(d) && ReadOnce(d') && Equivalent(d, d')
    ensures Chance(d, p) == Chance(d', p)
  {
    var ks := ListOf(Kernels(d) + Kernels(d'));
    var v: Valuation := k => true;
    ChanceDrawn(d, ks, v, p);
    ChanceDrawn(d', ks, v, p);
    ExpectedSame(d, d', ks, v, p);
  }

  /** A diagram and its negation have complementary chances. */
  lemma ChanceOfNegation(d: Tree, d': Tree, p: Chances)
    requires ReadOnce(d) && ReadOnce(d') && IsNegation(d', d)
    ensures Chance(d', p) == 1.0 - Chance(d, p)
  {
    var ks := ListOf(Kernels(d) + Kernels(d'));
    var v: Valuation := k => true;
    ChanceDrawn(d, ks, v, p);
    ChanceDrawn(d', ks, v, p);
    ExpectedNegation(d, d', ks, v, p);
  }

  // ---------- kernels ----------

  /** What is known about the size of a sort. */
  datatype TableSize = Infinite(approxFinite: bool) | Finite(size: nat)

  /** What a structure tells: the chance of each atom, and the sizes of the sorts. */
  datatype Statistics = Statistics(atom: Kernel -> real, sort: Sort -> TableSize)
  {
    ghost predicate Ok() {
      forall k {:trigger atom(k)} :: 0.0 <= atom(k) <= 1.0
    }
  }

  /** The chance that some element of a sort makes a diagram true, which an element does with chance sub. */
  function QuantChance(size: TableSize, sub: real): real {
    match size
    case Infinite(false) => if sub == 0.0 then 0.0 else 1.0
    case Infinite(true) => 0.0
    case Finite(0) => 0.0
    case Finite(n) => if sub * (n as real) < 0.99 then sub * (n as real) else 0.99
  }

  /** The chance that at least one of n independent draws succeeds. */
  ghost function SomeOf(n: nat, sub: real): real {
    if n == 0 then 0.0 else sub + (1.0 - sub) * SomeOf(n - 1, sub)
  }

  lemma {:induction false} SomeOfAtMost(n: nat, sub: real)
    requires 0.0 <= sub <= 1.0
    ensures 0.0 <= SomeOf(n, sub) <= sub * (n as real)
    ensures SomeOf(n, sub) == 0.0 <==> sub == 0.0 || n == 0
  {
    if n > 0 {
      SomeOfAtMost(n - 1, sub);
      var x := SomeOf(n - 1, sub);
      assert 0.0 <= (1.0 - sub) * x <= x by { assert sub * x >= 0.0; }
      assert sub * (n as real) == sub * ((n - 1) as real) + sub;
      if sub > 0.0 { assert SomeOf(n, sub) >= sub; }
    }
  }

  /** The estimate for a sort of known size is the expected number of elements that make the diagram true, capped at 0.99:
      it never falls below the chance that some of that many independent elements does unless it is capped,
      and it is 0 exactly when that chance is. */
  lemma QuantChanceOfSize(n: nat, sub: real)
    requires 0.0 <= sub <= 1.0
    ensures SomeOf(n, sub) <= QuantChance(Finite(n), sub) || QuantChance(Finite(n), sub) == 0.99
    ensures QuantChance(Finite(n), sub) == 0.0 <==> SomeOf(n, sub) == 0.0
    ensures QuantChance(Finite(n), sub) <= sub * (n as real)
    ensures QuantChance(Infinite(false), sub) == 0.0 <==> sub == 0.0
  {
    SomeOfAtMost(n, sub);
    if n > 0 && sub > 0.0 { assert sub * (n as real) > 0.0; }
  }

  lemma QuantChanceBounds(size: TableSize, sub: real)
    requires 0.0 <= sub <= 1.0
    ensures 0.0 <= QuantChance(size, sub) <= 1.0
  {
    if size.Finite? { assert sub * (size.size as real) >= 0.0; }
  }

  ghost function KernelChance(w: World, st: Statistics, k: KernelId): real
    decreases k
  {
    if k >= |w.kernels| then 0.0 else
    match w.kernels[k]
    case AtomKernel(_, _, _) => st.atom(w.kernels[k])
    case QuantKernel(sort, b) =>
      if b >= |w.trees| then 0.0
      else QuantChance(st.sort(sort), Chance(w.trees[b], (j: KernelId) => if j < k then KernelChance(w, st, j) else 0.0))
    case TrueKernel => 1.0
    case FalseKernel => 0.0
  }

  ghost function AllChances(w: World, st: Statistics): Chances {
    (k: KernelId) => KernelChance(w, st, k)
  }

  /** A quantified kernel is estimated from the diagram nested in it. */
  lemma QuantKernelChance(w: World, st: Statistics, k: KernelId)
    requires k < |w.kernels| && w.kernels[k].QuantKernel? && w.NestedAt(k)
    ensures KernelChance(w, st, k) == QuantChance(st.sort(w.kernels[k].sort), Chance(w.trees[w.kernels[k].bdd], AllChances(w, st)))
  {
    ChanceDependsOnKernels(w.trees[w.kernels[k].bdd], (j: KernelId) => if j < k then KernelChance(w, st, j) else 0.0, AllChances(w, st));
  }

  lemma {:induction false} KernelChanceBounds(w: World, st: Statistics, k: KernelId)
    requires w.Nested() && st.Ok()
    ensures 0.0 <= KernelChance(w, st, k) <= 1.0
    decreases k
  {
    if k < |w.kernels| && w.kernels[k].QuantKernel? {
      assert w.NestedAt(k);
      var below := (j: KernelId) => if j < k then KernelChance(w, st, j) else 0.0;
      forall j: KernelId ensures 0.0 <= below(j) <= 1.0 {
        if j < k { KernelChanceBounds(w, st, j); }
      }
      var sub := Chance(w.trees[w.kernels[k].bdd], below);
      ChanceBounds(w.trees[w.kernels[k].bdd], below);
      QuantChanceBounds(st.sort(w.kernels[k].sort), sub);
    }
  }

  lemma AllChancesBounds(w: World, st: Statistics)
    requires w.Nested() && st.Ok()
    ensures AreChances(AllChances(w, st))
  {
    forall k: KernelId ensures 0.0 <= AllChances(w, st)(k) <= 1.0 { KernelChanceBounds(w, st, k); }
  }

  // ---------- other orders of the same kernels ----------

  ghost predicate AllReadOnce(w: World) {
    forall n :: 0 <= n < |w.trees| ==> ReadOnce(w.trees[n])
  }

  /** Reordering does not change the estimate of any kernel, nested diagrams included. */
  lemma {:induction false} KernelChanceKept(w: World, w': World, st: Statistics, k: KernelId)
    requires w.Nested() && w'.Nested() && Keeps(w, w') && AllReadOnce(w) && AllReadOnce(w') && k < |w.kernels|
    ensures KernelChance(w', st, k) == KernelChance(w, st, k)
    decreases k
  {
    if w.kernels[k].QuantKernel? {
      assert w.NestedAt(k) && w'.NestedAt(k);
      var d, d' := w.trees[w.kernels[k].bdd], w'.trees[w.kernels[k].bdd];
      forall j | j in Kernels(d) ensures AllChances(w', st)(j) == AllChances(w, st)(j) { KernelChanceKept(w, w', st, j); }
      ChanceDependsOnKernels(d, AllChances(w', st), AllChances(w, st));
      ChanceOfEquivalent(d', d, AllChances(w', st));
      QuantKernelChance(w, st, k);
      QuantKernelChance(w', st, k);
    }
  }

  lemma SortedReadOnce(s: State)
    requires s.Ok() && s.Sorted()
    ensures AllReadOnce(s.World())
  {
    forall n | 0 <= n < |s.graph.trees| ensures ReadOnce(s.graph.trees[n]) {
      TreesOrdered(s.graph, s.table.orders, n);
      OrderedIsReadOnce(s.table.orders, s.graph.trees[n]);
    }
  }

  /** No move, and no step that only adds, changes the estimate of a present node. */
  lemma ChanceKept(s: State, s': State, st: Statistics, n: NodeId)
    requires s.Ok() && s.Sorted() && s'.Ok() && s'.Sorted() && Keeps(s.World(), s'.World()) && n < |s.graph.trees|
    ensures Chance(s'.graph.trees[n], AllChances(s'.World(), st)) == Chance(s.graph.trees[n], AllChances(s.World(), st))
  {
    var w, w', d, d' := s.World(), s'.World(), s.graph.trees[n], s'.graph.trees[n];
    SortedReadOnce(s);
    SortedReadOnce(s');
    TreeWithin(s, n);
    forall j | j in Kernels(d) ensures AllChances(w', st)(j) == AllChances(w, st)(j) { KernelChanceKept(w, w', st, j); }
    ChanceDependsOnKernels(d, AllChances(w', st), AllChances(w, st));
    ChanceOfEquivalent(d', d, AllChances(w', st));
  }

  /** An inner node is estimated from its kernel and its branches. */
  lemma NodeChance(s: State, st: Statistics, n: NodeId, bound: nat)
    requires s.Ok() && st.Ok() && 2 <= n < |s.graph.nodes| && Within(s.graph.trees[n], bound)
    ensures var x := s.graph.nodes[n];
      && 2 <= x.kernel < |s.table.kernels| && x.kernel < bound
      && x.truebranch < |s.graph.nodes| && x.falsebranch < |s.graph.nodes|
      && Within(s.graph.trees[x.truebranch], bound) && Within(s.graph.trees[x.falsebranch], bound)
      && s.graph.trees[n] == Branch(x.kernel, s.graph.trees[x.truebranch], s.graph.trees[x.falsebranch])
      && Chance(s.graph.trees[n], AllChances(s.World(), st)) ==
           Mix(KernelChance(s.World(), st, x.kernel),
               Chance(s.graph.trees[x.truebranch], AllChances(s.World(), st)),
               Chance(s.graph.trees[x.falsebranch], AllChances(s.World(), st)))
    ensures 0.0 <= Chance(s.graph.trees[n], AllChances(s.World(), st)) <= 1.0
  {
    InnerNode(s, n);
    assert s.graph.nodes[n].kernel in Kernels(s.graph.trees[n]);
    AllChancesBounds(s.World(), st);
    ChanceBounds(s.graph.trees[n], AllChances(s.World(), st));
  }
}
