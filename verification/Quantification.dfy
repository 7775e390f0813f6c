/** New kernels, and why pushing a quantifier into a diagram is right. */
module Quantification {
  import opened KernelOrders
  import opened Diagrams
  import opened Syntax
  import opened Semantics
  import opened Store
  import opened ManagerState
  import opened Operations
  import opened WellSorted
  import opened Wrappers

  // ---------- a new kernel ----------

  /** The category of a kernel about to be made. */
  predicate HasCategory(w: World, kernel: Kernel, category: KernelOrderCategory) {
    match kernel
    case AtomKernel(_, _, args) => category == if ArgsContainIndex(args, 0) then DEBRUIJNCATEGORY else STANDARDCATEGORY
    case QuantKernel(_, b) =>
      b < |w.trees| && category == if w.TreeContains(|w.kernels|, w.trees[b], 1) then DEBRUIJNCATEGORY else STANDARDCATEGORY
    case _ => false
  }

  /** No kernel has these contents yet. */
  predicate NewKernel(table: KernelTable, kernel: Kernel) {
    match kernel
    case AtomKernel(symbol, akt, args) => ProperAtom(symbol, akt, args) && !SelfEquation(symbol, args) && (symbol, akt, args) !in table.atoms
    case QuantKernel(sort, b) => 2 <= b && (sort, b) !in table.quants
    case _ => false
  }

  /** The kernel table after a new kernel got the next number of its category. */
  function TableWithKernel(table: KernelTable, kernel: Kernel, category: KernelOrderCategory): KernelTable
    requires category in table.next
  {
    var k := |table.kernels|;
    var order := KernelOrder(category, table.next[category]);
    KernelTable(table.kernels + [kernel], table.orders + [order], table.place[order := k],
                table.next[category := table.next[category] + 1],
                if kernel.AtomKernel? then table.atoms[(kernel.symbol, kernel.akt, kernel.args) := k] else table.atoms,
                if kernel.QuantKernel? then table.quants[(kernel.sort, kernel.bdd) := k] else table.quants)
  }

  lemma TableWithKernelOk(table: KernelTable, kernel: Kernel, category: KernelOrderCategory)
    requires table.Ok() && category in table.next && !category.TRUEFALSECATEGORY? && NewKernel(table, kernel)
    ensures TableWithKernel(table, kernel, category).Ok()
  {
    var table' := TableWithKernel(table, kernel, category);
    forall k | 2 <= k < |table'.kernels| ensures table'.Placed(k) { PlacedWithKernel(table, kernel, category, k); }
    forall o ensures o in table'.place <==> table'.Numbered(o) { NumberedWithKernel(table, kernel, category, o); }
  }

  lemma NumberedWithKernel(table: KernelTable, kernel: Kernel, category: KernelOrderCategory, o: KernelOrder)
    requires table.Ok() && category in table.next && !category.TRUEFALSECATEGORY?
    ensures o in TableWithKernel(table, kernel, category).place <==> TableWithKernel(table, kernel, category).Numbered(o)
  {
    assert o in table.place <==> table.Numbered(o);
  }

  lemma PlacedWithKernel(table: KernelTable, kernel: Kernel, category: KernelOrderCategory, k: KernelId)
    requires table.Ok() && category in table.next && !category.TRUEFALSECATEGORY? && NewKernel(table, kernel)
    requires 2 <= k <= |table.kernels|
    ensures TableWithKernel(table, kernel, category).Placed(k)
  {
    var order := KernelOrder(category, table.next[category]);
    assert !table.Numbered(order);
    if k < |table.kernels| { assert table.Placed(k); }
  }

  lemma StateWithKernel(s: State, kernel: Kernel, category: KernelOrderCategory)
    requires s.Ok() && category in s.table.next && NewKernel(s.table, kernel) && HasCategory(s.World(), kernel, category)
    requires kernel.QuantKernel? ==> Ordered(s.table.orders, s.graph.trees[kernel.bdd])
    ensures var s' := s.(table := TableWithKernel(s.table, kernel, category));
      Grows(s, s') && (s'.Sorted() <==> s.Sorted())
  {
    var s' := s.(table := TableWithKernel(s.table, kernel, category));
    var w, w' := s.World(), s'.World();
    TableWithKernelOk(s.table, kernel, category);
    if kernel.QuantKernel? {
      TreeWithin(s, kernel.bdd);
      assert w'.NestedAt(|s.table.kernels|);
      NodeOrderedLater(s, s'.table.orders, kernel.bdd);
    }
    WorldGrows(s, s');
    assert s'.CategorisedAt(|w.kernels|) by {
      PrefixKeeps(w, w');
      if kernel.QuantKernel? {
        DiagramKept(w, w', w.trees[kernel.bdd]);
        TreeContainsKernel(w, |w.kernels|, w.trees[kernel.bdd], 1);
        TreeContainsKernel(w', |w.kernels|, w.trees[kernel.bdd], 1);
        forall j | j in Kernels(w.trees[kernel.bdd]) ensures w'.KernelContains(j, 1) == w.KernelContains(j, 1) {
          KernelContainsKept(w, w', j, 1);
        }
      }
    }
    SameSorted(s, s');
  }

  lemma SameSorted(s: State, s': State)
    requires s.Ok() && s.graph == s'.graph && s.table.orders <= s'.table.orders && |s.table.orders| == |s.table.kernels|
    ensures s'.Sorted() <==> s.Sorted()
  {
    forall n | 2 <= n < |s.graph.nodes|
      ensures s.graph.SortedAt(s'.table.orders, n) <==> s.graph.SortedAt(s.table.orders, n)
    {
      InnerNode(s, n);
      RootKernel(s, s.graph.nodes[n].truebranch);
      RootKernel(s, s.graph.nodes[n].falsebranch);
      TreeWithin(s, s.graph.nodes[n].truebranch);
      TreeWithin(s, s.graph.nodes[n].falsebranch);
      forall d | d == s.graph.trees[s.graph.nodes[n].truebranch] || d == s.graph.trees[s.graph.nodes[n].falsebranch]
        ensures Within(d, |s.table.orders|) && (d.Branch? ==> d.kernel in Kernels(d))
      {
      }
    }
  }

  // ---------- the kernel that says a sort is not empty ----------

  /** The atom "index 0 is in the sort". */
  function SortAtom(sort: Sort): AtomKey {
    (SortPredicate(sort), AKT_TWOVALUED, [IndexTerm(sort, 0)])
  }

  /** The kernel "some element is in the sort", when the manager has it. */
  function SortKernel(s: State, sort: Sort): Option<KernelId> {
    if SortAtom(sort) !in s.table.atoms then None
    else if (s.table.atoms[SortAtom(sort)], FALSEBDD, TRUEBDD) !in s.unique then None
    else
      var b := s.unique[(s.table.atoms[SortAtom(sort)], FALSEBDD, TRUEBDD)];
      if (sort, b) in s.table.quants then Some(s.table.quants[(sort, b)]) else None
  }

  /** The kernels of a diagram that do not contain index 0. */
  function StandardKernels(order: Orders, d: Tree): set<KernelId> {
    set k | k in Kernels(d) && k < |order| && order[k].category.STANDARDCATEGORY?
  }

  /** Quantifying d keeps the state sorted: no sort kernel is needed, or it comes first or is still to be made. */
  ghost predicate SortKernelFirst(s: State, sort: Sort, d: Tree) {
    || sort.builtin
    || SortKernel(s, sort).None?
    || BeforeAll(s.table.orders, SortKernel(s, sort).value, StandardKernels(s.table.orders, d))
  }

  lemma SortKernelFacts(s: State, sort: Sort)
    requires s.Ok() && SortKernel(s, sort).Some?
    ensures var q := SortKernel(s, sort).value;
      && 2 <= q < |s.table.kernels| && s.table.kernels[q].QuantKernel? && s.table.kernels[q].sort == sort
      && s.table.kernels[q].bdd < |s.graph.trees|
      && s.table.orders[q].category.STANDARDCATEGORY?
      && s.table.atoms[SortAtom(sort)] < |s.table.kernels|
      && s.table.kernels[s.table.atoms[SortAtom(sort)]] == AtomKernel(SortPredicate(sort), AKT_TWOVALUED, [IndexTerm(sort, 0)])
      && s.graph.trees[s.table.kernels[q].bdd] == Branch(s.table.atoms[SortAtom(sort)], Leaf(true), Leaf(false))
  {
    var a := s.table.atoms[SortAtom(sort)];
    var b := s.unique[(a, FALSEBDD, TRUEBDD)];
    var q := SortKernel(s, sort).value;
    InnerNode(s, b);
    assert s.CategorisedAt(q) && s.World().NestedAt(q) && s.table.Placed(q);
    assert !s.World().KernelContains(a, 1);
    TreeContainsKernel(s.World(), q, s.graph.trees[b], 1);
  }

  /** Kernels made later get higher numbers, so a sort kernel made later comes before all present standard kernels. */
  lemma SortKernelStaysFirst(s: State, s': State, sort: Sort, d: Tree)
    requires s.Ok() && Grows(s, s') && Within(d, |s.table.kernels|) && SortKernelFirst(s, sort, d)
    ensures SortKernelFirst(s', sort, d)
  {
    if !sort.builtin && SortKernel(s', sort).Some? {
      SortKernelFacts(s', sort);
      var q := SortKernel(s', sort).value;
      var a := s'.table.atoms[SortAtom(sort)];
      if q < |s.table.kernels| {
        OldSortKernel(s, s', sort);
      } else {
        NewSortKernelFirst(s, s', sort, d);
      }
    }
  }

  lemma OldSortKernel(s: State, s': State, sort: Sort)
    requires s.Ok() && Grows(s, s') && SortKernel(s', sort).Some? && SortKernel(s', sort).value < |s.table.kernels|
    ensures SortKernel(s, sort) == SortKernel(s', sort)
  {
    SortKernelFacts(s', sort);
    var q := SortKernel(s', sort).value;
    var b := s.table.kernels[q].bdd;
    assert s.World().NestedAt(q) && s.table.Placed(q);
    assert s.graph.UnfoldsAt(b) && s.graph.IndexedAt(s.unique, b);
    TreesInjective(s.graph, s.unique, s.graph.nodes[b].truebranch, TRUEBDD);
    TreesInjective(s.graph, s.unique, s.graph.nodes[b].falsebranch, FALSEBDD);
    var a := s.graph.nodes[b].kernel;
    InnerNode(s, b);
    assert s.table.Placed(a);
  }

  lemma NewSortKernelFirst(s: State, s': State, sort: Sort, d: Tree)
    requires s.Ok() && Grows(s, s') && Within(d, |s.table.kernels|)
    requires SortKernel(s', sort).Some? && SortKernel(s', sort).value >= |s.table.kernels|
    ensures SortKernelFirst(s', sort, d)
  {
    hide SortKernel;
    SortKernelFacts(s', sort);
    var q := SortKernel(s', sort).value;
    forall j | j in StandardKernels(s'.table.orders, d) ensures s'.table.orders[q].Before(s'.table.orders[j]) { NewStandardFirst(s, s', q, j); }
  }

  lemma NewStandardFirst(s: State, s': State, q: KernelId, j: KernelId)
    requires s.Ok() && Grows(s, s') && j < |s.table.kernels| <= q < |s'.table.kernels|
    requires s'.table.orders[q].category.STANDARDCATEGORY? && s'.table.orders[j].category.STANDARDCATEGORY?
    ensures s'.table.orders[q].Before(s'.table.orders[j])
  {
    var order := s'.table.orders;
    assert j >= 2 ==> s.table.Placed(j);
    assert s.table.orders[j] == order[j];
    if order[q].number < s.table.next[STANDARDCATEGORY] {
      assert s.table.Numbered(order[q]);
      s'.table.Distinct();
    }
  }

  // ---------- meaning ----------

  /** A diagram without indices means the same under a binder. */
  lemma NoIndexIndependent(w: World, d: Tree, S: Structure, e: Env, x: DomainElement)
    requires w.Nested() && Within(d, |w.kernels|) && NoIndex(w, d)
    ensures w.Holds(d, S, e.Push(x)) == w.Holds(d, S, e)
  {
    TreeIndependent(w, d, S, e, e.Push(x));
  }

  /** Over a sort with elements a diagram without indices is its own quantification. */
  lemma VacuousBuiltin(w: World, d: Tree, sort: Sort)
    requires w.Nested() && Within(d, |w.kernels|) && NoIndex(w, d)
    requires sort.builtin && !sort.empty
    ensures IsQuantification(w, d, sort, d)
  {
    forall S: Structure, e: Env | S.RespectsBuiltin(sort) ensures w.Holds(d, S, e) <==> w.SomeElement(sort, d, S, e) {
      forall x { NoIndexIndependent(w, d, S, e, x); }
      var x :| x in S.universe(sort);
      assert w.Holds(d, S, e.Push(x)) == w.Holds(d, S, e);
    }
  }

  /** Over an empty built-in sort the code answers the negation: right where d holds, and only there. */
  lemma VacuousEmptyBuiltin(w: World, r: Tree, sort: Sort, d: Tree, S: Structure, e: Env)
    requires IsNegation(r, d) && EmptyBuiltin(sort) && S.RespectsBuiltin(sort)
    ensures (w.Holds(r, S, e) <==> w.SomeElement(sort, d, S, e)) <==> w.Holds(d, S, e)
  {
    assert Eval(r, w.Value(S, e)) == !Eval(d, w.Value(S, e));
  }

  lemma KernelsWithoutIndex(w: World, r: Tree, ks: set<KernelId>)
    requires Kernels(r) <= ks
    requires forall k, i: nat :: k in ks && k < |w.kernels| ==> !w.KernelContains(k, i)
    ensures NoIndex(w, r)
  {
    forall i: nat ensures !w.TreeContains(|w.kernels|, r, i) { TreeContainsKernel(w, |w.kernels|, r, i); }
  }

  lemma NoIndexKernels(w: World, d: Tree)
    requires NoIndex(w, d)
    ensures forall k, i: nat :: k in Kernels(d) && k < |w.kernels| ==> !w.KernelContains(k, i)
  {
    forall k, i: nat | k in Kernels(d) && k < |w.kernels| ensures !w.KernelContains(k, i) {
      TreeContainsKernel(w, |w.kernels|, d, i);
    }
  }

  /** Kernel q says that the sort is not empty. */
  ghost predicate SaysInhabited(w: World, q: KernelId, sort: Sort) {
    && q < |w.kernels| && (forall i: nat :: !w.KernelContains(q, i)) && KernelSorted(w, q)
    && forall S: Structure, e: Env :: w.KernelHolds(q, S, e) <==> S.universe(sort) != iset{}
  }

  lemma SortKernelSorted(s: State, sort: Sort)
    requires s.Ok() && SortKernel(s, sort).Some?
    ensures KernelSorted(s.World(), SortKernel(s, sort).value)
  {
    SortKernelFacts(s, sort);
    var w, q, a := s.World(), SortKernel(s, sort).value, s.table.atoms[SortAtom(sort)];
    assert Kernels(w.trees[w.kernels[q].bdd]) == {a};
    assert KernelOnlySort(w, a, 0, sort) && KernelSorted(w, a);
  }

  lemma SortKernelSaysInhabited(s: State, sort: Sort)
    requires s.Ok() && SortKernel(s, sort).Some?
    ensures SaysInhabited(s.World(), SortKernel(s, sort).value, sort)
  {
    SortKernelFacts(s, sort);
    var w, q, a := s.World(), SortKernel(s, sort).value, s.table.atoms[SortAtom(sort)];
    var d := w.trees[w.kernels[q].bdd];
    assert w.NestedAt(q);
    forall i: nat ensures !w.KernelContains(q, i) {
      assert !w.KernelContains(a, i + 1);
      TreeContainsKernel(w, q, d, i + 1);
    }
    SortKernelSorted(s, sort);
    forall S: Structure, e: Env ensures w.KernelHolds(q, S, e) <==> S.universe(sort) != iset{} {
      w.QuantKernelHolds(q, S, e);
      forall x ensures w.Holds(d, S, e.Push(x)) <==> x in S.universe(sort) {
        w.HoldsBranch(a, Leaf(true), Leaf(false), S, e.Push(x));
        assert ArgValues([IndexTerm(sort, 0)], S, e.Push(x)) == [x];
      }
    }
  }

  /** With the sort kernel in front, a diagram without indices is quantified over a possibly empty sort. */
  lemma VacuousUser(w: World, q: KernelId, d: Tree, sort: Sort)
    requires w.Nested() && Within(d, |w.kernels|) && NoIndex(w, d) && q >= 2 && SaysInhabited(w, q, sort)
    ensures IsQuantification(w, Make(q, d, Leaf(false)), sort, d)
  {
    var r := Make(q, d, Leaf(false));
    NoIndexKernels(w, d);
    KernelsWithoutIndex(w, r, {q} + Kernels(d));
    forall S: Structure, e: Env ensures w.Holds(r, S, e) <==> w.SomeElement(sort, d, S, e) {
      forall x ensures w.Holds(d, S, e.Push(x)) == w.Holds(d, S, e) { NoIndexIndependent(w, d, S, e, x); }
      w.HoldsBranch(q, d, Leaf(false), S, e);
      assert w.KernelHolds(q, S, e) <==> S.universe(sort) != iset{};
      if x :| x in S.universe(sort) {
        assert w.Holds(d, S, e.Push(x)) == w.Holds(d, S, e);
      }
    }
  }

  /** A kernel without index 0 may be pulled out of the quantifier. */
  lemma PulledOut(w: World, k: KernelId, t: Tree, f: Tree, nt: Tree, nf: Tree, r: Tree, sort: Sort)
    requires w.Nested() && 2 <= k < |w.kernels| && !w.KernelContains(k, 0) && OnlyIndexZero(w, Branch(k, t, f))
    requires IsQuantification(w, nt, sort, t) && IsQuantification(w, nf, sort, f) && IsIfThenElse(r, k, nt, nf)
    ensures IsQuantification(w, r, sort, Branch(k, t, f))
  {
    var d := Branch(k, t, f);
    forall i: nat ensures !w.KernelContains(k, i) {
      assert w.KernelContains(k, i) ==> w.TreeContains(|w.kernels|, d, i);
    }
    NoIndexKernels(w, nt);
    NoIndexKernels(w, nf);
    KernelsWithoutIndex(w, r, {k} + Kernels(nt) + Kernels(nf));
    forall S: Structure, e: Env | S.RespectsBuiltin(sort) ensures w.Holds(r, S, e) <==> w.SomeElement(sort, d, S, e) {
      PulledOutAt(w, k, t, f, nt, nf, r, sort, S, e);
    }
  }

  lemma PulledOutAt(w: World, k: KernelId, t: Tree, f: Tree, nt: Tree, nf: Tree, r: Tree, sort: Sort, S: Structure, e: Env)
    requires w.Nested() && 2 <= k < |w.kernels| && (forall i: nat :: !w.KernelContains(k, i)) && IsIfThenElse(r, k, nt, nf)
    requires w.Holds(nt, S, e) <==> w.SomeElement(sort, t, S, e)
    requires w.Holds(nf, S, e) <==> w.SomeElement(sort, f, S, e)
    ensures w.Holds(r, S, e) <==> w.SomeElement(sort, Branch(k, t, f), S, e)
  {
    BranchSomeElement(w, k, t, f, sort, S, e);
    assert w.Holds(r, S, e) == w.Holds(if w.KernelHolds(k, S, e) then nt else nf, S, e);
  }

  /** A kernel without indices decides between the branches for all elements at once. */
  lemma BranchSomeElement(w: World, k: KernelId, t: Tree, f: Tree, sort: Sort, S: Structure, e: Env)
    requires w.Nested() && 2 <= k < |w.kernels| && forall i: nat :: !w.KernelContains(k, i)
    ensures w.SomeElement(sort, Branch(k, t, f), S, e) <==> w.SomeElement(sort, if w.KernelHolds(k, S, e) then t else f, S, e)
  {
    forall x ensures w.Holds(Branch(k, t, f), S, e.Push(x)) == w.Holds(if w.KernelHolds(k, S, e) then t else f, S, e.Push(x)) {
      KernelIndependent(w, k, S, e, e.Push(x));
    }
  }

  lemma BranchesOnlyIndexZero(w: World, k: KernelId, t: Tree, f: Tree)
    requires OnlyIndexZero(w, Branch(k, t, f))
    ensures OnlyIndexZero(w, t) && OnlyIndexZero(w, f)
  {
    forall i: nat ensures w.TreeContains(|w.kernels|, t, i) || w.TreeContains(|w.kernels|, f, i) ==> w.TreeContains(|w.kernels|, Branch(k, t, f), i) {
    }
  }

  /** A diagram whose root contains index 0 goes under a quantified kernel of its own. */
  lemma UnderKernel(w: World, q: KernelId)
    requires w.Nested() && 2 <= q < |w.kernels| && w.kernels[q].QuantKernel? && w.kernels[q].bdd < |w.trees|
    requires OnlyIndexZero(w, w.trees[w.kernels[q].bdd])
    ensures IsQuantification(w, Branch(q, Leaf(true), Leaf(false)), w.kernels[q].sort, w.trees[w.kernels[q].bdd])
  {
    var r, d, sort := Branch(q, Leaf(true), Leaf(false)), w.trees[w.kernels[q].bdd], w.kernels[q].sort;
    assert w.NestedAt(q);
    forall i: nat ensures !w.KernelContains(q, i) {
      TreeContainsKernel(w, q, d, i + 1);
      TreeContainsKernel(w, |w.kernels|, d, i + 1);
    }
    KernelsWithoutIndex(w, r, {q});
    assert BodySorted(w, sort, d) ==> KernelSorted(w, q);
    forall S: Structure, e: Env ensures w.Holds(r, S, e) <==> w.SomeElement(sort, d, S, e) {
      w.HoldsBranch(q, Leaf(true), Leaf(false), S, e);
      w.QuantKernelHolds(q, S, e);
    }
  }

  // ---------- steps of quantify ----------

  /** The root of the diagram under the quantifier contains the index that is bound. */
  ghost predicate RootBound(s: State, k: KernelId) {
    && k < |s.table.kernels| && s.table.kernels[k].QuantKernel? && s.table.kernels[k].bdd < |s.graph.trees|
    && s.graph.trees[s.table.kernels[k].bdd].Branch? && s.World().KernelContains(s.graph.trees[s.table.kernels[k].bdd].kernel, 0)
  }

  /** Quantifiers have been pushed in: this holds of every quantified kernel made between the states. */
  ghost predicate PushedIn(s: State, s': State) {
    forall k :: |s.table.kernels| <= k < |s'.table.kernels| && s'.table.kernels[k].QuantKernel? ==> RootBound(s', k)
  }

  lemma PushedInLater(s: State, s': State, k: KernelId)
    requires s.Ok() && Grows(s, s') && RootBound(s, k)
    ensures RootBound(s', k)
  {
    PrefixKeeps(s.World(), s'.World());
    assert s.World().NestedAt(k);
    var d := s.graph.trees[s.table.kernels[k].bdd];
    assert d.kernel in Kernels(d);
    KernelContainsKept(s.World(), s'.World(), d.kernel, 0);
  }

  lemma PushedInTransitive(s: State, s1: State, s2: State)
    requires Grows(s, s1) && Grows(s1, s2) && PushedIn(s, s1) && PushedIn(s1, s2)
    ensures PushedIn(s, s2)
  {
    forall k | |s.table.kernels| <= k < |s2.table.kernels| && s2.table.kernels[k].QuantKernel? ensures RootBound(s2, k) {
      if k < |s1.table.kernels| { PushedInLater(s1, s2, k); }
    }
  }

  /** Nodes alone make no difference. */
  lemma PushedInExtends(s: State, s1: State, s2: State)
    requires Grows(s, s1) && PushedIn(s, s1) && Extends(s1, s2)
    ensures PushedIn(s, s2)
  {
    PushedInTransitive(s, s1, s2);
  }

  lemma PushedInRemembered(s: State, s1: State, s2: State)
    requires PushedIn(s, s1) && s2.table == s1.table && s2.graph == s1.graph
    ensures PushedIn(s, s2)
  {
    forall k | |s.table.kernels| <= k < |s2.table.kernels| && s2.table.kernels[k].QuantKernel? ensures RootBound(s2, k) {
      assert RootBound(s1, k);
    }
  }

  lemma PushedInSame(s: State, s': State)
    requires s'.table.kernels == s.table.kernels
    ensures PushedIn(s, s')
  {
  }

  /** A new quantified kernel over a node whose root contains index 0. */
  lemma PushedInOne(s: State, s': State, n: NodeId, q: KernelId)
    requires s.Ok() && Grows(s, s') && n < |s.graph.trees| && q < |s'.table.kernels|
    requires s.graph.trees[n].Branch? && s.World().KernelContains(s.graph.trees[n].kernel, 0)
    requires s'.table.kernels[q].QuantKernel? && s'.table.kernels[q].bdd == n
    requires |s.table.kernels| < |s'.table.kernels| ==> q == |s.table.kernels| && |s'.table.kernels| == q + 1
    ensures PushedIn(s, s')
  {
    PrefixKeeps(s.World(), s'.World());
    TreeWithin(s, n);
    assert s.graph.trees[n].kernel in Kernels(s.graph.trees[n]);
    KernelContainsKept(s.World(), s'.World(), s.graph.trees[n].kernel, 0);
  }

  lemma SortAtomContains(s: State, k: KernelId, sort: Sort)
    requires k < |s.table.kernels| && s.table.kernels[k] == AtomKernel(SortPredicate(sort), AKT_TWOVALUED, [IndexTerm(sort, 0)])
    ensures s.World().KernelContains(k, 0)
  {
    assert [IndexTerm(sort, 0)][0].ContainsIndex(0);
  }

  /** A kernel that is not of the standard category contains index 0. */
  lemma NotStandard(s: State, n: NodeId)
    requires s.Ok() && 2 <= n < |s.graph.nodes| && s.graph.nodes[n].kernel < |s.table.orders|
    requires !s.table.orders[s.graph.nodes[n].kernel].category.STANDARDCATEGORY?
    ensures s.graph.trees[n].Branch? && s.World().KernelContains(s.graph.trees[n].kernel, 0)
  {
    assert s.graph.UnfoldsAt(n);
    var k := s.graph.nodes[n].kernel;
    assert s.table.Placed(k) && s.CategorisedAt(k);
    assert s.table.Numbered(s.table.orders[k]);
  }

  /** What quantifying node b over a sort gives: node r of a later state. */
  ghost predicate Quantified(s: State, s': State, sort: Sort, b: NodeId, r: NodeId)
    requires s.Ok()
  {
    && Grows(s, s') && b < |s.graph.trees| && r < |s'.graph.trees|
    && (OnlyIndexZero(s.World(), s.graph.trees[b]) && !EmptyBuiltin(sort) ==>
          IsQuantification(s'.World(), s'.graph.trees[r], sort, s.graph.trees[b]))
    && (s.Sorted() && SortKernelFirst(s, sort, s.graph.trees[b]) ==> s'.Sorted())
  }

  lemma GrowsKeeps(s: State, s': State)
    requires Grows(s, s')
    ensures Keeps(s.World(), s'.World())
  {
    PrefixKeeps(s.World(), s'.World());
  }

  lemma SortKernelIs(s: State, sort: Sort, a: KernelId, b: NodeId, q: KernelId)
    requires s.Ok() && 2 <= a < |s.table.kernels| && b < |s.graph.nodes| && 2 <= q < |s.table.kernels|
    requires s.table.kernels[a] == AtomKernel(SortPredicate(sort), AKT_TWOVALUED, [IndexTerm(sort, 0)])
    requires s.graph.trees[b] == Branch(a, Leaf(true), Leaf(false)) && s.table.kernels[q] == QuantKernel(sort, b)
    ensures SortKernel(s, sort) == Some(q)
  {
    assert s.table.Placed(a) && s.table.Placed(q);
    assert b >= 2;
    assert s.graph.UnfoldsAt(b) && s.graph.IndexedAt(s.unique, b);
    TreesInjective(s.graph, s.unique, s.graph.nodes[b].truebranch, TRUEBDD);
    TreesInjective(s.graph, s.unique, s.graph.nodes[b].falsebranch, FALSEBDD);
  }

  /** The kernel for a sort, once made, remains that for the sort. */
  lemma SortKernelStays(s: State, s': State, sort: Sort)
    requires s.Ok() && Grows(s, s') && SortKernel(s, sort).Some?
    ensures SortKernel(s', sort) == SortKernel(s, sort)
  {
    SortKernelFacts(s, sort);
    var q := SortKernel(s, sort).value;
    assert s.table.Placed(q);
    SortKernelIs(s', sort, s.table.atoms[SortAtom(sort)], s.table.kernels[q].bdd, q);
  }

  /** A kernel made later than k in the same category precedes it. */
  lemma LaterKernelFirst(s: State, s': State, k: KernelId, j: KernelId)
    requires s.Ok() && Grows(s, s') && 2 <= k < |s.table.kernels| <= j < |s'.table.kernels|
    requires s'.table.orders[j].category == s.table.orders[k].category
    ensures s'.table.orders[j].Before(s'.table.orders[k])
  {
    assert s.table.Placed(k);
    if s'.table.orders[j].number < s.table.next[s.table.orders[k].category] {
      assert s.table.Numbered(s'.table.orders[j]);
      s'.table.Distinct();
    }
  }

  /** A terminal under a quantifier is taken for the kernel of its value: right for false, and for true
      exactly over sorts that have an element. */
  lemma TerminalQuantified(w: World, sort: Sort, S: Structure, e: Env)
    requires 2 <= |w.kernels| && w.kernels[TRUEKERNEL] == TrueKernel && w.kernels[FALSEKERNEL] == FalseKernel
    ensures w.KernelHolds(FALSEKERNEL, S, e) <==> w.SomeElement(sort, Leaf(false), S, e)
    ensures (w.KernelHolds(TRUEKERNEL, S, e) <==> w.SomeElement(sort, Leaf(true), S, e)) <==> S.universe(sort) != iset{}
  {
    if x :| x in S.universe(sort) {
      w.HoldsBranch(0, Leaf(true), Leaf(true), S, e.Push(x));
    }
  }

  lemma WithoutZeroNoIndex(w: World, d: Tree)
    requires !w.TreeContains(|w.kernels|, d, 0) && OnlyIndexZero(w, d)
    ensures NoIndex(w, d)
  {
  }

  /** The vacuous case over a user sort: the diagram goes under the sort kernel. */
  lemma QuantifiedUser(s: State, s1: State, s2: State, sort: Sort, b: NodeId, q: KernelId, r: NodeId)
    requires s.Ok() && Grows(s, s1) && Extends(s1, s2) && (s1.Sorted() <==> s.Sorted()) && !sort.builtin
    requires b < |s.graph.nodes| && r < |s2.graph.nodes| && SortKernel(s1, sort) == Some(q)
    requires !s.World().TreeContains(|s.table.kernels|, s.graph.trees[b], 0)
    requires s2.graph.trees[r] == Make(q, s.graph.trees[b], Leaf(false))
    requires s1.Sorted() && s1.Precedes(q, b, FALSEBDD) ==> s2.Sorted()
    ensures Quantified(s, s2, sort, b, r)
  {
    GrowsTransitive(s, s1, s2);
    if OnlyIndexZero(s.World(), s.graph.trees[b]) {
      QuantifiedUserMeaning(s, s1, s2, sort, b, q);
    }
    if s.Sorted() && SortKernelFirst(s, sort, s.graph.trees[b]) {
      QuantifiedUserOrder(s, s1, sort, b, q);
    }
  }

  lemma QuantifiedUserMeaning(s: State, s1: State, s2: State, sort: Sort, b: NodeId, q: KernelId)
    requires s.Ok() && Grows(s, s1) && Grows(s, s2) && Extends(s1, s2)
    requires b < |s.graph.nodes| && SortKernel(s1, sort) == Some(q)
    requires !s.World().TreeContains(|s.table.kernels|, s.graph.trees[b], 0) && OnlyIndexZero(s.World(), s.graph.trees[b])
    ensures IsQuantification(s2.World(), Make(q, s.graph.trees[b], Leaf(false)), sort, s.graph.trees[b])
  {
    var w, w1, w2, d := s.World(), s1.World(), s2.World(), s.graph.trees[b];
    TreeWithin(s, b);
    SortKernelFacts(s1, sort);
    WithoutZeroNoIndex(w, d);
    GrowsKeeps(s, s2);
    DiagramKept(w, w2, d);
    SortKernelSaysInhabited(s1, sort);
    PrefixKeeps(w1, w2);
    forall i: nat ensures !w2.KernelContains(q, i) { KernelContainsKept(w1, w2, q, i); }
    forall S: Structure, e: Env ensures w2.KernelHolds(q, S, e) <==> S.universe(sort) != iset{} { KernelKept(w1, w2, q, S, e); }
    VacuousUser(w2, q, d, sort);
  }

  lemma QuantifiedUserOrder(s: State, s1: State, sort: Sort, b: NodeId, q: KernelId)
    requires s.Ok() && Grows(s, s1) && !sort.builtin && b < |s.graph.nodes| && SortKernel(s1, sort) == Some(q)
    requires !s.World().TreeContains(|s.table.kernels|, s.graph.trees[b], 0) && SortKernelFirst(s, sort, s.graph.trees[b])
    ensures s1.Precedes(q, b, FALSEBDD)
  {
    var w, d := s.World(), s.graph.trees[b];
    TreeWithin(s, b);
    SortKernelStaysFirst(s, s1, sort, d);
    InnerKernels(s, b);
    forall k | k in Kernels(d) ensures k in StandardKernels(s1.table.orders, d) {
      TreeContainsKernel(w, |w.kernels|, d, 0);
      assert s.CategorisedAt(k) && s.table.Placed(k);
    }
    AboveTree(s1.table.orders, q, d, StandardKernels(s1.table.orders, d));
  }

  lemma {:induction false} InnerKernels(s: State, n: NodeId)
    requires s.Ok() && n < |s.graph.trees|
    ensures forall k :: k in Kernels(s.graph.trees[n]) ==> 2 <= k < |s.table.kernels|
    decreases s.graph.trees[n]
  {
    if n >= 2 {
      InnerNode(s, n);
      InnerKernels(s, s.graph.nodes[n].truebranch);
      InnerKernels(s, s.graph.nodes[n].falsebranch);
    }
  }

  /** The vacuous case over a built-in sort with elements, and the false diagram. */
  lemma QuantifiedSame(s: State, sort: Sort, b: NodeId)
    requires s.Ok() && b < |s.graph.nodes|
    requires b == FALSEBDD || (sort.builtin && !s.World().TreeContains(|s.table.kernels|, s.graph.trees[b], 0))
    requires b == FALSEBDD || !sort.empty
    ensures Quantified(s, s, sort, b, b)
  {
    TreeWithin(s, b);
    if OnlyIndexZero(s.World(), s.graph.trees[b]) && !EmptyBuiltin(sort) {
      if b == FALSEBDD {
        assert IsQuantification(s.World(), Leaf(false), sort, Leaf(false));
      } else {
        WithoutZeroNoIndex(s.World(), s.graph.trees[b]);
        VacuousBuiltin(s.World(), s.graph.trees[b], sort);
      }
    }
  }

  lemma QuantifiedUnder(s: State, s1: State, s2: State, sort: Sort, b: NodeId, q: KernelId, r: NodeId)
    requires s.Ok() && Grows(s, s1) && Extends(s1, s2) && (s2.Sorted() <==> s.Sorted())
    requires b < |s.graph.nodes| && r < |s2.graph.nodes| && 2 <= q < |s1.table.kernels|
    requires s1.table.kernels[q] == QuantKernel(sort, b)
    requires s2.graph.trees[r] == Branch(q, Leaf(true), Leaf(false))
    ensures Quantified(s, s2, sort, b, r)
  {
    GrowsTransitive(s, s1, s2);
    if OnlyIndexZero(s.World(), s.graph.trees[b]) && !EmptyBuiltin(sort) {
      GrowsKeeps(s, s2);
      TreeWithin(s, b);
      DiagramKept(s.World(), s2.World(), s.graph.trees[b]);
      UnderKernel(s2.World(), q);
    }
  }

  /** The root has no index 0: it is pulled out, and both branches are quantified. */
  lemma QuantifiedPulled(s: State, s1: State, s2: State, s3: State, sort: Sort, b: NodeId, nf: NodeId, nt: NodeId, r: NodeId)
    requires s.Ok() && 2 <= b < |s.graph.nodes|
    requires s.graph.nodes[b].kernel < |s.table.orders| && s.table.orders[s.graph.nodes[b].kernel].category.STANDARDCATEGORY?
    requires Quantified(s, s1, sort, s.graph.nodes[b].falsebranch, nf)
    requires Quantified(s1, s2, sort, s.graph.nodes[b].truebranch, nt)
    requires Extends(s2, s3) && r < |s3.graph.nodes| && (s3.Sorted() <==> s2.Sorted())
    requires nf < |s3.graph.trees| && nt < |s3.graph.trees|
    requires IsIfThenElse(s3.graph.trees[r], s.graph.nodes[b].kernel, s3.graph.trees[nt], s3.graph.trees[nf])
    ensures Quantified(s, s3, sort, b, r)
  {
    InnerNode(s, b);
    GrowsTransitive(s, s1, s2);
    GrowsTransitive(s1, s2, s3);
    GrowsTransitive(s, s1, s3);
    var t := s.graph.nodes[b].truebranch;
    TreeWithin(s, t);
    if OnlyIndexZero(s.World(), s.graph.trees[b]) && !EmptyBuiltin(sort) {
      BranchesOnlyIndexZero(s.World(), s.graph.nodes[b].kernel, s.graph.trees[t], s.graph.trees[s.graph.nodes[b].falsebranch]);
      GrowsKeeps(s, s1);
      DiagramKept(s.World(), s1.World(), s.graph.trees[t]);
      PulledOutLater(s, s1, s2, s3, sort, b, nf, nt, r);
    }
    if s.Sorted() && SortKernelFirst(s, sort, s.graph.trees[b]) {
      BranchesSortKernelFirst(s, sort, b);
      SortKernelStaysFirst(s, s1, sort, s.graph.trees[t]);
    }
  }

  lemma BranchesSortKernelFirst(s: State, sort: Sort, b: NodeId)
    requires s.Ok() && 2 <= b < |s.graph.nodes| && SortKernelFirst(s, sort, s.graph.trees[b])
    requires s.graph.nodes[b].truebranch < |s.graph.trees| && s.graph.nodes[b].falsebranch < |s.graph.trees|
    ensures SortKernelFirst(s, sort, s.graph.trees[s.graph.nodes[b].truebranch])
    ensures SortKernelFirst(s, sort, s.graph.trees[s.graph.nodes[b].falsebranch])
  {
    InnerNode(s, b);
  }

  lemma PulledOutLater(s: State, s1: State, s2: State, s3: State, sort: Sort, b: NodeId, nf: NodeId, nt: NodeId, r: NodeId)
    requires s.Ok() && 2 <= b < |s.graph.nodes| && s.graph.UnfoldsAt(b)
    requires s.graph.nodes[b].kernel < |s.table.orders| && s.table.orders[s.graph.nodes[b].kernel].category.STANDARDCATEGORY?
    requires Grows(s, s1) && Grows(s1, s2) && Grows(s, s3) && Grows(s1, s3) && Grows(s2, s3)
    requires nf < |s1.graph.trees| && nt < |s2.graph.trees| && r < |s3.graph.trees|
    requires IsQuantification(s1.World(), s1.graph.trees[nf], sort, s.graph.trees[s.graph.nodes[b].falsebranch])
    requires IsQuantification(s2.World(), s2.graph.trees[nt], sort, s.graph.trees[s.graph.nodes[b].truebranch])
    requires OnlyIndexZero(s.World(), s.graph.trees[b])
    requires IsIfThenElse(s3.graph.trees[r], s.graph.nodes[b].kernel, s3.graph.trees[nt], s3.graph.trees[nf])
    ensures IsQuantification(s3.World(), s3.graph.trees[r], sort, s.graph.trees[b])
  {
    InnerNode(s, b);
    var x := s.graph.nodes[b];
    var k, t, f := x.kernel, s.graph.trees[x.truebranch], s.graph.trees[x.falsebranch];
    TreeWithin(s, b);
    TreeWithin(s, x.truebranch);
    TreeWithin(s, x.falsebranch);
    TreeWithin(s1, nf);
    TreeWithin(s2, nt);
    GrowsKeeps(s, s3);
    GrowsKeeps(s1, s3);
    GrowsKeeps(s2, s3);
    assert s.CategorisedAt(k);
    KernelContainsKept(s.World(), s3.World(), k, 0);
    DiagramKept(s.World(), s3.World(), s.graph.trees[b]);
    QuantificationKept(s1.World(), s3.World(), s1.graph.trees[nf], sort, f);
    QuantificationKept(s2.World(), s3.World(), s2.graph.trees[nt], sort, t);
    PulledOut(s3.World(), k, t, f, s3.graph.trees[nt], s3.graph.trees[nf], s3.graph.trees[r], sort);
  }

  ghost function RememberQuant(s: State, sort: Sort, b: NodeId, r: NodeId): State {
    s.(memo := s.memo.(quant := s.memo.quant[(sort, b) := r]))
  }

  lemma QuantRemembered(s: State, s1: State, sort: Sort, b: NodeId, r: NodeId)
    requires s.Ok() && Quantified(s, s1, sort, b, r)
    ensures Quantified(s, RememberQuant(s1, sort, b, r), sort, b, r)
  {
    TreeWithin(s, b);
    GrowsKeeps(s, s1);
    DiagramKept(s.World(), s1.World(), s.graph.trees[b]);
    StateWithQuant(s1, sort, b, r);
    GrowsTransitive(s, s1, RememberQuant(s1, sort, b, r));
  }

  lemma StateWithQuant(s: State, sort: Sort, b: NodeId, r: NodeId)
    requires s.Ok() && b < |s.graph.trees| && r < |s.graph.trees|
    requires OnlyIndexZero(s.World(), s.graph.trees[b]) && !EmptyBuiltin(sort) ==> IsQuantification(s.World(), s.graph.trees[r], sort, s.graph.trees[b])
    ensures Grows(s, RememberQuant(s, sort, b, r))
  {
    var s' := RememberQuant(s, sort, b, r);
    forall p | p in s'.memo.quant ensures s'.memo.QuantOk(s.World(), p) {
      if p != (sort, b) { assert s.memo.QuantOk(s.World(), p); }
    }
    WorldGrows(s, s');
  }

  lemma QuantLookedUp(s: State, sort: Sort, b: NodeId)
    requires s.Ok() && b < |s.graph.nodes| && (sort, b) in s.memo.quant
    ensures Quantified(s, s, sort, b, s.memo.quant[(sort, b)])
  {
    assert s.memo.QuantOk(s.World(), (sort, b));
  }
}
