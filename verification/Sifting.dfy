/** Moving one kernel through its category: where it ends up, and what each place costs. */
module Sifting {
  import opened KernelOrders
  import opened Diagrams
  import opened Syntax
  import opened Semantics
  import opened Store
  import opened ManagerState
  import opened SwapTrees
  import opened Moves
  import opened Wrappers
  import opened Quantification

  /** The number kernel number m gets when the kernel numbered from is taken out and put back as number to. */
  function Renumber(m: nat, from: nat, to: nat): nat {
    if m == from then to
    else
      var r := if m < from then m else m - 1;
      if r < to then r else r + 1
  }

  /** The order in which kernel k has number n in its category and all other kernels keep their relative order. */
  function OrdersAt(o: Orders, k: KernelId, n: nat): (r: Orders)
    requires k < |o|
    ensures |r| == |o|
  {
    seq(|o|, j requires 0 <= j < |o| =>
      if o[j].category == o[k].category then KernelOrder(o[j].category, Renumber(o[j].number, o[k].number, n)) else o[j])
  }

  /** Kernels other than k stay in their relative order, and k is where it was put. */
  lemma OrdersAtKeepsOthers(o: Orders, k: KernelId, n: nat, i: KernelId, j: KernelId)
    requires DistinctOrders(o) && k < |o| && i < |o| && j < |o| && i != k && j != k
    ensures OrdersAt(o, k, n)[i].Before(OrdersAt(o, k, n)[j]) <==> o[i].Before(o[j])
    ensures OrdersAt(o, k, n)[k] == KernelOrder(o[k].category, n)
    ensures OrdersAt(o, k, n)[i].category == o[i].category
  {
  }

  lemma OrdersAtStart(o: Orders, k: KernelId)
    requires DistinctOrders(o) && k < |o|
    ensures OrdersAt(o, k, o[k].number) == o
  {
  }

  /** One exchange of k with its neighbour is one step of the number. */
  lemma OrdersAtStep(o: Orders, k: KernelId, n: nat, j: KernelId)
    requires DistinctOrders(o) && k < |o| && j < |o|
    requires Neighbours(OrdersAt(o, k, n + 1), k, j) || Neighbours(OrdersAt(o, k, n), j, k)
    ensures Exchanged(OrdersAt(o, k, n + 1), k, j) == OrdersAt(o, k, n)
    ensures Exchanged(OrdersAt(o, k, n), j, k) == OrdersAt(o, k, n + 1)
  {
    assert forall i :: 0 <= i < |o| && i != k && i != j ==> o[i] != o[j] && o[i] != o[k];
  }

  /** The diagram equivalent to d that is ordered and reduced for the given order. */
  ghost predicate IsReordering(order: Orders, d: Tree, r: Tree) {
    Ordered(order, r) && Reduced(r) && Equivalent(r, d)
  }

  ghost function Reordered(order: Orders, d: Tree): Tree {
    if exists r :: IsReordering(order, d, r) then var r :| IsReordering(order, d, r); r else d
  }

  lemma ReorderedIs(order: Orders, d: Tree, r: Tree)
    requires DistinctOrders(order) && IsReordering(order, d, r)
    ensures Reordered(order, d) == r
  {
    var r' := Reordered(order, d);
    assert IsReordering(order, d, r');
    forall v: Valuation ensures Eval(r, v) == Eval(r', v) { assert Eval(r, v) == Eval(d, v) == Eval(r', v); }
    Canonical(order, r, r');
  }

  /** The diagrams under the quantifiers, kernel by kernel. */
  ghost function Bodies(s: State): (r: seq<Option<Tree>>)
    requires s.Ok()
    ensures |r| == |s.table.kernels|
  {
    seq(|s.table.kernels|, k requires 0 <= k < |s.table.kernels| =>
      if s.table.kernels[k].QuantKernel? then
        assert s.World().NestedAt(k);
        Some(s.graph.trees[s.table.kernels[k].bdd])
      else None)
  }

  /** A cost depends on the structure of the query and of the diagrams nested in its kernels. */
  type Cost = (Tree, seq<Option<Tree>>) -> real

  /** What the manager computes for a query: the nodes and kernels are all it looks at. */
  type CostEstimate = (seq<FOBDD>, KernelTable, NodeId) -> real

  ghost predicate Estimates(estimate: CostEstimate, cost: Cost) {
    forall s: State, q: NodeId :: s.Ok() && q < |s.graph.trees| ==>
      estimate(s.graph.nodes, s.table, q) == cost(s.graph.trees[q], Bodies(s))
  }

  /** The state s' has the same kernels and the nodes of s with their meaning. */
  ghost predicate SameMeaning(s: State, s': State) {
    && s'.table.kernels == s.table.kernels && s'.table.next == s.table.next
    && |s'.table.orders| == |s.table.orders|
    && |s.graph.trees| <= |s'.graph.trees|
    && (forall n :: 0 <= n < |s.graph.trees| ==> Equivalent(s'.graph.trees[n], s.graph.trees[n]))
  }

  lemma SameMeaningTransitive(s: State, s': State, s'': State)
    requires SameMeaning(s, s') && SameMeaning(s', s'')
    ensures SameMeaning(s, s'')
  {
    forall n | 0 <= n < |s.graph.trees| ensures Equivalent(s''.graph.trees[n], s.graph.trees[n]) {
      assert Equivalent(s'.graph.trees[n], s.graph.trees[n]) && Equivalent(s''.graph.trees[n], s'.graph.trees[n]);
      forall v: Valuation ensures Eval(s''.graph.trees[n], v) == Eval(s.graph.trees[n], v) {
        assert Eval(s''.graph.trees[n], v) == Eval(s'.graph.trees[n], v);
      }
    }
  }

  /** Sorted managers with the same meaning mention the same kernels in each node. */
  lemma SameMeaningKeeps(s: State, s': State)
    requires s.Ok() && s'.Ok() && s.Sorted() && s'.Sorted() && SameMeaning(s, s')
    ensures Keeps(s.World(), s'.World())
  {
    s.table.Distinct();
    s'.table.Distinct();
    forall n | 0 <= n < |s.graph.trees| ensures Kernels(s'.graph.trees[n]) == Kernels(s.graph.trees[n]) {
      TreesOrdered(s.graph, s.table.orders, n);
      TreesOrdered(s'.graph, s'.table.orders, n);
      TreesReduced(s.graph, s.unique, n);
      TreesReduced(s'.graph, s'.unique, n);
      assert Equivalent(s'.graph.trees[n], s.graph.trees[n]);
      EquivalentKernels(s'.table.orders, s'.graph.trees[n], s.table.orders, s.graph.trees[n]);
    }
  }

  lemma ExchangeKeepsMeaning(s: State, s': State, upper: KernelId, lower: KernelId)
    requires s.Ok() && ExchangedState(s, s', upper, lower) && Neighbours(s.table.orders, upper, lower)
    ensures SameMeaning(s, s')
  {
    forall n | 0 <= n < |s.graph.trees| ensures Equivalent(s'.graph.trees[n], s.graph.trees[n]) {
      forall v: Valuation { SwapKeepsMeaning(upper, lower, s.graph.trees[n], v); }
    }
  }

  /** The cost of query q when kernel k has number n in its category. */
  ghost function CostAt(s: State, cost: Cost, q: NodeId, k: KernelId, n: nat): real
    requires s.Ok() && q < |s.graph.trees| && k < |s.table.orders|
  {
    var order := OrdersAt(s.table.orders, k, n);
    var bodies := Bodies(s);
    cost(Reordered(order, s.graph.trees[q]),
         seq(|bodies|, j requires 0 <= j < |bodies| => if bodies[j].None? then None else Some(Reordered(order, bodies[j].value))))
  }

  /** State s' is s with kernel k moved to some number of its category. */
  ghost predicate Sifted(s: State, s': State, k: KernelId) {
    && s'.Ok() && s'.Sorted() && SameMeaning(s, s')
    && k < |s.table.orders|
    && s'.table.orders == OrdersAt(s.table.orders, k, s'.table.orders[k].number)
  }

  /** Canonicity: however k got to its place, the diagrams are those of that order,
      so the estimate is the cost of the place. */
  lemma EstimateIsCostAt(s: State, s': State, estimate: CostEstimate, cost: Cost, q: NodeId, k: KernelId)
    requires s.Ok() && Sifted(s, s', k) && Estimates(estimate, cost) && q < |s.graph.trees|
    ensures estimate(s'.graph.nodes, s'.table, q) == CostAt(s, cost, q, k, s'.table.orders[k].number)
  {
    var order := s'.table.orders;
    s'.table.Distinct();
    forall n | 0 <= n < |s.graph.trees| ensures Reordered(order, s.graph.trees[n]) == s'.graph.trees[n] {
      TreesOrdered(s'.graph, order, n);
      TreesReduced(s'.graph, s'.unique, n);
      assert Equivalent(s'.graph.trees[n], s.graph.trees[n]);
      ReorderedIs(order, s.graph.trees[n], s'.graph.trees[n]);
    }
    var bodies := Bodies(s);
    var bodies' := seq(|bodies|, j requires 0 <= j < |bodies| => if bodies[j].None? then None else Some(Reordered(order, bodies[j].value)));
    forall j | 0 <= j < |bodies| ensures bodies'[j] == Bodies(s')[j] {
      if s.table.kernels[j].QuantKernel? { assert s.World().NestedAt(j); }
    }
    assert bodies' == Bodies(s');
  }

  lemma SameCategory(s: State, s1: State, s2: State, k: KernelId)
    requires s.Ok() && Sifted(s, s1, k) && Sifted(s, s2, k)
    ensures s2.table.orders[k].category == s1.table.orders[k].category && s2.table.next == s1.table.next
  {
  }

  lemma SiftStart(s: State, k: KernelId)
    requires s.Ok() && s.Sorted() && k < |s.table.kernels|
    ensures Sifted(s, s, k)
  {
    s.table.Distinct();
    OrdersAtStart(s.table.orders, k);
  }

  /** Exchanging k with the kernel above or below changes its number by one and keeps the rest. */
  lemma SiftStep(s: State, s': State, s'': State, k: KernelId, upper: KernelId, lower: KernelId)
    requires s.Ok() && Sifted(s, s', k) && ExchangedState(s', s'', upper, lower) && Neighbours(s'.table.orders, upper, lower)
    requires k == upper || k == lower
    ensures Sifted(s, s'', k)
    ensures s''.table.orders[k].number == if k == upper then s'.table.orders[k].number - 1 else s'.table.orders[k].number + 1
  {
    s.table.Distinct();
    ExchangeKeepsMeaning(s', s'', upper, lower);
    SameMeaningTransitive(s, s', s'');
    var n := s'.table.orders[k].number;
    if k == upper {
      OrdersAtStep(s.table.orders, k, n - 1, lower);
    } else {
      OrdersAtStep(s.table.orders, k, n, upper);
    }
  }

  /** The first kernel of a category has the last number handed out, the last one has number 0. */
  lemma EndsOfCategory(table: KernelTable, k: KernelId)
    requires table.Ok() && 2 <= k < |table.kernels|
    ensures table.orders[k].category in table.next && table.orders[k].number < table.next[table.orders[k].category]
    ensures AboveOf(table, k).None? <==> table.orders[k].number + 1 == table.next[table.orders[k].category]
    ensures BelowOf(table, k).None? <==> table.orders[k].number == 0
  {
    assert table.Placed(k);
  }

  /** The cost of every place of kernel k. */
  ghost predicate CostsOf(costs: nat -> real, s: State, cost: Cost, q: NodeId, k: KernelId)
    requires s.Ok() && q < |s.graph.trees| && k < |s.table.orders|
  {
    forall n: nat {:trigger CostAt(s, cost, q, k, n)} :: costs(n) == CostAt(s, cost, q, k, n)
  }

  /** Number n is the first place of minimal cost, seen from the root, among the numbers from m up to top. */
  ghost predicate FirstCheapest(costs: nat -> real, n: nat, m: nat, top: nat) {
    && m <= n <= top
    && (forall i: nat :: m <= i <= top ==> costs(i) >= costs(n))
    && (forall i: nat :: n < i <= top ==> costs(i) > costs(n))
  }

  lemma FirstCheapestStep(costs: nat -> real, n: nat, m: nat, top: nat)
    requires FirstCheapest(costs, n, m, top) && m > 0
    ensures FirstCheapest(costs, if costs(m - 1) < costs(n) then m - 1 else n, m - 1, top)
  {
  }

  // ---------- a round for every kernel ----------

  lemma {:induction false} MentionedKernels(s: State, bound: nat, n: NodeId, j: KernelId)
    requires s.Ok() && n < |s.graph.nodes| && Mentions(s.World(), bound, s.graph.trees[n], j)
    ensures 2 <= j < |s.table.kernels|
    decreases bound
  {
    InnerKernels(s, n);
    var w := s.World();
    if j !in Kernels(s.graph.trees[n]) {
      var k :| k in Kernels(s.graph.trees[n]) && MentionsInside(w, bound, k, j);
      MentionedKernels(s, k, w.kernels[k].bdd, j);
    }
  }

  /** One round puts kernel k at the first place of minimal cost and leaves everything else as it was. */
  ghost predicate Round(s: State, s': State, cost: Cost, q: NodeId, k: KernelId) {
    && s.Ok() && q < |s.graph.trees| && Sifted(s, s', k)
    && s'.table.orders[k].category in s.table.next && s.table.next[s'.table.orders[k].category] > 0
    && FirstCheapest((n: nat) => CostAt(s, cost, q, k, n), s'.table.orders[k].number, 0, s.table.next[s'.table.orders[k].category] - 1)
  }

  /** A round does not make the query dearer. */
  lemma RoundNotDearer(s: State, s': State, estimate: CostEstimate, cost: Cost, q: NodeId, k: KernelId)
    requires Round(s, s', cost, q, k) && s.Sorted() && 2 <= k < |s.table.kernels| && Estimates(estimate, cost)
    ensures estimate(s'.graph.nodes, s'.table, q) <= estimate(s.graph.nodes, s.table, q)
  {
    SiftStart(s, k);
    EstimateIsCostAt(s, s, estimate, cost, q, k);
    EstimateIsCostAt(s, s', estimate, cost, q, k);
    EndsOfCategory(s.table, k);
    var costs := (n: nat) => CostAt(s, cost, q, k, n);
    assert costs(s.table.orders[k].number) >= costs(s'.table.orders[k].number);
  }

  /** The states between rounds for the given kernels. */
  ghost predicate Rounds(s: State, s': State, cost: Cost, q: NodeId, states: seq<State>, kernels: seq<KernelId>) {
    && |states| == |kernels| + 1 && states[0] == s && states[|kernels|] == s'
    && forall i :: 0 <= i < |kernels| ==> Round(states[i], states[i + 1], cost, q, kernels[i])
  }

  lemma RoundsStep(s: State, s': State, s'': State, cost: Cost, q: NodeId, states: seq<State>, kernels: seq<KernelId>, k: KernelId)
    requires Rounds(s, s', cost, q, states, kernels) && Round(s', s'', cost, q, k)
    ensures Rounds(s, s'', cost, q, states + [s''], kernels + [k])
  {
  }
}
