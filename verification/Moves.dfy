/** Exchanging two neighbouring kernels in the store: nodes are changed behind their
    pointers while new nodes and new table entries are made (FoBddManager.cpp, moveDown). */
module Moves {
  import opened KernelOrders
  import opened Diagrams
  import opened Syntax
  import opened Semantics
  import opened Store
  import opened ManagerState
  import opened SwapTrees
  import opened Wrappers

  /** The simplifying constructor on the bare store: nodes, unique table and resulting node. */
  function GetNode(nodes: seq<FOBDD>, unique: map<BddKey, NodeId>, k: KernelId, t: NodeId, f: NodeId)
    : (seq<FOBDD>, map<BddKey, NodeId>, NodeId)
  {
    if k == TRUEKERNEL then (nodes, unique, t)
    else if k == FALSEKERNEL then (nodes, unique, f)
    else if f == t then (nodes, unique, f)
    else if (k, f, t) in unique then (nodes, unique, unique[(k, f, t)])
    else (nodes + [FOBDD(k, t, f)], unique[(k, f, t) := |nodes|], |nodes|)
  }

  /** The two kernels change places in the order. */
  ghost function ExchangedTable(table: KernelTable, upper: KernelId, lower: KernelId): KernelTable
    requires upper < |table.orders| && lower < |table.orders|
  {
    var o := table.orders;
    table.(orders := Exchanged(o, upper, lower), place := table.place[o[upper] := lower][o[lower] := upper])
  }

  /** An exchange under way: the state it started from and the two kernels. */
  datatype Move = Move(before: State, upper: KernelId, lower: KernelId)
  {
    ghost predicate Ok() {
      && before.Ok() && before.Sorted()
      && Neighbours(before.table.orders, upper, lower)
      && |before.table.orders| == |before.table.kernels|
    }

    predicate Old(n: NodeId) {
      n < |before.graph.nodes|
    }

    /** The node lies strictly below both kernels. */
    ghost predicate LowNode(n: NodeId) {
      n < |before.graph.trees| && Old(n) && Low(before.table.orders, upper, lower, before.graph.trees[n])
    }

    predicate HasLower(n: NodeId) {
      Old(n) && before.graph.nodes[n].kernel == lower
    }

    /** The node tests upper and has lower directly below: it must be turned around. */
    predicate Turns(n: NodeId) {
      && 2 <= n && Old(n) && before.graph.nodes[n].kernel == upper
      && (HasLower(before.graph.nodes[n].truebranch) || HasLower(before.graph.nodes[n].falsebranch))
    }

    /** The branch of a node when lower is known. */
    function Part(n: NodeId, b: bool): NodeId
      requires Old(n)
    {
      if !HasLower(n) then n else if b then before.graph.nodes[n].truebranch else before.graph.nodes[n].falsebranch
    }

    /** m is what the constructor gives for upper over two low nodes. */
    ghost predicate Made(nodes: seq<FOBDD>, m: NodeId, t: NodeId, f: NodeId) {
      && LowNode(t) && LowNode(f)
      && if t == f then m == t else 2 <= m < |nodes| && nodes[m] == FOBDD(upper, t, f)
    }

    ghost predicate TurnedAt(nodes: seq<FOBDD>, n: NodeId)
      requires Turns(n)
    {
      var t, f := before.graph.nodes[n].truebranch, before.graph.nodes[n].falsebranch;
      && n < |nodes| && Old(t) && Old(f) && nodes[n].kernel == lower
      && Made(nodes, nodes[n].truebranch, Part(t, true), Part(f, true))
      && Made(nodes, nodes[n].falsebranch, Part(t, false), Part(f, false))
    }

    ghost predicate FreshAt(nodes: seq<FOBDD>, n: NodeId)
      requires n < |nodes|
    {
      nodes[n].kernel == upper && Made(nodes, n, nodes[n].truebranch, nodes[n].falsebranch) &&
      nodes[n].truebranch != nodes[n].falsebranch
    }

    predicate CurrentKey(nodes: seq<FOBDD>, unique: map<BddKey, NodeId>, key: BddKey)
      requires key in unique
    {
      2 <= unique[key] < |nodes| && KeyOf(nodes[unique[key]]) == key
    }

    /** The key a turned node had before; it is erased at the end. */
    predicate StaleKey(done: set<NodeId>, unique: map<BddKey, NodeId>, key: BddKey)
      requires key in unique
    {
      unique[key] in done && Old(unique[key]) && KeyOf(before.graph.nodes[unique[key]]) == key
    }

    /** Half way: the nodes of done are turned, all others are as before. */
    ghost predicate Inv(done: set<NodeId>, nodes: seq<FOBDD>, unique: map<BddKey, NodeId>) {
      && |before.graph.nodes| <= |nodes|
      && (forall n :: 0 <= n < |before.graph.nodes| && n !in done ==> nodes[n] == before.graph.nodes[n])
      && (forall n :: n in done ==> Turns(n) && TurnedAt(nodes, n))
      && (forall n :: |before.graph.nodes| <= n < |nodes| ==> FreshAt(nodes, n))
      && (forall n :: 2 <= n < |nodes| ==> Graph(nodes, []).IndexedAt(unique, n))
      && (forall key :: key in unique ==> CurrentKey(nodes, unique, key) || StaleKey(done, unique, key))
    }

    // ---------- facts about the starting state ----------

    lemma NodeFacts(n: NodeId)
      requires Ok() && 2 <= n && Old(n)
      ensures var x := before.graph.nodes[n];
        && 2 <= x.kernel < |before.table.orders| && Old(x.truebranch) && Old(x.falsebranch) && x.truebranch != x.falsebranch
        && before.graph.trees[n] == Branch(x.kernel, before.graph.trees[x.truebranch], before.graph.trees[x.falsebranch])
        && Ordered(before.table.orders, before.graph.trees[n]) && Reduced(before.graph.trees[n])
      ensures DistinctOrders(before.table.orders)
    {
      assert before.graph.UnfoldsAt(n);
      before.table.Distinct();
      TreesOrdered(before.graph, before.table.orders, n);
      TreesReduced(before.graph, before.unique, n);
    }

    /** HasLower is a property of the tree, and so are the parts. */
    lemma PartTree(n: NodeId, b: bool)
      requires Ok() && Old(n)
      ensures HasLower(n) <==> RootIs(before.graph.trees[n], lower)
      ensures Old(Part(n, b)) && before.graph.trees[Part(n, b)] == Cofactor(before.graph.trees[n], lower, b)
    {
      if n >= 2 { NodeFacts(n); }
    }

    /** A branch of an upper node, and its parts. */
    lemma UpperBranch(n: NodeId, c: NodeId)
      requires Ok() && 2 <= n && Old(n) && before.graph.nodes[n].kernel == upper
      requires c == before.graph.nodes[n].truebranch || c == before.graph.nodes[n].falsebranch
      ensures Old(c) && c != n && before.graph.nodes[c].kernel != upper
      ensures forall b: bool :: LowNode(Part(c, b))
      ensures !HasLower(c) ==> LowNode(c)
    {
      NodeFacts(n);
      BelowUpper(before.table.orders, upper, lower, before.graph.trees[c]);
      PartTree(c, true);
      PartTree(c, false);
      if c >= 2 {
        NodeFacts(c);
        KernelsBelow(before.table.orders, upper, before.graph.trees[c]);
      }
    }

    lemma LowFacts(n: NodeId)
      requires Ok() && LowNode(n)
      ensures before.graph.nodes[n].kernel != upper && before.graph.nodes[n].kernel != lower && !Turns(n)
    {
      if n >= 2 { NodeFacts(n); }
    }

    // ---------- steps ----------

    lemma MadeIsNotTurning(done: set<NodeId>, nodes: seq<FOBDD>, unique: map<BddKey, NodeId>, n: NodeId, m: NodeId, t: NodeId, f: NodeId)
      requires Ok() && Inv(done, nodes, unique) && Turns(n) && n !in done && Made(nodes, m, t, f)
      ensures m != n
    {
      LowFacts(t);
      LowFacts(f);
      UpperBranch(n, before.graph.nodes[n].truebranch);
      UpperBranch(n, before.graph.nodes[n].falsebranch);
    }

    /** The constructor keeps the half-way invariant. */
    lemma GetNodeKeepsInv(done: set<NodeId>, nodes: seq<FOBDD>, unique: map<BddKey, NodeId>, t: NodeId, f: NodeId)
      requires Ok() && Inv(done, nodes, unique) && LowNode(t) && LowNode(f)
      ensures var (nodes', unique', m) := GetNode(nodes, unique, upper, t, f);
        && Inv(done, nodes', unique') && Made(nodes', m, t, f) && nodes <= nodes'
    {
      LowFacts(t);
      LowFacts(f);
      if t != f {
        if (upper, f, t) in unique {
          assert unique[(upper, f, t)] in done ==> Turns(unique[(upper, f, t)]);
        } else {
          NewNodeKeepsInv(done, nodes, unique, t, f);
        }
      }
    }

    lemma NewNodeKeepsInv(done: set<NodeId>, nodes: seq<FOBDD>, unique: map<BddKey, NodeId>, t: NodeId, f: NodeId)
      requires Ok() && Inv(done, nodes, unique) && LowNode(t) && LowNode(f) && t != f && (upper, f, t) !in unique
      ensures var (nodes', unique', m) := GetNode(nodes, unique, upper, t, f);
        && Inv(done, nodes', unique') && Made(nodes', m, t, f) && nodes <= nodes'
    {
      LowFacts(t);
      LowFacts(f);
      var (nodes', unique', m) := GetNode(nodes, unique, upper, t, f);
      NewNodeIndexed(nodes, unique, t, f);
      NewNodeKeys(done, nodes, unique, t, f);
      forall n | n in done ensures TurnedAt(nodes', n) { assert TurnedAt(nodes, n); }
      forall n | |before.graph.nodes| <= n < |nodes'| ensures FreshAt(nodes', n) {
        if n < |nodes| { assert FreshAt(nodes, n); }
      }
    }

    lemma NewNodeIndexed(nodes: seq<FOBDD>, unique: map<BddKey, NodeId>, t: NodeId, f: NodeId)
      requires t != f && (upper, f, t) !in unique && 2 <= |nodes|
      requires forall n :: 2 <= n < |nodes| ==> Graph(nodes, []).IndexedAt(unique, n)
      ensures var (nodes', unique', _) := GetNode(nodes, unique, upper, t, f);
        forall n :: 2 <= n < |nodes'| ==> Graph(nodes', []).IndexedAt(unique', n)
    {
      var (nodes', unique', m) := GetNode(nodes, unique, upper, t, f);
      forall n | 2 <= n < |nodes'| ensures Graph(nodes', []).IndexedAt(unique', n) {
        if n < |nodes| { assert Graph(nodes, []).IndexedAt(unique, n); }
      }
    }

    lemma NewNodeKeys(done: set<NodeId>, nodes: seq<FOBDD>, unique: map<BddKey, NodeId>, t: NodeId, f: NodeId)
      requires t != f && (upper, f, t) !in unique && 2 <= |nodes|
      requires forall k :: k in unique ==> CurrentKey(nodes, unique, k) || StaleKey(done, unique, k)
      ensures var (nodes', unique', _) := GetNode(nodes, unique, upper, t, f);
        forall k :: k in unique' ==> CurrentKey(nodes', unique', k) || StaleKey(done, unique', k)
    {
      var (nodes', unique', m) := GetNode(nodes, unique, upper, t, f);
      forall k | k in unique' ensures CurrentKey(nodes', unique', k) || StaleKey(done, unique', k) {
        if k != (upper, f, t) { assert CurrentKey(nodes, unique, k) || StaleKey(done, unique, k); }
      }
    }

    /** The constructed node determines what it was made of. */
    lemma MadeInjective(done: set<NodeId>, nodes: seq<FOBDD>, unique: map<BddKey, NodeId>, m: NodeId,
                        t: NodeId, f: NodeId, t': NodeId, f': NodeId)
      requires Ok() && Inv(done, nodes, unique) && Made(nodes, m, t, f) && Made(nodes, m, t', f')
      ensures t == t' && f == f'
    {
      LowFacts(t);
      LowFacts(t');
    }

    lemma PartsInjective(t: NodeId, t': NodeId)
      requires Ok() && Old(t) && Old(t') && Part(t, true) == Part(t', true) && Part(t, false) == Part(t', false)
      ensures t == t'
    {
      if HasLower(t) || HasLower(t') {
        var x := if HasLower(t) then t else t';
        assert x >= 2;
        NodeFacts(x);
        if HasLower(t) && HasLower(t') {
          assert before.graph.IndexedAt(before.unique, t) && before.graph.IndexedAt(before.unique, t');
        }
      }
    }

    lemma LowUnchanged(done: set<NodeId>, nodes: seq<FOBDD>, unique: map<BddKey, NodeId>, c: NodeId)
      requires Ok() && Inv(done, nodes, unique) && LowNode(c)
      ensures c !in done && nodes[c] == before.graph.nodes[c] && nodes[c].kernel != upper
    {
      LowFacts(c);
      assert c in done ==> Turns(c);
    }

    /** The new branches differ, and one of them tests upper. */
    lemma TurnedHasUpper(done: set<NodeId>, nodes: seq<FOBDD>, unique: map<BddKey, NodeId>, n: NodeId, nt: NodeId, nf: NodeId)
      requires Ok() && Inv(done, nodes, unique) && Turns(n)
      requires Old(before.graph.nodes[n].truebranch) && Old(before.graph.nodes[n].falsebranch)
      requires var x := before.graph.nodes[n];
        && Made(nodes, nt, Part(x.truebranch, true), Part(x.falsebranch, true))
        && Made(nodes, nf, Part(x.truebranch, false), Part(x.falsebranch, false))
      ensures nt != nf && !(LowNode(nt) && LowNode(nf))
    {
      NodeFacts(n);
      var x := before.graph.nodes[n];
      var trees := before.graph.trees;
      forall b: bool
        ensures trees[Part(x.truebranch, b)] == Cofactor(trees[x.truebranch], lower, b)
        ensures trees[Part(x.falsebranch, b)] == Cofactor(trees[x.falsebranch], lower, b)
        ensures RootIs(trees[x.truebranch], lower) <==> HasLower(x.truebranch)
        ensures RootIs(trees[x.falsebranch], lower) <==> HasLower(x.falsebranch)
        ensures trees[Part(x.truebranch, b)] == trees[Part(x.falsebranch, b)] <==> Part(x.truebranch, b) == Part(x.falsebranch, b)
      {
        PartTree(x.truebranch, b);
        PartTree(x.falsebranch, b);
        TreesInjective(before.graph, before.unique, Part(x.truebranch, b), Part(x.falsebranch, b));
      }
      TreesInjective(before.graph, before.unique, x.truebranch, x.falsebranch);
      TurnedBranchesDiffer(before.table.orders, upper, lower, trees[x.truebranch], trees[x.falsebranch]);
      if LowNode(nt) { LowUnchanged(done, nodes, unique, nt); }
      if LowNode(nf) { LowUnchanged(done, nodes, unique, nf); }
    }

    /** No other node has the triple that the turned node gets. */
    lemma NoCollision(done: set<NodeId>, nodes: seq<FOBDD>, unique: map<BddKey, NodeId>, n: NodeId, nt: NodeId, nf: NodeId, m: NodeId)
      requires Ok() && Inv(done, nodes, unique) && Turns(n) && n !in done
      requires Old(before.graph.nodes[n].truebranch) && Old(before.graph.nodes[n].falsebranch)
      requires var x := before.graph.nodes[n];
        && Made(nodes, nt, Part(x.truebranch, true), Part(x.falsebranch, true))
        && Made(nodes, nf, Part(x.truebranch, false), Part(x.falsebranch, false))
      requires 2 <= m < |nodes| && m != n
      ensures nodes[m] != FOBDD(lower, nt, nf)
    {
      TurnedHasUpper(done, nodes, unique, n, nt, nf);
      assert m >= |before.graph.nodes| ==> FreshAt(nodes, m);
      assert before.graph.IndexedAt(before.unique, n) && (Old(m) ==> before.graph.IndexedAt(before.unique, m));
      if nodes[m] == FOBDD(lower, nt, nf) && m < |before.graph.nodes| {
        var x := before.graph.nodes[n];
        if m in done {
          assert TurnedAt(nodes, m);
          var y := before.graph.nodes[m];
          MadeInjective(done, nodes, unique, nt, Part(x.truebranch, true), Part(x.falsebranch, true), Part(y.truebranch, true), Part(y.falsebranch, true));
          MadeInjective(done, nodes, unique, nf, Part(x.truebranch, false), Part(x.falsebranch, false), Part(y.truebranch, false), Part(y.falsebranch, false));
          PartsInjective(x.truebranch, y.truebranch);
          PartsInjective(x.falsebranch, y.falsebranch);
        } else {
          LowerNode(m);
        }
      }
    }

    /** The branches of a lower node are low. */
    lemma LowerNode(m: NodeId)
      requires Ok() && 2 <= m && Old(m) && before.graph.nodes[m].kernel == lower
      ensures LowNode(before.graph.nodes[m].truebranch) && LowNode(before.graph.nodes[m].falsebranch)
    {
      NodeFacts(m);
      var x := before.graph.nodes[m];
      forall c | c == x.truebranch || c == x.falsebranch ensures LowNode(c) {
        KernelsBelow(before.table.orders, lower, before.graph.trees[c]);
      }
    }

    /** Turning a node keeps the half-way invariant. */
    lemma TurnKeepsInv(done: set<NodeId>, nodes: seq<FOBDD>, unique: map<BddKey, NodeId>, n: NodeId, nt: NodeId, nf: NodeId)
      requires Ok() && Inv(done, nodes, unique) && Turns(n) && n !in done
      requires Old(before.graph.nodes[n].truebranch) && Old(before.graph.nodes[n].falsebranch)
      requires var x := before.graph.nodes[n];
        && Made(nodes, nt, Part(x.truebranch, true), Part(x.falsebranch, true))
        && Made(nodes, nf, Part(x.truebranch, false), Part(x.falsebranch, false))
      ensures Inv(done + {n}, nodes[n := FOBDD(lower, nt, nf)], unique[(lower, nf, nt) := n])
    {
      var nodes' := nodes[n := FOBDD(lower, nt, nf)];
      var unique' := unique[(lower, nf, nt) := n];
      var done' := done + {n};
      TurnKeepsNodes(done, nodes, unique, n, nt, nf);
      TurnKeepsTable(done, nodes, unique, n, nt, nf);
    }

    lemma TurnKeepsNodes(done: set<NodeId>, nodes: seq<FOBDD>, unique: map<BddKey, NodeId>, n: NodeId, nt: NodeId, nf: NodeId)
      requires Ok() && Inv(done, nodes, unique) && Turns(n) && n !in done
      requires Old(before.graph.nodes[n].truebranch) && Old(before.graph.nodes[n].falsebranch)
      requires var x := before.graph.nodes[n];
        && Made(nodes, nt, Part(x.truebranch, true), Part(x.falsebranch, true))
        && Made(nodes, nf, Part(x.truebranch, false), Part(x.falsebranch, false))
      ensures var nodes' := nodes[n := FOBDD(lower, nt, nf)];
        && (forall m :: m in done + {n} ==> Turns(m) && TurnedAt(nodes', m))
        && forall m :: |before.graph.nodes| <= m < |nodes'| ==> FreshAt(nodes', m)
    {
      var nodes' := nodes[n := FOBDD(lower, nt, nf)];
      forall m, t, f | Made(nodes, m, t, f) ensures Made(nodes', m, t, f) {
        MadeIsNotTurning(done, nodes, unique, n, m, t, f);
      }
      forall m | m in done + {n} ensures Turns(m) && TurnedAt(nodes', m) {
        if m != n { assert TurnedAt(nodes, m); }
      }
      forall m | |before.graph.nodes| <= m < |nodes'| ensures FreshAt(nodes', m) { assert FreshAt(nodes, m); }
    }

    lemma TurnKeepsTable(done: set<NodeId>, nodes: seq<FOBDD>, unique: map<BddKey, NodeId>, n: NodeId, nt: NodeId, nf: NodeId)
      requires Ok() && Inv(done, nodes, unique) && Turns(n) && n !in done
      requires Old(before.graph.nodes[n].truebranch) && Old(before.graph.nodes[n].falsebranch)
      requires var x := before.graph.nodes[n];
        && Made(nodes, nt, Part(x.truebranch, true), Part(x.falsebranch, true))
        && Made(nodes, nf, Part(x.truebranch, false), Part(x.falsebranch, false))
      ensures var nodes', unique' := nodes[n := FOBDD(lower, nt, nf)], unique[(lower, nf, nt) := n];
        && (forall m :: 2 <= m < |nodes'| ==> Graph(nodes', []).IndexedAt(unique', m))
        && (forall key :: key in unique' ==> CurrentKey(nodes', unique', key) || StaleKey(done + {n}, unique', key))
    {
      var nodes' := nodes[n := FOBDD(lower, nt, nf)];
      var unique' := unique[(lower, nf, nt) := n];
      forall m | 2 <= m < |nodes'| ensures Graph(nodes', []).IndexedAt(unique', m) {
        assert Graph(nodes, []).IndexedAt(unique, m);
        if m != n { NoCollision(done, nodes, unique, n, nt, nf, m); }
      }
      forall key | key in unique' ensures CurrentKey(nodes', unique', key) || StaleKey(done + {n}, unique', key) {
        if key != (lower, nf, nt) { assert CurrentKey(nodes, unique, key) || StaleKey(done, unique, key); }
      }
    }

    // ---------- the loop over the table ----------

    lemma Start()
      requires Ok()
      ensures Inv({}, before.graph.nodes, before.unique)
      ensures Visits({}, set key | key in before.unique && key.0 == upper)
    {
      forall n | 2 <= n < |before.graph.nodes|
        ensures Graph(before.graph.nodes, []).IndexedAt(before.unique, n)
      {
        assert before.graph.IndexedAt(before.unique, n);
      }
      forall n | 0 <= n < |before.graph.nodes| && Turns(n) ensures KeyOf(before.graph.nodes[n]) in before.unique {
        assert before.graph.IndexedAt(before.unique, n);
      }
    }

    /** The keys still to visit include those of all nodes still to turn. */
    ghost predicate Visits(done: set<NodeId>, todo: set<BddKey>) {
      && (forall n :: 0 <= n < |before.graph.nodes| && Turns(n) && n !in done ==> KeyOf(before.graph.nodes[n]) in todo)
      && (forall key :: key in todo ==> key.0 == upper && key in before.unique && before.unique[key] !in done)
    }

    /** An entry still to be looked at leads to an old node that has not been turned. */
    ghost predicate EntryFits(done: set<NodeId>, nodes: seq<FOBDD>, unique: map<BddKey, NodeId>, todo: set<BddKey>, key: BddKey) {
      && key in unique && key.1 < |nodes| && key.2 < |nodes| && Old(key.1) && Old(key.2)
      && var n := unique[key];
      && 2 <= n < |nodes| && Old(n) && n !in done && before.graph.nodes[n] == FOBDD(upper, key.2, key.1)
      && nodes[key.1] == before.graph.nodes[key.1] && nodes[key.2] == before.graph.nodes[key.2]
      && Visits(if Turns(n) then done + {n} else done, todo - {key})
    }

    lemma Visit(done: set<NodeId>, nodes: seq<FOBDD>, unique: map<BddKey, NodeId>, todo: set<BddKey>, key: BddKey)
      requires Ok() && Inv(done, nodes, unique) && Visits(done, todo) && key in todo
      ensures EntryFits(done, nodes, unique, todo, key)
    {
      var n := before.unique[key];
      assert KeyOf(before.graph.nodes[n]) == key;
      assert Graph(nodes, []).IndexedAt(unique, n);
      UpperBranch(n, key.1);
      UpperBranch(n, key.2);
      assert key.1 in done ==> Turns(key.1);
      assert key.2 in done ==> Turns(key.2);
      VisitsRest(done, todo, key);
    }

    lemma VisitsRest(done: set<NodeId>, todo: set<BddKey>, key: BddKey)
      requires Ok() && Visits(done, todo) && key in todo
      ensures var n := before.unique[key]; Visits(if Turns(n) then done + {n} else done, todo - {key})
    {
      var n := before.unique[key];
      assert KeyOf(before.graph.nodes[n]) == key;
      forall m | 0 <= m < |before.graph.nodes| && Turns(m) && m != n ensures KeyOf(before.graph.nodes[m]) != key {
        assert before.graph.IndexedAt(before.unique, m);
      }
    }

    // ---------- the state afterwards ----------

    /** Every node that must be turned has been turned. */
    predicate Complete(done: set<NodeId>) {
      forall n :: 0 <= n < |before.graph.nodes| && Turns(n) ==> n in done
    }

    ghost predicate Finished(done: set<NodeId>, nodes: seq<FOBDD>, unique: map<BddKey, NodeId>) {
      Ok() && Inv(done, nodes, unique) && Complete(done)
    }

    ghost function TreeAfter(done: set<NodeId>, nodes: seq<FOBDD>, unique: map<BddKey, NodeId>, n: NodeId): Tree
      requires Finished(done, nodes, unique) && n < |nodes|
    {
      if Old(n) then SwapTree(upper, lower, before.graph.trees[n])
      else
        assert FreshAt(nodes, n);
        Branch(upper, before.graph.trees[nodes[n].truebranch], before.graph.trees[nodes[n].falsebranch])
    }

    ghost function TreesAfter(done: set<NodeId>, nodes: seq<FOBDD>, unique: map<BddKey, NodeId>): (r: seq<Tree>)
      requires Finished(done, nodes, unique)
      ensures |r| == |nodes| && forall n :: 0 <= n < |nodes| ==> r[n] == TreeAfter(done, nodes, unique, n)
    {
      seq(|nodes|, n requires 0 <= n < |nodes| => TreeAfter(done, nodes, unique, n))
    }

    lemma LowTreeAfter(done: set<NodeId>, nodes: seq<FOBDD>, unique: map<BddKey, NodeId>, c: NodeId)
      requires Finished(done, nodes, unique) && LowNode(c)
      ensures TreeAfter(done, nodes, unique, c) == before.graph.trees[c]
    {
      SwapKernels(upper, lower, before.graph.trees[c]);
    }

    lemma MadeTreeAfter(done: set<NodeId>, nodes: seq<FOBDD>, unique: map<BddKey, NodeId>, m: NodeId, t: NodeId, f: NodeId)
      requires Finished(done, nodes, unique) && Made(nodes, m, t, f)
      ensures m < |nodes| && TreeAfter(done, nodes, unique, m) == Make(upper, before.graph.trees[t], before.graph.trees[f])
    {
      LowTreeAfter(done, nodes, unique, t);
      TreesInjective(before.graph, before.unique, t, f);
      if t != f && Old(m) {
        assert m !in done;
        LowFacts(t);
        LowFacts(f);
        NodeFacts(m);
        PartTree(t, true);
        PartTree(f, true);
      }
    }

    lemma TurnedUnfolds(done: set<NodeId>, nodes: seq<FOBDD>, unique: map<BddKey, NodeId>, n: NodeId)
      requires Finished(done, nodes, unique) && n in done && n < |nodes|
      ensures 2 <= n && Graph(nodes, TreesAfter(done, nodes, unique)).UnfoldsAt(n)
    {
      assert Turns(n) && TurnedAt(nodes, n);
      NodeFacts(n);
      var x := before.graph.nodes[n];
      PartTree(x.truebranch, true);
      PartTree(x.truebranch, false);
      PartTree(x.falsebranch, true);
      PartTree(x.falsebranch, false);
      TurnedHasUpper(done, nodes, unique, n, nodes[n].truebranch, nodes[n].falsebranch);
      MadeTreeAfter(done, nodes, unique, nodes[n].truebranch, Part(x.truebranch, true), Part(x.falsebranch, true));
      MadeTreeAfter(done, nodes, unique, nodes[n].falsebranch, Part(x.truebranch, false), Part(x.falsebranch, false));
    }

    lemma UnfoldsAfterAt(done: set<NodeId>, nodes: seq<FOBDD>, unique: map<BddKey, NodeId>, n: NodeId)
      requires Finished(done, nodes, unique) && 2 <= n < |nodes|
      ensures Graph(nodes, TreesAfter(done, nodes, unique)).UnfoldsAt(n)
    {
      if !Old(n) {
        assert FreshAt(nodes, n);
        LowTreeAfter(done, nodes, unique, nodes[n].truebranch);
        LowTreeAfter(done, nodes, unique, nodes[n].falsebranch);
      } else {
        NodeFacts(n);
        var x := before.graph.nodes[n];
        if n in done {
          TurnedUnfolds(done, nodes, unique, n);
        } else if x.kernel == upper {
          UpperBranch(n, x.truebranch);
          UpperBranch(n, x.falsebranch);
          LowTreeAfter(done, nodes, unique, x.truebranch);
          LowTreeAfter(done, nodes, unique, x.falsebranch);
        }
      }
    }

    lemma TreesAfterOrdered(done: set<NodeId>, nodes: seq<FOBDD>, unique: map<BddKey, NodeId>, n: NodeId)
      requires Finished(done, nodes, unique) && n < |nodes|
      ensures Ordered(Exchanged(before.table.orders, upper, lower), TreeAfter(done, nodes, unique, n))
    {
      before.table.Distinct();
      if Old(n) {
        TreesOrdered(before.graph, before.table.orders, n);
        SwapOrdered(before.table.orders, upper, lower, before.graph.trees[n]);
      } else {
        assert FreshAt(nodes, n);
        TreesInjective(before.graph, before.unique, nodes[n].truebranch, nodes[n].falsebranch);
        MadeOrdered(before.table.orders, upper, lower, before.graph.trees[nodes[n].truebranch], before.graph.trees[nodes[n].falsebranch]);
      }
    }

    function StaleKeys(done: set<NodeId>): set<BddKey> {
      set n | n in done && Old(n) :: KeyOf(before.graph.nodes[n])
    }

    lemma StaleKeysGrow(done: set<NodeId>, n: NodeId)
      requires Old(n)
      ensures StaleKeys(done + {n}) == StaleKeys(done) + {KeyOf(before.graph.nodes[n])}
    {
    }

    /** The key of a node is never one of the keys that are erased. */
    lemma CurrentIsNotStale(done: set<NodeId>, nodes: seq<FOBDD>, unique: map<BddKey, NodeId>, n: NodeId)
      requires Finished(done, nodes, unique) && 2 <= n < |nodes|
      ensures KeyOf(nodes[n]) !in StaleKeys(done)
    {
      if !Old(n) {
        assert FreshAt(nodes, n);
        LowFacts(nodes[n].truebranch);
        LowFacts(nodes[n].falsebranch);
      }
      assert n in done ==> TurnedAt(nodes, n);
      forall m | m in done && Old(m) ensures KeyOf(nodes[n]) != KeyOf(before.graph.nodes[m]) {
        assert Turns(m);
      }
    }

    lemma IndexedAfter(done: set<NodeId>, nodes: seq<FOBDD>, unique: map<BddKey, NodeId>)
      requires Finished(done, nodes, unique)
      ensures Graph(nodes, TreesAfter(done, nodes, unique)).Indexed(unique - StaleKeys(done))
    {
      var unique' := unique - StaleKeys(done);
      var g := Graph(nodes, TreesAfter(done, nodes, unique));
      forall n | 2 <= n < |nodes| ensures g.IndexedAt(unique', n) {
        assert Graph(nodes, []).IndexedAt(unique, n);
        CurrentIsNotStale(done, nodes, unique, n);
      }
      forall key | key in unique' ensures 2 <= unique'[key] < |nodes| && KeyOf(nodes[unique'[key]]) == key {
        assert CurrentKey(nodes, unique, key) || StaleKey(done, unique, key);
      }
    }

    lemma TableAfterOk()
      requires Ok()
      ensures ExchangedTable(before.table, upper, lower).Ok()
    {
      assert before.table.Placed(upper) && before.table.Placed(lower);
      forall k | 2 <= k < |before.table.kernels| ensures ExchangedTable(before.table, upper, lower).Placed(k) { PlacedAfter(k); }
      NumberedAfter();
    }

    lemma PlacedAfter(k: KernelId)
      requires Ok() && 2 <= k < |before.table.kernels|
      ensures ExchangedTable(before.table, upper, lower).Placed(k)
    {
      assert before.table.Placed(k) && before.table.Placed(upper) && before.table.Placed(lower);
      before.table.Distinct();
    }

    lemma NumberedAfter()
      requires Ok()
      ensures var t := ExchangedTable(before.table, upper, lower);
        && (forall o :: o in t.place ==> 2 <= t.place[o] < |t.kernels| && t.orders[t.place[o]] == o)
        && (forall o :: o in t.place <==> t.Numbered(o))
    {
      var t := ExchangedTable(before.table, upper, lower);
      assert before.table.Placed(upper) && before.table.Placed(lower);
      forall o ensures o in t.place <==> t.Numbered(o) { assert o in before.table.place <==> before.table.Numbered(o); }
    }

    ghost function After(done: set<NodeId>, nodes: seq<FOBDD>, unique: map<BddKey, NodeId>): State
      requires Finished(done, nodes, unique)
    {
      State(ExchangedTable(before.table, upper, lower), Graph(nodes, TreesAfter(done, nodes, unique)), unique - StaleKeys(done), NOTHING_REMEMBERED)
    }

    /** The exchange is complete: the state is consistent and sorted for the new order,
        and every old node has its old truth function. */
    lemma MoveFinished(done: set<NodeId>, nodes: seq<FOBDD>, unique: map<BddKey, NodeId>)
      requires Finished(done, nodes, unique)
      ensures var s := After(done, nodes, unique);
        && s.Ok() && s.Sorted() && Keeps(before.World(), s.World())
        && (forall n :: 0 <= n < |before.graph.nodes| ==> s.graph.trees[n] == SwapTree(upper, lower, before.graph.trees[n]))
    {
      var s := After(done, nodes, unique);
      forall n | 2 <= n < |nodes| ensures s.graph.UnfoldsAt(n) { UnfoldsAfterAt(done, nodes, unique, n); }
      IndexedAfter(done, nodes, unique);
      TableAfterOk();
      forall n | 2 <= n < |nodes|
        ensures nodes[n].kernel < |before.table.kernels|
        ensures s.graph.Unfolds() && s.graph.SortedAt(s.table.orders, n)
      {
        TreesAfterOrdered(done, nodes, unique, n);
        assert s.graph.UnfoldsAt(n);
      }
      WorldAfter(done, nodes, unique);
      SortedNests(s);
    }

    lemma SortedNests(s: State)
      requires s.World().Nested() && s.graph.Unfolds() && s.Sorted()
      ensures s.NestedOrdered()
    {
      forall k | 0 <= k < |s.table.kernels| && s.table.kernels[k].QuantKernel? ensures s.NestedOrderedAt(k) {
        assert s.World().NestedAt(k);
        TreesOrdered(s.graph, s.table.orders, s.table.kernels[k].bdd);
      }
    }

    /** Meanings, nesting and categories are unaffected. */
    lemma WorldAfter(done: set<NodeId>, nodes: seq<FOBDD>, unique: map<BddKey, NodeId>)
      requires Finished(done, nodes, unique)
      requires After(done, nodes, unique).graph.Unfolds() && After(done, nodes, unique).graph.Indexed(After(done, nodes, unique).unique)
      ensures var s := After(done, nodes, unique);
        Keeps(before.World(), s.World()) && s.World().Nested() && s.Categorised()
    {
      var s := After(done, nodes, unique);
      var w, w' := before.World(), s.World();
      forall n | 0 <= n < |w.trees| ensures Equivalent(w'.trees[n], w.trees[n]) && Kernels(w'.trees[n]) == Kernels(w.trees[n]) {
        KernelsAfter(done, nodes, unique, n);
      }
      forall k | 0 <= k < |w'.kernels| && w'.kernels[k].QuantKernel? ensures w'.NestedAt(k) {
        assert w.NestedAt(k);
      }
      forall k | 2 <= k < |w'.kernels| ensures s.CategorisedAt(k) {
        assert before.CategorisedAt(k);
        KernelContainsKept(w, w', k, 0);
      }
    }

    lemma KernelsAfter(done: set<NodeId>, nodes: seq<FOBDD>, unique: map<BddKey, NodeId>, n: NodeId)
      requires Finished(done, nodes, unique) && Old(n)
      requires After(done, nodes, unique).graph.Unfolds() && After(done, nodes, unique).graph.Indexed(After(done, nodes, unique).unique)
      ensures var d, d' := before.graph.trees[n], TreeAfter(done, nodes, unique, n);
        Equivalent(d', d) && Kernels(d') == Kernels(d)
    {
      var s := After(done, nodes, unique);
      var d, d' := before.graph.trees[n], TreeAfter(done, nodes, unique, n);
      forall v: Valuation { SwapKeepsMeaning(upper, lower, d, v); }
      before.table.Distinct();
      TableAfterOk();
      s.table.Distinct();
      TreesOrdered(before.graph, before.table.orders, n);
      TreesReduced(before.graph, before.unique, n);
      TreesAfterOrdered(done, nodes, unique, n);
      TreesReduced(s.graph, s.unique, n);
      EquivalentKernels(before.table.orders, d, s.table.orders, d');
    }
  }

  function BelowOrder(o: KernelOrder): KernelOrder
    requires o.number > 0
  {
    KernelOrder(o.category, o.number - 1)
  }

  function AboveOrder(o: KernelOrder): KernelOrder {
    KernelOrder(o.category, o.number + 1)
  }

  /** The neighbour of k nearer to the root, within its category. */
  function AboveOf(table: KernelTable, k: KernelId): Option<KernelId>
    requires k < |table.orders|
  {
    var o := AboveOrder(table.orders[k]);
    if !o.category.TRUEFALSECATEGORY? && o in table.place then Some(table.place[o]) else None
  }

  /** The neighbour of k further from the root, within its category. */
  function BelowOf(table: KernelTable, k: KernelId): Option<KernelId>
    requires k < |table.orders|
  {
    if table.orders[k].category.TRUEFALSECATEGORY? || table.orders[k].number == 0 then None
    else
      var o := BelowOrder(table.orders[k]);
      if o in table.place then Some(table.place[o]) else None
  }

  /** The two are each other's inverse, and name neighbours. */
  lemma AboveBelow(table: KernelTable, k: KernelId)
    requires table.Ok() && k < |table.kernels|
    ensures var a := AboveOf(table, k);
      a.Some? ==> a.value < |table.kernels| && BelowOf(table, a.value) == Some(k) && Neighbours(table.orders, a.value, k)
    ensures var b := BelowOf(table, k);
      b.Some? ==> b.value < |table.kernels| && AboveOf(table, b.value) == Some(k) && Neighbours(table.orders, k, b.value)
  {
    assert k >= 2 ==> table.Placed(k);
  }

  /** What exchanging upper and lower does to a manager. */
  ghost predicate ExchangedState(s: State, s': State, upper: KernelId, lower: KernelId) {
    && upper < |s.table.orders| && lower < |s.table.orders|
    && s'.Ok() && s'.Sorted()
    && s'.table == ExchangedTable(s.table, upper, lower)
    && |s.graph.trees| <= |s'.graph.trees|
    && (forall n :: 0 <= n < |s.graph.trees| ==> s'.graph.trees[n] == SwapTree(upper, lower, s.graph.trees[n]))
    && Keeps(s.World(), s'.World())
  }

  /** The state after a move, if there were two kernels to exchange. */
  ghost predicate MovedState(s: State, s': State, upper: Option<KernelId>, lower: Option<KernelId>) {
    if upper.Some? && lower.Some? then ExchangedState(s, s', upper.value, lower.value)
    else s'.Ok() && s'.Sorted() && s' == s.(memo := NOTHING_REMEMBERED)
  }

  /** What was remembered before a move does not matter. */
  lemma MovedAnyway(s: State, s1: State, s': State, upper: Option<KernelId>, lower: Option<KernelId>)
    requires s1 == s.(memo := NOTHING_REMEMBERED) && MovedState(s1, s', upper, lower)
    ensures MovedState(s, s', upper, lower)
  {
  }

  lemma ForgottenOk(s: State)
    requires s.Ok()
    ensures s.(memo := NOTHING_REMEMBERED).Ok()
    ensures s.Sorted() ==> s.(memo := NOTHING_REMEMBERED).Sorted()
  {
    var s' := s.(memo := NOTHING_REMEMBERED);
    forall k | 2 <= k < |s'.table.kernels| ensures s'.CategorisedAt(k) { assert s.CategorisedAt(k); }
    forall k | 0 <= k < |s'.table.kernels| && s'.table.kernels[k].QuantKernel? ensures s'.NestedOrderedAt(k) {
      assert s.NestedOrderedAt(k);
    }
  }
}
