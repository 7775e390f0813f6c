/** The memory of the diagram manager as a value, and what its pointers denote. */
module Store {
  import opened KernelOrders
  import opened Diagrams
  import opened Syntax

  /** A diagram node; the branches of the two terminals are never read. */
  datatype FOBDD = FOBDD(kernel: KernelId, truebranch: NodeId, falsebranch: NodeId)

  const TRUEKERNEL: KernelId := 0
  const FALSEKERNEL: KernelId := 1
  const TRUEBDD: NodeId := 0
  const FALSEBDD: NodeId := 1

  /** Key of the unique table: kernel, then false branch, then true branch. */
  type BddKey = (KernelId, NodeId, NodeId)

  function KeyOf(n: FOBDD): BddKey {
    (n.kernel, n.falsebranch, n.truebranch)
  }

  /** The tree of a node made by the simplifying constructor. */
  function Make(k: KernelId, t: Tree, f: Tree): Tree {
    if k == TRUEKERNEL then t else if k == FALSEKERNEL then f
    else if t == f then f else Branch(k, t, f)
  }

  /** The nodes, and for every node the diagram it unfolds to when its pointers are followed. */
  datatype Graph = Graph(nodes: seq<FOBDD>, trees: seq<Tree>)
  {
    /** Following pointers always ends: each node has the tree its branches give it. */
    ghost predicate Unfolds() {
      && 2 <= |nodes| == |trees|
      && nodes[TRUEBDD].kernel == TRUEKERNEL && trees[TRUEBDD] == Leaf(true)
      && nodes[FALSEBDD].kernel == FALSEKERNEL && trees[FALSEBDD] == Leaf(false)
      && forall n :: 2 <= n < |nodes| ==> UnfoldsAt(n)
    }

    ghost predicate UnfoldsAt(n: NodeId)
      requires 2 <= n < |nodes| == |trees|
    {
      var x := nodes[n];
      && 2 <= x.kernel && x.truebranch < |nodes| && x.falsebranch < |nodes| && x.truebranch != x.falsebranch
      && trees[n] == Branch(x.kernel, trees[x.truebranch], trees[x.falsebranch])
    }

    /** Later nodes come after the present ones. */
    ghost predicate GrowsTo(that: Graph) {
      nodes <= that.nodes && trees <= that.trees
    }

    /** The unique table holds exactly the inner nodes. */
    ghost predicate Indexed(unique: map<BddKey, NodeId>) {
      && (forall n :: 2 <= n < |nodes| ==> IndexedAt(unique, n))
      && (forall key :: key in unique ==> 2 <= unique[key] < |nodes| && KeyOf(nodes[unique[key]]) == key)
    }

    ghost predicate IndexedAt(unique: map<BddKey, NodeId>, n: NodeId)
      requires n < |nodes|
    {
      KeyOf(nodes[n]) in unique && unique[KeyOf(nodes[n])] == n
    }

    /** Every node tests a kernel that precedes the kernels of its branches. */
    ghost predicate Sorted(order: Orders)
      requires Unfolds()
    {
      forall n :: 2 <= n < |nodes| ==> SortedAt(order, n)
    }

    ghost predicate SortedAt(order: Orders, n: NodeId)
      requires Unfolds() && 2 <= n < |nodes|
    {
      assert UnfoldsAt(n);
      Above(order, nodes[n].kernel, trees[nodes[n].truebranch]) &&
      Above(order, nodes[n].kernel, trees[nodes[n].falsebranch])
    }
  }

  /** Hash consing: a diagram has at most one node. */
  lemma {:induction false} TreesInjective(g: Graph, unique: map<BddKey, NodeId>, m: NodeId, n: NodeId)
    requires g.Unfolds() && g.Indexed(unique) && m < |g.nodes| && n < |g.nodes|
    ensures g.trees[m] == g.trees[n] <==> m == n
    decreases g.trees[m]
  {
    if m >= 2 && n >= 2 {
      assert g.UnfoldsAt(m) && g.UnfoldsAt(n);
      TreesInjective(g, unique, g.nodes[m].truebranch, g.nodes[n].truebranch);
      TreesInjective(g, unique, g.nodes[m].falsebranch, g.nodes[n].falsebranch);
      assert g.IndexedAt(unique, m) && g.IndexedAt(unique, n);
    } else if m >= 2 {
      assert g.UnfoldsAt(m);
    } else if n >= 2 {
      assert g.UnfoldsAt(n);
    }
  }

  lemma {:induction false} TreesReduced(g: Graph, unique: map<BddKey, NodeId>, n: NodeId)
    requires g.Unfolds() && g.Indexed(unique) && n < |g.nodes|
    ensures Reduced(g.trees[n])
    decreases g.trees[n]
  {
    if n >= 2 {
      assert g.UnfoldsAt(n);
      TreesReduced(g, unique, g.nodes[n].truebranch);
      TreesReduced(g, unique, g.nodes[n].falsebranch);
      TreesInjective(g, unique, g.nodes[n].truebranch, g.nodes[n].falsebranch);
    }
  }

  lemma {:induction false} TreesOrdered(g: Graph, order: Orders, n: NodeId)
    requires g.Unfolds() && g.Sorted(order) && n < |g.nodes|
    ensures Ordered(order, g.trees[n])
    decreases g.trees[n]
  {
    if n >= 2 {
      assert g.UnfoldsAt(n) && g.SortedAt(order, n);
      TreesOrdered(g, order, g.nodes[n].truebranch);
      TreesOrdered(g, order, g.nodes[n].falsebranch);
    }
  }

  /** Canonicity of the node store: nodes with the same truth function are the same node. */
  lemma CanonicalNodes(g: Graph, unique: map<BddKey, NodeId>, order: Orders, m: NodeId, n: NodeId)
    requires g.Unfolds() && g.Indexed(unique) && g.Sorted(order) && DistinctOrders(order)
    requires m < |g.nodes| && n < |g.nodes|
    ensures m == n <==> Equivalent(g.trees[m], g.trees[n])
  {
    TreesReduced(g, unique, m);
    TreesReduced(g, unique, n);
    TreesOrdered(g, order, m);
    TreesOrdered(g, order, n);
    TreesInjective(g, unique, m, n);
    Canonical(order, g.trees[m], g.trees[n]);
  }
}
