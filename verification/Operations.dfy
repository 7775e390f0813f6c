/** What single steps of the manager do to its state, and the tree-level reasons
    why the recursive logical operations are right. */
module Operations {
  import opened KernelOrders
  import opened Diagrams
  import opened Syntax
  import opened Semantics
  import opened Store
  import opened ManagerState

  /** A step of the manager that only adds: present nodes and kernels stay as they are. */
  ghost predicate Grows(s: State, s': State) {
    && s'.Ok() && s.graph.GrowsTo(s'.graph)
    && s.table.kernels <= s'.table.kernels && s.table.orders <= s'.table.orders
  }

  lemma GrowsTransitive(s: State, s1: State, s2: State)
    requires Grows(s, s1) && Grows(s1, s2)
    ensures Grows(s, s2)
  {
  }

  /** A step that adds nodes only. */
  ghost predicate Extends(s: State, s': State) {
    s'.Ok() && s.graph.GrowsTo(s'.graph) && s'.table == s.table
  }

  lemma ExtendsTransitive(s: State, s1: State, s2: State)
    requires Extends(s, s1) && Extends(s1, s2)
    ensures Extends(s, s2)
  {
  }

  // ---------- a new node ----------

  /** The state after a new node is stored. */
  ghost function WithNode(s: State, k: KernelId, t: NodeId, f: NodeId): State
    requires t < |s.graph.trees| && f < |s.graph.trees|
  {
    var g := s.graph;
    s.(graph := Graph(g.nodes + [FOBDD(k, t, f)], g.trees + [Branch(k, g.trees[t], g.trees[f])]),
       unique := s.unique[(k, f, t) := |g.nodes|])
  }

  lemma StateWithNode(s: State, k: KernelId, t: NodeId, f: NodeId)
    requires s.Ok() && 2 <= k < |s.table.kernels| && t < |s.graph.nodes| && f < |s.graph.nodes| && t != f
    requires (k, f, t) !in s.unique
    ensures Extends(s, WithNode(s, k, t, f))
  {
    var s' := WithNode(s, k, t, f);
    var g, h := s.graph, s'.graph;
    forall n | 2 <= n < |h.nodes| ensures h.UnfoldsAt(n) && h.IndexedAt(s'.unique, n) {
      if n < |g.nodes| { assert g.UnfoldsAt(n) && g.IndexedAt(s.unique, n); }
    }
    WorldGrows(s, s');
  }

  /** More nodes and kernels leave nesting, categories of present kernels and the memo tables right. */
  lemma WorldGrows(s: State, s': State)
    requires s.Ok() && s.table.kernels <= s'.table.kernels && s.table.orders <= s'.table.orders && s.graph.trees <= s'.graph.trees
    requires forall k :: |s.table.kernels| <= k < |s'.table.kernels| && s'.table.kernels[k].QuantKernel? ==>
      s'.World().NestedAt(k) && s'.NestedOrderedAt(k)
    ensures s'.World().Nested() && s'.NestedOrdered() && s.memo.Ok(s'.World(), s'.table.orders)
    ensures forall k :: 2 <= k < |s.table.kernels| ==> s'.CategorisedAt(k)
  {
    var w, w' := s.World(), s'.World();
    forall k | 0 <= k < |w'.kernels| && w'.kernels[k].QuantKernel? ensures w'.NestedAt(k) {
      if k < |w.kernels| { assert w.NestedAt(k); }
    }
    forall k | 0 <= k < |w'.kernels| && w'.kernels[k].QuantKernel? ensures s'.NestedOrderedAt(k) {
      if k < |w.kernels| {
        assert s.NestedOrderedAt(k);
        NodeOrderedLater(s, s'.table.orders, w.kernels[k].bdd);
      }
    }
    MemoGrows(s, w', s'.table.orders);
    PrefixKeeps(w, w');
    forall k | 2 <= k < |w.kernels| ensures s'.CategorisedAt(k) {
      assert s.CategorisedAt(k);
      KernelContainsKept(w, w', k, 0);
    }
  }

  /** A new node keeps the state sorted exactly when its kernel precedes both branches. */
  lemma SortedWithNode(s: State, k: KernelId, t: NodeId, f: NodeId)
    requires s.Ok() && 2 <= k < |s.table.kernels| && t < |s.graph.nodes| && f < |s.graph.nodes| && t != f
    requires WithNode(s, k, t, f).graph.Unfolds()
    ensures WithNode(s, k, t, f).Sorted() <==> s.Sorted() && s.Precedes(k, t, f)
  {
    var g, h := s.graph, WithNode(s, k, t, f).graph;
    var order := s.table.orders;
    forall n | 2 <= n < |g.nodes| ensures h.SortedAt(order, n) <==> g.SortedAt(order, n) { assert g.UnfoldsAt(n); }
    assert h.SortedAt(order, |g.nodes|) <==> s.Precedes(k, t, f);
  }

  /** A node with its branches. */
  lemma InnerNode(s: State, n: NodeId)
    requires s.Ok() && 2 <= n < |s.graph.nodes|
    ensures var x := s.graph.nodes[n];
      && 2 <= x.kernel < |s.table.kernels| && x.truebranch < |s.graph.nodes| && x.falsebranch < |s.graph.nodes|
      && s.graph.trees[n] == Branch(x.kernel, s.graph.trees[x.truebranch], s.graph.trees[x.falsebranch])
      && (s.Sorted() ==> s.Precedes(x.kernel, x.truebranch, x.falsebranch))
  {
    assert s.graph.UnfoldsAt(n);
    if s.Sorted() { assert s.graph.SortedAt(s.table.orders, n); }
  }

  // ---------- places in the order ----------

  /** Kernel k precedes every kernel of ks. */
  ghost predicate BeforeAll(order: Orders, k: KernelId, ks: set<KernelId>) {
    k < |order| && forall j :: j in ks ==> j < |order| && order[k].Before(order[j])
  }

  lemma AboveTree(order: Orders, k: KernelId, d: Tree, ks: set<KernelId>)
    requires Kernels(d) <= ks && BeforeAll(order, k, ks)
    ensures Above(order, k, d)
  {
    assert d.Branch? ==> d.kernel in Kernels(d);
  }

  /** Kernels of a manager are told apart by their orders. */
  lemma SameOrderSameKernel(s: State, j: KernelId, k: KernelId)
    requires s.Ok() && j < |s.table.kernels| && k < |s.table.kernels|
    ensures s.table.orders[j].Before(s.table.orders[k]) || s.table.orders[k].Before(s.table.orders[j]) || j == k
  {
    s.table.Distinct();
    BeforeIsStrictTotalOrder(s.table.orders[j], s.table.orders[k], s.table.orders[j]);
  }

  lemma RootKernel(s: State, n: NodeId)
    requires s.Ok() && n < |s.graph.nodes|
    ensures s.graph.nodes[n].kernel < |s.table.kernels| == |s.table.orders|
    ensures s.graph.nodes[n].kernel < 2 <==> n < 2
    ensures n < 2 ==> s.table.orders[s.graph.nodes[n].kernel].category.TRUEFALSECATEGORY?
  {
    if n >= 2 { InnerNode(s, n); }
  }

  lemma InnerKernelOrder(s: State, k: KernelId)
    requires s.Ok() && 2 <= k < |s.table.kernels|
    ensures !s.table.orders[k].category.TRUEFALSECATEGORY?
  {
    assert s.table.Placed(k);
  }

  // ---------- negation ----------

  ghost function RememberNegation(s: State, a: NodeId, r: NodeId): State {
    s.(memo := s.memo.(negation := s.memo.negation[a := r]))
  }

  lemma NegationRemembered(s: State, a: NodeId, r: NodeId)
    requires s.Ok() && a < |s.graph.nodes| && r < |s.graph.nodes|
    requires IsNegation(s.graph.trees[r], s.graph.trees[a])
    requires Ordered(s.table.orders, s.graph.trees[a]) ==> Ordered(s.table.orders, s.graph.trees[r])
    ensures RememberNegation(s, a, r).Ok()
  {
    var s' := RememberNegation(s, a, r);
    forall b | b in s'.memo.negation ensures s'.memo.NegationOk(s.graph.trees, s.table.orders, b) {
      if b != a { assert s.memo.NegationOk(s.graph.trees, s.table.orders, b); }
    }
    forall p | p in s'.memo.quant ensures s'.memo.QuantOk(s.World(), p) { assert s.memo.QuantOk(s.World(), p); }
    WorldGrows(s, s');
  }

  /** The negated branches of node n, put back under its kernel, give its negation. */
  lemma NegatedBranches(s: State, n: NodeId, t: NodeId, f: NodeId)
    requires s.Ok() && 2 <= n < |s.graph.nodes| && t < |s.graph.nodes| && f < |s.graph.nodes|
    requires s.graph.nodes[n].truebranch < |s.graph.nodes| && s.graph.nodes[n].falsebranch < |s.graph.nodes|
    requires IsNegation(s.graph.trees[t], s.graph.trees[s.graph.nodes[n].truebranch])
    requires IsNegation(s.graph.trees[f], s.graph.trees[s.graph.nodes[n].falsebranch])
    requires Ordered(s.table.orders, s.graph.trees[s.graph.nodes[n].truebranch]) ==> Ordered(s.table.orders, s.graph.trees[t])
    requires Ordered(s.table.orders, s.graph.trees[s.graph.nodes[n].falsebranch]) ==> Ordered(s.table.orders, s.graph.trees[f])
    ensures s.Sorted() ==> s.Precedes(s.graph.nodes[n].kernel, t, f)
    ensures Ordered(s.table.orders, s.graph.trees[n]) ==>
      Ordered(s.table.orders, Make(s.graph.nodes[n].kernel, s.graph.trees[t], s.graph.trees[f]))
    ensures IsNegation(Make(s.graph.nodes[n].kernel, s.graph.trees[t], s.graph.trees[f]), s.graph.trees[n])
  {
    InnerNode(s, n);
    var x := s.graph.nodes[n];
    var at, af := s.graph.trees[x.truebranch], s.graph.trees[x.falsebranch];
    if s.Sorted() {
      TreesOrdered(s.graph, s.table.orders, n);
    }
    if Ordered(s.table.orders, s.graph.trees[n]) {
      KernelsBelow(s.table.orders, x.kernel, at);
      KernelsBelow(s.table.orders, x.kernel, af);
      AboveTree(s.table.orders, x.kernel, s.graph.trees[t], Kernels(at));
      AboveTree(s.table.orders, x.kernel, s.graph.trees[f], Kernels(af));
    }
    var r := Make(x.kernel, s.graph.trees[t], s.graph.trees[f]);
    forall v: Valuation ensures Eval(r, v) == !Eval(s.graph.trees[n], v) {
      assert Eval(s.graph.trees[t], v) == !Eval(at, v) && Eval(s.graph.trees[f], v) == !Eval(af, v);
    }
  }

  // ---------- conjunction and disjunction ----------

  ghost function RememberConnective(s: State, op: Connective, a: NodeId, b: NodeId, r: NodeId): State {
    s.(memo := s.memo.(connective := s.memo.connective[(op, a, b) := r]))
  }

  lemma ConnectiveRemembered(s: State, op: Connective, a: NodeId, b: NodeId, r: NodeId)
    requires s.Ok() && a < |s.graph.nodes| && b < |s.graph.nodes| && r < |s.graph.nodes|
    requires IsConnective(op, s.graph.trees[r], s.graph.trees[a], s.graph.trees[b])
    requires Ordered(s.table.orders, s.graph.trees[a]) && Ordered(s.table.orders, s.graph.trees[b]) ==> Ordered(s.table.orders, s.graph.trees[r])
    ensures RememberConnective(s, op, a, b, r).Ok()
  {
    var s' := RememberConnective(s, op, a, b, r);
    forall p | p in s'.memo.connective ensures s'.memo.ConnectiveOk(s.graph.trees, s.table.orders, p) {
      if p != (op, a, b) { assert s.memo.ConnectiveOk(s.graph.trees, s.table.orders, p); }
    }
    forall p | p in s'.memo.quant ensures s'.memo.QuantOk(s.World(), p) { assert s.memo.QuantOk(s.World(), p); }
    WorldGrows(s, s');
  }

  /** Shannon expansion on k of both arguments of a connective. */
  lemma ConnectiveExpansion(op: Connective, k: KernelId, t: Tree, f: Tree, a: Tree, b: Tree)
    requires k >= 2 && (k in Kernels(a) || k in Kernels(b))
    requires IsConnective(op, t, Cofactor(a, k, true), Cofactor(b, k, true))
    requires IsConnective(op, f, Cofactor(a, k, false), Cofactor(b, k, false))
    ensures IsConnective(op, Make(k, t, f), a, b)
  {
    var r := Make(k, t, f);
    forall v: Valuation ensures Eval(r, v) == op.Apply(Eval(a, v), Eval(b, v)) {
      var c := v(k);
      var x := if c then t else f;
      CofactorEval(a, k, v);
      CofactorEval(b, k, v);
      assert Eval(x, v) == op.Apply(Eval(Cofactor(a, k, c), v), Eval(Cofactor(b, k, c), v));
    }
  }

  /** Nodes x and y are the cofactors of node n for kernel k, and k precedes them. */
  ghost predicate Cofactors(s: State, n: NodeId, k: KernelId, x: NodeId, y: NodeId) {
    && n < |s.graph.trees| && x < |s.graph.trees| && y < |s.graph.trees|
    && s.graph.trees[x] == Cofactor(s.graph.trees[n], k, true)
    && s.graph.trees[y] == Cofactor(s.graph.trees[n], k, false)
    && (Ordered(s.table.orders, s.graph.trees[n]) ==>
          && BeforeAll(s.table.orders, k, Kernels(s.graph.trees[x]) + Kernels(s.graph.trees[y]))
          && Ordered(s.table.orders, s.graph.trees[x]) && Ordered(s.table.orders, s.graph.trees[y]))
  }

  lemma RootCofactors(s: State, n: NodeId)
    requires s.Ok() && 2 <= n < |s.graph.nodes|
    ensures Cofactors(s, n, s.graph.nodes[n].kernel, s.graph.nodes[n].truebranch, s.graph.nodes[n].falsebranch)
  {
    InnerNode(s, n);
    var x := s.graph.nodes[n];
    if Ordered(s.table.orders, s.graph.trees[n]) {
      KernelsBelow(s.table.orders, x.kernel, s.graph.trees[x.truebranch]);
      KernelsBelow(s.table.orders, x.kernel, s.graph.trees[x.falsebranch]);
    }
  }

  /** A kernel that precedes the root of a node does not split it. */
  lemma LowerCofactors(s: State, k: KernelId, n: NodeId)
    requires s.Ok() && 2 <= k < |s.table.kernels| && n < |s.graph.nodes|
    requires n >= 2 ==> s.graph.nodes[n].kernel < |s.table.orders|
                        && s.table.orders[k].Before(s.table.orders[s.graph.nodes[n].kernel])
    ensures Cofactors(s, n, k, n, n)
  {
    if n >= 2 {
      InnerNode(s, n);
      BeforeIsStrictTotalOrder(s.table.orders[k], s.table.orders[k], s.table.orders[k]);
    }
    if Ordered(s.table.orders, s.graph.trees[n]) {
      KernelsBelow(s.table.orders, k, s.graph.trees[n]);
    }
  }

  /** Combining the cofactors and putting them under k combines the nodes. */
  lemma ConnectiveOfCofactors(s: State, op: Connective, k: KernelId, a: NodeId, at: NodeId, af: NodeId,
                              b: NodeId, bt: NodeId, bf: NodeId, t: NodeId, f: NodeId)
    requires s.Ok() && 2 <= k < |s.table.kernels|
    requires Cofactors(s, a, k, at, af) && Cofactors(s, b, k, bt, bf)
    requires k in Kernels(s.graph.trees[a]) || k in Kernels(s.graph.trees[b])
    requires t < |s.graph.nodes| && f < |s.graph.nodes|
    requires IsConnective(op, s.graph.trees[t], s.graph.trees[at], s.graph.trees[bt])
    requires IsConnective(op, s.graph.trees[f], s.graph.trees[af], s.graph.trees[bf])
    requires Ordered(s.table.orders, s.graph.trees[at]) && Ordered(s.table.orders, s.graph.trees[bt]) ==> Ordered(s.table.orders, s.graph.trees[t])
    requires Ordered(s.table.orders, s.graph.trees[af]) && Ordered(s.table.orders, s.graph.trees[bf]) ==> Ordered(s.table.orders, s.graph.trees[f])
    ensures s.Sorted() ==> s.Precedes(k, t, f)
    ensures Ordered(s.table.orders, s.graph.trees[a]) && Ordered(s.table.orders, s.graph.trees[b]) ==>
      Ordered(s.table.orders, Make(k, s.graph.trees[t], s.graph.trees[f]))
    ensures IsConnective(op, Make(k, s.graph.trees[t], s.graph.trees[f]), s.graph.trees[a], s.graph.trees[b])
  {
    var trees := s.graph.trees;
    ConnectiveExpansion(op, k, trees[t], trees[f], trees[a], trees[b]);
    if s.Sorted() {
      TreesOrdered(s.graph, s.table.orders, a);
      TreesOrdered(s.graph, s.table.orders, b);
    }
    if Ordered(s.table.orders, trees[a]) && Ordered(s.table.orders, trees[b]) {
      AboveTree(s.table.orders, k, trees[t], Kernels(trees[at]) + Kernels(trees[bt]));
      AboveTree(s.table.orders, k, trees[f], Kernels(trees[af]) + Kernels(trees[bf]));
    }
  }

  // ---------- if-then-else ----------

  ghost function RememberIfThenElse(s: State, k: KernelId, t: NodeId, f: NodeId, r: NodeId): State {
    s.(memo := s.memo.(ifthenelse := s.memo.ifthenelse[(k, t, f) := r]))
  }

  lemma IfThenElseRemembered(s: State, k: KernelId, t: NodeId, f: NodeId, r: NodeId)
    requires s.Ok() && k < |s.table.kernels| && t < |s.graph.nodes| && f < |s.graph.nodes| && r < |s.graph.nodes|
    requires IsIfThenElse(s.graph.trees[r], k, s.graph.trees[t], s.graph.trees[f])
    requires Ordered(s.table.orders, s.graph.trees[t]) && Ordered(s.table.orders, s.graph.trees[f]) ==> Ordered(s.table.orders, s.graph.trees[r])
    ensures RememberIfThenElse(s, k, t, f, r).Ok()
  {
    var s' := RememberIfThenElse(s, k, t, f, r);
    forall q | q in s'.memo.ifthenelse ensures s'.memo.IfThenElseOk(s.graph.trees, s.table.orders, q) {
      if q != (k, t, f) { assert s.memo.IfThenElseOk(s.graph.trees, s.table.orders, q); }
    }
    forall p | p in s'.memo.quant ensures s'.memo.QuantOk(s.World(), p) { assert s.memo.QuantOk(s.World(), p); }
    WorldGrows(s, s');
  }

  /** When k precedes or is the root of both branches, the branches themselves are cofactored. */
  lemma IfThenElseAtRoot(s: State, k: KernelId, t: NodeId, t1: NodeId, t0: NodeId, f: NodeId, f1: NodeId, f0: NodeId)
    requires s.Ok() && 2 <= k < |s.table.kernels|
    requires Cofactors(s, t, k, t1, t0) && Cofactors(s, f, k, f1, f0)
    ensures s.Sorted() ==> s.Precedes(k, t1, f0)
    ensures Ordered(s.table.orders, s.graph.trees[t]) && Ordered(s.table.orders, s.graph.trees[f]) ==>
      Ordered(s.table.orders, Make(k, s.graph.trees[t1], s.graph.trees[f0]))
    ensures IsIfThenElse(Make(k, s.graph.trees[t1], s.graph.trees[f0]), k, s.graph.trees[t], s.graph.trees[f])
  {
    var trees := s.graph.trees;
    var r := Make(k, trees[t1], trees[f0]);
    forall v: Valuation ensures Eval(r, v) == if KernelValue(k, v) then Eval(trees[t], v) else Eval(trees[f], v) {
      CofactorEval(trees[t], k, v);
      CofactorEval(trees[f], k, v);
    }
    if s.Sorted() {
      TreesOrdered(s.graph, s.table.orders, t);
      TreesOrdered(s.graph, s.table.orders, f);
    }
    if Ordered(s.table.orders, trees[t]) && Ordered(s.table.orders, trees[f]) {
      AboveTree(s.table.orders, k, trees[t1], Kernels(trees[t1]));
      AboveTree(s.table.orders, k, trees[f0], Kernels(trees[f0]));
    }
  }

  /** Expansion on a kernel j that precedes k. */
  lemma IfThenElseExpansion(j: KernelId, k: KernelId, nt: Tree, nf: Tree, t: Tree, f: Tree)
    requires j >= 2 && k >= 2 && j != k && (j in Kernels(t) || j in Kernels(f))
    requires IsIfThenElse(nt, k, Cofactor(t, j, true), Cofactor(f, j, true))
    requires IsIfThenElse(nf, k, Cofactor(t, j, false), Cofactor(f, j, false))
    ensures IsIfThenElse(Make(j, nt, nf), k, t, f)
  {
    var r := Make(j, nt, nf);
    forall v: Valuation ensures Eval(r, v) == if KernelValue(k, v) then Eval(t, v) else Eval(f, v) {
      var c := v(j);
      var x := if c then nt else nf;
      CofactorEval(t, j, v);
      CofactorEval(f, j, v);
      assert Eval(x, v) == if KernelValue(k, v) then Eval(Cofactor(t, j, c), v) else Eval(Cofactor(f, j, c), v);
    }
  }

  lemma IfThenElseOfCofactors(s: State, j: KernelId, k: KernelId, t: NodeId, t1: NodeId, t0: NodeId,
                              f: NodeId, f1: NodeId, f0: NodeId, nt: NodeId, nf: NodeId)
    requires s.Ok() && 2 <= j < |s.table.kernels| && 2 <= k < |s.table.kernels|
    requires s.table.orders[j].Before(s.table.orders[k])
    requires Cofactors(s, t, j, t1, t0) && Cofactors(s, f, j, f1, f0)
    requires j in Kernels(s.graph.trees[t]) || j in Kernels(s.graph.trees[f])
    requires nt < |s.graph.nodes| && nf < |s.graph.nodes|
    requires IsIfThenElse(s.graph.trees[nt], k, s.graph.trees[t1], s.graph.trees[f1])
    requires IsIfThenElse(s.graph.trees[nf], k, s.graph.trees[t0], s.graph.trees[f0])
    requires Ordered(s.table.orders, s.graph.trees[t1]) && Ordered(s.table.orders, s.graph.trees[f1]) ==> Ordered(s.table.orders, s.graph.trees[nt])
    requires Ordered(s.table.orders, s.graph.trees[t0]) && Ordered(s.table.orders, s.graph.trees[f0]) ==> Ordered(s.table.orders, s.graph.trees[nf])
    ensures s.Sorted() ==> s.Precedes(j, nt, nf)
    ensures Ordered(s.table.orders, s.graph.trees[t]) && Ordered(s.table.orders, s.graph.trees[f]) ==>
      Ordered(s.table.orders, Make(j, s.graph.trees[nt], s.graph.trees[nf]))
    ensures IsIfThenElse(Make(j, s.graph.trees[nt], s.graph.trees[nf]), k, s.graph.trees[t], s.graph.trees[f])
  {
    var trees := s.graph.trees;
    BeforeIsStrictTotalOrder(s.table.orders[j], s.table.orders[j], s.table.orders[k]);
    IfThenElseExpansion(j, k, trees[nt], trees[nf], trees[t], trees[f]);
    if s.Sorted() {
      TreesOrdered(s.graph, s.table.orders, t);
      TreesOrdered(s.graph, s.table.orders, f);
    }
    if Ordered(s.table.orders, trees[t]) && Ordered(s.table.orders, trees[f]) {
      AboveTree(s.table.orders, j, trees[nt], {k} + Kernels(trees[t1]) + Kernels(trees[f1]));
      AboveTree(s.table.orders, j, trees[nf], {k} + Kernels(trees[t0]) + Kernels(trees[f0]));
    }
  }
}
