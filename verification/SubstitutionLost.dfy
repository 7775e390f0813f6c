/** A substitution after which a quantified kernel is true although the sort may be empty. */
module SubstitutionLost {
  import opened KernelOrders
  import opened Diagrams
  import opened Syntax
  import opened Semantics
  import opened Store
  import opened ManagerState
  import opened Operations
  import opened Visitors
  import opened Renaming
  import opened Rebuilding
  import opened FoBddManager

  const USER_SORT := Sort("T", false, false)
  const X := Variable("x", USER_SORT)
  const Y := Variable("y", USER_SORT)

  /** P(z, v) for the bound z. */
  function AtomOf(v: Variable): Kernel {
    AtomKernel(PredicateSymbol("P"), AKT_TWOVALUED, [IndexTerm(USER_SORT, 0), VariableTerm(v)])
  }

  /** Put x for y. */
  const YTOX := SubstituteTerms(map[Y := VariableTerm(X)])

  /** Kernel q is "some z in T has P(z, x) or not P(z, y)". */
  ghost predicate IsExample(s: State, q: KernelId, a: KernelId, b: KernelId) {
    && 2 <= a < |s.table.kernels| && 2 <= b < |s.table.kernels| && 2 <= q < |s.table.kernels|
    && s.table.kernels[a] == AtomOf(X) && s.table.kernels[b] == AtomOf(Y)
    && s.table.kernels[q].QuantKernel? && s.table.kernels[q].sort == USER_SORT && s.table.kernels[q].bdd < |s.graph.trees|
    && IsIfThenElse(s.graph.trees[s.table.kernels[q].bdd], a, Leaf(true), Branch(b, Leaf(false), Leaf(true)))
  }

  method Example() returns (manager: FOBDDManager, q: KernelId, ghost a: KernelId, ghost b: KernelId)
    ensures fresh(manager) && manager.Valid() && IsExample(manager.Snap(), q, a, b)
  {
    manager := new FOBDDManager();
    var px := manager.GetAtomKernel(PredicateSymbol("P"), AKT_TWOVALUED, [IndexTerm(USER_SORT, 0), VariableTerm(X)]);
    var py := manager.GetAtomKernel(PredicateSymbol("P"), AKT_TWOVALUED, [IndexTerm(USER_SORT, 0), VariableTerm(Y)]);
    a, b := px, py;
    q := Disjoined(manager, px, py);
  }

  method Disjoined(manager: FOBDDManager, px: KernelId, py: KernelId) returns (q: KernelId)
    requires manager.Valid() && 2 <= px < |manager.table.kernels| && 2 <= py < |manager.table.kernels|
    requires manager.table.kernels[px] == AtomOf(X) && manager.table.kernels[py] == AtomOf(Y)
    modifies manager
    ensures manager.Valid() && IsExample(manager.Snap(), q, px, py)
  {
    var either := Either(manager, px, py);
    ghost var s := manager.Snap();
    q := manager.GetQuantKernel(USER_SORT, either);
    ExampleMade(s, manager.Snap(), q, px, py, either);
  }

  lemma ExampleMade(s: State, s': State, q: KernelId, a: KernelId, b: KernelId, n: NodeId)
    requires s.Ok() && Grows(s, s') && 2 <= a < |s.table.kernels| && 2 <= b < |s.table.kernels| && 2 <= n < |s.graph.trees|
    requires s.table.kernels[a] == AtomOf(X) && s.table.kernels[b] == AtomOf(Y)
    requires IsIfThenElse(s.graph.trees[n], a, Leaf(true), Branch(b, Leaf(false), Leaf(true)))
    requires q < |s'.table.kernels| && s'.table.kernels[q] == QuantKernel(USER_SORT, n)
    ensures IsExample(s', q, a, b)
  {
  }

  method Either(manager: FOBDDManager, px: KernelId, py: KernelId) returns (r: NodeId)
    requires manager.Valid() && 2 <= px < |manager.table.kernels| && 2 <= py < |manager.table.kernels| && px != py
    modifies manager
    ensures manager.Valid() && Extends(old(manager.Snap()), manager.Snap()) && 2 <= r < |manager.nodes|
    ensures IsIfThenElse(manager.trees[r], px, Leaf(true), Branch(py, Leaf(false), Leaf(true)))
    ensures Ordered(manager.table.orders, manager.trees[r])
  {
    ghost var s := manager.Snap();
    var notpy := manager.GetBDD(py, FALSEBDD, TRUEBDD);
    NegatedAtom(manager.table.orders, py);
    ghost var s1 := manager.Snap();
    r := manager.IfThenElse(px, TRUEBDD, notpy);
    ExtendsTransitive(s, s1, manager.Snap());
    NotTerminal(manager.Snap(), px, py, r);
  }

  lemma NegatedAtom(order: Orders, k: KernelId)
    ensures var d := Branch(k, Leaf(false), Leaf(true));
      Kernels(d) == {k} && (k < |order| ==> Ordered(order, d)) && forall v: Valuation :: Eval(d, v) == !v(k)
  {
    assert Ordered(order, Leaf(false)) && Ordered(order, Leaf(true));
    assert Kernels(Leaf(false)) == {} && Kernels(Leaf(true)) == {};
  }

  lemma NotTerminal(s: State, a: KernelId, b: KernelId, n: NodeId)
    requires s.Ok() && a >= 2 && b >= 2 && a != b && n < |s.graph.trees|
    requires IsIfThenElse(s.graph.trees[n], a, Leaf(true), Branch(b, Leaf(false), Leaf(true)))
    ensures n >= 2
  {
    var yes, no: Valuation := (k: KernelId) => true, (k: KernelId) => k == b;
    NegatedAtom(s.table.orders, b);
    assert Eval(s.graph.trees[n], yes) && !Eval(s.graph.trees[n], no);
  }

  /** With x for y the nested diagram becomes true, and so does the kernel. */
  lemma ExampleBecomesTrue(s: State, s': State, q: KernelId, a: KernelId, b: KernelId, q': KernelId)
    requires s.Ok() && IsExample(s, q, a, b) && KernelChanged(s, s', YTOX, q, q')
    ensures q' == TRUEKERNEL
  {
    var w := s'.World();
    var d := w.trees[w.kernels[q].bdd];
    assert w.NestedAt(q);
    NegatedAtom(s.table.orders, b);
    assert Kernels(d) <= {a, b};
    var R := RenamesBelow(w, YTOX.Under(), q);
    assert TreeRenames(w, YTOX.Under(), q, d, NestedTree(w, q'));
    forall k, k' | k in Kernels(d) && R(k, k') ensures k' == a { BothBecome(s', a, b, k, k'); }
    forall v': Valuation ensures Eval(NestedTree(w, q'), v') {
      var v := (k: KernelId) => v'(a);
      assert Agree(R, Kernels(d), v, v');
    }
    assert Equivalent(NestedTree(w, q'), NestedTree(w, TRUEKERNEL));
    NestedOnce(s', q', TRUEKERNEL);
  }

  lemma BothBecome(s: State, a: KernelId, b: KernelId, k: KernelId, k': KernelId)
    requires s.Ok() && 2 <= a < |s.table.kernels| && 2 <= b < |s.table.kernels|
    requires s.table.kernels[a] == AtomOf(X) && s.table.kernels[b] == AtomOf(Y)
    requires (k == a || k == b) && Renames(s.World(), YTOX, k, k')
    ensures k' == a
  {
    var args := s.table.kernels[k].args;
    assert YTOX.ChangeArgs(args) == s.table.kernels[a].args;
    assert s.table.Placed(a) && s.table.Placed(k');
  }

  /** Over an empty T the kernel was false, and is true after the substitution. */
  method SubstitutionChangesMeaning() returns (manager: FOBDDManager, q: KernelId, r: KernelId)
    ensures fresh(manager) && manager.Valid() && q < |manager.table.kernels| && r == TRUEKERNEL
    ensures forall S: Structure, e: Env :: S.universe(USER_SORT) == iset{} ==>
      manager.Snap().World().KernelHolds(r, S, e) && !manager.Snap().World().KernelHolds(q, S, YTOX.Target(S, e))
  {
    ghost var a, b;
    manager, q, a, b := Example();
    ghost var s := manager.Snap();
    r := manager.ChangeKernel(YTOX, q);
    ExampleBecomesTrue(s, manager.Snap(), q, a, b, r);
    EmptyQuantified(manager.Snap(), q);
  }

  lemma EmptyQuantified(s: State, q: KernelId)
    requires s.Ok() && 2 <= q < |s.table.kernels| && s.table.kernels[q].QuantKernel? && s.table.kernels[q].sort == USER_SORT
    ensures forall S: Structure, e: Env :: S.universe(USER_SORT) == iset{} ==>
      s.World().KernelHolds(TRUEKERNEL, S, e) && !s.World().KernelHolds(q, S, YTOX.Target(S, e))
  {
    assert s.World().NestedAt(q);
    forall S: Structure, e: Env { s.World().QuantKernelHolds(q, S, YTOX.Target(S, e)); }
  }
}
