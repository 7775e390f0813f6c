/** A run after which a node no longer respects the kernel order. */
module OrderLost {
  import opened KernelOrders
  import opened Syntax
  import opened Semantics
  import opened Diagrams
  import opened Store
  import opened ManagerState
  import opened Operations
  import opened Quantification
  import opened FoBddManager

  const USER_SORT := Sort("T", false, false)

  /** An atom without arguments comes before every standard kernel made earlier. */
  lemma NewAtomFirst(s: State, s': State, q: KernelId, atom: KernelId, symbol: PFSymbol)
    requires s.Ok() && Grows(s, s') && 2 <= q < |s.table.kernels| <= atom < |s'.table.kernels|
    requires s.table.orders[q].category.STANDARDCATEGORY? && s'.table.kernels[atom] == AtomKernel(symbol, AKT_TWOVALUED, [])
    ensures s'.table.orders[atom].Before(s'.table.orders[q]) && !s'.table.orders[q].Before(s'.table.orders[atom])
  {
    assert s'.CategorisedAt(atom) && !s'.World().KernelContains(atom, 0);
    InnerKernelOrder(s', atom);
    LaterKernelFirst(s, s', q, atom);
    BeforeIsStrictTotalOrder(s'.table.orders[atom], s'.table.orders[q], s'.table.orders[atom]);
  }

  /** So it belongs above the kernel "T is not empty". */
  lemma NewAtomAbove(s: State, s': State, atom: KernelId, symbol: PFSymbol)
    requires s.Ok() && Grows(s, s') && SortKernel(s, USER_SORT).Some? && |s.table.kernels| <= atom < |s'.table.kernels|
    requires s'.table.kernels[atom] == AtomKernel(symbol, AKT_TWOVALUED, [])
    ensures SortKernel(s', USER_SORT) == SortKernel(s, USER_SORT)
    ensures !Above(s'.table.orders, SortKernel(s, USER_SORT).value, Branch(atom, Leaf(true), Leaf(false)))
  {
    SortKernelFacts(s, USER_SORT);
    NewAtomFirst(s, s', SortKernel(s, USER_SORT).value, atom, symbol);
    SortKernelStays(s, s', USER_SORT);
  }

  /** Nothing is bound in its diagram. */
  lemma AtomDiagramClosed(s: State, s': State, p: NodeId, atom: KernelId, symbol: PFSymbol)
    requires s.Ok() && Extends(s, s') && 2 <= atom < |s.table.kernels| && s.table.kernels[atom] == AtomKernel(symbol, AKT_TWOVALUED, [])
    requires p < |s'.graph.trees| && s'.graph.trees[p] == Branch(atom, Leaf(true), Leaf(false))
    requires SortKernel(s, USER_SORT).Some?
    ensures p != FALSEBDD && !s'.World().TreeContains(|s'.table.kernels|, s'.graph.trees[p], 0)
    ensures SortKernel(s', USER_SORT) == SortKernel(s, USER_SORT)
  {
    SortKernelStays(s, s', USER_SORT);
  }

  /** First the kernel "T is not empty", then the atom p, which belongs above it. */
  method SortBeforeAtom() returns (manager: FOBDDManager, atom: KernelId)
    ensures fresh(manager) && manager.Valid() && 2 <= atom < |manager.table.kernels|
    ensures manager.table.kernels[atom] == AtomKernel(PredicateSymbol("p"), AKT_TWOVALUED, [])
    ensures SortKernel(manager.Snap(), USER_SORT).Some?
    ensures !Above(manager.table.orders, SortKernel(manager.Snap(), USER_SORT).value, Branch(atom, Leaf(true), Leaf(false)))
  {
    manager := new FOBDDManager();
    var sortNotEmpty := manager.SortNotEmpty(USER_SORT);
    ghost var s := manager.Snap();
    assert s.table.atoms.Keys <= {SortAtom(USER_SORT)};
    atom := manager.GetAtomKernel(PredicateSymbol("p"), AKT_TWOVALUED, []);
    NewAtomAbove(s, manager.Snap(), atom, PredicateSymbol("p"));
  }

  /** Then the diagram of p. */
  method SortBeforeDiagram() returns (manager: FOBDDManager, p: NodeId)
    ensures fresh(manager) && manager.Valid() && p < |manager.nodes| && p != FALSEBDD
    ensures !manager.Snap().World().TreeContains(|manager.table.kernels|, manager.trees[p], 0)
    ensures SortKernel(manager.Snap(), USER_SORT).Some?
    ensures !Above(manager.table.orders, SortKernel(manager.Snap(), USER_SORT).value, manager.trees[p])
  {
    var atom;
    manager, atom := SortBeforeAtom();
    ghost var s := manager.Snap();
    p := manager.KernelBDD(atom);
    AtomDiagramClosed(s, manager.Snap(), p, atom, PredicateSymbol("p"));
  }

  lemma AboveKept(s: State, s': State, p: NodeId)
    requires s.Ok() && Grows(s, s') && p < |s.graph.trees| && SortKernel(s, USER_SORT).Some?
    requires !Above(s.table.orders, SortKernel(s, USER_SORT).value, s.graph.trees[p])
    ensures SortKernel(s', USER_SORT).Some?
    ensures !Above(s'.table.orders, SortKernel(s', USER_SORT).value, s.graph.trees[p])
  {
    SortKernelStays(s, s', USER_SORT);
    SortKernelFacts(s, USER_SORT);
    TreeWithin(s, p);
    var d := s.graph.trees[p];
    assert d.Branch? ==> d.kernel in Kernels(d);
  }

  /** Quantifying p over T, in which nothing is bound, puts "T is not empty" on top of p. */
  method QuantifyLosesOrder() returns (manager: FOBDDManager, p: NodeId, r: NodeId)
    ensures fresh(manager) && manager.Valid() && p < |manager.nodes| && r < |manager.nodes|
    ensures !manager.Snap().Sorted()
  {
    manager, p := SortBeforeDiagram();
    ghost var s := manager.Snap();
    r := manager.QuantifyVacuous(USER_SORT, p);
    AboveKept(s, manager.Snap(), p);
  }
}
