/** Bound indices: whether each index has the sort of the quantifier that binds it. */
module WellSorted {
  import opened Diagrams
  import opened Syntax
  import opened Semantics

  /** The index occurs in the term with this sort only. */
  predicate OnlySort(t: Term, i: nat, sort: Sort) {
    match t
    case VariableTerm(_) => true
    case IndexTerm(s, j) => i == j ==> s == sort
    case DomainTerm(_, _) => true
    case FuncTerm(_, args) => forall n | 0 <= n < |args| :: OnlySort(args[n], i, sort)
  }

  /** Index i, one more under a quantifier, occurs in the kernel with this sort only. */
  ghost predicate KernelOnlySort(w: World, k: KernelId, i: nat, sort: Sort)
    decreases k
  {
    k < |w.kernels| ==>
      match w.kernels[k]
      case AtomKernel(_, _, args) => forall n :: 0 <= n < |args| ==> OnlySort(args[n], i, sort)
      case QuantKernel(_, b) => b < |w.trees| ==> forall j :: j in Kernels(w.trees[b]) && j < k ==> KernelOnlySort(w, j, i + 1, sort)
      case _ => true
  }

  /** Every quantifier in the kernel, itself included, binds index 0 with its own sort. */
  ghost predicate KernelSorted(w: World, k: KernelId)
    decreases k
  {
    k < |w.kernels| && w.kernels[k].QuantKernel? && w.kernels[k].bdd < |w.trees| ==>
      forall j :: j in Kernels(w.trees[w.kernels[k].bdd]) && j < k ==> KernelOnlySort(w, j, 0, w.kernels[k].sort) && KernelSorted(w, j)
  }

  ghost predicate DiagramSorted(w: World, d: Tree) {
    forall j :: j in Kernels(d) ==> KernelSorted(w, j)
  }

  /** The diagram may be put under a quantifier over the sort. */
  ghost predicate BodySorted(w: World, sort: Sort, d: Tree) {
    DiagramSorted(w, d) && forall j :: j in Kernels(d) ==> KernelOnlySort(w, j, 0, sort)
  }

  lemma {:induction false} KernelOnlySortKept(w: World, w': World, k: KernelId, i: nat, sort: Sort)
    requires w.Nested() && w'.Nested() && Keeps(w, w') && k < |w.kernels|
    ensures KernelOnlySort(w', k, i, sort) == KernelOnlySort(w, k, i, sort)
    decreases k
  {
    if w.kernels[k].QuantKernel? {
      assert w.NestedAt(k) && w'.NestedAt(k);
      forall j | j in Kernels(w.trees[w.kernels[k].bdd]) ensures KernelOnlySort(w', j, i + 1, sort) == KernelOnlySort(w, j, i + 1, sort) {
        KernelOnlySortKept(w, w', j, i + 1, sort);
      }
    }
  }

  lemma {:induction false} KernelSortedKept(w: World, w': World, k: KernelId)
    requires w.Nested() && w'.Nested() && Keeps(w, w') && k < |w.kernels|
    ensures KernelSorted(w', k) == KernelSorted(w, k)
    decreases k
  {
    if w.kernels[k].QuantKernel? {
      assert w.NestedAt(k) && w'.NestedAt(k);
      forall j | j in Kernels(w.trees[w.kernels[k].bdd])
        ensures KernelOnlySort(w', j, 0, w.kernels[k].sort) == KernelOnlySort(w, j, 0, w.kernels[k].sort) && KernelSorted(w', j) == KernelSorted(w, j)
      {
        KernelOnlySortKept(w, w', j, 0, w.kernels[k].sort);
        KernelSortedKept(w, w', j);
      }
    }
  }

  lemma SortedKept(w: World, w': World, d: Tree)
    requires w.Nested() && w'.Nested() && Keeps(w, w') && Within(d, |w.kernels|)
    ensures DiagramSorted(w', d) == DiagramSorted(w, d)
    ensures forall sort :: BodySorted(w', sort, d) == BodySorted(w, sort, d)
  {
    forall j | j in Kernels(d) ensures KernelSorted(w', j) == KernelSorted(w, j) { KernelSortedKept(w, w', j); }
    forall j, sort | j in Kernels(d) ensures KernelOnlySort(w', j, 0, sort) == KernelOnlySort(w, j, 0, sort) { KernelOnlySortKept(w, w', j, 0, sort); }
  }
}
