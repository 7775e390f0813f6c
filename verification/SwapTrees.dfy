/** Exchanging two neighbouring kernels of the order, seen on trees. */
module SwapTrees {
  import opened KernelOrders
  import opened Diagrams
  import opened Store

  /** Kernel lower comes directly after kernel upper. */
  ghost predicate Neighbours(order: Orders, upper: KernelId, lower: KernelId) {
    && 2 <= upper < |order| && 2 <= lower < |order|
    && order[upper].category == order[lower].category
    && order[upper].number == order[lower].number + 1
  }

  function Exchanged(order: Orders, upper: KernelId, lower: KernelId): Orders
    requires upper < |order| && lower < |order|
  {
    order[upper := order[lower]][lower := order[upper]]
  }

  predicate RootIs(d: Tree, k: KernelId) {
    d.Branch? && d.kernel == k
  }

  /** The diagram after the exchange: nodes of upper that have lower below them are turned around. */
  function SwapTree(upper: KernelId, lower: KernelId, d: Tree): Tree {
    match d
    case Leaf(_) => d
    case Branch(k, t, f) =>
      if k != upper then Branch(k, SwapTree(upper, lower, t), SwapTree(upper, lower, f))
      else if !RootIs(t, lower) && !RootIs(f, lower) then d
      else Turned(upper, lower, t, f)
  }

  function Turned(upper: KernelId, lower: KernelId, t: Tree, f: Tree): Tree {
    Branch(lower,
           Make(upper, Cofactor(t, lower, true), Cofactor(f, lower, true)),
           Make(upper, Cofactor(t, lower, false), Cofactor(f, lower, false)))
  }

  lemma {:induction false} SwapKeepsMeaning(upper: KernelId, lower: KernelId, d: Tree, v: Valuation)
    requires 2 <= upper && 2 <= lower
    ensures Eval(SwapTree(upper, lower, d), v) == Eval(d, v)
    decreases d
  {
    match d
    case Leaf(_) =>
    case Branch(k, t, f) =>
      SwapKeepsMeaning(upper, lower, t, v);
      SwapKeepsMeaning(upper, lower, f, v);
      CofactorEval(t, lower, v);
      CofactorEval(f, lower, v);
  }

  lemma {:induction false} SwapKernels(upper: KernelId, lower: KernelId, d: Tree)
    requires 2 <= upper && 2 <= lower
    ensures Kernels(SwapTree(upper, lower, d)) <= Kernels(d)
    ensures upper !in Kernels(d) ==> SwapTree(upper, lower, d) == d
    decreases d
  {
    match d
    case Leaf(_) =>
    case Branch(k, t, f) =>
      SwapKernels(upper, lower, t);
      SwapKernels(upper, lower, f);
  }

  /** Any other kernel is on the same side of both neighbours, before and after. */
  lemma ExchangedOrder(order: Orders, upper: KernelId, lower: KernelId, j: KernelId, k: KernelId)
    requires Neighbours(order, upper, lower) && j < |order| && k < |order|
    requires DistinctOrders(order)
    ensures var after := Exchanged(order, upper, lower);
      && (order[j].Before(order[k]) && !(j == upper && k == lower) ==> after[j].Before(after[k]))
      && after[lower].Before(after[upper])
      && (order[upper].Before(order[k]) && k != lower ==> order[lower].Before(order[k]))
  {
  }

  lemma ExchangedAbove(order: Orders, upper: KernelId, lower: KernelId, j: KernelId, d: Tree)
    requires Neighbours(order, upper, lower) && DistinctOrders(order)
    requires Ordered(order, d) && Above(order, j, d) && !(j == upper && RootIs(d, lower))
    ensures Above(Exchanged(order, upper, lower), j, d)
  {
    if d.Branch? { ExchangedOrder(order, upper, lower, j, d.kernel); }
  }

  /** A diagram below both neighbours is ordered as before. */
  lemma {:induction false} LowOrdered(order: Orders, upper: KernelId, lower: KernelId, d: Tree)
    requires Neighbours(order, upper, lower) && DistinctOrders(order)
    requires Ordered(order, d) && upper !in Kernels(d)
    ensures Ordered(Exchanged(order, upper, lower), d)
    decreases d
  {
    match d
    case Leaf(_) =>
    case Branch(k, t, f) =>
      LowOrdered(order, upper, lower, t);
      LowOrdered(order, upper, lower, f);
      ExchangedAbove(order, upper, lower, k, t);
      ExchangedAbove(order, upper, lower, k, f);
  }

  /** What lies below upper, apart from a root lower, lies below lower. */
  lemma BelowUpper(order: Orders, upper: KernelId, lower: KernelId, d: Tree)
    requires Neighbours(order, upper, lower) && DistinctOrders(order)
    requires Ordered(order, d) && Above(order, upper, d)
    ensures forall b: bool :: Low(order, upper, lower, Cofactor(d, lower, b))
    ensures !RootIs(d, lower) ==> Low(order, upper, lower, d)
  {
    if d.Branch? { ExchangedOrder(order, upper, lower, upper, d.kernel); }
    forall b: bool ensures Low(order, upper, lower, Cofactor(d, lower, b)) {
      var c := Cofactor(d, lower, b);
      KernelsBelow(order, upper, d);
      KernelsBelow(order, lower, c);
      assert Kernels(c) <= Kernels(d);
    }
  }

  /** The diagram lies strictly below both neighbours. */
  ghost predicate Low(order: Orders, upper: KernelId, lower: KernelId, d: Tree) {
    Ordered(order, d) && Above(order, lower, d) && upper !in Kernels(d) && lower !in Kernels(d)
  }

  lemma MadeOrdered(order: Orders, upper: KernelId, lower: KernelId, t: Tree, f: Tree)
    requires Neighbours(order, upper, lower) && DistinctOrders(order)
    requires Low(order, upper, lower, t) && Low(order, upper, lower, f)
    ensures var after := Exchanged(order, upper, lower);
      Ordered(after, Make(upper, t, f)) && Above(after, lower, Make(upper, t, f))
  {
    var after := Exchanged(order, upper, lower);
    LowOrdered(order, upper, lower, t);
    LowOrdered(order, upper, lower, f);
    ExchangedAbove(order, upper, lower, lower, t);
    ExchangedAbove(order, upper, lower, lower, f);
    ExchangedOrder(order, upper, lower, upper, lower);
    forall d | (d == t || d == f) && d.Branch? ensures after[upper].Before(after[d.kernel]) {
      BeforeIsStrictTotalOrder(order[upper], order[lower], order[d.kernel]);
      ExchangedOrder(order, upper, lower, upper, d.kernel);
      assert d.kernel in Kernels(d);
    }
  }

  /** The exchange leaves an ordered diagram ordered for the exchanged order. */
  lemma {:induction false} SwapOrdered(order: Orders, upper: KernelId, lower: KernelId, d: Tree)
    requires Neighbours(order, upper, lower) && DistinctOrders(order) && Ordered(order, d)
    ensures Ordered(Exchanged(order, upper, lower), SwapTree(upper, lower, d))
    ensures forall j: KernelId :: Above(order, j, d) && j != upper
                        ==> Above(Exchanged(order, upper, lower), j, SwapTree(upper, lower, d))
    decreases d
  {
    var after := Exchanged(order, upper, lower);
    match d
    case Leaf(_) =>
    case Branch(k, t, f) =>
      if k != upper {
        SwapOrdered(order, upper, lower, t);
        SwapOrdered(order, upper, lower, f);
      } else {
        BelowUpper(order, upper, lower, t);
        BelowUpper(order, upper, lower, f);
        if RootIs(t, lower) || RootIs(f, lower) {
          MadeOrdered(order, upper, lower, Cofactor(t, lower, true), Cofactor(f, lower, true));
          MadeOrdered(order, upper, lower, Cofactor(t, lower, false), Cofactor(f, lower, false));
        } else {
          MadeOrdered(order, upper, lower, t, f);
          LowOrdered(order, upper, lower, t);
          LowOrdered(order, upper, lower, f);
          ExchangedAbove(order, upper, lower, upper, t);
          ExchangedAbove(order, upper, lower, upper, f);
        }
      }
      forall j: KernelId | Above(order, j, d) && j != upper ensures Above(after, j, SwapTree(upper, lower, d)) {
        ExchangedOrder(order, upper, lower, j, k);
        ExchangedOrder(order, upper, lower, j, lower);
        BeforeIsStrictTotalOrder(order[j], order[upper], order[lower]);
      }
  }

  /** The turned branches differ, so a turned node stays reduced. */
  lemma TurnedBranchesDiffer(order: Orders, upper: KernelId, lower: KernelId, t: Tree, f: Tree)
    requires Neighbours(order, upper, lower) && DistinctOrders(order)
    requires Ordered(order, Branch(upper, t, f)) && Reduced(t) && Reduced(f) && t != f
    requires RootIs(t, lower) || RootIs(f, lower)
    ensures Turned(upper, lower, t, f).truebranch != Turned(upper, lower, t, f).falsebranch
    ensures RootIs(Turned(upper, lower, t, f).truebranch, upper) || RootIs(Turned(upper, lower, t, f).falsebranch, upper)
  {
    BelowUpper(order, upper, lower, t);
    BelowUpper(order, upper, lower, f);
    assert forall b :: !RootIs(Cofactor(t, lower, b), upper);
    assert forall b :: !RootIs(Cofactor(f, lower, b), upper);
  }
}
