/** The kernels of a manager, their places in the order, and the memo tables. */
module ManagerState {
  import opened KernelOrders
  import opened Diagrams
  import opened Syntax
  import opened Semantics
  import opened Store
  import opened WellSorted

  type NextOrder = map<KernelOrderCategory, nat>
  type AtomKey = (PFSymbol, AtomKernelType, seq<Term>)
  type QuantKey = (Sort, NodeId)

  /** Equality has two arguments and no table of certain falsehoods. */
  predicate ProperAtom(symbol: PFSymbol, akt: AtomKernelType, args: seq<Term>) {
    symbol.EqualityPredicate? ==> |args| == 2 && !akt.AKT_CF?
  }

  /** Such an equation is never stored: it is the true kernel. */
  predicate SelfEquation(symbol: PFSymbol, args: seq<Term>) {
    symbol.EqualityPredicate? && |args| == 2 && args[0] == args[1]
  }

  /** All kernels with their orders, the table from orders back to kernels, the numbers
      handed out so far, and the tables that find a kernel by its contents. */
  datatype KernelTable = KernelTable(
    kernels: seq<Kernel>, orders: Orders, place: map<KernelOrder, KernelId>, next: NextOrder,
    atoms: map<AtomKey, KernelId>, quants: map<QuantKey, KernelId>)
  {
    ghost predicate Ok() {
      && 2 <= |kernels| == |orders|
      && kernels[TRUEKERNEL] == TrueKernel && orders[TRUEKERNEL] == KernelOrder(TRUEFALSECATEGORY, 0)
      && kernels[FALSEKERNEL] == FalseKernel && orders[FALSEKERNEL] == KernelOrder(TRUEFALSECATEGORY, 1)
      && (forall k :: 2 <= k < |kernels| ==> Placed(k))
      && (forall o :: o in place ==> 2 <= place[o] < |kernels| && orders[place[o]] == o)
      && (forall o :: o in place <==> Numbered(o))
      && (forall key :: key in atoms ==> 2 <= atoms[key] < |kernels| && kernels[atoms[key]] == AtomKernel(key.0, key.1, key.2))
      && (forall key :: key in quants ==> 2 <= quants[key] < |kernels| && kernels[quants[key]] == QuantKernel(key.0, key.1))
      && STANDARDCATEGORY in next && DEBRUIJNCATEGORY in next
    }

    /** The kernel is found by its order and by its contents. */
    ghost predicate Placed(k: KernelId)
      requires 2 <= k < |kernels| == |orders|
    {
      && orders[k] in place && place[orders[k]] == k
      && match kernels[k]
         case AtomKernel(symbol, akt, args) =>
           && ProperAtom(symbol, akt, args) && !SelfEquation(symbol, args)
           && (symbol, akt, args) in atoms && atoms[(symbol, akt, args)] == k
         case QuantKernel(sort, b) => 2 <= b && (sort, b) in quants && quants[(sort, b)] == k
         case _ => false
    }

    /** The numbers of a category are handed out consecutively. */
    predicate Numbered(o: KernelOrder) {
      !o.category.TRUEFALSECATEGORY? && o.category in next && o.number < next[o.category]
    }

    lemma Distinct()
      requires Ok()
      ensures DistinctOrders(orders)
    {
      forall i, j | 0 <= i < j < |orders| ensures orders[i] != orders[j] {
        assert i >= 2 ==> Placed(i);
        assert j >= 2 ==> Placed(j);
      }
    }
  }

  // ---------- what the operations mean ----------

  ghost predicate IsNegation(r: Tree, a: Tree) {
    && Kernels(r) <= Kernels(a)
    && forall v: Valuation :: Eval(r, v) == !Eval(a, v)
  }

  datatype Connective = CONJUNCTION | DISJUNCTION
  {
    function Apply(a: bool, b: bool): bool {
      match this
      case CONJUNCTION => a && b
      case DISJUNCTION => a || b
    }
  }

  ghost predicate IsConnective(op: Connective, r: Tree, a: Tree, b: Tree) {
    && Kernels(r) <= Kernels(a) + Kernels(b)
    && forall v: Valuation :: Eval(r, v) == op.Apply(Eval(a, v), Eval(b, v))
  }

  /** The two terminal kernels have a fixed value. */
  function KernelValue(k: KernelId, v: Valuation): bool {
    if k == TRUEKERNEL then true else if k == FALSEKERNEL then false else v(k)
  }

  ghost predicate IsIfThenElse(r: Tree, k: KernelId, t: Tree, f: Tree) {
    && Kernels(r) <= (if k < 2 then {} else {k}) + Kernels(t) + Kernels(f)
    && forall v: Valuation :: Eval(r, v) == if KernelValue(k, v) then Eval(t, v) else Eval(f, v)
  }

  ghost predicate NoIndex(w: World, d: Tree) {
    forall i: nat :: !w.TreeContains(|w.kernels|, d, i)
  }

  ghost predicate OnlyIndexZero(w: World, d: Tree) {
    forall i: nat :: w.TreeContains(|w.kernels|, d, i) ==> i == 0
  }

  /** Diagram r says that some element of the sort, as index 0, makes d true. */
  ghost predicate IsQuantification(w: World, r: Tree, sort: Sort, d: Tree) {
    && NoIndex(w, r)
    && (BodySorted(w, sort, d) ==> DiagramSorted(w, r))
    && forall S: Structure, e: Env :: S.RespectsBuiltin(sort) ==> (w.Holds(r, S, e) <==> w.SomeElement(sort, d, S, e))
  }

  predicate EmptyBuiltin(sort: Sort) {
    sort.builtin && sort.empty
  }

  /** The tables that remember results of operations; the tables for conjunction and
      disjunction are one table here, with the connective in the key. */
  datatype Memo = Memo(
    negation: map<NodeId, NodeId>,
    connective: map<(Connective, NodeId, NodeId), NodeId>,
    ifthenelse: map<(KernelId, NodeId, NodeId), NodeId>,
    quant: map<QuantKey, NodeId>)
  {
    /** Every remembered result denotes its operation applied to its keys. */
    ghost predicate Ok(w: World, order: Orders) {
      && (forall a :: a in negation ==> NegationOk(w.trees, order, a))
      && (forall p :: p in connective ==> ConnectiveOk(w.trees, order, p))
      && (forall q :: q in ifthenelse ==> IfThenElseOk(w.trees, order, q))
      && (forall p :: p in quant ==> QuantOk(w, p))
    }

    ghost predicate NegationOk(trees: seq<Tree>, order: Orders, a: NodeId)
      requires a in negation
    {
      && a < |trees| && negation[a] < |trees| && IsNegation(trees[negation[a]], trees[a])
      && (Ordered(order, trees[a]) ==> Ordered(order, trees[negation[a]]))
    }

    ghost predicate ConnectiveOk(trees: seq<Tree>, order: Orders, p: (Connective, NodeId, NodeId))
      requires p in connective
    {
      && p.1 < |trees| && p.2 < |trees| && connective[p] < |trees|
      && IsConnective(p.0, trees[connective[p]], trees[p.1], trees[p.2])
      && (Ordered(order, trees[p.1]) && Ordered(order, trees[p.2]) ==> Ordered(order, trees[connective[p]]))
    }

    ghost predicate IfThenElseOk(trees: seq<Tree>, order: Orders, q: (KernelId, NodeId, NodeId))
      requires q in ifthenelse
    {
      && q.0 < |order| && q.1 < |trees| && q.2 < |trees| && ifthenelse[q] < |trees|
      && IsIfThenElse(trees[ifthenelse[q]], q.0, trees[q.1], trees[q.2])
      && (Ordered(order, trees[q.1]) && Ordered(order, trees[q.2]) ==> Ordered(order, trees[ifthenelse[q]]))
    }

    ghost predicate QuantOk(w: World, p: QuantKey)
      requires p in quant
    {
      && p.1 < |w.trees| && quant[p] < |w.trees|
      && (OnlyIndexZero(w, w.trees[p.1]) && !EmptyBuiltin(p.0) ==> IsQuantification(w, w.trees[quant[p]], p.0, w.trees[p.1]))
    }
  }

  const NOTHING_REMEMBERED := Memo(map[], map[], map[], map[])

  // ---------- the whole state ----------

  datatype State = State(table: KernelTable, graph: Graph, unique: map<BddKey, NodeId>, memo: Memo)
  {
    function World(): World {
      Semantics.World.World(table.kernels, graph.trees)
    }

    ghost predicate Ok() {
      && table.Ok()
      && graph.Unfolds()
      && graph.Indexed(unique)
      && NodesKnown()
      && World().Nested()
      && Categorised()
      && NestedOrdered()
      && memo.Ok(World(), table.orders)
    }

    /** Whatever is nested under a quantifier is ordered, even in a state that is not sorted. */
    ghost predicate NestedOrdered() {
      forall k {:trigger NestedOrderedAt(k)} :: 0 <= k < |table.kernels| && table.kernels[k].QuantKernel? ==> NestedOrderedAt(k)
    }

    ghost predicate NestedOrderedAt(k: KernelId)
      requires k < |table.kernels| && table.kernels[k].QuantKernel?
    {
      table.kernels[k].bdd < |graph.trees| && Ordered(table.orders, graph.trees[table.kernels[k].bdd])
    }

    ghost predicate NodesKnown() {
      forall n :: 2 <= n < |graph.nodes| ==> graph.nodes[n].kernel < |table.kernels|
    }

    /** The category of a kernel tells whether it contains De Bruijn index 0. */
    ghost predicate Categorised() {
      forall k :: 2 <= k < |table.kernels| ==> CategorisedAt(k)
    }

    ghost predicate CategorisedAt(k: KernelId) {
      k < |table.orders| && (table.orders[k].category.DEBRUIJNCATEGORY? <==> World().KernelContains(k, 0))
    }

    /** All nodes respect the kernel order. */
    ghost predicate Sorted()
      requires graph.Unfolds()
    {
      graph.Sorted(table.orders)
    }

    /** Kernel k comes before the diagrams of both nodes. */
    ghost predicate Precedes(k: KernelId, t: NodeId, f: NodeId)
      requires t < |graph.trees| && f < |graph.trees|
    {
      Above(table.orders, k, graph.trees[t]) && Above(table.orders, k, graph.trees[f])
    }
  }

  lemma {:induction false} TreeWithin(s: State, n: NodeId)
    requires s.graph.Unfolds() && s.NodesKnown() && n < |s.graph.trees|
    ensures Within(s.graph.trees[n], |s.table.kernels|)
    decreases s.graph.trees[n]
  {
    if n >= 2 {
      assert s.graph.UnfoldsAt(n);
      TreeWithin(s, s.graph.nodes[n].truebranch);
      TreeWithin(s, s.graph.nodes[n].falsebranch);
    }
  }

  lemma NodeOrderedLater(s: State, order': Orders, n: NodeId)
    requires s.graph.Unfolds() && s.NodesKnown() && n < |s.graph.trees| && |s.table.kernels| == |s.table.orders| && s.table.orders <= order'
    ensures Ordered(order', s.graph.trees[n]) <==> Ordered(s.table.orders, s.graph.trees[n])
  {
    TreeWithin(s, n);
    OrderedLater(s.table.orders, order', s.graph.trees[n]);
  }

  // ---------- remembered results stay right ----------

  /** What a later world says about the indices and the meaning of present diagrams. */
  lemma DiagramKept(w: World, w': World, d: Tree)
    requires w.Nested() && w'.Nested() && Keeps(w, w') && Within(d, |w.kernels|)
    ensures forall i: nat :: w'.TreeContains(|w'.kernels|, d, i) == w.TreeContains(|w.kernels|, d, i)
    ensures forall S: Structure, e: Env :: w'.Holds(d, S, e) == w.Holds(d, S, e)
  {
    forall i: nat ensures w'.TreeContains(|w'.kernels|, d, i) == w.TreeContains(|w.kernels|, d, i) {
      TreeContainsKernel(w, |w.kernels|, d, i);
      TreeContainsKernel(w', |w'.kernels|, d, i);
      forall j | j in Kernels(d) ensures w'.KernelContains(j, i) == w.KernelContains(j, i) { KernelContainsKept(w, w', j, i); }
    }
    forall S: Structure, e: Env { TreeKept(w, w', d, S, e); }
  }

  lemma QuantificationKept(w: World, w': World, r: Tree, sort: Sort, d: Tree)
    requires w.Nested() && w'.Nested() && Keeps(w, w') && Within(r, |w.kernels|) && Within(d, |w.kernels|)
    requires IsQuantification(w, r, sort, d)
    ensures IsQuantification(w', r, sort, d)
  {
    DiagramKept(w, w', r);
    DiagramKept(w, w', d);
    SortedKept(w, w', r);
    SortedKept(w, w', d);
    forall S: Structure, e: Env | S.RespectsBuiltin(sort) ensures w'.Holds(r, S, e) <==> w'.SomeElement(sort, d, S, e) {
      assert w.Holds(r, S, e) <==> w.SomeElement(sort, d, S, e);
    }
  }

  lemma PrefixKeeps(w: World, w': World)
    requires w.kernels <= w'.kernels && w.trees <= w'.trees
    ensures Keeps(w, w')
  {
  }

  lemma MemoGrows(s: State, w': World, order': Orders)
    requires s.Ok() && s.table.kernels <= w'.kernels && s.graph.trees <= w'.trees && w'.Nested() && s.table.orders <= order'
    ensures s.memo.Ok(w', order')
  {
    var m, w := s.memo, s.World();
    PrefixKeeps(w, w');
    forall a | a in m.negation ensures m.NegationOk(w'.trees, order', a) {
      assert m.NegationOk(w.trees, s.table.orders, a);
      NodeOrderedLater(s, order', a);
      NodeOrderedLater(s, order', m.negation[a]);
    }
    forall p | p in m.connective ensures m.ConnectiveOk(w'.trees, order', p) {
      assert m.ConnectiveOk(w.trees, s.table.orders, p);
      NodeOrderedLater(s, order', p.1);
      NodeOrderedLater(s, order', p.2);
      NodeOrderedLater(s, order', m.connective[p]);
    }
    forall q | q in m.ifthenelse ensures m.IfThenElseOk(w'.trees, order', q) {
      assert m.IfThenElseOk(w.trees, s.table.orders, q);
      NodeOrderedLater(s, order', q.1);
      NodeOrderedLater(s, order', q.2);
      NodeOrderedLater(s, order', m.ifthenelse[q]);
    }
    forall p | p in m.quant ensures m.QuantOk(w', p) {
      assert m.QuantOk(w, p);
      TreeWithin(s, p.1);
      TreeWithin(s, m.quant[p]);
      DiagramKept(w, w', w.trees[p.1]);
      if OnlyIndexZero(w', w'.trees[p.1]) && !EmptyBuiltin(p.0) {
        QuantificationKept(w, w', w.trees[m.quant[p]], p.0, w.trees[p.1]);
      }
    }
  }
}
