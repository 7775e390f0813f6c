/** Decision diagrams as values: what a node of the manager denotes once all its
    pointers are followed.  Kernels are known by their identity (a number). */
module Diagrams {
  import opened KernelOrders

  type KernelId = nat

  datatype Tree =
    | Leaf(value: bool)
    | Branch(kernel: KernelId, truebranch: Tree, falsebranch: Tree)

  /** A truth value for every kernel. */
  type Valuation = KernelId -> bool

  function Eval(d: Tree, v: Valuation): bool {
    match d
    case Leaf(b) => b
    case Branch(k, t, f) => if v(k) then Eval(t, v) else Eval(f, v)
  }

  function Assign(v: Valuation, k: KernelId, b: bool): Valuation {
    (j: KernelId) => if j == k then b else v(j)
  }

  function Kernels(d: Tree): set<KernelId> {
    match d
    case Leaf(_) => {}
    case Branch(k, t, f) => {k} + Kernels(t) + Kernels(f)
  }

  function Size(d: Tree): nat {
    match d
    case Leaf(_) => 0
    case Branch(_, t, f) => 1 + Size(t) + Size(f)
  }

  ghost predicate Equivalent(a: Tree, b: Tree) {
    forall v: Valuation :: Eval(a, v) == Eval(b, v)
  }

  /** No node has two equal branches. */
  predicate Reduced(d: Tree) {
    match d
    case Leaf(_) => true
    case Branch(_, t, f) => t != f && Reduced(t) && Reduced(f)
  }

  type Orders = seq<KernelOrder>

  /** Kernel k comes before the root of d. */
  predicate Above(order: Orders, k: KernelId, d: Tree) {
    k < |order| && (d.Branch? ==> d.kernel < |order| && order[k].Before(order[d.kernel]))
  }

  /** Kernels strictly advance along every path. */
  predicate Ordered(order: Orders, d: Tree) {
    match d
    case Leaf(_) => true
    case Branch(k, t, f) => Above(order, k, t) && Above(order, k, f) && Ordered(order, t) && Ordered(order, f)
  }

  /** Kernels made later do not disturb the order of present diagrams. */
  lemma {:induction false} OrderedLater(order: Orders, order': Orders, d: Tree)
    requires order <= order' && forall j :: j in Kernels(d) ==> j < |order|
    ensures Ordered(order, d) <==> Ordered(order', d)
    decreases d
  {
    match d
    case Leaf(_) =>
    case Branch(k, t, f) =>
      assert k in Kernels(d) && Kernels(t) <= Kernels(d) && Kernels(f) <= Kernels(d);
      assert t.Branch? ==> t.kernel in Kernels(t);
      assert f.Branch? ==> f.kernel in Kernels(f);
      OrderedLater(order, order', t);
      OrderedLater(order, order', f);
  }

  /** No path tests a kernel twice. */
  predicate ReadOnce(d: Tree) {
    match d
    case Leaf(_) => true
    case Branch(k, t, f) => k !in Kernels(t) && k !in Kernels(f) && ReadOnce(t) && ReadOnce(f)
  }

  // ---------- what a diagram depends on ----------

  lemma {:induction false} EvalDependsOnKernels(d: Tree, v: Valuation, w: Valuation)
    requires forall k :: k in Kernels(d) ==> v(k) == w(k)
    ensures Eval(d, v) == Eval(d, w)
  {
    match d
    case Leaf(_) =>
    case Branch(k, t, f) =>
      EvalDependsOnKernels(t, v, w);
      EvalDependsOnKernels(f, v, w);
  }

  lemma {:induction false} KernelsBelow(order: Orders, k: KernelId, d: Tree)
    requires Ordered(order, d) && Above(order, k, d)
    ensures forall j :: j in Kernels(d) ==> j < |order| && order[k].Before(order[j])
    ensures k !in Kernels(d)
    decreases d
  {
    match d
    case Leaf(_) =>
    case Branch(j, t, f) =>
      KernelsBelow(order, j, t);
      KernelsBelow(order, j, f);
      forall i | i in Kernels(d) ensures i < |order| && order[k].Before(order[i]) {
        BeforeIsStrictTotalOrder(order[k], order[j], order[i]);
      }
      BeforeIsStrictTotalOrder(order[k], order[k], order[k]);
  }

  lemma {:induction false} OrderedIsReadOnce(order: Orders, d: Tree)
    requires Ordered(order, d)
    ensures ReadOnce(d)
    decreases d
  {
    match d
    case Leaf(_) =>
    case Branch(k, t, f) =>
      KernelsBelow(order, k, t);
      KernelsBelow(order, k, f);
      OrderedIsReadOnce(order, t);
      OrderedIsReadOnce(order, f);
  }

  lemma AssignElsewhere(d: Tree, v: Valuation, k: KernelId, b: bool)
    requires k !in Kernels(d)
    ensures Eval(d, Assign(v, k, b)) == Eval(d, v)
  {
    EvalDependsOnKernels(d, Assign(v, k, b), v);
  }

  /** The part of a diagram that remains when kernel k is known to be b at its root. */
  function Cofactor(d: Tree, k: KernelId, b: bool): Tree {
    if d.Branch? && d.kernel == k then if b then d.truebranch else d.falsebranch else d
  }

  lemma CofactorEval(d: Tree, k: KernelId, v: Valuation)
    ensures Eval(d, v) == Eval(Cofactor(d, k, v(k)), v)
  {
  }

  // ---------- canonicity ----------

  predicate DistinctOrders(order: Orders) {
    forall i, j :: 0 <= i < j < |order| ==> order[i] != order[j]
  }

  /** Two different ordered and reduced diagrams differ on some valuation. */
  lemma {:induction false} Distinguish(order: Orders, a: Tree, b: Tree) returns (v: Valuation)
    requires DistinctOrders(order)
    requires Ordered(order, a) && Reduced(a) && Ordered(order, b) && Reduced(b)
    requires a != b
    ensures Eval(a, v) != Eval(b, v)
    decreases Size(a) + Size(b)
  {
    if a.Leaf? && b.Leaf? {
      v := (k: KernelId) => true;
    } else if a.Branch? && Above(order, a.kernel, b) {
      v := DistinguishAbove(order, a, b);
    } else if b.Branch? && Above(order, b.kernel, a) {
      v := DistinguishAbove(order, b, a);
    } else {
      BeforeIsStrictTotalOrder(order[a.kernel], order[b.kernel], order[a.kernel]);
      assert a.kernel == b.kernel;
      var k := a.kernel;
      KernelsBelow(order, k, a.truebranch);
      KernelsBelow(order, k, a.falsebranch);
      KernelsBelow(order, k, b.truebranch);
      KernelsBelow(order, k, b.falsebranch);
      if a.truebranch != b.truebranch {
        var w := Distinguish(order, a.truebranch, b.truebranch);
        v := Assign(w, k, true);
        AssignElsewhere(a.truebranch, w, k, true);
        AssignElsewhere(b.truebranch, w, k, true);
      } else {
        var w := Distinguish(order, a.falsebranch, b.falsebranch);
        v := Assign(w, k, false);
        AssignElsewhere(a.falsebranch, w, k, false);
        AssignElsewhere(b.falsebranch, w, k, false);
      }
    }
  }

  /** The root of a comes before everything in b, so b cannot follow a when that root flips. */
  lemma {:induction false} DistinguishAbove(order: Orders, a: Tree, b: Tree) returns (v: Valuation)
    requires DistinctOrders(order)
    requires Ordered(order, a) && Reduced(a) && Ordered(order, b) && Reduced(b)
    requires a.Branch? && Above(order, a.kernel, b)
    ensures Eval(a, v) != Eval(b, v)
    decreases Size(a) + Size(b), 0
  {
    var k := a.kernel;
    var w := Distinguish(order, a.truebranch, a.falsebranch);
    KernelsBelow(order, k, a.truebranch);
    KernelsBelow(order, k, a.falsebranch);
    KernelsBelow(order, k, b);
    AssignElsewhere(a.truebranch, w, k, true);
    AssignElsewhere(a.falsebranch, w, k, false);
    AssignElsewhere(b, w, k, true);
    AssignElsewhere(b, w, k, false);
    v := if Eval(a.truebranch, w) != Eval(b, w) then Assign(w, k, true) else Assign(w, k, false);
  }

  /** Canonical form: an ordered and reduced diagram is determined by its truth function. */
  lemma Canonical(order: Orders, a: Tree, b: Tree)
    requires DistinctOrders(order)
    requires Ordered(order, a) && Reduced(a) && Ordered(order, b) && Reduced(b)
    ensures a == b <==> Equivalent(a, b)
  {
    if a != b {
      var v := Distinguish(order, a, b);
    }
  }

  /** Every kernel of an ordered and reduced diagram matters. */
  lemma {:induction false} KernelMatters(order: Orders, d: Tree, k: KernelId) returns (v: Valuation)
    requires DistinctOrders(order) && Ordered(order, d) && Reduced(d) && k in Kernels(d)
    ensures Eval(d, Assign(v, k, true)) != Eval(d, Assign(v, k, false))
    decreases d
  {
    var j, t, f := d.kernel, d.truebranch, d.falsebranch;
    KernelsBelow(order, j, t);
    KernelsBelow(order, j, f);
    if j == k {
      v := Distinguish(order, t, f);
      AssignElsewhere(t, v, k, true);
      AssignElsewhere(f, v, k, false);
    } else {
      var side := k in Kernels(t);
      var sub := if side then t else f;
      var w := KernelMatters(order, sub, k);
      v := Assign(w, j, side);
      EvalDependsOnKernels(sub, Assign(v, k, true), Assign(w, k, true));
      EvalDependsOnKernels(sub, Assign(v, k, false), Assign(w, k, false));
    }
  }

  /** Hence equivalent diagrams, each reduced for an order of its own, mention the same kernels. */
  lemma EquivalentKernels(orderA: Orders, a: Tree, orderB: Orders, b: Tree)
    requires DistinctOrders(orderA) && Ordered(orderA, a) && Reduced(a)
    requires DistinctOrders(orderB) && Ordered(orderB, b) && Reduced(b)
    requires Equivalent(a, b)
    ensures Kernels(a) == Kernels(b)
  {
    forall k | k in Kernels(a) ensures k in Kernels(b) {
      var v := KernelMatters(orderA, a, k);
      if k !in Kernels(b) {
        AssignElsewhere(b, v, k, true);
        AssignElsewhere(b, v, k, false);
      }
    }
    forall k | k in Kernels(b) ensures k in Kernels(a) {
      var v := KernelMatters(orderB, b, k);
      if k !in Kernels(a) {
        AssignElsewhere(a, v, k, true);
        AssignElsewhere(a, v, k, false);
      }
    }
  }
}
