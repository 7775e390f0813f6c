/** Rebuilding a diagram with changed terms gives the meaning of the old one elsewhere. */
module Rebuilding {
  import opened Diagrams
  import opened Syntax
  import opened Semantics
  import opened Store
  import opened ManagerState
  import opened Operations
  import opened Quantification
  import opened Visitors
  import opened Renaming
  import opened WellSorted

  /** The visitor suits all terms in the kernels, one binder deeper in the nested ones. */
  ghost predicate SuitsAll(w: World, v: Visitor, bound: nat, ks: set<KernelId>)
    decreases bound
  {
    bound > 0 ==> (forall t :: t in ArgsOf(w, ks) ==> v.Suits(t)) && SuitsAll(w, v.Under(), bound - 1, NestedKernels(w, ks))
  }

  lemma {:induction false} OthersSuit(w: World, v: Visitor, bound: nat, ks: set<KernelId>)
    requires !v.SubstituteIndex?
    ensures SuitsAll(w, v, bound, ks)
    decreases bound
  {
    if bound > 0 { OthersSuit(w, v.Under(), bound - 1, NestedKernels(w, ks)); }
  }

  /** No diagram nested over a sort that is empty in S becomes true; this can be told before the change is made. */
  ghost predicate Harmless(w: World, v: Visitor, bound: nat, ks: set<KernelId>, S: Structure)
    decreases bound
  {
    bound > 0 ==>
      && (forall k :: k in ks ==> HarmlessAt(w, v, k, S))
      && Harmless(w, v.Under(), bound - 1, NestedKernels(w, ks), S)
  }

  ghost predicate HarmlessAt(w: World, v: Visitor, k: KernelId, S: Structure) {
    k < |w.kernels| && w.kernels[k].QuantKernel? && S.universe(w.kernels[k].sort) == iset{} ==> !BecomesTerminal(w, v, k, true)
  }

  /** Every sort that is quantified over in some kernel has an element. */
  ghost predicate Inhabited(w: World, S: Structure) {
    forall k :: 0 <= k < |w.kernels| && w.kernels[k].QuantKernel? ==> S.universe(w.kernels[k].sort) != iset{}
  }

  lemma {:induction false} InhabitedHarmless(w: World, v: Visitor, bound: nat, ks: set<KernelId>, S: Structure)
    requires Inhabited(w, S)
    ensures Harmless(w, v, bound, ks, S)
    decreases bound
  {
    if bound > 0 { InhabitedHarmless(w, v.Under(), bound - 1, NestedKernels(w, ks), S); }
  }

  /** A change that keeps different terms apart is right in every structure, with empty sorts or not. */
  lemma {:induction false} ApartHarmless(s: State, v: Visitor, bound: nat, ks: set<KernelId>, S: Structure)
    requires s.Ok() && KeepsApart(s.World(), v, bound, ks) && forall k :: k in ks ==> k < bound
    ensures Harmless(s.World(), v, bound, ks, S)
    decreases bound
  {
    if bound > 0 {
      NestedBelow(s.World(), bound, ks);
      ApartBecome(s, v, bound, ks);
      ApartHarmless(s, v.Under(), bound - 1, NestedKernels(s.World(), ks), S);
    }
  }

  // ---------- meaning ----------

  lemma AtomRenamed(w: World, v: Visitor, k: KernelId, k': KernelId, S: Structure, e: Env)
    requires Terminals(w) && v.Ok() && v.Fits(e) && Renames(w, v, k, k') && w.kernels[k].AtomKernel?
    requires ProperAtom(w.kernels[k].symbol, w.kernels[k].akt, w.kernels[k].args) && v.SuitsArgs(w.kernels[k].args)
    ensures w.KernelHolds(k', S, e) == w.KernelHolds(k, S, v.Target(S, e))
  {
    var args := v.ChangeArgs(w.kernels[k].args);
    v.ArgsChanged(w.kernels[k].args, S, e);
    assert |args| == 2 && args[0] == args[1] ==> ArgValues(args, S, e)[0] == ArgValues(args, S, e)[1];
  }

  /** A quantified kernel keeps its meaning if and only if it did not become true over an empty sort. */
  lemma QuantRenamed(w: World, v: Visitor, k: KernelId, k': KernelId, S: Structure, e: Env)
    requires Terminals(w) && w.Nested() && v.Ok() && v.Fits(e) && Renames(w, v, k, k') && w.kernels[k].QuantKernel?
    requires forall x :: var d' := if k' < 2 then Leaf(k' == TRUEKERNEL) else w.trees[w.kernels[k'].bdd];
      w.Holds(d', S, e.Push(x)) == w.Holds(w.trees[w.kernels[k].bdd], S, v.Target(S, e).Push(x))
    ensures w.KernelHolds(k', S, e) == w.KernelHolds(k, S, v.Target(S, e))
      <==> !(k' == TRUEKERNEL && S.universe(w.kernels[k].sort) == iset{})
  {
    assert w.NestedAt(k);
    w.QuantKernelHolds(k, S, v.Target(S, e));
    if k' < 2 {
      forall x { w.HoldsBranch(0, Leaf(true), Leaf(true), S, e.Push(x)); }
    } else {
      assert w.NestedAt(k');
      w.QuantKernelHolds(k', S, e);
    }
  }

  ghost predicate ProperAtoms(w: World) {
    forall k :: 0 <= k < |w.kernels| && w.kernels[k].AtomKernel? ==> ProperAtom(w.kernels[k].symbol, w.kernels[k].akt, w.kernels[k].args)
  }

  lemma WorldProper(s: State)
    requires s.Ok()
    ensures Terminals(s.World()) && ProperAtoms(s.World())
  {
    forall k | 0 <= k < |s.table.kernels| && s.table.kernels[k].AtomKernel?
      ensures ProperAtom(s.table.kernels[k].symbol, s.table.kernels[k].akt, s.table.kernels[k].args)
    {
      assert s.table.Placed(k);
    }
  }

  lemma {:induction false} KernelRenamed(w: World, v: Visitor, bound: nat, ks: set<KernelId>, k: KernelId, k': KernelId, S: Structure, e: Env)
    requires Terminals(w) && ProperAtoms(w) && w.Nested() && v.Ok() && v.Fits(e) && Renames(w, v, k, k')
    requires k in ks && k < bound && SuitsAll(w, v, bound, ks) && Harmless(w, v, bound, ks, S)
    ensures w.KernelHolds(k', S, e) == w.KernelHolds(k, S, v.Target(S, e))
    decreases bound, 0
  {
    if w.kernels[k].AtomKernel? {
      assert forall n :: 0 <= n < |w.kernels[k].args| ==> w.kernels[k].args[n] in ArgsOf(w, ks);
      AtomRenamed(w, v, k, k', S, e);
    } else {
      assert w.NestedAt(k) && HarmlessAt(w, v, k, S);
      if k' == TRUEKERNEL { TerminalImageBecomes(w, v, k + 1, k, k'); }
      var d, d' := w.trees[w.kernels[k].bdd], if k' < 2 then Leaf(k' == TRUEKERNEL) else w.trees[w.kernels[k'].bdd];
      var nested := NestedKernels(w, ks);
      assert forall j :: j in Kernels(d) ==> j in nested;
      forall x ensures w.Holds(d', S, e.Push(x)) == w.Holds(d, S, v.Target(S, e).Push(x)) {
        v.UnderBinder(S, e, x);
        TreeRenamed(w, v.Under(), bound - 1, nested, k, d, d', S, e.Push(x));
      }
      QuantRenamed(w, v, k, k', S, e);
    }
  }

  /** A diagram with changed terms, read in an environment, has the value of the old one in the changed
      environment, in every structure in which the change does no harm. */
  lemma {:induction false} TreeRenamed(w: World, v: Visitor, bound: nat, ks: set<KernelId>, bound': nat, d: Tree, d': Tree, S: Structure, e: Env)
    requires Terminals(w) && ProperAtoms(w) && w.Nested() && v.Ok() && v.Fits(e) && TreeRenames(w, v, bound', d, d')
    requires Kernels(d) <= ks && Within(d, bound) && SuitsAll(w, v, bound, ks) && Harmless(w, v, bound, ks, S)
    ensures w.Holds(d', S, e) == w.Holds(d, S, v.Target(S, e))
    decreases bound, 1
  {
    var R := RenamesBelow(w, v, bound');
    forall k, k' | k in Kernels(d) && R(k, k') ensures w.KernelHolds(k', S, e) == w.KernelHolds(k, S, v.Target(S, e)) {
      KernelRenamed(w, v, bound, ks, k, k', S, e);
    }
    MappedHolds(w, w, R, d, d', S, v.Target(S, e), e);
  }

  ghost predicate KernelMeansChanged(w: World, v: Visitor, k: KernelId, k': KernelId, S: Structure) {
    forall e: Env :: v.Fits(e) ==> w.KernelHolds(k', S, e) == w.KernelHolds(k, S, v.Target(S, e))
  }

  /** In a structure in which nothing goes wrong further inside, a quantified kernel will keep its meaning through a
      change if and only if its sort is not empty or its nested diagram does not become true; all of this is known
      before the change. */
  lemma QuantExactlyWhen(s: State, s': State, v: Visitor, k: KernelId, k': KernelId, S: Structure)
    requires s.Ok() && v.Ok() && 2 <= k < |s.table.kernels| && s.table.kernels[k].QuantKernel? && KernelChanged(s, s', v, k, k')
    requires s.table.kernels[k].bdd < |s.graph.trees|
    requires SuitsAll(s.World(), v.Under(), k, Kernels(s.graph.trees[s.table.kernels[k].bdd]))
    requires Harmless(s.World(), v.Under(), k, Kernels(s.graph.trees[s.table.kernels[k].bdd]), S)
    ensures KernelMeansChanged(s'.World(), v, k, k', S) <==>
            S.universe(s.table.kernels[k].sort) != iset{} || !BecomesTerminal(s.World(), v, k, true)
  {
    var w, w' := s.World(), s'.World();
    var d, d' := w'.trees[w'.kernels[k].bdd], NestedTree(w', k');
    assert w.NestedAt(k) && w'.NestedAt(k);
    WorldProper(s');
    ConditionsLater(w, w', v.Under(), k, Kernels(d));
    HarmlessLater(w, w', v.Under(), k, Kernels(d), S);
    forall e: Env | v.Fits(e)
      ensures w'.KernelHolds(k', S, e) == w'.KernelHolds(k, S, v.Target(S, e)) <==> !(k' == TRUEKERNEL && S.universe(w.kernels[k].sort) == iset{})
    {
      forall x ensures w'.Holds(d', S, e.Push(x)) == w'.Holds(d, S, v.Target(S, e).Push(x)) {
        v.UnderBinder(S, e, x);
        TreeRenamed(w', v.Under(), k, Kernels(d), k, d, d', S, e.Push(x));
      }
      QuantRenamed(w', v, k, k', S, e);
    }
    BecomesTrue(s, s', v, k, k');
    SomeEnvFits(v);
  }

  lemma BecomesTrue(s: State, s': State, v: Visitor, k: KernelId, k': KernelId)
    requires s.Ok() && KernelChanged(s, s', v, k, k')
    ensures k' == TRUEKERNEL <==> BecomesTerminal(s.World(), v, k, true)
  {
    BecomesKept(s.World(), s'.World(), v, k + 1, k, k);
    if k' == TRUEKERNEL { TerminalImageBecomes(s'.World(), v, k + 1, k, k'); }
    if BecomesTerminal(s'.World(), v, k, true) { BecomesTerminalImage(s', v, k + 1, k, true, k'); }
  }

  /** What becomes the same does not depend on kernels made later. */
  lemma {:induction false} BecomesKept(w: World, w': World, v: Visitor, bound: nat, i: KernelId, j: KernelId)
    requires w.kernels <= w'.kernels && w.trees <= w'.trees && w.Nested() && i < bound && j < bound && i < |w.kernels| && j < |w.kernels|
    ensures BecomeSame(w', v, i, j) == BecomeSame(w, v, i, j)
    ensures forall b :: BecomesTerminal(w', v, i, b) == BecomesTerminal(w, v, i, b)
    decreases bound, 0
  {
    var m := if i < j then j else i;
    assert w.kernels[i].QuantKernel? ==> w.NestedAt(i);
    assert w.kernels[j].QuantKernel? ==> w.NestedAt(j);
    if w.kernels[i].QuantKernel? {
      forall a: Valuation { RespectsKept(w, w', v.Under(), i, Kernels(w.trees[w.kernels[i].bdd]), a); }
      if w.kernels[j].QuantKernel? {
        forall a: Valuation { RespectsKept(w, w', v.Under(), m, Kernels(w.trees[w.kernels[i].bdd]) + Kernels(w.trees[w.kernels[j].bdd]), a); }
      }
    }
  }

  lemma {:induction false} RespectsKept(w: World, w': World, v: Visitor, bound: nat, ks: set<KernelId>, a: Valuation)
    requires w.kernels <= w'.kernels && w.trees <= w'.trees && w.Nested() && forall k :: k in ks ==> k < bound && k < |w.kernels|
    ensures Respects(w', v, bound, ks, a) == Respects(w, v, bound, ks, a)
    decreases bound, 1
  {
    forall i, j | i in ks && j in ks
      ensures BecomeSame(w', v, i, j) == BecomeSame(w, v, i, j) && forall b :: BecomesTerminal(w', v, i, b) == BecomesTerminal(w, v, i, b)
    {
      BecomesKept(w, w', v, bound, i, j);
    }
  }

  lemma {:induction false} HarmlessLater(w: World, w': World, v: Visitor, bound: nat, ks: set<KernelId>, S: Structure)
    requires w.kernels <= w'.kernels && w.trees <= w'.trees && w.Nested() && forall k :: k in ks ==> k < |w.kernels|
    ensures Harmless(w', v, bound, ks, S) == Harmless(w, v, bound, ks, S)
    decreases bound
  {
    if bound > 0 {
      SameParts(w, w', ks);
      forall k | k in ks ensures HarmlessAt(w', v, k, S) == HarmlessAt(w, v, k, S) { BecomesKept(w, w', v, k + 1, k, k); }
      HarmlessLater(w, w', v.Under(), bound - 1, NestedKernels(w, ks), S);
    }
  }

  lemma SomeEnvFits(v: Visitor)
    ensures exists e: Env :: v.Fits(e)
  {
    var n := match v case BumpIndices(_, m) => m + 1 case SubstituteTerms(_) => 0 case SubstituteIndex(_, m, _) => m;
    var e := Env(map[], seq(n, i => SOME_ELEMENT));
    assert v.Fits(e);
  }

  // ---------- indices ----------

  lemma QuantIndices(w: World, k: KernelId, d: Tree)
    requires w.Nested() && k < |w.kernels| && w.kernels[k].QuantKernel?
    requires w.kernels[k].bdd < |w.trees| && d == w.trees[w.kernels[k].bdd]
    ensures forall i: nat {:trigger w.KernelContains(k, i)} :: w.KernelContains(k, i) <==> w.TreeContains(|w.kernels|, d, i + 1)
  {
    assert w.NestedAt(k);
    forall i: nat ensures w.KernelContains(k, i) <==> w.TreeContains(|w.kernels|, d, i + 1) {
      TreeContainsKernel(w, k, d, i + 1);
      TreeContainsKernel(w, |w.kernels|, d, i + 1);
    }
  }

  lemma {:induction false} KernelIndices(w: World, v: Visitor, bound: nat, ks: set<KernelId>, k: KernelId, k': KernelId, i: nat)
    requires Terminals(w) && w.Nested() && v.Ok() && Renames(w, v, k, k') && w.KernelContains(k', i)
    requires k in ks && k < bound && SuitsAll(w, v, bound, ks)
    ensures v.Covers(i, (j: nat) => w.KernelContains(k, j))
    decreases bound, 0
  {
    if w.kernels[k].AtomKernel? {
      assert forall n :: 0 <= n < |w.kernels[k].args| ==> w.kernels[k].args[n] in ArgsOf(w, ks);
      v.ArgsIndices(w.kernels[k].args, i);
    } else {
      assert w.NestedAt(k) && w.NestedAt(k');
      var d, d' := w.trees[w.kernels[k].bdd], w.trees[w.kernels[k'].bdd];
      var nested := NestedKernels(w, ks);
      assert forall j :: j in Kernels(d) ==> j in nested;
      QuantIndices(w, k, d);
      QuantIndices(w, k', d');
      TreeIndices(w, v.Under(), bound - 1, nested, k, d, d', i + 1);
      assert i > 0 ==> (w.KernelContains(k, i - 1) <==> w.TreeContains(|w.kernels|, d, i));
      assert w.KernelContains(k, i) <==> w.TreeContains(|w.kernels|, d, i + 1);
      assert w.KernelContains(k, i + 1) <==> w.TreeContains(|w.kernels|, d, i + 2);
    }
  }

  lemma {:induction false} TreeIndices(w: World, v: Visitor, bound: nat, ks: set<KernelId>, bound': nat, d: Tree, d': Tree, i: nat)
    requires Terminals(w) && w.Nested() && v.Ok() && TreeRenames(w, v, bound', d, d') && w.TreeContains(|w.kernels|, d', i)
    requires Kernels(d) <= ks && Within(d, bound) && Within(d, |w.kernels|) && SuitsAll(w, v, bound, ks)
    ensures v.Covers(i, (j: nat) => w.TreeContains(|w.kernels|, d, j))
    decreases bound, 1
  {
    TreeContainsKernel(w, |w.kernels|, d', i);
    var k' :| k' in Kernels(d') && k' < |w.kernels| && w.KernelContains(k', i);
    assert HasSource(RenamesBelow(w, v, bound'), Kernels(d), k');
    var k :| k in Kernels(d) && RenamesBelow(w, v, bound')(k, k');
    KernelIndices(w, v, bound, ks, k, k', i);
    forall j: nat | w.KernelContains(k, j) ensures w.TreeContains(|w.kernels|, d, j) { TreeContainsKernel(w, |w.kernels|, d, j); }
  }

  // ---------- sorts of bound indices ----------

  /** The kernels of a nested diagram that changed come from the diagram nested before. */
  lemma NestedSource(w: World, v: Visitor, k: KernelId, k': KernelId, j': KernelId) returns (j: KernelId)
    requires Terminals(w) && Renames(w, v, k, k') && w.kernels[k'].QuantKernel? && w.kernels[k'].bdd < |w.trees|
    requires j' in Kernels(w.trees[w.kernels[k'].bdd])
    ensures w.kernels[k].QuantKernel? && w.kernels[k].sort == w.kernels[k'].sort && w.kernels[k].bdd < |w.trees|
    ensures j in Kernels(w.trees[w.kernels[k].bdd]) && j < k && Renames(w, v.Under(), j, j')
  {
    var d, R := w.trees[w.kernels[k].bdd], RenamesBelow(w, v.Under(), k);
    assert TreeRenames(w, v.Under(), k, d, w.trees[w.kernels[k'].bdd]);
    assert HasSource(R, Kernels(d), j');
    j :| j in Kernels(d) && R(j, j');
  }

  lemma {:induction false} OnlySortChanged(w: World, v: Visitor, k: KernelId, k': KernelId, i: nat, sort: Sort)
    requires Terminals(w) && v.Ok() && v.Leaves(i) && Renames(w, v, k, k') && KernelOnlySort(w, k, i, sort)
    ensures KernelOnlySort(w, k', i, sort)
    decreases k
  {
    match w.kernels[k']
    case AtomKernel(_, _, args) =>
      forall n | 0 <= n < |args| ensures OnlySort(args[n], i, sort) { v.OnlySortLeft(w.kernels[k].args[n], i, sort); }
    case QuantKernel(_, b) =>
      if b < |w.trees| {
        forall j' | j' in Kernels(w.trees[b]) && j' < k' ensures KernelOnlySort(w, j', i + 1, sort) {
          var j := NestedSource(w, v, k, k', j');
          OnlySortChanged(w, v.Under(), j, j', i + 1, sort);
        }
      }
    case _ =>
  }

  /** Where a variable was bound, its index has its sort. */
  lemma {:induction false} OnlySortOfBound(w: World, v: Visitor, k: KernelId, k': KernelId)
    requires Terminals(w) && v.BumpIndices? && Renames(w, v, k, k')
    ensures KernelOnlySort(w, k', v.depth, v.variable.sort)
    decreases k
  {
    match w.kernels[k']
    case AtomKernel(_, _, args) =>
      forall n | 0 <= n < |args| ensures OnlySort(args[n], v.depth, v.variable.sort) { v.OnlySortBound(w.kernels[k].args[n]); }
    case QuantKernel(_, b) =>
      if b < |w.trees| {
        forall j' | j' in Kernels(w.trees[b]) && j' < k' ensures KernelOnlySort(w, j', v.depth + 1, v.variable.sort) {
          var j := NestedSource(w, v, k, k', j');
          OnlySortOfBound(w, v.Under(), j, j');
        }
      }
    case _ =>
  }

  /** A change keeps bound indices well sorted. */
  lemma {:induction false} KernelSortedChanged(w: World, v: Visitor, k: KernelId, k': KernelId)
    requires Terminals(w) && v.Ok() && Renames(w, v, k, k') && KernelSorted(w, k)
    ensures KernelSorted(w, k')
    decreases k
  {
    if w.kernels[k'].QuantKernel? && w.kernels[k'].bdd < |w.trees| {
      forall j' | j' in Kernels(w.trees[w.kernels[k'].bdd]) && j' < k' ensures KernelOnlySort(w, j', 0, w.kernels[k'].sort) && KernelSorted(w, j') {
        var j := NestedSource(w, v, k, k', j');
        OnlySortChanged(w, v.Under(), j, j', 0, w.kernels[k].sort);
        KernelSortedChanged(w, v.Under(), j, j');
      }
    }
  }

  lemma ChangedSorted(s: State, s': State, v: Visitor, bound: nat, b: NodeId, r: NodeId)
    requires s.Ok() && v.Ok() && Changed(s, s', v, bound, b, r) && Within(s.graph.trees[b], |s.table.kernels|)
    requires DiagramSorted(s.World(), s.graph.trees[b])
    ensures DiagramSorted(s'.World(), s'.graph.trees[r])
    ensures v.BumpIndices? && v.depth == 0 ==> BodySorted(s'.World(), v.variable.sort, s'.graph.trees[r])
  {
    var w, w', d, d' := s.World(), s'.World(), s.graph.trees[b], s'.graph.trees[r];
    GrowsKeeps(s, s');
    SortedKept(w, w', d);
    WorldProper(s');
    forall j' | j' in Kernels(d')
      ensures KernelSorted(w', j') && (v.BumpIndices? && v.depth == 0 ==> KernelOnlySort(w', j', 0, v.variable.sort))
    {
      assert HasSource(RenamesBelow(w', v, bound), Kernels(d), j');
      var j :| j in Kernels(d) && RenamesBelow(w', v, bound)(j, j');
      KernelSortedChanged(w', v, j, j');
      if v.BumpIndices? && v.depth == 0 { OnlySortOfBound(w', v, j, j'); }
    }
  }

  // ---------- steps of the rebuilding ----------

  /** What changing node b gives: node r of a later state.  It is ordered wherever the new kernels
      belong, and whether or not the other nodes are. */
  ghost predicate Changed(s: State, s': State, v: Visitor, bound: nat, b: NodeId, r: NodeId) {
    && Grows(s, s') && b < |s.graph.trees| && r < |s'.graph.trees|
    && TreeRenames(s'.World(), v, bound, s.graph.trees[b], s'.graph.trees[r])
    && Ordered(s'.table.orders, s'.graph.trees[r])
  }

  ghost predicate KernelChanged(s: State, s': State, v: Visitor, k: KernelId, k': KernelId) {
    Grows(s, s') && k < |s.table.kernels| && k' < |s'.table.kernels| && Renames(s'.World(), v, k, k')
  }

  lemma ChangedTerminal(s: State, v: Visitor, bound: nat, b: NodeId)
    requires s.Ok() && b < 2
    ensures Changed(s, s, v, bound, b, b)
  {
    TerminalMapped(RenamesBelow(s.World(), v, bound), b == TRUEBDD);
  }

  lemma ChangedGrows(s: State, s1: State, s2: State, v: Visitor, bound: nat, b: NodeId, r: NodeId)
    requires s.Ok() && Changed(s, s1, v, bound, b, r) && Grows(s1, s2)
    ensures Changed(s, s2, v, bound, b, r)
  {
    GrowsTransitive(s, s1, s2);
    TreeRenamesLater(s1.World(), s2.World(), v, bound, s.graph.trees[b], s1.graph.trees[r]);
    NodeOrderedLater(s1, s2.table.orders, r);
  }

  lemma ChangedNode(s: State, s1: State, s2: State, s3: State, s4: State, v: Visitor, bound: nat, b: NodeId,
                    nk: KernelId, nt: NodeId, nf: NodeId, r: NodeId)
    requires s.Ok() && 2 <= b < |s.graph.nodes| && s.graph.nodes[b].kernel < bound
    requires KernelChanged(s, s1, v, s.graph.nodes[b].kernel, nk)
    requires Changed(s1, s2, v, bound, s.graph.nodes[b].truebranch, nt) && Changed(s2, s3, v, bound, s.graph.nodes[b].falsebranch, nf)
    requires Extends(s3, s4) && nt < |s4.graph.trees| && nf < |s4.graph.trees| && r < |s4.graph.trees|
    requires IsIfThenElse(s4.graph.trees[r], nk, s4.graph.trees[nt], s4.graph.trees[nf])
    requires Ordered(s4.table.orders, s4.graph.trees[nt]) && Ordered(s4.table.orders, s4.graph.trees[nf]) ==> Ordered(s4.table.orders, s4.graph.trees[r])
    ensures Changed(s, s4, v, bound, b, r)
  {
    InnerNode(s, b);
    GrowsTransitive(s2, s3, s4);
    GrowsTransitive(s1, s2, s4);
    GrowsTransitive(s, s1, s4);
    var x := s.graph.nodes[b];
    RenamesLater(s1.World(), s4.World(), v, x.kernel, nk);
    ChangedGrows(s1, s2, s4, v, bound, x.truebranch, nt);
    ChangedGrows(s2, s3, s4, v, bound, x.falsebranch, nf);
    NodeMapped(RenamesBelow(s4.World(), v, bound), x.kernel, s.graph.trees[x.truebranch], s.graph.trees[x.falsebranch],
               nk, s4.graph.trees[nt], s4.graph.trees[nf], s4.graph.trees[r]);
  }

  lemma ChangedQuant(s: State, s1: State, s2: State, v: Visitor, k: KernelId, b': NodeId, k': KernelId)
    requires s.Ok() && 2 <= k < |s.table.kernels| && s.table.kernels[k].QuantKernel?
    requires Changed(s, s1, v.Under(), k, s.table.kernels[k].bdd, b') && Grows(s1, s2) && k' < |s2.table.kernels|
    requires if b' == TRUEBDD then k' == TRUEKERNEL else if b' == FALSEBDD then k' == FALSEKERNEL
             else s2.table.kernels[k'] == QuantKernel(s.table.kernels[k].sort, b')
    ensures KernelChanged(s, s2, v, k, k')
  {
    GrowsTransitive(s, s1, s2);
    ChangedGrows(s, s1, s2, v.Under(), k, s.table.kernels[k].bdd, b');
  }

  // ---------- what the conditions say later ----------

  lemma SameParts(w: World, w': World, ks: set<KernelId>)
    requires w.kernels <= w'.kernels && w.trees <= w'.trees && w.Nested() && forall k :: k in ks ==> k < |w.kernels|
    ensures ArgsOf(w', ks) == ArgsOf(w, ks) && NestedKernels(w', ks) == NestedKernels(w, ks)
    ensures forall j :: j in NestedKernels(w, ks) ==> j < |w.kernels|
  {
    assert forall k :: k in ks && w.kernels[k].QuantKernel? ==> w.NestedAt(k);
    NestedBelow(w, |w.kernels|, ks);
  }

  lemma {:induction false} ConditionsLater(w: World, w': World, v: Visitor, bound: nat, ks: set<KernelId>)
    requires w.kernels <= w'.kernels && w.trees <= w'.trees && w.Nested() && forall k :: k in ks ==> k < |w.kernels|
    ensures KeepsApart(w', v, bound, ks) == KeepsApart(w, v, bound, ks) && SuitsAll(w', v, bound, ks) == SuitsAll(w, v, bound, ks)
    decreases bound
  {
    if bound > 0 {
      SameParts(w, w', ks);
      ConditionsLater(w, w', v.Under(), bound - 1, NestedKernels(w, ks));
    }
  }

  /** The changed node has the meaning of the old one in the changed environment, in structure S. */
  ghost predicate MeansChanged(w: World, v: Visitor, d: Tree, d': Tree, S: Structure) {
    forall e: Env :: v.Fits(e) ==> w.Holds(d', S, e) == w.Holds(d, S, v.Target(S, e))
  }

  ghost predicate IndicesChanged(w: World, v: Visitor, d: Tree, d': Tree) {
    forall i: nat :: w.TreeContains(|w.kernels|, d', i) ==> v.Covers(i, (j: nat) => w.TreeContains(|w.kernels|, d, j))
  }

  /** When the visitor keeps the terms it meets apart, which can be checked before, the change is right in
      every structure. */
  lemma ChangedExactly(s: State, s': State, v: Visitor, bound: nat, b: NodeId, r: NodeId)
    requires s.Ok() && v.Ok() && Changed(s, s', v, bound, b, r) && bound <= |s.table.kernels| && Within(s.graph.trees[b], bound)
    requires SuitsAll(s.World(), v, bound, Kernels(s.graph.trees[b])) && KeepsApart(s.World(), v, bound, Kernels(s.graph.trees[b]))
    ensures forall S: Structure :: MeansChanged(s'.World(), v, s.graph.trees[b], s'.graph.trees[r], S)
    ensures IndicesChanged(s'.World(), v, s.graph.trees[b], s'.graph.trees[r])
  {
    var w, d := s'.World(), s.graph.trees[b];
    ConditionsLater(s.World(), w, v, bound, Kernels(d));
    forall S: Structure ensures MeansChanged(w, v, d, w.trees[r], S) {
      ApartHarmless(s, v, bound, Kernels(d), S);
      ChangedHarmlessly(s, s', v, bound, b, r, S);
    }
    ChangedIndices(s, s', v, bound, b, r);
  }

  lemma ChangedHarmlessly(s: State, s': State, v: Visitor, bound: nat, b: NodeId, r: NodeId, S: Structure)
    requires s.Ok() && v.Ok() && Changed(s, s', v, bound, b, r) && bound <= |s.table.kernels| && Within(s.graph.trees[b], bound)
    requires SuitsAll(s.World(), v, bound, Kernels(s.graph.trees[b])) && Harmless(s.World(), v, bound, Kernels(s.graph.trees[b]), S)
    ensures MeansChanged(s'.World(), v, s.graph.trees[b], s'.graph.trees[r], S)
  {
    var w, d := s'.World(), s.graph.trees[b];
    WorldProper(s');
    ConditionsLater(s.World(), w, v, bound, Kernels(d));
    HarmlessLater(s.World(), w, v, bound, Kernels(d), S);
    forall e: Env | v.Fits(e) ensures w.Holds(w.trees[r], S, e) == w.Holds(d, S, v.Target(S, e)) {
      TreeRenamed(w, v, bound, Kernels(d), bound, d, w.trees[r], S, e);
    }
  }

  lemma SubstitutionMeans(s: State, s': State, v: Visitor, b: NodeId, r: NodeId)
    requires s.Ok() && v.Ok() && Changed(s, s', v, |s.table.kernels|, b, r) && Within(s.graph.trees[b], |s.table.kernels|)
    requires SuitsAll(s.World(), v, |s.table.kernels|, Kernels(s.graph.trees[b]))
    ensures forall S: Structure :: Harmless(s.World(), v, |s.table.kernels|, Kernels(s.graph.trees[b]), S) ==>
      MeansChanged(s'.World(), v, s.graph.trees[b], s'.graph.trees[r], S)
    ensures KeepsApart(s.World(), v, |s.table.kernels|, Kernels(s.graph.trees[b])) ==>
      forall S: Structure :: MeansChanged(s'.World(), v, s.graph.trees[b], s'.graph.trees[r], S)
  {
    forall S: Structure | Harmless(s.World(), v, |s.table.kernels|, Kernels(s.graph.trees[b]), S)
      ensures MeansChanged(s'.World(), v, s.graph.trees[b], s'.graph.trees[r], S)
    {
      ChangedHarmlessly(s, s', v, |s.table.kernels|, b, r, S);
    }
    if KeepsApart(s.World(), v, |s.table.kernels|, Kernels(s.graph.trees[b])) {
      ChangedExactly(s, s', v, |s.table.kernels|, b, r);
    }
  }

  lemma ChangedIndices(s: State, s': State, v: Visitor, bound: nat, b: NodeId, r: NodeId)
    requires s.Ok() && v.Ok() && Changed(s, s', v, bound, b, r) && bound <= |s.table.kernels| && Within(s.graph.trees[b], bound)
    requires SuitsAll(s.World(), v, bound, Kernels(s.graph.trees[b]))
    ensures IndicesChanged(s'.World(), v, s.graph.trees[b], s'.graph.trees[r])
  {
    var w, d := s'.World(), s.graph.trees[b];
    WorldProper(s');
    ConditionsLater(s.World(), w, v, bound, Kernels(d));
    forall i: nat | w.TreeContains(|w.kernels|, w.trees[r], i) ensures v.Covers(i, (j: nat) => w.TreeContains(|w.kernels|, d, j)) {
      TreeIndices(w, v, bound, Kernels(d), bound, d, w.trees[r], i);
    }
  }
}
