/** Copying diagrams from one manager to another. */
module Copying {
  import opened Diagrams
  import opened Syntax
  import opened Semantics
  import opened Store
  import opened ManagerState
  import opened Operations
  import opened Quantification
  import opened WellSorted
  import opened Renaming
  import opened Rebuilding
  import opened Approximations

  /** Kernel k' of one world is a copy of kernel k of another. */
  ghost predicate Copies(w: World, w': World, k: KernelId, k': KernelId)
    decreases k, 2
  {
    2 <= k < |w.kernels| && k' < |w'.kernels| &&
    match w.kernels[k]
    case AtomKernel(_, _, _) => w'.kernels[k'] == w.kernels[k]
    case QuantKernel(sort, b) =>
      && b < |w.trees|
      && if k' < 2 then TreeCopies(w, w', k, w.trees[b], Leaf(k' == TRUEKERNEL))
         else w'.kernels[k'].QuantKernel? && w'.kernels[k'].sort == sort && w'.kernels[k'].bdd < |w'.trees|
              && TreeCopies(w, w', k, w.trees[b], w'.trees[w'.kernels[k'].bdd])
    case _ => false
  }

  ghost function CopiesBelow(w: World, w': World, bound: nat): (KernelId, KernelId) -> bool
    decreases bound, 0
  {
    (k: KernelId, k': KernelId) => k < bound && Copies(w, w', k, k')
  }

  ghost predicate TreeCopies(w: World, w': World, bound: nat, d: Tree, d': Tree)
    decreases bound, 1
  {
    MapsTo(CopiesBelow(w, w', bound), d, d')
  }

  lemma {:induction false} CopiesLater(w: World, w': World, v: World, v': World, k: KernelId, k': KernelId)
    requires w.kernels <= v.kernels && w.trees <= v.trees && w'.kernels <= v'.kernels && w'.trees <= v'.trees && Copies(w, w', k, k')
    ensures Copies(v, v', k, k')
    decreases k, 1
  {
    if w.kernels[k].QuantKernel? {
      var d' := if k' < 2 then Leaf(k' == TRUEKERNEL) else w'.trees[w'.kernels[k'].bdd];
      TreeCopiesLater(w, w', v, v', k, w.trees[w.kernels[k].bdd], d');
    }
  }

  lemma {:induction false} TreeCopiesLater(w: World, w': World, v: World, v': World, bound: nat, d: Tree, d': Tree)
    requires w.kernels <= v.kernels && w.trees <= v.trees && w'.kernels <= v'.kernels && w'.trees <= v'.trees && TreeCopies(w, w', bound, d, d')
    ensures TreeCopies(v, v', bound, d, d')
    decreases bound, 0
  {
    forall k, k' | k in Kernels(d) && CopiesBelow(w, w', bound)(k, k') ensures CopiesBelow(v, v', bound)(k, k') {
      CopiesLater(w, w', v, v', k, k');
    }
    MapsLater(CopiesBelow(w, w', bound), CopiesBelow(v, v', bound), d, d');
  }

  // ---------- different kernels have different copies ----------

  lemma {:induction false} CopiesApart(s: State, s': State, bound: nat, i: KernelId, j: KernelId, k': KernelId)
    requires s.Ok() && s'.Ok() && i < bound && j < bound && Copies(s.World(), s'.World(), i, k') && Copies(s.World(), s'.World(), j, k')
    ensures i == j && k' >= 2
    decreases bound, 0
  {
    assert s.table.Placed(i) && s.table.Placed(j);
    if s.table.kernels[i].QuantKernel? {
      QuantCopiesApart(s, s', bound, i, j, k');
    }
  }

  lemma {:induction false} CopiesInjective(s: State, s': State, bound: nat, ks: set<KernelId>)
    requires s.Ok() && s'.Ok() && forall k :: k in ks ==> k < bound
    ensures forall m :: InjectiveOn(CopiesBelow(s.World(), s'.World(), m), ks)
    decreases bound, 1
  {
    forall m: nat, i: KernelId, j: KernelId, k': KernelId |
      i in ks && j in ks && CopiesBelow(s.World(), s'.World(), m)(i, k') && CopiesBelow(s.World(), s'.World(), m)(j, k')
      ensures i == j && k' >= 2
    {
      CopiesApart(s, s', bound, i, j, k');
    }
  }

  lemma {:induction false} QuantCopiesApart(s: State, s': State, bound: nat, i: KernelId, j: KernelId, k': KernelId)
    requires s.Ok() && s'.Ok() && 2 <= i < bound && 2 <= j < bound && Copies(s.World(), s'.World(), i, k') && Copies(s.World(), s'.World(), j, k')
    requires s.table.kernels[i].QuantKernel? && (k' >= 2 ==> s.table.kernels[j].QuantKernel?)
    ensures i == j && k' >= 2
    decreases bound - 1, 2
  {
    var w, w' := s.World(), s'.World();
    var b := w.kernels[i].bdd;
    assert s.table.Placed(i) && w.NestedAt(i) && s.NestedOrderedAt(i);
    var m := if i < j then j else i;
    if k' < 2 {
      CopiesInjective(s, s', i, Kernels(w.trees[b]));
      var leaf := Leaf(k' == TRUEKERNEL);
      TerminalMapped(CopiesBelow(w, w', i), k' == TRUEKERNEL);
      SameImage(CopiesBelow(w, w', i), Kernels(w.trees[b]), w.trees[b], leaf, leaf);
      SameOrdered(s, b, if k' == TRUEKERNEL then TRUEBDD else FALSEBDD);
    } else {
      assert w.NestedAt(j);
      var c, d', R := w.kernels[j].bdd, w'.trees[w'.kernels[k'].bdd], CopiesBelow(w, w', m);
      CopiesInjective(s, s', m, Kernels(w.trees[b]) + Kernels(w.trees[c]));
      MapsLater(CopiesBelow(w, w', i), R, w.trees[b], d');
      MapsLater(CopiesBelow(w, w', j), R, w.trees[c], d');
      SameImage(R, Kernels(w.trees[b]) + Kernels(w.trees[c]), w.trees[b], w.trees[c], d');
      SameNested(s, i, j);
    }
  }

  // ---------- copies have the same meaning ----------

  lemma {:induction false} KernelCopyHolds(s: State, s': State, k: KernelId, k': KernelId, S: Structure, e: Env)
    requires s.Ok() && s'.Ok() && Copies(s.World(), s'.World(), k, k')
    ensures s'.World().KernelHolds(k', S, e) == s.World().KernelHolds(k, S, e)
    decreases k, 2
  {
    var w, w' := s.World(), s'.World();
    if w.kernels[k].QuantKernel? {
      CopiesApart(s, s', k + 1, k, k, k');
      assert w.NestedAt(k) && w'.NestedAt(k');
      var d, d' := w.trees[w.kernels[k].bdd], w'.trees[w'.kernels[k'].bdd];
      forall x ensures w'.Holds(d', S, e.Push(x)) == w.Holds(d, S, e.Push(x)) {
        CopyHolds(s, s', k, k, d, d', S, e.Push(x));
      }
      w.QuantKernelHolds(k, S, e);
      w'.QuantKernelHolds(k', S, e);
    }
  }

  /** A copy has the meaning of the original in every structure. */
  lemma {:induction false} CopyHolds(s: State, s': State, m: nat, bound: nat, d: Tree, d': Tree, S: Structure, e: Env)
    requires s.Ok() && s'.Ok() && Within(d, m) && TreeCopies(s.World(), s'.World(), bound, d, d')
    ensures s'.World().Holds(d', S, e) == s.World().Holds(d, S, e)
    decreases m, 1
  {
    var w, w', R := s.World(), s'.World(), CopiesBelow(s.World(), s'.World(), bound);
    forall k, k' | k in Kernels(d) && R(k, k') ensures w'.KernelHolds(k', S, e) == w.KernelHolds(k, S, e) {
      KernelCopyHolds(s, s', k, k', S, e);
    }
    MappedHolds(w, w', R, d, d', S, e, e);
  }

  // ---------- there and back ----------

  /** A copy of a copy in the manager of the original is the original. */
  lemma {:induction false} KernelCopiedBack(s: State, s': State, k: KernelId, k': KernelId, k'': KernelId)
    requires s.Ok() && s'.Ok() && Copies(s.World(), s'.World(), k, k') && Copies(s'.World(), s.World(), k', k'')
    ensures k'' == k
    decreases k, 2
  {
    var w, w' := s.World(), s'.World();
    CopiesApart(s, s', k + 1, k, k, k');
    CopiesApart(s', s, k' + 1, k', k', k'');
    assert s.table.Placed(k) && s.table.Placed(k'');
    if w.kernels[k].QuantKernel? {
      assert w.NestedAt(k);
      DiagramCopiedBack(s, s', k, k, k', w.trees[w.kernels[k].bdd], w'.trees[w'.kernels[k'].bdd], w.trees[w.kernels[k''].bdd]);
      SameNested(s, k, k'');
    }
  }

  lemma {:induction false} DiagramCopiedBack(s: State, s': State, m: nat, bound: nat, bound': nat, d: Tree, d': Tree, d'': Tree)
    requires s.Ok() && s'.Ok() && Within(d, m)
    requires TreeCopies(s.World(), s'.World(), bound, d, d') && TreeCopies(s'.World(), s.World(), bound', d', d'')
    ensures Equivalent(d, d'')
    decreases m, 1
  {
    var R1, R2 := CopiesBelow(s.World(), s'.World(), bound), CopiesBelow(s'.World(), s.World(), bound');
    CopiesInjective(s, s', m, Kernels(d));
    forall k, k', k'' | k in Kernels(d) && R1(k, k') && R2(k', k'') ensures k'' == k >= 2 { KernelCopiedBack(s, s', k, k', k''); }
    MappedBack(R1, R2, d, d', d'');
  }

  // ---------- what else a copy keeps ----------

  lemma CopySource(s: State, s': State, k: KernelId, k': KernelId, j': KernelId) returns (j: KernelId)
    requires s.Ok() && s'.Ok() && Copies(s.World(), s'.World(), k, k') && s'.table.kernels[k'].QuantKernel? && s'.table.kernels[k'].bdd < |s'.graph.trees|
    requires j' in Kernels(s'.graph.trees[s'.table.kernels[k'].bdd])
    ensures s.table.kernels[k].QuantKernel? && s.table.kernels[k].sort == s'.table.kernels[k'].sort && s.table.kernels[k].bdd < |s.graph.trees|
    ensures j in Kernels(s.graph.trees[s.table.kernels[k].bdd]) && j < k && Copies(s.World(), s'.World(), j, j')
  {
    var w, w' := s.World(), s'.World();
    var d, R := w.trees[w.kernels[k].bdd], CopiesBelow(w, w', k);
    assert TreeCopies(w, w', k, d, w'.trees[w'.kernels[k'].bdd]);
    assert HasSource(R, Kernels(d), j');
    j :| j in Kernels(d) && R(j, j');
  }

  lemma {:induction false} OnlySortCopied(s: State, s': State, k: KernelId, k': KernelId, i: nat, sort: Sort)
    requires s.Ok() && s'.Ok() && Copies(s.World(), s'.World(), k, k') && KernelOnlySort(s.World(), k, i, sort)
    ensures KernelOnlySort(s'.World(), k', i, sort)
    decreases k
  {
    var w' := s'.World();
    if w'.kernels[k'].QuantKernel? && w'.kernels[k'].bdd < |w'.trees| {
      forall j' | j' in Kernels(w'.trees[w'.kernels[k'].bdd]) && j' < k' ensures KernelOnlySort(w', j', i + 1, sort) {
        var j := CopySource(s, s', k, k', j');
        OnlySortCopied(s, s', j, j', i + 1, sort);
      }
    }
  }

  lemma {:induction false} KernelSortedCopied(s: State, s': State, k: KernelId, k': KernelId)
    requires s.Ok() && s'.Ok() && Copies(s.World(), s'.World(), k, k') && KernelSorted(s.World(), k)
    ensures KernelSorted(s'.World(), k')
    decreases k
  {
    var w' := s'.World();
    if w'.kernels[k'].QuantKernel? && w'.kernels[k'].bdd < |w'.trees| {
      forall j' | j' in Kernels(w'.trees[w'.kernels[k'].bdd]) && j' < k' ensures KernelOnlySort(w', j', 0, w'.kernels[k'].sort) && KernelSorted(w', j') {
        var j := CopySource(s, s', k, k', j');
        OnlySortCopied(s, s', j, j', 0, w'.kernels[k'].sort);
        KernelSortedCopied(s, s', j, j');
      }
    }
  }

  lemma {:induction false} UsesCopied(s: State, s': State, k: KernelId, k': KernelId, g: PFSymbol)
    requires s.Ok() && s'.Ok() && Copies(s.World(), s'.World(), k, k') && KernelUses(s'.World(), k', g)
    ensures KernelUses(s.World(), k, g)
    decreases k
  {
    var w' := s'.World();
    if w'.kernels[k'].QuantKernel? {
      var j' :| j' in Kernels(w'.trees[w'.kernels[k'].bdd]) && j' < k' && KernelUses(w', j', g);
      var j := CopySource(s, s', k, k', j');
      UsesCopied(s, s', j, j', g);
    }
  }

  // ---------- steps of the copying ----------

  /** What copying node b of manager o gives: node r of a later state, ordered as this manager orders its kernels. */
  ghost predicate Copied(o: State, s: State, s': State, bound: nat, b: NodeId, r: NodeId) {
    && Grows(s, s') && b < |o.graph.trees| && r < |s'.graph.trees|
    && TreeCopies(o.World(), s'.World(), bound, o.graph.trees[b], s'.graph.trees[r])
    && Ordered(s'.table.orders, s'.graph.trees[r])
  }

  ghost predicate KernelCopied(o: State, s: State, s': State, k: KernelId, k': KernelId) {
    Grows(s, s') && k < |o.table.kernels| && k' < |s'.table.kernels| && Copies(o.World(), s'.World(), k, k')
  }

  lemma CopiedTerminal(o: State, s: State, bound: nat, b: NodeId)
    requires o.Ok() && s.Ok() && b < 2
    ensures Copied(o, s, s, bound, b, b)
  {
    TerminalMapped(CopiesBelow(o.World(), s.World(), bound), b == TRUEBDD);
  }

  lemma CopiedGrows(o: State, s: State, s1: State, s2: State, bound: nat, b: NodeId, r: NodeId)
    requires s.Ok() && Copied(o, s, s1, bound, b, r) && Grows(s1, s2)
    ensures Copied(o, s, s2, bound, b, r)
  {
    GrowsTransitive(s, s1, s2);
    TreeCopiesLater(o.World(), s1.World(), o.World(), s2.World(), bound, o.graph.trees[b], s1.graph.trees[r]);
    NodeOrderedLater(s1, s2.table.orders, r);
  }

  lemma CopiedNode(o: State, s: State, s1: State, s2: State, s3: State, s4: State, bound: nat, b: NodeId,
                   nf: NodeId, nt: NodeId, nk: KernelId, r: NodeId)
    requires o.Ok() && s.Ok() && 2 <= b < |o.graph.nodes| && o.graph.nodes[b].kernel < bound
    requires Copied(o, s, s1, bound, o.graph.nodes[b].falsebranch, nf) && Copied(o, s1, s2, bound, o.graph.nodes[b].truebranch, nt)
    requires KernelCopied(o, s2, s3, o.graph.nodes[b].kernel, nk)
    requires Extends(s3, s4) && nt < |s4.graph.trees| && nf < |s4.graph.trees| && r < |s4.graph.trees|
    requires IsIfThenElse(s4.graph.trees[r], nk, s4.graph.trees[nt], s4.graph.trees[nf])
    requires Ordered(s4.table.orders, s4.graph.trees[nt]) && Ordered(s4.table.orders, s4.graph.trees[nf]) ==> Ordered(s4.table.orders, s4.graph.trees[r])
    ensures Copied(o, s, s4, bound, b, r)
  {
    InnerNode(o, b);
    GrowsTransitive(s2, s3, s4);
    GrowsTransitive(s1, s2, s4);
    GrowsTransitive(s, s1, s4);
    var x := o.graph.nodes[b];
    CopiesLater(o.World(), s3.World(), o.World(), s4.World(), x.kernel, nk);
    CopiedGrows(o, s, s1, s4, bound, x.falsebranch, nf);
    CopiedGrows(o, s1, s2, s4, bound, x.truebranch, nt);
    NodeMapped(CopiesBelow(o.World(), s4.World(), bound), x.kernel, o.graph.trees[x.truebranch], o.graph.trees[x.falsebranch],
               nk, s4.graph.trees[nt], s4.graph.trees[nf], s4.graph.trees[r]);
  }

  lemma CopiedQuant(o: State, s: State, s1: State, s2: State, k: KernelId, b': NodeId, k': KernelId)
    requires o.Ok() && s.Ok() && 2 <= k < |o.table.kernels| && o.table.kernels[k].QuantKernel?
    requires Copied(o, s, s1, k, o.table.kernels[k].bdd, b') && Grows(s1, s2) && k' < |s2.table.kernels|
    requires if b' == TRUEBDD then k' == TRUEKERNEL else if b' == FALSEBDD then k' == FALSEKERNEL
             else s2.table.kernels[k'] == QuantKernel(o.table.kernels[k].sort, b')
    ensures KernelCopied(o, s, s2, k, k')
  {
    GrowsTransitive(s, s1, s2);
    CopiedGrows(o, s, s1, s2, k, o.table.kernels[k].bdd, b');
  }

  // ---------- copies of nodes ----------

  /** A copied node has the meaning of the original, and its bound indices and symbols are those of the original. */
  lemma NodeCopied(o: State, s: State, s': State, bound: nat, b: NodeId, r: NodeId)
    requires o.Ok() && Copied(o, s, s', bound, b, r)
    ensures forall S: Structure, e: Env :: s'.World().Holds(s'.graph.trees[r], S, e) == o.World().Holds(o.graph.trees[b], S, e)
    ensures DiagramSorted(o.World(), o.graph.trees[b]) ==> DiagramSorted(s'.World(), s'.graph.trees[r])
    ensures forall symbols :: Clean(o.World(), symbols, o.graph.trees[b]) ==> Clean(s'.World(), symbols, s'.graph.trees[r])
  {
    var w, w', d, d' := o.World(), s'.World(), o.graph.trees[b], s'.graph.trees[r];
    TreeWithin(o, b);
    forall S: Structure, e: Env ensures w'.Holds(d', S, e) == w.Holds(d, S, e) {
      CopyHolds(o, s', |w.kernels|, bound, d, d', S, e);
    }
    forall k' | k' in Kernels(d') ensures exists k :: k in Kernels(d) && Copies(w, w', k, k') {
      assert HasSource(CopiesBelow(w, w', bound), Kernels(d), k');
      var k :| k in Kernels(d) && CopiesBelow(w, w', bound)(k, k');
    }
    if DiagramSorted(w, d) {
      forall k' | k' in Kernels(d') ensures KernelSorted(w', k') {
        var k :| k in Kernels(d) && Copies(w, w', k, k');
        KernelSortedCopied(o, s', k, k');
      }
    }
    forall symbols | Clean(w, symbols, d) ensures Clean(w', symbols, d') {
      forall k', g | k' in Kernels(d') && g in symbols ensures !KernelUses(w', k', g) {
        var k :| k in Kernels(d) && Copies(w, w', k, k');
        assert !Dirty(w, symbols, k);
        if KernelUses(w', k', g) { UsesCopied(o, s', k, k', g); }
      }
    }
  }

  /** Copying a copy back gives an equivalent diagram, and the same node exactly when that was ordered. */
  lemma NodeCopiedBack(o: State, s: State, s': State, o': State, o'': State, bound: nat, bound': nat, b: NodeId, r: NodeId, b': NodeId)
    requires o.Ok() && Copied(o, s, s', bound, b, r) && Grows(o, o') && Copied(s', o', o'', bound', r, b')
    ensures Equivalent(o''.graph.trees[b'], o.graph.trees[b])
    ensures Ordered(o.table.orders, o.graph.trees[b]) <==> b' == b
  {
    var d := o.graph.trees[b];
    GrowsTransitive(o, o', o'');
    TreeWithin(o, b);
    TreeCopiesLater(o.World(), s'.World(), o''.World(), s'.World(), bound, d, s'.graph.trees[r]);
    DiagramCopiedBack(o'', s', |o.table.kernels|, bound, bound', d, s'.graph.trees[r], o''.graph.trees[b']);
    NodeOrderedLater(o, o''.table.orders, b);
    if Ordered(o.table.orders, d) { SameOrdered(o'', b, b'); }
  }
}
