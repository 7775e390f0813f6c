/** Opening a quantified kernel: a variable that does not occur in the nested diagram takes the place of the bound index. */
module Opening {
  import opened Diagrams
  import opened Syntax
  import opened Semantics
  import opened Store
  import opened ManagerState
  import opened Operations
  import opened Quantification
  import opened Visitors
  import opened Renaming
  import opened Rebuilding
  import opened Binding

  // ---------- variables of terms and diagrams ----------

  predicate TermMentions(t: Term, v: Variable) {
    match t
    case VariableTerm(u) => u == v
    case IndexTerm(_, _) => false
    case DomainTerm(_, _) => false
    case FuncTerm(_, args) => exists n | 0 <= n < |args| :: TermMentions(args[n], v)
  }

  function VariablesOf(t: Term): set<Variable> {
    match t
    case VariableTerm(v) => {v}
    case IndexTerm(_, _) => {}
    case DomainTerm(_, _) => {}
    case FuncTerm(_, args) => ArgsVariables(args)
  }

  function ArgsVariables(args: seq<Term>): set<Variable> {
    set n, v | 0 <= n < |args| && v in VariablesOf(args[n]) :: v
  }

  lemma {:induction false} VariablesMentioned(t: Term, v: Variable)
    ensures v in VariablesOf(t) <==> TermMentions(t, v)
    decreases t
  {
    if t.FuncTerm? {
      forall n | 0 <= n < |t.args| ensures v in VariablesOf(t.args[n]) <==> TermMentions(t.args[n], v) { VariablesMentioned(t.args[n], v); }
    }
  }

  lemma ArgsMentioned(args: seq<Term>)
    ensures forall v, n :: 0 <= n < |args| ==> (v in VariablesOf(args[n]) <==> TermMentions(args[n], v))
  {
    forall v, n | 0 <= n < |args| ensures v in VariablesOf(args[n]) <==> TermMentions(args[n], v) { VariablesMentioned(args[n], v); }
  }

  /** Does the variable occur in the kernel, or in the diagram nested in it? */
  ghost predicate KernelMentions(w: World, k: KernelId, v: Variable)
    decreases k, 1
  {
    k < |w.kernels| &&
    match w.kernels[k]
    case AtomKernel(_, _, args) => exists n | 0 <= n < |args| :: TermMentions(args[n], v)
    case QuantKernel(_, b) => b < |w.trees| && TreeMentions(w, k, w.trees[b], v)
    case _ => false
  }

  ghost predicate TreeMentions(w: World, bound: nat, d: Tree, v: Variable)
    decreases bound, 0
  {
    exists k :: k in Kernels(d) && k < bound && KernelMentions(w, k, v)
  }

  /** The environments differ at most in the value of v. */
  ghost predicate SameBut(e: Env, e': Env, v: Variable) {
    e.indices == e'.indices && forall u: Variable :: u != v ==> e.Var(u) == e'.Var(u)
  }

  lemma {:induction false} TermWithout(t: Term, v: Variable, S: Structure, e: Env, e': Env)
    requires SameBut(e, e', v) && !TermMentions(t, v)
    ensures TermValue(t, S, e) == TermValue(t, S, e')
    decreases t
  {
    match t
    case FuncTerm(_, args) =>
      forall n | 0 <= n < |args| ensures TermValue(args[n], S, e) == TermValue(args[n], S, e') {
        TermWithout(args[n], v, S, e, e');
      }
      assert ArgValues(args, S, e) == ArgValues(args, S, e');
    case _ =>
  }

  /** A kernel has a truth value that does not depend on variables that do not occur in it. */
  lemma {:induction false} KernelWithout(w: World, k: KernelId, v: Variable, S: Structure, e: Env, e': Env)
    requires w.Nested() && k < |w.kernels| && SameBut(e, e', v) && !KernelMentions(w, k, v)
    ensures w.KernelHolds(k, S, e) == w.KernelHolds(k, S, e')
    decreases k, 1
  {
    match w.kernels[k]
    case AtomKernel(_, _, args) =>
      forall n | 0 <= n < |args| ensures TermValue(args[n], S, e) == TermValue(args[n], S, e') {
        TermWithout(args[n], v, S, e, e');
      }
      assert ArgValues(args, S, e) == ArgValues(args, S, e');
    case QuantKernel(sort, b) =>
      assert w.NestedAt(k);
      forall x ensures w.Holds(w.trees[b], S, e.Push(x)) == w.Holds(w.trees[b], S, e'.Push(x)) {
        assert SameBut(e.Push(x), e'.Push(x), v) by {
          forall u: Variable | u != v ensures e.Push(x).Var(u) == e'.Push(x).Var(u) { assert e.Var(u) == e'.Var(u); }
        }
        TreeWithout(w, k, w.trees[b], v, S, e.Push(x), e'.Push(x));
      }
      w.QuantKernelHolds(k, S, e);
      w.QuantKernelHolds(k, S, e');
    case _ =>
  }

  lemma {:induction false} TreeWithout(w: World, bound: nat, d: Tree, v: Variable, S: Structure, e: Env, e': Env)
    requires w.Nested() && bound <= |w.kernels| && Within(d, bound) && SameBut(e, e', v) && !TreeMentions(w, bound, d, v)
    ensures w.Holds(d, S, e) == w.Holds(d, S, e')
    decreases bound, 0
  {
    forall j | j in Kernels(d) ensures w.KernelHolds(j, S, e) == w.KernelHolds(j, S, e') {
      KernelWithout(w, j, v, S, e, e');
    }
    EvalDependsOnKernels(d, w.Value(S, e), w.Value(S, e'));
  }

  lemma NestedNotMentioned(w: World, k: KernelId, v: Variable)
    requires k < |w.kernels| && w.kernels[k].QuantKernel? && w.NestedAt(k) && !KernelMentions(w, k, v)
    ensures forall j :: j in Kernels(w.trees[w.kernels[k].bdd]) ==> !KernelMentions(w, j, v)
  {
    assert !TreeMentions(w, k, w.trees[w.kernels[k].bdd], v);
  }

  // ---------- opening ----------

  /** Diagram r is the one nested in kernel k, with v for the bound index. */
  ghost predicate Opens(s: State, k: KernelId, v: Variable, r: NodeId) {
    && s.graph.Unfolds() && r < |s.graph.trees|
    && (forall S: Structure, e: Env ::
          s.World().KernelHolds(k, S, e) <==> SomeValue(s.World(), v, s.graph.trees[r], S, e))
    && (forall i: nat :: s.World().TreeContains(|s.table.kernels|, s.graph.trees[r], i) ==> s.World().KernelContains(k, i))
  }

  /** The nested diagram does not mention the variable, and the bound index has no other sort in it. */
  ghost predicate CanOpen(w: World, k: KernelId, v: Variable)
    requires k < |w.kernels| && w.kernels[k].QuantKernel?
  {
    && !KernelMentions(w, k, v) && v.sort == w.kernels[k].sort && w.kernels[k].bdd < |w.trees|
    && SuitsAll(w, SubstituteIndex(v.sort, 0, v), k, Kernels(w.trees[w.kernels[k].bdd]))
  }

  /** The kernel holds exactly when some value of the variable makes the opened diagram true. */
  lemma {:induction false} Opened(s: State, s1: State, k: KernelId, v: Variable, r: NodeId)
    requires s.Ok() && 2 <= k < |s.table.kernels| && s.table.kernels[k].QuantKernel? && CanOpen(s.World(), k, v)
    requires Changed(s, s1, SubstituteIndex(v.sort, 0, v), k, s.table.kernels[k].bdd, r)
    ensures Opens(s1, k, v, r)
  {
    var w0, w, sub, b := s.World(), s1.World(), SubstituteIndex(v.sort, 0, v), s.table.kernels[k].bdd;
    var d, d' := w.trees[b], w.trees[r];
    assert w0.NestedAt(k) && w.NestedAt(k);
    NestedNotMentioned(w0, k, v);
    OpeningUndone(w0, v, 0, k, Kernels(d));
    UndoneKeepsApart(w0, sub, BumpIndices(v, 0), k, Kernels(d));
    ChangedExactly(s, s1, sub, k, b, r);
    GrowsKeeps(s, s1);
    KernelMentionsLater(w0, w, k, v);
    forall S: Structure, e: Env ensures w.KernelHolds(k, S, e) <==> SomeValue(w, v, d', S, e) {
      assert MeansChanged(w, sub, d, d', S);
      forall x ensures w.Holds(d', S, e.Bind(map[v := x])) == w.Holds(d, S, e.Push(x)) { OpenedAt(w, k, v, d, d', S, e, x); }
      w.QuantKernelHolds(k, S, e);
    }
    QuantIndices(w, k, d);
    forall i: nat | w.TreeContains(|w.kernels|, d', i) ensures w.KernelContains(k, i) {
      assert sub.Covers(i, (j: nat) => w.TreeContains(|w.kernels|, d, j));
    }
  }

  lemma {:induction false} KernelMentionsLater(w: World, w': World, k: KernelId, v: Variable)
    requires w.Nested() && w'.Nested() && Keeps(w, w') && k < |w.kernels|
    ensures KernelMentions(w', k, v) == KernelMentions(w, k, v)
    decreases k
  {
    if w.kernels[k].QuantKernel? {
      assert w.NestedAt(k) && w'.NestedAt(k);
      var b := w.kernels[k].bdd;
      forall j | j in Kernels(w.trees[b]) ensures KernelMentions(w', j, v) == KernelMentions(w, j, v) {
        KernelMentionsLater(w, w', j, v);
      }
    }
  }

  lemma SubstitutedTarget(v: Variable, S: Structure, e: Env, x: DomainElement)
    ensures var sub, outer := SubstituteIndex(v.sort, 0, v), e.Bind(map[v := x]);
      sub.Fits(outer) && sub.Target(S, outer) == outer.Push(x)
  {
    assert [] + [x] + e.indices == [x] + e.indices;
  }

  lemma {:induction false} OpenedAt(w: World, k: KernelId, v: Variable, d: Tree, d': Tree, S: Structure, e: Env, x: DomainElement)
    requires w.Nested() && k < |w.kernels| && Within(d, k) && !TreeMentions(w, k, d, v)
    requires MeansChanged(w, SubstituteIndex(v.sort, 0, v), d, d', S)
    ensures w.Holds(d', S, e.Bind(map[v := x])) == w.Holds(d, S, e.Push(x))
  {
    var outer := e.Bind(map[v := x]);
    SubstitutedTarget(v, S, e, x);
    assert SameBut(outer.Push(x), e.Push(x), v);
    TreeWithout(w, k, d, v, S, outer.Push(x), e.Push(x));
  }

  // ---------- there and back ----------

  /** Binding a variable and then putting it back for the index gives the same term, at any depth. */
  lemma {:induction false} BoundAndOpened(t: Term, v: Variable, depth: nat)
    ensures SubstituteIndex(v.sort, depth, v).ChangeTerm(BumpIndices(v, depth).ChangeTerm(t)) == t
    ensures SubstituteIndex(v.sort, depth, v).Suits(BumpIndices(v, depth).ChangeTerm(t))
    decreases t
  {
    if t.FuncTerm? {
      var bump, sub := BumpIndices(v, depth), SubstituteIndex(v.sort, depth, v);
      var args := bump.ChangeArgs(t.args);
      assert bump.ChangeTerm(t) == FuncTerm(t.func, args);
      assert sub.ChangeTerm(FuncTerm(t.func, args)) == FuncTerm(t.func, sub.ChangeArgs(args));
      forall n | 0 <= n < |t.args| ensures sub.ChangeArgs(args)[n] == t.args[n] && sub.Suits(args[n]) {
        BoundAndOpened(t.args[n], v, depth);
      }
      assert sub.ChangeArgs(args) == t.args;
    }
  }

  /** Opening with a variable that does not occur and binding it again gives the same term. */
  lemma {:induction false} OpenedAndBound(t: Term, v: Variable, depth: nat)
    requires !TermMentions(t, v) && SubstituteIndex(v.sort, depth, v).Suits(t)
    ensures BumpIndices(v, depth).ChangeTerm(SubstituteIndex(v.sort, depth, v).ChangeTerm(t)) == t
    decreases t
  {
    if t.FuncTerm? {
      var bump, sub := BumpIndices(v, depth), SubstituteIndex(v.sort, depth, v);
      var args := sub.ChangeArgs(t.args);
      assert sub.ChangeTerm(t) == FuncTerm(t.func, args);
      assert bump.ChangeTerm(FuncTerm(t.func, args)) == FuncTerm(t.func, bump.ChangeArgs(args));
      forall n | 0 <= n < |t.args| ensures bump.ChangeArgs(args)[n] == t.args[n] {
        OpenedAndBound(t.args[n], v, depth);
      }
      assert bump.ChangeArgs(args) == t.args;
    }
  }

  /** Visitor v2 undoes what v1 does to the terms it meets. */
  ghost predicate Undoes(w: World, v1: Visitor, v2: Visitor, bound: nat, ks: set<KernelId>)
    decreases bound
  {
    bound > 0 ==>
      && (forall t :: t in ArgsOf(w, ks) ==> v2.ChangeTerm(v1.ChangeTerm(t)) == t)
      && Undoes(w, v1.Under(), v2.Under(), bound - 1, NestedKernels(w, ks))
  }

  lemma {:induction false} BindingUndone(w: World, v: Variable, depth: nat, bound: nat, ks: set<KernelId>)
    ensures Undoes(w, BumpIndices(v, depth), SubstituteIndex(v.sort, depth, v), bound, ks)
    decreases bound
  {
    if bound > 0 {
      forall t | t in ArgsOf(w, ks) { BoundAndOpened(t, v, depth); }
      BindingUndone(w, v, depth + 1, bound - 1, NestedKernels(w, ks));
    }
  }

  lemma {:induction false} OpeningUndone(w: World, v: Variable, depth: nat, bound: nat, ks: set<KernelId>)
    requires w.Nested() && forall k :: k in ks ==> k < bound && !KernelMentions(w, k, v)
    requires SuitsAll(w, SubstituteIndex(v.sort, depth, v), bound, ks)
    ensures Undoes(w, SubstituteIndex(v.sort, depth, v), BumpIndices(v, depth), bound, ks)
    decreases bound
  {
    if bound > 0 {
      forall t | t in ArgsOf(w, ks) ensures BumpIndices(v, depth).ChangeTerm(SubstituteIndex(v.sort, depth, v).ChangeTerm(t)) == t {
        OpenedAndBound(t, v, depth);
      }
      NestedBelow(w, bound, ks);
      forall j | j in NestedKernels(w, ks) ensures !KernelMentions(w, j, v) {
        var k :| k in ks && k < |w.kernels| && w.kernels[k].QuantKernel? && w.kernels[k].bdd < |w.trees| && j in Kernels(w.trees[w.kernels[k].bdd]);
        assert w.NestedAt(k);
        NestedNotMentioned(w, k, v);
      }
      OpeningUndone(w, v, depth + 1, bound - 1, NestedKernels(w, ks));
    }
  }

  /** What can be undone keeps different terms apart. */
  lemma {:induction false} UndoneKeepsApart(w: World, v1: Visitor, v2: Visitor, bound: nat, ks: set<KernelId>)
    requires Undoes(w, v1, v2, bound, ks)
    ensures KeepsApart(w, v1, bound, ks)
    decreases bound
  {
    if bound > 0 {
      forall t, u | t in ArgsOf(w, ks) && u in ArgsOf(w, ks) && v1.ChangeTerm(t) == v1.ChangeTerm(u) ensures t == u {
        assert v2.ChangeTerm(v1.ChangeTerm(t)) == t && v2.ChangeTerm(v1.ChangeTerm(u)) == u;
      }
      UndoneKeepsApart(w, v1.Under(), v2.Under(), bound - 1, NestedKernels(w, ks));
    }
  }

  lemma AtomUndone(s: State, v1: Visitor, v2: Visitor, k: KernelId, k1: KernelId, k2: KernelId)
    requires s.Ok() && Renames(s.World(), v1, k, k1) && Renames(s.World(), v2, k1, k2)
    requires s.table.kernels[k].AtomKernel? && forall n :: 0 <= n < |s.table.kernels[k].args| ==>
      v2.ChangeTerm(v1.ChangeTerm(s.table.kernels[k].args[n])) == s.table.kernels[k].args[n]
    ensures k2 == k
  {
    var args := s.table.kernels[k].args;
    assert s.table.Placed(k) && s.table.Placed(k1);
    assert v2.ChangeArgs(v1.ChangeArgs(args)) == args;
    assert s.table.kernels[k2] == s.table.kernels[k];
    assert s.table.Placed(k2);
  }

  /** Kernels come back to themselves. */
  lemma {:induction false} KernelUndone(s: State, v1: Visitor, v2: Visitor, bound: nat, ks: set<KernelId>, k: KernelId, k1: KernelId, k2: KernelId)
    requires s.Ok() && Undoes(s.World(), v1, v2, bound, ks) && k in ks && k < bound
    requires Renames(s.World(), v1, k, k1) && Renames(s.World(), v2, k1, k2)
    ensures k2 == k
    decreases bound, 0
  {
    var w := s.World();
    if w.kernels[k].AtomKernel? {
      assert forall n :: 0 <= n < |w.kernels[k].args| ==> w.kernels[k].args[n] in ArgsOf(w, ks);
      AtomUndone(s, v1, v2, k, k1, k2);
    } else {
      assert w.NestedAt(k) && w.NestedAt(k1);
      var d, d1 := w.trees[w.kernels[k].bdd], w.trees[w.kernels[k1].bdd];
      var d2 := if k2 < 2 then Leaf(k2 == TRUEKERNEL) else w.trees[w.kernels[k2].bdd];
      assert forall j :: j in Kernels(d) ==> j in NestedKernels(w, ks);
      TreeUndone(s, v1.Under(), v2.Under(), bound - 1, NestedKernels(w, ks), k, k1, d, d1, d2);
      assert s.table.Placed(k) && s.NestedOrderedAt(k);
      if k2 < 2 {
        SameOrdered(s, w.kernels[k].bdd, if k2 == TRUEKERNEL then TRUEBDD else FALSEBDD);
      } else {
        assert w.NestedAt(k2);
        SameNested(s, k, k2);
      }
    }
  }

  /** And so do the truth functions of diagrams. */
  lemma {:induction false} TreeUndone(s: State, v1: Visitor, v2: Visitor, bound: nat, ks: set<KernelId>, m: nat, m1: nat, d: Tree, d1: Tree, d2: Tree)
    requires s.Ok() && Undoes(s.World(), v1, v2, bound, ks) && Kernels(d) <= ks && Within(d, bound)
    requires TreeRenames(s.World(), v1, m, d, d1) && TreeRenames(s.World(), v2, m1, d1, d2)
    ensures Equivalent(d, d2)
    decreases bound, 1
  {
    var w, R1, R2 := s.World(), RenamesBelow(s.World(), v1, m), RenamesBelow(s.World(), v2, m1);
    UndoneKeepsApart(w, v1, v2, bound, ks);
    FewerKeptApart(w, v1, bound, ks, bound, Kernels(d));
    RenamesApart(s, v1, bound, Kernels(d));
    forall k, k1, k2 | k in Kernels(d) && R1(k, k1) && R2(k1, k2) ensures k2 == k >= 2 {
      KernelUndone(s, v1, v2, bound, ks, k, k1, k2);
    }
    forall i: KernelId, j: KernelId, k': KernelId | i in Kernels(d) && j in Kernels(d) && R1(i, k') && R1(j, k') ensures i == j && k' >= 2 {
      assert Renames(w, v1, i, k') && Renames(w, v1, j, k');
    }
    MappedBack(R1, R2, d, d1, d2);
  }

  /** Changing a diagram there and back gives an equivalent diagram, and the same node when it was ordered. */
  lemma NodeUndone(s: State, s1: State, s2: State, v1: Visitor, v2: Visitor, bound: nat, bound1: nat, b: NodeId, b1: NodeId, b2: NodeId)
    requires s.Ok() && Changed(s, s1, v1, bound, b, b1) && Changed(s1, s2, v2, bound1, b1, b2)
    requires bound <= |s.table.kernels| && Within(s.graph.trees[b], bound) && Undoes(s.World(), v1, v2, bound, Kernels(s.graph.trees[b]))
    ensures Equivalent(s.graph.trees[b], s2.graph.trees[b2])
    ensures Ordered(s.table.orders, s.graph.trees[b]) <==> b2 == b
  {
    ChangedGrows(s, s1, s2, v1, bound, b, b1);
    var d := s.graph.trees[b];
    UndoesLater(s.World(), s2.World(), v1, v2, bound, Kernels(d));
    TreeUndone(s2, v1, v2, bound, Kernels(d), bound, bound1, d, s2.graph.trees[b1], s2.graph.trees[b2]);
    NodeOrderedLater(s, s2.table.orders, b);
    if Ordered(s.table.orders, d) { SameOrdered(s2, b, b2); }
  }

  lemma {:induction false} UndoesLater(w: World, w': World, v1: Visitor, v2: Visitor, bound: nat, ks: set<KernelId>)
    requires w.kernels <= w'.kernels && w.trees <= w'.trees && w.Nested() && (forall k :: k in ks ==> k < |w.kernels|) && Undoes(w, v1, v2, bound, ks)
    ensures Undoes(w', v1, v2, bound, ks)
    decreases bound
  {
    if bound > 0 {
      SameParts(w, w', ks);
      UndoesLater(w, w', v1.Under(), v2.Under(), bound - 1, NestedKernels(w, ks));
    }
  }

  /** Binding a variable and opening again: an equivalent diagram, and the same node when it was ordered. */
  lemma BoundAndOpenedNode(s: State, s1: State, s2: State, v: Variable, bound: nat, bound1: nat, b: NodeId, b1: NodeId, b2: NodeId)
    requires s.Ok() && bound <= |s.table.kernels| && b < |s.graph.trees| && Within(s.graph.trees[b], bound)
    requires Changed(s, s1, BumpIndices(v, 0), bound, b, b1) && Changed(s1, s2, SubstituteIndex(v.sort, 0, v), bound1, b1, b2)
    ensures Equivalent(s.graph.trees[b], s2.graph.trees[b2])
    ensures Ordered(s.table.orders, s.graph.trees[b]) <==> b2 == b
  {
    BindingUndone(s.World(), v, 0, bound, Kernels(s.graph.trees[b]));
    NodeUndone(s, s1, s2, BumpIndices(v, 0), SubstituteIndex(v.sort, 0, v), bound, bound1, b, b1, b2);
  }

  /** Opening a quantified kernel and binding the variable again gives back the nested diagram. */
  lemma OpenedAndBoundNode(s: State, s1: State, s2: State, k: KernelId, v: Variable, bound1: nat, b1: NodeId, b2: NodeId)
    requires s.Ok() && 2 <= k < |s.table.kernels| && s.table.kernels[k].QuantKernel? && CanOpen(s.World(), k, v)
    requires Changed(s, s1, SubstituteIndex(v.sort, 0, v), k, s.table.kernels[k].bdd, b1)
    requires Changed(s1, s2, BumpIndices(v, 0), bound1, b1, b2)
    ensures b2 == s.table.kernels[k].bdd
  {
    var b := s.table.kernels[k].bdd;
    assert s.World().NestedAt(k) && s.NestedOrderedAt(k);
    NestedNotMentioned(s.World(), k, v);
    OpeningUndone(s.World(), v, 0, k, Kernels(s.graph.trees[b]));
    NodeUndone(s, s1, s2, SubstituteIndex(v.sort, 0, v), BumpIndices(v, 0), k, bound1, b, b1, b2);
  }
}
