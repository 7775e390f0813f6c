/** Binding variables: a variable becomes index 0 and the quantifier is pushed in. */
module Binding {
  import opened Diagrams
  import opened Syntax
  import opened Semantics
  import opened Store
  import opened ManagerState
  import opened Operations
  import opened Quantification
  import opened Visitors
  import opened Renaming
  import opened Rebuilding
  import opened WellSorted
  import opened Formulas

  ghost predicate SomeValue(w: World, v: Variable, d: Tree, S: Structure, e: Env) {
    exists x :: x in S.universe(v.sort) && w.Holds(d, S, e.Bind(map[v := x]))
  }

  /** Node r says that some value of v makes d true. */
  ghost predicate BindsOne(s: State, r: NodeId, v: Variable, d: Tree) {
    && s.graph.Unfolds() && r < |s.graph.trees| && NoIndex(s.World(), s.graph.trees[r])
    && (DiagramSorted(s.World(), d) ==> DiagramSorted(s.World(), s.graph.trees[r]))
    && forall S: Structure, e: Env :: S.RespectsBuiltin(v.sort) ==>
         (s.World().Holds(s.graph.trees[r], S, e) <==> SomeValue(s.World(), v, d, S, e))
  }

  /** Binding a variable is right in every structure, empty sorts or not. */
  lemma Bumped(s: State, s1: State, v: Variable, bound: nat, b: NodeId, bumped: NodeId)
    requires s.Ok() && Changed(s, s1, BumpIndices(v, 0), bound, b, bumped) && bound <= |s.table.kernels| && Within(s.graph.trees[b], bound)
    ensures forall S: Structure :: MeansChanged(s1.World(), BumpIndices(v, 0), s.graph.trees[b], s1.graph.trees[bumped], S)
    ensures IndicesChanged(s1.World(), BumpIndices(v, 0), s.graph.trees[b], s1.graph.trees[bumped])
  {
    OthersSuit(s.World(), BumpIndices(v, 0), bound, Kernels(s.graph.trees[b]));
    BindingKeepsApart(s.World(), BumpIndices(v, 0), bound, Kernels(s.graph.trees[b]));
    ChangedExactly(s, s1, BumpIndices(v, 0), bound, b, bumped);
  }

  lemma BumpedIsClosed(s: State, s1: State, v: Variable, bound: nat, b: NodeId, bumped: NodeId)
    requires s.Ok() && Changed(s, s1, BumpIndices(v, 0), bound, b, bumped) && bound <= |s.table.kernels| && Within(s.graph.trees[b], bound)
    requires NoIndex(s.World(), s.graph.trees[b])
    ensures OnlyIndexZero(s1.World(), s1.graph.trees[bumped])
  {
    GrowsKeeps(s, s1);
    TreeWithin(s, b);
    DiagramKept(s.World(), s1.World(), s.graph.trees[b]);
    Bumped(s, s1, v, bound, b, bumped);
    var w := s1.World();
    assert NoIndex(w, s.graph.trees[b]);
    forall i: nat | w.TreeContains(|w.kernels|, w.trees[bumped], i) ensures i == 0 {
      assert BumpIndices(v, 0).Covers(i, (j: nat) => w.TreeContains(|w.kernels|, s.graph.trees[b], j));
    }
  }

  lemma BumpedTarget(v: Variable, S: Structure, e: Env, x: DomainElement)
    ensures BumpIndices(v, 0).Fits(e.Push(x)) && BumpIndices(v, 0).Target(S, e.Push(x)) == e.Bind(map[v := x])
  {
    assert e.vars[v := x] == e.vars + map[v := x];
  }

  lemma BoundSorted(s: State, s1: State, s2: State, v: Variable, bound: nat, b: NodeId, bumped: NodeId)
    requires s.Ok() && Changed(s, s1, BumpIndices(v, 0), bound, b, bumped) && Grows(s1, s2)
    ensures DiagramSorted(s2.World(), s.graph.trees[b]) ==> BodySorted(s2.World(), v.sort, s1.graph.trees[bumped])
  {
    GrowsTransitive(s, s1, s2);
    GrowsKeeps(s, s2);
    GrowsKeeps(s1, s2);
    TreeWithin(s, b);
    TreeWithin(s1, bumped);
    SortedKept(s.World(), s2.World(), s.graph.trees[b]);
    SortedKept(s1.World(), s2.World(), s1.graph.trees[bumped]);
    if DiagramSorted(s.World(), s.graph.trees[b]) { ChangedSorted(s, s1, BumpIndices(v, 0), bound, b, bumped); }
  }

  lemma BoundOne(s: State, s1: State, s2: State, v: Variable, bound: nat, b: NodeId, bumped: NodeId, r: NodeId)
    requires s.Ok() && Changed(s, s1, BumpIndices(v, 0), bound, b, bumped) && NoIndex(s.World(), s.graph.trees[b])
    requires bound <= |s.table.kernels| && Within(s.graph.trees[b], bound)
    requires Quantified(s1, s2, v.sort, bumped, r) && !EmptyBuiltin(v.sort)
    ensures BindsOne(s2, r, v, s.graph.trees[b])
  {
    BumpedIsClosed(s, s1, v, bound, b, bumped);
    ChangedGrows(s, s1, s2, BumpIndices(v, 0), bound, b, bumped);
    Bumped(s, s2, v, bound, b, bumped);
    var w, d, d' := s2.World(), s.graph.trees[b], s1.graph.trees[bumped];
    BoundSorted(s, s1, s2, v, bound, b, bumped);
    forall S: Structure, e: Env | S.RespectsBuiltin(v.sort)
      ensures w.Holds(w.trees[r], S, e) <==> SomeValue(w, v, d, S, e)
    {
      assert w.Holds(w.trees[r], S, e) <==> w.SomeElement(v.sort, d', S, e);
      assert MeansChanged(w, BumpIndices(v, 0), d, d', S);
      forall x ensures w.Holds(d', S, e.Push(x)) == w.Holds(d, S, e.Bind(map[v := x])) { BumpedTarget(v, S, e, x); }
    }
  }

  ghost predicate SomeAssignment(w: World, vars: set<Variable>, d: Tree, S: Structure, e: Env) {
    exists a :: IsAssignment(S, vars, a) && w.Holds(d, S, e.Bind(a))
  }

  ghost predicate RespectsAll(S: Structure, vars: set<Variable>) {
    forall v :: v in vars ==> S.RespectsBuiltin(v.sort)
  }

  /** Node r says that some values of all the variables make d true. */
  ghost predicate Binds(s: State, r: NodeId, vars: set<Variable>, d: Tree) {
    && s.graph.Unfolds() && r < |s.graph.trees| && NoIndex(s.World(), s.graph.trees[r])
    && (DiagramSorted(s.World(), d) ==> DiagramSorted(s.World(), s.graph.trees[r]))
    && forall S: Structure, e: Env :: RespectsAll(S, vars) ==>
         (s.World().Holds(s.graph.trees[r], S, e) <==> SomeAssignment(s.World(), vars, d, S, e))
  }

  lemma BindsNone(s: State, b: NodeId)
    requires s.Ok() && b < |s.graph.trees| && NoIndex(s.World(), s.graph.trees[b])
    ensures Binds(s, b, {}, s.graph.trees[b])
  {
    var w, d := s.World(), s.graph.trees[b];
    forall S: Structure, e: Env ensures w.Holds(d, S, e) <==> SomeAssignment(w, {}, d, S, e) {
      var none: map<Variable, DomainElement> := map[];
      assert forall a :: IsAssignment(S, {}, a) <==> a == none;
      assert e.Bind(none) == e;
    }
  }

  /** Binding one more variable. */
  lemma BindsMore(s: State, s1: State, r: NodeId, r': NodeId, vars: set<Variable>, v: Variable, d: Tree)
    requires s.Ok() && Grows(s, s1) && Within(d, |s.table.kernels|) && v !in vars
    requires Binds(s, r, vars, d) && BindsOne(s1, r', v, s.graph.trees[r])
    ensures Binds(s1, r', vars + {v}, d)
  {
    var w, w1 := s.World(), s1.World();
    GrowsKeeps(s, s1);
    TreeWithin(s, r);
    DiagramKept(w, w1, s.graph.trees[r]);
    DiagramKept(w, w1, d);
    SortedKept(w, w1, s.graph.trees[r]);
    SortedKept(w, w1, d);
    forall S: Structure, e: Env | RespectsAll(S, vars + {v})
      ensures w1.Holds(w1.trees[r'], S, e) <==> SomeAssignment(w1, vars + {v}, d, S, e)
    {
      forall x ensures w1.Holds(w.trees[r], S, e.Bind(map[v := x])) <==> SomeAssignment(w1, vars, d, S, e.Bind(map[v := x])) {
        assert w.Holds(w.trees[r], S, e.Bind(map[v := x])) <==> SomeAssignment(w, vars, d, S, e.Bind(map[v := x]));
      }
      AssignmentsSplit(w1, vars, v, d, S, e);
    }
  }

  lemma AssignmentsSplit(w: World, vars: set<Variable>, v: Variable, d: Tree, S: Structure, e: Env)
    requires v !in vars
    ensures SomeAssignment(w, vars + {v}, d, S, e) <==>
            exists x :: x in S.universe(v.sort) && SomeAssignment(w, vars, d, S, e.Bind(map[v := x]))
  {
    if a :| IsAssignment(S, vars + {v}, a) && w.Holds(d, S, e.Bind(a)) {
      AssignmentWithout(S, vars, v, a, e);
      assert SomeAssignment(w, vars, d, S, e.Bind(map[v := a[v]]));
    }
    if x :| x in S.universe(v.sort) && SomeAssignment(w, vars, d, S, e.Bind(map[v := x])) {
      var a :| IsAssignment(S, vars, a) && w.Holds(d, S, e.Bind(map[v := x]).Bind(a));
      AssignmentWith(S, vars, v, x, a, e);
    }
  }

  lemma AssignmentWithout(S: Structure, vars: set<Variable>, v: Variable, a: map<Variable, DomainElement>, e: Env)
    requires v !in vars && IsAssignment(S, vars + {v}, a)
    ensures IsAssignment(S, vars, a - {v}) && e.Bind(map[v := a[v]]).Bind(a - {v}) == e.Bind(a)
  {
    assert e.vars + map[v := a[v]] + (a - {v}) == e.vars + a;
  }

  lemma AssignmentWith(S: Structure, vars: set<Variable>, v: Variable, x: DomainElement, a: map<Variable, DomainElement>, e: Env)
    requires v !in vars && IsAssignment(S, vars, a) && x in S.universe(v.sort)
    ensures IsAssignment(S, vars + {v}, a[v := x]) && e.Bind(a[v := x]) == e.Bind(map[v := x]).Bind(a)
  {
    assert e.vars + a[v := x] == e.vars + map[v := x] + a;
  }

  // ---------- quantified formulas ----------

  lemma BodyCompiled(s: State, f: Formula, g: Formula, b: NodeId, S: Structure, e: Env)
    requires Compiled(s, b, f) && g.QuantForm? && g.subformula == f && RespectsSorts(S, g)
    ensures RespectsAll(S, g.quantVars)
    ensures forall a: map<Variable, DomainElement> ::
      s.World().Holds(s.graph.trees[b], S, e.Bind(a)) <==> FormulaHolds(f, S, e.vars + a)
  {
    forall v | v in g.quantVars ensures S.RespectsBuiltin(v.sort) { assert g.Ranges(v.sort); }
    forall sort | f.Ranges(sort) ensures S.RespectsBuiltin(sort) { assert g.Ranges(sort); }
    forall a: map<Variable, DomainElement>
      ensures s.World().Holds(s.graph.trees[b], S, e.Bind(a)) <==> FormulaHolds(f, S, e.vars + a)
    {
      assert e.Bind(a).vars == e.vars + a;
    }
  }

  lemma ExistsCompiled(s: State, f: Formula, vars: set<Variable>, b: NodeId, r: NodeId)
    requires Compiled(s, b, f) && Binds(s, r, vars, s.graph.trees[b])
    ensures Compiled(s, r, QuantForm(false, false, vars, f))
  {
    var w, d := s.World(), s.graph.trees[b];
    var g := QuantForm(false, false, vars, f);
    forall S: Structure, e: Env | RespectsSorts(S, g) ensures w.Holds(w.trees[r], S, e) <==> FormulaHolds(g, S, e.vars) {
      BodyCompiled(s, f, g, b, S, e);
      assert w.Holds(w.trees[r], S, e) <==> SomeAssignment(w, vars, d, S, e);
    }
  }

  ghost predicate EveryAssignment(w: World, vars: set<Variable>, d: Tree, S: Structure, e: Env) {
    forall a :: IsAssignment(S, vars, a) ==> w.Holds(d, S, e.Bind(a))
  }

  /** Node r says that all values of all the variables make d true. */
  ghost predicate BindsAll(s: State, r: NodeId, vars: set<Variable>, d: Tree) {
    && s.graph.Unfolds() && r < |s.graph.trees| && NoIndex(s.World(), s.graph.trees[r])
    && (DiagramSorted(s.World(), d) ==> DiagramSorted(s.World(), s.graph.trees[r]))
    && forall S: Structure, e: Env :: RespectsAll(S, vars) ==>
         (s.World().Holds(s.graph.trees[r], S, e) <==> EveryAssignment(s.World(), vars, d, S, e))
  }

  /** All values make d true when it is not the case that some make its negation true. */
  lemma NotSomeNot(s: State, s1: State, vars: set<Variable>, d: Tree, nd: Tree, q: NodeId, r: NodeId)
    requires Extends(s, s1) && Binds(s, q, vars, nd) && IsNegation(nd, d) && r < |s1.graph.trees|
    requires IsNegation(s1.graph.trees[r], s.graph.trees[q])
    requires s.Ok() && Within(d, |s.table.kernels|)
    ensures BindsAll(s1, r, vars, d)
  {
    var w, w1 := s.World(), s1.World();
    GrowsKeeps(s, s1);
    TreeWithin(s, q);
    DiagramKept(w, w1, w.trees[q]);
    DiagramKept(w, w1, d);
    SortedKept(w, w1, w.trees[q]);
    SortedKept(w, w1, d);
    NoIndexKernels(w1, w.trees[q]);
    KernelsWithoutIndex(w1, w1.trees[r], Kernels(w.trees[q]));
    forall S: Structure, e: Env | RespectsAll(S, vars)
      ensures w1.Holds(w1.trees[r], S, e) <==> EveryAssignment(w1, vars, d, S, e)
    {
      assert Eval(w1.trees[r], w1.Value(S, e)) == !Eval(w.trees[q], w1.Value(S, e));
      assert w.Holds(w.trees[q], S, e) <==> SomeAssignment(w, vars, nd, S, e);
      forall a ensures w.Holds(nd, S, e.Bind(a)) == !w.Holds(d, S, e.Bind(a)) {
        assert Eval(nd, w.Value(S, e.Bind(a))) == !Eval(d, w.Value(S, e.Bind(a)));
      }
    }
  }

  lemma NegationNoIndex(s: State, s1: State, b: NodeId, n: NodeId)
    requires s.Ok() && Extends(s, s1) && b < |s.graph.trees| && n < |s1.graph.trees|
    requires NoIndex(s.World(), s.graph.trees[b]) && IsNegation(s1.graph.trees[n], s.graph.trees[b])
    ensures NoIndex(s1.World(), s1.graph.trees[n])
  {
    GrowsKeeps(s, s1);
    TreeWithin(s, b);
    DiagramKept(s.World(), s1.World(), s.graph.trees[b]);
    NoIndexKernels(s1.World(), s.graph.trees[b]);
    KernelsWithoutIndex(s1.World(), s1.graph.trees[n], Kernels(s.graph.trees[b]));
  }

  lemma UnivCompiled(s: State, f: Formula, vars: set<Variable>, b: NodeId, r: NodeId)
    requires Compiled(s, b, f) && BindsAll(s, r, vars, s.graph.trees[b])
    ensures Compiled(s, r, QuantForm(false, true, vars, f))
  {
    var w, d := s.World(), s.graph.trees[b];
    var g := QuantForm(false, true, vars, f);
    forall S: Structure, e: Env | RespectsSorts(S, g) ensures w.Holds(w.trees[r], S, e) <==> FormulaHolds(g, S, e.vars) {
      BodyCompiled(s, f, g, b, S, e);
      assert w.Holds(w.trees[r], S, e) <==> EveryAssignment(w, vars, d, S, e);
      EveryValue(f, g, w, d, S, e);
    }
  }

  lemma EveryValue(f: Formula, g: Formula, w: World, d: Tree, S: Structure, e: Env)
    requires g.QuantForm? && g == QuantForm(false, true, g.quantVars, f)
    requires forall a: map<Variable, DomainElement> :: w.Holds(d, S, e.Bind(a)) <==> FormulaHolds(f, S, e.vars + a)
    ensures EveryAssignment(w, g.quantVars, d, S, e) <==> FormulaHolds(g, S, e.vars)
  {
    if EveryAssignment(w, g.quantVars, d, S, e) {
      forall a | IsAssignment(S, g.quantVars, a) ensures FormulaHolds(f, S, e.vars + a) { assert w.Holds(d, S, e.Bind(a)); }
    }
    if FormulaHolds(g, S, e.vars) {
      forall a | IsAssignment(S, g.quantVars, a) ensures w.Holds(d, S, e.Bind(a)) { assert FormulaHolds(f, S, e.vars + a); }
    }
  }
}
