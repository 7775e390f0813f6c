/** Whole runs of a manager: any sequence of operations and moves. */
module Runs {
  import opened Diagrams
  import opened Syntax
  import opened Semantics
  import opened Store
  import opened ManagerState
  import opened Operations
  import opened Quantification
  import opened Moves
  import opened Estimations

  /** A step adds nodes and kernels, or exchanges two kernels, or forgets what was remembered. */
  ghost predicate Step(s: State, s': State) {
    || (Grows(s, s') && s'.Sorted())
    || (exists upper, lower :: ExchangedState(s, s', upper, lower))
    || (s'.Ok() && s'.Sorted() && s' == s.(memo := NOTHING_REMEMBERED))
  }

  ghost predicate Run(states: seq<State>) {
    && states != [] && states[0].Ok() && states[0].Sorted()
    && forall i :: 0 < i < |states| ==> Step(states[i - 1], states[i])
  }

  lemma KeepsTransitive(w: World, w': World, w'': World)
    requires Keeps(w, w') && Keeps(w', w'')
    ensures Keeps(w, w'')
  {
    forall n | 0 <= n < |w.trees| ensures Equivalent(w''.trees[n], w.trees[n]) && Kernels(w''.trees[n]) == Kernels(w.trees[n]) {
      assert Equivalent(w'.trees[n], w.trees[n]) && Equivalent(w''.trees[n], w'.trees[n]);
      forall v: Valuation ensures Eval(w''.trees[n], v) == Eval(w.trees[n], v) { assert Eval(w'.trees[n], v) == Eval(w.trees[n], v); }
    }
  }

  lemma {:induction false} RunOk(states: seq<State>, i: nat)
    requires Run(states) && i < |states|
    ensures states[i].Ok() && states[i].Sorted()
  {
    if i > 0 { assert Step(states[i - 1], states[i]); }
  }

  lemma StepKeeps(s: State, s': State)
    requires Step(s, s')
    ensures Keeps(s.World(), s'.World())
  {
    PrefixKeeps(s'.World(), s'.World());
    if Grows(s, s') { GrowsKeeps(s, s'); }
  }

  /** From any state of a run to any later one: consistent, sorted, and every node keeps its truth function. */
  lemma {:induction false} RunKeeps(states: seq<State>, i: nat, j: nat)
    requires Run(states) && i <= j < |states|
    ensures states[i].Ok() && states[i].Sorted() && states[j].Ok() && states[j].Sorted()
    ensures Keeps(states[i].World(), states[j].World())
    decreases j
  {
    RunOk(states, i);
    RunOk(states, j);
    if i == j {
      PrefixKeeps(states[j].World(), states[j].World());
    } else {
      RunKeeps(states, i, j - 1);
      StepKeeps(states[j - 1], states[j]);
      KeepsTransitive(states[i].World(), states[j - 1].World(), states[j].World());
    }
  }

  /** A node means the same in every structure, and has the same chance, in all later states. */
  lemma RunKeepsMeaning(states: seq<State>, i: nat, j: nat, n: NodeId, S: Structure, e: Env, st: Statistics)
    requires Run(states) && i <= j < |states| && n < |states[i].graph.trees|
    ensures n < |states[j].graph.trees|
    ensures states[j].World().Holds(states[j].graph.trees[n], S, e) == states[i].World().Holds(states[i].graph.trees[n], S, e)
    ensures Chance(states[j].graph.trees[n], AllChances(states[j].World(), st))
         == Chance(states[i].graph.trees[n], AllChances(states[i].World(), st))
  {
    RunKeeps(states, i, j);
    var w, w' := states[i].World(), states[j].World();
    TreeWithin(states[i], n);
    TreeKept(w, w', w.trees[n], S, e);
    assert Equivalent(w'.trees[n], w.trees[n]);
    ChanceKept(states[i], states[j], st, n);
  }

  /** Canonicity: at any time, nodes with the same truth function are the same node. */
  lemma RunCanonical(states: seq<State>, j: nat, m: NodeId, n: NodeId)
    requires Run(states) && j < |states| && m < |states[j].graph.trees| && n < |states[j].graph.trees|
    ensures m == n <==> Equivalent(states[j].graph.trees[m], states[j].graph.trees[n])
  {
    RunKeeps(states, j, j);
    states[j].table.Distinct();
    CanonicalNodes(states[j].graph, states[j].unique, states[j].table.orders, m, n);
  }

  /** Hence an answer found once is the answer ever after, across all moves: the same pointer. */
  lemma SameConnective(states: seq<State>, i: nat, j: nat, op: Connective, a: NodeId, b: NodeId, r: NodeId, r': NodeId)
    requires Run(states) && i <= j < |states|
    requires a < |states[i].graph.trees| && b < |states[i].graph.trees| && r < |states[i].graph.trees| <= |states[j].graph.trees|
    requires r' < |states[j].graph.trees|
    requires IsConnective(op, states[i].graph.trees[r], states[i].graph.trees[a], states[i].graph.trees[b])
    requires IsConnective(op, states[j].graph.trees[r'], states[j].graph.trees[a], states[j].graph.trees[b])
    ensures r' == r
  {
    RunKeeps(states, i, j);
    var d, d' := states[i].graph.trees, states[j].graph.trees;
    forall v: Valuation ensures Eval(d'[r'], v) == Eval(d'[r], v) {
      assert Eval(d'[a], v) == Eval(d[a], v) && Eval(d'[b], v) == Eval(d[b], v) && Eval(d'[r], v) == Eval(d[r], v);
      assert Eval(d[r], v) == op.Apply(Eval(d[a], v), Eval(d[b], v));
    }
    RunCanonical(states, j, r', r);
  }

  /** Negating twice gives back the same pointer, even with moves in between. */
  lemma NegationTwice(states: seq<State>, i: nat, j: nat, a: NodeId, n: NodeId, r: NodeId)
    requires Run(states) && i <= j < |states|
    requires a < |states[i].graph.trees| && n < |states[i].graph.trees| <= |states[j].graph.trees| && r < |states[j].graph.trees|
    requires IsNegation(states[i].graph.trees[n], states[i].graph.trees[a])
    requires IsNegation(states[j].graph.trees[r], states[j].graph.trees[n])
    ensures r == a
  {
    RunKeeps(states, i, j);
    var d, d' := states[i].graph.trees, states[j].graph.trees;
    forall v: Valuation ensures Eval(d'[r], v) == Eval(d'[a], v) {
      assert Eval(d'[n], v) == Eval(d[n], v) && Eval(d'[a], v) == Eval(d[a], v);
      assert Eval(d[n], v) == !Eval(d[a], v) && Eval(d'[r], v) == !Eval(d'[n], v);
    }
    RunCanonical(states, j, r, a);
  }

  /** If-then-else puts a kernel anywhere in the order and still finds the one node. */
  lemma SameIfThenElse(states: seq<State>, i: nat, j: nat, k: KernelId, t: NodeId, f: NodeId, r: NodeId, r': NodeId)
    requires Run(states) && i <= j < |states|
    requires t < |states[i].graph.trees| && f < |states[i].graph.trees| && r < |states[i].graph.trees| <= |states[j].graph.trees|
    requires r' < |states[j].graph.trees|
    requires IsIfThenElse(states[i].graph.trees[r], k, states[i].graph.trees[t], states[i].graph.trees[f])
    requires IsIfThenElse(states[j].graph.trees[r'], k, states[j].graph.trees[t], states[j].graph.trees[f])
    ensures r' == r
  {
    RunKeeps(states, i, j);
    var d, d' := states[i].graph.trees, states[j].graph.trees;
    forall v: Valuation ensures Eval(d'[r'], v) == Eval(d'[r], v) {
      assert Eval(d'[t], v) == Eval(d[t], v) && Eval(d'[f], v) == Eval(d[f], v) && Eval(d'[r], v) == Eval(d[r], v);
      assert Eval(d[r], v) == if KernelValue(k, v) then Eval(d[t], v) else Eval(d[f], v);
    }
    RunCanonical(states, j, r', r);
  }
}
