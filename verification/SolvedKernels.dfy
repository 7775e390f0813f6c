/** Quantified equations of a manager whose equation can be solved for the bound index. */
module SolvedKernels {
  import opened Diagrams
  import opened Syntax
  import opened Semantics
  import A = Arithmetic
  import C = Comparisons

  /** How elements and environments of a structure are read as numbers: unknown 0 is the bound index. */
  datatype Reading = Reading(value: DomainElement -> real, env: Env -> A.Env)
  {
    ghost predicate Ok() {
      forall e: Env, x: DomainElement, y: DomainElement ::
        env(e.Push(x)).unknown(0) == value(x) && C.SameElsewhere(env(e.Push(x)), env(e.Push(y)), 0)
    }

    /** The kernel is true exactly when the comparison is. */
    ghost predicate Reads(w: World, k: KernelId, S: Structure, c: C.Comparison) {
      forall e: Env :: w.KernelHolds(k, S, e) <==> c.Holds(env(e))
    }
  }

  /** A quantified equation that can be solved for the bound index holds exactly when the solution is in the sort:
      it may be taken for the true kernel if and only if that is always so. */
  lemma SolvedQuantKernel(w: World, q: KernelId, k: KernelId, S: Structure, r: Reading, c: C.Comparison, t: A.ArithTerm, e: Env, y: DomainElement)
    requires q < |w.kernels| && w.kernels[q].QuantKernel? && w.NestedAt(q)
    requires w.trees[w.kernels[q].bdd] == Branch(k, Leaf(true), Leaf(false))
    requires r.Ok() && r.Reads(w, k, S, c) && C.SolvedFor(c, A.Unknown(0), t) && c.op.EQ?
    ensures w.KernelHolds(q, S, e) <==> exists x :: x in S.universe(w.kernels[q].sort) && r.value(x) == t.Value(r.env(e.Push(y)))
  {
    var sort, d := w.kernels[q].sort, w.trees[w.kernels[q].bdd];
    w.QuantKernelHolds(q, S, e);
    forall x ensures w.Holds(d, S, e.Push(x)) <==> r.value(x) == t.Value(r.env(e.Push(y))) {
      w.HoldsBranch(k, Leaf(true), Leaf(false), S, e.Push(x));
      assert w.KernelHolds(k, S, e.Push(x)) <==> c.Holds(r.env(e.Push(x)));
      SolvedAt(r, c, t, e, x, y);
    }
  }

  lemma SolvedAt(r: Reading, c: C.Comparison, t: A.ArithTerm, e: Env, x: DomainElement, y: DomainElement)
    requires r.Ok() && C.SolvedFor(c, A.Unknown(0), t) && c.op.EQ?
    ensures c.Holds(r.env(e.Push(x))) <==> r.value(x) == t.Value(r.env(e.Push(y)))
  {
    var ex, ey := r.env(e.Push(x)), r.env(e.Push(y));
    assert ex.unknown(0) == r.value(x) && C.SameElsewhere(ex, ey, 0);
    C.NotMentioned(t, 0, ex, ey);
    assert c.Holds(ex) <==> c.op.Holds(t.Value(ex), A.Unknown(0).Value(ex));
  }
}
