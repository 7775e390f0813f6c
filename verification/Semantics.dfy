/** What diagrams mean in a structure: atoms speak about terms, quantified kernels about
    the diagram nested in them, with De Bruijn indices for the bound variables. */
module Semantics {
  import opened Diagrams
  import opened Syntax

  /** Interpretations of sorts, functions and relations; a bounded relation has tables of its own. */
  datatype Structure = Structure(
    universe: Sort -> iset<DomainElement>,
    apply: (PFSymbol, seq<DomainElement>) -> DomainElement,
    relation: (PFSymbol, AtomKernelType, seq<DomainElement>) -> bool)
  {
    /** Built-in sorts have the contents known beforehand. */
    ghost predicate RespectsBuiltin(sort: Sort) {
      sort.builtin ==> (sort.empty <==> universe(sort) == iset{})
    }

    ghost predicate Holds(symbol: PFSymbol, akt: AtomKernelType, vals: seq<DomainElement>) {
      match symbol
      case EqualityPredicate => |vals| == 2 && if akt.AKT_CF? then vals[0] != vals[1] else vals[0] == vals[1]
      case SortPredicate(sort) => |vals| == 1 && if akt.AKT_CF? then vals[0] !in universe(sort) else vals[0] in universe(sort)
      case _ => relation(symbol, akt, vals)
    }
  }

  const SOME_ELEMENT := IntElement(0)

  /** Values of the variables and of the De Bruijn indices. */
  datatype Env = Env(vars: map<Variable, DomainElement>, indices: seq<DomainElement>)
  {
    function Var(v: Variable): DomainElement {
      if v in vars then vars[v] else SOME_ELEMENT
    }

    function Index(i: nat): DomainElement {
      if i < |indices| then indices[i] else SOME_ELEMENT
    }

    function Bind(a: map<Variable, DomainElement>): Env {
      Env(vars + a, indices)
    }

    function Push(d: DomainElement): Env {
      Env(vars, [d] + indices)
    }
  }

  ghost function TermValue(t: Term, S: Structure, e: Env): DomainElement {
    match t
    case VariableTerm(v) => e.Var(v)
    case IndexTerm(_, i) => e.Index(i)
    case DomainTerm(_, c) => c
    case FuncTerm(g, args) => S.apply(g, ArgValues(args, S, e))
  }

  ghost function ArgValues(args: seq<Term>, S: Structure, e: Env): (r: seq<DomainElement>)
    ensures |r| == |args|
    ensures forall n :: 0 <= n < |args| ==> r[n] == TermValue(args[n], S, e)
  {
    seq(|args|, n requires 0 <= n < |args| => TermValue(args[n], S, e))
  }

  /** Kernels and the trees of the nodes they refer to. */
  datatype World = World(kernels: seq<Kernel>, trees: seq<Tree>)
  {
    /** The diagram under a quantifier mentions only kernels made before that quantifier. */
    ghost predicate Nested() {
      forall k {:trigger NestedAt(k)} :: 0 <= k < |kernels| && kernels[k].QuantKernel? ==> NestedAt(k)
    }

    ghost predicate NestedAt(k: KernelId)
      requires k < |kernels| && kernels[k].QuantKernel?
    {
      kernels[k].bdd < |trees| && Within(trees[kernels[k].bdd], k)
    }

    ghost predicate KernelHolds(k: KernelId, S: Structure, e: Env)
      decreases k
    {
      k < |kernels| &&
      match kernels[k]
      case TrueKernel => true
      case FalseKernel => false
      case AtomKernel(symbol, akt, args) => S.Holds(symbol, akt, ArgValues(args, S, e))
      case QuantKernel(sort, b) =>
        b < |trees| &&
        (exists d :: d in S.universe(sort) && Eval(trees[b], (j: KernelId) => j < k && KernelHolds(j, S, e.Push(d))))
    }

    ghost function Value(S: Structure, e: Env): Valuation {
      (k: KernelId) => KernelHolds(k, S, e)
    }

    ghost predicate Holds(d: Tree, S: Structure, e: Env) {
      Eval(d, Value(S, e))
    }

    lemma HoldsBranch(k: KernelId, t: Tree, f: Tree, S: Structure, e: Env)
      ensures Holds(Branch(k, t, f), S, e) == if KernelHolds(k, S, e) then Holds(t, S, e) else Holds(f, S, e)
      ensures Holds(Leaf(true), S, e) && !Holds(Leaf(false), S, e)
    {
      assert Value(S, e)(k) == KernelHolds(k, S, e);
    }

    /** A quantified kernel says that some element of its sort makes the nested diagram true. */
    lemma QuantKernelHolds(k: KernelId, S: Structure, e: Env)
      requires k < |kernels| && kernels[k].QuantKernel? && NestedAt(k)
      ensures KernelHolds(k, S, e) <==> SomeElement(kernels[k].sort, trees[kernels[k].bdd], S, e)
    {
      var b := kernels[k].bdd;
      forall d ensures Eval(trees[b], (j: KernelId) => j < k && KernelHolds(j, S, e.Push(d))) == Holds(trees[b], S, e.Push(d)) {
        EvalDependsOnKernels(trees[b], (j: KernelId) => j < k && KernelHolds(j, S, e.Push(d)), Value(S, e.Push(d)));
      }
    }

    ghost predicate SomeElement(sort: Sort, d: Tree, S: Structure, e: Env) {
      exists x :: x in S.universe(sort) && Holds(d, S, e.Push(x))
    }

    // ---------- De Bruijn indices ----------

    /** Does the kernel contain index i free?  Under a quantifier the index is one more. */
    predicate KernelContains(k: KernelId, i: nat)
      decreases k, 1
    {
      k < |kernels| &&
      match kernels[k]
      case TrueKernel => false
      case FalseKernel => false
      case AtomKernel(_, _, args) => ArgsContainIndex(args, i)
      case QuantKernel(_, b) => b < |trees| && TreeContains(k, trees[b], i + 1)
    }

    /** Only kernels below the bound are looked at; in a consistent world these are all there are. */
    predicate TreeContains(bound: nat, d: Tree, i: nat)
      decreases bound, 0, d
    {
      match d
      case Leaf(_) => false
      case Branch(k, t, f) =>
        (k < bound && KernelContains(k, i)) || TreeContains(bound, f, i) || TreeContains(bound, t, i)
    }
  }

  /** Does the diagram test kernel j, at the top or in a diagram nested under a quantifier? */
  ghost predicate Mentions(w: World, bound: nat, d: Tree, j: KernelId)
    decreases bound, 1
  {
    || j in Kernels(d)
    || exists k :: k in Kernels(d) && MentionsInside(w, bound, k, j)
  }

  ghost predicate MentionsInside(w: World, bound: nat, k: KernelId, j: KernelId)
    decreases bound, 0
  {
    k < bound && k < |w.kernels| && w.kernels[k].QuantKernel? && w.kernels[k].bdd < |w.trees|
    && Mentions(w, k, w.trees[w.kernels[k].bdd], j)
  }

  ghost predicate Within(d: Tree, bound: nat) {
    forall j :: j in Kernels(d) ==> j < bound
  }

  ghost predicate SomeKernelContains(w: World, bound: nat, d: Tree, i: nat) {
    exists k :: k in Kernels(d) && k < bound && w.KernelContains(k, i)
  }

  lemma {:induction false} TreeContainsKernel(w: World, bound: nat, d: Tree, i: nat)
    ensures w.TreeContains(bound, d, i) <==> SomeKernelContains(w, bound, d, i)
    decreases d
  {
    match d
    case Leaf(_) =>
    case Branch(k, t, f) =>
      TreeContainsKernel(w, bound, t, i);
      TreeContainsKernel(w, bound, f, i);
  }

  // ---------- values do not depend on indices that do not occur ----------

  lemma {:induction false} TermIndependent(t: Term, S: Structure, e: Env, e': Env)
    requires e.vars == e'.vars
    requires forall i: nat :: t.ContainsIndex(i) ==> e.Index(i) == e'.Index(i)
    ensures TermValue(t, S, e) == TermValue(t, S, e')
    decreases t
  {
    match t
    case VariableTerm(_) =>
    case IndexTerm(_, i) => assert t.ContainsIndex(i);
    case DomainTerm(_, _) =>
    case FuncTerm(_, args) => ArgsIndependent(args, S, e, e');
  }

  lemma {:induction false} ArgsIndependent(args: seq<Term>, S: Structure, e: Env, e': Env)
    requires e.vars == e'.vars
    requires forall i: nat :: ArgsContainIndex(args, i) ==> e.Index(i) == e'.Index(i)
    ensures ArgValues(args, S, e) == ArgValues(args, S, e')
    decreases args
  {
    forall n | 0 <= n < |args| ensures TermValue(args[n], S, e) == TermValue(args[n], S, e') {
      TermIndependent(args[n], S, e, e');
    }
  }

  /** A kernel that does not contain an index has a value independent of it. */
  lemma {:induction false} KernelIndependent(w: World, k: KernelId, S: Structure, e: Env, e': Env)
    requires w.Nested() && k < |w.kernels|
    requires e.vars == e'.vars
    requires forall i: nat :: w.KernelContains(k, i) ==> e.Index(i) == e'.Index(i)
    ensures w.KernelHolds(k, S, e) == w.KernelHolds(k, S, e')
    decreases k
  {
    match w.kernels[k]
    case AtomKernel(_, _, args) => ArgsIndependent(args, S, e, e');
    case QuantKernel(sort, b) =>
      assert w.NestedAt(k);
      QuantsIndependent(w, k, S, e, e');
    case _ =>
  }

  lemma {:induction false} QuantsIndependent(w: World, k: KernelId, S: Structure, e: Env, e': Env)
    requires w.Nested() && k < |w.kernels| && w.kernels[k].QuantKernel?
    requires e.vars == e'.vars
    requires forall i: nat :: w.KernelContains(k, i) ==> e.Index(i) == e'.Index(i)
    ensures w.KernelHolds(k, S, e) == w.KernelHolds(k, S, e')
    decreases k, 0
  {
    assert w.NestedAt(k);
    var b := w.kernels[k].bdd;
    forall x ensures w.Holds(w.trees[b], S, e.Push(x)) == w.Holds(w.trees[b], S, e'.Push(x)) {
      forall j | j in Kernels(w.trees[b]) ensures w.KernelHolds(j, S, e.Push(x)) == w.KernelHolds(j, S, e'.Push(x)) {
        forall i: nat | w.KernelContains(j, i) ensures e.Push(x).Index(i) == e'.Push(x).Index(i) {
          if i > 0 {
            TreeContainsKernel(w, k, w.trees[b], i);
            assert w.KernelContains(k, i - 1);
          }
        }
        KernelIndependent(w, j, S, e.Push(x), e'.Push(x));
      }
      EvalDependsOnKernels(w.trees[b], w.Value(S, e.Push(x)), w.Value(S, e'.Push(x)));
    }
    w.QuantKernelHolds(k, S, e);
    w.QuantKernelHolds(k, S, e');
  }

  lemma TreeIndependent(w: World, d: Tree, S: Structure, e: Env, e': Env)
    requires w.Nested() && Within(d, |w.kernels|)
    requires e.vars == e'.vars
    requires forall i: nat :: w.TreeContains(|w.kernels|, d, i) ==> e.Index(i) == e'.Index(i)
    ensures w.Holds(d, S, e) == w.Holds(d, S, e')
  {
    forall j | j in Kernels(d) ensures w.KernelHolds(j, S, e) == w.KernelHolds(j, S, e') {
      forall i: nat | w.KernelContains(j, i) ensures e.Index(i) == e'.Index(i) {
        TreeContainsKernel(w, |w.kernels|, d, i);
      }
      KernelIndependent(w, j, S, e, e');
    }
    EvalDependsOnKernels(d, w.Value(S, e), w.Value(S, e'));
  }

  // ---------- later worlds ----------

  /** A world with more kernels and nodes in which all present nodes keep their truth functions. */
  ghost predicate Keeps(w: World, w': World) {
    && w.kernels <= w'.kernels && |w.trees| <= |w'.trees|
    && (forall n :: 0 <= n < |w.trees| ==> Equivalent(w'.trees[n], w.trees[n]) && Kernels(w'.trees[n]) == Kernels(w.trees[n]))
  }

  lemma {:induction false} KernelKept(w: World, w': World, k: KernelId, S: Structure, e: Env)
    requires w.Nested() && w'.Nested() && Keeps(w, w') && k < |w.kernels|
    ensures w'.KernelHolds(k, S, e) == w.KernelHolds(k, S, e)
    decreases k
  {
    if w.kernels[k].QuantKernel? {
      assert w.NestedAt(k) && w'.NestedAt(k);
      var b := w.kernels[k].bdd;
      forall x ensures w'.Holds(w'.trees[b], S, e.Push(x)) == w.Holds(w.trees[b], S, e.Push(x)) {
        forall j | j in Kernels(w.trees[b]) ensures w'.KernelHolds(j, S, e.Push(x)) == w.KernelHolds(j, S, e.Push(x)) {
          KernelKept(w, w', j, S, e.Push(x));
        }
        EvalDependsOnKernels(w.trees[b], w'.Value(S, e.Push(x)), w.Value(S, e.Push(x)));
        assert Equivalent(w'.trees[b], w.trees[b]);
      }
      w.QuantKernelHolds(k, S, e);
      w'.QuantKernelHolds(k, S, e);
    }
  }

  /** Present diagrams keep their meaning in later worlds. */
  lemma TreeKept(w: World, w': World, d: Tree, S: Structure, e: Env)
    requires w.Nested() && w'.Nested() && Keeps(w, w') && Within(d, |w.kernels|)
    ensures w'.Holds(d, S, e) == w.Holds(d, S, e)
  {
    forall j | j in Kernels(d) ensures w'.KernelHolds(j, S, e) == w.KernelHolds(j, S, e) { KernelKept(w, w', j, S, e); }
    EvalDependsOnKernels(d, w'.Value(S, e), w.Value(S, e));
  }

  lemma {:induction false} KernelContainsKept(w: World, w': World, k: KernelId, i: nat)
    requires w.Nested() && w'.Nested() && Keeps(w, w') && k < |w.kernels|
    ensures w'.KernelContains(k, i) == w.KernelContains(k, i)
    decreases k
  {
    if w.kernels[k].QuantKernel? {
      assert w.NestedAt(k) && w'.NestedAt(k);
      var b := w.kernels[k].bdd;
      TreeContainsKernel(w, k, w.trees[b], i + 1);
      TreeContainsKernel(w', k, w'.trees[b], i + 1);
      forall j | j in Kernels(w.trees[b]) ensures w'.KernelContains(j, i + 1) == w.KernelContains(j, i + 1) {
        KernelContainsKept(w, w', j, i + 1);
      }
    }
  }
}
