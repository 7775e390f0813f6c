/** From nodes of the manager to answer generators: quantified kernels are opened with new variables on the way. */
module NodeGenerators {
  import opened Diagrams
  import opened Syntax
  import opened Semantics
  import opened Store
  import opened ManagerState
  import opened Operations
  import opened Quantification
  import opened Visitors
  import opened WellSorted
  import opened Renaming
  import opened Rebuilding
  import opened Binding
  import opened Opening
  import opened Sifting
  import opened Copying
  import opened FoBddManager
  import G = Generators
  import Factory = BDDBasedGeneratorFactory

  type Assignment = G.Assignment
  type SortTables = Sort -> G.Table
  type Listing = (G.GKernel, bool, map<G.Var, G.Table>, Assignment) -> seq<Assignment>

  /** The tables list exactly the elements of the sorts, each once. */
  ghost predicate Listed(S: Structure, tables: SortTables) {
    forall sort: Sort, x :: x in S.universe(sort) <==> x in tables(sort)
  }

  ghost predicate NoRepeats(tables: SortTables) {
    forall sort: Sort :: G.NoDuplicates(tables(sort))
  }

  /** Atoms have their truth value in the structure. */
  ghost function InterpOf(w: World, S: Structure, listing: Listing): G.Interp {
    G.Interp((id: nat, a: Assignment) => w.KernelHolds(id, S, Env(a, [])), listing)
  }

  // ---------- variables ----------

  lemma {:induction false} TermAgrees(t: Term, S: Structure, e: Env, e': Env)
    requires e.indices == e'.indices && forall v :: v in VariablesOf(t) ==> e.Var(v) == e'.Var(v)
    ensures TermValue(t, S, e) == TermValue(t, S, e')
    decreases t
  {
    match t
    case VariableTerm(v) => assert v in VariablesOf(t);
    case FuncTerm(_, args) =>
      forall n | 0 <= n < |args| ensures TermValue(args[n], S, e) == TermValue(args[n], S, e') {
        assert VariablesOf(args[n]) <= VariablesOf(t);
        TermAgrees(args[n], S, e, e');
      }
      assert ArgValues(args, S, e) == ArgValues(args, S, e');
    case _ =>
  }

  /** An atom depends on its own variables only. */
  lemma AtomRestricted(w: World, k: KernelId, S: Structure, a: Assignment)
    requires k < |w.kernels| && w.kernels[k].AtomKernel?
    ensures w.KernelHolds(k, S, Env(G.Restrict(a, ArgsVariables(w.kernels[k].args)), [])) == w.KernelHolds(k, S, Env(a, []))
  {
    var args := w.kernels[k].args;
    var e, e' := Env(G.Restrict(a, ArgsVariables(args)), []), Env(a, []);
    forall n | 0 <= n < |args| ensures TermValue(args[n], S, e) == TermValue(args[n], S, e') {
      assert VariablesOf(args[n]) <= ArgsVariables(args);
      TermAgrees(args[n], S, e, e');
    }
    assert ArgValues(args, S, e) == ArgValues(args, S, e');
  }

  /** A variable of the sort that is not in use. */
  method NewVariable(sort: Sort, used: set<Variable>) returns (v: Variable)
    ensures v.sort == sort && v !in used
  {
    var todo, name := used, "";
    while todo != {}
      invariant todo <= used && forall u :: u in used && u !in todo ==> |u.name| <= |name|
      decreases todo
    {
      var u :| u in todo;
      if |u.name| > |name| {
        name := u.name;
      }
      todo := todo - {u};
    }
    v := Variable(name + "q", sort);
  }

  // ---------- what can be read ----------

  /** Index i, one more in nested diagrams down to depth n, occurs with this sort only. */
  ghost predicate IndexSorted(w: World, i: nat, sort: Sort, n: nat, ks: set<KernelId>)
    decreases n
  {
    && (forall t :: t in ArgsOf(w, ks) ==> OnlySort(t, i, sort))
    && (n > 0 ==> IndexSorted(w, i + 1, sort, n - 1, NestedKernels(w, ks)))
  }

  ghost predicate QuantAt(w: World, k: KernelId) {
    k < |w.kernels| && w.kernels[k].QuantKernel? && w.kernels[k].bdd < |w.trees|
  }

  /** Quantifiers are nested at most n deep, bound indices have the sort of their quantifier, and all
      variables are among those in use. */
  ghost predicate Readable(w: World, used: set<Variable>, n: nat, ks: set<KernelId>)
    decreases n
  {
    && (forall t :: t in ArgsOf(w, ks) ==> VariablesOf(t) <= used)
    && (forall k :: k in ks && QuantAt(w, k) ==>
          n > 0 && IndexSorted(w, 0, w.kernels[k].sort, n - 1, Kernels(w.trees[w.kernels[k].bdd])))
    && (n > 0 ==> Readable(w, used, n - 1, NestedKernels(w, ks)))
  }

  lemma FewerParts(w: World, ks: set<KernelId>, js: set<KernelId>)
    requires js <= ks
    ensures ArgsOf(w, js) <= ArgsOf(w, ks) && NestedKernels(w, js) <= NestedKernels(w, ks)
  {
  }

  lemma {:induction false} ReadableFewer(w: World, used: set<Variable>, n: nat, ks: set<KernelId>, js: set<KernelId>)
    requires Readable(w, used, n, ks) && js <= ks
    ensures Readable(w, used, n, js)
    decreases n
  {
    FewerParts(w, ks, js);
    if n > 0 { ReadableFewer(w, used, n - 1, NestedKernels(w, ks), NestedKernels(w, js)); }
  }

  lemma {:induction false} SortedLater(w: World, w': World, i: nat, sort: Sort, n: nat, ks: set<KernelId>)
    requires w.kernels <= w'.kernels && w.trees <= w'.trees && w.Nested() && forall k :: k in ks ==> k < |w.kernels|
    requires IndexSorted(w, i, sort, n, ks)
    ensures IndexSorted(w', i, sort, n, ks)
    decreases n
  {
    SameParts(w, w', ks);
    if n > 0 { SortedLater(w, w', i + 1, sort, n - 1, NestedKernels(w, ks)); }
  }

  lemma {:induction false} ReadableLater(w: World, w': World, used: set<Variable>, used': set<Variable>, n: nat, ks: set<KernelId>)
    requires w.kernels <= w'.kernels && w.trees <= w'.trees && w.Nested() && forall k :: k in ks ==> k < |w.kernels|
    requires Readable(w, used, n, ks) && used <= used'
    ensures Readable(w', used', n, ks)
    decreases n
  {
    SameParts(w, w', ks);
    forall k | k in ks && QuantAt(w', k)
      ensures n > 0 && IndexSorted(w', 0, w'.kernels[k].sort, n - 1, Kernels(w'.trees[w'.kernels[k].bdd]))
    {
      assert w.NestedAt(k) && QuantAt(w, k);
      SortedLater(w, w', 0, w.kernels[k].sort, n - 1, Kernels(w.trees[w.kernels[k].bdd]));
    }
    if n > 0 { ReadableLater(w, w', used, used', n - 1, NestedKernels(w, ks)); }
  }

  lemma NestedIn(w: World, ks: set<KernelId>, j: KernelId) returns (k: KernelId)
    requires w.Nested() && j in NestedKernels(w, ks)
    ensures k in ks && QuantAt(w, k) && j in Kernels(w.trees[w.kernels[k].bdd]) && j < k
  {
    k :| k in ks && k < |w.kernels| && w.kernels[k].QuantKernel? && w.kernels[k].bdd < |w.trees| && j in Kernels(w.trees[w.kernels[k].bdd]);
    assert w.NestedAt(k);
  }

  /** Well-sorted diagrams can be read. */
  lemma {:induction false} SortedReadable(w: World, used: set<Variable>, n: nat, ks: set<KernelId>)
    requires w.Nested() && forall k :: k in ks ==> k < n && k < |w.kernels|
    requires forall k :: k in ks ==> KernelSorted(w, k) && forall v :: KernelMentions(w, k, v) ==> v in used
    ensures Readable(w, used, n, ks)
    decreases n
  {
    forall t | t in ArgsOf(w, ks) ensures VariablesOf(t) <= used {
      var k, m :| k in ks && k < |w.kernels| && w.kernels[k].AtomKernel? && 0 <= m < |w.kernels[k].args| && w.kernels[k].args[m] == t;
      forall v | v in VariablesOf(t) ensures v in used {
        VariablesMentioned(t, v);
        assert KernelMentions(w, k, v);
      }
    }
    forall k | k in ks && QuantAt(w, k) ensures n > 0 && IndexSorted(w, 0, w.kernels[k].sort, n - 1, Kernels(w.trees[w.kernels[k].bdd])) {
      assert w.NestedAt(k);
      OnlySortSorted(w, 0, w.kernels[k].sort, n - 1, Kernels(w.trees[w.kernels[k].bdd]));
    }
    if n > 0 {
      forall j | j in NestedKernels(w, ks)
        ensures j < n - 1 && j < |w.kernels| && KernelSorted(w, j) && forall v :: KernelMentions(w, j, v) ==> v in used
      {
        var k := NestedIn(w, ks, j);
        forall v | KernelMentions(w, j, v) ensures v in used {
          assert TreeMentions(w, k, w.trees[w.kernels[k].bdd], v);
          assert KernelMentions(w, k, v);
        }
      }
      SortedReadable(w, used, n - 1, NestedKernels(w, ks));
    }
  }

  lemma {:induction false} OnlySortSorted(w: World, i: nat, sort: Sort, n: nat, ks: set<KernelId>)
    requires w.Nested() && forall k :: k in ks ==> KernelOnlySort(w, k, i, sort)
    ensures IndexSorted(w, i, sort, n, ks)
    decreases n
  {
    if n > 0 {
      forall j | j in NestedKernels(w, ks) ensures KernelOnlySort(w, j, i + 1, sort) {
        var k := NestedIn(w, ks, j);
        assert KernelOnlySort(w, k, i, sort);
      }
      OnlySortSorted(w, i + 1, sort, n - 1, NestedKernels(w, ks));
    }
  }

  // ---------- opening keeps what can be read ----------

  /** All kernels of js are images of kernels of ks. */
  ghost predicate Images(w: World, v: Visitor, ks: set<KernelId>, js: set<KernelId>) {
    forall j :: j in js ==> exists k :: k in ks && Renames(w, v, k, j)
  }

  lemma QuantImage(w: World, v: Visitor, k: KernelId, j: KernelId)
    requires Terminals(w) && Renames(w, v, k, j) && QuantAt(w, j)
    ensures QuantAt(w, k) && w.kernels[k].sort == w.kernels[j].sort
    ensures Images(w, v.Under(), Kernels(w.trees[w.kernels[k].bdd]), Kernels(w.trees[w.kernels[j].bdd]))
  {
    forall m' | m' in Kernels(w.trees[w.kernels[j].bdd])
      ensures exists m :: m in Kernels(w.trees[w.kernels[k].bdd]) && Renames(w, v.Under(), m, m')
    {
      var m := NestedSource(w, v, k, j, m');
    }
  }

  lemma NestedImages(w: World, v: Visitor, ks: set<KernelId>, js: set<KernelId>)
    requires Terminals(w) && Images(w, v, ks, js)
    ensures Images(w, v.Under(), NestedKernels(w, ks), NestedKernels(w, js))
  {
    forall m' | m' in NestedKernels(w, js) ensures exists m :: m in NestedKernels(w, ks) && Renames(w, v.Under(), m, m') {
      var j :| j in js && QuantAt(w, j) && m' in Kernels(w.trees[w.kernels[j].bdd]);
      var k :| k in ks && Renames(w, v, k, j);
      QuantImage(w, v, k, j);
      var m :| m in Kernels(w.trees[w.kernels[k].bdd]) && Renames(w, v.Under(), m, m');
      assert m in NestedKernels(w, ks);
    }
  }

  lemma ArgImage(w: World, v: Visitor, ks: set<KernelId>, js: set<KernelId>, t': Term) returns (t: Term)
    requires Terminals(w) && Images(w, v, ks, js) && t' in ArgsOf(w, js)
    ensures t in ArgsOf(w, ks) && t' == v.ChangeTerm(t)
  {
    var j, n :| j in js && j < |w.kernels| && w.kernels[j].AtomKernel? && 0 <= n < |w.kernels[j].args| && w.kernels[j].args[n] == t';
    var k :| k in ks && Renames(w, v, k, j);
    t := w.kernels[k].args[n];
  }

  lemma {:induction false} VariablesChanged(t: Term, v: Visitor)
    requires v.SubstituteIndex?
    ensures VariablesOf(v.ChangeTerm(t)) <= VariablesOf(t) + {v.newvariable}
    decreases t
  {
    if t.FuncTerm? {
      var args := v.ChangeArgs(t.args);
      assert v.ChangeTerm(t) == FuncTerm(t.func, args);
      forall u | u in VariablesOf(v.ChangeTerm(t)) ensures u in VariablesOf(t) + {v.newvariable} {
        assert u in ArgsVariables(args);
        var n :| 0 <= n < |args| && u in VariablesOf(args[n]);
        VariablesChanged(t.args[n], v);
      }
    }
  }

  lemma {:induction false} SortedImages(w: World, v: Visitor, i: nat, sort: Sort, n: nat, ks: set<KernelId>, js: set<KernelId>)
    requires Terminals(w) && v.SubstituteIndex? && i < v.index && Images(w, v, ks, js) && IndexSorted(w, i, sort, n, ks)
    ensures IndexSorted(w, i, sort, n, js)
    decreases n
  {
    forall t' | t' in ArgsOf(w, js) ensures OnlySort(t', i, sort) {
      var t := ArgImage(w, v, ks, js, t');
      v.OnlySortLeft(t, i, sort);
    }
    if n > 0 {
      NestedImages(w, v, ks, js);
      SortedImages(w, v.Under(), i + 1, sort, n - 1, NestedKernels(w, ks), NestedKernels(w, js));
    }
  }

  lemma {:induction false} ReadableImages(w: World, v: Visitor, used: set<Variable>, n: nat, ks: set<KernelId>, js: set<KernelId>)
    requires Terminals(w) && v.SubstituteIndex? && Images(w, v, ks, js) && Readable(w, used, n, ks)
    ensures Readable(w, used + {v.newvariable}, n, js)
    decreases n
  {
    forall t' | t' in ArgsOf(w, js) ensures VariablesOf(t') <= used + {v.newvariable} {
      var t := ArgImage(w, v, ks, js, t');
      VariablesChanged(t, v);
    }
    forall j | j in js && QuantAt(w, j) ensures n > 0 && IndexSorted(w, 0, w.kernels[j].sort, n - 1, Kernels(w.trees[w.kernels[j].bdd])) {
      var k :| k in ks && Renames(w, v, k, j);
      QuantImage(w, v, k, j);
      SortedImages(w, v.Under(), 0, w.kernels[j].sort, n - 1, Kernels(w.trees[w.kernels[k].bdd]), Kernels(w.trees[w.kernels[j].bdd]));
    }
    if n > 0 {
      NestedImages(w, v, ks, js);
      ReadableImages(w, v.Under(), used, n - 1, NestedKernels(w, ks), NestedKernels(w, js));
    }
  }

  // ---------- what can be read can be opened ----------

  lemma {:induction false} UnusedNotMentioned(w: World, used: set<Variable>, n: nat, ks: set<KernelId>, k: KernelId, v: Variable)
    requires w.Nested() && Readable(w, used, n, ks) && k in ks && v !in used
    ensures !KernelMentions(w, k, v)
    decreases n
  {
    if k < |w.kernels| {
      match w.kernels[k]
      case AtomKernel(_, _, args) =>
        forall m | 0 <= m < |args| ensures !TermMentions(args[m], v) {
          assert args[m] in ArgsOf(w, ks);
          VariablesMentioned(args[m], v);
        }
      case QuantKernel(_, b) =>
        assert w.NestedAt(k) && QuantAt(w, k);
        forall j | j in Kernels(w.trees[b]) ensures !KernelMentions(w, j, v) {
          assert j in NestedKernels(w, ks);
          UnusedNotMentioned(w, used, n - 1, NestedKernels(w, ks), j, v);
        }
      case _ =>
    }
  }

  lemma {:induction false} NothingSuits(w: World, v: Visitor, bound: nat)
    ensures SuitsAll(w, v, bound, {})
    decreases bound
  {
    assert ArgsOf(w, {}) == {} && NestedKernels(w, {}) == {};
    if bound > 0 { NothingSuits(w, v.Under(), bound - 1); }
  }

  lemma {:induction false} SortedSuits(w: World, v: Visitor, used: set<Variable>, n: nat, ks: set<KernelId>, bound: nat)
    requires w.Nested() && v.SubstituteIndex? && Readable(w, used, n, ks) && IndexSorted(w, v.index, v.sort, n, ks)
    requires forall k :: k in ks ==> k < bound
    ensures SuitsAll(w, v, bound, ks)
    decreases bound
  {
    if bound > 0 {
      NestedBelow(w, bound, ks);
      if n > 0 {
        SortedSuits(w, v.Under(), used, n - 1, NestedKernels(w, ks), bound - 1);
      } else {
        assert NestedKernels(w, ks) == {} by {
          forall j ensures j !in NestedKernels(w, ks) { assert forall k :: k in ks ==> !QuantAt(w, k); }
        }
        NothingSuits(w, v.Under(), bound - 1);
      }
    }
  }

  lemma ReadableOpens(w: World, used: set<Variable>, n: nat, ks: set<KernelId>, k: KernelId, v: Variable)
    requires w.Nested() && Readable(w, used, n, ks) && k in ks && QuantAt(w, k) && v !in used && v.sort == w.kernels[k].sort
    ensures n > 0 && CanOpen(w, k, v)
  {
    UnusedNotMentioned(w, used, n, ks, k, v);
    assert w.NestedAt(k);
    var nested := Kernels(w.trees[w.kernels[k].bdd]);
    assert forall j :: j in nested ==> j in NestedKernels(w, ks);
    ReadableFewer(w, used, n - 1, NestedKernels(w, ks), nested);
    SortedSuits(w, SubstituteIndex(v.sort, 0, v), used, n - 1, nested, k);
  }

  // ---------- what a diagram over variables stands for ----------

  ghost predicate IdsBelow(d: G.Diagram, n: nat) {
    match d
    case Leaf(_) => true
    case Branch(k, t, f) => KernelIdsBelow(k, n) && IdsBelow(t, n) && IdsBelow(f, n)
  }

  ghost predicate KernelIdsBelow(k: G.GKernel, n: nat) {
    match k
    case Atom(id, _) => id < n
    case Exists(_, _, body) => IdsBelow(body, n)
  }

  ghost predicate Stands(w: World, tables: SortTables, d: G.Diagram, t: Tree) {
    && IdsBelow(d, |w.kernels|)
    && forall S: Structure, listing: Listing, a: Assignment :: Listed(S, tables) ==>
         InterpOf(w, S, listing).DiagramHolds(d, a) == w.Holds(t, S, Env(a, []))
  }

  ghost predicate KernelStands(w: World, tables: SortTables, gk: G.GKernel, k: KernelId) {
    && KernelIdsBelow(gk, |w.kernels|)
    && forall S: Structure, listing: Listing, a: Assignment :: Listed(S, tables) ==>
         InterpOf(w, S, listing).KernelHolds(gk, a) == w.KernelHolds(k, S, Env(a, []))
  }

  lemma {:induction false} HoldsLater(w: World, w': World, S: Structure, listing: Listing, d: G.Diagram, a: Assignment)
    requires w.Nested() && w'.Nested() && Keeps(w, w') && IdsBelow(d, |w.kernels|)
    ensures InterpOf(w', S, listing).DiagramHolds(d, a) == InterpOf(w, S, listing).DiagramHolds(d, a)
    decreases d
  {
    match d
    case Leaf(_) =>
    case Branch(k, t, f) =>
      KernelHoldsLater(w, w', S, listing, k, a);
      HoldsLater(w, w', S, listing, t, a);
      HoldsLater(w, w', S, listing, f, a);
  }

  lemma {:induction false} KernelHoldsLater(w: World, w': World, S: Structure, listing: Listing, k: G.GKernel, a: Assignment)
    requires w.Nested() && w'.Nested() && Keeps(w, w') && KernelIdsBelow(k, |w.kernels|)
    ensures InterpOf(w', S, listing).KernelHolds(k, a) == InterpOf(w, S, listing).KernelHolds(k, a)
    decreases k
  {
    match k
    case Atom(id, vars) => KernelKept(w, w', id, S, Env(G.Restrict(a, vars), []));
    case Exists(v, table, body) =>
      forall x | x in table ensures InterpOf(w', S, listing).DiagramHolds(body, a[v := x]) == InterpOf(w, S, listing).DiagramHolds(body, a[v := x]) {
        HoldsLater(w, w', S, listing, body, a[v := x]);
      }
  }

  lemma StandsLater(s: State, s': State, tables: SortTables, d: G.Diagram, t: Tree)
    requires s.Ok() && Grows(s, s') && Within(t, |s.table.kernels|) && Stands(s.World(), tables, d, t)
    ensures Stands(s'.World(), tables, d, t)
  {
    var w, w' := s.World(), s'.World();
    GrowsKeeps(s, s');
    IdsStay(d, |w.kernels|, |w'.kernels|);
    forall S: Structure, listing: Listing, a: Assignment | Listed(S, tables)
      ensures InterpOf(w', S, listing).DiagramHolds(d, a) == w'.Holds(t, S, Env(a, []))
    {
      HoldsLater(w, w', S, listing, d, a);
      TreeKept(w, w', t, S, Env(a, []));
      assert InterpOf(w, S, listing).DiagramHolds(d, a) == w.Holds(t, S, Env(a, []));
    }
  }

  lemma KernelStandsLater(s: State, s': State, tables: SortTables, gk: G.GKernel, k: KernelId)
    requires s.Ok() && Grows(s, s') && k < |s.table.kernels| && KernelStands(s.World(), tables, gk, k)
    ensures KernelStands(s'.World(), tables, gk, k)
  {
    var w, w' := s.World(), s'.World();
    GrowsKeeps(s, s');
    KernelIdsStay(gk, |w.kernels|, |w'.kernels|);
    forall S: Structure, listing: Listing, a: Assignment | Listed(S, tables)
      ensures InterpOf(w', S, listing).KernelHolds(gk, a) == w'.KernelHolds(k, S, Env(a, []))
    {
      KernelHoldsLater(w, w', S, listing, gk, a);
      KernelKept(w, w', k, S, Env(a, []));
      assert InterpOf(w, S, listing).KernelHolds(gk, a) == w.KernelHolds(k, S, Env(a, []));
    }
  }

  lemma {:induction false} IdsStay(d: G.Diagram, m: nat, n: nat)
    requires IdsBelow(d, m) && m <= n
    ensures IdsBelow(d, n)
    decreases d
  {
    match d
    case Leaf(_) =>
    case Branch(k, t, f) =>
      KernelIdsStay(k, m, n);
      IdsStay(t, m, n);
      IdsStay(f, m, n);
  }

  lemma {:induction false} KernelIdsStay(k: G.GKernel, m: nat, n: nat)
    requires KernelIdsBelow(k, m) && m <= n
    ensures KernelIdsBelow(k, n)
    decreases k
  {
    match k
    case Atom(_, _) =>
    case Exists(_, _, body) => IdsStay(body, m, n);
  }

  lemma AtomStands(w: World, tables: SortTables, k: KernelId)
    requires k < |w.kernels| && w.kernels[k].AtomKernel?
    ensures KernelStands(w, tables, G.Atom(k, ArgsVariables(w.kernels[k].args)), k)
  {
    forall S: Structure, listing: Listing, a: Assignment | Listed(S, tables)
      ensures InterpOf(w, S, listing).KernelHolds(G.Atom(k, ArgsVariables(w.kernels[k].args)), a) == w.KernelHolds(k, S, Env(a, []))
    {
      AtomRestricted(w, k, S, a);
    }
  }

  lemma QuantStands(s: State, tables: SortTables, k: KernelId, v: Variable, r: NodeId, body: G.Diagram)
    requires s.Ok() && Opens(s, k, v, r) && Stands(s.World(), tables, body, s.graph.trees[r])
    ensures KernelStands(s.World(), tables, G.Exists(v, tables(v.sort), body), k)
  {
    var w := s.World();
    forall S: Structure, listing: Listing, a: Assignment | Listed(S, tables)
      ensures InterpOf(w, S, listing).KernelHolds(G.Exists(v, tables(v.sort), body), a) == w.KernelHolds(k, S, Env(a, []))
    {
      assert w.KernelHolds(k, S, Env(a, [])) <==> SomeValue(w, v, w.trees[r], S, Env(a, []));
      forall x ensures Env(a, []).Bind(map[v := x]) == Env(a[v := x], []) { assert a + map[v := x] == a[v := x]; }
      forall x | x in tables(v.sort) ensures InterpOf(w, S, listing).DiagramHolds(body, a[v := x]) == w.Holds(w.trees[r], S, Env(a[v := x], [])) {}
    }
  }

  lemma NodeStands(w: World, tables: SortTables, gk: G.GKernel, k: KernelId, dt: G.Diagram, t: Tree, df: G.Diagram, f: Tree)
    requires KernelStands(w, tables, gk, k) && Stands(w, tables, dt, t) && Stands(w, tables, df, f)
    ensures Stands(w, tables, G.Branch(gk, dt, df), Branch(k, t, f))
  {
    forall S: Structure, listing: Listing, a: Assignment | Listed(S, tables)
      ensures InterpOf(w, S, listing).DiagramHolds(G.Branch(gk, dt, df), a) == w.Holds(Branch(k, t, f), S, Env(a, []))
    {
      w.HoldsBranch(k, t, f, S, Env(a, []));
      assert InterpOf(w, S, listing).KernelHolds(gk, a) == w.KernelHolds(k, S, Env(a, []));
      assert InterpOf(w, S, listing).DiagramHolds(dt, a) == w.Holds(t, S, Env(a, []));
      assert InterpOf(w, S, listing).DiagramHolds(df, a) == w.Holds(f, S, Env(a, []));
    }
  }

  lemma LeafStands(w: World, tables: SortTables, b: bool)
    ensures Stands(w, tables, G.Leaf(b), Leaf(b))
  {
    forall S: Structure, a: Assignment { w.HoldsBranch(0, Leaf(true), Leaf(true), S, Env(a, [])); }
  }

  // ---------- reading a node ----------

  /** What reading gives: a diagram over variables that stands for the node, with new bound variables. */
  ghost predicate Read(s: State, s': State, tables: SortTables, n: NodeId, used: set<Variable>, d: G.Diagram, used': set<Variable>) {
    && s.graph.Unfolds() && n < |s.graph.trees| && Grows(s, s') && Stands(s'.World(), tables, d, s.graph.trees[n])
    && G.Ok(d) && used <= used' && G.BoundVars(d) !! used && G.BoundVars(d) <= used'
  }

  ghost predicate KernelRead(s: State, s': State, tables: SortTables, k: KernelId, used: set<Variable>, gk: G.GKernel, used': set<Variable>) {
    && Grows(s, s') && KernelStands(s'.World(), tables, gk, k)
    && G.KernelOk(gk) && used <= used' && G.KernelBound(gk) !! used && G.KernelBound(gk) <= used'
  }

  /** The diagram of a node over variables; every quantified kernel met is opened with a new variable. */
  method ReadNode(manager: FOBDDManager, n: NodeId, tables: SortTables, used: set<Variable>, ghost depth: nat)
    returns (d: G.Diagram, used': set<Variable>)
    requires manager.Valid() && n < |manager.nodes| && NoRepeats(tables)
    requires Readable(manager.Snap().World(), used, depth, Kernels(manager.trees[n]))
    modifies manager
    ensures manager.Valid() && Read(old(manager.Snap()), manager.Snap(), tables, n, used, d, used')
    decreases depth, 1, manager.trees[n]
  {
    ghost var s := manager.Snap();
    if n == TRUEBDD || n == FALSEBDD {
      LeafStands(s.World(), tables, n == TRUEBDD);
      return G.Leaf(n == TRUEBDD), used;
    }
    InnerNode(s, n);
    TreeWithin(s, n);
    var kernel, truebranch, falsebranch := manager.nodes[n].kernel, manager.nodes[n].truebranch, manager.nodes[n].falsebranch;
    var gk, used1 := ReadKernel(manager, kernel, Kernels(manager.trees[n]), tables, used, depth);
    ghost var s1 := manager.Snap();
    BranchReadable(s, s1, n, truebranch, used, used1, depth);
    var dt, used2 := ReadNode(manager, truebranch, tables, used1, depth);
    ghost var s2 := manager.Snap();
    GrowsTransitive(s, s1, s2);
    BranchReadable(s, s2, n, falsebranch, used, used2, depth);
    var df;
    df, used' := ReadNode(manager, falsebranch, tables, used2, depth);
    d := G.Branch(gk, dt, df);
    NodeRead(s, s1, s2, manager.Snap(), tables, n, used, gk, used1, dt, used2, df, used');
  }

  lemma BranchReadable(s: State, s1: State, n: NodeId, c: NodeId, used: set<Variable>, used1: set<Variable>, depth: nat)
    requires s.Ok() && Grows(s, s1) && 2 <= n < |s.graph.nodes| && used <= used1
    requires c == s.graph.nodes[n].truebranch || c == s.graph.nodes[n].falsebranch
    requires Readable(s.World(), used, depth, Kernels(s.graph.trees[n]))
    ensures c < |s.graph.trees| && Readable(s1.World(), used1, depth, Kernels(s.graph.trees[c]))
  {
    InnerNode(s, n);
    TreeWithin(s, c);
    ReadableFewer(s.World(), used, depth, Kernels(s.graph.trees[n]), Kernels(s.graph.trees[c]));
    ReadableLater(s.World(), s1.World(), used, used1, depth, Kernels(s.graph.trees[c]));
  }

  lemma NodeRead(s: State, s1: State, s2: State, s3: State, tables: SortTables, n: NodeId, used: set<Variable>,
                 gk: G.GKernel, used1: set<Variable>, dt: G.Diagram, used2: set<Variable>, df: G.Diagram, used3: set<Variable>)
    requires s.Ok() && 2 <= n < |s.graph.nodes|
    requires KernelRead(s, s1, tables, s.graph.nodes[n].kernel, used, gk, used1)
    requires Read(s1, s2, tables, s.graph.nodes[n].truebranch, used1, dt, used2)
    requires Read(s2, s3, tables, s.graph.nodes[n].falsebranch, used2, df, used3)
    ensures Read(s, s3, tables, n, used, G.Branch(gk, dt, df), used3)
  {
    InnerNode(s, n);
    var x := s.graph.nodes[n];
    GrowsTransitive(s1, s2, s3);
    GrowsTransitive(s, s1, s3);
    TreeWithin(s2, x.truebranch);
    KernelStandsLater(s1, s3, tables, gk, x.kernel);
    StandsLater(s2, s3, tables, dt, s2.graph.trees[x.truebranch]);
    NodeStands(s3.World(), tables, gk, x.kernel, dt, s.graph.trees[x.truebranch], df, s.graph.trees[x.falsebranch]);
  }

  method ReadKernel(manager: FOBDDManager, k: KernelId, ghost ks: set<KernelId>, tables: SortTables, used: set<Variable>, ghost depth: nat)
    returns (gk: G.GKernel, used': set<Variable>)
    requires manager.Valid() && 2 <= k < |manager.table.kernels| && k in ks && NoRepeats(tables)
    requires (forall j :: j in ks ==> j < |manager.table.kernels|) && Readable(manager.Snap().World(), used, depth, ks)
    modifies manager
    ensures manager.Valid() && KernelRead(old(manager.Snap()), manager.Snap(), tables, k, used, gk, used')
    decreases depth, 0
  {
    ghost var s := manager.Snap();
    assert manager.table.Placed(k);
    match manager.table.kernels[k]
    case AtomKernel(_, _, args) =>
      AtomStands(s.World(), tables, k);
      return G.Atom(k, ArgsVariables(args)), used;
    case QuantKernel(sort, b) =>
      assert s.World().NestedAt(k);
      var quantvar := NewVariable(sort, used);
      ReadableOpens(s.World(), used, depth, ks, k, quantvar);
      var r := manager.OpenQuantKernel(k, quantvar);
      ghost var s1 := manager.Snap();
      OpenedReadable(s, s1, used, depth, ks, k, quantvar, r);
      var body;
      body, used' := ReadNode(manager, r, tables, used + {quantvar}, depth - 1);
      gk := G.Exists(quantvar, tables(sort), body);
      QuantRead(s, s1, manager.Snap(), tables, k, quantvar, r, used, body, used');
  }

  lemma OpenedReadable(s: State, s1: State, used: set<Variable>, depth: nat, ks: set<KernelId>, k: KernelId, v: Variable, r: NodeId)
    requires s.Ok() && 2 <= k < |s.table.kernels| && s.table.kernels[k].QuantKernel? && depth > 0
    requires Readable(s.World(), used, depth, ks) && k in ks && forall j :: j in ks ==> j < |s.table.kernels|
    requires Changed(s, s1, SubstituteIndex(v.sort, 0, v), k, s.table.kernels[k].bdd, r)
    ensures Readable(s1.World(), used + {v}, depth - 1, Kernels(s1.graph.trees[r]))
  {
    var w, w1, sub := s.World(), s1.World(), SubstituteIndex(v.sort, 0, v);
    assert w.NestedAt(k) && QuantAt(w, k);
    var nested, R := Kernels(w.trees[w.kernels[k].bdd]), RenamesBelow(w1, sub, k);
    assert forall j :: j in nested ==> j in NestedKernels(w, ks);
    ReadableFewer(w, used, depth - 1, NestedKernels(w, ks), nested);
    ReadableLater(w, w1, used, used, depth - 1, nested);
    WorldProper(s1);
    forall j' | j' in Kernels(w1.trees[r]) ensures exists j :: j in nested && Renames(w1, sub, j, j') {
      assert HasSource(R, nested, j');
      var j :| j in nested && R(j, j');
    }
    ReadableImages(w1, sub, used, depth - 1, nested, Kernels(w1.trees[r]));
  }

  lemma QuantRead(s: State, s1: State, s2: State, tables: SortTables, k: KernelId, v: Variable, r: NodeId, used: set<Variable>,
                  body: G.Diagram, used': set<Variable>)
    requires s.Ok() && Grows(s, s1) && k < |s.table.kernels| && Opens(s1, k, v, r) && NoRepeats(tables) && v !in used
    requires Read(s1, s2, tables, r, used + {v}, body, used')
    ensures KernelRead(s, s2, tables, k, used, G.Exists(v, tables(v.sort), body), used')
  {
    GrowsTransitive(s, s1, s2);
    OpensLater(s1, s2, k, v, r);
    QuantStands(s2, tables, k, v, r, body);
  }

  lemma OpensLater(s: State, s': State, k: KernelId, v: Variable, r: NodeId)
    requires s.Ok() && Grows(s, s') && k < |s.table.kernels| && Opens(s, k, v, r)
    ensures Opens(s', k, v, r)
  {
    var w, w' := s.World(), s'.World();
    GrowsKeeps(s, s');
    TreeWithin(s, r);
    DiagramKept(w, w', w.trees[r]);
    forall S: Structure, e: Env ensures w'.KernelHolds(k, S, e) <==> SomeValue(w', v, w'.trees[r], S, e) {
      KernelKept(w, w', k, S, e);
      assert w.KernelHolds(k, S, e) <==> SomeValue(w, v, w.trees[r], S, e);
    }
    forall i: nat | w'.TreeContains(|w'.kernels|, w'.trees[r], i) ensures w'.KernelContains(k, i) { KernelContainsKept(w, w', k, i); }
  }

  // ---------- the generator of a node ----------

  /** The generator made for a node enumerates exactly the tuples over the tables that make the node true, each once. */
  method CreateFromNode(manager: FOBDDManager, n: NodeId, tables: SortTables, pattern: seq<Factory.Pattern>, vars: seq<Variable>, vartables: seq<G.Table>,
                        ghost S: Structure, ghost listing: World -> Listing)
    returns (g: G.Generator)
    requires manager.Valid() && n < |manager.nodes| && NoRepeats(tables) && Listed(S, tables)
    requires DiagramSorted(manager.Snap().World(), manager.trees[n]) && Factory.DataOk(pattern, vars, vartables)
    requires forall w: World :: InterpOf(w, S, listing(w)).Ok()
    modifies manager
    ensures manager.Valid() && Grows(old(manager.Snap()), manager.Snap())
    ensures var w, t := manager.Snap().World(), old(manager.trees[n]);
      G.Right(InterpOf(w, S, listing(w)), g, Factory.OutputMap(pattern, vars, vartables), (x: Assignment) => w.Holds(t, S, Env(x, [])))
  {
    TreeWithin(manager.Snap(), n);
    var used := manager.NodeVariables(|manager.table.kernels|, n) + set v | v in vars;
    SortedReadable(manager.Snap().World(), used, |manager.table.kernels|, Kernels(manager.trees[n]));
    var d, used' := ReadNode(manager, n, tables, used, |manager.table.kernels|);
    ghost var w := manager.Snap().World();
    ghost var I := InterpOf(w, S, listing(w));
    ghost var t := old(manager.trees[n]);
    g := Factory.CreateFromBDD(I, d, pattern, vars, vartables);
    forall x: Assignment ensures I.DiagramHolds(d, x) == w.Holds(t, S, Env(x, [])) {}
    G.RightSame(I, g, Factory.OutputMap(pattern, vars, vartables), (x: Assignment) => I.DiagramHolds(d, x), (x: Assignment) => w.Holds(t, S, Env(x, [])));
  }

  /** In another order of the kernels a node has the meaning and the bound indices it had. */
  lemma OrderKeepsMeaning(s: State, s': State, b: NodeId)
    requires s.Ok() && s'.Ok() && s.Sorted() && s'.Sorted() && SameMeaning(s, s') && b < |s.graph.trees|
    ensures Keeps(s.World(), s'.World()) && Kernels(s'.graph.trees[b]) == Kernels(s.graph.trees[b])
    ensures DiagramSorted(s'.World(), s'.graph.trees[b]) <==> DiagramSorted(s.World(), s.graph.trees[b])
    ensures forall S: Structure, e: Env :: s'.World().Holds(s'.graph.trees[b], S, e) == s.World().Holds(s.graph.trees[b], S, e)
  {
    SameMeaningKeeps(s, s');
    TreeWithin(s, b);
    var w, w', d, d' := s.World(), s'.World(), s.graph.trees[b], s'.graph.trees[b];
    SortedKept(w, w', d);
    assert Equivalent(d', d) && Kernels(d') == Kernels(d);
    forall S: Structure, e: Env ensures w'.Holds(d', S, e) == w.Holds(d, S, e) {
      TreeKept(w, w', d, S, e);
      assert Eval(d', w'.Value(S, e)) == Eval(d, w'.Value(S, e));
    }
  }

  /** The generator made after the diagram has been copied to a manager of its own and optimised there. */
  method CreateOptimized(manager: FOBDDManager, n: NodeId, tables: SortTables, pattern: seq<Factory.Pattern>, vars: seq<Variable>, vartables: seq<G.Table>,
                         estimate: CostEstimate, ghost cost: Cost, ghost S: Structure, ghost listing: World -> Listing)
    returns (optimizemanager: FOBDDManager, g: G.Generator)
    requires manager.Valid() && n < |manager.nodes| && NoRepeats(tables) && Listed(S, tables) && Estimates(estimate, cost)
    requires DiagramSorted(manager.Snap().World(), manager.trees[n]) && Factory.DataOk(pattern, vars, vartables)
    requires forall w: World :: InterpOf(w, S, listing(w)).Ok()
    ensures fresh(optimizemanager) && optimizemanager.Valid()
    ensures var w, w', t := manager.Snap().World(), optimizemanager.Snap().World(), manager.trees[n];
      G.Right(InterpOf(w', S, listing(w')), g, Factory.OutputMap(pattern, vars, vartables), (x: Assignment) => w.Holds(t, S, Env(x, [])))
  {
    ghost var o := manager.Snap();
    optimizemanager := new FOBDDManager();
    ghost var s := optimizemanager.Snap();
    var copybdd := optimizemanager.CopyFrom(manager, n);
    ghost var s1 := optimizemanager.Snap();
    ghost var states, rounds := optimizemanager.OptimizeQuery(copybdd, estimate, cost);
    ghost var s2 := optimizemanager.Snap();
    NodeCopied(o, s, s1, |o.table.kernels|, n, copybdd);
    OrderKeepsMeaning(s1, s2, copybdd);
    g := CreateFromNode(optimizemanager, copybdd, tables, pattern, vars, vartables, S, listing);
    ghost var w' := optimizemanager.Snap().World();
    CopyStays(o, s2, optimizemanager.Snap(), n, copybdd, S);
    G.RightSame(InterpOf(w', S, listing(w')), g, Factory.OutputMap(pattern, vars, vartables),
                (x: Assignment) => w'.Holds(s2.graph.trees[copybdd], S, Env(x, [])),
                (x: Assignment) => o.World().Holds(o.graph.trees[n], S, Env(x, [])));
  }

  lemma CopyStays(o: State, s: State, s': State, b: NodeId, r: NodeId, S: Structure)
    requires s.Ok() && Grows(s, s') && r < |s.graph.trees| && b < |o.graph.trees|
    requires forall e: Env :: s.World().Holds(s.graph.trees[r], S, e) == o.World().Holds(o.graph.trees[b], S, e)
    ensures forall x: Assignment :: s'.World().Holds(s.graph.trees[r], S, Env(x, [])) == o.World().Holds(o.graph.trees[b], S, Env(x, []))
  {
    GrowsKeeps(s, s');
    TreeWithin(s, r);
    forall x: Assignment { TreeKept(s.World(), s'.World(), s.graph.trees[r], S, Env(x, [])); }
  }
}
