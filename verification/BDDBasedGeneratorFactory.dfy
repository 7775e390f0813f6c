/** The compiler from diagrams to generators. */
module BDDBasedGeneratorFactory {
  import opened Generators

  datatype Pattern = INPUT | OUTPUT

  /** The outputs among parallel lists of variables. */
  function OutputMap(pattern: seq<Pattern>, vars: seq<Var>, tables: seq<Table>): (r: map<Var, Table>)
    requires |pattern| == |vars| == |tables|
    decreases |vars|
  {
    if vars == [] then map[]
    else
      var n := |vars| - 1;
      var init := OutputMap(pattern[..n], vars[..n], tables[..n]);
      if pattern[n].OUTPUT? then init[vars[n] := tables[n]] else init
  }

  lemma {:induction false} OutputMapKeys(pattern: seq<Pattern>, vars: seq<Var>, tables: seq<Table>)
    requires |pattern| == |vars| == |tables|
    ensures forall v :: v in OutputMap(pattern, vars, tables) ==> v in vars
    ensures (forall t :: t in tables ==> NoDuplicates(t)) ==> TablesOk(OutputMap(pattern, vars, tables))
    ensures (forall p :: p in pattern ==> p.INPUT?) ==> OutputMap(pattern, vars, tables) == map[]
    decreases |vars|
  {
    if vars != [] {
      var n := |vars| - 1;
      OutputMapKeys(pattern[..n], vars[..n], tables[..n]);
      assert tables[n] in tables && pattern[n] in pattern;
    }
  }

  lemma OutputMapAppend(pattern: seq<Pattern>, vars: seq<Var>, tables: seq<Table>, p: Pattern, v: Var, t: Table)
    requires |pattern| == |vars| == |tables|
    ensures OutputMap(pattern + [p], vars + [v], tables + [t]) ==
            if p.OUTPUT? then OutputMap(pattern, vars, tables)[v := t] else OutputMap(pattern, vars, tables)
  {
    var n := |vars|;
    assert (pattern + [p])[..n] == pattern && (vars + [v])[..n] == vars && (tables + [t])[..n] == tables;
  }

  /** Parallel lists of different variables with their tables. */
  ghost predicate DataOk(pattern: seq<Pattern>, vars: seq<Var>, tables: seq<Table>) {
    |pattern| == |vars| == |tables| && NoDuplicates(vars) && forall t :: t in tables ==> NoDuplicates(t)
  }

  function AllInput(n: nat): (r: seq<Pattern>)
    ensures |r| == n && forall p :: p in r ==> p.INPUT?
  {
    seq(n, i => INPUT)
  }

  /** The first position at which the variable at position n stands. */
  predicate IsFirstOccurence(vars: seq<Var>, n: nat, m: nat)
    requires n < |vars|
  {
    m <= n && vars[m] == vars[n] && vars[n] !in vars[..m]
  }

  /** For every position the first position of the same variable. */
  method GetFirstOccurences(vars: seq<Var>) returns (firstocc: seq<nat>)
    ensures |firstocc| == |vars|
    ensures forall n :: 0 <= n < |vars| ==> IsFirstOccurence(vars, n, firstocc[n])
  {
    firstocc := [];
    for n := 0 to |vars|
      invariant |firstocc| == n
      invariant forall i :: 0 <= i < n ==> IsFirstOccurence(vars, i, firstocc[i])
    {
      var m := 0;
      while m < n && vars[n] != vars[m]
        invariant m <= n && vars[n] !in vars[..m]
      {
        m := m + 1;
      }
      assert IsFirstOccurence(vars, n, m);
      firstocc := firstocc + [m];
    }
  }

  /** A place of an output variable that has not occurred before. */
  predicate IsOutputPlace(pattern: seq<Pattern>, vars: seq<Var>, n: nat) {
    n < |pattern| == |vars| && pattern[n].OUTPUT? && vars[n] !in vars[..n]
  }

  /** These places among the first n, in order. */
  ghost function OutputPlaces(pattern: seq<Pattern>, vars: seq<Var>, n: nat): (r: seq<nat>)
    ensures forall i :: 0 <= i < |r| ==> r[i] < n && IsOutputPlace(pattern, vars, r[i])
    ensures forall i, j :: 0 <= i < j < |r| ==> r[i] < r[j]
    ensures forall m :: 0 <= m < n && IsOutputPlace(pattern, vars, m) ==> m in r
  {
    if n == 0 then []
    else OutputPlaces(pattern, vars, n - 1) + if IsOutputPlace(pattern, vars, n - 1) then [n - 1] else []
  }

  /** The outputs at the given places. */
  ghost predicate TakenFrom<X(!new)>(xs: seq<X>, places: seq<nat>, taken: seq<X>) {
    |taken| == |places| && forall i :: 0 <= i < |places| ==> places[i] < |xs| && taken[i] == xs[places[i]]
  }

  /** The outputs, each at its first occurrence, in order; repeated variables are listed once. */
  method ExtractFirstOccurringOutputs(pattern: seq<Pattern>, vars: seq<Var>, tables: seq<Table>)
    returns (outvars: seq<Var>, outtables: seq<Table>)
    requires |pattern| == |vars| == |tables|
    ensures TakenFrom(vars, OutputPlaces(pattern, vars, |vars|), outvars) && NoDuplicates(outvars)
    ensures TakenFrom(tables, OutputPlaces(pattern, vars, |vars|), outtables)
  {
    outvars, outtables := [], [];
    var firstocc := GetFirstOccurences(vars);
    for n := 0 to |vars|
      invariant TakenFrom(vars, OutputPlaces(pattern, vars, n), outvars)
      invariant TakenFrom(tables, OutputPlaces(pattern, vars, n), outtables)
    {
      assert IsFirstOccurence(vars, n, firstocc[n]);
      assert vars[n] !in vars[..n] <==> firstocc[n] == n;
      if pattern[n].OUTPUT? && firstocc[n] == n {
        outvars, outtables := outvars + [vars[n]], outtables + [tables[n]];
      }
    }
    TakenOnce(pattern, vars, OutputPlaces(pattern, vars, |vars|), outvars);
  }

  lemma TakenOnce(pattern: seq<Pattern>, vars: seq<Var>, places: seq<nat>, outvars: seq<Var>)
    requires TakenFrom(vars, places, outvars)
    requires forall i :: 0 <= i < |places| ==> IsOutputPlace(pattern, vars, places[i])
    requires forall i, j :: 0 <= i < j < |places| ==> places[i] < places[j]
    ensures NoDuplicates(outvars)
  {
    forall i, j | 0 <= i < j < |outvars| ensures outvars[i] != outvars[j] {
      assert vars[places[i]] == vars[..places[j]][places[i]];
    }
  }

  /** Different variables: the outputs are those of the pattern. */
  method ExtractOutputs(pattern: seq<Pattern>, vars: seq<Var>, tables: seq<Table>) returns (outvars: seq<Var>, outtables: seq<Table>)
    requires DataOk(pattern, vars, tables)
    ensures |outvars| == |outtables| && NoDuplicates(outvars) && forall t :: t in outtables ==> NoDuplicates(t)
    ensures Outputs(outvars, outtables) == OutputMap(pattern, vars, tables)
  {
    outvars, outtables := ExtractFirstOccurringOutputs(pattern, vars, tables);
    OutputsTaken(pattern, vars, tables, OutputPlaces(pattern, vars, |vars|), outvars, outtables);
  }

  lemma {:induction false} OutputMapValue(pattern: seq<Pattern>, vars: seq<Var>, tables: seq<Table>, n: nat)
    requires |pattern| == |vars| == |tables| && NoDuplicates(vars) && n < |vars|
    ensures vars[n] in OutputMap(pattern, vars, tables) <==> pattern[n].OUTPUT?
    ensures pattern[n].OUTPUT? ==> OutputMap(pattern, vars, tables)[vars[n]] == tables[n]
    decreases |vars|
  {
    var m := |vars| - 1;
    if n < m {
      OutputMapValue(pattern[..m], vars[..m], tables[..m], n);
    } else {
      OutputMapKeys(pattern[..m], vars[..m], tables[..m]);
    }
  }

  lemma {:induction false} OutputsValue(vars: seq<Var>, tables: seq<Table>, i: nat)
    requires |vars| == |tables| && NoDuplicates(vars) && i < |vars|
    ensures vars[i] in Outputs(vars, tables) && Outputs(vars, tables)[vars[i]] == tables[i]
    decreases |vars|
  {
    if i > 0 {
      NoDuplicatesRest(vars);
      OutputsValue(vars[1..], tables[1..], i - 1);
    }
  }

  lemma OutputsTaken(pattern: seq<Pattern>, vars: seq<Var>, tables: seq<Table>, places: seq<nat>, outvars: seq<Var>, outtables: seq<Table>)
    requires DataOk(pattern, vars, tables) && TakenFrom(vars, places, outvars) && TakenFrom(tables, places, outtables)
    requires NoDuplicates(outvars) && forall i :: 0 <= i < |places| ==> IsOutputPlace(pattern, vars, places[i])
    requires forall n :: 0 <= n < |vars| && IsOutputPlace(pattern, vars, n) ==> n in places
    ensures forall t :: t in outtables ==> NoDuplicates(t)
    ensures Outputs(outvars, outtables) == OutputMap(pattern, vars, tables)
  {
    var outs, m := Outputs(outvars, outtables), OutputMap(pattern, vars, tables);
    forall t | t in outtables ensures NoDuplicates(t) {
      var i :| 0 <= i < |outtables| && outtables[i] == t;
      assert t == tables[places[i]] && tables[places[i]] in tables;
    }
    OutputMapKeys(pattern, vars, tables);
    forall v | v in outs ensures v in m && m[v] == outs[v] {
      var i :| 0 <= i < |outvars| && outvars[i] == v;
      OutputsValue(outvars, outtables, i);
      OutputMapValue(pattern, vars, tables, places[i]);
    }
    forall v | v in m ensures v in outs {
      var n :| 0 <= n < |vars| && vars[n] == v;
      OutputMapValue(pattern, vars, tables, n);
      assert IsOutputPlace(pattern, vars, n);
      var i :| 0 <= i < |places| && places[i] == n;
      assert outvars[i] == v;
    }
  }

  /** The first n variables have been divided over kernel and branches. */
  ghost predicate Split(kernel: GKernel, pattern: seq<Pattern>, vars: seq<Var>, tables: seq<Table>,
                        branchpattern: seq<Pattern>, kernpattern: seq<Pattern>, kernvars: seq<Var>, kerntables: seq<Table>)
    requires |pattern| == |vars| == |tables|
  {
    && |branchpattern| == |vars| && DataOk(kernpattern, kernvars, kerntables)
    && (forall v :: v in kernvars ==> v in vars)
    && OutputMap(branchpattern, vars, tables) == OutputMap(pattern, vars, tables) - KernelVars(kernel)
    && OutputMap(kernpattern, kernvars, kerntables).Keys <= KernelVars(kernel)
    && OutputMap(pattern, vars, tables) == OutputMap(kernpattern, kernvars, kerntables) + OutputMap(branchpattern, vars, tables)
  }

  lemma SplitOne(kernel: GKernel, pattern: seq<Pattern>, vars: seq<Var>, tables: seq<Table>,
                 branchpattern: seq<Pattern>, kernpattern: seq<Pattern>, kernvars: seq<Var>, kerntables: seq<Table>, p: Pattern, v: Var, t: Table)
    requires |pattern| == |vars| == |tables| && v !in vars && NoDuplicates(t)
    requires Split(kernel, pattern, vars, tables, branchpattern, kernpattern, kernvars, kerntables)
    ensures if v in KernelVars(kernel)
            then Split(kernel, pattern + [p], vars + [v], tables + [t], branchpattern + [INPUT], kernpattern + [p], kernvars + [v], kerntables + [t])
            else Split(kernel, pattern + [p], vars + [v], tables + [t], branchpattern + [p], kernpattern, kernvars, kerntables)
  {
    OutputMapKeys(pattern, vars, tables);
    OutputMapAppend(pattern, vars, tables, p, v, t);
    if v in KernelVars(kernel) {
      OutputMapAppend(branchpattern, vars, tables, INPUT, v, t);
      OutputMapAppend(kernpattern, kernvars, kerntables, p, v, t);
      NoDuplicatesConcat(kernvars, [v]);
    } else {
      OutputMapAppend(branchpattern, vars, tables, p, v, t);
    }
  }

  lemma NextIsNew(vars: seq<Var>, n: nat)
    requires NoDuplicates(vars) && n < |vars|
    ensures vars[n] !in vars[..n] && vars[..n + 1] == vars[..n] + [vars[n]]
  {
  }

  /** Variables of the kernel and those left for the branches: what the kernel mentions is input for them. */
  method SplitVariables(kernel: GKernel, pattern: seq<Pattern>, vars: seq<Var>, tables: seq<Table>)
    returns (branchpattern: seq<Pattern>, kernpattern: seq<Pattern>, kernvars: seq<Var>, kerntables: seq<Table>)
    requires DataOk(pattern, vars, tables)
    ensures Split(kernel, pattern, vars, tables, branchpattern, kernpattern, kernvars, kerntables)
  {
    branchpattern, kernpattern, kernvars, kerntables := [], [], [], [];
    for n := 0 to |vars|
      invariant Split(kernel, pattern[..n], vars[..n], tables[..n], branchpattern, kernpattern, kernvars, kerntables)
    {
      NextIsNew(vars, n);
      assert pattern[..n + 1] == pattern[..n] + [pattern[n]] && tables[..n + 1] == tables[..n] + [tables[n]];
      assert tables[n] in tables;
      SplitOne(kernel, pattern[..n], vars[..n], tables[..n], branchpattern, kernpattern, kernvars, kerntables, pattern[n], vars[n], tables[n]);
      if vars[n] !in KernelVars(kernel) {
        branchpattern := branchpattern + [pattern[n]];
      } else {
        branchpattern := branchpattern + [INPUT];
        kernpattern, kernvars, kerntables := kernpattern + [pattern[n]], kernvars + [vars[n]], kerntables + [tables[n]];
      }
    }
    assert pattern[..|vars|] == pattern && vars[..|vars|] == vars && tables[..|vars|] == tables;
  }

  /** The generator of a diagram enumerates exactly its answers, each once. */
  method CreateFromBDD(ghost I: Interp, d: Diagram, pattern: seq<Pattern>, vars: seq<Var>, tables: seq<Table>) returns (g: Generator)
    requires I.Ok() && Ok(d) && DataOk(pattern, vars, tables) && forall v :: v in vars ==> v !in BoundVars(d)
    ensures Right(I, g, OutputMap(pattern, vars, tables), (x: Assignment) => I.DiagramHolds(d, x))
    decreases d, 2
  {
    if d == Leaf(false) {
      EmptyRight(I, OutputMap(pattern, vars, tables));
      RightSame(I, EmptyGenerator, OutputMap(pattern, vars, tables), (x: Assignment) => false, (x: Assignment) => I.DiagramHolds(d, x));
      return EmptyGenerator;
    }
    if d == Leaf(true) {
      var outvars, outtables := ExtractOutputs(pattern, vars, tables);
      UniverseRight(I, outvars, outtables);
      g := UniverseGenerator(outvars, outtables);
      RightSame(I, g, OutputMap(pattern, vars, tables), (x: Assignment) => true, (x: Assignment) => I.DiagramHolds(d, x));
      return;
    }
    g := CreateFromBranch(I, d, pattern, vars, tables);
  }

  method CreateFromBranch(ghost I: Interp, d: Diagram, pattern: seq<Pattern>, vars: seq<Var>, tables: seq<Table>) returns (g: Generator)
    requires I.Ok() && d.Branch? && Ok(d) && DataOk(pattern, vars, tables) && forall v :: v in vars ==> v !in BoundVars(d)
    ensures Right(I, g, OutputMap(pattern, vars, tables), (x: Assignment) => I.DiagramHolds(d, x))
    decreases d, 1
  {
    var branchpattern, kernpattern, kernvars, kerntables := SplitVariables(d.kernel, pattern, vars, tables);
    ghost var o1, o2 := OutputMap(kernpattern, kernvars, kerntables), OutputMap(branchpattern, vars, tables);
    KernelIndependent(I, d.kernel, d.falsebranch == Leaf(false) || d.truebranch != Leaf(false), o2);
    if d.falsebranch == Leaf(false) || d.truebranch == Leaf(false) {
      // one branch is never an answer
      var side := d.falsebranch == Leaf(false);
      var kernelgenerator := CreateFromKernel(I, d.kernel, kernpattern, kernvars, kerntables, side);
      var child := CreateFromBDD(I, if side then d.truebranch else d.falsebranch, branchpattern, vars, tables);
      OneChildRight(I, kernelgenerator, o1, (x: Assignment) => I.KernelHolds(d.kernel, x) == side,
                    child, o2, (x: Assignment) => I.DiagramHolds(if side then d.truebranch else d.falsebranch, x));
      g := OneChildGenerator(kernelgenerator, child);
      forall z: Assignment ensures I.DiagramHolds(d, z) ==
        (I.KernelHolds(d.kernel, z) == side && I.DiagramHolds(if side then d.truebranch else d.falsebranch, z)) {}
      RightSame(I, g, o1 + o2, (z: Assignment) => I.KernelHolds(d.kernel, z) == side && I.DiagramHolds(if side then d.truebranch else d.falsebranch, z),
                (x: Assignment) => I.DiagramHolds(d, x));
    } else if d.truebranch == Leaf(true) {
      g := CreateUnion(I, d, pattern, branchpattern, vars, tables, kernpattern, kernvars, kerntables);
    } else {
      var kernelchecker := CreateFromKernel(I, d.kernel, AllInput(|kernvars|), kernvars, kerntables, true);
      OutputMapKeys(AllInput(|kernvars|), kernvars, kerntables);
      var outvars, outtables := ExtractOutputs(kernpattern, kernvars, kerntables);
      UniverseRight(I, outvars, outtables);
      var falsegenerator := CreateFromBDD(I, d.falsebranch, branchpattern, vars, tables);
      var truegenerator := CreateFromBDD(I, d.truebranch, branchpattern, vars, tables);
      TwoChildRight(I, kernelchecker, (x: Assignment) => I.KernelHolds(d.kernel, x) == true, UniverseGenerator(outvars, outtables), o1,
                    falsegenerator, (x: Assignment) => I.DiagramHolds(d.falsebranch, x),
                    truegenerator, (x: Assignment) => I.DiagramHolds(d.truebranch, x), o2);
      g := TwoChildGenerator(kernelchecker, UniverseGenerator(outvars, outtables), falsegenerator, truegenerator);
      RightSame(I, g, o1 + o2,
                (z: Assignment) => if I.KernelHolds(d.kernel, z) == true then I.DiagramHolds(d.truebranch, z) else I.DiagramHolds(d.falsebranch, z),
                (x: Assignment) => I.DiagramHolds(d, x));
    }
  }

  /** The true branch is always an answer: the kernel's answers first, then those of the false branch, which
      is generated for all values, whether they make the kernel true or not. */
  method CreateUnion(ghost I: Interp, d: Diagram, pattern: seq<Pattern>, branchpattern: seq<Pattern>, vars: seq<Var>, tables: seq<Table>,
                     kernpattern: seq<Pattern>, kernvars: seq<Var>, kerntables: seq<Table>)
    returns (g: Generator)
    requires I.Ok() && d.Branch? && Ok(d) && d.truebranch == Leaf(true)
    requires DataOk(pattern, vars, tables) && DataOk(branchpattern, vars, tables) && DataOk(kernpattern, kernvars, kerntables)
    requires (forall v :: v in vars ==> v !in BoundVars(d)) && forall v :: v in kernvars ==> v in vars
    requires var o1, o2 := OutputMap(kernpattern, kernvars, kerntables), OutputMap(branchpattern, vars, tables);
      o1.Keys !! o2.Keys && KernelVars(d.kernel) !! o2.Keys && OutputMap(pattern, vars, tables) == o1 + o2
    ensures Right(I, g, OutputMap(pattern, vars, tables), (x: Assignment) => I.DiagramHolds(d, x))
    decreases d, 0
  {
    ghost var o1, o2 := OutputMap(kernpattern, kernvars, kerntables), OutputMap(branchpattern, vars, tables);
    ghost var holds := (x: Assignment) => I.KernelHolds(d.kernel, x) == true;
    ghost var both := (z: Assignment) => I.KernelHolds(d.kernel, z) == true && I.DiagramHolds(d.truebranch, z);
    KernelIndependent(I, d.kernel, true, o2);
    KernelIndependent(I, d.kernel, true, map[]);
    var kernelgenerator := CreateFromKernel(I, d.kernel, kernpattern, kernvars, kerntables, true);
    var truegenerator := CreateFromBDD(I, d.truebranch, branchpattern, vars, tables);
    OneChildRight(I, kernelgenerator, o1, holds, truegenerator, o2, (x: Assignment) => I.DiagramHolds(d.truebranch, x));
    RightSame(I, OneChildGenerator(kernelgenerator, truegenerator), o1 + o2, both, holds);
    var kernelchecker := CreateFromKernel(I, d.kernel, AllInput(|kernvars|), kernvars, kerntables, true);
    OutputMapKeys(AllInput(|kernvars|), kernvars, kerntables);
    FullRight(I);
    OneChildRight(I, kernelchecker, map[], holds, FullGenerator, map[], (x: Assignment) => true);
    RightSame(I, OneChildGenerator(kernelchecker, FullGenerator), map[], (z: Assignment) => holds(z) && true, holds);
    var falsegenerator := CreateFromBDD(I, d.falsebranch, pattern, vars, tables);
    var falsechecker := CreateFromBDD(I, d.falsebranch, AllInput(|vars|), vars, tables);
    g := UnionGenerator(OneChildGenerator(kernelgenerator, truegenerator), OneChildGenerator(kernelchecker, FullGenerator),
                        falsegenerator, falsechecker);
    UnionRight(I, OneChildGenerator(kernelgenerator, truegenerator), OneChildGenerator(kernelchecker, FullGenerator), holds,
               falsegenerator, falsechecker, (x: Assignment) => I.DiagramHolds(d.falsebranch, x), o1 + o2);
    RightSame(I, g, o1 + o2, (z: Assignment) => holds(z) || I.DiagramHolds(d.falsebranch, z), (x: Assignment) => I.DiagramHolds(d, x));
  }

  /** All combinations for which the checker finds nothing. */
  lemma FailuresRight(I: Interp, k: GKernel, checker: Generator, universe: Generator, outs: map<Var, Table>)
    requires Right(I, checker, map[], (x: Assignment) => I.KernelHolds(k, x)) && Right(I, universe, outs, (x: Assignment) => true)
    ensures Right(I, TwoChildGenerator(checker, universe, FullGenerator, EmptyGenerator), outs, (x: Assignment) => I.KernelHolds(k, x) == false)
  {
    FullRight(I);
    EmptyRight(I, map[]);
    KernelIndependent(I, k, true, map[]);
    TwoChildRight(I, checker, (x: Assignment) => I.KernelHolds(k, x), universe, outs,
                  FullGenerator, (x: Assignment) => true, EmptyGenerator, (x: Assignment) => false, map[]);
    assert outs + map[] == outs;
    RightSame(I, TwoChildGenerator(checker, universe, FullGenerator, EmptyGenerator), outs,
              (z: Assignment) => if I.KernelHolds(k, z) then false else true, (x: Assignment) => I.KernelHolds(k, x) == false);
  }

  /** A generator for the values that make a kernel true, or false. */
  method CreateFromKernel(ghost I: Interp, k: GKernel, pattern: seq<Pattern>, vars: seq<Var>, tables: seq<Table>, branch: bool) returns (g: Generator)
    requires I.Ok() && KernelOk(k) && DataOk(pattern, vars, tables) && forall v :: v in vars ==> v !in KernelBound(k)
    ensures Right(I, g, OutputMap(pattern, vars, tables), (x: Assignment) => I.KernelHolds(k, x) == branch)
    decreases k
  {
    ghost var outs := OutputMap(pattern, vars, tables);
    OutputMapKeys(pattern, vars, tables);
    if k.Atom? {
      return AtomGenerator(k, branch, OutputMap(pattern, vars, tables));
    }
    // a checker is enough to find the values for which there is no element
    var subpattern := if branch then pattern else AllInput(|vars|);
    OutputMapAppend(subpattern, vars, tables, OUTPUT, k.bound, k.table);
    OutputMapKeys(subpattern, vars, tables);
    NoDuplicatesConcat(vars, [k.bound]);
    var sub := CreateFromBDD(I, k.body, subpattern + [OUTPUT], vars + [k.bound], tables + [k.table]);
    QuantRight(I, sub, k, OutputMap(subpattern, vars, tables));
    if branch {
      g := TrueQuantKernelGenerator(sub, k.bound);
      RightSame(I, g, outs, (x: Assignment) => I.KernelHolds(k, x), (x: Assignment) => I.KernelHolds(k, x) == branch);
    } else {
      var outvars, outtables := ExtractOutputs(pattern, vars, tables);
      UniverseRight(I, outvars, outtables);
      g := TwoChildGenerator(TrueQuantKernelGenerator(sub, k.bound), UniverseGenerator(outvars, outtables), FullGenerator, EmptyGenerator);
      FailuresRight(I, k, TrueQuantKernelGenerator(sub, k.bound), UniverseGenerator(outvars, outtables), outs);
    }
  }
}
