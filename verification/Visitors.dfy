/** Visitors that rebuild a diagram after changing the terms in its kernels. */
module Visitors {
  import opened Diagrams
  import opened Syntax
  import opened Semantics
  import opened WellSorted

  lemma InsertedBelow(xs: seq<DomainElement>, m: nat, x: DomainElement, y: DomainElement)
    requires m <= |xs|
    ensures ([x] + xs)[..m + 1] + [y] + ([x] + xs)[m + 1..] == [x] + (xs[..m] + [y] + xs[m..])
  {
  }

  lemma NoIndexPushed(t: Term, S: Structure, e: Env, x: DomainElement)
    requires forall i: nat :: !t.ContainsIndex(i)
    ensures TermValue(t, S, e.Push(x)) == TermValue(t, S, e)
  {
    TermIndependent(t, S, e.Push(x), e);
  }

  lemma {:induction false} NoIndexOnlySort(t: Term, i: nat, sort: Sort)
    requires !t.ContainsIndex(i)
    ensures OnlySort(t, i, sort)
    decreases t
  {
    if t.FuncTerm? {
      forall n | 0 <= n < |t.args| ensures OnlySort(t.args[n], i, sort) { NoIndexOnlySort(t.args[n], i, sort); }
    }
  }

  datatype Visitor =
    | BumpIndices(variable: Variable, depth: nat)   // bind the variable as index depth, moving later indices up
    | SubstituteTerms(sub: map<Variable, Term>)     // replace variables by terms without indices
    | SubstituteIndex(sort: Sort, index: nat, newvariable: Variable)   // replace the index, moving later ones down
  {
    ghost predicate Ok() {
      SubstituteTerms? ==> forall v, i: nat :: v in sub ==> !sub[v].ContainsIndex(i)
    }

    /** The visitor to use below n more binders. */
    function Under(): Visitor {
      match this
      case BumpIndices(v, m) => BumpIndices(v, m + 1)
      case SubstituteTerms(_) => this
      case SubstituteIndex(sort, i, v) => SubstituteIndex(sort, i + 1, v)
    }

    function ChangeTerm(t: Term): Term {
      match t
      case VariableTerm(v) =>
        (match this
         case BumpIndices(x, m) => if v == x then IndexTerm(v.sort, m) else t
         case SubstituteTerms(sub) => if v in sub then sub[v] else t
         case SubstituteIndex(_, _, _) => t)
      case IndexTerm(sort, i) =>
        (match this
         case BumpIndices(_, m) => if m <= i then IndexTerm(sort, i + 1) else t
         case SubstituteTerms(_) => t
         case SubstituteIndex(s, m, v) =>
           if i == m && sort == s then VariableTerm(v) else if i > m then IndexTerm(sort, i - 1) else t)
      case DomainTerm(_, _) => t
      case FuncTerm(g, args) => FuncTerm(g, seq(|args|, n requires 0 <= n < |args| => ChangeTerm(args[n])))
    }

    function ChangeArgs(args: seq<Term>): (r: seq<Term>)
      ensures |r| == |args| && forall n :: 0 <= n < |args| ==> r[n] == ChangeTerm(args[n])
    {
      seq(|args|, n requires 0 <= n < |args| => ChangeTerm(args[n]))
    }

    /** The index that is replaced occurs in the term with no other sort. */
    predicate Suits(t: Term) {
      SubstituteIndex? ==> OnlySort(t, index, sort)
    }

    predicate SuitsArgs(args: seq<Term>) {
      forall n | 0 <= n < |args| :: Suits(args[n])
    }

    /** Environments that have a value for the index that is bound, or for those before the one that is replaced. */
    predicate Fits(e: Env) {
      match this
      case BumpIndices(_, m) => m < |e.indices|
      case SubstituteTerms(_) => true
      case SubstituteIndex(_, m, _) => m <= |e.indices|
    }

    /** The environment in which the old diagram is to be read. */
    ghost function Target(S: Structure, e: Env): Env
      requires Fits(e)
    {
      match this
      case BumpIndices(v, m) => Env(e.vars[v := e.indices[m]], e.indices[..m] + e.indices[m + 1..])
      case SubstituteTerms(sub) => Env(e.vars + (map v | v in sub :: TermValue(sub[v], S, e)), e.indices)
      case SubstituteIndex(_, m, v) => Env(e.vars, e.indices[..m] + [e.Var(v)] + e.indices[m..])
    }

    /** Index i may occur after the change when the given indices occurred before. */
    predicate Covers(i: nat, before: nat -> bool) {
      match this
      case BumpIndices(_, m) => i == m || (i < m && before(i)) || (i > m && before(i - 1))
      case SubstituteTerms(_) => before(i)
      case SubstituteIndex(_, m, _) => (i < m && before(i)) || (i >= m && before(i + 1))
    }

    /** Occurrences of index i are not touched. */
    predicate Leaves(i: nat) {
      match this
      case BumpIndices(_, m) => i < m
      case SubstituteTerms(_) => true
      case SubstituteIndex(_, m, _) => i < m
    }

    lemma {:induction false} OnlySortLeft(t: Term, i: nat, srt: Sort)
      requires Ok() && Leaves(i) && OnlySort(t, i, srt)
      ensures OnlySort(ChangeTerm(t), i, srt)
      decreases t
    {
      match t
      case VariableTerm(v) =>
        if SubstituteTerms? && v in sub { NoIndexOnlySort(sub[v], i, srt); }
      case FuncTerm(g, args) =>
        assert ChangeTerm(t) == FuncTerm(g, ChangeArgs(args));
        forall n | 0 <= n < |args| ensures OnlySort(ChangeArgs(args)[n], i, srt) { OnlySortLeft(args[n], i, srt); }
      case _ =>
    }

    /** The index that a variable is bound to has the sort of the variable. */
    lemma {:induction false} OnlySortBound(t: Term)
      requires BumpIndices?
      ensures OnlySort(ChangeTerm(t), depth, variable.sort)
      decreases t
    {
      if t.FuncTerm? {
        assert ChangeTerm(t) == FuncTerm(t.func, ChangeArgs(t.args));
        forall n | 0 <= n < |t.args| ensures OnlySort(ChangeArgs(t.args)[n], depth, variable.sort) { OnlySortBound(t.args[n]); }
      }
    }

    lemma UnderBinder(S: Structure, e: Env, x: DomainElement)
      requires Ok() && Fits(e)
      ensures Under().Ok() && Under().Fits(e.Push(x)) && Under().Target(S, e.Push(x)) == Target(S, e).Push(x)
    {
      match this
      case BumpIndices(v, m) =>
        assert ([x] + e.indices)[..m + 1] + ([x] + e.indices)[m + 2..] == [x] + (e.indices[..m] + e.indices[m + 1..]);
      case SubstituteTerms(sub) =>
        forall v | v in sub ensures TermValue(sub[v], S, e.Push(x)) == TermValue(sub[v], S, e) {
          NoIndexPushed(sub[v], S, e, x);
        }
      case SubstituteIndex(_, m, v) =>
        InsertedBelow(e.indices, m, x, e.Var(v));
    }

    lemma {:induction false} TermChanged(t: Term, S: Structure, e: Env)
      requires Ok() && Fits(e) && Suits(t)
      ensures TermValue(ChangeTerm(t), S, e) == TermValue(t, S, Target(S, e))
      decreases t
    {
      match t
      case VariableTerm(_) =>
      case IndexTerm(_, _) => IndexChanged(t, S, e);
      case DomainTerm(_, _) =>
      case FuncTerm(g, args) =>
        ArgsChanged(args, S, e);
        assert ChangeTerm(t) == FuncTerm(g, ChangeArgs(args));
    }

    lemma {:induction false} IndexChanged(t: Term, S: Structure, e: Env)
      requires Fits(e) && Suits(t) && t.IndexTerm?
      ensures TermValue(ChangeTerm(t), S, e) == TermValue(t, S, Target(S, e))
    {
    }

    lemma {:induction false} ArgsChanged(args: seq<Term>, S: Structure, e: Env)
      requires Ok() && Fits(e) && SuitsArgs(args)
      ensures ArgValues(ChangeArgs(args), S, e) == ArgValues(args, S, Target(S, e))
      decreases args
    {
      forall n | 0 <= n < |args| ensures TermValue(ChangeTerm(args[n]), S, e) == TermValue(args[n], S, Target(S, e)) {
        TermChanged(args[n], S, e);
      }
    }

    /** Binding a variable keeps different terms apart. */
    lemma {:induction false} TermsApart(t: Term, u: Term)
      requires BumpIndices? && ChangeTerm(t) == ChangeTerm(u)
      ensures t == u
      decreases t
    {
      if t.FuncTerm? && u.FuncTerm? {
        assert ChangeTerm(t) == FuncTerm(t.func, ChangeArgs(t.args)) && ChangeTerm(u) == FuncTerm(u.func, ChangeArgs(u.args));
        ArgsApart(t.args, u.args);
      }
    }

    lemma {:induction false} ArgsApart(args: seq<Term>, args': seq<Term>)
      requires BumpIndices? && ChangeArgs(args) == ChangeArgs(args')
      ensures args == args'
      decreases args
    {
      forall n | 0 <= n < |args| ensures n < |args'| && args[n] == args'[n] {
        assert |ChangeArgs(args)| == |ChangeArgs(args')| && ChangeArgs(args)[n] == ChangeArgs(args')[n];
        TermsApart(args[n], args'[n]);
      }
    }

    lemma {:induction false} TermIndices(t: Term, i: nat)
      requires Ok() && Suits(t) && ChangeTerm(t).ContainsIndex(i)
      ensures Covers(i, (j: nat) => t.ContainsIndex(j))
      decreases t
    {
      match t
      case VariableTerm(_) =>
      case IndexTerm(_, _) =>
      case DomainTerm(_, _) =>
      case FuncTerm(g, args) =>
        assert ChangeTerm(t) == FuncTerm(g, ChangeArgs(args));
        ArgsIndices(args, i);
    }

    lemma {:induction false} ArgsIndices(args: seq<Term>, i: nat)
      requires Ok() && SuitsArgs(args) && ArgsContainIndex(ChangeArgs(args), i)
      ensures Covers(i, (j: nat) => ArgsContainIndex(args, j))
      decreases args
    {
      var n :| 0 <= n < |args| && ChangeArgs(args)[n].ContainsIndex(i);
      TermIndices(args[n], i);
    }
  }
}
