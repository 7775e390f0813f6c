/** Small helpers. */
module Wrappers {
  /** A value that may be absent; stands for a null pointer. */
  datatype Option<+T> = None | Some(value: T)

  function TwoToThe(n: nat): nat {
    if n == 0 then 1 else 2 * TwoToThe(n - 1)
  }

  lemma {:induction false} TwoToTheSum(m: nat, n: nat)
    ensures TwoToThe(m + n) == TwoToThe(m) * TwoToThe(n)
    decreases n
  {
    if n > 0 {
      TwoToTheSum(m, n - 1);
      assert TwoToThe(m) * (2 * TwoToThe(n - 1)) == 2 * (TwoToThe(m) * TwoToThe(n - 1));
    }
  }

  function Elements<X>(s: seq<X>): set<X> {
    set x | x in s
  }

  lemma ElementsGrow<X>(s: seq<X>, x: X)
    ensures Elements(s + [x]) == Elements(s) + {x}
  {
  }

  /** The sequence has every element of the set once. */
  ghost predicate Lists<X(!new)>(s: seq<X>, xs: set<X>) {
    (forall x :: x in s <==> x in xs) && forall i, j :: 0 <= i < j < |s| ==> s[i] != s[j]
  }

  lemma ListsGrow<X(!new)>(s: seq<X>, all: set<X>, todo: set<X>, x: X)
    requires Lists(s, all - todo) && x in todo && x in all
    ensures Lists(s + [x], all - (todo - {x}))
  {
    forall i | 0 <= i < |s| ensures s[i] != x { assert s[i] in s; }
  }
}
