/** The generators as they run, one answer at a time: begin and next walk through the enumeration. */
module TreeInstGenerators {
  import opened Generators

  lemma DropFirst(first: seq<Assignment>, rest: seq<Assignment>)
    requires first != []
    ensures (first + rest)[1..] == first[1..] + rest
  {
  }

  lemma FlatMapFirst(xs: seq<Assignment>, f: Assignment -> seq<Assignment>)
    requires xs != []
    ensures FlatMap(xs, f) == f(xs[0]) + FlatMap(xs[1..], f)
  {
  }

  /** A generator seen from the one that uses it: a list and the place reached in it. */
  class Cursor {
    var items: seq<Assignment>
    var place: nat

    constructor ()
      ensures AtEnd()
    {
      items, place := [], 0;
    }

    predicate AtEnd()
      reads this
    {
      place >= |items|
    }

    function Current(): Assignment
      requires !AtEnd()
      reads this
    {
      items[place]
    }

    /** What comes from the present place on. */
    ghost function Rest(): seq<Assignment>
      reads this
    {
      if AtEnd() then [] else items[place..]
    }

    method Begin(xs: seq<Assignment>)
      modifies this
      ensures items == xs && place == 0 && Rest() == xs
    {
      items, place := xs, 0;
    }

    method Advance()
      requires !AtEnd()
      modifies this
      ensures items == old(items) && place == old(place) + 1 && old(Rest()) == [old(Current())] + Rest()
    {
      place := place + 1;
    }
  }

  /** A conjunction: for every value of the generator, the values of the child. */
  class OneChildGenerator {
    const source: seq<Assignment>
    const childOf: Assignment -> seq<Assignment>
    const generator: Cursor
    const child: Cursor
    var resetting: bool
    var end: bool

    constructor (source: seq<Assignment>, childOf: Assignment -> seq<Assignment>)
      ensures this.source == source && this.childOf == childOf && fresh(generator) && fresh(child) && generator != child && resetting
    {
      this.source, this.childOf := source, childOf;
      generator := new Cursor();
      child := new Cursor();
      resetting, end := true, false;
    }

    /** The values to come, the present one included. */
    ghost function Rest(): seq<Assignment>
      reads this, generator, child
    {
      if resetting then FlatMap(source, childOf)
      else if generator.AtEnd() then []
      else child.Rest() + FlatMap(generator.items[generator.place + 1..], childOf)
    }

    ghost predicate AtValue()
      reads this, generator, child
    {
      !generator.AtEnd() && !child.AtEnd()
    }

    method Begin()
      requires generator != child
      modifies this, generator, child
      ensures !resetting && Rest() == FlatMap(source, childOf)
      ensures end == (Rest() == []) && (!end ==> AtValue() && child.Current() == Rest()[0])
    {
      end, resetting := false, true;
      Next();
    }

    /** From the values to come, the present one is dropped (there is none yet after a reset). */
    method Next()
      requires generator != child && !end && (resetting || AtValue())
      modifies this, generator, child
      ensures !resetting && Rest() == if old(resetting) then old(Rest()) else old(Rest())[1..]
      ensures end == (Rest() == []) && (!end ==> AtValue() && child.Current() == Rest()[0])
    {
      if resetting {
        resetting := false;
        generator.Begin(source);
      } else {
        DropFirst(child.Rest(), FlatMap(generator.items[generator.place + 1..], childOf));
        child.Advance();
        if !child.AtEnd() {
          return;
        }
        generator.Advance();
      }
      Search();
    }

    /** Here the generator is at a new value; the first value for which the child has any is sought. */
    method Search()
      requires generator != child && !end && !resetting
      modifies this`end, generator, child
      ensures Rest() == FlatMap(old(generator.Rest()), childOf)
      ensures end == (Rest() == []) && (!end ==> AtValue() && child.Current() == Rest()[0])
    {
      while !generator.AtEnd()
        invariant !end && FlatMap(generator.Rest(), childOf) == FlatMap(old(generator.Rest()), childOf)
        decreases |generator.items| - generator.place
      {
        assert generator.Rest()[1..] == generator.items[generator.place + 1..];
        var x := generator.Current();
        FlatMapFirst(generator.Rest(), childOf);
        child.Begin(childOf(x));
        assert child.Rest() == childOf(x);
        if !child.AtEnd() {
          return;
        }
        generator.Advance();
      }
      end := true;
    }
  }

  /** A choice: for every value of the generator the checker decides which child to use. */
  class TwoChildGenerator {
    const source: seq<Assignment>
    const check: Assignment -> bool
    const falseOf: Assignment -> seq<Assignment>
    const trueOf: Assignment -> seq<Assignment>
    const generator: Cursor
    const falsecheckbranch: Cursor
    const truecheckbranch: Cursor
    var resetting: bool
    var end: bool

    constructor (source: seq<Assignment>, check: Assignment -> bool, falseOf: Assignment -> seq<Assignment>, trueOf: Assignment -> seq<Assignment>)
      ensures this.source == source && this.check == check && this.falseOf == falseOf && this.trueOf == trueOf && resetting
      ensures fresh(generator) && fresh(falsecheckbranch) && fresh(truecheckbranch) && Apart()
    {
      this.source, this.check, this.falseOf, this.trueOf := source, check, falseOf, trueOf;
      generator := new Cursor();
      falsecheckbranch := new Cursor();
      truecheckbranch := new Cursor();
      resetting, end := true, false;
    }

    predicate Apart() {
      generator != falsecheckbranch && generator != truecheckbranch && falsecheckbranch != truecheckbranch
    }

    ghost function ChildOf(): Assignment -> seq<Assignment> {
      (x: Assignment) => if check(x) then trueOf(x) else falseOf(x)
    }

    /** The child in use. */
    ghost function Child(): Cursor
      requires !generator.AtEnd()
      reads generator
    {
      if check(generator.Current()) then truecheckbranch else falsecheckbranch
    }

    ghost function Rest(): seq<Assignment>
      reads this, generator, falsecheckbranch, truecheckbranch
    {
      if resetting then FlatMap(source, ChildOf())
      else if generator.AtEnd() then []
      else Child().Rest() + FlatMap(generator.items[generator.place + 1..], ChildOf())
    }

    ghost predicate AtValue()
      reads this, generator, falsecheckbranch, truecheckbranch
    {
      !generator.AtEnd() && !Child().AtEnd()
    }

    method Next()
      requires Apart() && !end && (resetting || AtValue())
      modifies this, generator, falsecheckbranch, truecheckbranch
      ensures !resetting && Rest() == if old(resetting) then old(Rest()) else old(Rest())[1..]
      ensures end == (Rest() == []) && (!end ==> AtValue() && Child().Current() == Rest()[0])
    {
      if resetting {
        resetting := false;
        generator.Begin(source);
      } else {
        var branch := if check(generator.Current()) then truecheckbranch else falsecheckbranch;
        DropFirst(branch.Rest(), FlatMap(generator.items[generator.place + 1..], ChildOf()));
        branch.Advance();
        if !branch.AtEnd() {
          return;
        }
        generator.Advance();
      }
      Search();
    }

    /** The child for the value at hand is started. */
    method StartChild()
      requires Apart() && !generator.AtEnd()
      modifies falsecheckbranch, truecheckbranch
      ensures Child().Rest() == ChildOf()(generator.Current())
      ensures Child().Rest() + FlatMap(generator.items[generator.place + 1..], ChildOf()) == FlatMap(generator.Rest(), ChildOf())
    {
      var x := generator.Current();
      var branch := if check(x) then truecheckbranch else falsecheckbranch;
      branch.Begin(if check(x) then trueOf(x) else falseOf(x));
      assert generator.Rest()[1..] == generator.items[generator.place + 1..];
    }

    /** Here the generator is at a new value; the first value for which the child in use has any is sought. */
    method Search()
      requires Apart() && !end && !resetting
      modifies this`end, generator, falsecheckbranch, truecheckbranch
      ensures Rest() == FlatMap(old(generator.Rest()), ChildOf())
      ensures end == (Rest() == []) && (!end ==> AtValue() && Child().Current() == Rest()[0])
    {
      ghost var todo := FlatMap(generator.Rest(), ChildOf());
      while !generator.AtEnd()
        invariant !end && FlatMap(generator.Rest(), ChildOf()) == todo
        decreases |generator.items| - generator.place
      {
        StartChild();
        var branch := if check(generator.Current()) then truecheckbranch else falsecheckbranch;
        if !branch.AtEnd() {
          return;
        }
        generator.Advance();
      }
      end := true;
    }
  }

  predicate SeenBefore(checkers: seq<Assignment -> bool>, n: nat, x: Assignment)
    requires n <= |checkers|
  {
    exists i :: 0 <= i < n && checkers[i](x)
  }

  /** The values xs of part n and then those of the later parts, without what an earlier part has. */
  ghost function UnionFrom(parts: seq<seq<Assignment>>, checkers: seq<Assignment -> bool>, n: nat, xs: seq<Assignment>): seq<Assignment>
    requires n < |parts| == |checkers|
    decreases |parts| - n, |xs|
  {
    if xs != [] then (if SeenBefore(checkers, n, xs[0]) then [] else [xs[0]]) + UnionFrom(parts, checkers, n, xs[1..])
    else if n + 1 < |parts| then UnionFrom(parts, checkers, n + 1, parts[n + 1])
    else []
  }

  /** Running the union of two generators gives its enumeration: the first part as it is, and of the
      second what the first checker does not accept. */
  lemma UnionOfTwo(I: Interp, g: Generator, c: Generator, h: Generator, d: Generator, a: Assignment,
                   check: Assignment -> bool, check': Assignment -> bool)
    requires WellFormed(Generator.UnionGenerator(g, c, h, d))
    requires forall x :: check(x) == (Enumerate(I, c, x) != [])
    ensures UnionFrom([Enumerate(I, g, a), Enumerate(I, h, a)], [check, check'], 0, Enumerate(I, g, a))
         == Enumerate(I, Generator.UnionGenerator(g, c, h, d), a)
  {
    var xs, ys, p := Enumerate(I, g, a), Enumerate(I, h, a), (x: Assignment) => Enumerate(I, c, x) == [];
    forall x ensures p(x) == !SeenBefore([check, check'], 1, x) {
      assert [check, check'][0] == check;
    }
    FirstPart([xs, ys], [check, check'], xs);
    LastPart([xs, ys], [check, check'], ys, p);
  }

  lemma {:induction false} FirstPart(parts: seq<seq<Assignment>>, checkers: seq<Assignment -> bool>, xs: seq<Assignment>)
    requires |parts| == |checkers| == 2
    ensures UnionFrom(parts, checkers, 0, xs) == xs + UnionFrom(parts, checkers, 1, parts[1])
    decreases |xs|
  {
    if xs != [] {
      FirstPart(parts, checkers, xs[1..]);
      assert xs == [xs[0]] + xs[1..];
    }
  }

  lemma {:induction false} LastPart(parts: seq<seq<Assignment>>, checkers: seq<Assignment -> bool>, ys: seq<Assignment>, p: Assignment -> bool)
    requires |parts| == |checkers| == 2 && forall x :: p(x) == !SeenBefore(checkers, 1, x)
    ensures UnionFrom(parts, checkers, 1, ys) == Filter(ys, p)
    decreases |ys|
  {
    if ys != [] {
      LastPart(parts, checkers, ys[1..], p);
      assert p(ys[0]) == !SeenBefore(checkers, 1, ys[0]);
    }
  }

  lemma NextPart(parts: seq<seq<Assignment>>, checkers: seq<Assignment -> bool>, n: nat)
    requires n < |parts| == |checkers|
    ensures UnionFrom(parts, checkers, n, []) == if n + 1 < |parts| then UnionFrom(parts, checkers, n + 1, parts[n + 1]) else []
  {
  }

  /** A union of parts: what an earlier checker accepts has been seen. */
  class UnionGenerator {
    const parts: seq<seq<Assignment>>
    const checkers: seq<Assignment -> bool>
    const generator: Cursor   // that of the current part
    var current: nat
    var resetting: bool
    var end: bool

    constructor (parts: seq<seq<Assignment>>, checkers: seq<Assignment -> bool>)
      ensures this.parts == parts && this.checkers == checkers && fresh(generator) && resetting && current == 0 && !end
    {
      this.parts, this.checkers := parts, checkers;
      generator := new Cursor();
      current, resetting, end := 0, true, false;
    }

    /** The values to come, the present one included. */
    ghost function Rest(): seq<Assignment>
      requires |parts| == |checkers|
      reads this, generator
    {
      if resetting then if parts == [] then [] else UnionFrom(parts, checkers, 0, parts[0])
      else if current >= |parts| then []
      else UnionFrom(parts, checkers, current, generator.Rest())
    }

    method AlreadySeen() returns (seen: bool)
      requires current < |checkers| && !generator.AtEnd()
      ensures seen == SeenBefore(checkers, current, generator.Current())
    {
      for i := 0 to current
        invariant !SeenBefore(checkers, i, generator.Current())
      {
        if checkers[i](generator.Current()) {
          return true;
        }
      }
      return false;
    }

    ghost predicate AtValue()
      requires |parts| == |checkers|
      reads this, generator
    {
      current < |parts| && !generator.AtEnd() && !SeenBefore(checkers, current, generator.Current())
    }

    /** Goes to the next part, when there is nothing left of this one. */
    method SkipPart()
      requires |parts| == |checkers| && !resetting && current < |parts| && !end && generator.AtEnd()
      modifies this`current, this`end, generator
      ensures current == old(current) + 1 <= |parts| && end == (current == |parts|) && Rest() == old(Rest())
    {
      NextPart(parts, checkers, current);
      current := current + 1;
      if current < |parts| {
        generator.Begin(parts[current]);
      } else {
        end := true;
      }
    }

    /** Goes to the next part that has anything. */
    method SkipEmptyParts()
      requires |parts| == |checkers| && !resetting && current < |parts| && !end
      modifies this`current, this`end, generator
      ensures current <= |parts| && Rest() == old(Rest())
      ensures end == (current == |parts|) && (!end ==> !generator.AtEnd())
      ensures current > old(current) || (current == old(current) && generator.items == old(generator.items) && generator.place == old(generator.place))
    {
      ghost var todo := Rest();
      while generator.AtEnd()
        invariant current < |parts| && !end && Rest() == todo
        invariant current > old(current) || (current == old(current) && generator.items == old(generator.items) && generator.place == old(generator.place))
        decreases |parts| - current
      {
        SkipPart();
        if end {
          return;
        }
      }
    }

    method Next()
      requires |parts| == |checkers| && !end && (if resetting then current == 0 else AtValue())
      modifies this, generator
      ensures !resetting && Rest() == if old(resetting) then old(Rest()) else old(Rest())[1..]
      ensures end == (Rest() == []) && (!end ==> AtValue() && generator.Current() == Rest()[0])
    {
      if resetting {
        resetting := false;
        if |parts| == 0 {
          end := true;
          return;
        }
        generator.Begin(parts[current]);
      } else {
        generator.Advance();
      }
      Search();
    }

    /** The first value from here on that has not been seen. */
    method Search()
      requires |parts| == |checkers| && !end && !resetting && current < |parts|
      modifies this`current, this`end, generator
      ensures Rest() == old(Rest())
      ensures end == (Rest() == []) && (!end ==> AtValue() && generator.Current() == Rest()[0])
    {
      ghost var todo := Rest();
      var seen := true;
      SkipEmptyParts();
      while !end
        invariant Rest() == todo && current <= |parts| && end == (current == |parts|) && (!end ==> !generator.AtEnd())
        decreases |parts| - current, |generator.items| - generator.place
      {
        seen := AlreadySeen();
        if !seen {
          return;
        }
        generator.Advance();
        SkipEmptyParts();
      }
    }
  }

  /** Without outputs all values project to the one that was given. */
  lemma {:induction false} OneProjection(a: Assignment, v: Var, xs: seq<Assignment>)
    requires forall x :: x in xs ==> Project(a, v, x) == a
    ensures FirstProjections(a, v, xs) == if xs == [] then [] else [a]
    decreases |xs|
  {
    if xs != [] {
      assert xs[|xs| - 1] in xs;
      OneProjection(a, v, xs[..|xs| - 1]);
    }
  }

  /** Only the first of the values that agree outside the bound variable is given. */
  class TrueQuantKernelGenerator {
    const start: Assignment
    const bound: Var
    const outvars: seq<Var>
    const subBddTrueGenerator: Cursor
    var alreadySeen: seq<Assignment>   // in the order in which they were given
    var resetting: bool
    var end: bool

    constructor (start: Assignment, bound: Var, outvars: seq<Var>)
      ensures this.start == start && this.bound == bound && this.outvars == outvars && fresh(subBddTrueGenerator)
    {
      this.start, this.bound, this.outvars := start, bound, outvars;
      subBddTrueGenerator := new Cursor();
      alreadySeen, resetting, end := [], true, false;
    }

    /** All values up to the present place have been projected. */
    ghost predicate Seen(n: nat)
      reads this, subBddTrueGenerator
    {
      n <= |subBddTrueGenerator.items| && alreadySeen == FirstProjections(start, bound, subBddTrueGenerator.items[..n])
    }

    /** Without outputs the values differ from the given one in the bound variable only. */
    ghost predicate Fits(xs: seq<Assignment>) {
      outvars == [] ==> forall x :: x in xs ==> Project(start, bound, x) == start
    }

    method Begin(xs: seq<Assignment>)
      requires Fits(xs)
      modifies this, subBddTrueGenerator
      ensures subBddTrueGenerator.items == xs && !resetting
      ensures end ==> alreadySeen == FirstProjections(start, bound, xs) == []
      ensures !end ==> !subBddTrueGenerator.AtEnd() && Seen(subBddTrueGenerator.place + 1) && |alreadySeen| == 1
    {
      end, resetting, alreadySeen := false, true, [];
      subBddTrueGenerator.Begin(xs);
      if subBddTrueGenerator.AtEnd() {
        end, resetting := true, false;
        return;
      }
      assert xs[..0] == [];
      Next();
      assert xs[..|xs|] == xs;
    }

    /** One more value is given, or all have been: without outputs there is no second one. */
    method Next()
      requires Fits(subBddTrueGenerator.items)
      requires !end && (if resetting then subBddTrueGenerator.place == 0 && Seen(0) else !subBddTrueGenerator.AtEnd() && Seen(subBddTrueGenerator.place + 1))
      modifies this, subBddTrueGenerator
      ensures subBddTrueGenerator.items == old(subBddTrueGenerator.items) && !resetting
      ensures end ==> alreadySeen == old(alreadySeen) == FirstProjections(start, bound, subBddTrueGenerator.items)
      ensures !end ==> !subBddTrueGenerator.AtEnd() && Seen(subBddTrueGenerator.place + 1)
                       && alreadySeen == old(alreadySeen) + [Project(start, bound, subBddTrueGenerator.Current())]
    {
      if resetting {
        resetting := false;
      } else {
        subBddTrueGenerator.Advance();
      }
      while !subBddTrueGenerator.AtEnd()
        invariant subBddTrueGenerator.items == old(subBddTrueGenerator.items) && !resetting && !end && alreadySeen == old(alreadySeen)
        invariant subBddTrueGenerator.place <= |subBddTrueGenerator.items| && Seen(subBddTrueGenerator.place)
        decreases |subBddTrueGenerator.items| - subBddTrueGenerator.place
      {
        var n := subBddTrueGenerator.place;
        assert subBddTrueGenerator.items[..n + 1][..n] == subBddTrueGenerator.items[..n];
        var elements := Project(start, bound, subBddTrueGenerator.Current());
        if elements !in alreadySeen {
          alreadySeen := alreadySeen + [elements];
          return;
        }
        if outvars == [] && alreadySeen != [] {
          OneProjection(start, bound, subBddTrueGenerator.items);
          OneProjection(start, bound, subBddTrueGenerator.items[..n]);
          assert alreadySeen == FirstProjections(start, bound, subBddTrueGenerator.items);
          break;
        }
        subBddTrueGenerator.Advance();
      }
      if subBddTrueGenerator.AtEnd() {
        assert subBddTrueGenerator.items[..subBddTrueGenerator.place] == subBddTrueGenerator.items;
      }
      if subBddTrueGenerator.AtEnd() || (outvars == [] && alreadySeen != []) {
        end := true;
      }
    }
  }
}
