/** The paths of a diagram that end in false. */
module Paths {
  import opened Diagrams

  /** Which way each kernel on the path goes. */
  type Path = seq<(bool, KernelId)>

  function Under(step: (bool, KernelId), paths: seq<Path>): (r: seq<Path>)
    ensures |r| == |paths|
  {
    seq(|paths|, i requires 0 <= i < |paths| => [step] + paths[i])
  }

  function PathsToFalse(d: Tree): seq<Path> {
    match d
    case Leaf(b) => if b then [] else [[]]
    case Branch(k, t, f) => Under((false, k), PathsToFalse(f)) + Under((true, k), PathsToFalse(t))
  }

  predicate Follows(v: Valuation, p: Path) {
    forall i :: 0 <= i < |p| ==> v(p[i].1) == p[i].0
  }

  /** Among the paths exactly one is followed, and only when there is one to follow. */
  ghost predicate FollowsOne(v: Valuation, paths: seq<Path>, i: nat) {
    i < |paths| && Follows(v, paths[i]) && forall j :: 0 <= j < |paths| && Follows(v, paths[j]) ==> j == i
  }

  ghost predicate FollowsNone(v: Valuation, paths: seq<Path>) {
    forall j :: 0 <= j < |paths| ==> !Follows(v, paths[j])
  }

  lemma FollowsUnder(v: Valuation, step: (bool, KernelId), paths: seq<Path>, i: nat)
    requires i < |paths|
    ensures Follows(v, Under(step, paths)[i]) <==> v(step.1) == step.0 && Follows(v, paths[i])
  {
    var p := Under(step, paths)[i];
    assert p[0] == step && p[1..] == paths[i];
    assert forall j :: 0 <= j < |paths[i]| ==> p[j + 1] == paths[i][j];
    assert forall j :: 1 <= j < |p| ==> p[j] == paths[i][j - 1];
  }

  /** The paths partition the valuations that make the diagram false. */
  lemma {:induction false} PathsPartition(d: Tree, v: Valuation)
    ensures Eval(d, v) ==> FollowsNone(v, PathsToFalse(d))
    ensures !Eval(d, v) ==> exists i :: FollowsOne(v, PathsToFalse(d), i)
    decreases d
  {
    match d
    case Leaf(b) =>
      if !b { assert FollowsOne(v, PathsToFalse(d), 0); }
    case Branch(k, t, f) =>
      var below, left, right := PathsToFalse(if v(k) then t else f), Under((false, k), PathsToFalse(f)), Under((true, k), PathsToFalse(t));
      PathsPartition(if v(k) then t else f, v);
      forall j | 0 <= j < |left| ensures Follows(v, left[j]) <==> !v(k) && Follows(v, PathsToFalse(f)[j]) {
        FollowsUnder(v, (false, k), PathsToFalse(f), j);
      }
      forall j | 0 <= j < |right| ensures Follows(v, right[j]) <==> v(k) && Follows(v, PathsToFalse(t)[j]) {
        FollowsUnder(v, (true, k), PathsToFalse(t), j);
      }
      if !Eval(d, v) {
        var i :| FollowsOne(v, below, i);
        assert PathsToFalse(d) == left + right;
        assert FollowsOne(v, left + right, if v(k) then |left| + i else i);
      }
  }
}
