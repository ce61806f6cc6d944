/** Keeping what a rule makes of each element, where it makes something of it. */
module Collecting {
  import opened Sequences

  function Collect<A, B>(xs: seq<A>, pick: A -> Option<B>): seq<B> {
    if xs == [] then [] else
    var front := Collect(xs[..|xs| - 1], pick);
    match pick(xs[|xs| - 1])
    case None => front
    case Some(y) => front + [y]
  }

  lemma CollectNext<A, B>(xs: seq<A>, pick: A -> Option<B>, i: nat)
    requires i < |xs|
    ensures Collect(xs[..i + 1], pick) ==
      Collect(xs[..i], pick) + (if pick(xs[i]).Some? then [pick(xs[i]).value] else [])
  {
    assert xs[..i + 1][..i] == xs[..i];
  }

  method CollectAll<A, B>(xs: seq<A>, pick: A -> Option<B>) returns (ys: seq<B>)
    ensures ys == Collect(xs, pick)
  {
    ys := [];
    for i := 0 to |xs|
      invariant ys == Collect(xs[..i], pick)
    {
      CollectNext(xs, pick, i);
      match pick(xs[i]) {
        case Some(y) => ys := ys + [y];
        case None =>
      }
    }
    assert xs[..|xs|] == xs;
  }

  lemma {:induction false} CollectedComesFrom<A, B>(xs: seq<A>, pick: A -> Option<B>, y: B) returns (i: nat)
    requires y in Collect(xs, pick)
    ensures i < |xs| && pick(xs[i]) == Some(y)
  {
    i := |xs| - 1;
    if pick(xs[i]) != Some(y) {
      i := CollectedComesFrom(xs[..|xs| - 1], pick, y);
    }
  }

  lemma {:induction false} PickedIsCollected<A, B>(xs: seq<A>, pick: A -> Option<B>, i: nat)
    requires i < |xs| && pick(xs[i]).Some?
    ensures pick(xs[i]).value in Collect(xs, pick)
  {
    if i < |xs| - 1 {
      PickedIsCollected(xs[..|xs| - 1], pick, i);
    }
  }

  /** Where the rule makes `ys[i]` of `xs[i]` throughout, nothing is lost. */
  lemma {:induction false} CollectOfAll<A, B>(xs: seq<A>, ys: seq<B>, pick: A -> Option<B>)
    requires |xs| == |ys| && forall i :: 0 <= i < |xs| ==> pick(xs[i]) == Some(ys[i])
    ensures Collect(xs, pick) == ys
  {
    if xs != [] {
      CollectOfAll(xs[..|xs| - 1], ys[..|ys| - 1], pick);
    }
  }
}
