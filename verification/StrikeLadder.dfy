/** The strikes around a spot price, in whole dollars. */
module StrikeLadder {
  import opened Rounding

  const FINE_STEP_BELOW: real := 200.0

  function Step(spot: real): int {
    if spot < FINE_STEP_BELOW then 5 else 10
  }

  /** The number of steps to the strike nearest to the spot. */
  function Center(spot: real): int {
    RoundHalfEven(spot / Step(spot) as real)
  }

  function Lowest(center: int, count: nat): int {
    if center - count < 1 then 1 else center - count
  }

  /** The multiples of the step from `center - count`, but at least 1, to `center + count`. */
  function Ladder(center: int, step: int, count: nat): seq<int> {
    var low := Lowest(center, count);
    if center + count < low then [] else seq(center + count - low + 1, i => (low + i) * step)
  }

  function StrikesFor(spot: real, count: nat): seq<int> {
    if spot <= 0.0 then [] else Ladder(Center(spot), Step(spot), count)
  }

  method StrikesAroundSpot(spot: real, count: nat) returns (strikes: seq<int>)
    ensures strikes == StrikesFor(spot, count)
  {
    if spot <= 0.0 {
      return [];
    }
    var step, center := Step(spot), Center(spot);
    var low := Lowest(center, count);
    strikes := [];
    for i := -(count as int) to count + 1
      invariant |strikes| == if center + i <= low then 0 else center + i - low
      invariant forall k :: 0 <= k < |strikes| ==> strikes[k] == (low + k) * step
    {
      var s := center * step + i * step;
      assert s == (center + i) * step;
      if s > 0 {
        strikes := strikes + [s];
      }
    }
  }

  /** The step is 5 below a spot of 200 and 10 from there on. */
  lemma StepIs(spot: real)
    ensures Step(spot) == (if spot < 200.0 then 5 else 10)
  {
  }

  /** The centre is a multiple nearest to the spot, and an even one where two are equally near. */
  lemma CenterIsNearest(spot: real)
    requires spot > 0.0
    ensures var step, c := (if spot < 200.0 then 5 else 10), Center(spot);
      && 0 <= c && spot - step as real / 2.0 <= (c * step) as real <= spot + step as real / 2.0
      && ((c * step) as real == spot - step as real / 2.0 || (c * step) as real == spot + step as real / 2.0 ==>
            c % 2 == 0)
  {
  }

  /** A strike is on the ladder exactly when it is a positive multiple of the step within `count` steps of the
      centre; the ladder is increasing, its centre is a strike nearest to the spot, and it surrounds the spot
      unless it starts at its first step. */
  lemma LadderFacts(spot: real, count: nat)
    requires spot > 0.0 && count >= 1
    ensures var strikes, step, c := StrikesFor(spot, count), (if spot < 200.0 then 5 else 10), Center(spot);
      && (forall s :: s in strikes <==> exists k :: Lowest(c, count) <= k <= c + count && s == k * step)
      && (forall i, j :: 0 <= i < j < |strikes| ==> strikes[i] < strikes[j])
      && strikes != [] && 0 < strikes[0] && spot <= strikes[|strikes| - 1] as real
      && (strikes[0] as real <= spot || strikes[0] == step)
  {
    var strikes, step, c := StrikesFor(spot, count), Step(spot), Center(spot);
    var low := Lowest(c, count);
    CenterIsNearest(spot);
    forall k | low <= k <= c + count
      ensures k * step in strikes
    {
      assert strikes[k - low] == k * step;
    }
    forall i, j | 0 <= i < j < |strikes|
      ensures strikes[i] < strikes[j]
    {
      assert (low + j) * step - (low + i) * step == (j - i) * step;
    }
    assert strikes[|strikes| - 1] == (c + count) * step;
    assert (c + count) * step == c * step + count * step;
    assert strikes[0] == low * step;
    if low > 1 {
      assert low * step == c * step - count * step;
    }
  }
}
