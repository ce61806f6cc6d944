/** The composite score of a cash-secured put and its rating. */
module Score {
  import opened Sequences
  import opened Rounding

  /** What a contract is scored by; the return, the IV percentile and the spread may be unmeasured. */
  datatype Inputs = Inputs(
    annualized: Option<real>, probItm: real, safetyMargin: real, ivPercentile: Option<real>, spread: Option<real>)

  function Clip(v: real): real {
    if v < 0.0 then 0.0 else if v > 1.0 then 1.0 else v
  }

  function ReturnPart(x: Inputs): real {
    if x.annualized.Some? then Clip(x.annualized.value / 1.5) else 0.0
  }

  function ProbPart(x: Inputs): real {
    Clip(1.0 - x.probItm / 0.3)
  }

  function SafetyPart(x: Inputs): real {
    Clip(x.safetyMargin / 0.2)
  }

  function IvPart(x: Inputs): real {
    if x.ivPercentile.Some? then Clip(x.ivPercentile.value / 100.0) else 0.5
  }

  function LiquidityPart(x: Inputs): real {
    if x.spread.Some? then Clip(1.0 - x.spread.value / 0.3) else 0.5
  }

  function CompositeScore(x: Inputs): real {
    (0.30 * ReturnPart(x) + 0.25 * ProbPart(x) + 0.20 * SafetyPart(x)
     + 0.15 * IvPart(x) + 0.10 * LiquidityPart(x)) * 100.0
  }

  datatype Rating = A | B | C | D

  function RatingOf(score: real): Rating {
    if score >= 75.0 then A else if score >= 55.0 then B else if score >= 35.0 then C else D
  }

  predicate AtLeast(a: Option<real>, b: Option<real>, unmeasured: real) {
    (if a.Some? then a.value else unmeasured) >= (if b.Some? then b.value else unmeasured)
  }

  /** At least as good in everything: an unmeasured return counts as none, an unmeasured percentile as 50 and
      an unmeasured spread as 15 %. */
  predicate Dominates(x: Inputs, y: Inputs) {
    && AtLeast(x.annualized, y.annualized, 0.0) && x.probItm <= y.probItm && x.safetyMargin >= y.safetyMargin
    && AtLeast(x.ivPercentile, y.ivPercentile, 50.0) && AtLeast(y.spread, x.spread, 0.15)
  }

  /** Scores lie between 0 and 100, whatever the inputs; a full score needs every part to be at its best. */
  lemma ScoreRange(x: Inputs)
    ensures 0.0 <= CompositeScore(x) <= 100.0
    ensures CompositeScore(x) == 100.0 <==>
      && x.annualized.Some? && x.annualized.value >= 1.5 && x.probItm <= 0.0 && x.safetyMargin >= 0.2
      && x.ivPercentile.Some? && x.ivPercentile.value >= 100.0 && x.spread.Some? && x.spread.value <= 0.0
    ensures 0.0 <= OneDecimal(CompositeScore(x)) <= 100.0
  {
  }

  /** What an input adds, the others unchanged. */
  predicate Moves(x: Inputs, y: Inputs, weight: real, before: real, after: real) {
    CompositeScore(y) - CompositeScore(x) == weight * (after - before)
  }

  lemma ReturnMoves(x: Inputs, y: Inputs)
    requires y == x.(annualized := y.annualized)
    ensures Moves(x, y, 30.0, ReturnPart(x), ReturnPart(y))
  {
    assert IvPart(x) == IvPart(y) && LiquidityPart(x) == LiquidityPart(y);
  }

  lemma ProbMoves(x: Inputs, y: Inputs)
    requires y == x.(probItm := y.probItm)
    ensures Moves(x, y, 25.0, ProbPart(x), ProbPart(y))
  {
    assert ReturnPart(x) == ReturnPart(y) && IvPart(x) == IvPart(y) && LiquidityPart(x) == LiquidityPart(y);
  }

  lemma SafetyMoves(x: Inputs, y: Inputs)
    requires y == x.(safetyMargin := y.safetyMargin)
    ensures Moves(x, y, 20.0, SafetyPart(x), SafetyPart(y))
  {
    assert ReturnPart(x) == ReturnPart(y) && IvPart(x) == IvPart(y) && LiquidityPart(x) == LiquidityPart(y);
  }

  lemma IvMoves(x: Inputs, y: Inputs)
    requires y == x.(ivPercentile := y.ivPercentile)
    ensures Moves(x, y, 15.0, IvPart(x), IvPart(y))
  {
    assert ReturnPart(x) == ReturnPart(y) && LiquidityPart(x) == LiquidityPart(y);
  }

  lemma SpreadMoves(x: Inputs, y: Inputs)
    requires y == x.(spread := y.spread)
    ensures Moves(x, y, 10.0, LiquidityPart(x), LiquidityPart(y))
  {
    assert ReturnPart(x) == ReturnPart(y) && IvPart(x) == IvPart(y);
  }

  /** Changing one input alone moves the score by its weight times the change of its part, wherever the others
      stand. */
  lemma OnePartAtATime(x: Inputs, y: Inputs)
    ensures y == x.(annualized := y.annualized) ==> Moves(x, y, 30.0, ReturnPart(x), ReturnPart(y))
    ensures y == x.(probItm := y.probItm) ==> Moves(x, y, 25.0, ProbPart(x), ProbPart(y))
    ensures y == x.(safetyMargin := y.safetyMargin) ==> Moves(x, y, 20.0, SafetyPart(x), SafetyPart(y))
    ensures y == x.(ivPercentile := y.ivPercentile) ==> Moves(x, y, 15.0, IvPart(x), IvPart(y))
    ensures y == x.(spread := y.spread) ==> Moves(x, y, 10.0, LiquidityPart(x), LiquidityPart(y))
  {
    if y == x.(annualized := y.annualized) { ReturnMoves(x, y); }
    if y == x.(probItm := y.probItm) { ProbMoves(x, y); }
    if y == x.(safetyMargin := y.safetyMargin) { SafetyMoves(x, y); }
    if y == x.(ivPercentile := y.ivPercentile) { IvMoves(x, y); }
    if y == x.(spread := y.spread) { SpreadMoves(x, y); }
  }

  lemma PartsAreMonotone(x: Inputs, y: Inputs)
    requires Dominates(x, y)
    ensures ReturnPart(x) >= ReturnPart(y) && IvPart(x) >= IvPart(y) && LiquidityPart(x) >= LiquidityPart(y)
  {
  }

  /** A contract that is at least as good in everything never scores less, nor shows a lower score. */
  lemma ScoreIsMonotone(x: Inputs, y: Inputs)
    requires Dominates(x, y)
    ensures CompositeScore(x) >= CompositeScore(y)
    ensures OneDecimal(CompositeScore(x)) >= OneDecimal(CompositeScore(y))
  {
    PartsAreMonotone(x, y);
    RoundingIsMonotone(CompositeScore(y) * 10.0, CompositeScore(x) * 10.0);
  }

  /** The rating is decided before the score is rounded: the two disagree exactly in the last half tenth
      below a limit. */
  lemma RatingMatchesShownScoreIff(score: real)
    ensures RatingOf(OneDecimal(score)) == RatingOf(score) <==>
      !(34.95 <= score < 35.0) && !(54.95 <= score < 55.0) && !(74.95 <= score < 75.0)
  {
  }

  /** The rating's limits. */
  lemma RatingBands(score: real)
    ensures RatingOf(score) == A <==> 75.0 <= score
    ensures RatingOf(score) == B <==> 55.0 <= score < 75.0
    ensures RatingOf(score) == C <==> 35.0 <= score < 55.0
    ensures RatingOf(score) == D <==> score < 35.0
  {
  }

  /** A missing return counts as none, a missing percentile as 50 and a missing spread as 15 %. */
  lemma UnmeasuredCountsAs(x: Inputs)
    ensures CompositeScore(x.(annualized := None)) == CompositeScore(x.(annualized := Some(0.0)))
    ensures CompositeScore(x.(ivPercentile := None)) == CompositeScore(x.(ivPercentile := Some(50.0)))
    ensures CompositeScore(x.(spread := None)) == CompositeScore(x.(spread := Some(0.15)))
  {
    ReturnMoves(x.(annualized := None), x.(annualized := Some(0.0)));
    IvMoves(x.(ivPercentile := None), x.(ivPercentile := Some(50.0)));
    SpreadMoves(x.(spread := None), x.(spread := Some(0.15)));
    UnmeasuredParts(x);
  }

  lemma UnmeasuredParts(x: Inputs)
    ensures ReturnPart(x.(annualized := None)) == ReturnPart(x.(annualized := Some(0.0)))
    ensures IvPart(x.(ivPercentile := None)) == IvPart(x.(ivPercentile := Some(50.0)))
    ensures LiquidityPart(x.(spread := None)) == LiquidityPart(x.(spread := Some(0.15)))
  {
  }

  /** Up to its bound every reading counts in proportion: 20 points for each whole of yearly return, 250 lost over
      three for each of probability, 100 for each of margin, 15 for a hundred percentiles, 100 lost over three for each
      of spread. */
  lemma ScoreIsLinear(x: Inputs)
    requires x.annualized.Some? && 0.0 <= x.annualized.value <= 1.5 && 0.0 <= x.probItm <= 0.3
    requires 0.0 <= x.safetyMargin <= 0.2 && x.ivPercentile.Some? && 0.0 <= x.ivPercentile.value <= 100.0
    requires x.spread.Some? && 0.0 <= x.spread.value <= 0.3
    ensures 3.0 * CompositeScore(x) ==
      60.0 * x.annualized.value + 75.0 - 250.0 * x.probItm + 300.0 * x.safetyMargin
      + 0.45 * x.ivPercentile.value + 30.0 - 100.0 * x.spread.value
  {
  }

  /** The value, or the bound it passes. */
  function Within(v: real, high: real): real {
    if v < 0.0 then 0.0 else if v > high then high else v
  }

  /** Beyond a bound a reading counts as the bound. */
  lemma ScoreIsCapped(x: Inputs)
    requires x.annualized.Some? && x.ivPercentile.Some? && x.spread.Some?
    ensures CompositeScore(x) == CompositeScore(Inputs(
      Some(Within(x.annualized.value, 1.5)), Within(x.probItm, 0.3), Within(x.safetyMargin, 0.2),
      Some(Within(x.ivPercentile.value, 100.0)), Some(Within(x.spread.value, 0.3))))
  {
    var a, p, m := x.annualized.value, x.probItm, x.safetyMargin;
    assert Clip(a / 1.5) == Clip(Within(a, 1.5) / 1.5) && Clip(1.0 - p / 0.3) == Clip(1.0 - Within(p, 0.3) / 0.3);
    assert Clip(m / 0.2) == Clip(Within(m, 0.2) / 0.2);
  }
}
