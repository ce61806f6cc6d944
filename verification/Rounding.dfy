/** Rounding to the nearest integer, ties to the even neighbour. */
module Rounding {

  function RoundHalfEven(x: real): int {
    var low := x.Floor;
    var rest := x - low as real;
    if rest < 0.5 then low
    else if rest > 0.5 then low + 1
    else if low % 2 == 0 then low else low + 1
  }

  /** To one decimal. */
  function OneDecimal(x: real): real {
    RoundHalfEven(x * 10.0) as real / 10.0
  }

  /** Rounding keeps order. */
  lemma RoundingIsMonotone(x: real, y: real)
    requires x <= y
    ensures RoundHalfEven(x) <= RoundHalfEven(y)
  {
  }
}
