/** The two roundings the volume geometry depends on, over exact reals:
    Python's `round(x, 0)` rounds half to even, and the image library's
    physical-point-to-index conversion rounds half up. */
module Rounding {

  /** Python's `round(x, 0)`: the nearest integer, ties to the even one. */
  function RoundHalfEven(x: real): (r: int)
    ensures x - 0.5 <= r as real <= x + 0.5
    ensures (r as real == x - 0.5 || r as real == x + 0.5) ==> r % 2 == 0
  {
    var f := x.Floor;
    var frac := x - f as real;
    if frac < 0.5 then f
    else if frac > 0.5 then f + 1
    else if f % 2 == 0 then f
    else f + 1
  }

  /** The image library's index rounding, `floor(x + 1/2)`. */
  function RoundHalfUp(x: real): (r: int)
    ensures x - 0.5 < r as real <= x + 0.5
  {
    (x + 0.5).Floor
  }

  /** Both roundings leave an integer unchanged. */
  lemma RoundIntegral(n: int)
    ensures RoundHalfEven(n as real) == n
    ensures RoundHalfUp(n as real) == n
  {
  }

  /** Half-up rounding never exceeds half-even rounding of the next integer step. */
  lemma RoundHalfUpBelowNext(x: real, y: real)
    requires x <= y
    ensures RoundHalfUp(x) <= RoundHalfEven(y + 1.0)
  {
  }
}
