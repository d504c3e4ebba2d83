/** Python's built-in `round(x)` on a number, modelled on reals.
    The source applies it to float products (hours x rate, gross x IRPF%);
    here the product is an exact real and only the rounding rule is kept. */
module Rounding {

  /** Nearest integer, ties to the even neighbour (banker's rounding). */
  function RoundHalfEven(x: real): (r: int)
    ensures x - 0.5 <= r as real <= x + 0.5
    ensures (r as real - x == 0.5 || x - r as real == 0.5) ==> r % 2 == 0
  {
    var f := x.Floor;
    var frac := x - f as real;
    if frac < 0.5 then f
    else if frac > 0.5 then f + 1
    else if f % 2 == 0 then f
    else f + 1
  }

  /** The two properties above pin the result down: any integer within one half
      of `x` that is even on a tie is `RoundHalfEven(x)`. */
  lemma RoundHalfEvenUnique(x: real, n: int)
    requires x - 0.5 <= n as real <= x + 0.5
    requires (n as real - x == 0.5 || x - n as real == 0.5) ==> n % 2 == 0
    ensures n == RoundHalfEven(x)
  {
  }

  /** Rounding an integral value gives it back. */
  lemma RoundIntegral(n: int)
    ensures RoundHalfEven(n as real) == n
  {
  }

  /** Ties go to the even neighbour, unlike ROUND_HALF_UP. */
  lemma RoundTiesToEven()
    ensures RoundHalfEven(2.5) == 2
    ensures RoundHalfEven(3.5) == 4
    ensures RoundHalfEven(-2.5) == -2
    ensures RoundHalfEven(0.5) == 0
  {
    RoundHalfEvenUnique(2.5, 2);
    RoundHalfEvenUnique(3.5, 4);
    RoundHalfEvenUnique(-2.5, -2);
    RoundHalfEvenUnique(0.5, 0);
  }
}
