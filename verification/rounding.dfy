/** Python's built-in `round(x)` with no digits argument on a decimal amount:
    round to the nearest integer, ties to the even neighbour. */
module Rounding {

  /** The integer nearest to `x`; a value exactly halfway goes to the even one. */
  function RoundHalfEven(x: real): (n: int)
    ensures -0.5 <= x - n as real <= 0.5
    ensures (x - n as real == 0.5 || x - n as real == -0.5) ==> n % 2 == 0
  {
    var f := x.Floor;
    var d := x - f as real;
    if d < 0.5 then f
    else if d > 0.5 then f + 1
    else if f % 2 == 0 then f
    else f + 1
  }

  /** The two ensures of `RoundHalfEven` pin its result down: no other integer
      is as close to `x` and, on a tie, even. */
  lemma RoundHalfEvenUnique(x: real, m: int)
    requires -0.5 <= x - m as real <= 0.5
    requires (x - m as real == 0.5 || x - m as real == -0.5) ==> m % 2 == 0
    ensures m == RoundHalfEven(x)
  {
  }

  /** Integers are left alone. */
  lemma RoundInteger(k: int)
    ensures RoundHalfEven(k as real) == k
  {
    RoundHalfEvenUnique(k as real, k);
  }

  /** Worked values: 100.6 is sent as 101, 2.5 becomes 2 and 3.5 becomes 4. */
  lemma RoundExamples()
    ensures RoundHalfEven(100.6) == 101
    ensures RoundHalfEven(2.5) == 2
    ensures RoundHalfEven(3.5) == 4
    ensures RoundHalfEven(-2.5) == -2
  {
    RoundHalfEvenUnique(100.6, 101);
    RoundHalfEvenUnique(2.5, 2);
    RoundHalfEvenUnique(3.5, 4);
    RoundHalfEvenUnique(-2.5, -2);
  }
}
