/** Python's built-in `round` on a number, which rounds half to even
    ("banker's rounding"), defined on exact reals from `Floor`. */
module Rounding {

  predicate IsEven(n: int) {
    n % 2 == 0
  }

  /** round(x): the nearest integer to x; an exact tie goes to the even neighbour. */
  function Round(x: real): (r: int)
    ensures -0.5 <= r as real - x <= 0.5
    ensures (r as real - x == 0.5 || x - r as real == 0.5) ==> IsEven(r)
  {
    var f := x.Floor;
    var d := x - f as real;
    if d < 0.5 then f
    else if d > 0.5 then f + 1
    else if IsEven(f) then f else f + 1
  }

  /** The two properties in Round's contract single out one integer:
      whatever satisfies them is what Round returns. */
  lemma RoundUnique(x: real, n: int)
    requires -0.5 <= n as real - x <= 0.5
    requires (n as real - x == 0.5 || x - n as real == 0.5) ==> IsEven(n)
    ensures Round(x) == n
  {
  }

  /** Rounding an integer gives it back. */
  lemma RoundOfInt(n: int)
    ensures Round(n as real) == n
  {
    RoundUnique(n as real, n);
  }

  /** Rounding keeps a value that lies in [0, m] for an integer m inside [0, m]. */
  lemma RoundWithin(x: real, m: int)
    requires 0.0 <= x <= m as real
    ensures 0 <= Round(x) <= m
  {
  }
}
