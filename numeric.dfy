/** Real-number stand-ins for the few floating-point primitives the exporter
    uses: Python's `math.pi`, `abs` and `round`. */
module Numeric {

  /** `math.pi`: the double nearest to pi, written out exactly. */
  const PI: real := 3.141592653589793115997963468544185161590576171875

  function Abs(x: real): (r: real)
    ensures r >= 0.0
    ensures r == x || r == -x
  {
    if x < 0.0 then -x else x
  }

  predicate IsEven(n: int) {
    n % 2 == 0
  }

  /** Python's built-in `round` on a float with no digit count, which is also
      what the `:.0f` format does: round to the nearest integer, and on a tie
      (exactly half-way) to the even neighbour. */
  function Round(x: real): (r: int)
    ensures x - 0.5 <= r as real <= x + 0.5
    ensures (r as real == x - 0.5 || r as real == x + 0.5) ==> IsEven(r)
  {
    var f := x.Floor;
    var d := x - f as real;
    if d < 0.5 then f
    else if d > 0.5 then f + 1
    else if IsEven(f) then f
    else f + 1
  }

  /** The two properties in Round's contract single out one integer. */
  lemma RoundUnique(x: real, n: int)
    requires x - 0.5 <= n as real <= x + 0.5
    requires (n as real == x - 0.5 || n as real == x + 0.5) ==> IsEven(n)
    ensures n == Round(x)
  {
  }

  lemma RoundOfInteger(n: int)
    ensures Round(n as real) == n
  {
    RoundUnique(n as real, n);
  }

  lemma RoundMonotone(x: real, y: real)
    requires x <= y
    ensures Round(x) <= Round(y)
  {
  }

  lemma RoundNonNegative(x: real)
    requires x >= 0.0
    ensures Round(x) >= 0
  {
    RoundOfInteger(0);
    RoundMonotone(0.0, x);
  }

  /** Half-to-even rounding is symmetric about zero (unlike half-up rounding). */
  lemma RoundNegate(x: real)
    ensures Round(-x) == -Round(x)
  {
    var r := Round(x);
    assert IsEven(r) ==> IsEven(-r);
    RoundUnique(-x, -r);
  }
}
