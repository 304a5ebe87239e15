/** Rounding as in Python, on exact reals. */
module Rounding {

  /** Python's `round` to the nearest integer, ties to even. */
  function Round(x: real): int {
    var f := x.Floor;
    if x - f as real < 0.5 then f
    else if x - f as real > 0.5 then f + 1
    else if f % 2 == 0 then f else f + 1
  }

  /** The nearest integer, and of two equally near ones the even one; there is only one such. */
  lemma RoundIsNearest(x: real, n: int)
    ensures Round(x) == n <==>
            || x - 0.5 < n as real < x + 0.5
            || ((n as real == x - 0.5 || n as real == x + 0.5) && n % 2 == 0)
  {
    var f := x.Floor;
    assert f as real <= x < f as real + 1.0;
    if n as real == x - 0.5 || n as real == x + 0.5 { assert n == f || n == f + 1; }
  }

  lemma RoundMonotone(x: real, y: real)
    requires x <= y
    ensures Round(x) <= Round(y)
  {
    if x.Floor == y.Floor {
    } else {
      assert x.Floor + 1 <= y.Floor;
    }
  }

  /** `round(x, 3)`. */
  function Round3(x: real): real { Round(x * 1000.0) as real / 1000.0 }

  /** Three decimals, at most half a thousandth away. */
  lemma Round3IsNear(x: real)
    ensures x - 0.0005 <= Round3(x) <= x + 0.0005
    ensures Round3(x) * 1000.0 == Round(x * 1000.0) as real
  {
    RoundIsNearest(x * 1000.0, Round(x * 1000.0));
    var r := Round(x * 1000.0) as real;
    assert r / 1000.0 * 1000.0 == r;
  }

  lemma Round3Monotone(x: real, y: real)
    requires x <= y
    ensures Round3(x) <= Round3(y)
  {
    RoundMonotone(x * 1000.0, y * 1000.0);
  }
}
