/** Rounding to four decimals, halves upwards. */
module Rounding {
  function Round4(x: real): real {
    (x * 10000.0 + 0.5).Floor as real / 10000.0
  }

  lemma Round4Monotone(x: real, y: real)
    requires x <= y
    ensures Round4(x) <= Round4(y)
  {
    var a, b := (x * 10000.0 + 0.5).Floor, (y * 10000.0 + 0.5).Floor;
    assert a <= b;
    assert a as real / 10000.0 <= b as real / 10000.0;
  }

  /** Rounding does not leave the unit interval. */
  lemma Round4InUnit(x: real)
    requires 0.0 <= x <= 1.0
    ensures 0.0 <= Round4(x) <= 1.0
  {
    Round4Monotone(0.0, x);
    Round4Monotone(x, 1.0);
  }

  /** The result is a multiple of a ten-thousandth, the nearest one, and of two the upper one. */
  lemma RoundsToNearest(x: real) returns (n: int)
    ensures Round4(x) - 0.00005 <= x < Round4(x) + 0.00005
    ensures Round4(x) == n as real / 10000.0
  {
    n := (x * 10000.0 + 0.5).Floor;
    assert n as real <= x * 10000.0 + 0.5 < n as real + 1.0;
  }
}
