/** Python's `round(x, 2)` on exact reals: to the nearest hundredth, ties to the
    even hundredth (the rounding rule of Python 3's `round`). */
module Rounding {

  /** x is a whole number of hundredths. */
  predicate IsCents(x: real)
  {
    (x * 100.0).Floor as real == x * 100.0
  }

  function Round2(x: real): (r: real)
    ensures IsCents(r)
    ensures x - 0.005 <= r <= x + 0.005
  {
    var scaled := x * 100.0;
    var n := scaled.Floor;
    var frac := scaled - n as real;
    var m := if frac < 0.5 then n
             else if frac > 0.5 then n + 1
             else if n % 2 == 0 then n else n + 1;
    assert (m as real / 100.0) * 100.0 == m as real;
    m as real / 100.0
  }

  /** Rounding never reverses the order of two amounts. */
  lemma Round2Monotone(x: real, y: real)
    requires x <= y
    ensures Round2(x) <= Round2(y)
  {
    var a, b := x * 100.0, y * 100.0;
    assert a <= b;
    var na, nb := a.Floor, b.Floor;
    assert na <= nb;
  }

  /** An amount that is already a whole number of hundredths is left as it is. */
  lemma Round2OfCents(x: real)
    requires IsCents(x)
    ensures Round2(x) == x
  {
  }

  /** The difference of two amounts in hundredths is again in hundredths. */
  lemma CentsDifference(x: real, y: real)
    requires IsCents(x) && IsCents(y)
    ensures IsCents(x - y)
  {
    var nx, ny := (x * 100.0).Floor, (y * 100.0).Floor;
    assert (x - y) * 100.0 == (nx - ny) as real;
  }

  /** Rounding keeps the sign: a non-negative amount rounds to a non-negative one. */
  lemma Round2NonNegative(x: real)
    requires x >= 0.0
    ensures Round2(x) >= 0.0
  {
  }

  /** A tie goes to the even hundredth, as `round(0.125, 2) == 0.12` and
      `round(0.375, 2) == 0.38` in Python. */
  lemma Round2TiesToEven()
    ensures Round2(0.125) == 0.12
    ensures Round2(0.375) == 0.38
  {
  }
}
