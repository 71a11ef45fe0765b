/** Rounding primitives of Python's `math` module and of `int()` on a float,
    over exact reals. */
module Numeric {

  /** `math.floor(x)`. */
  function Floor(x: real): (r: int)
    ensures r as real <= x < r as real + 1.0
  {
    x.Floor
  }

  /** `math.ceil(x)`. */
  function Ceil(x: real): (r: int)
    ensures x <= r as real < x + 1.0
  {
    -((-x).Floor)
  }

  /** `int(x)` for a float: truncation toward zero. */
  function Trunc(x: real): (r: int)
    ensures x >= 0.0 ==> r >= 0 && r as real <= x < r as real + 1.0
    ensures x < 0.0 ==> r <= 0 && r as real - 1.0 < x <= r as real
  {
    if x >= 0.0 then Floor(x) else Ceil(x)
  }

  /** `math.fmod(x, y)`: the remainder of truncating division, which takes the
      sign of `x` (unlike `%`, which takes the sign of `y`). */
  function Fmod(x: real, y: real): (r: real)
    requires y != 0.0
  {
    x - y * Trunc(x / y) as real
  }

  function Abs(x: real): real {
    if x < 0.0 then -x else x
  }

  /** The remainder has the sign of the dividend and is smaller than the
      divisor; the dividend is a whole multiple of the divisor plus it. The
      divisors are the two the axis rules use, 10 and 5, which keeps the
      arithmetic linear. */
  lemma FmodBounds(x: real, y: real)
    requires y == 10.0 || y == 5.0
    ensures x >= 0.0 ==> 0.0 <= Fmod(x, y) < y
    ensures x < 0.0 ==> -y < Fmod(x, y) <= 0.0
    ensures x == Trunc(x / y) as real * y + Fmod(x, y)
  {
    if y == 10.0 {
      var t := Trunc(x / 10.0) as real;
      assert Fmod(x, y) == x - 10.0 * t;
    } else {
      var t := Trunc(x / 5.0) as real;
      assert Fmod(x, y) == x - 5.0 * t;
    }
  }

  /** `math.fmod(x, 10)` for the non-negative values the axis rules see. */
  lemma FmodTenNonNegative(x: real)
    requires x >= 0.0
    ensures 0.0 <= Fmod(x, 10.0) < 10.0
  {
    FmodBounds(x, 10.0);
  }

  /** Python's `%` on floats: the remainder of flooring division, which takes
      the sign of the divisor. */
  function PyMod(x: real, y: real): real
    requires y != 0.0
  {
    x - y * Floor(x / y) as real
  }

  /** `math.fmod` and `%` agree on non-negative dividends; on a negative
      dividend that is not a whole multiple, `fmod` is exactly one divisor
      below `%`, so only `fmod` can be negative. */
  lemma FmodAgainstMod(x: real, y: real)
    requires y == 10.0 || y == 5.0
    ensures x >= 0.0 ==> Fmod(x, y) == PyMod(x, y)
    ensures x < 0.0 && Fmod(x, y) != 0.0 ==> Fmod(x, y) == PyMod(x, y) - y < 0.0
    ensures Fmod(x, y) == 0.0 <==> PyMod(x, y) == 0.0
  {
    var q := x / y;
    assert x == q * y;
    if x < 0.0 && Fmod(x, y) != 0.0 {
      assert Trunc(q) as real != q;
      assert Trunc(q) == Floor(q) + 1;
    }
  }

}
