/**
 * The small numeric helpers of utility/rtweekend.h.
 *
 * The static Mersenne-Twister behind `RandomDouble()` is not modelled: every helper that
 * draws a number takes the draw `r`, a value in [0, 1), as a parameter.
 */
module RtWeekend {

  import opened RealArith

  /** The constant `pi` with the digits the source spells out. */
  const Pi: real := 3.14159265358979323846

  /** `static_cast<int>` of a double: truncation toward zero. */
  function Trunc(x: real): (n: int)
    ensures 0.0 <= x ==> 0 <= n && n as real <= x < n as real + 1.0
    ensures x < 0.0 ==> n <= 0 && n as real - 1.0 < x <= n as real
  {
    if 0.0 <= x then x.Floor else -((-x).Floor)
  }

  /** `Clamp(x, min, max)`: `min` below the range, `max` above it, `x` inside. */
  function Clamp(x: real, min: real, max: real): (r: real)
    ensures min <= max ==> min <= r <= max
    ensures min <= x <= max ==> r == x
    ensures x < min ==> r == min
    ensures min <= x && max < x ==> r == max
  {
    if x < min then min else if x > max then max else x
  }

  /** Clamping twice to the same range is clamping once. */
  lemma ClampIdempotent(x: real, min: real, max: real)
    requires min <= max
    ensures Clamp(Clamp(x, min, max), min, max) == Clamp(x, min, max)
  {
  }

  /** Clamping is monotone in its first argument. */
  lemma ClampMonotone(x: real, y: real, min: real, max: real)
    requires min <= max && x <= y
    ensures Clamp(x, min, max) <= Clamp(y, min, max)
  {
  }

  /** `RandomDouble(min, max)` for the draw `r`. */
  function RandomDouble(min: real, max: real, r: real): (x: real)
    ensures r == 0.0 ==> x == min
  {
    min + (max - min) * r
  }

  /** A draw in [0, 1) lands in [min, max], and below `max` when the range is not empty. */
  lemma RandomDoubleRange(min: real, max: real, r: real)
    requires min <= max && 0.0 <= r < 1.0
    ensures min <= RandomDouble(min, max, r) <= max
    ensures min < max ==> RandomDouble(min, max, r) < max
  {
    RandomDoubleBelowMax(min, max, r);
    MulNonNeg(max - min, r);
  }

  lemma RandomDoubleBelowMax(min: real, max: real, r: real)
    requires min <= max && 0.0 <= r < 1.0
    ensures RandomDouble(min, max, r) <= max
    ensures min < max ==> RandomDouble(min, max, r) < max
  {
    if min < max {
      var width := max - min;
      MulLt(r, 1.0, width);
      assert RandomDouble(min, max, r) == min + width * r;
    } else {
      assert max - min == 0.0;
    }
  }

  /** `RandomInt(min, max)` for the draw `r`: the truncation of `RandomDouble(min, max + 1)`. */
  function RandomInt(min: int, max: int, r: real): (n: int)
    ensures r == 0.0 ==> n == Trunc(min as real)
  {
    Trunc(RandomDouble(min as real, (max + 1) as real, r))
  }

  /** With `0 <= min <= max`, `RandomInt` yields an integer of [min, max]. */
  lemma RandomIntRange(min: int, max: int, r: real)
    requires 0 <= min <= max && 0.0 <= r < 1.0
    ensures min <= RandomInt(min, max, r) <= max
  {
    RandomDoubleRange(min as real, (max + 1) as real, r);
  }

  /** `DegreesToRadians(d) = d * pi / 180`. */
  function DegreesToRadians(degrees: real): (radians: real)
    ensures degrees == 180.0 ==> radians == Pi
    ensures degrees == 0.0 ==> radians == 0.0
    ensures degrees == -180.0 ==> radians == -Pi
  {
    degrees * Pi / 180.0
  }

  /** Converting degrees to radians is linear. */
  lemma DegreesToRadiansAdditive(a: real, b: real)
    ensures DegreesToRadians(a + b) == DegreesToRadians(a) + DegreesToRadians(b)
  {
  }

  /** `fmin` of <cmath> on numbers (no NaN): the smaller argument. */
  function Fmin(a: real, b: real): (m: real)
    ensures m <= a && m <= b && (m == a || m == b)
  {
    if a <= b then a else b
  }

  /** `fmax` of <cmath> on numbers (no NaN): the larger argument. */
  function Fmax(a: real, b: real): (m: real)
    ensures a <= m && b <= m && (m == a || m == b)
  {
    if a <= b then b else a
  }
}
