/** Facts about multiplication and division that the solver does not find by itself. */
module RealArith {

  lemma MulLe(a: real, b: real, c: real)
    requires a <= b && 0.0 <= c
    ensures a * c <= b * c && c * a <= c * b
  {
  }

  lemma MulLt(a: real, b: real, c: real)
    requires a < b && 0.0 < c
    ensures a * c < b * c && c * a < c * b
  {
  }

  lemma MulPos(x: real, y: real)
    requires 0.0 < x && 0.0 < y
    ensures 0.0 < x * y
  {
  }

  lemma MulNonNeg(x: real, y: real)
    requires 0.0 <= x && 0.0 <= y
    ensures 0.0 <= x * y
  {
  }

  /** The product of two numbers of [0, 1] lies in [0, 1] and below each factor. */
  lemma UnitProduct(a: real, b: real)
    requires 0.0 <= a <= 1.0 && 0.0 <= b <= 1.0
    ensures 0.0 <= a * b <= 1.0 && a * b <= a && a * b <= b
  {
    MulLe(a, 1.0, b);
    MulLe(b, 1.0, a);
    MulNonNeg(a, b);
  }

  lemma DifferenceOfSquares(a: real, b: real)
    ensures (b - a) * (b + a) == b * b - a * a
  {
  }

  lemma SquareLt(a: real, b: real)
    requires 0.0 <= a < b
    ensures a * a < b * b
  {
    MulPos(b - a, b + a);
    DifferenceOfSquares(a, b);
  }

  lemma SquareLe(a: real, b: real)
    requires 0.0 <= a <= b
    ensures a * a <= b * b
  {
    if a < b {
      SquareLt(a, b);
    }
  }

  lemma SquareNonNeg(a: real)
    ensures 0.0 <= a * a
  {
    if a < 0.0 {
      MulPos(-a, -a);
      assert (-a) * (-a) == a * a;
    }
  }

  lemma SquarePos(a: real)
    requires a != 0.0
    ensures 0.0 < a * a
  {
    if a < 0.0 {
      MulPos(-a, -a);
      assert (-a) * (-a) == a * a;
    } else {
      MulPos(a, a);
    }
  }

  /** Three nested loops over {0, 1} visit the position `(i, j, k)` as number `4i + 2j + k`. */
  lemma CornerIndex(i: int, j: int, k: int)
    requires 0 <= i < 2 && 0 <= j < 2 && 0 <= k < 2
    ensures var q := 4 * i + 2 * j + k; 0 <= q < 8 && q / 4 == i && (q / 2) % 2 == j && q % 2 == k
  {
  }

  /** A remainder is determined by any decomposition with a remainder in range. */
  lemma ModUnique(x: int, d: int, s: int, e: int)
    requires 0 <= e < d && x == d * s + e
    ensures x % d == e
  {
    var q, m := x / d, x % d;
    assert d * (q - s) == e - m;
    if q > s {
      AtLeastOnce(d, q - s);
    } else if q < s {
      AtLeastOnce(d, s - q);
    }
  }

  lemma AtLeastOnce(d: int, n: int)
    requires 0 < d && 1 <= n
    ensures d <= d * n
  {
  }
}
