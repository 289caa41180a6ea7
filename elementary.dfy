/**
 * The elementary functions the renderer takes from <cmath>.
 *
 * They are not defined here: every operation that needs them receives a `Funcs` value,
 * and `Lawful` lists the only facts the proofs rely on.
 */
module Elementary {

  import opened RealArith

  /** `std::sqrt`, `std::sin` and `std::cos`, supplied by the caller. */
  datatype Funcs = Funcs(sqrt: real -> real, sin: real -> real, cos: real -> real)

  /** The facts about the elementary functions that the model may use. */
  ghost predicate Lawful(f: Funcs) {
    && (forall x :: 0.0 <= x ==> 0.0 <= f.sqrt(x) && f.sqrt(x) * f.sqrt(x) == x)
    && (forall x :: -1.0 <= f.sin(x) <= 1.0)
    && (forall x :: f.sin(x) * f.sin(x) + f.cos(x) * f.cos(x) == 1.0)
  }

  /** The square root of a square is the (non-negative) base. */
  lemma SqrtOfSquare(f: Funcs, x: real)
    requires Lawful(f) && 0.0 <= x
    ensures f.sqrt(x * x) == x
  {
    var s := f.sqrt(x * x);
    assert 0.0 <= s && s * s == x * x;
    if s < x {
      SquareLt(s, x);
    } else if s > x {
      SquareLt(x, s);
    }
  }

  /** The square root is monotone on the non-negative reals. */
  lemma SqrtMonotone(f: Funcs, x: real, y: real)
    requires Lawful(f) && 0.0 <= x <= y
    ensures f.sqrt(x) <= f.sqrt(y)
  {
    var a, b := f.sqrt(x), f.sqrt(y);
    assert 0.0 <= a && a * a == x;
    assert 0.0 <= b && b * b == y;
    if a > b {
      SquareLt(b, a);
    }
  }

  /** The square root of a positive number is positive. */
  lemma SqrtPositive(f: Funcs, x: real)
    requires Lawful(f) && 0.0 < x
    ensures 0.0 < f.sqrt(x)
  {
    assert f.sqrt(x) * f.sqrt(x) == x;
  }

  /** `sin^2 + cos^2 = 1`, at one point. */
  lemma Pythagoras(f: Funcs, x: real)
    requires Lawful(f)
    ensures f.sin(x) * f.sin(x) + f.cos(x) * f.cos(x) == 1.0
  {
  }

  /** The cosine lies in [-1, 1] as well. */
  lemma CosBounded(f: Funcs, x: real)
    requires Lawful(f)
    ensures -1.0 <= f.cos(x) <= 1.0
  {
    var s, c := f.sin(x), f.cos(x);
    assert s * s + c * c == 1.0;
    assert 0.0 <= s * s;
    if c > 1.0 {
      SquareLt(1.0, c);
    } else if c < -1.0 {
      SquareLt(1.0, -c);
    }
  }
}
