/**
 * Vec3 of src/utility/vec3.h: a triple of reals used as point, direction and colour.
 *
 * The binary operators are functions on the `Vec3` value; the compound assignments that
 * update `e_` in place are methods of the class `MVec3`; the rejection-sampling loops take
 * their uniform draws as a sequence.
 */
module Vectors {

  import opened Elementary
  import opened RealArith
  import opened RtWeekend

  datatype Vec3 = Vec3(x: real, y: real, z: real)

  /** `Point3` and `Color` are the same type in the source. */
  type Point3 = Vec3
  type Color = Vec3

  const Zero: Vec3 := Vec3(0.0, 0.0, 0.0)

  /** `operator[]` read. */
  function Get(v: Vec3, i: int): real
    requires 0 <= i < 3
  {
    if i == 0 then v.x else if i == 1 then v.y else v.z
  }

  /** `v[i] = value`: component `i` replaced, the other two kept. */
  function With(v: Vec3, i: int, value: real): (w: Vec3)
    requires 0 <= i < 3
    ensures Get(w, i) == value
    ensures forall j :: 0 <= j < 3 && j != i ==> Get(w, j) == Get(v, j)
  {
    if i == 0 then v.(x := value) else if i == 1 then v.(y := value) else v.(z := value)
  }

  /** Unary `operator-`: the additive inverse, on either side. */
  function Neg(v: Vec3): (w: Vec3)
    ensures Add(v, w) == Zero && Add(w, v) == Zero
  {
    Vec3(-v.x, -v.y, -v.z)
  }

  function Add(u: Vec3, v: Vec3): Vec3 {
    Vec3(u.x + v.x, u.y + v.y, u.z + v.z)
  }

  /** Addition is commutative and `Neg` gives its inverse. */
  lemma AddFacts(u: Vec3, v: Vec3)
    ensures Add(u, v) == Add(v, u)
    ensures Add(u, Neg(u)) == Zero && Neg(Neg(u)) == u
    ensures Add(u, Zero) == u
  {
  }

  /** Binary `operator-`, the inverse of `Add`. */
  function Sub(u: Vec3, v: Vec3): (w: Vec3)
    ensures Add(w, v) == u
    ensures w == Add(u, Neg(v))
  {
    Vec3(u.x - v.x, u.y - v.y, u.z - v.z)
  }

  /** `u * v`: componentwise product (attenuation times colour). */
  function Mul(u: Vec3, v: Vec3): Vec3 {
    Vec3(u.x * v.x, u.y * v.y, u.z * v.z)
  }

  /** The componentwise product is commutative, with (1,1,1) as unit and zero as absorber. */
  lemma MulFacts(u: Vec3, v: Vec3)
    ensures Mul(u, v) == Mul(v, u)
    ensures Mul(u, Vec3(1.0, 1.0, 1.0)) == u
    ensures Mul(u, Zero) == Zero
  {
  }

  /** `t * v`. */
  function Scale(t: real, v: Vec3): (w: Vec3)
    ensures t == 1.0 ==> w == v
    ensures t == 0.0 || v == Zero ==> w == Zero
  {
    Vec3(t * v.x, t * v.y, t * v.z)
  }

  /** `v * t`, which the source defines as `t * v`: each component of `v` times `t`. */
  function ScaleRight(v: Vec3, t: real): (w: Vec3)
    ensures w == Vec3(v.x * t, v.y * t, v.z * t)
  {
    Scale(t, v)
  }

  /** `v / t`, defined as `(1 / t) * v`; undone by scaling back with `t`. */
  function Div(v: Vec3, t: real): (w: Vec3)
    requires t != 0.0
    ensures Scale(t, w) == v
  {
    var w := Scale(1.0 / t, v);
    assert t * (1.0 / t) == 1.0;
    assert t * (1.0 / t * v.x) == v.x && t * (1.0 / t * v.y) == v.y && t * (1.0 / t * v.z) == v.z;
    w
  }

  function Dot(u: Vec3, v: Vec3): real {
    u.x * v.x + u.y * v.y + u.z * v.z
  }

  /** `Dot` is symmetric. */
  lemma DotSymmetric(u: Vec3, v: Vec3)
    ensures Dot(u, v) == Dot(v, u)
  {
  }

  /** Negating one argument negates the dot product. */
  lemma DotNeg(u: Vec3, v: Vec3)
    ensures Dot(u, Neg(v)) == -Dot(u, v)
  {
    assert u.x * (-v.x) == -(u.x * v.x);
    assert u.y * (-v.y) == -(u.y * v.y);
    assert u.z * (-v.z) == -(u.z * v.z);
  }

  /** `cross(u, v)`: orthogonal to both arguments. */
  function Cross(u: Vec3, v: Vec3): (w: Vec3)
    ensures Dot(w, u) == 0.0 && Dot(w, v) == 0.0
  {
    Vec3(u.y * v.z - u.z * v.y, u.z * v.x - u.x * v.z, u.x * v.y - u.y * v.x)
  }

  /** `cross` is anti-commutative. */
  lemma CrossAntiCommutative(u: Vec3, v: Vec3)
    ensures Cross(v, u) == Neg(Cross(u, v))
  {
  }

  /** `LengthSquared()`: the dot product of a vector with itself, never negative. */
  function LengthSquared(v: Vec3): (s: real)
    ensures 0.0 <= s
    ensures s == Dot(v, v)
  {
    SquareNonNeg(v.x);
    SquareNonNeg(v.y);
    SquareNonNeg(v.z);
    v.x * v.x + v.y * v.y + v.z * v.z
  }

  /** Negation keeps the squared length. */
  lemma LengthSquaredNeg(v: Vec3)
    ensures LengthSquared(Neg(v)) == LengthSquared(v)
  {
    assert (-v.x) * (-v.x) == v.x * v.x;
    assert (-v.y) * (-v.y) == v.y * v.y;
    assert (-v.z) * (-v.z) == v.z * v.z;
  }

  /** `Length()`: the square root of `LengthSquared()`. */
  function Length(f: Funcs, v: Vec3): real {
    f.sqrt(LengthSquared(v))
  }

  /** The length is non-negative, squares to the squared length, and is zero only for zero. */
  lemma LengthFacts(f: Funcs, v: Vec3)
    requires Lawful(f)
    ensures 0.0 <= Length(f, v) && Length(f, v) * Length(f, v) == LengthSquared(v)
    ensures LengthSquared(v) != 0.0 ==> 0.0 < Length(f, v)
  {
    var s := LengthSquared(v);
    assert 0.0 <= f.sqrt(s) && f.sqrt(s) * f.sqrt(s) == s;
    if s != 0.0 {
      SqrtPositive(f, s);
    }
  }

  /** `NearZero()`: squared length below 1e-8, so every component is within 1e-4 of zero. */
  function NearZero(v: Vec3): (b: bool)
    ensures b <==> LengthSquared(v) < 0.00000001
    ensures v == Zero ==> b
    ensures b ==> -0.0001 < v.x < 0.0001 && -0.0001 < v.y < 0.0001 && -0.0001 < v.z < 0.0001
  {
    var b := LengthSquared(v) < 0.00000001;
    if b then
      SmallSquare(v.x, v.y * v.y + v.z * v.z);
      SmallSquare(v.y, v.x * v.x + v.z * v.z);
      SmallSquare(v.z, v.x * v.x + v.y * v.y);
      b
    else
      b
  }

  lemma SmallSquare(c: real, rest: real)
    requires 0.0 <= rest && c * c + rest < 0.00000001
    ensures -0.0001 < c < 0.0001
  {
    if c >= 0.0001 {
      SquareLe(0.0001, c);
    } else if c <= -0.0001 {
      SquareLe(0.0001, -c);
    }
  }

  /** `UnitVector(v) = v / v.Length()`: of length one. */
  function UnitVector(f: Funcs, v: Vec3): (u: Vec3)
    requires Length(f, v) != 0.0
    ensures Scale(Length(f, v), u) == v
  {
    Div(v, Length(f, v))
  }

  /** A non-zero vector divided by its length has length one. */
  lemma UnitVectorLength(f: Funcs, v: Vec3)
    requires Lawful(f) && LengthSquared(v) != 0.0
    ensures Length(f, v) != 0.0 && LengthSquared(UnitVector(f, v)) == 1.0
  {
    LengthFacts(f, v);
    UnitLength(v, Length(f, v));
  }

  lemma UnitLength(v: Vec3, len: real)
    requires len != 0.0 && len * len == LengthSquared(v)
    ensures LengthSquared(Div(v, len)) == 1.0
  {
    var k := 1.0 / len;
    assert k * len == 1.0;
    var u := Div(v, len);
    assert u == Vec3(k * v.x, k * v.y, k * v.z);
    calc {
      LengthSquared(u);
      (k * v.x) * (k * v.x) + (k * v.y) * (k * v.y) + (k * v.z) * (k * v.z);
      (k * k) * (v.x * v.x + v.y * v.y + v.z * v.z);
      (k * k) * (len * len);
      (k * len) * (k * len);
    }
  }

  /** `Reflect(v, n) = v - 2 * Dot(v, n) * n`. */
  function Reflect(v: Vec3, n: Vec3): (w: Vec3)
    ensures Dot(n, n) == 1.0 ==> Dot(w, n) == -Dot(v, n)
  {
    var w := Sub(v, Scale(2.0 * Dot(v, n), n));
    assert Dot(w, n) == Dot(v, n) - 2.0 * Dot(v, n) * Dot(n, n);
    w
  }

  /** Reflecting about a unit normal keeps the length and is undone by reflecting again. */
  lemma ReflectInvolution(v: Vec3, n: Vec3)
    requires Dot(n, n) == 1.0
    ensures Reflect(Reflect(v, n), n) == v
    ensures LengthSquared(Reflect(v, n)) == LengthSquared(v)
  {
    var d := Dot(v, n);
    var w := Reflect(v, n);
    assert Dot(w, n) == -d;
    assert 2.0 * Dot(w, n) == -(2.0 * d);
    UndoScale(v, n, 2.0 * d);
    ReflectLength(v, n, d);
  }

  /** Subtracting `t * n` and then `-t * n` gives back the vector. */
  lemma UndoScale(v: Vec3, n: Vec3, t: real)
    ensures Sub(Sub(v, Scale(t, n)), Scale(-t, n)) == v
  {
  }

  /** `|v - 2dn|^2 = |v|^2 - 4d(v . n) + 4d^2 |n|^2`, which is `|v|^2` when `d = v . n` and `n` is a unit. */
  lemma ReflectLength(v: Vec3, n: Vec3, d: real)
    requires Dot(n, n) == 1.0 && d == Dot(v, n)
    ensures LengthSquared(Vec3(v.x - (2.0 * d) * n.x, v.y - (2.0 * d) * n.y, v.z - (2.0 * d) * n.z)) == LengthSquared(v)
  {
    var t := 2.0 * d;
    ExpandSquare(v.x, n.x, t);
    ExpandSquare(v.y, n.y, t);
    ExpandSquare(v.z, n.z, t);
    calc {
      LengthSquared(Vec3(v.x - t * n.x, v.y - t * n.y, v.z - t * n.z));
      (v.x * v.x + v.y * v.y + v.z * v.z) - 2.0 * t * (v.x * n.x + v.y * n.y + v.z * n.z)
        + t * t * (n.x * n.x + n.y * n.y + n.z * n.z);
      Dot(v, v) - 2.0 * t * d + t * t * 1.0;
      { assert t * t == 2.0 * t * d; }
      Dot(v, v);
    }
  }

  /** `(a - tb)^2 = a^2 - 2tab + t^2 b^2`. */
  lemma ExpandSquare(a: real, b: real, t: real)
    ensures (a - t * b) * (a - t * b) == a * a - 2.0 * t * (a * b) + t * t * (b * b)
  {
  }

  /** `cos_theta = fmin(dot(-uv, n), 1.0)`. */
  function RefractCos(uv: Vec3, n: Vec3): (c: real)
    ensures c <= Dot(Neg(uv), n) && c <= 1.0 && (c == Dot(Neg(uv), n) || c == 1.0)
  {
    if Dot(Neg(uv), n) < 1.0 then Dot(Neg(uv), n) else 1.0
  }

  /** `r_out_parallel = etai_over_etat * (uv + cos_theta * n)`: the part of the ray along the surface. */
  function RefractTangent(uv: Vec3, n: Vec3, eta: real): Vec3 {
    Scale(eta, Add(uv, Scale(RefractCos(uv, n), n)))
  }

  /** `r_out_perp = -sqrt(fabs(1 - |r_out_parallel|^2)) * n`: the part along the normal. */
  function RefractNormal(f: Funcs, tangent: Vec3, n: Vec3): Vec3 {
    Scale(-f.sqrt(Abs(1.0 - LengthSquared(tangent))), n)
  }

  /** `refract(uv, n, etai_over_etat)`: the tangential part plus the normal part. */
  function Refract(f: Funcs, uv: Vec3, n: Vec3, eta: real): Vec3 {
    var tangent := RefractTangent(uv, n, eta);
    Add(tangent, RefractNormal(f, tangent, n))
  }

  /**
   * For a unit normal and an incoming direction at most a unit step against it, the
   * tangential part is orthogonal to the normal (Snell's construction).
   */
  lemma RefractTangentOrthogonal(uv: Vec3, n: Vec3, eta: real)
    requires Dot(n, n) == 1.0 && Dot(Neg(uv), n) <= 1.0
    ensures Dot(RefractTangent(uv, n, eta), n) == 0.0
  {
    var c := Dot(Neg(uv), n);
    assert RefractCos(uv, n) == c;
    var w := Add(uv, Scale(c, n));
    assert Dot(w, n) == Dot(uv, n) + c * Dot(n, n);
    assert Dot(Scale(eta, w), n) == eta * Dot(w, n);
  }

  /** A ray meeting the surface head-on leaves unbent, whatever the index ratio. */
  lemma RefractHeadOn(f: Funcs, n: Vec3, eta: real)
    requires Lawful(f) && Dot(n, n) == 1.0
    ensures Refract(f, Neg(n), n, eta) == Neg(n)
  {
    HeadOnTangent(n, eta);
    var one := Abs(1.0 - LengthSquared(Zero));
    assert one == 1.0;
    SqrtOfSquare(f, 1.0);
    assert f.sqrt(one) == 1.0;
    assert RefractNormal(f, Zero, n) == Scale(-1.0, n);
    assert Add(Zero, Scale(-1.0, n)) == Neg(n);
  }

  /** Head-on, `cos_theta` is one and the tangential part vanishes. */
  lemma HeadOnTangent(n: Vec3, eta: real)
    requires Dot(n, n) == 1.0
    ensures RefractTangent(Neg(n), n, eta) == Zero
  {
    var m := Neg(n);
    assert m == Vec3(-n.x, -n.y, -n.z);
    assert Dot(Neg(m), n) == 1.0;
    assert RefractCos(m, n) == 1.0;
    assert Add(m, Scale(1.0, n)) == Zero;
  }

  /** `fabs`. */
  function Abs(x: real): (a: real)
    ensures 0.0 <= a && (a == x || a == -x)
  {
    if x < 0.0 then -x else x
  }

  /** Each component of `draw` lies in [0, 1), as `RandomDouble()` returns it. */
  predicate UnitDraw(draw: Vec3) {
    0.0 <= draw.x < 1.0 && 0.0 <= draw.y < 1.0 && 0.0 <= draw.z < 1.0
  }

  /**
   * `Vec3::Random(min, max)` for three draws: with draws in [0, 1) every component lies in
   * [min, max], and below `max` when the range is not empty.
   */
  function RandomVec(min: real, max: real, draw: Vec3): (v: Vec3)
    ensures min <= max && UnitDraw(draw) ==> min <= v.x <= max && min <= v.y <= max && min <= v.z <= max
    ensures min < max && UnitDraw(draw) ==> v.x < max && v.y < max && v.z < max
  {
    if min <= max && UnitDraw(draw) then
      RandomDoubleRange(min, max, draw.x);
      RandomDoubleRange(min, max, draw.y);
      RandomDoubleRange(min, max, draw.z);
      Vec3(RandomDouble(min, max, draw.x), RandomDouble(min, max, draw.y), RandomDouble(min, max, draw.z))
    else
      Vec3(RandomDouble(min, max, draw.x), RandomDouble(min, max, draw.y), RandomDouble(min, max, draw.z))
  }

  /** The candidate that `RandomInUnitSphere` tries for one triple of draws. */
  function SphereCandidate(draw: Vec3): Vec3 {
    RandomVec(-1.0, 1.0, draw)
  }

  /** The candidate that `RandomInUnitDisk` tries for one pair of draws. */
  function DiskCandidate(draw: (real, real)): Vec3 {
    Vec3(RandomDouble(-1.0, 1.0, draw.0), RandomDouble(-1.0, 1.0, draw.1), 0.0)
  }

  /**
   * `RandomInUnitSphere`: rejects candidates until one has squared length below one.
   * The supply of draws is finite here; `found` is false when it runs out.
   */
  method RandomInUnitSphere(draws: seq<Vec3>) returns (found: bool, p: Vec3, used: nat)
    ensures used <= |draws|
    ensures found ==> 0 < used && p == SphereCandidate(draws[used - 1]) && LengthSquared(p) < 1.0
    ensures !found ==> used == |draws|
    ensures forall k :: 0 <= k < used - (if found then 1 else 0) ==> 1.0 <= LengthSquared(SphereCandidate(draws[k]))
  {
    var i := 0;
    while i < |draws|
      invariant 0 <= i <= |draws|
      invariant forall k :: 0 <= k < i ==> 1.0 <= LengthSquared(SphereCandidate(draws[k]))
    {
      var candidate := SphereCandidate(draws[i]);
      i := i + 1;
      if LengthSquared(candidate) >= 1.0 {
        continue;
      }
      return true, candidate, i;
    }
    return false, Zero, i;
  }

  /** `RandomInUnitDisk`: the same rejection loop with z fixed to zero. */
  method RandomInUnitDisk(draws: seq<(real, real)>) returns (found: bool, p: Vec3, used: nat)
    ensures used <= |draws|
    ensures found ==> 0 < used && p == DiskCandidate(draws[used - 1]) && p.z == 0.0 && LengthSquared(p) < 1.0
    ensures !found ==> used == |draws|
    ensures forall k :: 0 <= k < used - (if found then 1 else 0) ==> 1.0 <= LengthSquared(DiskCandidate(draws[k]))
  {
    var i := 0;
    while i < |draws|
      invariant 0 <= i <= |draws|
      invariant forall k :: 0 <= k < i ==> 1.0 <= LengthSquared(DiskCandidate(draws[k]))
    {
      var candidate := DiskCandidate(draws[i]);
      i := i + 1;
      if LengthSquared(candidate) >= 1.0 {
        continue;
      }
      return true, candidate, i;
    }
    return false, Zero, i;
  }

  /** A `Vec3` whose components `e_` are updated in place by the compound assignments. */
  class MVec3 {
    var e0: real
    var e1: real
    var e2: real

    function Value(): Vec3
      reads this
    {
      Vec3(e0, e1, e2)
    }

    constructor (v: Vec3)
      ensures Value() == v
    {
      e0, e1, e2 := v.x, v.y, v.z;
    }

    /** `operator+=`: the same components as binary `+`. */
    method AddAssign(v: Vec3)
      modifies this
      ensures Value() == Add(old(Value()), v)
    {
      e0 := e0 + v.x;
      e1 := e1 + v.y;
      e2 := e2 + v.z;
    }

    /** `operator*=`: the same components as scalar `*`. */
    method MulAssign(t: real)
      modifies this
      ensures Value() == Scale(t, old(Value()))
    {
      e0 := e0 * t;
      e1 := e1 * t;
      e2 := e2 * t;
    }

    /** `operator/=`, written as `*= 1 / t`: the same components as `/`. */
    method DivAssign(t: real)
      requires t != 0.0
      modifies this
      ensures Value() == Div(old(Value()), t)
    {
      MulAssign(1.0 / t);
    }

    /** `operator[]` write. */
    method SetAt(i: int, value: real)
      requires 0 <= i < 3
      modifies this
      ensures Value() == With(old(Value()), i, value)
    {
      if i == 0 { e0 := value; } else if i == 1 { e1 := value; } else { e2 := value; }
    }
  }
}
