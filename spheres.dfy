/**
 * The sphere and the moving sphere of src/object/sphere.h and src/object/moving_sphere.h:
 * root selection of the ray/sphere quadratic, the record written on success, and the boxes.
 *
 * `GetSphereUV` (acos/atan2 of the outward normal) is supplied by the caller as `uv`.
 */
module Spheres {

  import opened RealArith
  import opened Elementary
  import opened RtWeekend
  import opened Vectors
  import opened Rays
  import opened Boxes
  import opened Records

  datatype Option<T> = None | Some(value: T)

  /** The quadratic `a t^2 + b t + c` whose roots are where `r` meets the sphere. */
  datatype Quadratic = Quadratic(a: real, b: real, c: real)

  function SphereQuadratic(center: Point3, radius: real, r: Ray): Quadratic {
    var oc := Sub(r.origin, center);
    Quadratic(LengthSquared(r.direction), 2.0 * Dot(oc, r.direction), LengthSquared(oc) - radius * radius)
  }

  function Discriminant(q: Quadratic): real {
    q.b * q.b - 4.0 * q.a * q.c
  }

  predicate InRange(t: real, tMin: real, tMax: real) {
    !(t < tMin || t > tMax)
  }

  /** The nearer root `(-b - sqrt_d) / 2a` and the farther one `(-b + sqrt_d) / 2a`. */
  function NearRoot(f: Funcs, q: Quadratic): real
    requires q.a != 0.0
  {
    (-q.b - f.sqrt(Discriminant(q))) / (2.0 * q.a)
  }

  function FarRoot(f: Funcs, q: Quadratic): real
    requires q.a != 0.0
  {
    (-q.b + f.sqrt(Discriminant(q))) / (2.0 * q.a)
  }

  /**
   * Root selection of `Sphere::Hit`: nothing when the discriminant is negative; the nearer root
   * when it lies in `[t_min, t_max]`; otherwise the farther root when that one does.
   */
  function ChosenRoot(f: Funcs, q: Quadratic, tMin: real, tMax: real): (root: Option<real>)
    requires q.a != 0.0
    ensures Discriminant(q) < 0.0 ==> root == None
    ensures root.Some? ==> tMin <= root.value <= tMax
    ensures root.Some? && InRange(NearRoot(f, q), tMin, tMax) ==> root.value == NearRoot(f, q)
    ensures root.Some? && !InRange(NearRoot(f, q), tMin, tMax) ==> root.value == FarRoot(f, q)
    ensures root == None <==>
              Discriminant(q) < 0.0 || (!InRange(NearRoot(f, q), tMin, tMax) && !InRange(FarRoot(f, q), tMin, tMax))
  {
    if Discriminant(q) >= 0.0 then
      if InRange(NearRoot(f, q), tMin, tMax) then Some(NearRoot(f, q))
      else if InRange(FarRoot(f, q), tMin, tMax) then Some(FarRoot(f, q))
      else None
    else None
  }

  /** With a lawful square root, the nearer root is never after the farther one (for a > 0). */
  lemma NearRootFirst(f: Funcs, q: Quadratic)
    requires Lawful(f) && 0.0 < q.a && 0.0 <= Discriminant(q)
    ensures NearRoot(f, q) <= FarRoot(f, q)
  {
    var s := f.sqrt(Discriminant(q));
    assert 0.0 <= s;
    var d := 2.0 * q.a;
    DivLeDiv(-q.b - s, -q.b + s, d);
  }

  lemma DivLeDiv(x: real, y: real, d: real)
    requires x <= y && 0.0 < d
    ensures x / d <= y / d
  {
  }

  /** The record a sphere writes for the root `t`: t, p, the oriented normal, u/v, material. */
  function SphereRecord<M>(uv: Vec3 -> (real, real), center: Point3, radius: real, material: M,
                           r: Ray, t: real, rec: Record<M>): (out: Record<M>)
    requires radius != 0.0
    ensures out.t == t && out.p == At(r, t) && out.material == material
    ensures out == WithFaceNormal(rec.(t := t, p := At(r, t)), r, Div(Sub(At(r, t), center), radius))
                     .(u := uv(Div(Sub(At(r, t), center), radius)).0,
                       v := uv(Div(Sub(At(r, t), center), radius)).1,
                       material := material)
  {
    var written := rec.(t := t, p := At(r, t));
    var outward := Div(Sub(written.p, center), radius);
    var oriented := WithFaceNormal(written, r, outward);
    var (u, v) := uv(outward);
    oriented.(u := u, v := v, material := material)
  }

  /**
   * `Sphere::Hit`: on success the record holds the chosen root, the point `r.At(t)`, the face
   * normal from `(p - center) / radius`, u/v and material; on failure `rec` is returned as is.
   */
  function SphereHit<M>(f: Funcs, uv: Vec3 -> (real, real), center: Point3, radius: real, material: M,
                        r: Ray, tMin: real, tMax: real, rec: Record<M>): (res: (bool, Record<M>))
    requires LengthSquared(r.direction) != 0.0 && radius != 0.0
    ensures !res.0 ==> res.1 == rec
    ensures res.0 ==> tMin <= res.1.t <= tMax && res.1.p == At(r, res.1.t) && res.1.material == material
    ensures res.0 <==> ChosenRoot(f, SphereQuadratic(center, radius, r), tMin, tMax).Some?
    ensures Discriminant(SphereQuadratic(center, radius, r)) < 0.0 ==> !res.0
    ensures res.0 ==>
              res.1 == SphereRecord(uv, center, radius, material, r,
                                    ChosenRoot(f, SphereQuadratic(center, radius, r), tMin, tMax).value, rec)
  {
    match ChosenRoot(f, SphereQuadratic(center, radius, r), tMin, tMax)
    case None => (false, rec)
    case Some(t) => (true, SphereRecord(uv, center, radius, material, r, t, rec))
  }

  /** `Sphere::BoundingBox`: the cube `center -/+ (radius, radius, radius)`, always available. */
  function SphereBox(center: Point3, radius: real): (box: Aabb)
    ensures Sub(center, box.minimum) == Vec3(radius, radius, radius)
    ensures Sub(box.maximum, center) == Vec3(radius, radius, radius)
    ensures radius >= 0.0 ==> Contains(box, center)
    ensures Sub(box.maximum, box.minimum) == Scale(2.0, Vec3(radius, radius, radius))
  {
    var rv := Vec3(radius, radius, radius);
    Aabb(Sub(center, rv), Add(center, rv))
  }

  /** Every point of the ball (the sphere and its inside) lies in the sphere's box. */
  lemma BallInSphereBox(center: Point3, radius: real, p: Point3)
    requires 0.0 <= radius && LengthSquared(Sub(p, center)) <= radius * radius
    ensures Contains(SphereBox(center, radius), p)
  {
    var d := Sub(p, center);
    var (xx, yy, zz) := (d.x * d.x, d.y * d.y, d.z * d.z);
    assert LengthSquared(d) == xx + yy + zz;
    SquareNonNeg(d.x);
    SquareNonNeg(d.y);
    SquareNonNeg(d.z);
    assert xx <= radius * radius && yy <= radius * radius && zz <= radius * radius;
    WithinRadius(d.x, radius);
    WithinRadius(d.y, radius);
    WithinRadius(d.z, radius);
  }

  /** A number whose square is at most `r * r`, for `r >= 0`, lies in [-r, r]. */
  lemma WithinRadius(x: real, r: real)
    requires 0.0 <= r && x * x <= r * r
    ensures -r <= x <= r
  {
    if r < x {
      SquareLt(r, x);
    } else if x < -r {
      SquareLt(r, -x);
    }
  }

  /** `MovingSphere::Center(time)`: linear interpolation between the two centers. */
  function Center(center0: Point3, center1: Point3, time0: real, time1: real, time: real): Point3
    requires time0 != time1
  {
    Add(center0, Scale((time - time0) / (time1 - time0), Sub(center1, center0)))
  }

  /** The center is `center0_` at `time0_`, `center1_` at `time1_`, and halfway in between at the middle time. */
  lemma CenterEndpoints(center0: Point3, center1: Point3, time0: real, time1: real)
    requires time0 != time1
    ensures Center(center0, center1, time0, time1, time0) == center0
    ensures Center(center0, center1, time0, time1, time1) == center1
    ensures Center(center0, center1, time0, time1, (time0 + time1) / 2.0)
              == Scale(0.5, Add(center0, center1))
  {
    var d := time1 - time0;
    assert (time0 - time0) / d == 0.0;
    assert (time1 - time0) / d == 1.0;
    assert ((time0 + time1) / 2.0 - time0) / d == 0.5;
  }

  /**
   * `MovingSphere::Hit`: the sphere hit against `Center(r.Time())`; the same record as a
   * sphere except that u and v are not written.
   */
  function MovingSphereHit<M>(f: Funcs, center0: Point3, center1: Point3, time0: real, time1: real,
                              radius: real, material: M, r: Ray, tMin: real, tMax: real,
                              rec: Record<M>): (res: (bool, Record<M>))
    requires time0 != time1 && LengthSquared(r.direction) != 0.0 && radius != 0.0
    ensures !res.0 ==> res.1 == rec
    ensures res.0 ==> tMin <= res.1.t <= tMax && res.1.p == At(r, res.1.t) && res.1.material == material
    ensures res.0 ==> res.1.u == rec.u && res.1.v == rec.v
    ensures res.0 ==> res.1 == SphereRecord((_ => (rec.u, rec.v)), Center(center0, center1, time0, time1, r.time),
                                            radius, material, r, res.1.t, rec)
    ensures res.0 <==>
              ChosenRoot(f, SphereQuadratic(Center(center0, center1, time0, time1, r.time), radius, r), tMin, tMax).Some?
    ensures res.0 ==>
              res.1.t == ChosenRoot(f, SphereQuadratic(Center(center0, center1, time0, time1, r.time), radius, r),
                                    tMin, tMax).value
  {
    var center := Center(center0, center1, time0, time1, r.time);
    match ChosenRoot(f, SphereQuadratic(center, radius, r), tMin, tMax)
    case None => (false, rec)
    case Some(t) =>
      var written := rec.(t := t, p := At(r, t));
      var outward := Div(Sub(written.p, center), radius);
      (true, WithFaceNormal(written, r, outward).(material := material))
  }

  /**
   * `MovingSphere::BoundingBox(time0, time1)`: the union of the radius boxes at the two
   * queried times, so it encloses both and is the least box that does; always available.
   */
  function MovingSphereBox(center0: Point3, center1: Point3, time0: real, time1: real, radius: real,
                           t0: real, t1: real): (box: Aabb)
    requires time0 != time1
    ensures Encloses(box, SphereBox(Center(center0, center1, time0, time1, t0), radius))
    ensures Encloses(box, SphereBox(Center(center0, center1, time0, time1, t1), radius))
    ensures forall b :: Encloses(b, SphereBox(Center(center0, center1, time0, time1, t0), radius))
                        && Encloses(b, SphereBox(Center(center0, center1, time0, time1, t1), radius))
                        ==> Encloses(b, box)
  {
    SurroundingBox(SphereBox(Center(center0, center1, time0, time1, t0), radius),
                   SphereBox(Center(center0, center1, time0, time1, t1), radius))
  }
}
