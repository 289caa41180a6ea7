/**
 * The axis-aligned rectangles of src/object/aa_rectangle.h.
 *
 * Only the rectangle in the plane z = k is defined there; the rectangles in the planes
 * y = k and x = k that a box also uses are described by the same corner data, and their
 * intersection and box come from the caller (see `Scene.Env`).
 */
module Rectangles {

  import opened Vectors
  import opened Rays
  import opened Boxes
  import opened Records

  datatype Plane = XY | XZ | YZ

  /**
   * A rectangle `[a0, a1] x [b0, b1]` in the plane where the remaining coordinate is `k`:
   * x/y at z = k for `XY`, x/z at y = k for `XZ`, y/z at x = k for `YZ`.
   */
  datatype Rect<M> = Rect(plane: Plane, a0: real, a1: real, b0: real, b1: real, k: real, material: M)

  /** What `XyRectangle::Hit` needs to avoid its divisions by zero. */
  predicate XyDefined<M>(rect: Rect<M>, r: Ray) {
    r.direction.z != 0.0 && rect.a0 != rect.a1 && rect.b0 != rect.b1
  }

  /** The plane parameter `(k - origin.z) / direction.z` where the ray meets z = k. */
  function PlaneT<M>(rect: Rect<M>, r: Ray): real
    requires r.direction.z != 0.0
  {
    (rect.k - r.origin.z) / r.direction.z
  }

  /** Where x lies between lo and hi, as a fraction of the way: `(x - x0) / (x1 - x0)`. */
  function Fraction(x: real, lo: real, hi: real): real
    requires lo != hi
  {
    (x - lo) / (hi - lo)
  }

  /** The record `XyRectangle::Hit` writes for the plane parameter t: u, v, t, normal, material, p. */
  function XyRecord<M>(rect: Rect<M>, r: Ray, t: real, rec: Record<M>): (out: Record<M>)
    requires rect.a0 != rect.a1 && rect.b0 != rect.b1
    ensures out.t == t && out.p == At(r, t) && out.material == rect.material
    ensures out.u == Fraction(out.p.x, rect.a0, rect.a1) && out.v == Fraction(out.p.y, rect.b0, rect.b1)
    ensures out.normal == WithFaceNormal(rec, r, Vec3(0.0, 0.0, 1.0)).normal
    ensures out.frontFace == WithFaceNormal(rec, r, Vec3(0.0, 0.0, 1.0)).frontFace
  {
    var p := At(r, t);
    var written := rec.(u := Fraction(p.x, rect.a0, rect.a1), v := Fraction(p.y, rect.b0, rect.b1), t := t);
    WithFaceNormal(written, r, Vec3(0.0, 0.0, 1.0)).(material := rect.material, p := p)
  }

  /**
   * `XyRectangle::Hit`: false (record untouched) when t is outside `[t_min, t_max]` or the
   * point is outside the rectangle; otherwise the record of `XyRecord` is written.
   */
  function XyHit<M>(rect: Rect<M>, r: Ray, tMin: real, tMax: real, rec: Record<M>): (res: (bool, Record<M>))
    requires XyDefined(rect, r)
    ensures !res.0 ==> res.1 == rec
    ensures res.0 <==> tMin <= PlaneT(rect, r) <= tMax
                       && rect.a0 <= At(r, PlaneT(rect, r)).x <= rect.a1
                       && rect.b0 <= At(r, PlaneT(rect, r)).y <= rect.b1
    ensures res.0 ==> res.1 == XyRecord(rect, r, PlaneT(rect, r), rec)
  {
    var t := PlaneT(rect, r);
    if t < tMin || t > tMax then (false, rec)
    else
      // `origin.x + t * direction.x` and `origin.y + t * direction.y` are the x and y of `r.At(t)`
      var p := At(r, t);
      if p.x < rect.a0 || p.x > rect.a1 || p.y < rect.b0 || p.y > rect.b1 then (false, rec)
      else (true, XyRecord(rect, r, t, rec))
  }

  /** The hit point lies on the plane z = k, and u, v lie in [0, 1] for a rectangle with a0 < a1, b0 < b1. */
  lemma XyHitOnRectangle<M>(rect: Rect<M>, r: Ray, tMin: real, tMax: real, rec: Record<M>)
    requires XyDefined(rect, r)
    requires XyHit(rect, r, tMin, tMax, rec).0
    ensures XyHit(rect, r, tMin, tMax, rec).1.p.z == rect.k
    ensures rect.a0 < rect.a1 ==> 0.0 <= XyHit(rect, r, tMin, tMax, rec).1.u <= 1.0
    ensures rect.b0 < rect.b1 ==> 0.0 <= XyHit(rect, r, tMin, tMax, rec).1.v <= 1.0
  {
    var out := XyHit(rect, r, tMin, tMax, rec).1;
    var t := PlaneT(rect, r);
    assert t * r.direction.z == rect.k - r.origin.z;
    if rect.a0 < rect.a1 {
      UnitFraction(out.p.x, rect.a0, rect.a1);
    }
    if rect.b0 < rect.b1 {
      UnitFraction(out.p.y, rect.b0, rect.b1);
    }
  }

  lemma UnitFraction(x: real, lo: real, hi: real)
    requires lo <= x <= hi && lo < hi
    ensures 0.0 <= Fraction(x, lo, hi) <= 1.0
  {
    var d := hi - lo;
    assert 0.0 <= (x - lo) / d;
    assert (x - lo) / d <= d / d;
  }

  /** `XyRectangle::BoundingBox`: `[x0, x1] x [y0, y1]`, padded to `[k - 0.0001, k + 0.0001]` in z. */
  function XyBox<M>(rect: Rect<M>): (box: Aabb)
    ensures box.minimum.x == rect.a0 && box.maximum.x == rect.a1
    ensures box.minimum.y == rect.b0 && box.maximum.y == rect.b1
    ensures box.minimum.z == rect.k - 0.0001 && box.maximum.z == rect.k + 0.0001
    ensures box.minimum.z < rect.k < box.maximum.z
    ensures box.maximum.z - box.minimum.z == 0.0002
  {
    Aabb(Vec3(rect.a0, rect.b0, rect.k - 0.0001), Vec3(rect.a1, rect.b1, rect.k + 0.0001))
  }
}
