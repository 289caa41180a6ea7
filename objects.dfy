/**
 * The objects as the C++ code runs them: `Hit` writes field by field into a `HitRecord`
 * object, lists loop over their children with a scratch record, and `BoundingBox` folds
 * into an output box. Each method is proved to leave exactly what `Scene.Hit` and
 * `Scene.BoundingBox` describe.
 */
module Objects {

  import opened Vectors
  import opened Rays
  import Boxes
  import opened Records
  import opened Spheres
  import opened Rectangles
  import opened Scene

  /** Virtual `Hit`: dispatches on the kind of object and writes into `rec` as the subclass does. */
  method HitInto<M>(env: Env<M>, h: Hittable<M>, r: Ray, tMin: real, tMax: real, rec: HitRecord<M>) returns (hit: bool)
    requires Admissible(h, r)
    modifies rec
    ensures (hit, rec.Value()) == Scene.Hit(env, h, r, tMin, tMax, old(rec.Value()))
    decreases h, 2
  {
    match h
    case Sphere(center, radius, material) =>
      hit := SphereInto(env, center, radius, material, r, tMin, tMax, rec);
    case MovingSphere(center0, center1, time0, time1, radius, material) =>
      hit := MovingSphereInto(env, center0, center1, time0, time1, radius, material, r, tMin, tMax, rec);
    case Rectangle(rect) =>
      if rect.plane == XY {
        hit := XyInto(rect, r, tMin, tMax, rec);
      } else {
        var res := env.rectHit(rect, r, tMin, tMax, rec.Value());
        rec.Assign(res.1);
        hit := res.0;
      }
    case List(_) =>
      hit := ScanInto(env, h, r, tMin, tMax, rec);
    case BvhNode(_, _, _) =>
      hit := BvhInto(env, h, r, tMin, tMax, rec);
    case Translate(_, _) =>
      hit := TranslateInto(env, h, r, tMin, tMax, rec);
    case RotateY(_, _, _, _, _) =>
      hit := RotateYInto(env, h, r, tMin, tMax, rec);
    case Box(_, _, _) =>
      hit := ScanInto(env, h, r, tMin, tMax, rec);
  }

  /** `BvhNode::Hit`: the slab test, then the left child, then the right child up to the left hit. */
  method BvhInto<M>(env: Env<M>, h: Hittable<M>, r: Ray, tMin: real, tMax: real, rec: HitRecord<M>) returns (hit: bool)
    requires h.BvhNode? && Admissible(h, r)
    modifies rec
    ensures (hit, rec.Value()) == Scene.Hit(env, h, r, tMin, tMax, old(rec.Value()))
    decreases h, 1
  {
    var boxHit := Boxes.Hit(h.box, r, tMin, tMax);
    if !boxHit {
      return false;
    }
    var hitLeft := HitInto(env, h.left, r, tMin, tMax, rec);
    var hitRight := HitInto(env, h.right, r, tMin, if hitLeft then rec.t else tMax, rec);
    hit := hitLeft || hitRight;
  }

  /** `Translate::Hit`: the child against the moved ray, then `p += offset` and `SetFaceNormal(moved_r, normal)`. */
  method TranslateInto<M>(env: Env<M>, h: Hittable<M>, r: Ray, tMin: real, tMax: real, rec: HitRecord<M>) returns (hit: bool)
    requires h.Translate? && Admissible(h, r)
    modifies rec
    ensures (hit, rec.Value()) == Scene.Hit(env, h, r, tMin, tMax, old(rec.Value()))
    decreases h, 1
  {
    var moved := Ray(Sub(r.origin, h.offset), r.direction, r.time);
    hit := HitInto(env, h.child, moved, tMin, tMax, rec);
    if !hit {
      return false;
    }
    rec.p := Add(rec.p, h.offset);
    rec.SetFaceNormal(moved, rec.normal);
  }

  /**
   * `RotateY::Hit`: x and z of copies of origin and direction are rotated, the child is asked,
   * and x and z of copies of p and normal are rotated back before they are written.
   */
  method RotateYInto<M>(env: Env<M>, h: Hittable<M>, r: Ray, tMin: real, tMax: real, rec: HitRecord<M>) returns (hit: bool)
    requires h.RotateY? && Admissible(h, r)
    modifies rec
    ensures (hit, rec.Value()) == Scene.Hit(env, h, r, tMin, tMax, old(rec.Value()))
    decreases h, 1
  {
    var s, c := h.sinTheta, h.cosTheta;
    var origin := r.origin;
    var direction := r.direction;
    origin := origin.(x := c * r.origin.x - s * r.origin.z);
    origin := origin.(z := s * r.origin.x + c * r.origin.z);
    direction := direction.(x := c * r.direction.x - s * r.direction.z);
    direction := direction.(z := s * r.direction.x + c * r.direction.z);
    var rotated := Ray(origin, direction, r.time);
    assert rotated == RotatedRay(r, s, c);
    hit := HitInto(env, h.child, rotated, tMin, tMax, rec);
    if !hit {
      return false;
    }
    var p := rec.p;
    var normal := rec.normal;
    p := p.(x := c * rec.p.x + s * rec.p.z);
    p := p.(z := -s * rec.p.x + c * rec.p.z);
    normal := normal.(x := c * rec.normal.x + s * rec.normal.z);
    normal := normal.(z := -s * rec.normal.x + c * rec.normal.z);
    assert p == RotateOut(s, c, rec.p) && normal == RotateOut(s, c, rec.normal);
    rec.p := p;
    rec.SetFaceNormal(rotated, normal);
  }

  /** `Sphere::Hit`, statement by statement. */
  method SphereInto<M>(env: Env<M>, center: Point3, radius: real, material: M,
                       r: Ray, tMin: real, tMax: real, rec: HitRecord<M>) returns (hit: bool)
    requires LengthSquared(r.direction) != 0.0 && radius != 0.0
    modifies rec
    ensures (hit, rec.Value()) == SphereHit(env.f, env.sphereUV, center, radius, material, r, tMin, tMax, old(rec.Value()))
  {
    var q := SphereQuadratic(center, radius, r);
    var discriminant := Discriminant(q);
    if discriminant >= 0.0 {
      // `(-b - sqrt_d) / (2 * a)`, then `(-b + sqrt_d) / (2 * a)`
      var root := NearRoot(env.f, q);
      if root < tMin || root > tMax {
        root := FarRoot(env.f, q);
        if root < tMin || root > tMax {
          return false;
        }
      }
      rec.t := root;
      rec.p := At(r, root);
      var outward := Div(Sub(rec.p, center), radius);
      rec.SetFaceNormal(r, outward);
      var uv := env.sphereUV(outward);
      rec.u, rec.v := uv.0, uv.1;
      rec.material := material;
      return true;
    }
    return false;
  }

  /** `MovingSphere::Hit`, statement by statement: as a sphere at `Center(r.Time())`, without u and v. */
  method MovingSphereInto<M>(env: Env<M>, center0: Point3, center1: Point3, time0: real, time1: real,
                             radius: real, material: M, r: Ray, tMin: real, tMax: real, rec: HitRecord<M>)
    returns (hit: bool)
    requires time0 != time1 && LengthSquared(r.direction) != 0.0 && radius != 0.0
    modifies rec
    ensures (hit, rec.Value()) == MovingSphereHit(env.f, center0, center1, time0, time1, radius, material,
                                                  r, tMin, tMax, old(rec.Value()))
  {
    var center := Center(center0, center1, time0, time1, r.time);
    var q := SphereQuadratic(center, radius, r);
    var discriminant := Discriminant(q);
    if discriminant >= 0.0 {
      // `(-b - sqrt_d) / (2 * a)`, then `(-b + sqrt_d) / (2 * a)`
      var root := NearRoot(env.f, q);
      if root < tMin || root > tMax {
        root := FarRoot(env.f, q);
        if root < tMin || root > tMax {
          return false;
        }
      }
      rec.t := root;
      rec.p := At(r, root);
      var outward := Div(Sub(rec.p, center), radius);
      rec.SetFaceNormal(r, outward);
      rec.material := material;
      return true;
    }
    return false;
  }

  /** `XyRectangle::Hit`, statement by statement. */
  method XyInto<M>(rect: Rect<M>, r: Ray, tMin: real, tMax: real, rec: HitRecord<M>) returns (hit: bool)
    requires XyDefined(rect, r)
    modifies rec
    ensures (hit, rec.Value()) == XyHit(rect, r, tMin, tMax, old(rec.Value()))
  {
    var t := PlaneT(rect, r);
    if t < tMin || t > tMax {
      return false;
    }
    // `origin + t * direction`, of which the x and y components are compared with the rectangle
    var p := At(r, t);
    if p.x < rect.a0 || p.x > rect.a1 || p.y < rect.b0 || p.y > rect.b1 {
      return false;
    }
    ghost var before := rec.Value();
    assert XyHit(rect, r, tMin, tMax, before).0;
    assert XyHit(rect, r, tMin, tMax, before).1 == XyRecord(rect, r, t, before);
    WriteXy(rect, r, t, rec);
    assert rec.Value() == XyHit(rect, r, tMin, tMax, before).1;
    return true;
  }

  /** The writes of `XyRectangle::Hit` once the hit is accepted: u, v, t, the face normal, material, p. */
  method WriteXy<M>(rect: Rect<M>, r: Ray, t: real, rec: HitRecord<M>)
    requires rect.a0 != rect.a1 && rect.b0 != rect.b1
    modifies rec
    ensures rec.Value() == XyRecord(rect, r, t, old(rec.Value()))
  {
    var p := At(r, t);
    rec.u := Fraction(p.x, rect.a0, rect.a1);
    rec.v := Fraction(p.y, rect.b0, rect.b1);
    rec.t := t;
    rec.SetFaceNormal(r, Vec3(0.0, 0.0, 1.0));
    rec.material := rect.material;
    rec.p := p;
  }

  /**
   * The loop of `HittableList::Hit` (also what `Box::Hit` runs over its sides): each child
   * writes into the scratch record for `[t_min, closest_so_far]`; a hit narrows
   * `closest_so_far` and is copied out.
   */
  method ScanInto<M>(env: Env<M>, h: Hittable<M>, r: Ray, tMin: real, tMax: real, rec: HitRecord<M>)
    returns (hitAnything: bool)
    requires h.List? || h.Box?
    requires Admissible(h, r)
    modifies rec
    ensures (hitAnything, rec.Value()) == Scene.Hit(env, h, r, tMin, tMax, old(rec.Value()))
    decreases h, 1
  {
    var objects := Members(h);
    var temp := new HitRecord(env.scratch);
    hitAnything := false;
    var closest := tMax;
    var i := 0;
    while i < |objects|
      invariant 0 <= i <= |objects|
      invariant Scan(hitAnything, closest, temp.Value(), rec.Value()) == ScanAfter(env, h, r, tMin, tMax, old(rec.Value()), i)
    {
      assert Admissible(objects[i], r);
      var hit := HitInto(env, objects[i], r, tMin, closest, temp);
      if hit {
        hitAnything := true;
        closest := temp.t;
        rec.Assign(temp.Value());
      }
      i := i + 1;
    }
  }

  /** Virtual `BoundingBox`: the flag returned and the contents left in `*output_box`. */
  method BoxInto<M>(env: Env<M>, h: Hittable<M>, time0: real, time1: real, out: Boxes.Aabb)
    returns (ok: bool, box: Boxes.Aabb)
    requires BoxDefined(h)
    ensures (ok, box) == Scene.BoundingBox(env, h, time0, time1, out)
    decreases h, 1
  {
    match h
    case Sphere(center, radius, _) =>
      ok, box := true, SphereBox(center, radius);
    case MovingSphere(center0, center1, t0, t1, radius, _) =>
      var box0 := SphereBox(Center(center0, center1, t0, t1, time0), radius);
      var box1 := SphereBox(Center(center0, center1, t0, t1, time1), radius);
      ok, box := true, Boxes.SurroundingBox(box0, box1);
    case Rectangle(rect) =>
      ok, box := true, if rect.plane == XY then XyBox(rect) else env.rectBox(rect);
    case List(_) =>
      ok, box := FoldInto(env, h, time0, time1, out);
    case BvhNode(_, _, nodeBox) =>
      ok, box := true, nodeBox;
    case Translate(child, offset) =>
      ok, box := BoxInto(env, child, time0, time1, out);
      if !ok {
        return false, box;
      }
      box := Boxes.Aabb(Add(box.minimum, offset), Add(box.maximum, offset));
    case RotateY(_, _, _, hasBox, bbox) =>
      ok, box := hasBox, bbox;
    case Box(boxMin, boxMax, _) =>
      ok, box := true, Boxes.Aabb(boxMin, boxMax);
  }

  /**
   * The loop of `HittableList::BoundingBox`: false for no objects; otherwise each child
   * writes `temp_box`, a child without a box ends the loop with false, and the output is the
   * first box and then its union with each further box.
   */
  method FoldInto<M>(env: Env<M>, h: Hittable<M>, time0: real, time1: real, out: Boxes.Aabb)
    returns (ok: bool, box: Boxes.Aabb)
    requires h.List?
    requires BoxDefined(h)
    ensures (ok, box) == Scene.BoundingBox(env, h, time0, time1, out)
    decreases h, 0
  {
    var objects := Members(h);
    box := out;
    if |objects| == 0 {
      return false, box;
    }
    var temp := Boxes.DefaultBox;
    var first := true;
    var i := 0;
    while i < |objects|
      invariant 0 <= i <= |objects|
      invariant Fold(false, first, box, temp) == FoldAfter(env, h, time0, time1, out, i)
    {
      assert BoxDefined(objects[i]);
      var childOk;
      childOk, temp := BoxInto(env, objects[i], time0, time1, temp);
      if !childOk {
        FoldStopped(env, h, time0, time1, out, i + 1);
        return false, box;
      }
      box := if first then temp else Boxes.SurroundingBox(box, temp);
      first := false;
      i := i + 1;
    }
    return true, box;
  }

  /** A stopped fold stays stopped (so the early return is what the whole fold gives). */
  lemma {:induction false} FoldStopped<M>(env: Env<M>, h: Hittable<M>, time0: real, time1: real, out: Boxes.Aabb, j: nat)
    requires h.List? || h.Box?
    requires BoxDefined(h) && 0 < j <= |Members(h)|
    requires FoldAfter(env, h, time0, time1, out, j).stopped
    ensures FoldAfter(env, h, time0, time1, out, |Members(h)|) == FoldAfter(env, h, time0, time1, out, j)
    decreases |Members(h)| - j
  {
    if j < |Members(h)| {
      FoldStopped(env, h, time0, time1, out, j + 1);
    }
  }

  /** `HittableList`: a growable sequence of objects, itself an object. */
  class HittableList<M> {
    var objects: seq<Hittable<M>>

    /** The list as a value, as it appears inside other objects. */
    function AsHittable(): Hittable<M>
      reads this
    {
      List(objects)
    }

    /** `HittableList()`: no objects. */
    constructor ()
      ensures objects == []
    {
      objects := [];
    }

    /** `HittableList(object)`: one object, added through `Add`. */
    constructor Single(obj: Hittable<M>)
      ensures objects == [obj]
    {
      objects := [];
      new;
      Add(obj);
    }

    /** `Add`: `push_back`, so earlier entries keep their order. */
    method Add(obj: Hittable<M>)
      modifies this
      ensures objects == old(objects) + [obj]
    {
      objects := objects + [obj];
    }

    method Hit(env: Env<M>, r: Ray, tMin: real, tMax: real, rec: HitRecord<M>) returns (hit: bool)
      requires Admissible(List(objects), r)
      modifies rec
      ensures (hit, rec.Value()) == Scene.Hit(env, List(objects), r, tMin, tMax, old(rec.Value()))
    {
      hit := ScanInto(env, List(objects), r, tMin, tMax, rec);
    }

    method BoundingBox(env: Env<M>, time0: real, time1: real, out: Boxes.Aabb) returns (ok: bool, box: Boxes.Aabb)
      requires BoxDefined(List(objects))
      ensures (ok, box) == Scene.BoundingBox(env, List(objects), time0, time1, out)
    {
      ok, box := FoldInto(env, List(objects), time0, time1, out);
    }
  }
}
