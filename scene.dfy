/**
 * The hittable objects as values, with `Hit` and `BoundingBox` as functions.
 *
 * Every `Hittable` subclass becomes a constructor of one datatype: spheres, moving spheres,
 * rectangles, lists, BVH nodes, translations, y-rotations and boxes. `Hit` returns the
 * success flag together with the record the C++ code leaves behind in `*hit_record`, and
 * `BoundingBox` the flag together with what it leaves in `*output_box`, so "not written"
 * is "returned as given".
 */
module Scene {

  import opened Elementary
  import opened Vectors
  import opened Rays
  import opened Boxes
  import opened Records
  import opened Spheres
  import opened Rectangles

  datatype Hittable<M> =
    | Sphere(center: Point3, radius: real, material: M)
    | MovingSphere(center0: Point3, center1: Point3, time0: real, time1: real, radius: real, material: M)
    | Rectangle(rect: Rect<M>)
    | List(objects: seq<Hittable<M>>)
    | BvhNode(left: Hittable<M>, right: Hittable<M>, box: Aabb)
    | Translate(child: Hittable<M>, offset: Vec3)
    | RotateY(child: Hittable<M>, sinTheta: real, cosTheta: real, hasBox: bool, bbox: Aabb)
    | Box(boxMin: Point3, boxMax: Point3, sides: seq<Hittable<M>>)

  /**
   * What the objects take from outside: the elementary functions, `GetSphereUV`, the
   * intersection and box of the xz / yz rectangles, and the initial contents of the
   * uninitialised `HitRecord temp_record` of `HittableList::Hit`.
   */
  datatype Env<!M> = Env(f: Funcs,
                        sphereUV: Vec3 -> (real, real),
                        rectHit: (Rect<M>, Ray, real, real, Record<M>) -> (bool, Record<M>),
                        rectBox: Rect<M> -> Aabb,
                        scratch: Record<M>)

  /**
   * The contract every `Hit` keeps: a hit lies in `[t_min, t_max]` at the point `r.At(t)`,
   * and a miss writes nothing.
   */
  ghost predicate Honest<M>(res: (bool, Record<M>), r: Ray, tMin: real, tMax: real, rec: Record<M>) {
    (res.0 ==> tMin <= res.1.t <= tMax && res.1.p == At(r, res.1.t)) && (!res.0 ==> res.1 == rec)
  }

  /** The caller-supplied rectangle intersection keeps the same contract. */
  ghost predicate LawfulEnv<M(!new)>(env: Env<M>) {
    forall rect: Rect<M>, r: Ray, tMin: real, tMax: real, rec: Record<M> ::
      Honest(env.rectHit(rect, r, tMin, tMax, rec), r, tMin, tMax, rec)
  }

  /** The children scanned by a list: the objects of a list, the six sides of a box. */
  function Members<M>(h: Hittable<M>): seq<Hittable<M>> {
    match h
    case List(objects) => objects
    case Box(_, _, sides) => sides
    case _ => []
  }

  /** `Translate::Hit` queries its child with the origin moved back by the offset. */
  function MovedRay(r: Ray, offset: Vec3): (moved: Ray)
    ensures moved.direction == r.direction && moved.time == r.time
    ensures Add(moved.origin, offset) == r.origin
  {
    Ray(Sub(r.origin, offset), r.direction, r.time)
  }

  /** The rotation `RotateY::Hit` applies to origin and direction: into object space. */
  function RotateInto(sinTheta: real, cosTheta: real, v: Vec3): (w: Vec3)
    ensures w.y == v.y
  {
    Vec3(cosTheta * v.x - sinTheta * v.z, v.y, sinTheta * v.x + cosTheta * v.z)
  }

  /** The rotation back to world space, applied to the hit point and normal. */
  function RotateOut(sinTheta: real, cosTheta: real, v: Vec3): (w: Vec3)
    ensures w.y == v.y
  {
    Vec3(cosTheta * v.x + sinTheta * v.z, v.y, -sinTheta * v.x + cosTheta * v.z)
  }

  /** With `sin^2 + cos^2 = 1` the two rotations undo each other. */
  lemma RotateRoundTrip(s: real, c: real, v: Vec3)
    requires s * s + c * c == 1.0
    ensures RotateOut(s, c, RotateInto(s, c, v)) == v
    ensures RotateInto(s, c, RotateOut(s, c, v)) == v
  {
    var w := RotateInto(s, c, v);
    calc {
      c * w.x + s * w.z;
      c * (c * v.x - s * v.z) + s * (s * v.x + c * v.z);
      (s * s + c * c) * v.x;
    }
    calc {
      -s * w.x + c * w.z;
      -s * (c * v.x - s * v.z) + c * (s * v.x + c * v.z);
      (s * s + c * c) * v.z;
    }
    var u := RotateOut(s, c, v);
    calc {
      c * u.x - s * u.z;
      c * (c * v.x + s * v.z) - s * (-s * v.x + c * v.z);
      (s * s + c * c) * v.x;
    }
    calc {
      s * u.x + c * u.z;
      s * (c * v.x + s * v.z) + c * (-s * v.x + c * v.z);
      (s * s + c * c) * v.z;
    }
  }

  /** `rotated_r`: origin and direction rotated in x/z; y and time are kept. */
  function RotatedRay(r: Ray, sinTheta: real, cosTheta: real): (rotated: Ray)
    ensures rotated.origin.y == r.origin.y && rotated.direction.y == r.direction.y
    ensures rotated.time == r.time
  {
    Ray(RotateInto(sinTheta, cosTheta, r.origin), RotateInto(sinTheta, cosTheta, r.direction), r.time)
  }

  /** The conditions under which `Hit` never divides by zero. */
  predicate Admissible<M>(h: Hittable<M>, r: Ray)
    decreases h
  {
    match h
    case Sphere(_, radius, _) => LengthSquared(r.direction) != 0.0 && radius != 0.0
    case MovingSphere(_, _, time0, time1, radius, _) =>
      time0 != time1 && LengthSquared(r.direction) != 0.0 && radius != 0.0
    case Rectangle(rect) => rect.plane == XY ==> XyDefined(rect, r)
    case List(objects) => forall i | 0 <= i < |objects| :: Admissible(objects[i], r)
    case BvhNode(left, right, _) => SlabDefined(r) && Admissible(left, r) && Admissible(right, r)
    case Translate(child, offset) => Admissible(child, MovedRay(r, offset))
    case RotateY(child, s, c, _, _) => Admissible(child, RotatedRay(r, s, c))
    case Box(_, _, sides) => forall i | 0 <= i < |sides| :: Admissible(sides[i], r)
  }

  /** Every rotation in the tree was built from a sine and cosine of one angle. */
  predicate Rigid<M>(h: Hittable<M>)
    decreases h
  {
    match h
    case List(objects) => forall i | 0 <= i < |objects| :: Rigid(objects[i])
    case BvhNode(left, right, _) => Rigid(left) && Rigid(right)
    case Translate(child, _) => Rigid(child)
    case RotateY(child, s, c, _, _) => s * s + c * c == 1.0 && Rigid(child)
    case Box(_, _, sides) => forall i | 0 <= i < |sides| :: Rigid(sides[i])
    case _ => true
  }

  /** The conditions under which `BoundingBox` never divides by zero. */
  predicate BoxDefined<M>(h: Hittable<M>)
    decreases h
  {
    match h
    case MovingSphere(_, _, time0, time1, _, _) => time0 != time1
    case List(objects) => forall i | 0 <= i < |objects| :: BoxDefined(objects[i])
    case BvhNode(left, right, _) => BoxDefined(left) && BoxDefined(right)
    case Translate(child, _) => BoxDefined(child)
    case RotateY(child, _, _, _, _) => BoxDefined(child)
    case Box(_, _, sides) => forall i | 0 <= i < |sides| :: BoxDefined(sides[i])
    case _ => true
  }

  /** The locals of `HittableList::Hit`: `hit_anything`, `closest_so_far`, `temp_record`, `*hit_record`. */
  datatype Scan<M> = Scan(hitAnything: bool, closest: real, temp: Record<M>, rec: Record<M>)

  /** `Hit` of every object, as the value left in the record and the flag returned. */
  function Hit<M>(env: Env<M>, h: Hittable<M>, r: Ray, tMin: real, tMax: real, rec: Record<M>): (bool, Record<M>)
    requires Admissible(h, r)
    decreases h, |Members(h)| + 1
  {
    match h
    case Sphere(center, radius, material) =>
      SphereHit(env.f, env.sphereUV, center, radius, material, r, tMin, tMax, rec)
    case MovingSphere(center0, center1, time0, time1, radius, material) =>
      MovingSphereHit(env.f, center0, center1, time0, time1, radius, material, r, tMin, tMax, rec)
    case Rectangle(rect) =>
      if rect.plane == XY then XyHit(rect, r, tMin, tMax, rec) else env.rectHit(rect, r, tMin, tMax, rec)
    case List(objects) =>
      var s := ScanAfter(env, h, r, tMin, tMax, rec, |objects|);
      (s.hitAnything, s.rec)
    case BvhNode(left, right, box) =>
      if !SlabHit(box, r, 0, tMin, tMax) then (false, rec)
      else
        var (hitLeft, afterLeft) := Hit(env, left, r, tMin, tMax, rec);
        var (hitRight, afterRight) := Hit(env, right, r, tMin, if hitLeft then afterLeft.t else tMax, afterLeft);
        (hitLeft || hitRight, afterRight)
    case Translate(child, offset) =>
      var moved := MovedRay(r, offset);
      var (hit, childRec) := Hit(env, child, moved, tMin, tMax, rec);
      if !hit then (false, childRec)
      else
        var shifted := childRec.(p := Add(childRec.p, offset));
        (true, WithFaceNormal(shifted, moved, shifted.normal))
    case RotateY(child, s, c, _, _) =>
      var rotated := RotatedRay(r, s, c);
      var (hit, childRec) := Hit(env, child, rotated, tMin, tMax, rec);
      if !hit then (false, childRec)
      else (true, WithFaceNormal(childRec.(p := RotateOut(s, c, childRec.p)), rotated, RotateOut(s, c, childRec.normal)))
    case Box(_, _, sides) =>
      var s := ScanAfter(env, h, r, tMin, tMax, rec, |sides|);
      (s.hitAnything, s.rec)
  }

  /**
   * The state of the closest-hit scan of `HittableList::Hit` after the first `j` children:
   * each child is asked for `[t_min, closest_so_far]` into `temp_record`; on a hit the
   * closest distance drops to its t and the record is copied out.
   */
  function ScanAfter<M>(env: Env<M>, h: Hittable<M>, r: Ray, tMin: real, tMax: real, rec: Record<M>, j: nat): Scan<M>
    requires h.List? || h.Box?
    requires Admissible(h, r) && j <= |Members(h)|
    decreases h, j
  {
    if j == 0 then Scan(false, tMax, env.scratch, rec)
    else
      var s := ScanAfter(env, h, r, tMin, tMax, rec, j - 1);
      var (hit, temp) := Hit(env, Members(h)[j - 1], r, tMin, s.closest, s.temp);
      if hit then Scan(true, temp.t, temp, temp) else s.(temp := temp)
  }

  /** What child `k` of the scan reports when it is asked. */
  function ChildHit<M>(env: Env<M>, h: Hittable<M>, r: Ray, tMin: real, tMax: real, rec: Record<M>, k: nat): (bool, Record<M>)
    requires h.List? || h.Box?
    requires Admissible(h, r) && k < |Members(h)|
  {
    var s := ScanAfter(env, h, r, tMin, tMax, rec, k);
    Hit(env, Members(h)[k], r, tMin, s.closest, s.temp)
  }

  /** The fold state of `HittableList::BoundingBox`: stopped by a child without box, `first_box`, `*output_box`, `temp_box`. */
  datatype Fold = Fold(stopped: bool, first: bool, out: Aabb, temp: Aabb)

  /** `BoundingBox` of every object, as the flag returned and the value left in `*output_box`. */
  function BoundingBox<M>(env: Env<M>, h: Hittable<M>, time0: real, time1: real, out: Aabb): (bool, Aabb)
    requires BoxDefined(h)
    decreases h, |Members(h)| + 1
  {
    match h
    case Sphere(center, radius, _) => (true, SphereBox(center, radius))
    case MovingSphere(center0, center1, t0, t1, radius, _) =>
      (true, MovingSphereBox(center0, center1, t0, t1, radius, time0, time1))
    case Rectangle(rect) => (true, if rect.plane == XY then XyBox(rect) else env.rectBox(rect))
    case List(objects) =>
      if |objects| == 0 then (false, out)
      else
        var s := FoldAfter(env, h, time0, time1, out, |objects|);
        (!s.stopped, s.out)
    case BvhNode(_, _, box) => (true, box)
    case Translate(child, offset) =>
      var (ok, childBox) := BoundingBox(env, child, time0, time1, out);
      if !ok then (false, childBox) else (true, Shifted(childBox, offset))
    case RotateY(_, _, _, hasBox, bbox) => (hasBox, bbox)
    case Box(boxMin, boxMax, _) => (true, Aabb(boxMin, boxMax))
  }

  /**
   * The state of the fold of `HittableList::BoundingBox` after the first `j` children: each
   * child writes `temp_box`; the first child without a box stops the fold; otherwise the
   * output is the first box, then the union with every further box.
   */
  function FoldAfter<M>(env: Env<M>, h: Hittable<M>, time0: real, time1: real, out: Aabb, j: nat): Fold
    requires h.List? || h.Box?
    requires BoxDefined(h) && j <= |Members(h)|
    decreases h, j
  {
    if j == 0 then Fold(false, true, out, DefaultBox)
    else
      var s := FoldAfter(env, h, time0, time1, out, j - 1);
      if s.stopped then s
      else
        var (ok, temp) := BoundingBox(env, Members(h)[j - 1], time0, time1, s.temp);
        if !ok then s.(stopped := true, temp := temp)
        else Fold(false, false, if s.first then temp else SurroundingBox(s.out, temp), temp)
  }

  /** The box of child `k` on its own, as `BvhNode` and the comparator ask for it. */
  function ChildBox<M>(env: Env<M>, h: Hittable<M>, time0: real, time1: real, k: nat): (bool, Aabb)
    requires h.List? || h.Box?
    requires BoxDefined(h) && k < |Members(h)|
  {
    BoundingBox(env, Members(h)[k], time0, time1, DefaultBox)
  }
}
