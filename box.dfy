/**
 * The box of src/object/box.h: the corners `p0` and `p1` and a list of six rectangles, two
 * per axis, one at `p0` and one at `p1` on that axis, each spanning the box on the other two.
 */
module BoxObject {

  import opened Vectors
  import opened Rays
  import opened Records
  import opened Rectangles
  import opened Scene
  import Boxes
  import Objects

  /**
   * The axes of a rectangle in `plane`: the two it spans, then the one it is fixed on (x/y at
   * z = k, x/z at y = k, y/z at x = k).
   */
  function Axes(plane: Plane): (axes: (int, int, int))
    ensures 0 <= axes.0 < axes.1 < 3 && 0 <= axes.2 < 3
    ensures axes.2 != axes.0 && axes.2 != axes.1
  {
    match plane
    case XY => (0, 1, 2)
    case XZ => (0, 2, 1)
    case YZ => (1, 2, 0)
  }

  /** `side` is the rectangle in `plane` at `k`, spanning `[p0, p1]` on the two axes of the plane. */
  ghost predicate Face<M>(side: Hittable<M>, plane: Plane, p0: Point3, p1: Point3, k: real, material: M) {
    var axes := Axes(plane);
    side == Rectangle(Rect(plane, Get(p0, axes.0), Get(p1, axes.0), Get(p0, axes.1), Get(p1, axes.1), k, material))
  }

  /** The plane of side `i` of a box: the first two sides are xy, the next two xz, the last two yz. */
  function SidePlane(i: int): Plane
    requires 0 <= i < 6
  {
    if i < 2 then XY else if i < 4 then XZ else YZ
  }

  /**
   * `Box(p0, p1, material)`: the corners are stored as given and the six rectangles are added
   * to the list in order; side `2a` lies at `p1` and side `2a + 1` at `p0` on the fixed axis of
   * its plane.
   */
  method NewBox<M>(p0: Point3, p1: Point3, material: M) returns (b: Hittable<M>)
    ensures b.Box? && b.boxMin == p0 && b.boxMax == p1 && |b.sides| == 6
    ensures forall i | 0 <= i < 6 ::
              Face(b.sides[i], SidePlane(i), p0, p1, Get(if i % 2 == 0 then p1 else p0, Axes(SidePlane(i)).2), material)
  {
    var sides := new Objects.HittableList<M>();
    sides.Add(Rectangle(Rect(XY, p0.x, p1.x, p0.y, p1.y, p1.z, material)));
    sides.Add(Rectangle(Rect(XY, p0.x, p1.x, p0.y, p1.y, p0.z, material)));
    sides.Add(Rectangle(Rect(XZ, p0.x, p1.x, p0.z, p1.z, p1.y, material)));
    sides.Add(Rectangle(Rect(XZ, p0.x, p1.x, p0.z, p1.z, p0.y, material)));
    sides.Add(Rectangle(Rect(YZ, p0.y, p1.y, p0.z, p1.z, p1.x, material)));
    sides.Add(Rectangle(Rect(YZ, p0.y, p1.y, p0.z, p1.z, p0.x, material)));
    b := Box(p0, p1, sides.objects);
  }

  /** `Box::BoundingBox`: exactly the two corners, and always true, whatever the times. */
  lemma BoxBoundingBox<M>(env: Env<M>, p0: Point3, p1: Point3, sides: seq<Hittable<M>>,
                          time0: real, time1: real, out: Boxes.Aabb)
    requires BoxDefined(Box(p0, p1, sides))
    ensures BoundingBox(env, Box(p0, p1, sides), time0, time1, out) == (true, Boxes.Aabb(p0, p1))
  {
  }

  /** `Box::Hit` is the `Hit` of the list of sides. */
  lemma BoxHitIsListHit<M>(env: Env<M>, p0: Point3, p1: Point3, sides: seq<Hittable<M>>,
                           r: Ray, tMin: real, tMax: real, rec: Record<M>)
    requires Admissible(Box(p0, p1, sides), r)
    ensures Admissible(List(sides), r)
    ensures Hit(env, Box(p0, p1, sides), r, tMin, tMax, rec) == Hit(env, List(sides), r, tMin, tMax, rec)
  {
    BoxScanIsListScan(env, p0, p1, sides, r, tMin, tMax, rec, |sides|);
  }

  /** The scan over the sides of a box is the scan over the same objects in a list. */
  lemma {:induction false} BoxScanIsListScan<M>(env: Env<M>, p0: Point3, p1: Point3, sides: seq<Hittable<M>>,
                                                r: Ray, tMin: real, tMax: real, rec: Record<M>, j: nat)
    requires Admissible(Box(p0, p1, sides), r) && j <= |sides|
    ensures Admissible(List(sides), r)
    ensures ScanAfter(env, Box(p0, p1, sides), r, tMin, tMax, rec, j) == ScanAfter(env, List(sides), r, tMin, tMax, rec, j)
  {
    if j > 0 {
      BoxScanIsListScan(env, p0, p1, sides, r, tMin, tMax, rec, j - 1);
    }
  }
}
