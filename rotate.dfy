/**
 * The constructor of the y-rotation of src/object/rotate.h: the sine and cosine of the angle,
 * the child's box over `[0, 1]`, and the box around the eight corners of that box turned
 * about the y axis. `RotateY::Hit` and `RotateY::BoundingBox` are the `RotateY` cases of
 * `Scene.Hit` and `Scene.BoundingBox`.
 */
module Rotation {

  import opened RealArith
  import opened RtWeekend
  import opened Vectors
  import opened Elementary
  import Boxes
  import opened Scene

  /** Corner `(i, j, k)` of `box` as the constructor computes it: `i * max + (1 - i) * min` on x, and so on. */
  function Corner(box: Boxes.Aabb, i: int, j: int, k: int): Point3 {
    Vec3(i as real * box.maximum.x + (1 - i) as real * box.minimum.x,
         j as real * box.maximum.y + (1 - j) as real * box.minimum.y,
         k as real * box.maximum.z + (1 - k) as real * box.minimum.z)
  }

  /** With 0/1 selectors the corner takes the minimum or the maximum on each axis. */
  lemma CornerSelects(box: Boxes.Aabb, i: int, j: int, k: int)
    requires 0 <= i < 2 && 0 <= j < 2 && 0 <= k < 2
    ensures Corner(box, i, j, k).x == if i == 0 then box.minimum.x else box.maximum.x
    ensures Corner(box, i, j, k).y == if j == 0 then box.minimum.y else box.maximum.y
    ensures Corner(box, i, j, k).z == if k == 0 then box.minimum.z else box.maximum.z
  {
    assert i as real == if i == 0 then 0.0 else 1.0;
    assert j as real == if j == 0 then 0.0 else 1.0;
    assert k as real == if k == 0 then 0.0 else 1.0;
  }

  /** The `q`-th corner visited by the loops over `i`, `j`, `k` (so `q = 4i + 2j + k`), turned about y. */
  function TurnedCorner(box: Boxes.Aabb, s: real, c: real, q: int): Point3
    requires 0 <= q < 8
  {
    RotateOut(s, c, Corner(box, q / 4, (q / 2) % 2, q % 2))
  }

  /** The eight turned corners in the order the loops visit them. */
  function Corners(box: Boxes.Aabb, s: real, c: real): (pts: seq<Point3>)
    ensures |pts| == 8
  {
    seq(8, q requires 0 <= q < 8 => TurnedCorner(box, s, c, q))
  }

  /**
   * The box the loops leave in `min` and `max`: the first point alone, then widened by every further
   * point with `fmin` and `fmax`. (The source starts from infinite corners, which the first
   * `fmin`/`fmax` replaces by the first point.)
   */
  function Envelope(pts: seq<Point3>): Boxes.Aabb
    requires |pts| > 0
  {
    if |pts| == 1 then Boxes.Aabb(pts[0], pts[0])
    else Boxes.SurroundingBox(Envelope(pts[..|pts| - 1]), Boxes.Aabb(pts[|pts| - 1], pts[|pts| - 1]))
  }

  /** The envelope contains every point. */
  lemma {:induction false} EnvelopeContains(pts: seq<Point3>)
    requires |pts| > 0
    ensures forall q :: 0 <= q < |pts| ==> Boxes.Contains(Envelope(pts), pts[q])
  {
    if |pts| > 1 {
      var init := pts[..|pts| - 1];
      EnvelopeContains(init);
      forall q | 0 <= q < |pts|
        ensures Boxes.Contains(Envelope(pts), pts[q])
      {
        if q < |pts| - 1 {
          assert pts[q] == init[q];
        }
      }
    }
  }

  /** The envelope is the smallest box containing the points: any box containing them all encloses it. */
  lemma {:induction false} EnvelopeLeast(outer: Boxes.Aabb, pts: seq<Point3>)
    requires |pts| > 0
    requires forall q :: 0 <= q < |pts| ==> Boxes.Contains(outer, pts[q])
    ensures Boxes.Encloses(outer, Envelope(pts))
  {
    var last := pts[|pts| - 1];
    if |pts| > 1 {
      var init := pts[..|pts| - 1];
      assert forall q :: 0 <= q < |init| ==> init[q] == pts[q];
      EnvelopeLeast(outer, init);
      Boxes.SurroundingBoxLeast(outer, Envelope(init), Boxes.Aabb(last, last));
    }
  }

  /**
   * Only x and z are turned, so when the child box is well ordered on y the rotated box has
   * exactly the child's y extent; it contains all eight turned corners and is the least box that does.
   */
  lemma RotatedBoxFacts(box: Boxes.Aabb, s: real, c: real)
    ensures forall q :: 0 <= q < 8 ==> Boxes.Contains(Envelope(Corners(box, s, c)), Corners(box, s, c)[q])
    ensures forall outer: Boxes.Aabb ::
              (forall q :: 0 <= q < 8 ==> Boxes.Contains(outer, Corners(box, s, c)[q])) ==>
              Boxes.Encloses(outer, Envelope(Corners(box, s, c)))
    ensures box.minimum.y <= box.maximum.y ==>
              Envelope(Corners(box, s, c)).minimum.y == box.minimum.y &&
              Envelope(Corners(box, s, c)).maximum.y == box.maximum.y
  {
    var pts := Corners(box, s, c);
    var e := Envelope(pts);
    EnvelopeContains(pts);
    forall outer: Boxes.Aabb | forall q :: 0 <= q < 8 ==> Boxes.Contains(outer, pts[q])
      ensures Boxes.Encloses(outer, e)
    {
      EnvelopeLeast(outer, pts);
    }
    if box.minimum.y <= box.maximum.y {
      RotatedYExtent(box, s, c);
    }
  }

  /** The y extent of the turned corners' envelope is the child's. */
  lemma RotatedYExtent(box: Boxes.Aabb, s: real, c: real)
    requires box.minimum.y <= box.maximum.y
    ensures Envelope(Corners(box, s, c)).minimum.y == box.minimum.y
    ensures Envelope(Corners(box, s, c)).maximum.y == box.maximum.y
  {
    var pts := Corners(box, s, c);
    var e := Envelope(pts);
    EnvelopeContains(pts);
    forall q | 0 <= q < 8
      ensures box.minimum.y <= pts[q].y <= box.maximum.y
    {
      CornerSelects(box, q / 4, (q / 2) % 2, q % 2);
    }
    CornerSelects(box, 0, 0, 0);
    CornerSelects(box, 0, 1, 0);
    CornerIndex(0, 1, 0);
    assert pts[2] == RotateOut(s, c, Corner(box, 0, 1, 0));
    assert pts[0].y == box.minimum.y && pts[2].y == box.maximum.y;
    var outer := Boxes.Aabb(e.minimum.(y := box.minimum.y), e.maximum.(y := box.maximum.y));
    EnvelopeLeast(outer, pts);
  }

  /**
   * The innermost loop over the three axes: `min[c] = fmin(min[c], tester[c])` and
   * `max[c] = fmax(max[c], tester[c])`, where before the first corner (`seen` false) the
   * infinite start values make both the tester's component.
   */
  method Widen(lo: Vec3, hi: Vec3, tester: Vec3, seen: bool) returns (lo': Vec3, hi': Vec3)
    ensures Boxes.Aabb(lo', hi') ==
              if seen then Boxes.SurroundingBox(Boxes.Aabb(lo, hi), Boxes.Aabb(tester, tester))
              else Boxes.Aabb(tester, tester)
  {
    lo', hi' := lo, hi;
    for a := 0 to 3
      invariant forall b :: 0 <= b < a ==>
                  Get(lo', b) == (if seen then Fmin(Get(lo, b), Get(tester, b)) else Get(tester, b)) &&
                  Get(hi', b) == (if seen then Fmax(Get(hi, b), Get(tester, b)) else Get(tester, b))
      invariant forall b :: a <= b < 3 ==> Get(lo', b) == Get(lo, b) && Get(hi', b) == Get(hi, b)
    {
      lo' := With(lo', a, if seen then Fmin(Get(lo', a), Get(tester, a)) else Get(tester, a));
      hi' := With(hi', a, if seen then Fmax(Get(hi', a), Get(tester, a)) else Get(tester, a));
    }
    assert Get(lo', 0) == lo'.x && Get(lo', 1) == lo'.y && Get(lo', 2) == lo'.z;
    assert Get(hi', 0) == hi'.x && Get(hi', 1) == hi'.y && Get(hi', 2) == hi'.z;
  }

  /**
   * One pass of the loop body: corner `(i, j, k)` of the child box, turned into `tester`, widens
   * the box so far.
   */
  method VisitCorner(bbox: Boxes.Aabb, s: real, c: real, i: int, j: int, k: int, lo: Vec3, hi: Vec3, seen: bool)
    returns (lo': Vec3, hi': Vec3)
    requires 0 <= i < 2 && 0 <= j < 2 && 0 <= k < 2
    ensures var tester := TurnedCorner(bbox, s, c, 4 * i + 2 * j + k);
            Boxes.Aabb(lo', hi') ==
              if seen then Boxes.SurroundingBox(Boxes.Aabb(lo, hi), Boxes.Aabb(tester, tester))
              else Boxes.Aabb(tester, tester)
  {
    var x := i as real * bbox.maximum.x + (1 - i) as real * bbox.minimum.x;
    var y := j as real * bbox.maximum.y + (1 - j) as real * bbox.minimum.y;
    var z := k as real * bbox.maximum.z + (1 - k) as real * bbox.minimum.z;
    var newX := c * x + s * z;
    var newZ := -s * x + c * z;
    var tester := Vec3(newX, y, newZ);
    CornerIndex(i, j, k);
    assert tester == RotateOut(s, c, Corner(bbox, i, j, k));
    lo', hi' := Widen(lo, hi, tester, seen);
  }

  /**
   * `RotateY(p, angle)`: sine and cosine of the angle in radians, the child's box flag and box
   * over `[0, 1]`, and, in `bbox_`, the envelope of the eight corners of that box turned about y.
   */
  method NewRotateY<M>(env: Env<M>, child: Hittable<M>, angle: real) returns (h: Hittable<M>)
    requires BoxDefined(child)
    ensures h.RotateY? && h.child == child
    ensures h.sinTheta == env.f.sin(DegreesToRadians(angle)) && h.cosTheta == env.f.cos(DegreesToRadians(angle))
    ensures h.hasBox == BoundingBox(env, child, 0.0, 1.0, Boxes.DefaultBox).0
    ensures h.bbox == Envelope(Corners(BoundingBox(env, child, 0.0, 1.0, Boxes.DefaultBox).1, h.sinTheta, h.cosTheta))
    ensures Lawful(env.f) && Rigid(child) ==> Rigid(h)
  {
    var radians := DegreesToRadians(angle);
    var s := env.f.sin(radians);
    var c := env.f.cos(radians);
    var childBox := BoundingBox(env, child, 0.0, 1.0, Boxes.DefaultBox);
    var turned := TurnedBox(childBox.1, s, c);
    h := RotateY(child, s, c, childBox.0, turned);
    if Lawful(env.f) {
      Pythagoras(env.f, radians);
    }
  }

  /** Widening the envelope of the first `n` turned corners by corner `n` gives that of the first `n + 1`. */
  lemma EnvelopeStep(bbox: Boxes.Aabb, s: real, c: real, n: int, lo: Vec3, hi: Vec3, seen: bool, lo': Vec3, hi': Vec3)
    requires 0 <= n < 8 && seen == (n > 0)
    requires seen ==> Boxes.Aabb(lo, hi) == Envelope(Corners(bbox, s, c)[..n])
    requires var tester := TurnedCorner(bbox, s, c, n);
             Boxes.Aabb(lo', hi') ==
               if seen then Boxes.SurroundingBox(Boxes.Aabb(lo, hi), Boxes.Aabb(tester, tester))
               else Boxes.Aabb(tester, tester)
    ensures Boxes.Aabb(lo', hi') == Envelope(Corners(bbox, s, c)[..n + 1])
  {
    var pts := Corners(bbox, s, c);
    assert pts[..n + 1][..n] == pts[..n];
  }

  /** Lines 36-55 of rotate.h: the loops over the eight corners, leaving their envelope in `min` and `max`. */
  method TurnedBox(bbox: Boxes.Aabb, s: real, c: real) returns (box: Boxes.Aabb)
    ensures box == Envelope(Corners(bbox, s, c))
  {
    ghost var pts := Corners(bbox, s, c);
    var lo, hi, seen := Zero, Zero, false;
    for i := 0 to 2
      invariant seen == (i > 0)
      invariant i > 0 ==> Boxes.Aabb(lo, hi) == Envelope(pts[..4 * i])
    {
      for j := 0 to 2
        invariant seen == (4 * i + 2 * j > 0)
        invariant 4 * i + 2 * j > 0 ==> Boxes.Aabb(lo, hi) == Envelope(pts[..4 * i + 2 * j])
      {
        for k := 0 to 2
          invariant seen == (4 * i + 2 * j + k > 0)
          invariant 4 * i + 2 * j + k > 0 ==> Boxes.Aabb(lo, hi) == Envelope(pts[..4 * i + 2 * j + k])
        {
          CornerIndex(i, j, k);
          var lo', hi' := VisitCorner(bbox, s, c, i, j, k, lo, hi, seen);
          EnvelopeStep(bbox, s, c, 4 * i + 2 * j + k, lo, hi, seen, lo', hi');
          lo, hi, seen := lo', hi', true;
        }
      }
    }
    assert pts[..8] == pts;
    box := Boxes.Aabb(lo, hi);
  }
}
