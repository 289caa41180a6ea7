/**
 * What the list scan, the BVH traversal, the translation and the rotation guarantee about
 * `Scene.Hit`, and what the list fold guarantees about `Scene.BoundingBox`.
 */
module SceneFacts {

  import opened Elementary
  import opened Vectors
  import opened Rays
  import Boxes
  import opened Records
  import opened Spheres
  import opened Rectangles
  import opened Scene

  /** Translating a point on the moved ray back by the offset gives the point of the ray at the same t. */
  lemma MovedPoint(r: Ray, offset: Vec3, t: real)
    ensures Add(At(MovedRay(r, offset), t), offset) == At(r, t)
  {
  }

  /** Rotating a point of the rotated ray back gives the point of the ray at the same t. */
  lemma RotatedPoint(r: Ray, s: real, c: real, t: real)
    requires s * s + c * c == 1.0
    ensures RotateOut(s, c, At(RotatedRay(r, s, c), t)) == At(r, t)
  {
    var o := RotateInto(s, c, r.origin);
    var d := RotateInto(s, c, r.direction);
    RotateRoundTrip(s, c, r.origin);
    RotateRoundTrip(s, c, r.direction);
    RotateOutLinear(s, c, o, d, t);
  }

  lemma RotateOutLinear(s: real, c: real, o: Vec3, d: Vec3, t: real)
    ensures RotateOut(s, c, Add(o, Scale(t, d))) == Add(RotateOut(s, c, o), Scale(t, RotateOut(s, c, d)))
  {
    assert c * (o.x + t * d.x) + s * (o.z + t * d.z) == (c * o.x + s * o.z) + t * (c * d.x + s * d.z);
    assert -s * (o.x + t * d.x) + c * (o.z + t * d.z) == (-s * o.x + c * o.z) + t * (-s * d.x + c * d.z);
  }

  /**
   * Every object keeps the `Hit` contract: a reported hit lies in `[t_min, t_max]` at
   * `r.At(t)`, and a miss leaves the record as it was.
   */
  lemma {:induction false} HitHonest<M(!new)>(env: Env<M>, h: Hittable<M>, r: Ray, tMin: real, tMax: real, rec: Record<M>)
    requires LawfulEnv(env) && Admissible(h, r) && Rigid(h)
    ensures Honest(Hit(env, h, r, tMin, tMax, rec), r, tMin, tMax, rec)
    decreases h, |Members(h)| + 1
  {
    match h
    case Sphere(_, _, _) =>
    case MovingSphere(_, _, _, _, _, _) =>
    case Rectangle(rect) =>
      if rect.plane != XY {
        assert Honest(env.rectHit(rect, r, tMin, tMax, rec), r, tMin, tMax, rec);
      }
    case List(objects) =>
      ScanHonest(env, h, r, tMin, tMax, rec, |objects|);
    case BvhNode(left, right, box) =>
      if Boxes.SlabHit(box, r, 0, tMin, tMax) {
        HitHonest(env, left, r, tMin, tMax, rec);
        var (hitLeft, afterLeft) := Hit(env, left, r, tMin, tMax, rec);
        HitHonest(env, right, r, tMin, if hitLeft then afterLeft.t else tMax, afterLeft);
      }
    case Translate(child, offset) =>
      var moved := MovedRay(r, offset);
      HitHonest(env, child, moved, tMin, tMax, rec);
      var (hit, childRec) := Hit(env, child, moved, tMin, tMax, rec);
      if hit {
        MovedPoint(r, offset, childRec.t);
      }
    case RotateY(child, s, c, _, _) =>
      var rotated := RotatedRay(r, s, c);
      HitHonest(env, child, rotated, tMin, tMax, rec);
      var (hit, childRec) := Hit(env, child, rotated, tMin, tMax, rec);
      if hit {
        RotatedPoint(r, s, c, childRec.t);
      }
    case Box(_, _, sides) =>
      ScanHonest(env, h, r, tMin, tMax, rec, |sides|);
  }

  /**
   * The scan of `HittableList::Hit`: `closest_so_far` starts at `t_max` and is the t of the
   * record copied out once something was hit; until then the record is untouched.
   */
  lemma {:induction false} ScanHonest<M(!new)>(env: Env<M>, h: Hittable<M>, r: Ray, tMin: real, tMax: real, rec: Record<M>, j: nat)
    requires h.List? || h.Box?
    requires LawfulEnv(env) && Admissible(h, r) && Rigid(h) && j <= |Members(h)|
    ensures ScanAfter(env, h, r, tMin, tMax, rec, j).closest <= tMax
    ensures ScanAfter(env, h, r, tMin, tMax, rec, j).hitAnything ==>
              var s := ScanAfter(env, h, r, tMin, tMax, rec, j);
              tMin <= s.rec.t == s.closest && s.rec.p == At(r, s.rec.t)
    ensures !ScanAfter(env, h, r, tMin, tMax, rec, j).hitAnything ==>
              var s := ScanAfter(env, h, r, tMin, tMax, rec, j);
              s.rec == rec && s.closest == tMax
    decreases h, j
  {
    if j > 0 {
      ScanHonest(env, h, r, tMin, tMax, rec, j - 1);
      var s := ScanAfter(env, h, r, tMin, tMax, rec, j - 1);
      assert Rigid(Members(h)[j - 1]) && Admissible(Members(h)[j - 1], r);
      HitHonest(env, Members(h)[j - 1], r, tMin, s.closest, s.temp);
    }
  }

  /** The list reports a hit exactly when one of its children reported one. */
  lemma {:induction false} ScanHitIffSomeChild<M>(env: Env<M>, h: Hittable<M>, r: Ray, tMin: real, tMax: real, rec: Record<M>, j: nat)
    requires h.List? || h.Box?
    requires Admissible(h, r) && j <= |Members(h)|
    ensures ScanAfter(env, h, r, tMin, tMax, rec, j).hitAnything <==>
              exists k :: 0 <= k < j && ChildHit(env, h, r, tMin, tMax, rec, k).0
  {
    if j > 0 {
      ScanHitIffSomeChild(env, h, r, tMin, tMax, rec, j - 1);
      if ChildHit(env, h, r, tMin, tMax, rec, j - 1).0 {
        assert exists k :: 0 <= k < j && ChildHit(env, h, r, tMin, tMax, rec, k).0;
      }
    }
  }

  /** `closest_so_far` never increases along the scan. */
  lemma {:induction false} ScanClosestShrinks<M(!new)>(env: Env<M>, h: Hittable<M>, r: Ray, tMin: real, tMax: real, rec: Record<M>, k: nat, j: nat)
    requires h.List? || h.Box?
    requires LawfulEnv(env) && Admissible(h, r) && Rigid(h) && k <= j <= |Members(h)|
    ensures ScanAfter(env, h, r, tMin, tMax, rec, j).closest <= ScanAfter(env, h, r, tMin, tMax, rec, k).closest
    decreases j
  {
    if k < j {
      ScanClosestShrinks(env, h, r, tMin, tMax, rec, k, j - 1);
      var s := ScanAfter(env, h, r, tMin, tMax, rec, j - 1);
      assert Rigid(Members(h)[j - 1]) && Admissible(Members(h)[j - 1], r);
      HitHonest(env, Members(h)[j - 1], r, tMin, s.closest, s.temp);
    }
  }

  /** Once the scan is over, the record copied out is at least as close as every hit any child reported. */
  lemma ScanNearest<M(!new)>(env: Env<M>, h: Hittable<M>, r: Ray, tMin: real, tMax: real, rec: Record<M>, j: nat, k: nat)
    requires h.List? || h.Box?
    requires LawfulEnv(env) && Admissible(h, r) && Rigid(h) && k < j <= |Members(h)|
    requires ChildHit(env, h, r, tMin, tMax, rec, k).0
    ensures ScanAfter(env, h, r, tMin, tMax, rec, j).hitAnything
    ensures ScanAfter(env, h, r, tMin, tMax, rec, j).rec.t <= ChildHit(env, h, r, tMin, tMax, rec, k).1.t
  {
    ScanHitIffSomeChild(env, h, r, tMin, tMax, rec, j);
    ScanHonest(env, h, r, tMin, tMax, rec, j);
    ScanClosestShrinks(env, h, r, tMin, tMax, rec, k + 1, j);
  }

  /**
   * `HittableList::Hit` as a whole: true iff some child reported a hit; then the record is
   * within `[t_min, t_max]` and no farther than any reported hit; otherwise nothing was written.
   */
  lemma ListHitNearest<M(!new)>(env: Env<M>, objects: seq<Hittable<M>>, r: Ray, tMin: real, tMax: real, rec: Record<M>)
    requires LawfulEnv(env) && Admissible(List(objects), r) && Rigid(List(objects))
    ensures Hit(env, List(objects), r, tMin, tMax, rec).0 <==>
              exists k :: 0 <= k < |objects| && ChildHit(env, List(objects), r, tMin, tMax, rec, k).0
    ensures Honest(Hit(env, List(objects), r, tMin, tMax, rec), r, tMin, tMax, rec)
    ensures forall k | 0 <= k < |objects| && ChildHit(env, List(objects), r, tMin, tMax, rec, k).0 ::
              Hit(env, List(objects), r, tMin, tMax, rec).1.t <= ChildHit(env, List(objects), r, tMin, tMax, rec, k).1.t
  {
    var h := List(objects);
    ScanHitIffSomeChild(env, h, r, tMin, tMax, rec, |objects|);
    HitHonest(env, h, r, tMin, tMax, rec);
    forall k | 0 <= k < |objects| && ChildHit(env, h, r, tMin, tMax, rec, k).0
      ensures Hit(env, h, r, tMin, tMax, rec).1.t <= ChildHit(env, h, r, tMin, tMax, rec, k).1.t
    {
      ScanNearest(env, h, r, tMin, tMax, rec, |objects|, k);
    }
  }

  /**
   * `BvhNode::Hit`: a ray that misses the box reports nothing and writes nothing; otherwise
   * the right child is asked only up to the left child's hit, so the result is never farther
   * than the left hit, and a right miss keeps the left child's record.
   */
  lemma BvhHitTightens<M(!new)>(env: Env<M>, left: Hittable<M>, right: Hittable<M>, box: Boxes.Aabb,
                                r: Ray, tMin: real, tMax: real, rec: Record<M>)
    requires LawfulEnv(env) && Admissible(BvhNode(left, right, box), r) && Rigid(BvhNode(left, right, box))
    ensures !Boxes.SlabHit(box, r, 0, tMin, tMax) ==> Hit(env, BvhNode(left, right, box), r, tMin, tMax, rec) == (false, rec)
    ensures Boxes.SlabHit(box, r, 0, tMin, tMax) ==>
              var leftRes := Hit(env, left, r, tMin, tMax, rec);
              var rightRes := Hit(env, right, r, tMin, if leftRes.0 then leftRes.1.t else tMax, leftRes.1);
              var res := Hit(env, BvhNode(left, right, box), r, tMin, tMax, rec);
              && (res.0 <==> leftRes.0 || rightRes.0)
              && (leftRes.0 ==> res.0 && res.1.t <= leftRes.1.t)
              && (!rightRes.0 ==> res.1 == leftRes.1)
  {
    if Boxes.SlabHit(box, r, 0, tMin, tMax) {
      HitHonest(env, left, r, tMin, tMax, rec);
      var (hitLeft, afterLeft) := Hit(env, left, r, tMin, tMax, rec);
      HitHonest(env, right, r, tMin, if hitLeft then afterLeft.t else tMax, afterLeft);
    }
  }

  /**
   * `Translate::Hit`: the child misses exactly when the translation does; on a hit t, u, v
   * and material are the child's, p is shifted by the offset, and the normal is re-oriented
   * against the moved ray. A child normal that already faces the ray is kept and reported as
   * a front face, whatever the child reported.
   */
  lemma TranslateHitFacts<M>(env: Env<M>, child: Hittable<M>, offset: Vec3, r: Ray, tMin: real, tMax: real, rec: Record<M>)
    requires Admissible(Translate(child, offset), r)
    ensures var childRes := Hit(env, child, MovedRay(r, offset), tMin, tMax, rec);
            var res := Hit(env, Translate(child, offset), r, tMin, tMax, rec);
            && res.0 == childRes.0
            && (!childRes.0 ==> res.1 == childRes.1)
            && (childRes.0 ==> res.1.t == childRes.1.t && res.1.u == childRes.1.u && res.1.v == childRes.1.v
                               && res.1.material == childRes.1.material && res.1.p == Add(childRes.1.p, offset))
            && (childRes.0 ==> (res.1.frontFace <==> Dot(r.direction, childRes.1.normal) < 0.0))
            && (childRes.0 && Dot(r.direction, childRes.1.normal) < 0.0 ==> res.1.frontFace && res.1.normal == childRes.1.normal)
  {
  }

  /**
   * `RotateY::Hit`: the child is asked with the rotated ray (same y, same time); on a hit t is
   * the child's, p is rotated back, and the normal is the rotated-back child normal oriented
   * against the rotated ray.
   */
  lemma RotateHitFacts<M>(env: Env<M>, child: Hittable<M>, s: real, c: real, hasBox: bool, bbox: Boxes.Aabb,
                          r: Ray, tMin: real, tMax: real, rec: Record<M>)
    requires Admissible(RotateY(child, s, c, hasBox, bbox), r)
    ensures var rotated := RotatedRay(r, s, c);
            var childRes := Hit(env, child, rotated, tMin, tMax, rec);
            var res := Hit(env, RotateY(child, s, c, hasBox, bbox), r, tMin, tMax, rec);
            && res.0 == childRes.0
            && (!childRes.0 ==> res.1 == childRes.1)
            && (childRes.0 ==> res.1.t == childRes.1.t && res.1.p == RotateOut(s, c, childRes.1.p)
                               && res.1.material == childRes.1.material)
            && (childRes.0 ==> res.1.normal == WithFaceNormal(childRes.1, rotated, RotateOut(s, c, childRes.1.normal)).normal)
  {
  }

  /**
   * `BoundingBox` of the single objects: a sphere, a moving sphere, a rectangle and a BVH node
   * always have a box (the node the one it stored); a translation has one exactly when its
   * child has, moved by the offset with the child's extent, and leaves the child's output on
   * failure; a rotation reports the flag and the box its constructor stored.
   */
  lemma BoxCases<M>(env: Env<M>, h: Hittable<M>, time0: real, time1: real, out: Boxes.Aabb)
    requires BoxDefined(h)
    ensures h.Sphere? ==> BoundingBox(env, h, time0, time1, out) == (true, SphereBox(h.center, h.radius))
    ensures h.MovingSphere? ==>
              var box := BoundingBox(env, h, time0, time1, out);
              && box.0
              && Boxes.Encloses(box.1, SphereBox(Center(h.center0, h.center1, h.time0, h.time1, time0), h.radius))
              && Boxes.Encloses(box.1, SphereBox(Center(h.center0, h.center1, h.time0, h.time1, time1), h.radius))
              && box.1 == MovingSphereBox(h.center0, h.center1, h.time0, h.time1, h.radius, time0, time1)
    ensures h.Rectangle? ==> BoundingBox(env, h, time0, time1, out).0
    ensures h.BvhNode? ==> BoundingBox(env, h, time0, time1, out) == (true, h.box)
    ensures h.Translate? ==>
              var childBox := BoundingBox(env, h.child, time0, time1, out);
              var box := BoundingBox(env, h, time0, time1, out);
              && box.0 == childBox.0
              && (!childBox.0 ==> box.1 == childBox.1)
              && (childBox.0 ==> Sub(box.1.maximum, box.1.minimum) == Sub(childBox.1.maximum, childBox.1.minimum)
                                 && Sub(box.1.minimum, childBox.1.minimum) == h.offset)
    ensures h.RotateY? ==> BoundingBox(env, h, time0, time1, out) == (h.hasBox, h.bbox)
  {
  }

  /** Whether `BoundingBox` succeeds depends neither on the times asked for nor on the prior box, and a successful box does not depend on the prior box. */
  lemma {:induction false} BoxFlagStable<M>(env: Env<M>, h: Hittable<M>, time0: real, time1: real, out: Boxes.Aabb,
                                            time0': real, time1': real, out': Boxes.Aabb)
    requires BoxDefined(h)
    ensures BoundingBox(env, h, time0, time1, out).0 == BoundingBox(env, h, time0', time1', out').0
    ensures BoundingBox(env, h, time0, time1, out).0 ==>
              BoundingBox(env, h, time0, time1, out).1 == BoundingBox(env, h, time0, time1, out').1
    decreases h, |Members(h)| + 1
  {
    match h
    case List(objects) =>
      if |objects| > 0 {
        FoldStable(env, h, time0, time1, out, time0', time1', out', |objects|);
        FoldOutStable(env, h, time0, time1, out, out', |objects|);
      }
    case Translate(child, _) =>
      BoxFlagStable(env, child, time0, time1, out, time0', time1', out');
      BoxFlagStable(env, child, time0, time1, out, time0, time1, out');
    case _ =>
  }

  lemma {:induction false} FoldStable<M>(env: Env<M>, h: Hittable<M>, time0: real, time1: real, out: Boxes.Aabb,
                                         time0': real, time1': real, out': Boxes.Aabb, j: nat)
    requires h.List? || h.Box?
    requires BoxDefined(h) && j <= |Members(h)|
    ensures FoldAfter(env, h, time0, time1, out, j).stopped == FoldAfter(env, h, time0', time1', out', j).stopped
    ensures !FoldAfter(env, h, time0, time1, out, j).stopped ==> (FoldAfter(env, h, time0, time1, out, j).first <==> j == 0)
    decreases h, j
  {
    if j > 0 {
      FoldStable(env, h, time0, time1, out, time0', time1', out', j - 1);
      var s := FoldAfter(env, h, time0, time1, out, j - 1);
      var s' := FoldAfter(env, h, time0', time1', out', j - 1);
      if !s.stopped {
        assert BoxDefined(Members(h)[j - 1]);
        BoxFlagStable(env, Members(h)[j - 1], time0, time1, s.temp, time0', time1', s'.temp);
      }
    }
  }

  /** After at least one child, the output of the fold does not depend on the prior box. */
  lemma {:induction false} FoldOutStable<M>(env: Env<M>, h: Hittable<M>, time0: real, time1: real, out: Boxes.Aabb,
                                            out': Boxes.Aabb, j: nat)
    requires h.List? || h.Box?
    requires BoxDefined(h) && j <= |Members(h)|
    ensures !FoldAfter(env, h, time0, time1, out, j).stopped && j > 0 ==>
              FoldAfter(env, h, time0, time1, out, j).out == FoldAfter(env, h, time0, time1, out', j).out
    decreases h, j
  {
    if j > 0 {
      FoldStable(env, h, time0, time1, out, time0, time1, out', j - 1);
      FoldStable(env, h, time0, time1, out', time0, time1, out, j - 1);
      FoldOutStable(env, h, time0, time1, out, out', j - 1);
      var s := FoldAfter(env, h, time0, time1, out, j - 1);
      var s' := FoldAfter(env, h, time0, time1, out', j - 1);
      if !s.stopped {
        assert BoxDefined(Members(h)[j - 1]);
        BoxFlagStable(env, Members(h)[j - 1], time0, time1, s.temp, time0, time1, s'.temp);
      }
    }
  }

  /**
   * The fold of `HittableList::BoundingBox` after `j` children: it is still running iff each
   * of them had a box, and then its output encloses each of their boxes.
   */
  lemma {:induction false} FoldEncloses<M>(env: Env<M>, h: Hittable<M>, time0: real, time1: real, out: Boxes.Aabb, j: nat)
    requires h.List? || h.Box?
    requires BoxDefined(h) && j <= |Members(h)|
    ensures !FoldAfter(env, h, time0, time1, out, j).stopped <==>
              forall k | 0 <= k < j :: ChildBox(env, h, time0, time1, k).0
    ensures !FoldAfter(env, h, time0, time1, out, j).stopped ==>
              forall k | 0 <= k < j :: Boxes.Encloses(FoldAfter(env, h, time0, time1, out, j).out, ChildBox(env, h, time0, time1, k).1)
    decreases j
  {
    if j > 0 {
      FoldEncloses(env, h, time0, time1, out, j - 1);
      FoldStable(env, h, time0, time1, out, time0, time1, out, j - 1);
      var s := FoldAfter(env, h, time0, time1, out, j - 1);
      if !s.stopped {
        assert BoxDefined(Members(h)[j - 1]);
        BoxFlagStable(env, Members(h)[j - 1], time0, time1, s.temp, time0, time1, Boxes.DefaultBox);
        var next := FoldAfter(env, h, time0, time1, out, j);
        assert next.stopped <==> !ChildBox(env, h, time0, time1, j - 1).0;
        if !next.stopped {
          forall k | 0 <= k < j
            ensures Boxes.Encloses(next.out, ChildBox(env, h, time0, time1, k).1)
          {
            if k < j - 1 {
              Boxes.EnclosesTransitive(next.out, s.out, ChildBox(env, h, time0, time1, k).1);
            }
          }
        }
      }
    }
  }

  /** Any box enclosing the boxes of the first `j` children encloses the fold's output: it is the least such box. */
  lemma {:induction false} FoldLeast<M>(env: Env<M>, h: Hittable<M>, time0: real, time1: real, out: Boxes.Aabb, j: nat, outer: Boxes.Aabb)
    requires h.List? || h.Box?
    requires BoxDefined(h) && 0 < j <= |Members(h)|
    requires !FoldAfter(env, h, time0, time1, out, j).stopped
    requires forall k | 0 <= k < j :: Boxes.Encloses(outer, ChildBox(env, h, time0, time1, k).1)
    ensures Boxes.Encloses(outer, FoldAfter(env, h, time0, time1, out, j).out)
    decreases j
  {
    FoldStable(env, h, time0, time1, out, time0, time1, out, j - 1);
    var s := FoldAfter(env, h, time0, time1, out, j - 1);
    assert !s.stopped;
    assert BoxDefined(Members(h)[j - 1]);
    BoxFlagStable(env, Members(h)[j - 1], time0, time1, s.temp, time0, time1, Boxes.DefaultBox);
    var temp := BoundingBox(env, Members(h)[j - 1], time0, time1, s.temp);
    assert temp.0 && temp.1 == ChildBox(env, h, time0, time1, j - 1).1;
    assert Boxes.Encloses(outer, temp.1);
    assert FoldAfter(env, h, time0, time1, out, j).out == if s.first then temp.1 else Boxes.SurroundingBox(s.out, temp.1);
    if j > 1 {
      FoldLeast(env, h, time0, time1, out, j - 1, outer);
      Boxes.SurroundingBoxLeast(outer, s.out, temp.1);
    }
  }

  /** Once a child without a box has stopped the fold, later children are not asked. */
  lemma {:induction false} FoldStopsEarly<M>(env: Env<M>, h: Hittable<M>, time0: real, time1: real, out: Boxes.Aabb, j: nat, j': nat)
    requires h.List? || h.Box?
    requires BoxDefined(h) && j <= j' <= |Members(h)|
    requires FoldAfter(env, h, time0, time1, out, j).stopped
    ensures FoldAfter(env, h, time0, time1, out, j') == FoldAfter(env, h, time0, time1, out, j)
    decreases j'
  {
    if j < j' {
      FoldStopsEarly(env, h, time0, time1, out, j, j' - 1);
    }
  }

  /**
   * `HittableList::BoundingBox`: false for an empty list (output untouched) and whenever a
   * child has no box; otherwise true, with an output enclosing every child's box and
   * enclosed by every box that encloses them all.
   */
  lemma ListBoundingBox<M>(env: Env<M>, objects: seq<Hittable<M>>, time0: real, time1: real, out: Boxes.Aabb, outer: Boxes.Aabb)
    requires BoxDefined(List(objects))
    ensures |objects| == 0 ==> BoundingBox(env, List(objects), time0, time1, out) == (false, out)
    ensures BoundingBox(env, List(objects), time0, time1, out).0 <==>
              |objects| > 0 && forall k | 0 <= k < |objects| :: ChildBox(env, List(objects), time0, time1, k).0
    ensures BoundingBox(env, List(objects), time0, time1, out).0 ==>
              forall k | 0 <= k < |objects| ::
                Boxes.Encloses(BoundingBox(env, List(objects), time0, time1, out).1, ChildBox(env, List(objects), time0, time1, k).1)
    ensures BoundingBox(env, List(objects), time0, time1, out).0
            && (forall k | 0 <= k < |objects| :: Boxes.Encloses(outer, ChildBox(env, List(objects), time0, time1, k).1))
            ==> Boxes.Encloses(outer, BoundingBox(env, List(objects), time0, time1, out).1)
  {
    var h := List(objects);
    if |objects| > 0 {
      FoldEncloses(env, h, time0, time1, out, |objects|);
      if BoundingBox(env, h, time0, time1, out).0
         && (forall k | 0 <= k < |objects| :: Boxes.Encloses(outer, ChildBox(env, h, time0, time1, k).1)) {
        FoldLeast(env, h, time0, time1, out, |objects|, outer);
      }
    }
  }
}
