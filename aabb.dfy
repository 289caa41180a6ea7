/**
 * Axis-aligned bounding boxes: the union of two boxes and the slab test.
 */
module Boxes {

  import opened RtWeekend
  import opened Vectors
  import opened Rays

  /** `Aabb(a, b)`: the constructor stores the two corners as given; the accessors return them. */
  datatype Aabb = Aabb(minimum: Point3, maximum: Point3)

  /** A default-constructed `Aabb`: both corners are the zero vector. */
  const DefaultBox: Aabb := Aabb(Zero, Zero)

  /** The box moved by `offset`: both corners shifted, so the extent is unchanged. */
  function Shifted(box: Aabb, offset: Vec3): (moved: Aabb)
    ensures Sub(moved.maximum, moved.minimum) == Sub(box.maximum, box.minimum)
    ensures Sub(moved.minimum, box.minimum) == offset
  {
    Aabb(Add(box.minimum, offset), Add(box.maximum, offset))
  }

  /** `outer` reaches at least as far as `inner` on every axis, in both directions. */
  predicate Encloses(outer: Aabb, inner: Aabb) {
    && outer.minimum.x <= inner.minimum.x && inner.maximum.x <= outer.maximum.x
    && outer.minimum.y <= inner.minimum.y && inner.maximum.y <= outer.maximum.y
    && outer.minimum.z <= inner.minimum.z && inner.maximum.z <= outer.maximum.z
  }

  /** The point `p` lies between the two corners on every axis. */
  predicate Contains(box: Aabb, p: Point3) {
    && box.minimum.x <= p.x <= box.maximum.x
    && box.minimum.y <= p.y <= box.maximum.y
    && box.minimum.z <= p.z <= box.maximum.z
  }

  lemma EnclosesTransitive(a: Aabb, b: Aabb, c: Aabb)
    requires Encloses(a, b) && Encloses(b, c)
    ensures Encloses(a, c)
  {
  }

  /** `SurroundingBox(box0, box1)`: componentwise minimum of the minima, maximum of the maxima. */
  function SurroundingBox(box0: Aabb, box1: Aabb): (box: Aabb)
    ensures Encloses(box, box0) && Encloses(box, box1)
  {
    Aabb(Vec3(Fmin(box0.minimum.x, box1.minimum.x),
              Fmin(box0.minimum.y, box1.minimum.y),
              Fmin(box0.minimum.z, box1.minimum.z)),
         Vec3(Fmax(box0.maximum.x, box1.maximum.x),
              Fmax(box0.maximum.y, box1.maximum.y),
              Fmax(box0.maximum.z, box1.maximum.z)))
  }

  /** The surrounding box is the smallest box enclosing both: any box enclosing both encloses it. */
  lemma SurroundingBoxLeast(outer: Aabb, box0: Aabb, box1: Aabb)
    requires Encloses(outer, box0) && Encloses(outer, box1)
    ensures Encloses(outer, SurroundingBox(box0, box1))
  {
  }

  /** The union is commutative, associative and idempotent. */
  lemma SurroundingBoxAlgebra(a: Aabb, b: Aabb, c: Aabb)
    ensures SurroundingBox(a, b) == SurroundingBox(b, a)
    ensures SurroundingBox(a, a) == a
    ensures SurroundingBox(SurroundingBox(a, b), c) == SurroundingBox(a, SurroundingBox(b, c))
  {
  }

  /** Enclosing a box is the same as not growing it under union. */
  lemma EnclosesIffAbsorbs(outer: Aabb, inner: Aabb)
    ensures Encloses(outer, inner) <==> SurroundingBox(outer, inner) == outer
  {
  }

  /** The ray has a non-zero direction on every axis, so the slab divisions are defined. */
  predicate SlabDefined(r: Ray) {
    r.direction.x != 0.0 && r.direction.y != 0.0 && r.direction.z != 0.0
  }

  /** `(minimum_[a] - origin[a]) / direction[a]` and its `maximum_` counterpart. */
  function SlabTimes(box: Aabb, r: Ray, a: int): (real, real)
    requires 0 <= a < 3 && SlabDefined(r)
  {
    var d := Get(r.direction, a);
    ((Get(box.minimum, a) - Get(r.origin, a)) / d, (Get(box.maximum, a) - Get(r.origin, a)) / d)
  }

  /** `t0`: the time the ray enters slab `a`. */
  function SlabEntry(box: Aabb, r: Ray, a: int): real
    requires 0 <= a < 3 && SlabDefined(r)
  {
    Fmin(SlabTimes(box, r, a).0, SlabTimes(box, r, a).1)
  }

  /** `t1`: the time the ray leaves slab `a`. */
  function SlabExit(box: Aabb, r: Ray, a: int): real
    requires 0 <= a < 3 && SlabDefined(r)
  {
    Fmax(SlabTimes(box, r, a).0, SlabTimes(box, r, a).1)
  }

  /** For every axis the ray enters its slab no later than it leaves it. */
  lemma SlabOrdered(box: Aabb, r: Ray, a: int)
    requires 0 <= a < 3 && SlabDefined(r)
    ensures SlabEntry(box, r, a) <= SlabExit(box, r, a)
  {
  }

  /**
   * What the loop of `Aabb::Hit` decides from axis `a` on, given the interval `(lo, hi)`
   * left by the earlier axes: narrow by the slab, stop with false once it is empty.
   */
  function SlabHit(box: Aabb, r: Ray, a: int, lo: real, hi: real): bool
    requires 0 <= a <= 3 && SlabDefined(r)
    decreases 3 - a
  {
    if a == 3 then true
    else
      var lo', hi' := Fmax(SlabEntry(box, r, a), lo), Fmin(SlabExit(box, r, a), hi);
      if hi' <= lo' then false else SlabHit(box, r, a + 1, lo', hi')
  }

  /** The latest entry time over the axes from `a` on, starting from `lo`. */
  function LatestEntry(box: Aabb, r: Ray, a: int, lo: real): (t: real)
    requires 0 <= a <= 3 && SlabDefined(r)
    ensures lo <= t
    decreases 3 - a
  {
    if a == 3 then lo else LatestEntry(box, r, a + 1, Fmax(SlabEntry(box, r, a), lo))
  }

  /** The earliest exit time over the axes from `a` on, starting from `hi`. */
  function EarliestExit(box: Aabb, r: Ray, a: int, hi: real): (t: real)
    requires 0 <= a <= 3 && SlabDefined(r)
    ensures t <= hi
    decreases 3 - a
  {
    if a == 3 then hi else EarliestExit(box, r, a + 1, Fmin(SlabExit(box, r, a), hi))
  }

  /**
   * The slab test succeeds exactly when the latest entry is strictly before the earliest exit:
   * the early `return false` never rejects a ray whose three slab intervals and `(t_min, t_max)`
   * overlap, and never accepts one whose intervals do not.
   */
  lemma {:induction false} SlabHitOverlap(box: Aabb, r: Ray, a: int, lo: real, hi: real)
    requires 0 <= a <= 3 && SlabDefined(r)
    requires a == 3 ==> lo < hi
    ensures SlabHit(box, r, a, lo, hi) <==> LatestEntry(box, r, a, lo) < EarliestExit(box, r, a, hi)
    decreases 3 - a
  {
    if a < 3 {
      var lo', hi' := Fmax(SlabEntry(box, r, a), lo), Fmin(SlabExit(box, r, a), hi);
      assert LatestEntry(box, r, a, lo) == LatestEntry(box, r, a + 1, lo');
      assert EarliestExit(box, r, a, hi) == EarliestExit(box, r, a + 1, hi');
      if hi' > lo' {
        SlabHitOverlap(box, r, a + 1, lo', hi');
      } else {
        assert lo' <= LatestEntry(box, r, a + 1, lo') && EarliestExit(box, r, a + 1, hi') <= hi';
      }
    }
  }

  /**
   * `Aabb::Hit`: the three-axis loop that narrows `t_min`/`t_max` slab by slab and returns
   * false as soon as the interval is empty.
   */
  method Hit(box: Aabb, r: Ray, tMin: real, tMax: real) returns (hit: bool)
    requires SlabDefined(r)
    ensures hit == SlabHit(box, r, 0, tMin, tMax)
    ensures hit <==> LatestEntry(box, r, 0, tMin) < EarliestExit(box, r, 0, tMax)
  {
    SlabHitOverlap(box, r, 0, tMin, tMax);
    var lo, hi := tMin, tMax;
    var a := 0;
    while a < 3
      invariant 0 <= a <= 3
      invariant tMin <= lo && hi <= tMax
      invariant SlabHit(box, r, a, lo, hi) == SlabHit(box, r, 0, tMin, tMax)
    {
      var t0 := SlabEntry(box, r, a);
      var t1 := SlabExit(box, r, a);
      lo := Fmax(t0, lo);
      hi := Fmin(t1, hi);
      if hi <= lo {
        return false;
      }
      a := a + 1;
    }
    return true;
  }
}
