/**
 * Construction of the bounding volume hierarchy of src/object/bvh.h.
 *
 * The constructor picks a random axis, orders the object range `[start, end)` of the source
 * vector in place by the minimum corner of each object's box on that axis, splits it in the
 * middle and recurses; the node's box is the union of the two children's boxes. The object
 * vector is an `array`, the draw of `RandomInt(0, 2)` of each node a parameter indexed by the
 * node's range (which identifies the call), and the built node a `Hittable` value.
 * `BvhNode::Hit` and `BvhNode::BoundingBox` are the `BvhNode` cases of `Scene.Hit` and
 * `Scene.BoundingBox`.
 */
module Bvh {

  import opened RtWeekend
  import opened Vectors
  import Boxes
  import opened Scene
  import Objects
  import Sorting

  /** The box an object writes for `BoundingBox(0, 0, &box)` into a default box, and its flag. */
  function TimeZeroBox<M>(env: Env<M>, h: Hittable<M>): (bool, Boxes.Aabb)
    requires BoxDefined(h)
  {
    BoundingBox(env, h, 0.0, 0.0, Boxes.DefaultBox)
  }

  /** What `BoxCompare` compares: the minimum corner, on `axis`, of the box at time 0. */
  function Key<M>(env: Env<M>, h: Hittable<M>, axis: int): real
    requires BoxDefined(h) && 0 <= axis < 3
  {
    Get(TimeZeroBox(env, h).1.minimum, axis)
  }

  /**
   * `BoxCompare(a, b, axis)`: by the short-circuit `||`, b's box is not asked for when a has
   * none, and stays the default (zero) box. When both objects have a box it is `Key(a) < Key(b)`.
   */
  function BoxCompare<M>(env: Env<M>, a: Hittable<M>, b: Hittable<M>, axis: int): (less: bool)
    requires BoxDefined(a) && BoxDefined(b) && 0 <= axis < 3
    ensures TimeZeroBox(env, a).0 && TimeZeroBox(env, b).0 ==> (less <==> Key(env, a, axis) < Key(env, b, axis))
    ensures !TimeZeroBox(env, a).0 ==> (less <==> Key(env, a, axis) < 0.0)
  {
    var boxA := TimeZeroBox(env, a);
    var boxB := if !boxA.0 then Boxes.DefaultBox else TimeZeroBox(env, b).1;
    Get(boxA.1.minimum, axis) < Get(boxB.minimum, axis)
  }

  /** The axis of a node: `RandomInt(0, 2)` on the node's draw. */
  function ChosenAxis(draw: real): (axis: int)
    requires 0.0 <= draw < 1.0
    ensures 0 <= axis < 3
  {
    RandomIntRange(0, 2, draw);
    RandomInt(0, 2, draw)
  }

  /** Every object has a well-defined `BoundingBox`. */
  ghost predicate AllBoxDefined<M>(s: seq<Hittable<M>>) {
    forall k {:trigger BoxDefined(s[k])} :: 0 <= k < |s| ==> BoxDefined(s[k])
  }

  /** `Key` on `axis` as the key the sort orders by (objects without a defined box do not occur). */
  function KeyOn<M>(env: Env<M>, axis: int): Hittable<M> -> real
    requires 0 <= axis < 3
  {
    h => if BoxDefined(h) then Key(env, h, axis) else 0.0
  }

  /** Line 91 of the constructor: where a range of three or more objects is cut in two. */
  function Mid(start: int, end: int): int {
    start + (end - start) / 2
  }

  /**
   * The constructor's third branch takes every span other than one and two, the empty span
   * included. For a non-empty range its lower half is strictly shorter than the range. For an
   * empty range the cut lies at `start`, so the lower half is the same empty range again.
   */
  lemma SplitProgress(start: int, end: int)
    requires start <= end
    ensures Mid(start, end) - start < end - start <==> start < end
    ensures start == end ==> Mid(start, end) == start && Mid(start, end) == end
  {
  }

  /** The entries of `after` outside `[start, end)` are those of `before`. */
  ghost predicate SameOutside<T>(before: seq<T>, after: seq<T>, start: int, end: int) {
    |after| == |before| && forall k :: 0 <= k < |after| && !(start <= k < end) ==> after[k] == before[k]
  }

  /**
   * The objects a node built over the range `[start, end)` holds at its leaves, in order: one
   * object put twice counts once, two objects are the two children, a longer range is the
   * leaves of the lower half followed by those of the upper half.
   */
  function Spanned<M>(node: Hittable<M>, start: int, end: int): seq<Hittable<M>>
    decreases end - start
  {
    if !node.BvhNode? then []
    else if end - start <= 1 then [node.left]
    else if end - start == 2 then [node.left, node.right]
    else Spanned(node.left, start, Mid(start, end)) + Spanned(node.right, Mid(start, end), end)
  }

  /**
   * The box the constructor stores: the union of the left box and the right box, where the
   * right child is not asked (the box staying the default one) when the left has no box.
   */
  function ChildrenBox<M>(env: Env<M>, left: Hittable<M>, right: Hittable<M>, time0: real, time1: real): Boxes.Aabb
    requires BoxDefined(left) && BoxDefined(right)
  {
    var boxLeft := BoundingBox(env, left, time0, time1, Boxes.DefaultBox);
    var boxRight := if !boxLeft.0 then Boxes.DefaultBox else BoundingBox(env, right, time0, time1, Boxes.DefaultBox).1;
    Boxes.SurroundingBox(boxLeft.1, boxRight)
  }

  /** Every object of `s` has a box over `[time0, time1]` when asked with a default output box. */
  ghost predicate AllHaveBoxes<M>(env: Env<M>, s: seq<Hittable<M>>, time0: real, time1: real)
    requires AllBoxDefined(s)
  {
    forall k {:trigger BoundingBox(env, s[k], time0, time1, Boxes.DefaultBox)} :: 0 <= k < |s| ==> BoundingBox(env, s[k], time0, time1, Boxes.DefaultBox).0
  }

  /** `box` encloses the box of every object of `s`. */
  ghost predicate EnclosesAll<M>(env: Env<M>, box: Boxes.Aabb, s: seq<Hittable<M>>, time0: real, time1: real)
    requires AllBoxDefined(s)
  {
    forall k {:trigger BoundingBox(env, s[k], time0, time1, Boxes.DefaultBox)} :: 0 <= k < |s| ==> Boxes.Encloses(box, BoundingBox(env, s[k], time0, time1, Boxes.DefaultBox).1)
  }

  /**
   * `BvhNode(src_objects, start, end, time0, time1)`. Only `[start, end)` of the vector is
   * reordered, into a permutation of itself (and not at all for one or two objects); the
   * leaves are the objects of the range; the box is the union of the children's and encloses
   * every leaf's box. `BuildLeaves` and `BuildSplit` state what each case does.
   */
  method Build<M>(env: Env<M>, objects: array<Hittable<M>>, start: int, end: int, time0: real, time1: real,
                  draw: (int, int) -> real)
    returns (node: Hittable<M>)
    requires 0 <= start < end <= objects.Length
    requires AllBoxDefined(objects[start..end])
    requires forall s, e :: 0.0 <= draw(s, e) < 1.0
    modifies objects
    decreases end - start, 2
    ensures node.BvhNode? && BoxDefined(node)
    ensures SameOutside(old(objects[..]), objects[..], start, end)
    ensures multiset(objects[start..end]) == multiset(old(objects[start..end]))
    ensures AllBoxDefined(objects[start..end])
    ensures multiset(Spanned(node, start, end)) == multiset(objects[start..end])
    ensures end - start <= 2 ==> objects[start..end] == old(objects[start..end])
    ensures node.box == ChildrenBox(env, node.left, node.right, time0, time1)
    ensures AllHaveBoxes(env, objects[start..end], time0, time1) ==>
              EnclosesAll(env, node.box, objects[start..end], time0, time1)
  {
    var axis := ChosenAxis(draw(start, end));
    if end - start <= 2 {
      node := BuildLeaves(env, objects, start, end, axis, time0, time1);
    } else {
      node := BuildSplit(env, objects, start, end, axis, time0, time1, draw);
    }
  }

  /** Lines 78-87 and 96-103 of the constructor: a range of one or two objects, which stays as it is. */
  method BuildLeaves<M>(env: Env<M>, objects: array<Hittable<M>>, start: int, end: int, axis: int,
                        time0: real, time1: real)
    returns (node: Hittable<M>)
    requires 0 <= start < end <= objects.Length && end - start <= 2 && 0 <= axis < 3
    requires AllBoxDefined(objects[start..end])
    ensures node.BvhNode? && BoxDefined(node)
    ensures multiset(Spanned(node, start, end)) == multiset(objects[start..end])
    ensures end - start == 1 ==> node.left == node.right == objects[start]
    ensures end - start == 2 ==>
              var pair := objects[start..end];
              if BoxCompare(env, pair[0], pair[1], axis)
              then node.left == pair[0] && node.right == pair[1]
              else node.left == pair[1] && node.right == pair[0]
    ensures end - start == 2 ==>
              var pair := objects[start..end];
              TimeZeroBox(env, pair[0]).0 && TimeZeroBox(env, pair[1]).0 ==>
              Key(env, node.left, axis) <= Key(env, node.right, axis)
    ensures node.box == ChildrenBox(env, node.left, node.right, time0, time1)
    ensures AllHaveBoxes(env, objects[start..end], time0, time1) ==>
              EnclosesAll(env, node.box, objects[start..end], time0, time1)
  {
    assert BoxDefined(objects[start]);
    var left, right;
    if end - start == 1 {
      left, right := objects[start], objects[start];
      assert objects[start..end] == [objects[start]];
    } else {
      assert BoxDefined(objects[start + 1]);
      if BoxCompare(env, objects[start], objects[start + 1], axis) {
        left, right := objects[start], objects[start + 1];
      } else {
        left, right := objects[start + 1], objects[start];
      }
      assert objects[start..end] == [objects[start], objects[start + 1]];
    }
    node := BvhNode(left, right, ChildrenBox(env, left, right, time0, time1));
  }

  /** Lines 88-103 of the constructor: a range of three or more objects is ordered, halved and built below. */
  method BuildSplit<M>(env: Env<M>, objects: array<Hittable<M>>, start: int, end: int, axis: int,
                       time0: real, time1: real, draw: (int, int) -> real)
    returns (node: Hittable<M>)
    requires 0 <= start && end - start >= 3 && end <= objects.Length && 0 <= axis < 3
    requires AllBoxDefined(objects[start..end])
    requires forall s, e :: 0.0 <= draw(s, e) < 1.0
    modifies objects
    decreases end - start, 1
    ensures node.BvhNode? && BoxDefined(node)
    ensures SameOutside(old(objects[..]), objects[..], start, end)
    ensures multiset(objects[start..end]) == multiset(old(objects[start..end]))
    ensures AllBoxDefined(objects[start..end])
    ensures multiset(Spanned(node, start, end)) == multiset(objects[start..end])
    ensures start < Mid(start, end) < end
    ensures multiset(Spanned(node.left, start, Mid(start, end))) == multiset(objects[start..Mid(start, end)])
    ensures multiset(Spanned(node.right, Mid(start, end), end)) == multiset(objects[Mid(start, end)..end])
    ensures Sorting.Below(objects[start..Mid(start, end)], objects[Mid(start, end)..end], KeyOn(env, axis))
    ensures node.box == ChildrenBox(env, node.left, node.right, time0, time1)
    ensures AllHaveBoxes(env, objects[start..end], time0, time1) ==>
              EnclosesAll(env, node.box, objects[start..end], time0, time1)
  {
    ghost var original := objects[..];
    Sorting.SortRange(objects, start, end, KeyOn(env, axis));
    ghost var sorted := objects[..];
    var mid := Mid(start, end);
    SortedFacts(original, sorted, start, mid, end, KeyOn(env, axis));
    node := BuildHalves(env, objects, start, mid, end, axis, time0, time1, draw);
    ghost var final := objects[..];
    Chain(original, sorted, final, start, mid, end);
    assert multiset(Spanned(node.left, start, mid)) == multiset(objects[start..mid]);
    assert multiset(Spanned(node.right, mid, end)) == multiset(objects[mid..end]);
    assert Sorting.Below(objects[start..mid], objects[mid..end], KeyOn(env, axis));
  }

  /** Lines 92-103 of the constructor: the two halves of an ordered range are built below the node. */
  method BuildHalves<M>(env: Env<M>, objects: array<Hittable<M>>, start: int, mid: int, end: int, axis: int,
                        time0: real, time1: real, draw: (int, int) -> real)
    returns (node: Hittable<M>)
    requires 0 <= start && end - start >= 3 && end <= objects.Length && 0 <= axis < 3
    requires mid == Mid(start, end)
    requires AllBoxDefined(objects[start..mid]) && AllBoxDefined(objects[mid..end])
    requires Sorting.Below(objects[start..mid], objects[mid..end], KeyOn(env, axis))
    requires forall s, e :: 0.0 <= draw(s, e) < 1.0
    modifies objects
    decreases end - start, 0
    ensures node.BvhNode? && BoxDefined(node)
    ensures SameOutside(old(objects[..]), objects[..], start, end)
    ensures multiset(objects[start..mid]) == multiset(old(objects[start..mid]))
    ensures multiset(objects[mid..end]) == multiset(old(objects[mid..end]))
    ensures objects[start..end] == objects[start..mid] + objects[mid..end]
    ensures AllBoxDefined(objects[start..end])
    ensures multiset(Spanned(node, start, end)) == multiset(objects[start..end])
    ensures multiset(Spanned(node.left, start, mid)) == multiset(objects[start..mid])
    ensures multiset(Spanned(node.right, mid, end)) == multiset(objects[mid..end])
    ensures Sorting.Below(objects[start..mid], objects[mid..end], KeyOn(env, axis))
    ensures node.box == ChildrenBox(env, node.left, node.right, time0, time1)
    ensures AllHaveBoxes(env, objects[start..end], time0, time1) ==>
              EnclosesAll(env, node.box, objects[start..end], time0, time1)
  {
    ghost var before := objects[..];
    var left := Build(env, objects, start, mid, time0, time1, draw);
    ghost var lower := objects[start..mid];
    ghost var afterLeft := objects[..];
    assert multiset(Spanned(left, start, mid)) == multiset(lower);
    UnchangedSlice(before, afterLeft, start, mid, mid, end);
    var right := Build(env, objects, mid, end, time0, time1, draw);
    ghost var upper := objects[mid..end];
    ghost var final := objects[..];
    assert multiset(Spanned(right, mid, end)) == multiset(upper);
    UnchangedSlice(afterLeft, final, mid, end, start, mid);
    assert objects[start..mid] == lower;
    Combine(before, afterLeft, final, start, mid, end, KeyOn(env, axis));
    var box := ChildrenBox(env, left, right, time0, time1);
    SpannedHalves(left, right, box, start, mid, end, lower, upper);
    HalvesEnclosed(env, left, right, lower, upper, time0, time1);
    node := BvhNode(left, right, box);
    assert objects[start..end] == lower + upper;
  }

  /**
   * After the sort: both halves have defined boxes and every key of the lower half is at most
   * every key of the upper half.
   */
  lemma SortedFacts<M>(original: seq<Hittable<M>>, sorted: seq<Hittable<M>>, start: int, mid: int, end: int,
                       key: Hittable<M> -> real)
    requires 0 <= start <= mid <= end <= |original| == |sorted|
    requires AllBoxDefined(original[start..end])
    requires multiset(sorted[start..end]) == multiset(original[start..end])
    requires Sorting.OrderedBy(sorted[start..end], key)
    ensures AllBoxDefined(sorted[start..mid]) && AllBoxDefined(sorted[mid..end])
    ensures Sorting.Below(sorted[start..mid], sorted[mid..end], key)
  {
    PermutedBoxDefined(original[start..end], sorted[start..end]);
    SortedHalves(sorted, start, mid, end, key);
    SubrangeBoxDefined(sorted, start, end, start, mid);
    SubrangeBoxDefined(sorted, start, end, mid, end);
  }

  /** The sort followed by the rebuilding of the halves: still a permutation, nothing else touched. */
  lemma Chain<T>(original: seq<T>, sorted: seq<T>, final: seq<T>, start: int, mid: int, end: int)
    requires 0 <= start <= mid <= end <= |original|
    requires SameOutside(original, sorted, start, end) && SameOutside(sorted, final, start, end)
    requires multiset(sorted[start..end]) == multiset(original[start..end])
    requires multiset(final[start..mid]) == multiset(sorted[start..mid])
    requires multiset(final[mid..end]) == multiset(sorted[mid..end])
    requires final[start..end] == final[start..mid] + final[mid..end]
    ensures SameOutside(original, final, start, end)
    ensures multiset(final[start..end]) == multiset(original[start..end])
  {
    assert sorted[start..end] == sorted[start..mid] + sorted[mid..end];
  }

  /** The leaves of a node over three or more objects: those of the lower half, then the upper. */
  lemma SpannedHalves<M>(left: Hittable<M>, right: Hittable<M>, box: Boxes.Aabb, start: int, mid: int, end: int,
                         lower: seq<Hittable<M>>, upper: seq<Hittable<M>>)
    requires end - start >= 3 && mid == Mid(start, end)
    requires multiset(Spanned(left, start, mid)) == multiset(lower)
    requires multiset(Spanned(right, mid, end)) == multiset(upper)
    ensures multiset(Spanned(BvhNode(left, right, box), start, end)) == multiset(lower + upper)
  {
    assert Spanned(BvhNode(left, right, box), start, end) == Spanned(left, start, mid) + Spanned(right, mid, end);
  }

  /** The two halves of a sorted range: every key of the lower at most every key of the upper. */
  lemma SortedHalves<T>(s: seq<T>, start: int, mid: int, end: int, key: T -> real)
    requires 0 <= start <= mid <= end <= |s|
    requires Sorting.OrderedBy(s[start..end], key)
    ensures Sorting.Below(s[start..mid], s[mid..end], key)
  {
    Sorting.SplitOrdered(s[start..end], mid - start, key);
    assert s[start..end][..mid - start] == s[start..mid];
    assert s[start..end][mid - start..] == s[mid..end];
  }

  /** A part of a range of objects with defined boxes has defined boxes. */
  lemma SubrangeBoxDefined<M>(s: seq<Hittable<M>>, start: int, end: int, lo: int, hi: int)
    requires 0 <= start <= lo <= hi <= end <= |s|
    requires AllBoxDefined(s[start..end])
    ensures AllBoxDefined(s[lo..hi])
  {
    forall k | 0 <= k < hi - lo
      ensures BoxDefined(s[lo..hi][k])
    {
      assert s[lo..hi][k] == s[start..end][lo - start + k];
    }
  }

  /** A slice outside the range that changed is as it was. */
  lemma UnchangedSlice<T>(before: seq<T>, after: seq<T>, start: int, end: int, lo: int, hi: int)
    requires SameOutside(before, after, start, end)
    requires 0 <= lo <= hi <= |before| && (hi <= start || end <= lo)
    ensures after[lo..hi] == before[lo..hi]
  {
  }

  /**
   * After the lower half and then the upper half were rebuilt in place (each a permutation of
   * itself, nothing else touched): nothing outside the range changed, the range is the two
   * halves, and the lower keys still lie below the upper keys.
   */
  lemma Combine<T>(before: seq<T>, afterLeft: seq<T>, final: seq<T>, start: int, mid: int, end: int, key: T -> real)
    requires 0 <= start <= mid <= end <= |before|
    requires SameOutside(before, afterLeft, start, mid) && SameOutside(afterLeft, final, mid, end)
    requires multiset(afterLeft[start..mid]) == multiset(before[start..mid])
    requires multiset(final[mid..end]) == multiset(afterLeft[mid..end])
    requires afterLeft[mid..end] == before[mid..end] && final[start..mid] == afterLeft[start..mid]
    requires Sorting.Below(before[start..mid], before[mid..end], key)
    ensures SameOutside(before, final, start, end)
    ensures final[start..end] == final[start..mid] + final[mid..end]
    ensures Sorting.Below(final[start..mid], final[mid..end], key)
  {
    Sorting.BelowPermuted(before[start..mid], final[start..mid], before[mid..end], final[mid..end], key);
    assert final[start..end] == final[start..mid] + final[mid..end];
  }

  /** A permutation of objects with defined boxes has defined boxes. */
  lemma PermutedBoxDefined<M>(s: seq<Hittable<M>>, s': seq<Hittable<M>>)
    requires AllBoxDefined(s) && multiset(s') == multiset(s)
    ensures AllBoxDefined(s')
  {
    forall k | 0 <= k < |s'|
      ensures BoxDefined(s'[k])
    {
      assert s'[k] in multiset(s);
    }
  }

  /**
   * When the left node's box encloses the boxes of the lower objects and the right node's
   * those of the upper objects, the union stored above them encloses them all.
   */
  lemma HalvesEnclosed<M>(env: Env<M>, left: Hittable<M>, right: Hittable<M>,
                          lower: seq<Hittable<M>>, upper: seq<Hittable<M>>, time0: real, time1: real)
    requires left.BvhNode? && right.BvhNode? && BoxDefined(left) && BoxDefined(right)
    requires AllBoxDefined(lower) && AllBoxDefined(upper)
    requires AllHaveBoxes(env, lower, time0, time1) ==> EnclosesAll(env, left.box, lower, time0, time1)
    requires AllHaveBoxes(env, upper, time0, time1) ==> EnclosesAll(env, right.box, upper, time0, time1)
    ensures AllBoxDefined(lower + upper)
    ensures AllHaveBoxes(env, lower + upper, time0, time1) ==>
              EnclosesAll(env, ChildrenBox(env, left, right, time0, time1), lower + upper, time0, time1)
  {
    var both := lower + upper;
    assert forall k :: 0 <= k < |both| ==> both[k] == if k < |lower| then lower[k] else upper[k - |lower|];
    if AllHaveBoxes(env, both, time0, time1) {
      assert AllHaveBoxes(env, lower, time0, time1) by {
        forall k | 0 <= k < |lower| ensures BoundingBox(env, lower[k], time0, time1, Boxes.DefaultBox).0 {
          assert both[k] == lower[k];
        }
      }
      assert AllHaveBoxes(env, upper, time0, time1) by {
        forall k | 0 <= k < |upper| ensures BoundingBox(env, upper[k], time0, time1, Boxes.DefaultBox).0 {
          assert both[|lower| + k] == upper[k];
        }
      }
      var box := ChildrenBox(env, left, right, time0, time1);
      assert box == Boxes.SurroundingBox(left.box, right.box);
      forall k | 0 <= k < |both|
        ensures Boxes.Encloses(box, BoundingBox(env, both[k], time0, time1, Boxes.DefaultBox).1)
      {
        var inner := BoundingBox(env, both[k], time0, time1, Boxes.DefaultBox).1;
        if k < |lower| {
          Boxes.EnclosesTransitive(box, left.box, inner);
        } else {
          assert both[k] == upper[k - |lower|];
          Boxes.EnclosesTransitive(box, right.box, inner);
        }
      }
    }
  }

  /**
   * `BvhNode(list, time0, time1)`: builds over all the list's objects, reordering the list's
   * own vector, which it takes by reference.
   */
  method FromList<M>(env: Env<M>, list: Objects.HittableList<M>, time0: real, time1: real, draw: (int, int) -> real)
    returns (node: Hittable<M>)
    requires |list.objects| > 0 && AllBoxDefined(list.objects)
    requires forall s, e :: 0.0 <= draw(s, e) < 1.0
    modifies list
    ensures multiset(list.objects) == multiset(old(list.objects))
    ensures multiset(Spanned(node, 0, |list.objects|)) == multiset(list.objects)
    ensures node.BvhNode? && BoxDefined(node)
  {
    var a := new Hittable<M>[|list.objects|](i requires 0 <= i < |list.objects| reads list => list.objects[i]);
    assert a[..] == list.objects;
    assert a[0..a.Length] == a[..];
    node := Build(env, a, 0, a.Length, time0, time1, draw);
    assert a[0..a.Length] == a[..];
    list.objects := a[..];
  }
}
