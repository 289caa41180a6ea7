/**
 * The contract `std::sort` meets on a range `[start, end)` of a vector, for a comparator
 * `key(a) < key(b)`: the range ends ordered by the key and is a permutation of itself, and
 * nothing outside it changes. Generic in the element type and the key.
 */
module Sorting {

  /** The keys never decrease along `s`. */
  ghost predicate OrderedBy<T>(s: seq<T>, key: T -> real) {
    forall k, l :: 0 <= k < l < |s| ==> key(s[k]) <= key(s[l])
  }

  /** Every key of `lower` is at most every key of `upper`. */
  ghost predicate Below<T>(lower: seq<T>, upper: seq<T>, key: T -> real) {
    forall k, l :: 0 <= k < |lower| && 0 <= l < |upper| ==> key(lower[k]) <= key(upper[l])
  }

  /**
   * Sorts `a[start..end]` by `key` in place. (The algorithm is insertion by adjacent swaps, not
   * that of the C++ library; only the contract is shared.)
   */
  method SortRange<T>(a: array<T>, start: int, end: int, key: T -> real)
    requires 0 <= start <= end <= a.Length
    modifies a
    ensures forall k :: 0 <= k < a.Length && !(start <= k < end) ==> a[k] == old(a[k])
    ensures multiset(a[start..end]) == multiset(old(a[start..end]))
    ensures OrderedBy(a[start..end], key)
  {
    if start == end {
      return;
    }
    var i := start + 1;
    while i < end
      invariant start < i <= end
      invariant forall k :: 0 <= k < a.Length && !(start <= k < end) ==> a[k] == old(a[k])
      invariant multiset(a[start..end]) == multiset(old(a[start..end]))
      invariant forall k, l :: start <= k < l < i ==> key(a[k]) <= key(a[l])
    {
      InsertAt(a, start, i, end, key);
      i := i + 1;
    }
    assert forall k, l :: 0 <= k < l < end - start ==> a[start..end][k] == a[start + k] && a[start..end][l] == a[start + l];
  }

  /** One insertion step: `a[i]` moves down past every larger key, so `a[start..i+1]` is ordered. */
  method InsertAt<T>(a: array<T>, start: int, i: int, end: int, key: T -> real)
    requires 0 <= start < i < end <= a.Length
    requires forall k, l :: start <= k < l < i ==> key(a[k]) <= key(a[l])
    modifies a
    ensures forall k :: 0 <= k < a.Length && !(start <= k <= i) ==> a[k] == old(a[k])
    ensures multiset(a[start..end]) == multiset(old(a[start..end]))
    ensures forall k, l :: start <= k < l <= i ==> key(a[k]) <= key(a[l])
  {
    var j := i;
    while j > start && key(a[j - 1]) > key(a[j])
      invariant start <= j <= i
      invariant forall k :: 0 <= k < a.Length && !(start <= k <= i) ==> a[k] == old(a[k])
      invariant multiset(a[start..end]) == multiset(old(a[start..end]))
      invariant forall k, l :: start <= k < l <= i && k != j && l != j ==> key(a[k]) <= key(a[l])
      invariant forall l :: j < l <= i ==> key(a[j]) < key(a[l])
    {
      Swap(a, start, end, j - 1, j);
      j := j - 1;
    }
  }

  /** Exchanges two entries of `[lo, hi)`; the range stays a permutation of itself. */
  method Swap<T>(a: array<T>, lo: int, hi: int, i: int, j: int)
    requires 0 <= lo <= i < hi <= a.Length && lo <= j < hi
    modifies a
    ensures a[i] == old(a[j]) && a[j] == old(a[i])
    ensures forall k :: 0 <= k < a.Length && k != i && k != j ==> a[k] == old(a[k])
    ensures multiset(a[lo..hi]) == multiset(old(a[lo..hi]))
  {
    ghost var before := a[lo..hi];
    a[i], a[j] := a[j], a[i];
    assert a[lo..hi] == before[i - lo := before[j - lo]][j - lo := before[i - lo]];
  }

  /** An ordered sequence cut anywhere has every key of the front at most every key of the back. */
  lemma SplitOrdered<T>(s: seq<T>, cut: int, key: T -> real)
    requires 0 <= cut <= |s| && OrderedBy(s, key)
    ensures Below(s[..cut], s[cut..], key)
  {
    forall k, l | 0 <= k < cut && 0 <= l < |s| - cut
      ensures key(s[..cut][k]) <= key(s[cut..][l])
    {
      assert s[..cut][k] == s[k] && s[cut..][l] == s[cut + l];
    }
  }

  /** Permuting either side keeps every key of the lower side at most every key of the upper. */
  lemma BelowPermuted<T>(lower: seq<T>, lower': seq<T>, upper: seq<T>, upper': seq<T>, key: T -> real)
    requires multiset(lower') == multiset(lower) && multiset(upper') == multiset(upper)
    requires Below(lower, upper, key)
    ensures Below(lower', upper', key)
  {
    forall k, l | 0 <= k < |lower'| && 0 <= l < |upper'|
      ensures key(lower'[k]) <= key(upper'[l])
    {
      assert lower'[k] in multiset(lower);
      assert upper'[l] in multiset(upper);
      var k0 :| 0 <= k0 < |lower| && lower[k0] == lower'[k];
      var l0 :| 0 <= l0 < |upper| && upper[l0] == upper'[l];
    }
  }
}
