/**
 * The Perlin noise generator of src/utility/perlin.h: 256 random unit gradients, three
 * random permutations of 0..255 made by a Fisher-Yates countdown, the lattice lookup of
 * `Noise` (`& 255` on each lattice coordinate, XOR of the three permuted indices) with its
 * trilinear blend, and the turbulence sum `Terb`.
 *
 * The random draws are parameters: one draw in [0, 1) per step of each shuffle, one triple
 * per gradient.
 */
module PerlinNoise {

  import opened RealArith
  import opened RtWeekend
  import opened Elementary
  import opened Vectors

  /** `point_count_`: the size of every table. */
  const PointCount: int := 256

  /** `Terb`'s default number of octaves. */
  const DefaultDepth: int := 7

  /** Every draw lies in [0, 1). */
  ghost predicate UnitDraws(draws: seq<real>) {
    forall k :: 0 <= k < |draws| ==> 0.0 <= draws[k] < 1.0
  }

  // ----- Permutation tables -----

  /** `0, 1, ..., n - 1`, what `PerlinGeneratePerm` writes before shuffling. */
  function Identity(n: nat): (s: seq<int>)
    ensures |s| == n && forall k :: 0 <= k < n ==> s[k] == k
  {
    seq(n, k => k)
  }

  /** `s` is a rearrangement of `0..n-1`. */
  ghost predicate IsPermutation(s: seq<int>, n: nat) {
    multiset(s) == multiset(Identity(n))
  }

  /** Each of `0..n-1` occurs once in `Identity(n)`. */
  lemma {:induction false} IdentityOnce(n: nat, v: int)
    requires 0 <= v < n
    ensures multiset(Identity(n))[v] == 1
  {
    assert Identity(n) == Identity(n - 1) + [n - 1];
    if v < n - 1 {
      IdentityOnce(n - 1, v);
    } else {
      assert v !in Identity(n - 1);
    }
  }

  /** Two positions of `s` holding `v` make `v` occur at least twice. */
  lemma TwiceInMultiset(s: seq<int>, k: int, l: int)
    requires 0 <= k < l < |s| && s[k] == s[l]
    ensures multiset(s)[s[k]] >= 2
  {
    assert s == s[..l] + s[l..];
    assert s[k] == s[..l][k] && s[l] == s[l..][0];
    assert multiset(s) == multiset(s[..l]) + multiset(s[l..]);
  }

  /** A permutation of `0..n-1` has `n` entries, all in range, all distinct, and misses none. */
  lemma PermutationEntries(s: seq<int>, n: nat)
    requires IsPermutation(s, n)
    ensures |s| == n
    ensures forall k :: 0 <= k < |s| ==> 0 <= s[k] < n
    ensures forall k, l :: 0 <= k < l < |s| ==> s[k] != s[l]
    ensures forall v :: 0 <= v < n ==> v in s
  {
    assert |s| == |multiset(s)| == |multiset(Identity(n))| == n;
    forall k | 0 <= k < |s|
      ensures 0 <= s[k] < n
    {
      assert s[k] in multiset(Identity(n));
      var m :| 0 <= m < n && Identity(n)[m] == s[k];
    }
    forall k, l | 0 <= k < l < |s|
      ensures s[k] != s[l]
    {
      if s[k] == s[l] {
        TwiceInMultiset(s, k, l);
        IdentityOnce(n, s[k]);
        assert false;
      }
    }
    forall v | 0 <= v < n
      ensures v in s
    {
      assert Identity(n)[v] == v;
      assert v in multiset(s);
    }
  }

  /** `RandomInt(0, i)` for the draw of step `i`: the slot that `p[i]` is swapped with. */
  function Target(i: int, draws: seq<real>): (target: int)
    requires 0 < i < |draws| && UnitDraws(draws)
    ensures 0 <= target <= i
  {
    RandomIntRange(0, i, draws[i]);
    RandomInt(0, i, draws[i])
  }

  /**
   * What the countdown of `Permute` leaves in `s` when it starts at `i`: swap `s[i]` with
   * `s[Target(i)]`, then go on with `i - 1`, down to 1.
   */
  function Shuffle(s: seq<int>, i: int, draws: seq<real>): (t: seq<int>)
    requires i < |s| && i < |draws| && UnitDraws(draws)
    ensures |t| == |s|
    decreases i
  {
    if i <= 0 then s
    else
      var target := Target(i, draws);
      Shuffle(s[i := s[target]][target := s[i]], i - 1, draws)
  }

  /** The shuffle only exchanges entries, so it keeps the multiset. */
  lemma {:induction false} ShufflePermutes(s: seq<int>, i: int, draws: seq<real>)
    requires i < |s| && i < |draws| && UnitDraws(draws)
    ensures multiset(Shuffle(s, i, draws)) == multiset(s)
    decreases i
  {
    if i > 0 {
      var target := Target(i, draws);
      var swapped := s[i := s[target]][target := s[i]];
      assert multiset(swapped) == multiset(s);
      ShufflePermutes(swapped, i - 1, draws);
    }
  }

  /** The shuffle leaves the entries at and beyond `i + 1` where they are. */
  lemma {:induction false} ShuffleKeepsTail(s: seq<int>, i: int, draws: seq<real>)
    requires i < |s| && i < |draws| && UnitDraws(draws)
    ensures forall k :: i < k < |s| && 0 < k ==> Shuffle(s, i, draws)[k] == s[k]
    decreases i
  {
    if i > 0 {
      var target := Target(i, draws);
      ShuffleKeepsTail(s[i := s[target]][target := s[i]], i - 1, draws);
    }
  }

  /** Whatever the draws, the three tables of a `Perlin` are permutations of 0..255. */
  lemma GeneratedTable(draws: seq<real>)
    requires PointCount <= |draws| && UnitDraws(draws)
    ensures var table := Shuffle(Identity(PointCount), PointCount - 1, draws);
            && IsPermutation(table, PointCount)
            && (forall k :: 0 <= k < PointCount ==> 0 <= table[k] < PointCount)
            && (forall k, l :: 0 <= k < l < PointCount ==> table[k] != table[l])
  {
    var table := Shuffle(Identity(PointCount), PointCount - 1, draws);
    ShufflePermutes(Identity(PointCount), PointCount - 1, draws);
    PermutationEntries(table, PointCount);
  }

  /**
   * `Permute(p, n)`: for `i` from `n - 1` down to 1, swap `p[i]` with `p[RandomInt(0, i)]`.
   * The first `n` entries are rearranged as `Shuffle` says and nothing beyond them changes.
   */
  method Permute(p: array<int>, n: int, draws: seq<real>)
    requires 0 <= n <= p.Length && n <= |draws| && UnitDraws(draws)
    modifies p
    ensures p[..n] == Shuffle(old(p[..n]), n - 1, draws)
    ensures multiset(p[..n]) == multiset(old(p[..n]))
    ensures p[n..] == old(p[n..])
  {
    var i := n - 1;
    while i > 0
      invariant -1 <= i < n && (0 < n ==> 0 <= i)
      invariant Shuffle(p[..n], i, draws) == Shuffle(old(p[..n]), n - 1, draws)
      invariant p[n..] == old(p[n..])
    {
      var target := RandomInt(0, i, draws[i]);
      RandomIntRange(0, i, draws[i]);
      ghost var before := p[..n];
      var tmp := p[i];
      p[i] := p[target];
      p[target] := tmp;
      assert p[..n] == before[i := before[target]][target := before[i]];
      i := i - 1;
    }
    ShufflePermutes(old(p[..n]), n - 1, draws);
  }

  /** `PerlinGeneratePerm`: the identity on 256 entries, shuffled; a permutation of 0..255. */
  method PerlinGeneratePerm(draws: seq<real>) returns (p: array<int>)
    requires PointCount <= |draws| && UnitDraws(draws)
    ensures fresh(p) && p.Length == PointCount
    ensures p[..] == Shuffle(Identity(PointCount), PointCount - 1, draws)
    ensures IsPermutation(p[..], PointCount)
  {
    p := new int[PointCount];
    for i := 0 to PointCount
      invariant forall k :: 0 <= k < i ==> p[k] == k
    {
      p[i] := i;
    }
    assert p[..PointCount] == Identity(PointCount);
    Permute(p, PointCount, draws);
    assert p[..] == p[..PointCount];
    GeneratedTable(draws);
  }

  // ----- Gradients -----

  /** `UnitVector(Vec3::Random(-1, 1))` for one triple of draws, of length one. */
  function Gradient(f: Funcs, draw: Vec3): (g: Vec3)
    requires Lawful(f) && LengthSquared(RandomVec(-1.0, 1.0, draw)) != 0.0
    ensures LengthSquared(g) == 1.0
  {
    UnitVectorLength(f, RandomVec(-1.0, 1.0, draw));
    UnitVector(f, RandomVec(-1.0, 1.0, draw))
  }

  /** No triple of draws gives the zero vector, whose unit vector the source leaves undefined. */
  ghost predicate NonZeroDraws(draws: seq<Vec3>) {
    forall k :: 0 <= k < |draws| ==> LengthSquared(RandomVec(-1.0, 1.0, draws[k])) != 0.0
  }

  /** The loop of the constructor that fills `ran_vec_`, one gradient per slot. */
  method RandomGradients(f: Funcs, draws: seq<Vec3>) returns (a: array<Vec3>)
    requires Lawful(f) && |draws| == PointCount && NonZeroDraws(draws)
    ensures fresh(a) && a.Length == PointCount
    ensures forall k :: 0 <= k < PointCount ==> a[k] == Gradient(f, draws[k]) && LengthSquared(a[k]) == 1.0
  {
    a := new Vec3[PointCount];
    for i := 0 to PointCount
      invariant forall k :: 0 <= k < i ==> a[k] == Gradient(f, draws[k])
    {
      a[i] := Gradient(f, draws[i]);
    }
  }

  // ----- Lattice lookup -----

  /** `2^k`. */
  function Pow2(k: nat): (p: nat)
    ensures 0 < p
  {
    if k == 0 then 1 else 2 * Pow2(k - 1)
  }

  /** `a & b` on non-negative integers, bit by bit from the lowest. */
  function And(a: nat, b: nat): nat
    decreases a + b
  {
    if a == 0 || b == 0 then 0 else 2 * And(a / 2, b / 2) + (a % 2) * (b % 2)
  }

  /** `a ^ b` on non-negative integers, bit by bit from the lowest. */
  function Xor(a: nat, b: nat): nat
    decreases a + b
  {
    if a == 0 && b == 0 then 0 else 2 * Xor(a / 2, b / 2) + (a + b) % 2
  }

  /** Masking with `2^k - 1` keeps the remainder by `2^k`. */
  lemma {:induction false} AndLowBits(x: nat, k: nat)
    ensures And(x, Pow2(k) - 1) == x % Pow2(k)
    decreases x
  {
    if k > 0 && x > 0 {
      var p := Pow2(k - 1);
      var m := Pow2(k) - 1;
      assert Pow2(k) == 2 * p;
      assert m / 2 == p - 1 && m % 2 == 1;
      assert And(x, m) == 2 * And(x / 2, p - 1) + x % 2;
      AndLowBits(x / 2, k - 1);
      HalveRemainder(x, p);
      assert And(x, m) == x % (2 * p);
    } else if k > 0 {
      ModUnique(0, Pow2(k), 0, 0);
    }
  }

  /** The remainder by `2p` is twice the remainder of the half by `p`, plus the lowest bit. */
  lemma HalveRemainder(x: nat, p: nat)
    requires 0 < p
    ensures x % (2 * p) == 2 * ((x / 2) % p) + x % 2
  {
    var q, r := x / 2, x % 2;
    var s, t := q / p, q % p;
    assert q == p * s + t;
    assert x == 2 * q + r;
    assert x == (2 * p) * s + (2 * t + r);
    ModUnique(x, 2 * p, s, 2 * t + r);
  }

  /** The XOR of two numbers below `2^k` is below `2^k`. */
  lemma {:induction false} XorBelow(a: nat, b: nat, k: nat)
    requires a < Pow2(k) && b < Pow2(k)
    ensures Xor(a, b) < Pow2(k)
    decreases a + b
  {
    if a != 0 || b != 0 {
      XorBelow(a / 2, b / 2, k - 1);
    }
  }

  /**
   * `n & 255` for the 32-bit two's-complement `int` n: the low eight bits of its bit pattern,
   * which are the remainder of `n` by 256, negative `n` included.
   */
  function Low8(n: int): (m: int)
    ensures 0 <= m < 256
  {
    n % 256
  }

  /** `Low8` is the mask `& 255` applied to the unsigned value of the 32-bit pattern of `n`. */
  lemma Low8IsMask(n: int)
    ensures Low8(n) == And(n % 0x1_0000_0000, 255)
  {
    var x := n % 0x1_0000_0000;
    AndLowBits(x, 8);
    assert x == 256 * (n / 256 - 0x100_0000 * (n / 0x1_0000_0000)) + n % 256;
    ModUnique(x, 256, n / 256 - 0x100_0000 * (n / 0x1_0000_0000), n % 256);
  }

  /** `a ^ b ^ c` on three indices of 0..255: again an index of 0..255. */
  function Xor3(a: int, b: int, c: int): (x: int)
    requires 0 <= a < 256 && 0 <= b < 256 && 0 <= c < 256
    ensures 0 <= x < 256
  {
    XorBelow(a, b, 8);
    XorBelow(Xor(a, b), c, 8);
    Xor(Xor(a, b), c)
  }

  /** The contents of the four tables of a `Perlin`. */
  datatype Tables = Tables(ranVec: seq<Vec3>, permX: seq<int>, permY: seq<int>, permZ: seq<int>)

  /** Every table has 256 entries and every permuted index is an index of `ran_vec_`. */
  ghost predicate Indexable(t: Tables) {
    && |t.ranVec| == PointCount && |t.permX| == PointCount && |t.permY| == PointCount && |t.permZ| == PointCount
    && (forall k :: 0 <= k < PointCount ==> 0 <= t.permX[k] < PointCount)
    && (forall k :: 0 <= k < PointCount ==> 0 <= t.permY[k] < PointCount)
    && (forall k :: 0 <= k < PointCount ==> 0 <= t.permZ[k] < PointCount)
  }

  /** The gradient at lattice point `(i, j, k)`: `ran_vec_[perm_x_[i & 255] ^ perm_y_[j & 255] ^ perm_z_[k & 255]]`. */
  function Corner(t: Tables, i: int, j: int, k: int): Vec3
    requires Indexable(t)
  {
    t.ranVec[Xor3(t.permX[Low8(i)], t.permY[Low8(j)], t.permZ[Low8(k)])]
  }

  /** `x - floor(x)`: the offset of `x` in its lattice cell, in [0, 1). */
  function Frac(x: real): (u: real)
    ensures 0.0 <= u < 1.0
  {
    x - x.Floor as real
  }

  /**
   * The eight gradients of the cell with lowest corner `(i, j, k)`, corner `(i + di, j + dj, k + dk)`
   * at position `4 di + 2 dj + dk`.
   */
  function Cell(t: Tables, i: int, j: int, k: int): (c: seq<Vec3>)
    requires Indexable(t)
    ensures |c| == 8
  {
    [Corner(t, i, j, k), Corner(t, i, j, k + 1), Corner(t, i, j + 1, k), Corner(t, i, j + 1, k + 1),
     Corner(t, i + 1, j, k), Corner(t, i + 1, j, k + 1), Corner(t, i + 1, j + 1, k), Corner(t, i + 1, j + 1, k + 1)]
  }

  /** The eight gradients `Noise` gathers into `c[di][dj][dk]`: those of the cell holding `p`. */
  function Lattice(t: Tables, p: Point3): (c: seq<Vec3>)
    requires Indexable(t)
    ensures |c| == 8
  {
    Cell(t, p.x.Floor, p.y.Floor, p.z.Floor)
  }

  // ----- Trilinear blend -----

  /** The Hermite smoothing `u * u * (3 - 2 * u)` of `TrilinearInterp`. */
  function Smooth(u: real): real {
    u * u * (3.0 - 2.0 * u)
  }

  /** The weight `i * uu + (1 - i) * (1 - uu)` of the cell corner whose coordinate offset is `i`. */
  function Blend(i: int, uu: real): real {
    i as real * uu + (1 - i) as real * (1.0 - uu)
  }

  /**
   * The contribution of the corner `(i, j, k)` with gradient `g`, for the offsets `u`, `v`, `w`
   * in the cell and their smoothings `uu`, `vv`, `ww`.
   */
  function Term(g: Vec3, i: int, j: int, k: int, u: real, v: real, w: real, uu: real, vv: real, ww: real): real {
    Blend(i, uu) * Blend(j, vv) * Blend(k, ww) * Dot(g, Vec3(u - i as real, v - j as real, w - k as real))
  }

  /** The sum of the first `n` corner terms, in the order of the three loops of `TrilinearInterp`. */
  function InterpSum(c: seq<Vec3>, u: real, v: real, w: real, uu: real, vv: real, ww: real, n: int): real
    requires 0 <= n <= |c| && n <= 8
  {
    if n == 0 then 0.0
    else InterpSum(c, u, v, w, uu, vv, ww, n - 1) + Term(c[n - 1], (n - 1) / 4, ((n - 1) / 2) % 2, (n - 1) % 2, u, v, w, uu, vv, ww)
  }

  /** `TrilinearInterp(c, u, v, w)`: all eight corner terms, with the offsets smoothed. */
  function Interp(c: seq<Vec3>, u: real, v: real, w: real): real
    requires |c| == 8
  {
    InterpSum(c, u, v, w, Smooth(u), Smooth(v), Smooth(w), |c|)
  }

  /** `Noise(p)`: the blend of the eight gradients around `p` at the offsets of `p` in its cell. */
  function NoiseAt(t: Tables, p: Point3): real
    requires Indexable(t)
  {
    Interp(Lattice(t, p), Frac(p.x), Frac(p.y), Frac(p.z))
  }

  /**
   * At offset zero every corner term vanishes: the corner `(0, 0, 0)` has weight one but a
   * zero offset vector, and every other corner has a zero weight.
   */
  lemma TermAtOrigin(g: Vec3, i: int, j: int, k: int)
    requires 0 <= i < 2 && 0 <= j < 2 && 0 <= k < 2
    ensures Term(g, i, j, k, 0.0, 0.0, 0.0, 0.0, 0.0, 0.0) == 0.0
  {
    var bi, bj, bk := Blend(i, 0.0), Blend(j, 0.0), Blend(k, 0.0);
    var d := Dot(g, Vec3(0.0 - i as real, 0.0 - j as real, 0.0 - k as real));
    if i == 1 {
      assert bi == 0.0;
    } else if j == 1 {
      assert bj == 0.0;
    } else if k == 1 {
      assert bk == 0.0;
    } else {
      assert Vec3(0.0 - i as real, 0.0 - j as real, 0.0 - k as real) == Zero;
      assert d == g.x * 0.0 + g.y * 0.0 + g.z * 0.0;
    }
    assert Term(g, i, j, k, 0.0, 0.0, 0.0, 0.0, 0.0, 0.0) == bi * bj * bk * d;
  }

  /** At a corner of its cell the blend is zero. */
  lemma {:induction false} BlendAtCorner(c: seq<Vec3>, n: int)
    requires 0 <= n <= |c| && n <= 8
    ensures InterpSum(c, 0.0, 0.0, 0.0, 0.0, 0.0, 0.0, n) == 0.0
  {
    if n > 0 {
      BlendAtCorner(c, n - 1);
      var q := n - 1;
      TermAtOrigin(c[q], q / 4, (q / 2) % 2, q % 2);
    }
  }

  /** The noise vanishes at every lattice point, whatever the tables. */
  lemma NoiseAtLatticePoint(t: Tables, a: int, b: int, c: int)
    requires Indexable(t)
    ensures NoiseAt(t, Vec3(a as real, b as real, c as real)) == 0.0
  {
    var p := Vec3(a as real, b as real, c as real);
    assert p.x.Floor == a && p.y.Floor == b && p.z.Floor == c;
    assert Frac(p.x) == 0.0 && Frac(p.y) == 0.0 && Frac(p.z) == 0.0;
    assert Smooth(0.0) == 0.0;
    BlendAtCorner(Lattice(t, p), 8);
  }

  /** The corners of a `c[2][2][2]`, in the order `InterpSum` takes them. */
  function Flat(c: array3<Vec3>): (s: seq<Vec3>)
    requires c.Length0 == 2 && c.Length1 == 2 && c.Length2 == 2
    reads c
    ensures |s| == 8
  {
    [c[0, 0, 0], c[0, 0, 1], c[0, 1, 0], c[0, 1, 1], c[1, 0, 0], c[1, 0, 1], c[1, 1, 0], c[1, 1, 1]]
  }

  lemma FlatIndex(c: array3<Vec3>, i: int, j: int, k: int)
    requires c.Length0 == 2 && c.Length1 == 2 && c.Length2 == 2
    requires 0 <= i < 2 && 0 <= j < 2 && 0 <= k < 2
    ensures Flat(c)[4 * i + 2 * j + k] == c[i, j, k]
  {
  }

  /** A `c[2][2][2]` holding corner `(i + a, j + b, k + d)` at `c[a][b][d]` flattens to the cell. */
  lemma GatheredCell(c: array3<Vec3>, t: Tables, i: int, j: int, k: int)
    requires c.Length0 == 2 && c.Length1 == 2 && c.Length2 == 2 && Indexable(t)
    requires forall a, b, d :: 0 <= a < 2 && 0 <= b < 2 && 0 <= d < 2 ==> c[a, b, d] == Corner(t, i + a, j + b, k + d)
    ensures Flat(c) == Cell(t, i, j, k)
  {
    assert c[0, 0, 0] == Corner(t, i + 0, j + 0, k + 0);
    assert c[0, 0, 1] == Corner(t, i + 0, j + 0, k + 1);
    assert c[0, 1, 0] == Corner(t, i + 0, j + 1, k + 0);
    assert c[0, 1, 1] == Corner(t, i + 0, j + 1, k + 1);
    assert c[1, 0, 0] == Corner(t, i + 1, j + 0, k + 0);
    assert c[1, 0, 1] == Corner(t, i + 1, j + 0, k + 1);
    assert c[1, 1, 0] == Corner(t, i + 1, j + 1, k + 0);
    assert c[1, 1, 1] == Corner(t, i + 1, j + 1, k + 1);
  }

  /** Visiting `(i, j, k)` adds the corner term of position `4i + 2j + k`. */
  lemma InterpStep(c: seq<Vec3>, u: real, v: real, w: real, uu: real, vv: real, ww: real, i: int, j: int, k: int)
    requires |c| == 8 && 0 <= i < 2 && 0 <= j < 2 && 0 <= k < 2
    ensures InterpSum(c, u, v, w, uu, vv, ww, 4 * i + 2 * j + k + 1)
         == InterpSum(c, u, v, w, uu, vv, ww, 4 * i + 2 * j + k) + Term(c[4 * i + 2 * j + k], i, j, k, u, v, w, uu, vv, ww)
  {
    CornerIndex(i, j, k);
  }

  /** `TrilinearInterp(c, u, v, w)`: the offsets are smoothed, then the eight corner terms added up. */
  method TrilinearInterp(c: array3<Vec3>, u: real, v: real, w: real) returns (accumulate: real)
    requires c.Length0 == 2 && c.Length1 == 2 && c.Length2 == 2
    ensures accumulate == Interp(Flat(c), u, v, w)
  {
    accumulate := BlendCorners(c, u, v, w, Smooth(u), Smooth(v), Smooth(w));
  }

  /** The three nested loops of `TrilinearInterp`, for given smoothed offsets `uu`, `vv`, `ww`. */
  method BlendCorners(c: array3<Vec3>, u: real, v: real, w: real, uu: real, vv: real, ww: real) returns (accumulate: real)
    requires c.Length0 == 2 && c.Length1 == 2 && c.Length2 == 2
    ensures accumulate == InterpSum(Flat(c), u, v, w, uu, vv, ww, 8)
  {
    accumulate := 0.0;
    for i := 0 to 2
      invariant accumulate == InterpSum(Flat(c), u, v, w, uu, vv, ww, 4 * i)
    {
      for j := 0 to 2
        invariant accumulate == InterpSum(Flat(c), u, v, w, uu, vv, ww, 4 * i + 2 * j)
      {
        for k := 0 to 2
          invariant accumulate == InterpSum(Flat(c), u, v, w, uu, vv, ww, 4 * i + 2 * j + k)
        {
          FlatIndex(c, i, j, k);
          InterpStep(Flat(c), u, v, w, uu, vv, ww, i, j, k);
          accumulate := accumulate + Term(c[i, j, k], i, j, k, u, v, w, uu, vv, ww);
        }
      }
    }
  }

  // ----- Turbulence -----

  /** The weight of octave `m`: 1, then halved at every octave. */
  function Weight(m: nat): (weight: real)
    ensures 0.0 < weight <= 1.0
  {
    if m == 0 then 1.0 else Weight(m - 1) * 0.5
  }

  /** The point of octave `m`: `p`, then doubled at every octave. */
  function Octave(p: Point3, m: nat): Point3 {
    if m == 0 then p else Scale(2.0, Octave(p, m - 1))
  }

  /** The noise of the first `n` octaves of `p`, in the order `Terb` samples them. */
  function Samples(t: Tables, p: Point3, n: nat): (s: seq<real>)
    requires Indexable(t)
    ensures |s| == n
  {
    if n == 0 then [] else Samples(t, p, n - 1) + [NoiseAt(t, Octave(p, n - 1))]
  }

  /** The sum of the samples, octave `m` weighted by `Weight(m)`: `accum` after `|s|` passes. */
  function WeightedSum(s: seq<real>): real {
    if |s| == 0 then 0.0 else WeightedSum(s[..|s| - 1]) + Weight(|s| - 1) * s[|s| - 1]
  }

  /** `Terb(p, depth)`: the absolute value of the weighted sum of `depth` octaves (none when `depth <= 0`). */
  function Turbulence(t: Tables, p: Point3, depth: int): (r: real)
    requires Indexable(t)
    ensures 0.0 <= r
  {
    Abs(WeightedSum(Samples(t, p, if depth < 0 then 0 else depth)))
  }

  /** The octaves of a lattice point are lattice points. */
  lemma {:induction false} OctaveOfLatticePoint(a: int, b: int, c: int, m: nat) returns (x: int, y: int, z: int)
    ensures Octave(Vec3(a as real, b as real, c as real), m) == Vec3(x as real, y as real, z as real)
  {
    if m == 0 {
      x, y, z := a, b, c;
    } else {
      var x', y', z' := OctaveOfLatticePoint(a, b, c, m - 1);
      x, y, z := 2 * x', 2 * y', 2 * z';
    }
  }

  /** At a lattice point every octave samples a lattice point, so every sample is zero. */
  lemma {:induction false} LatticeSamplesSum(t: Tables, a: int, b: int, c: int, n: nat)
    requires Indexable(t)
    ensures WeightedSum(Samples(t, Vec3(a as real, b as real, c as real), n)) == 0.0
  {
    if n > 0 {
      var p := Vec3(a as real, b as real, c as real);
      LatticeSamplesSum(t, a, b, c, n - 1);
      var x, y, z := OctaveOfLatticePoint(a, b, c, n - 1);
      NoiseAtLatticePoint(t, x, y, z);
      AccumulateStep(Samples(t, p, n - 1), NoiseAt(t, Octave(p, n - 1)), 0.0, Weight(n - 1));
    }
  }

  /** The turbulence vanishes at every lattice point, for every depth. */
  lemma TurbulenceAtLatticePoint(t: Tables, a: int, b: int, c: int, depth: int)
    requires Indexable(t)
    ensures Turbulence(t, Vec3(a as real, b as real, c as real), depth) == 0.0
  {
    LatticeSamplesSum(t, a, b, c, if depth < 0 then 0 else depth);
  }

  /** Appending the next octave's sample adds it with that octave's weight, which the next halves. */
  lemma AccumulateStep(s: seq<real>, x: real, accum: real, weight: real)
    requires accum == WeightedSum(s) && weight == Weight(|s|)
    ensures accum + weight * x == WeightedSum(s + [x]) && weight * 0.5 == Weight(|s| + 1)
  {
    assert (s + [x])[..|s|] == s;
  }

  /** The generator: gradient table `ran_vec_` and the permutation tables `perm_x_`, `perm_y_`, `perm_z_`. */
  class Perlin {
    var ranVec: array<Vec3>
    var permX: array<int>
    var permY: array<int>
    var permZ: array<int>

    function Contents(): Tables
      reads this, ranVec, permX, permY, permZ
    {
      Tables(ranVec[..], permX[..], permY[..], permZ[..])
    }

    /** Four tables of 256 entries; the three index tables are permutations of 0..255. */
    ghost predicate Valid()
      reads this, ranVec, permX, permY, permZ
    {
      && Indexable(Contents())
      && IsPermutation(permX[..], PointCount) && IsPermutation(permY[..], PointCount) && IsPermutation(permZ[..], PointCount)
    }

    /**
     * `Perlin()`: 256 unit gradients from `vecDraws` and three independently shuffled
     * tables from `drawsX`, `drawsY` and `drawsZ`.
     */
    constructor(f: Funcs, vecDraws: seq<Vec3>, drawsX: seq<real>, drawsY: seq<real>, drawsZ: seq<real>)
      requires Lawful(f) && |vecDraws| == PointCount && NonZeroDraws(vecDraws)
      requires PointCount <= |drawsX| && UnitDraws(drawsX)
      requires PointCount <= |drawsY| && UnitDraws(drawsY)
      requires PointCount <= |drawsZ| && UnitDraws(drawsZ)
      ensures Valid()
      ensures fresh(ranVec) && fresh(permX) && fresh(permY) && fresh(permZ)
      ensures permX != permY && permY != permZ && permX != permZ
      ensures forall k :: 0 <= k < PointCount ==> ranVec[k] == Gradient(f, vecDraws[k]) && LengthSquared(ranVec[k]) == 1.0
      ensures permX[..] == Shuffle(Identity(PointCount), PointCount - 1, drawsX)
      ensures permY[..] == Shuffle(Identity(PointCount), PointCount - 1, drawsY)
      ensures permZ[..] == Shuffle(Identity(PointCount), PointCount - 1, drawsZ)
    {
      var gradients := RandomGradients(f, vecDraws);
      var px := PerlinGeneratePerm(drawsX);
      var py := PerlinGeneratePerm(drawsY);
      var pz := PerlinGeneratePerm(drawsZ);
      PermutationEntries(px[..], PointCount);
      PermutationEntries(py[..], PointCount);
      PermutationEntries(pz[..], PointCount);
      ranVec, permX, permY, permZ := gradients, px, py, pz;
    }

    /**
     * `Noise(p)`: gathers the eight gradients of the cell holding `p` into `c[2][2][2]` and
     * blends them with `TrilinearInterp` at the offsets of `p` in the cell.
     */
    method Noise(p: Point3) returns (n: real)
      requires Valid()
      ensures n == NoiseAt(Contents(), p)
    {
      var u := p.x - p.x.Floor as real;
      var v := p.y - p.y.Floor as real;
      var w := p.z - p.z.Floor as real;
      var i, j, k := p.x.Floor, p.y.Floor, p.z.Floor;
      var c := Gather(i, j, k);
      n := TrilinearInterp(c, u, v, w);
    }

    /**
     * The loops of `Noise` that fill `c[di][dj][dk]` with the gradient of the corner
     * `(i + di, j + dj, k + dk)`; every table read is in bounds.
     */
    method Gather(i: int, j: int, k: int) returns (c: array3<Vec3>)
      requires Indexable(Contents())
      ensures fresh(c) && c.Length0 == 2 && c.Length1 == 2 && c.Length2 == 2
      ensures Flat(c) == Cell(Contents(), i, j, k)
    {
      ghost var t := Contents();
      c := new Vec3[2, 2, 2];
      for di := 0 to 2
        invariant forall a, b, d :: 0 <= a < di && 0 <= b < 2 && 0 <= d < 2 ==> c[a, b, d] == Corner(t, i + a, j + b, k + d)
      {
        for dj := 0 to 2
          invariant forall a, b, d :: 0 <= a < di && 0 <= b < 2 && 0 <= d < 2 ==> c[a, b, d] == Corner(t, i + a, j + b, k + d)
          invariant forall b, d :: 0 <= b < dj && 0 <= d < 2 ==> c[di, b, d] == Corner(t, i + di, j + b, k + d)
        {
          for dk := 0 to 2
            invariant forall a, b, d :: 0 <= a < di && 0 <= b < 2 && 0 <= d < 2 ==> c[a, b, d] == Corner(t, i + a, j + b, k + d)
            invariant forall b, d :: 0 <= b < dj && 0 <= d < 2 ==> c[di, b, d] == Corner(t, i + di, j + b, k + d)
            invariant forall d :: 0 <= d < dk ==> c[di, dj, d] == Corner(t, i + di, j + dj, k + d)
          {
            c[di, dj, dk] := ranVec[Xor3(permX[Low8(i + di)], permY[Low8(j + dj)], permZ[Low8(k + dk)])];
          }
        }
      }
      GatheredCell(c, t, i, j, k);
    }

    /**
     * One pass of the loop of `Terb`: the noise of the current point, weighted, joins the sum;
     * the weight halves and the point doubles.
     */
    method NextOctave(p: Point3, i: nat, tempP: Point3, accum: real, weight: real)
      returns (tempP': Point3, accum': real, weight': real)
      requires Valid()
      requires accum == WeightedSum(Samples(Contents(), p, i)) && weight == Weight(i) && tempP == Octave(p, i)
      ensures accum' == WeightedSum(Samples(Contents(), p, i + 1))
      ensures weight' == Weight(i + 1) && tempP' == Octave(p, i + 1)
    {
      var noise := Noise(tempP);
      AccumulateStep(Samples(Contents(), p, i), noise, accum, weight);
      accum' := accum + weight * noise;
      weight' := weight * 0.5;
      tempP' := Scale(2.0, tempP);
    }

    /**
     * `Terb(p, depth)`: adds `weight * Noise(temp_p)` for `depth` octaves, halving the weight
     * and doubling the point each time, and returns the absolute value of the sum.
     */
    method Terb(p: Point3, depth: int) returns (r: real)
      requires Valid()
      ensures r == Turbulence(Contents(), p, depth) && 0.0 <= r
    {
      var accum := 0.0;
      var tempP := p;
      var weight := 1.0;
      var i := 0;
      while i < depth
        invariant 0 <= i <= if depth < 0 then 0 else depth
        invariant accum == WeightedSum(Samples(Contents(), p, i))
        invariant weight == Weight(i) && tempP == Octave(p, i)
      {
        tempP, accum, weight := NextOctave(p, i, tempP, accum, weight);
        i := i + 1;
      }
      assert i == if depth < 0 then 0 else depth;
      r := Abs(accum);
    }
  }
}
