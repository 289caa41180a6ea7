/**
 * The path integrator `RayColor` of src/main.cpp.
 *
 * The world is the function `world` giving what `world.Hit(r, 0.001, infinity, &hit_record)`
 * returns and leaves in the record; it is any hittable of the scene, and `RayColor` asks it
 * nothing else. The samples the material draws at each bounce are `draws(depth)`, the samples
 * of the call made with that remaining depth.
 */
module Integrator {

  import opened RealArith
  import opened Elementary
  import opened Vectors
  import opened Rays
  import opened Records
  import opened Textures
  import opened Materials

  /** `world.Hit(r, 0.001, infinity, &rec)`: the flag and the record. */
  type World = Ray -> (bool, Record<Material>)

  /**
   * Every hit the world reports has a usable material, and a metal or dielectric is only hit
   * by rays whose direction has a non-zero length.
   */
  ghost predicate Sound(f: Funcs, world: World) {
    forall r: Ray :: world(r).0 ==>
      && Usable(world(r).1.material)
      && (world(r).1.material.Metal? || world(r).1.material.Dielectric? ==> Length(f, r.direction) != 0.0)
  }

  /** The `Ray scattered;` and `Color attenuation;` that `RayColor` declares before `Scatter` writes them. */
  const Unset: Ray := Ray(Zero, Zero, 0.0)

  /**
   * `RayColor(r, background, world, depth)`: black once the bounces are used up, the
   * background on a miss, the emitted light of a material that does not scatter, and
   * otherwise the emitted light plus the attenuated colour of the scattered ray, one bounce
   * fewer.
   */
  function RayColor(f: Funcs, r: Ray, background: Color, world: World, draws: int -> Draws, depth: int): Color
    requires Sound(f, world)
    decreases depth
  {
    if depth <= 0 then Zero
    else
      var (hit, rec) := world(r);
      if !hit then background
      else
        var emitted := Emitted(f, rec.material, rec.u, rec.v, rec.p);
        var (scatters, attenuation, scattered) := Scatter(f, rec.material, r, rec, draws(depth), Zero, Unset);
        if !scatters then emitted
        else Add(emitted, Mul(attenuation, RayColor(f, scattered, background, world, draws, depth - 1)))
  }

  /**
   * The four outcomes of `RayColor`: black with no bounces left, whatever the ray and the
   * world; the background on a miss; the emitted light of a hit whose material absorbs the
   * ray; and otherwise the emitted light plus the attenuation times the colour of the
   * scattered ray, gathered with the same background and world and one bounce fewer.
   */
  lemma RayColorCases(f: Funcs, r: Ray, background: Color, world: World, draws: int -> Draws, depth: int)
    requires Sound(f, world)
    ensures depth <= 0 ==> RayColor(f, r, background, world, draws, depth) == Zero
    ensures 0 < depth && !world(r).0 ==> RayColor(f, r, background, world, draws, depth) == background
    ensures 0 < depth && world(r).0 ==>
              var rec := world(r).1;
              var emitted := Emitted(f, rec.material, rec.u, rec.v, rec.p);
              var s := Scatter(f, rec.material, r, rec, draws(depth), Zero, Unset);
              && (!s.0 ==> RayColor(f, r, background, world, draws, depth) == emitted)
              && (s.0 ==> RayColor(f, r, background, world, draws, depth)
                          == Add(emitted, Mul(s.1, RayColor(f, s.2, background, world, draws, depth - 1))))
  {
  }

  /**
   * With one bounce left the scattered ray gathers nothing: the colour is the background on a
   * miss and the emitted light on a hit.
   */
  lemma LastBounce(f: Funcs, r: Ray, background: Color, world: World, draws: int -> Draws)
    requires Sound(f, world)
    ensures !world(r).0 ==> RayColor(f, r, background, world, draws, 1) == background
    ensures world(r).0 ==>
              var rec := world(r).1;
              RayColor(f, r, background, world, draws, 1) == Emitted(f, rec.material, rec.u, rec.v, rec.p)
  {
    var (hit, rec) := world(r);
    if hit {
      var (scatters, attenuation, scattered) := Scatter(f, rec.material, r, rec, draws(1), Zero, Unset);
      MulFacts(attenuation, Zero);
      AddFacts(Emitted(f, rec.material, rec.u, rec.v, rec.p), Zero);
    }
  }

  /**
   * The recursion stops after `depth` levels: only the samples of the remaining depths
   * `1 .. depth` matter, so any two sample sources that agree there give the same colour.
   */
  lemma {:induction false} OnlyRemainingDepthsMatter(f: Funcs, r: Ray, background: Color, world: World,
                                                     draws: int -> Draws, draws': int -> Draws, depth: int)
    requires Sound(f, world)
    requires forall k :: 1 <= k <= depth ==> draws(k) == draws'(k)
    ensures RayColor(f, r, background, world, draws, depth) == RayColor(f, r, background, world, draws', depth)
    decreases depth
  {
    if depth > 0 {
      var (hit, rec) := world(r);
      if hit {
        var (scatters, attenuation, scattered) := Scatter(f, rec.material, r, rec, draws(depth), Zero, Unset);
        if scatters {
          OnlyRemainingDepthsMatter(f, scattered, background, world, draws, draws', depth - 1);
        }
      }
    }
  }

  /** No hit the world reports is on a light. */
  ghost predicate Unlit(world: World) {
    forall r: Ray :: world(r).0 ==> !world(r).1.material.DiffuseLight?
  }

  /** Without lights and with a black background every path gathers black. */
  lemma {:induction false} DarkWorldIsBlack(f: Funcs, r: Ray, world: World, draws: int -> Draws, depth: int)
    requires Sound(f, world) && Unlit(world)
    ensures RayColor(f, r, Zero, world, draws, depth) == Zero
    decreases depth
  {
    if depth > 0 {
      var (hit, rec) := world(r);
      if hit {
        var emitted := Emitted(f, rec.material, rec.u, rec.v, rec.p);
        var (scatters, attenuation, scattered) := Scatter(f, rec.material, r, rec, draws(depth), Zero, Unset);
        if scatters {
          var rest := RayColor(f, scattered, Zero, world, draws, depth - 1);
          DarkWorldIsBlack(f, scattered, world, draws, depth - 1);
          calc {
            RayColor(f, r, Zero, world, draws, depth);
            Add(emitted, Mul(attenuation, rest));
            { MulFacts(attenuation, Zero); }
            Add(Zero, Zero);
          }
        }
      }
    }
  }

  /** The colours a material works with lie in [0, 1]: its solid colours and the metal's albedo. */
  ghost predicate MaterialInUnitCube(m: Material) {
    match m
    case Lambertian(albedo) => SolidsInUnitCube(albedo)
    case Metal(albedo, _) => InUnitCube(albedo)
    case Dielectric(_) => true
    case DiffuseLight(emit) => SolidsInUnitCube(emit)
    case Isotropic(albedo) => SolidsInUnitCube(albedo)
  }

  /** Every channel of `c` lies in [0, hi]. */
  ghost predicate Within(c: Color, hi: real) {
    0.0 <= c.x <= hi && 0.0 <= c.y <= hi && 0.0 <= c.z <= hi
  }

  /** With colours in [0, 1], a material attenuates and emits by factors of [0, 1]. */
  lemma MaterialFactors(f: Funcs, m: Material, r: Ray, rec: Record<Material>, d: Draws)
    requires Lawful(f) && Usable(m) && MaterialInUnitCube(m)
    requires m.Metal? || m.Dielectric? ==> Length(f, r.direction) != 0.0
    ensures InUnitCube(Emitted(f, m, rec.u, rec.v, rec.p))
    ensures InUnitCube(Scatter(f, m, r, rec, d, Zero, Unset).1)
  {
    match m
    case Lambertian(albedo) => ValueInUnitCube(f, albedo, rec.u, rec.v, rec.p);
    case Metal(_, _) =>
    case Dielectric(_) =>
    case DiffuseLight(emit) => ValueInUnitCube(f, emit, rec.u, rec.v, rec.p);
    case Isotropic(albedo) => ValueInUnitCube(f, albedo, rec.u, rec.v, rec.p);
  }

  /**
   * With a lawful oracle, colours in [0, 1] everywhere in the world and a background in [0, 1],
   * each bounce adds at most one to a channel: with `depth` bounces each channel of the
   * gathered colour lies in [0, depth].
   */
  lemma {:induction false} RayColorBounded(f: Funcs, r: Ray, background: Color, world: World, draws: int -> Draws, depth: int)
    requires Lawful(f) && Sound(f, world) && InUnitCube(background)
    requires forall q: Ray :: world(q).0 ==> MaterialInUnitCube(world(q).1.material)
    requires 1 <= depth
    ensures Within(RayColor(f, r, background, world, draws, depth), depth as real)
    decreases depth
  {
    var (hit, rec) := world(r);
    if hit {
      var emitted := Emitted(f, rec.material, rec.u, rec.v, rec.p);
      var (scatters, attenuation, scattered) := Scatter(f, rec.material, r, rec, draws(depth), Zero, Unset);
      MaterialFactors(f, rec.material, r, rec, draws(depth));
      if scatters {
        var rest := RayColor(f, scattered, background, world, draws, depth - 1);
        if depth > 1 {
          RayColorBounded(f, scattered, background, world, draws, depth - 1);
        }
        assert Within(rest, (depth - 1) as real);
        AttenuatedWithin(emitted, attenuation, rest, (depth - 1) as real);
      }
    }
  }

  /** `e + a * c` with `e` and `a` in [0, 1] and `c` in [0, hi] lies in [0, hi + 1]. */
  lemma AttenuatedWithin(e: Color, a: Color, c: Color, hi: real)
    requires InUnitCube(e) && InUnitCube(a) && Within(c, hi)
    ensures Within(Add(e, Mul(a, c)), hi + 1.0)
  {
    ChannelWithin(e.x, a.x, c.x, hi);
    ChannelWithin(e.y, a.y, c.y, hi);
    ChannelWithin(e.z, a.z, c.z, hi);
  }

  /** One channel of `AttenuatedWithin`. */
  lemma ChannelWithin(e: real, a: real, c: real, hi: real)
    requires 0.0 <= e <= 1.0 && 0.0 <= a <= 1.0 && 0.0 <= c <= hi
    ensures 0.0 <= e + a * c <= hi + 1.0
  {
    MulLe(a, 1.0, c);
    MulNonNeg(a, c);
    assert a * c <= c;
  }
}
