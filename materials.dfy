/**
 * The materials: Lambertian (src/material/lambertian.h), metal (src/material/metal.h),
 * dielectric (material/dielectric.h), diffuse light (src/material/diffuse_light.h) and
 * isotropic (src/material/isotropic.h), with the `Emitted` default of src/material/material.h.
 *
 * `Scatter` returns the flag together with what the call leaves in `*attenuation` and
 * `*scattered`, so "not written" is "returned as given". The random samples one call may take
 * are the parameter `d`: `RandomUnitVector()` for the Lambertian, `RandomInUnitSphere()` for
 * the metal's fuzz and the isotropic medium, and `random_double()` for the dielectric's choice
 * between reflection and refraction.
 */
module Materials {

  import opened RealArith
  import opened Elementary
  import opened Vectors
  import opened Rays
  import opened Records
  import opened RtWeekend
  import opened Textures

  datatype Material =
    | Lambertian(albedo: Texture)
    | Metal(metalAlbedo: Color, fuzz: real)
    | Dielectric(ior: real)
    | DiffuseLight(emit: Texture)
    | Isotropic(albedo: Texture)

  /** The samples of one `Scatter` call. */
  datatype Draws = Draws(unitVector: Vec3, inSphere: Vec3, uniform: real)

  /** `Lambertian(Color)`: the colour becomes a solid-colour texture, as in the two below. */
  function LambertianOfColor(c: Color): Material {
    Lambertian(Solid(c))
  }

  /** `DiffuseLight(Color)`. */
  function DiffuseLightOfColor(c: Color): Material {
    DiffuseLight(Solid(c))
  }

  /** `Isotropic(Color)`. */
  function IsotropicOfColor(c: Color): Material {
    Isotropic(Solid(c))
  }

  /**
   * What a material needs to be evaluated: its textures can be evaluated, and the dielectric's
   * index is neither zero nor -1, so that `1 / index` and `1 + refraction_ratio` are not zero.
   */
  ghost predicate Usable(m: Material) {
    match m
    case Lambertian(albedo) => WellFormed(albedo)
    case Metal(_, _) => true
    case Dielectric(ior) => ior != 0.0 && ior != -1.0
    case DiffuseLight(emit) => WellFormed(emit)
    case Isotropic(albedo) => WellFormed(albedo)
  }

  /** `Emitted(u, v, p)`: the light's texture, and black for every other material. */
  function Emitted(f: Funcs, m: Material, u: real, v: real, p: Point3): (c: Color)
    requires Usable(m)
    ensures !m.DiffuseLight? ==> c == Zero
  {
    if m.DiffuseLight? then Value(f, m.emit, u, v, p) else Zero
  }

  /** `pow(x, 5)`. */
  function Pow5(x: real): real {
    x * x * x * x * x
  }

  /** Schlick's approximation `reflectance(cosine, refraction_ratio)`. */
  function Reflectance(cosine: real, ratio: real): real
    requires 1.0 + ratio != 0.0
  {
    var r0 := (1.0 - ratio) / (1.0 + ratio);
    var r0 := r0 * r0;
    r0 + (1.0 - r0) * Pow5(1.0 - cosine)
  }

  /** `refraction_ratio`: `1 / index` entering through a front face, the index leaving. */
  function RefractionRatio(ior: real, frontFace: bool): (ratio: real)
    requires ior != 0.0 && ior != -1.0
    ensures 1.0 + ratio != 0.0
    ensures frontFace ==> ratio * ior == 1.0
    ensures !frontFace ==> ratio == ior
  {
    if frontFace then 1.0 / ior else ior
  }

  /** `cos_theta = fmin(dot(-unit_direction, normal), 1.0)`. */
  function CosTheta(unit: Vec3, normal: Vec3): (c: real)
    ensures c <= Dot(Neg(unit), normal) && c <= 1.0 && (c == Dot(Neg(unit), normal) || c == 1.0)
  {
    Fmin(Dot(Neg(unit), normal), 1.0)
  }

  /** `sin_theta = sqrt(1 - cos_theta * cos_theta)` and `cannot_refract = refraction_ratio * sin_theta > 1`. */
  function CannotRefract(f: Funcs, ratio: real, cosTheta: real): bool {
    ratio * f.sqrt(1.0 - cosTheta * cosTheta) > 1.0
  }

  /** The direction the dielectric sends the ray: the reflection, or else the refraction. */
  function DielectricDirection(f: Funcs, ratio: real, unit: Vec3, normal: Vec3, draw: real): Vec3
    requires 1.0 + ratio != 0.0
  {
    var cosTheta := CosTheta(unit, normal);
    if CannotRefract(f, ratio, cosTheta) || Reflectance(cosTheta, ratio) > draw then Reflect(unit, normal)
    else Refract(f, unit, normal, ratio)
  }

  /** `scatter_direction`: the normal plus the unit sample, or the normal when the sum is nearly zero. */
  function LambertianDirection(normal: Vec3, sample: Vec3): Vec3 {
    var direction := Add(normal, sample);
    if NearZero(direction) then normal else direction
  }

  /** The metal's direction: the reflection of the unit incoming direction, perturbed by `fuzz_` times a sample. */
  function MetalDirection(f: Funcs, fuzz: real, rIn: Ray, normal: Vec3, sample: Vec3): Vec3
    requires Length(f, rIn.direction) != 0.0
  {
    Add(Reflect(UnitVector(f, rIn.direction), normal), Scale(fuzz, sample))
  }

  /**
   * What `Scatter(r_in, rec, &attenuation, &scattered)` returns and leaves behind. The metal
   * and the dielectric divide the incoming direction by its length, which must not be zero.
   */
  function Scatter(f: Funcs, m: Material, rIn: Ray, rec: Record<Material>, d: Draws,
                   attenuation: Color, scattered: Ray): (res: (bool, Color, Ray))
    requires Usable(m)
    requires m.Metal? || m.Dielectric? ==> Length(f, rIn.direction) != 0.0
  {
    match m
    case Lambertian(albedo) =>
      (true, Value(f, albedo, rec.u, rec.v, rec.p), Ray(rec.p, LambertianDirection(rec.normal, d.unitVector), rIn.time))
    case Metal(albedo, fuzz) =>
      var out := Ray(rec.p, MetalDirection(f, fuzz, rIn, rec.normal, d.inSphere), rIn.time);
      (Dot(out.direction, rec.normal) > 0.0, albedo, out)
    case Dielectric(ior) =>
      var ratio := RefractionRatio(ior, rec.frontFace);
      var unit := UnitVector(f, rIn.direction);
      (true, Vec3(1.0, 1.0, 1.0), Ray(rec.p, DielectricDirection(f, ratio, unit, rec.normal, d.uniform), rIn.time))
    case DiffuseLight(_) =>
      (false, attenuation, scattered)
    case Isotropic(albedo) =>
      (true, Value(f, albedo, rec.u, rec.v, rec.p), Ray(rec.p, d.inSphere, rIn.time))
  }

  /**
   * Every material but the light scatters from the hit point at the time of the incoming ray;
   * the light never scatters and writes neither out-parameter.
   */
  lemma ScatterKeepsPointAndTime(f: Funcs, m: Material, rIn: Ray, rec: Record<Material>, d: Draws,
                                 attenuation: Color, scattered: Ray)
    requires Usable(m)
    requires m.Metal? || m.Dielectric? ==> Length(f, rIn.direction) != 0.0
    ensures var res := Scatter(f, m, rIn, rec, d, attenuation, scattered);
            !m.DiffuseLight? ==> res.2.origin == rec.p && res.2.time == rIn.time
    ensures m.DiffuseLight? ==> Scatter(f, m, rIn, rec, d, attenuation, scattered) == (false, attenuation, scattered)
    ensures m.Lambertian? || m.Dielectric? || m.Isotropic? ==> Scatter(f, m, rIn, rec, d, attenuation, scattered).0
  {
  }

  /**
   * The Lambertian always scatters, with the texture's value at the hit as attenuation, along
   * the normal plus the sample; the degenerate sum is replaced by the normal, so a normal that
   * is not itself nearly zero never gives a nearly zero direction.
   */
  lemma LambertianScatter(f: Funcs, albedo: Texture, rIn: Ray, rec: Record<Material>, d: Draws,
                          attenuation: Color, scattered: Ray)
    requires WellFormed(albedo)
    ensures var res := Scatter(f, Lambertian(albedo), rIn, rec, d, attenuation, scattered);
            && res.0 && res.1 == Value(f, albedo, rec.u, rec.v, rec.p)
            && res.2 == Ray(rec.p, res.2.direction, rIn.time)
            && (NearZero(Add(rec.normal, d.unitVector)) ==> res.2.direction == rec.normal)
            && (!NearZero(Add(rec.normal, d.unitVector)) ==> res.2.direction == Add(rec.normal, d.unitVector))
            && (!NearZero(rec.normal) ==> !NearZero(res.2.direction))
  {
  }

  /** A Lambertian of a colour attenuates by that colour at every hit. */
  lemma LambertianOfColorAttenuation(f: Funcs, c: Color, rIn: Ray, rec: Record<Material>, d: Draws,
                                     attenuation: Color, scattered: Ray)
    ensures Usable(LambertianOfColor(c))
    ensures Scatter(f, LambertianOfColor(c), rIn, rec, d, attenuation, scattered).1 == c
  {
  }

  /**
   * The metal attenuates by its albedo, scatters exactly when the new direction leaves on the
   * normal's side, and without fuzz reflects exactly.
   */
  lemma MetalScatter(f: Funcs, albedo: Color, fuzz: real, rIn: Ray, rec: Record<Material>, d: Draws,
                     attenuation: Color, scattered: Ray)
    requires Length(f, rIn.direction) != 0.0
    ensures var res := Scatter(f, Metal(albedo, fuzz), rIn, rec, d, attenuation, scattered);
            && (res.0 <==> Dot(res.2.direction, rec.normal) > 0.0)
            && res.1 == albedo
            && res.2 == Ray(rec.p, Add(Reflect(UnitVector(f, rIn.direction), rec.normal), Scale(fuzz, d.inSphere)), rIn.time)
            && (fuzz == 0.0 ==> res.2.direction == Reflect(UnitVector(f, rIn.direction), rec.normal))
  {
    AddFacts(Reflect(UnitVector(f, rIn.direction), rec.normal), Zero);
  }

  /**
   * A polished metal hit from the front (the ray runs against a unit normal) always scatters:
   * the reflection leaves on the normal's side.
   */
  lemma PolishedMetalScattersFromFront(f: Funcs, albedo: Color, rIn: Ray, rec: Record<Material>, d: Draws,
                                       attenuation: Color, scattered: Ray)
    requires Lawful(f) && LengthSquared(rIn.direction) != 0.0
    requires Dot(rec.normal, rec.normal) == 1.0 && Dot(rIn.direction, rec.normal) < 0.0
    ensures Length(f, rIn.direction) != 0.0
    ensures Scatter(f, Metal(albedo, 0.0), rIn, rec, d, attenuation, scattered).0
  {
    LengthFacts(f, rIn.direction);
    var len := Length(f, rIn.direction);
    var unit := UnitVector(f, rIn.direction);
    MetalScatter(f, albedo, 0.0, rIn, rec, d, attenuation, scattered);
    UnitAgainstNormal(rIn.direction, len, unit, rec.normal);
    assert Dot(Reflect(unit, rec.normal), rec.normal) == -Dot(unit, rec.normal);
  }

  /** Dividing a direction by a positive length keeps the sign of its dot product with the normal. */
  lemma UnitAgainstNormal(v: Vec3, len: real, unit: Vec3, n: Vec3)
    requires 0.0 < len && Scale(len, unit) == v && Dot(v, n) < 0.0
    ensures Dot(unit, n) < 0.0
  {
    assert Dot(v, n) == len * Dot(unit, n);
    if Dot(unit, n) >= 0.0 {
      MulNonNeg(len, Dot(unit, n));
    }
  }

  /**
   * The dielectric always scatters, without attenuation, from the hit point; it reflects when
   * the ray cannot refract, and its ratio is `1 / index` on a front face and the index otherwise.
   */
  lemma DielectricScatter(f: Funcs, ior: real, rIn: Ray, rec: Record<Material>, d: Draws,
                          attenuation: Color, scattered: Ray)
    requires ior != 0.0 && ior != -1.0 && Length(f, rIn.direction) != 0.0
    ensures var res := Scatter(f, Dielectric(ior), rIn, rec, d, attenuation, scattered);
            var ratio := RefractionRatio(ior, rec.frontFace);
            var unit := UnitVector(f, rIn.direction);
            && res.0 && res.1 == Vec3(1.0, 1.0, 1.0)
            && res.2.origin == rec.p && res.2.time == rIn.time
            && (rec.frontFace ==> ratio * ior == 1.0) && (!rec.frontFace ==> ratio == ior)
            && (CannotRefract(f, ratio, CosTheta(unit, rec.normal)) ==> res.2.direction == Reflect(unit, rec.normal))
            && (!CannotRefract(f, ratio, CosTheta(unit, rec.normal)) && Reflectance(CosTheta(unit, rec.normal), ratio) > d.uniform
                ==> res.2.direction == Reflect(unit, rec.normal))
            && (!CannotRefract(f, ratio, CosTheta(unit, rec.normal)) && Reflectance(CosTheta(unit, rec.normal), ratio) <= d.uniform
                ==> res.2.direction == Refract(f, unit, rec.normal, ratio))
  {
  }

  /**
   * Entering a denser medium (a front face and an index of at least one) the ray can always
   * refract: the ratio is at most one and the sine at most one.
   */
  lemma EnteringCanRefract(f: Funcs, ior: real, cosTheta: real)
    requires Lawful(f) && 1.0 <= ior && -1.0 <= cosTheta <= 1.0
    ensures !CannotRefract(f, RefractionRatio(ior, true), cosTheta)
  {
    var ratio := RefractionRatio(ior, true);
    ReciprocalInUnitRange(ior, ratio);
    SineInUnitRange(f, cosTheta);
    UnitProduct(ratio, f.sqrt(1.0 - cosTheta * cosTheta));
  }

  /** The reciprocal of an index of at least one lies in (0, 1]. */
  lemma ReciprocalInUnitRange(ior: real, ratio: real)
    requires 1.0 <= ior && ratio * ior == 1.0
    ensures 0.0 < ratio <= 1.0
  {
    if ratio > 1.0 {
      MulLt(1.0, ratio, ior);
    } else if ratio <= 0.0 {
      MulLe(ratio, 0.0, ior);
    }
  }

  /** `sqrt(1 - cos^2)` lies in [0, 1] for a cosine in [-1, 1]. */
  lemma SineInUnitRange(f: Funcs, cosTheta: real)
    requires Lawful(f) && -1.0 <= cosTheta <= 1.0
    ensures 0.0 <= f.sqrt(1.0 - cosTheta * cosTheta) <= 1.0
  {
    var a := if cosTheta < 0.0 then -cosTheta else cosTheta;
    assert a * a == cosTheta * cosTheta;
    UnitProduct(a, a);
    SqrtMonotone(f, 1.0 - cosTheta * cosTheta, 1.0);
    SqrtOfSquare(f, 1.0);
  }

  /** Schlick's approximation is `r0` head-on and one at grazing incidence. */
  lemma ReflectanceEnds(ratio: real)
    requires 1.0 + ratio != 0.0
    ensures var q := (1.0 - ratio) / (1.0 + ratio);
            Reflectance(1.0, ratio) == q * q && Reflectance(0.0, ratio) == 1.0
  {
  }

  /**
   * For a positive ratio and a cosine in [0, 1] the reflectance lies between `r0` and one,
   * and `r0` lies in [0, 1).
   */
  lemma ReflectanceBounds(cosine: real, ratio: real)
    requires 0.0 < ratio && 0.0 <= cosine <= 1.0
    ensures var q := (1.0 - ratio) / (1.0 + ratio);
            0.0 <= q * q < 1.0 && q * q <= Reflectance(cosine, ratio) <= 1.0
  {
    var q := (1.0 - ratio) / (1.0 + ratio);
    NormalIncidenceBounds(ratio);
    var r0 := q * q;
    var x := Pow5(1.0 - cosine);
    Pow5Unit(1.0 - cosine);
    UnitProduct(1.0 - r0, x);
    assert Reflectance(cosine, ratio) == r0 + (1.0 - r0) * x;
  }

  /** For a positive ratio `(1 - r) / (1 + r)` lies in (-1, 1), so its square lies in [0, 1). */
  lemma NormalIncidenceBounds(ratio: real)
    requires 0.0 < ratio
    ensures var q := (1.0 - ratio) / (1.0 + ratio); -1.0 < q < 1.0 && 0.0 <= q * q < 1.0
  {
    var q := (1.0 - ratio) / (1.0 + ratio);
    assert q * (1.0 + ratio) == 1.0 - ratio;
    if q >= 1.0 {
      MulLe(1.0, q, 1.0 + ratio);
    } else if q <= -1.0 {
      MulLe(q, -1.0, 1.0 + ratio);
    }
    SquareNonNeg(q);
    SquareLt(if q < 0.0 then -q else q, 1.0);
    assert (if q < 0.0 then -q else q) * (if q < 0.0 then -q else q) == q * q;
  }

  /** A fifth power of a number of [0, 1] stays in [0, 1]. */
  lemma Pow5Unit(x: real)
    requires 0.0 <= x <= 1.0
    ensures 0.0 <= Pow5(x) <= 1.0
  {
    UnitProduct(x, x);
    UnitProduct(x * x, x);
    UnitProduct(x * x * x, x);
    UnitProduct(x * x * x * x, x);
  }

  /** The light's emission is its texture's value; of a colour, that colour everywhere. */
  lemma DiffuseLightEmits(f: Funcs, emit: Texture, c: Color, u: real, v: real, p: Point3)
    requires WellFormed(emit)
    ensures Emitted(f, DiffuseLight(emit), u, v, p) == Value(f, emit, u, v, p)
    ensures Usable(DiffuseLightOfColor(c)) && Emitted(f, DiffuseLightOfColor(c), u, v, p) == c
  {
  }

  /**
   * The isotropic medium always scatters, along the sample, with the texture's value as
   * attenuation; of a colour, that colour at every hit.
   */
  lemma IsotropicScatter(f: Funcs, albedo: Texture, c: Color, rIn: Ray, rec: Record<Material>, d: Draws,
                         attenuation: Color, scattered: Ray)
    requires WellFormed(albedo)
    ensures var res := Scatter(f, Isotropic(albedo), rIn, rec, d, attenuation, scattered);
            res.0 && res.1 == Value(f, albedo, rec.u, rec.v, rec.p) && res.2 == Ray(rec.p, d.inSphere, rIn.time)
    ensures Usable(IsotropicOfColor(c)) && Scatter(f, IsotropicOfColor(c), rIn, rec, d, attenuation, scattered).1 == c
  {
  }
}
