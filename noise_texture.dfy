/**
 * The marble texture of src/material/texture/noise_texture.h as the class the source has: it
 * owns a `Perlin` generator, and its `Value` runs `Perlin.Terb` on the generator's arrays. It
 * is proved equal to the `Noise` case of `Textures.Value` on the generator's tables.
 */
module NoiseTextures {

  import opened Elementary
  import opened Vectors
  import opened PerlinNoise
  import opened Textures

  /**
   * `NoiseTexture`: a `Perlin` generator and the `scale_` of the stripes. `Value` runs
   * `Terb` on the generator's arrays.
   */
  class NoiseTexture {
    const noise: Perlin
    const scale: real

    /** `NoiseTexture(scale)`, with the draws the generator's constructor takes. */
    constructor(f: Funcs, scale: real, vecDraws: seq<Vec3>, drawsX: seq<real>, drawsY: seq<real>, drawsZ: seq<real>)
      requires Lawful(f) && |vecDraws| == PointCount && NonZeroDraws(vecDraws)
      requires PointCount <= |drawsX| && UnitDraws(drawsX)
      requires PointCount <= |drawsY| && UnitDraws(drawsY)
      requires PointCount <= |drawsZ| && UnitDraws(drawsZ)
      ensures this.scale == scale && noise.Valid()
    {
      this.scale := scale;
      noise := new Perlin(f, vecDraws, drawsX, drawsY, drawsZ);
    }

    /** `NoiseTexture::Value(u, v, p)`: the `Noise` texture of the generator's tables. */
    method Value(f: Funcs, u: real, v: real, p: Point3) returns (c: Color)
      requires noise.Valid()
      ensures WellFormed(Noise(scale, noise.Contents()))
      ensures c == Textures.Value(f, Noise(scale, noise.Contents()), u, v, p)
    {
      var terb := noise.Terb(p, 7);
      c := Marble(f, scale, p.z, terb);
    }
  }
}
