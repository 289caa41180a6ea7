/**
 * The textures: a solid colour (material/solid_color.h), the 3-D checker
 * (src/material/texture/checker_texture.h), the Perlin marble (src/material/texture/noise_texture.h)
 * and the image texture (material/image_texture.h).
 *
 * `Texture` is a closed datatype with one constructor per subclass, and `Value` is
 * `Texture::Value`.
 */
module Textures {

  import opened RealArith
  import opened Elementary
  import opened Vectors
  import opened RtWeekend
  import opened PerlinNoise
  import Spheres

  /** An `unsigned char` of the decoded image. */
  type Byte = x: int | 0 <= x < 256

  /** `bytes_per_pixel`: the image is decoded to three components per pixel. */
  const BytesPerPixel: int := 3

  /** `color_scale`: a byte `b` is the intensity `b / 255`. */
  const ColorScale: real := 1.0 / 255.0

  /**
   * The state of an `ImageTexture`: whether `data_` is non-null, the decoded bytes, `width_`,
   * `height_` and `bytes_per_scanline_`.
   */
  datatype Image = Image(loaded: bool, data: seq<Byte>, width: int, height: int, bytesPerScanline: int)

  /** What a successful decode provides: a positive size, three bytes per pixel, rows of `3 * width` bytes. */
  predicate Decoded(img: Image) {
    img.loaded ==>
      && 0 < img.width && 0 < img.height
      && img.bytesPerScanline == BytesPerPixel * img.width
      && |img.data| == img.width * img.height * BytesPerPixel
  }

  /** `ImageTexture()`: no data and a zero size. */
  function EmptyImage(): (img: Image)
    ensures !img.loaded && img.width == 0 && img.height == 0 && img.bytesPerScanline == 0
  {
    Image(false, [], 0, 0, 0)
  }

  /**
   * `ImageTexture(filename)` once the decoder has answered: `decoded` is the decoder's result
   * (the bytes, the width and the height) or `None` when it could not load the file. A failed
   * load sets the width and height to zero, and in every case the scanline is three bytes per
   * column.
   */
  function LoadedImage(decoded: Spheres.Option<(seq<Byte>, int, int)>): (img: Image)
    ensures img.bytesPerScanline == BytesPerPixel * img.width
    ensures decoded.None? ==> !img.loaded && img.width == 0 && img.height == 0
    ensures decoded.Some? ==> img.loaded && img.data == decoded.value.0
                              && img.width == decoded.value.1 && img.height == decoded.value.2
  {
    match decoded
    case None => Image(false, [], 0, 0, 0)
    case Some((bytes, w, h)) => Image(true, bytes, w, h, BytesPerPixel * w)
  }

  /**
   * The column and row of the pixel read for `(u, v)`: `u` clamped to [0, 1], `v` clamped and
   * flipped to `1 - v`, each scaled by the size and truncated, and the one past the last
   * column or row pulled back onto it.
   */
  function PixelIndex(img: Image, u: real, v: real): (ij: (int, int))
    requires 0 < img.width && 0 < img.height
    ensures 0 <= ij.0 < img.width && 0 <= ij.1 < img.height
    ensures 0.0 <= u < 1.0 ==> ij.0 == (u * img.width as real).Floor
    ensures u <= 0.0 ==> ij.0 == 0
    ensures 1.0 <= u ==> ij.0 == img.width - 1
    ensures 0.0 < v <= 1.0 ==> ij.1 == ((1.0 - v) * img.height as real).Floor
    ensures 1.0 <= v ==> ij.1 == 0
    ensures v <= 0.0 ==> ij.1 == img.height - 1
  {
    (ScaledIndex(Clamp(u, 0.0, 1.0), img.width), ScaledIndex(1.0 - Clamp(v, 0.0, 1.0), img.height))
  }

  /**
   * `static_cast<int>(c * n)`, lowered to `n - 1` when it reaches `n`: the index of the
   * fraction `c` of [0, 1] among `n` pixels.
   */
  function ScaledIndex(c: real, n: int): (i: int)
    requires 0.0 <= c <= 1.0 && 0 < n
    ensures 0 <= i < n
    ensures c < 1.0 ==> i == (c * n as real).Floor
    ensures c == 1.0 ==> i == n - 1
  {
    ScaledUnit(c, n);
    var i := Trunc(c * n as real);
    if i >= n then n - 1 else i
  }

  /** A fraction of [0, 1] scales into [0, n], and below `n` when it is below one. */
  lemma ScaledUnit(c: real, n: int)
    requires 0.0 <= c <= 1.0 && 0 < n
    ensures 0.0 <= c * n as real <= n as real
    ensures c < 1.0 ==> c * n as real < n as real
    ensures c == 1.0 ==> Trunc(c * n as real) == n
  {
    MulLe(c, 1.0, n as real);
    MulNonNeg(c, n as real);
    if c < 1.0 {
      MulLt(c, 1.0, n as real);
    }
  }

  /**
   * `j * bytes_per_scanline_ + i * bytes_per_pixel`, the first byte of pixel `(i, j)`; all three
   * components lie inside the decoded bytes.
   */
  function PixelOffset(img: Image, i: int, j: int): (offset: int)
    requires Decoded(img) && img.loaded
    requires 0 <= i < img.width && 0 <= j < img.height
    ensures 0 <= offset && offset + 2 < |img.data|
  {
    var w, h := img.width, img.height;
    RowBelow(j, h, BytesPerPixel * w);
    assert (h - 1) * (BytesPerPixel * w) == w * h * BytesPerPixel - BytesPerPixel * w;
    j * img.bytesPerScanline + i * BytesPerPixel
  }

  /** A row below the last one starts at most one row before the end. */
  lemma RowBelow(j: int, h: int, row: int)
    requires 0 <= j < h && 0 <= row
    ensures 0 <= j * row <= (h - 1) * row
  {
    var below := h - 1 - j;
    assert (h - 1) * row == j * row + below * row;
    assert 0 <= below * row;
  }

  /** `ImageTexture::Value`: cyan without data, otherwise the pixel's three bytes over 255. */
  function ImageValue(img: Image, u: real, v: real): (c: Color)
    requires Decoded(img)
    ensures !img.loaded ==> c == Vec3(0.0, 1.0, 1.0)
  {
    if !img.loaded then Vec3(0.0, 1.0, 1.0)
    else
      var (i, j) := PixelIndex(img, u, v);
      var offset := PixelOffset(img, i, j);
      Vec3(ColorScale * img.data[offset] as real,
           ColorScale * img.data[offset + 1] as real,
           ColorScale * img.data[offset + 2] as real)
  }

  /** Every channel of an image texture is a byte over 255, so it lies in [0, 1]. */
  lemma ImageValueInUnitRange(img: Image, u: real, v: real)
    requires Decoded(img)
    ensures InUnitCube(ImageValue(img, u, v))
  {
    if img.loaded {
      var (i, j) := PixelIndex(img, u, v);
      var offset := PixelOffset(img, i, j);
      ByteIntensity(img.data[offset]);
      ByteIntensity(img.data[offset + 1]);
      ByteIntensity(img.data[offset + 2]);
    }
  }

  lemma ByteIntensity(b: Byte)
    ensures 0.0 <= ColorScale * b as real <= 1.0
  {
  }

  /** Every channel lies in [0, 1]. */
  ghost predicate InUnitCube(c: Color) {
    0.0 <= c.x <= 1.0 && 0.0 <= c.y <= 1.0 && 0.0 <= c.z <= 1.0
  }

  datatype Texture =
    | Solid(color: Color)
    | Checker(even: Texture, odd: Texture)
    | Noise(scale: real, noise: Tables)
    | ImageTexture(image: Image)

  /** Every texture in the tree can be evaluated: its noise tables are indexable, its images decoded. */
  ghost predicate WellFormed(tex: Texture) {
    match tex
    case Solid(_) => true
    case Checker(even, odd) => WellFormed(even) && WellFormed(odd)
    case Noise(_, noise) => Indexable(noise)
    case ImageTexture(img) => Decoded(img)
  }

  /** `CheckTexture(c1, c2)`: both halves are solid colours. */
  function CheckerOfColors(c1: Color, c2: Color): (tex: Texture)
    ensures tex.Checker? && tex.even == Solid(c1) && tex.odd == Solid(c2) && WellFormed(tex)
  {
    Checker(Solid(c1), Solid(c2))
  }

  /** `sin(10 x) * sin(10 y) * sin(10 z)`, whose sign picks the checker half. */
  function Sines(f: Funcs, p: Point3): real {
    f.sin(10.0 * p.x) * f.sin(10.0 * p.y) * f.sin(10.0 * p.z)
  }

  /** `Color(1, 1, 1) * 0.5 * (1 + sin(scale_ * z + 10 * terb))`: the grey of the marble. */
  function Marble(f: Funcs, scale: real, z: real, terb: real): Color {
    ScaleRight(ScaleRight(Vec3(1.0, 1.0, 1.0), 0.5), 1.0 + f.sin(scale * z + 10.0 * terb))
  }

  /** `Texture::Value(u, v, p)` of every texture. */
  function Value(f: Funcs, tex: Texture, u: real, v: real, p: Point3): Color
    requires WellFormed(tex)
  {
    match tex
    case Solid(color) => color
    case Checker(even, odd) =>
      if Sines(f, p) < 0.0 then Value(f, odd, u, v, p) else Value(f, even, u, v, p)
    case Noise(scale, noise) =>
      Marble(f, scale, p.z, Turbulence(noise, p, 7))
    case ImageTexture(img) => ImageValue(img, u, v)
  }

  /** A solid colour is the same everywhere. */
  lemma SolidIsConstant(f: Funcs, c: Color, u: real, v: real, p: Point3)
    ensures Value(f, Solid(c), u, v, p) == c
  {
  }

  /**
   * The checker asks its odd half where the product of sines is negative and its even half
   * elsewhere (a zero product included), with the same `(u, v, p)`.
   */
  lemma CheckerDelegates(f: Funcs, even: Texture, odd: Texture, u: real, v: real, p: Point3)
    requires WellFormed(even) && WellFormed(odd)
    ensures Sines(f, p) < 0.0 ==> Value(f, Checker(even, odd), u, v, p) == Value(f, odd, u, v, p)
    ensures 0.0 <= Sines(f, p) ==> Value(f, Checker(even, odd), u, v, p) == Value(f, even, u, v, p)
    ensures Sines(f, p) == 0.0 ==> Value(f, Checker(even, odd), u, v, p) == Value(f, even, u, v, p)
  {
  }

  /** A checker of two colours shows one of the two at every point. */
  lemma CheckerOfColorsValue(f: Funcs, c1: Color, c2: Color, u: real, v: real, p: Point3)
    ensures Value(f, CheckerOfColors(c1, c2), u, v, p) == if Sines(f, p) < 0.0 then c2 else c1
  {
  }

  /**
   * The marble is grey, ignores `u` and `v`, and (with a lawful sine) has every channel in
   * [0, 1].
   */
  lemma NoiseValueFacts(f: Funcs, scale: real, t: Tables, u: real, v: real, u': real, v': real, p: Point3)
    requires Indexable(t)
    ensures var c := Value(f, Noise(scale, t), u, v, p); c.x == c.y == c.z
    ensures Value(f, Noise(scale, t), u, v, p) == Value(f, Noise(scale, t), u', v', p)
    ensures Lawful(f) ==> InUnitCube(Value(f, Noise(scale, t), u, v, p))
  {
    MarbleIsGrey(f, scale, p.z, Turbulence(t, p, 7));
  }

  /** The marble colour is grey, and with a lawful sine each channel lies in [0, 1]. */
  lemma MarbleIsGrey(f: Funcs, scale: real, z: real, terb: real)
    ensures var c := Marble(f, scale, z, terb); c.x == c.y == c.z
    ensures Lawful(f) ==> InUnitCube(Marble(f, scale, z, terb))
  {
    if Lawful(f) {
      var s := f.sin(scale * z + 10.0 * terb);
      assert -1.0 <= s <= 1.0;
    }
  }

  /** Solid colours of the tree, all with channels in [0, 1]. */
  ghost predicate SolidsInUnitCube(tex: Texture) {
    match tex
    case Solid(c) => InUnitCube(c)
    case Checker(even, odd) => SolidsInUnitCube(even) && SolidsInUnitCube(odd)
    case Noise(_, _) => true
    case ImageTexture(_) => true
  }

  /**
   * With a lawful sine, a texture whose solid colours lie in [0, 1] only ever yields colours
   * in [0, 1]: the checker picks one of its halves, the marble and the image stay in range.
   */
  lemma {:induction false} ValueInUnitCube(f: Funcs, tex: Texture, u: real, v: real, p: Point3)
    requires Lawful(f) && WellFormed(tex) && SolidsInUnitCube(tex)
    ensures InUnitCube(Value(f, tex, u, v, p))
  {
    match tex
    case Solid(_) =>
    case Checker(even, odd) =>
      ValueInUnitCube(f, even, u, v, p);
      ValueInUnitCube(f, odd, u, v, p);
    case Noise(scale, t) =>
      NoiseValueFacts(f, scale, t, u, v, u, v, p);
    case ImageTexture(img) =>
      ImageValueInUnitRange(img, u, v);
  }

  /** After a failed load the image texture is cyan for every input. */
  lemma FailedLoadIsCyan(f: Funcs, u: real, v: real, p: Point3)
    ensures WellFormed(ImageTexture(LoadedImage(Spheres.None)))
    ensures Value(f, ImageTexture(LoadedImage(Spheres.None)), u, v, p) == Vec3(0.0, 1.0, 1.0)
    ensures WellFormed(ImageTexture(EmptyImage()))
    ensures Value(f, ImageTexture(EmptyImage()), u, v, p) == Vec3(0.0, 1.0, 1.0)
  {
  }
}
