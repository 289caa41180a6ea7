/**
 * `write_color` of utility/color.h: each accumulated channel is averaged over the samples,
 * gamma-corrected with a square root, clamped and quantised to 0 .. 255, and the three
 * numbers are written as one line of decimal text.
 */
module PixelOutput {

  import opened RealArith
  import opened Elementary
  import opened Vectors
  import opened RtWeekend
  import opened Spheres

  /**
   * The upper clamp bound `0.999f`: a single-precision constant, so the value is the float
   * nearest to 0.999, which is 16760439 / 2^24.
   */
  const ClampMax: real := 16760439.0 / 16777216.0

  /** One output channel: `static_cast<int>(256 * clamp(sqrt(scale * c), 0.0f, 0.999f))`. */
  function Channel(f: Funcs, c: real, samplesPerPixel: int): (n: int)
    requires samplesPerPixel != 0
    ensures 0 <= n <= 255
  {
    Quantise(f.sqrt(Average(c, samplesPerPixel)))
  }

  /** `scale * c` with `scale = 1.0 / samples_per_pixel`: the channel averaged over the samples. */
  function Average(c: real, samplesPerPixel: int): real
    requires samplesPerPixel != 0
  {
    (1.0 / samplesPerPixel as real) * c
  }

  /** `static_cast<int>(256 * clamp(g, 0.0f, 0.999f))` for a gamma-corrected channel `g`. */
  function Quantise(g: real): (n: int)
    ensures 0 <= n <= 255
  {
    Trunc(256.0 * Clamp(g, 0.0, ClampMax))
  }

  /** The three channels `write_color` writes, in the order red, green, blue. */
  function WriteColor(f: Funcs, pixel: Color, samplesPerPixel: int): (rgb: (int, int, int))
    requires samplesPerPixel != 0
    ensures 0 <= rgb.0 <= 255 && 0 <= rgb.1 <= 255 && 0 <= rgb.2 <= 255
  {
    (Channel(f, pixel.x, samplesPerPixel), Channel(f, pixel.y, samplesPerPixel), Channel(f, pixel.z, samplesPerPixel))
  }

  /** Over a positive number of samples the average keeps the order of non-negative channels. */
  lemma AverageMonotone(c: real, c': real, samplesPerPixel: int)
    requires 0 < samplesPerPixel && 0.0 <= c <= c'
    ensures 0.0 <= Average(c, samplesPerPixel) <= Average(c', samplesPerPixel)
  {
    var scale := 1.0 / samplesPerPixel as real;
    MulLe(c, c', scale);
    MulNonNeg(scale, c);
  }

  /**
   * Below the clamp bound the channel is the quantisation of the gamma-corrected average:
   * `n / 256 <= sqrt(c / samples) < (n + 1) / 256`.
   */
  lemma ChannelQuantises(f: Funcs, c: real, samplesPerPixel: int)
    requires Lawful(f) && 0 < samplesPerPixel && 0.0 <= c
    requires f.sqrt(Average(c, samplesPerPixel)) <= ClampMax
    ensures var g := f.sqrt(Average(c, samplesPerPixel));
            var n := Channel(f, c, samplesPerPixel);
            n as real <= 256.0 * g < n as real + 1.0
  {
    AverageMonotone(c, c, samplesPerPixel);
  }

  /** A black channel is written as 0. */
  lemma BlackIsZero(f: Funcs, samplesPerPixel: int)
    requires Lawful(f) && samplesPerPixel != 0
    ensures Channel(f, 0.0, samplesPerPixel) == 0
  {
    assert Average(0.0, samplesPerPixel) == 0.0 * 0.0;
    SqrtOfSquare(f, 0.0);
  }

  /** A channel whose average is at or above full intensity is written as 255. */
  lemma FullIntensityIs255(f: Funcs, c: real, samplesPerPixel: int)
    requires Lawful(f) && 0 < samplesPerPixel && samplesPerPixel as real <= c
    ensures Channel(f, c, samplesPerPixel) == 255
  {
    AverageMonotone(samplesPerPixel as real, c, samplesPerPixel);
    assert Average(samplesPerPixel as real, samplesPerPixel) == 1.0 * 1.0;
    SqrtOfSquare(f, 1.0);
    SqrtMonotone(f, 1.0 * 1.0, Average(c, samplesPerPixel));
  }

  /** White over one sample, (1, 1, 1), is written as 255 255 255. */
  lemma WhiteIs255(f: Funcs)
    requires Lawful(f)
    ensures WriteColor(f, Vec3(1.0, 1.0, 1.0), 1) == (255, 255, 255)
  {
    FullIntensityIs255(f, 1.0, 1);
  }

  /** For non-negative channels a larger accumulated value never gives a smaller output. */
  lemma ChannelMonotone(f: Funcs, c: real, c': real, samplesPerPixel: int)
    requires Lawful(f) && 0 < samplesPerPixel && 0.0 <= c <= c'
    ensures Channel(f, c, samplesPerPixel) <= Channel(f, c', samplesPerPixel)
  {
    AverageMonotone(c, c', samplesPerPixel);
    SqrtMonotone(f, Average(c, samplesPerPixel), Average(c', samplesPerPixel));
    QuantiseMonotone(f.sqrt(Average(c, samplesPerPixel)), f.sqrt(Average(c', samplesPerPixel)));
  }

  /** Clamping and truncating preserve order. */
  lemma QuantiseMonotone(x: real, y: real)
    requires x <= y
    ensures Quantise(x) <= Quantise(y)
  {
    var a := Clamp(x, 0.0, ClampMax);
    var b := Clamp(y, 0.0, ClampMax);
    ClampMonotone(x, y, 0.0, ClampMax);
    MulLe(a, b, 256.0);
  }

  /** `operator<<` on a non-negative `int`: its decimal digits, most significant first. */
  function Decimal(n: nat): (s: string)
    ensures 1 <= |s| && forall i :: 0 <= i < |s| ==> '0' <= s[i] <= '9'
    decreases n
  {
    if n < 10 then [DigitChar(n)] else Decimal(n / 10) + [DigitChar(n % 10)]
  }

  /** The character of one decimal digit. */
  function DigitChar(d: nat): (c: char)
    requires d < 10
    ensures '0' <= c <= '9'
  {
    (48 + d) as char
  }

  /** The number a string of decimal digits denotes. */
  function DecimalValue(s: string): nat
    requires forall i :: 0 <= i < |s| ==> '0' <= s[i] <= '9'
  {
    if s == [] then 0 else 10 * DecimalValue(s[..|s| - 1]) + (s[|s| - 1] as int - 48)
  }

  /** Reading the written digits back gives the number. */
  lemma {:induction false} DecimalRoundTrip(n: nat)
    ensures DecimalValue(Decimal(n)) == n
    decreases n
  {
    if n >= 10 {
      var s := Decimal(n / 10) + [DigitChar(n % 10)];
      assert s[..|s| - 1] == Decimal(n / 10);
      DecimalRoundTrip(n / 10);
    }
  }

  /** The line `write_color` writes: the three channels separated by single spaces. */
  function Line(rgb: (int, int, int)): (line: string)
    requires 0 <= rgb.0 && 0 <= rgb.1 && 0 <= rgb.2
  {
    Decimal(rgb.0) + [' '] + Decimal(rgb.1) + [' '] + Decimal(rgb.2) + ['\n']
  }

  /** The first field of a line, up to its first space, and the rest after that space. */
  function Field(s: string): (fr: (string, string))
    ensures |fr.0| <= |s|
    ensures ' ' in s ==> |fr.0| + 1 + |fr.1| == |s| && s == fr.0 + [' '] + fr.1 && ' ' !in fr.0
    ensures ' ' !in s ==> fr == (s, [])
  {
    if s == [] then ([], [])
    else if s[0] == ' ' then ([], s[1..])
    else
      var (a, b) := Field(s[1..]);
      assert s == [s[0]] + s[1..];
      assert ' ' !in s ==> ' ' !in s[1..];
      ([s[0]] + a, b)
  }

  /** A string of digits holds no space, so a written field ends at the space after it. */
  lemma {:induction false} FieldOfDigits(d: string, rest: string)
    requires AllDigits(d)
    ensures Field(d + [' '] + rest) == (d, rest)
    decreases |d|
  {
    var s := d + [' '] + rest;
    if d != [] {
      assert s[0] == d[0] != ' ';
      assert s[1..] == d[1..] + [' '] + rest;
      FieldOfDigits(d[1..], rest);
      assert [d[0]] + d[1..] == d;
    }
  }

  /** Reading the line back: the two space-separated fields and the last one before the newline. */
  function ParseLine(line: string): (rgb: Option<(int, int, int)>)
  {
    var (r, rest) := Field(line);
    var (g, rest') := Field(rest);
    if |rest'| == 0 || rest'[|rest'| - 1] != '\n' then None
    else
      var b := rest'[..|rest'| - 1];
      if !AllDigits(r) || !AllDigits(g) || !AllDigits(b) then None
      else Some((DecimalValue(r), DecimalValue(g), DecimalValue(b)))
  }

  /** Every character is a decimal digit. */
  predicate AllDigits(s: string) {
    forall i :: 0 <= i < |s| ==> '0' <= s[i] <= '9'
  }

  /** The written line reads back as the three channels that were written. */
  lemma LineRoundTrip(rgb: (int, int, int))
    requires 0 <= rgb.0 && 0 <= rgb.1 && 0 <= rgb.2
    ensures ParseLine(Line(rgb)) == Some(rgb)
  {
    var r, g, b := Decimal(rgb.0), Decimal(rgb.1), Decimal(rgb.2);
    var last := b + ['\n'];
    var rest := g + [' '] + last;
    assert Line(rgb) == r + [' '] + rest;
    FieldOfDigits(r, rest);
    FieldOfDigits(g, last);
    assert last[..|last| - 1] == b;
    DecimalRoundTrip(rgb.0);
    DecimalRoundTrip(rgb.1);
    DecimalRoundTrip(rgb.2);
  }
}
