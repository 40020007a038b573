/** Iconify's luminance-weighted tint: every opaque or translucent pixel is
    replaced by the accent colour scaled by the pixel's perceptual intensity,
    keeping its alpha; fully transparent pixels become `Color.Transparent`.
    The intensity is computed over the reals and truncated like the C#
    `(int)` cast, which rounds toward zero.
 */
module IconColorizer {
  import opened Drawing

  /** `(0.299 R + 0.587 G + 0.114 B) / 255`, always within [0, 1]. */
  function Intensity(c: Color): (i: real)
    ensures 0.0 <= i <= 1.0
  {
    (0.299 * c.r as real + 0.587 * c.g as real + 0.114 * c.b as real) / 255.0
  }

  /** `(int)(channel * intensity)`: never negative and never above the channel,
      so `Color.FromArgb` accepts it. */
  function Scale(channel: byte, intensity: real): (v: byte)
    requires 0.0 <= intensity <= 1.0
    ensures v as real <= channel as real * intensity < v as real + 1.0
    ensures v <= channel
  {
    var x := channel as real * intensity;
    ScaleBounded(channel as real, intensity, x);
    x.Floor as byte
  }

  lemma ScaleBounded(a: real, i: real, x: real)
    requires 0.0 <= a && 0.0 <= i <= 1.0 && x == a * i
    ensures 0.0 <= x <= a
    ensures 0 <= x.Floor <= a.Floor
  {
  }

  /** The body of the inner loop of `TintBitmap` for one pixel. */
  function TintPixel(c: Color, accent: Color): (p: Color)
    ensures c.a == 0 ==> p == Transparent
    ensures c.a != 0 ==> p.a == c.a
    ensures c.a != 0 ==> p.r <= accent.r && p.g <= accent.g && p.b <= accent.b
    ensures c.a != 0 ==> p.r as real <= accent.r as real * Intensity(c) < p.r as real + 1.0
    ensures c.a != 0 ==> p.g as real <= accent.g as real * Intensity(c) < p.g as real + 1.0
    ensures c.a != 0 ==> p.b as real <= accent.b as real * Intensity(c) < p.b as real + 1.0
  {
    if c.a == 0 then Transparent
    else
      var intensity := Intensity(c);
      FromArgb(c.a, Scale(accent.r, intensity), Scale(accent.g, intensity), Scale(accent.b, intensity))
  }

  /** One row of the result: the pixels x = 0 .. Width-1 of a source row. */
  function TintRow(row: seq<Color>, accent: Color): (r: seq<Color>)
    ensures |r| == |row|
    ensures forall x :: 0 <= x < |row| ==> r[x] == TintPixel(row[x], accent)
  {
    if |row| == 0 then []
    else TintRow(row[..|row| - 1], accent) + [TintPixel(row[|row| - 1], accent)]
  }

  /** `TintBitmap`: a new bitmap of the source's size whose pixel (x, y) is the
      tint of the source pixel (x, y) alone. */
  function TintBitmap(source: Bitmap, accent: Color): (r: Bitmap)
    ensures |r| == |source|
    ensures forall y :: 0 <= y < |source| ==> |r[y]| == |source[y]|
    ensures forall y, x :: 0 <= y < |source| && 0 <= x < |source[y]| ==> r[y][x] == TintPixel(source[y][x], accent)
  {
    if |source| == 0 then []
    else TintBitmap(source[..|source| - 1], accent) + [TintRow(source[|source| - 1], accent)]
  }

  /** A black pixel, whatever its alpha, keeps that alpha and gets RGB (0, 0, 0). */
  lemma BlackStaysBlack(c: Color, accent: Color)
    requires c.a != 0 && c.r == 0 && c.g == 0 && c.b == 0
    ensures TintPixel(c, accent) == Color(c.a, 0, 0, 0)
  {
  }

  /** The tinted bitmap keeps every alpha value of the source, and a
      rectangular source gives a rectangular result. */
  lemma TintPreservesAlpha(source: Bitmap, accent: Color)
    ensures forall y, x :: 0 <= y < |source| && 0 <= x < |source[y]| ==>
      TintBitmap(source, accent)[y][x].a == source[y][x].a
    ensures IsRectangular(source) ==> IsRectangular(TintBitmap(source, accent))
  {
  }
}
