/** The slice of System.Drawing the core touches: 8-bit ARGB colours, bitmaps
    as grids of pixels, and icons as an owned handle over a bitmap.
 */
module Drawing {

  /** One 8-bit colour channel; `Color.FromArgb` rejects anything outside it. */
  newtype byte = x: int | 0 <= x < 256

  datatype Color = Color(a: byte, r: byte, g: byte, b: byte)

  /** `Color.FromArgb(alpha, red, green, blue)`. */
  function FromArgb(a: byte, r: byte, g: byte, b: byte): Color {
    Color(a, r, g, b)
  }

  /** `Color.Transparent`, which is white with alpha 0. */
  const Transparent: Color := Color(0, 255, 255, 255)

  /** A bitmap as `Height` rows of `Width` pixels; `image[y][x]` is pixel (x, y). */
  type Bitmap = seq<seq<Color>>

  predicate IsRectangular(image: Bitmap) {
    forall y :: 0 <= y < |image| ==> |image[y]| == |image[0]|
  }

  /** An `Icon` object. `handle` stands for the object's identity (and its
      native handle), which is what disposal is about; `image` is its content. */
  datatype Icon = Icon(handle: nat, image: Bitmap)
}
