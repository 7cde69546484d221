/**
 * The few platform values the recognition engine touches: Kotlin's 32-bit
 * `Int`, `android.graphics.Rect` and the pixel content of a `Bitmap`.
 */
module Graphics {

  /** Kotlin `Int`: a two's-complement 32-bit integer. */
  type Int32 = x: int | -0x8000_0000 <= x < 0x8000_0000

  /** Reduces an exact integer result to the `Int` that Kotlin's arithmetic yields (wrap-around). */
  function Wrap32(x: int): (r: Int32)
    ensures (r - x) % 0x1_0000_0000 == 0
    ensures -0x8000_0000 <= x < 0x8000_0000 ==> r == x
  {
    var m := x % 0x1_0000_0000;
    if m < 0x8000_0000 then m else m - 0x1_0000_0000
  }

  /** `android.graphics.Rect`: edges in pixels, right and bottom exclusive. */
  datatype Rect = Rect(left: Int32, top: Int32, right: Int32, bottom: Int32)

  /**
   * A bitmap's size and its ARGB pixels in row order, as `Bitmap.getPixels`
   * delivers them (`width * height` values).
   */
  datatype Bitmap = Bitmap(width: Int32, height: Int32, pixels: seq<Int32>)
}
