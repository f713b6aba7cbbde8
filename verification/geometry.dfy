/** Fixed geometry of the 2.9-inch panel: 128 pixel columns (16 byte columns) by 296 rows. */
module Geometry {
  /** Logical panel width in pixels; a multiple of 8 because RAM is addressed in byte columns. */
  const Width: nat := 128
  /** Logical panel height in pixels (gate lines). */
  const Height: nat := 296
  /** Bytes in one row of the packed framebuffer. */
  const BytesPerRow: nat := 16
  /** Length of the packed 1-bit-per-pixel framebuffer: Width / 8 * Height = 4736. */
  const BufferSize: nat := 4736
  /** Pixels in an image of either supported orientation. */
  const PixelCount: nat := 37888

  /** The derived sizes agree with the panel's width and height: a row packs
      8 pixels per byte, and the framebuffer holds Height such rows. */
  lemma GeometryConsistent()
    ensures Width % 8 == 0 && BytesPerRow == Width / 8
    ensures BufferSize == BytesPerRow * Height && PixelCount == Width * Height
    ensures BufferSize * 8 == PixelCount
  {
  }
}
