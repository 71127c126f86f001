/** Unsigned 8-bit values: image bytes and RGBA8 pixel components. */
module Bytes {
  newtype byte = b: int | 0 <= b < 256
}
