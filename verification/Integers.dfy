/** Bounds of Go's 64-bit integers. */
module Integers {
  const MAX_INT64: int := 0x7fff_ffff_ffff_ffff
  const TWO_TO_64: int := 0x1_0000_0000_0000_0000
}
