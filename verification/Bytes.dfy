/** Bytes, and 64-bit integers. */
module Bytes {
  type Byte = b: int | 0 <= b < 256

  const TWO63 := 0x8000_0000_0000_0000
  const TWO64 := 0x1_0000_0000_0000_0000

  /** The conversion from `uint64` to `int64`. */
  function Signed(v: nat): int {
    if v < TWO63 then v else v - TWO64
  }

  function Unsigned(g: int): nat
    requires -TWO63 <= g < TWO63
  {
    if g >= 0 then g else g + TWO64
  }
}
