/** The bytes all the wires and segments carry, and the unsigned words made of them. */
module Octets {
  type Byte = b: int | 0 <= b < 0x100

  type UInt16 = w: int | 0 <= w < 0x1_0000

  type UInt32 = w: int | 0 <= w < 0x1_0000_0000

  /** The size of a packed gps_frame. */
  const FRAME_SIZE: nat := 12

  /** What an int holds. */
  predicate IsInt32(n: int) {
    -0x8000_0000 <= n < 0x8000_0000
  }
}
