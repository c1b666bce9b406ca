/** The unsigned types of source/include/libtype.h: bytes as bits, and numbers with their range. */
module LibTypes {
  const TWO_32 := 0x1_0000_0000

  type Byte = bv8
  type uint8 = x: int | 0 <= x < 0x100
  type uint16 = x: int | 0 <= x < 0x1_0000
  type uint32 = x: int | 0 <= x < 0x1_0000_0000
  type uint64 = x: int | 0 <= x < 0x1_0000_0000_0000_0000
}
