// Bytes and 32-bit words as integers.
module Bytes {
  type Byte = x: int | 0 <= x < 256

  type U32 = x: int | 0 <= x < 0x1_0000_0000

  // x ^ 0x20: flip bit 5.
  function Flip(x: Byte): Byte {
    if x / 32 % 2 == 0 then x + 32 else x - 32
  }

  lemma FlipIsXor(x: Byte)
    ensures Flip(x) == ((x as bv8) ^ 0x20) as int
  {
  }
}
