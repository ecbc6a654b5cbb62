/**
 Machine words. Bytes that carry numbers (lengths, nonces) are bounded integers; bytes that are
 xored or rotated (packet data, key bytes) are bit-vectors.
 */
module Words {

  /** How many values a 64-bit word has. */
  const WORDS: int := 0x1_0000_0000_0000_0000

  type u8 = x: int | 0 <= x < 256

  type u32 = x: int | 0 <= x < 0x1_0000_0000

  type u64 = x: int | 0 <= x < WORDS

  lemma ByteValueInjective(a: bv8, b: bv8)
    requires a as int == b as int
    ensures a == b
  {
  }
}
