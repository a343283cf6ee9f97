/** Unsigned machine integers and the big-endian 32-bit layout used by the
    length and CRC fields of a chunk (`u32::to_be_bytes` / `u32::from_be_bytes`). */
module Bytes {

  /** Exclusive upper bound of `u32`. */
  const U32_LIMIT: int := 0x1_0000_0000

  type u8 = x: int | 0 <= x < 0x100
  type u32 = x: int | 0 <= x < 0x1_0000_0000

  /** A `[u8; 4]` array. */
  type Byte4 = s: seq<u8> | |s| == 4 witness [0, 0, 0, 0]

  /** `n.to_be_bytes()`: most significant byte first. */
  function BeBytes(n: u32): (r: Byte4)
  {
    [n / 0x100_0000, (n / 0x1_0000) % 0x100, (n / 0x100) % 0x100, n % 0x100]
  }

  /** `u32::from_be_bytes(b)`. */
  function FromBeBytes(b: Byte4): (n: u32)
  {
    (b[0] as int) * 0x100_0000 + (b[1] as int) * 0x1_0000 + (b[2] as int) * 0x100 + b[3] as int
  }

  /** Division with remainder by one of the byte-place constants. */
  lemma DivMod(q: int, r: int, d: int)
    requires d == 0x100 || d == 0x1_0000 || d == 0x100_0000
    requires 0 <= r < d && 0 <= q
    ensures (q * d + r) / d == q && (q * d + r) % d == r
  {

  }

  /** Encoding a decoded value gives the four bytes back, so the two are
      mutually inverse bijections between `u32` and `[u8; 4]`. */
  lemma BeBytesOfFromBeBytes(b: Byte4)
    ensures BeBytes(FromBeBytes(b)) == b
  {
    var n := FromBeBytes(b);
    var b0, b1, b2, b3 := b[0] as int, b[1] as int, b[2] as int, b[3] as int;
    assert n == b0 * 0x100_0000 + (b1 * 0x1_0000 + b2 * 0x100 + b3);
    DivMod(b0, b1 * 0x1_0000 + b2 * 0x100 + b3, 0x100_0000);
    assert n == (b0 * 0x100 + b1) * 0x1_0000 + (b2 * 0x100 + b3);
    DivMod(b0 * 0x100 + b1, b2 * 0x100 + b3, 0x1_0000);
    DivMod(b0, b1, 0x100);
    assert n == (b0 * 0x1_0000 + b1 * 0x100 + b2) * 0x100 + b3;
    DivMod(b0 * 0x1_0000 + b1 * 0x100 + b2, b3, 0x100);
    assert b0 * 0x1_0000 + b1 * 0x100 + b2 == (b0 * 0x100 + b1) * 0x100 + b2;
    DivMod(b0 * 0x100 + b1, b2, 0x100);
  }

  /** Decoding an encoded value gives the value back. */
  lemma FromBeBytesOfBeBytes(n: u32)
    ensures FromBeBytes(BeBytes(n)) == n
  {
    assert n == (n / 0x100) * 0x100 + n % 0x100;
    assert n / 0x100 == (n / 0x1_0000) * 0x100 + (n / 0x100) % 0x100;
    assert n / 0x1_0000 == (n / 0x100_0000) * 0x100 + (n / 0x1_0000) % 0x100;
  }
}
