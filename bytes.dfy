/** Bytes and the little-endian integer fields of the IVF container. */
module Bytes {

  type byte = b: int | 0 <= b < 0x100

  const Two16: nat := 0x1_0000
  const Two32: nat := 0x1_0000_0000

  type u16 = x: nat | x < Two16
  type u32 = x: nat | x < Two32

  /** A 16-bit little-endian field at `off` (Chunk::le16). */
  function Le16(s: seq<byte>, off: nat): (v: nat)
    requires off + 2 <= |s|
    ensures v < Two16
  {
    s[off] as int + 0x100 * (s[off + 1] as int)
  }

  /** A 32-bit little-endian field at `off` (Chunk::le32). */
  function Le32(s: seq<byte>, off: nat): (v: nat)
    requires off + 4 <= |s|
    ensures v < Two32
  {
    var b0, b1, b2, b3 := s[off] as int, s[off + 1] as int, s[off + 2] as int, s[off + 3] as int;
    b0 + 0x100 * b1 + 0x1_0000 * b2 + 0x100_0000 * b3
  }

  function Le16Bytes(v: nat): (r: seq<byte>)
    requires v < Two16
    ensures |r| == 2 && Le16(r, 0) == v
  {
    [v % 0x100, v / 0x100]
  }

  function Le32Bytes(v: nat): (r: seq<byte>)
    requires v < Two32
    ensures |r| == 4
  {
    [v % 0x100, (v / 0x100) % 0x100, (v / 0x1_0000) % 0x100, v / 0x100_0000]
  }

  /** Encoding a 32-bit value and reading the field back gives the value. */
  lemma Le32RoundTrip(v: nat)
    requires v < Two32
    ensures Le32(Le32Bytes(v), 0) == v
  {
    var r := Le32Bytes(v);
    DivMod(v, v % 0x100, v / 0x100);
    DivMod(v / 0x100, (v / 0x100) % 0x100, v / 0x1_0000);
    DivMod(v / 0x1_0000, (v / 0x1_0000) % 0x100, v / 0x100_0000);
  }

  /** Reading back the four bytes of a field gives the bytes that were there. */
  lemma Le32BytesOfField(s: seq<byte>, off: nat)
    requires off + 4 <= |s|
    ensures Le32Bytes(Le32(s, off)) == s[off..off + 4]
  {
    var b0, b1, b2, b3 := s[off] as int, s[off + 1] as int, s[off + 2] as int, s[off + 3] as int;
    var v := Le32(s, off);
    assert v == b0 + 0x100 * (b1 + 0x100 * (b2 + 0x100 * b3));
    DivMod(v, b0, b1 + 0x100 * (b2 + 0x100 * b3));
    DivMod(v / 0x100, b1, b2 + 0x100 * b3);
    DivMod(v / 0x1_0000, b2, b3);
  }

  lemma DivMod(v: int, lo: int, hi: int)
    requires 0 <= lo < 0x100 && 0 <= hi && v == lo + 0x100 * hi
    ensures v % 0x100 == lo && v / 0x100 == hi
  {
  }

  /** memcpy_le32: overwrite four bytes at `off` with `v` in little-endian order. */
  function WriteLe32(buf: seq<byte>, off: nat, v: nat): (r: seq<byte>)
    requires off + 4 <= |buf| && v < Two32
    ensures |r| == |buf|
    ensures Le32(r, off) == v
    ensures r[..off] == buf[..off] && r[off + 4..] == buf[off + 4..]
  {
    Le32RoundTrip(v);
    buf[..off] + Le32Bytes(v) + buf[off + 4..]
  }
}
