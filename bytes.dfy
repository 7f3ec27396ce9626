/** Octets and the big-endian integer encodings used on the HTTP/2 wire. */
module Bytes {
  type byte = x: int | 0 <= x < 0x100
  type u32 = x: int | 0 <= x < 0x1_0000_0000

  /** A 31-bit stream identifier, as carried in a frame header (section 5.1.1 of RFC 7540). */
  const STREAM_ID_LIMIT: int := 0x8000_0000

  /** Big-endian encoding of a 32-bit unsigned integer. */
  function U32ToBe(x: u32): (r: seq<byte>)
    ensures |r| == 4
  {
    [x / 0x100_0000, (x / 0x1_0000) % 0x100, (x / 0x100) % 0x100, x % 0x100]
  }

  /** Big-endian decoding of four octets. */
  function BeToU32(b: seq<byte>): (r: u32)
    requires |b| == 4
  {
    (b[0] as int) * 0x100_0000 + (b[1] as int) * 0x1_0000 + (b[2] as int) * 0x100 + b[3] as int
  }

  lemma U32RoundTrip(x: u32)
    ensures BeToU32(U32ToBe(x)) == x
  {
    var b := U32ToBe(x);
    var a0, a1, a2 := x / 0x100, x / 0x1_0000, x / 0x100_0000;
    assert x == a0 * 0x100 + b[3];
    assert a0 == a1 * 0x100 + b[2];
    assert a1 == a2 * 0x100 + b[1];
    assert a2 == b[0];
  }

  lemma BeRoundTrip(b: seq<byte>)
    requires |b| == 4
    ensures U32ToBe(BeToU32(b)) == b
  {
    var b0, b1, b2, b3 := b[0] as int, b[1] as int, b[2] as int, b[3] as int;
    var x := BeToU32(b);
    assert x == (b0 * 0x1_0000 + b1 * 0x100 + b2) * 0x100 + b3;
    DivMod256(b0 * 0x1_0000 + b1 * 0x100 + b2, b3);
    DivMod256(b0 * 0x100 + b1, b2);
    DivMod256(b0, b1);
  }

  /** Dividing `q * 256 + r` by 256 gives back `q` and `r` when `r` is an octet. */
  lemma DivMod256(q: nat, r: nat)
    requires r < 0x100
    ensures (q * 0x100 + r) / 0x100 == q && (q * 0x100 + r) % 0x100 == r
  {
  }

  /** `n` zero octets, as written for frame padding. */
  function Zeros(n: nat): (r: seq<byte>)
    ensures |r| == n
    ensures forall i :: 0 <= i < n ==> r[i] == 0
  {
    seq(n, _ => 0)
  }
}
