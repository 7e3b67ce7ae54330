/** The codec behind the LongType comparator: a 64-bit integer as 8 bytes, most significant first. */
module LongCodec {
  import opened Php

  const B1 := 0x100
  const B2 := 0x1_0000
  const B3 := 0x100_0000
  const B4 := 0x1_0000_0000
  const B5 := 0x100_0000_0000
  const B6 := 0x1_0000_0000_0000
  const B7 := 0x100_0000_0000_0000
  const B8 := 0x1_0000_0000_0000_0000

  /** `($x >> 8k) & 0xff` on a 64-bit PHP integer, where `scale` is 2^(8k): the shift is
      arithmetic (it floors), the mask keeps the low byte. */
  function ShiftByte(x: Int64, scale: nat): Byte
    requires scale > 0
  {
    (x / scale) % 256
  }

  /** pack_longtype: the eight bytes of x, most significant first. */
  function Pack(x: Int64): (r: Bytes)
    ensures |r| == 8
    ensures r[0] >= 128 <==> x < 0
    ensures Unpack(Str(r)) == x
  {
    var r := [ShiftByte(x, B7), ShiftByte(x, B6), ShiftByte(x, B5), ShiftByte(x, B4),
              ShiftByte(x, B3), ShiftByte(x, B2), ShiftByte(x, B1), ShiftByte(x, 1)];
    PackDigits(x);
    r
  }

  /** `$a[1] << 56`: the first byte shifted into the top of a 64-bit integer; a byte of 128 or
      more reaches the sign bit and wraps to a negative value. */
  function TopByte(b: Byte): Int64 {
    if b < 128 then b * B7 else b * B7 - B8
  }

  /** unpack_longtype: the integer whose bytes, most significant first, start the string.
      `unpack('C8', ...)` fails on fewer than 8 bytes, and every byte then reads as 0. */
  function Unpack(x: Value): Int64 {
    var s := ToPhpString(x);
    if |s| < 8 then 0
    else TopByte(s[0]) + s[1] * B6 + s[2] * B5 + s[3] * B4 + s[4] * B3 + s[5] * B2 + s[6] * B1 + s[7]
  }

  /** Each shift by one more byte is a further division by 256. */
  lemma PackDigits(x: Int64)
    ensures x == TopByte(ShiftByte(x, B7)) + ShiftByte(x, B6) * B6 + ShiftByte(x, B5) * B5
      + ShiftByte(x, B4) * B4 + ShiftByte(x, B3) * B3 + ShiftByte(x, B2) * B2
      + ShiftByte(x, B1) * B1 + ShiftByte(x, 1)
    ensures ShiftByte(x, B7) >= 128 <==> x < 0
  {
    var q1, q2, q3, q4, q5, q6, q7 := x / B1, x / B2, x / B3, x / B4, x / B5, x / B6, x / B7;
    assert q2 == q1 / 256 && q3 == q2 / 256 && q4 == q3 / 256;
    assert q5 == q4 / 256 && q6 == q5 / 256 && q7 == q6 / 256;
    assert -128 <= q7 < 128;
  }

  /** Every 8-byte string is the packing of the integer it unpacks to. */
  lemma PackUnpack(s: Bytes)
    requires |s| == 8
    ensures Pack(Unpack(Str(s))) == s
  {
    var x := Unpack(Str(s));
    // y_k is the signed value of the first k + 1 bytes, l_k the value of the bytes after them
    var y0: int := if s[0] < 128 then s[0] as int else s[0] as int - 256;
    var y1 := y0 * 256 + s[1];
    var y2 := y1 * 256 + s[2];
    var y3 := y2 * 256 + s[3];
    var y4 := y3 * 256 + s[4];
    var y5 := y4 * 256 + s[5];
    var y6 := y5 * 256 + s[6];
    var l6 := s[7];
    var l5 := s[6] * B1 + l6;
    var l4 := s[5] * B2 + l5;
    var l3 := s[4] * B3 + l4;
    var l2 := s[3] * B4 + l3;
    var l1 := s[2] * B5 + l2;
    var l0 := s[1] * B6 + l1;
    ByteAt(x, B7, if s[0] < 128 then 0 else -1, s[0], l0);
    ByteAt(x, B6, y0, s[1], l1);
    ByteAt(x, B5, y1, s[2], l2);
    ByteAt(x, B4, y2, s[3], l3);
    ByteAt(x, B3, y3, s[4], l4);
    ByteAt(x, B2, y4, s[5], l5);
    ByteAt(x, B1, y5, s[6], l6);
    ByteAt(x, 1, y6, s[7], 0);
  }

  /** The byte of x at `scale` is b when x is made of a high part, then b, then a low part
      below `scale`. */
  lemma ByteAt(x: Int64, scale: nat, hi: int, b: Byte, lo: int)
    requires 0 <= lo < scale
    requires x == (hi * 256 + b) * scale + lo
    ensures ShiftByte(x, scale) == b
  {
    DivSplit(hi * 256 + b, lo, scale);
    DivSplit(hi, b, 256);
  }

  lemma DivSplit(a: int, c: int, d: int)
    requires 0 <= c < d
    ensures (a * d + c) / d == a && (a * d + c) % d == c
  {
    var n := a * d + c;
    var k := a - n / d;
    assert k * d == n % d - c;
    MulBound(k, d);
  }

  lemma MulBound(k: int, d: int)
    requires d >= 0
    ensures k == 0 || k * d <= -d || k * d >= d
  {
  }

  /** The encoding of 255: seven zero bytes, then 0xff. */
  lemma PackOf255()
    ensures Pack(255) == [0, 0, 0, 0, 0, 0, 0, 255]
    ensures Unpack(Str([0, 0, 0, 0, 0, 0, 0, 255])) == 255
  {
  }
}
