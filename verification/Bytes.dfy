/** Octets and the little-endian integers that the wire formats are made of. */
module Bytes {
  type Byte = b: int | 0 <= b < 0x100

  /** A C string: the octets before the terminating zero. */
  ghost predicate CString(s: seq<Byte>) { 0 !in s }

  lemma Associative<T>(a: seq<T>, b: seq<T>, c: seq<T>)
    ensures a + (b + c) == (a + b) + c
  {}

  /** `v & 0xff`, `v >> 8 & 0xff`, and so on: the four octets of a 32-bit word, least significant first. */
  function LittleEndian32(v: int): (bytes: seq<Byte>)
    requires 0 <= v < 0x1_0000_0000
    ensures |bytes| == 4
  {
    [v % 0x100, v / 0x100 % 0x100, v / 0x1_0000 % 0x100, v / 0x100_0000 % 0x100]
  }

  function FromLittleEndian32(bytes: seq<Byte>): int
    requires |bytes| == 4
  {
    (bytes[0] as int) + (bytes[1] as int) * 0x100 + (bytes[2] as int) * 0x1_0000 + (bytes[3] as int) * 0x100_0000
  }

  lemma LittleEndian32Octets(v: int)
    requires 0 <= v < 0x1_0000_0000
    ensures
      var o := LittleEndian32(v);
      v == (o[0] as int) + (o[1] as int) * 0x100 + (o[2] as int) * 0x1_0000 + (o[3] as int) * 0x100_0000
  {
    var a, b, c := v / 0x100, v / 0x1_0000, v / 0x100_0000;
    assert b == a / 0x100 && c == b / 0x100;
    assert v == a * 0x100 + v % 0x100;
    assert a == b * 0x100 + a % 0x100;
    assert b == c * 0x100 + b % 0x100;
    assert c % 0x100 == c;
  }

  lemma LittleEndian32RoundTrip(v: int)
    requires 0 <= v < 0x1_0000_0000
    ensures FromLittleEndian32(LittleEndian32(v)) == v
  {
    LittleEndian32Octets(v);
  }
}
