/** Java's primitive byte and the conversions the rover code applies to it. */
module JavaBytes {

  /** A Java `byte`: a signed 8-bit value. */
  type Byte = x: int | -128 <= x < 128

  /** The smallest and largest Java `int`. */
  const IntMin: int := -0x8000_0000
  const IntMax: int := 0x7FFF_FFFF

  predicate IsInt32(x: int) { IntMin <= x <= IntMax }

  /** A Java `int`. */
  type Int32 = x: int | IntMin <= x <= IntMax

  /** The Java cast `(byte) x`: keeps the low eight bits, read as two's complement. */
  function ToByte(x: int): (b: Byte)
    ensures (b - x) % 256 == 0
    ensures -128 <= x < 128 ==> b == x
  {
    (x + 128) % 256 - 128
  }

  /** `Byte.toUnsignedInt(b)`. */
  function ToUnsigned(b: Byte): (u: int)
    ensures 0 <= u < 256
    ensures u == b || u == b + 256
  {
    if b < 0 then b + 256 else b
  }

  lemma UnsignedOfByte(x: int)
    requires 0 <= x < 256
    ensures ToUnsigned(ToByte(x)) == x
  {
  }

  /** The Java cast `(char) b`: the byte is sign-extended to 16 bits first. */
  function ByteToChar(b: Byte): (c: char)
    ensures 0 <= b ==> c as int == b
    ensures b < 0 ==> c as int == b + 0x1_0000
  {
    if b < 0 then (b + 0x1_0000) as char else b as char
  }

  /** One byte per character: the low eight bits of the code point. */
  function CharToByte(c: char): (b: Byte)
    ensures c as int < 128 ==> b == c as int
  {
    ToByte(c as int)
  }

  function BytesToChars(bs: seq<Byte>): (s: string)
    ensures |s| == |bs|
    ensures forall k :: 0 <= k < |bs| ==> s[k] == ByteToChar(bs[k])
  {
    if bs == [] then [] else [ByteToChar(bs[0])] + BytesToChars(bs[1..])
  }

  function CharsToBytes(s: string): (bs: seq<Byte>)
    ensures |bs| == |s|
    ensures forall k :: 0 <= k < |s| ==> bs[k] == CharToByte(s[k])
  {
    if s == [] then [] else [CharToByte(s[0])] + CharsToBytes(s[1..])
  }

  /** Every character is 7-bit ASCII. */
  predicate IsAscii(s: string) {
    forall k :: 0 <= k < |s| ==> s[k] as int < 128
  }

  /** Characters below 128 survive `getBytes` followed by `(char)` casts. */
  lemma {:induction false} AsciiRoundTrip(s: string)
    requires IsAscii(s)
    ensures BytesToChars(CharsToBytes(s)) == s
  {
    var bs := CharsToBytes(s);
    var t := BytesToChars(bs);
    forall k | 0 <= k < |s| ensures t[k] == s[k] {
      assert bs[k] == s[k] as int;
    }
  }

  /** `ByteBuffer.putInt(n)`: the four bytes of n, most significant first, two's complement. */
  function BigEndian32(n: int): (bs: seq<Byte>)
    requires IsInt32(n)
    ensures |bs| == 4
  {
    var u0 := n % 0x1_0000_0000;
    var u1 := u0 / 256;
    var u2 := u1 / 256;
    [ToByte(u2 / 256), ToByte(u2 % 256), ToByte(u1 % 256), ToByte(u0 % 256)]
  }

  /** Reads four bytes as a big-endian two's-complement Java int. */
  function FromBigEndian32(bs: seq<Byte>): (n: int)
    requires |bs| == 4
    ensures IsInt32(n)
  {
    var u := ((ToUnsigned(bs[0]) * 256 + ToUnsigned(bs[1])) * 256 + ToUnsigned(bs[2])) * 256 + ToUnsigned(bs[3]);
    if u <= IntMax then u else u - 0x1_0000_0000
  }

  lemma BigEndianRoundTrip(n: int)
    requires IsInt32(n)
    ensures FromBigEndian32(BigEndian32(n)) == n
  {
    var u0 := n % 0x1_0000_0000;
    var u1 := u0 / 256;
    var u2 := u1 / 256;
    assert u2 / 256 < 256;
    UnsignedOfByte(u2 / 256);
    UnsignedOfByte(u2 % 256);
    UnsignedOfByte(u1 % 256);
    UnsignedOfByte(u0 % 256);
    assert u2 == u2 / 256 * 256 + u2 % 256;
    assert u1 == u2 * 256 + u1 % 256;
    assert u0 == u1 * 256 + u0 % 256;
  }
}
