/**
 * Bytes as the driver handles them: JavaScript numbers stored into Buffers, little-endian
 * 16-bit fields, and the hexadecimal form of ROM codes.
 */
module Bytes {

  type Byte = bv8

  /** The byte a JavaScript number becomes when it is stored into a Buffer (`x & 0xFF`). */
  function ToByte(x: int): (b: Byte)
    ensures b as int == x % 256
  {
    var y := x % 256;
    IntByteInt(y);
    y as bv8
  }

  lemma IntByteInt(x: int)
    requires 0 <= x < 256
    ensures (x as bv8) as int == x
  {
    ByteIntByte(Counted(x));
  }

  lemma ByteIntByte(b: Byte)
    ensures (b as int) as bv8 == b
  {
  }

  lemma Succ(b: Byte)
    requires b as int < 255
    ensures (b + 1) as int == b as int + 1
  {
  }

  /** The byte reached by counting up from 0, `x` times. */
  ghost function Counted(x: int): (b: Byte)
    requires 0 <= x < 256
    ensures b as int == x
  {
    if x == 0 then 0 else Succ(Counted(x - 1)); Counted(x - 1) + 1
  }

  /** Element `i` of a byte array, or 0 where JavaScript reads `undefined` and a bitwise operator turns it into 0. */
  function At(a: seq<Byte>, i: nat): Byte
  {
    if i < |a| then a[i] else 0
  }

  /** `readUInt16LE`: the unsigned little-endian 16-bit value at `offset`. */
  function ReadUInt16LE(a: seq<Byte>, offset: nat): (v: int)
    ensures 0 <= v < 0x1_0000
    ensures v % 256 == At(a, offset) as int && v / 256 == At(a, offset + 1) as int
  {
    At(a, offset) as int + 256 * At(a, offset + 1) as int
  }

  /**
   * `readInt16LE`: the same 16 bits read as a two's-complement number; the source ORs in
   * 0xFFFF0000 when bit 15 is set, which as a signed 32-bit result is the value minus 65536.
   */
  function ReadInt16LE(a: seq<Byte>, offset: nat): (v: int)
    ensures -0x8000 <= v < 0x8000
    ensures v % 0x1_0000 == ReadUInt16LE(a, offset)
    ensures v < 0 <==> At(a, offset + 1) & 0x80 != 0
  {
    var u := ReadUInt16LE(a, offset);
    HighBit(At(a, offset + 1));
    if u >= 0x8000 then u - 0x1_0000 else u
  }

  /** The top bit of a byte is set exactly when the byte is 128 or more. */
  lemma HighBit(x: Byte)
    ensures x & 0x80 != 0 <==> x as int >= 0x80
  {
  }

  /** The two bytes a device sends for a signed 16-bit value, least significant first. */
  function EncodeInt16LE(x: int): (bs: seq<Byte>)
    requires -0x8000 <= x < 0x8000
    ensures |bs| == 2
  {
    [ToByte(x), ToByte(x / 256)]
  }

  /** Reading back what a device encodes gives the encoded value. */
  lemma ReadInt16LERoundTrip(x: int)
    requires -0x8000 <= x < 0x8000
    ensures ReadInt16LE(EncodeInt16LE(x), 0) == x
  {
    var bs := EncodeInt16LE(x);
    assert ReadUInt16LE(bs, 0) == x % 256 + 256 * ((x / 256) % 256);
    Int16Digits(x);
  }

  /** The two base-256 digits of a signed 16-bit value, read back as two's complement. */
  lemma Int16Digits(x: int)
    requires -0x8000 <= x < 0x8000
    ensures var u := x % 256 + 256 * ((x / 256) % 256);
      (if u >= 0x8000 then u - 0x1_0000 else u) == x
  {
    var q, r := x / 256, x % 256;
    assert x == 256 * q + r && -128 <= q < 128;
    if q < 0 {
      assert q % 256 == q + 256;
    }
  }

  /* ---------------------------------------------------------------------------------------- */
  /* Hexadecimal text                                                                          */

  predicate IsHexDigit(c: char)
  {
    '0' <= c <= '9' || 'a' <= c <= 'f' || 'A' <= c <= 'F'
  }

  function HexValue(c: char): (n: int)
    requires IsHexDigit(c)
    ensures 0 <= n < 16
  {
    if '0' <= c <= '9' then c as int - '0' as int
    else if 'a' <= c <= 'f' then c as int - 'a' as int + 10
    else c as int - 'A' as int + 10
  }

  function HexDigit(n: int): (c: char)
    requires 0 <= n < 16
    ensures IsHexDigit(c) && HexValue(c) == n
    ensures '0' <= c <= '9' || 'a' <= c <= 'f'
  {
    if n < 10 then ('0' as int + n) as char else ('a' as int + n - 10) as char
  }

  /** `toString('hex')`: two lower-case digits per byte, most significant nibble first. */
  function Hex(bs: seq<Byte>): (s: string)
    ensures |s| == 2 * |bs|
    ensures forall i :: 0 <= i < |s| ==> '0' <= s[i] <= '9' || 'a' <= s[i] <= 'f'
  {
    if bs == [] then []
    else [HexDigit((bs[0] as int) / 16), HexDigit((bs[0] as int) % 16)] + Hex(bs[1..])
  }

  /**
   * `Buffer.from(s, "hex")`: one byte per pair of hexadecimal digits, stopping at the first
   * pair that is not two digits; a single trailing character is ignored.
   */
  function HexDecode(s: string): (bs: seq<Byte>)
    ensures 2 * |bs| <= |s|
  {
    if |s| < 2 || !IsHexDigit(s[0]) || !IsHexDigit(s[1]) then []
    else [(16 * HexValue(s[0]) + HexValue(s[1])) as bv8] + HexDecode(s[2..])
  }

  lemma DecodePair(hi: char, lo: char, t: string)
    requires IsHexDigit(hi) && IsHexDigit(lo)
    ensures HexDecode([hi, lo] + t) == [(16 * HexValue(hi) + HexValue(lo)) as bv8] + HexDecode(t)
  {
    assert ([hi, lo] + t)[2..] == t;
  }

  lemma DigitsValue(b: Byte)
    ensures (16 * HexValue(HexDigit((b as int) / 16)) + HexValue(HexDigit((b as int) % 16))) as bv8 == b
  {
    var n := b as int;
    assert 16 * (n / 16) + n % 16 == n;
    ByteIntByte(b);
  }

  /** The two digits of a byte decode to that byte, whatever text follows them. */
  lemma DecodeDigits(b: Byte, t: string)
    ensures HexDecode([HexDigit((b as int) / 16), HexDigit((b as int) % 16)] + t) == [b] + HexDecode(t)
  {
    DecodePair(HexDigit((b as int) / 16), HexDigit((b as int) % 16), t);
    DigitsValue(b);
  }

  /** Decoding the hexadecimal text of a ROM code gives back the ROM code. */
  lemma {:induction false} HexRoundTrip(bs: seq<Byte>)
    ensures HexDecode(Hex(bs)) == bs
  {
    if bs != [] {
      HexRoundTrip(bs[1..]);
      DecodeDigits(bs[0], Hex(bs[1..]));
    }
  }

  /** Two ROM codes with the same text are the same code. */
  lemma HexInjective(a: seq<Byte>, b: seq<Byte>)
    requires Hex(a) == Hex(b)
    ensures a == b
  {
    HexRoundTrip(a);
    HexRoundTrip(b);
  }

  /** The first two characters of the text are the text of the first byte (the family code). */
  lemma {:induction false} HexFamily(bs: seq<Byte>)
    requires |bs| >= 1
    ensures Hex(bs)[..2] == Hex([bs[0]])
    ensures Hex(bs)[2..] == Hex(bs[1..])
  {
    assert Hex([bs[0]]) == [HexDigit((bs[0] as int) / 16), HexDigit((bs[0] as int) % 16)] + Hex([]);
  }
}
