/**
 * The two checksums the driver relies on.
 *
 * CRC-8 guards ROM codes and DS18B20/DS2438 scratchpads; the bridge's `checkCRC` computes it
 * least-significant bit first with the reflected polynomial 0x8C, while `crc8` of the
 * second bridge class delegates to a catalogue engine configured as CRC-8/MAXIM (poly 0x31,
 * init 0, input and output reflected, no final xor). CRC-16/MAXIM (poly 0x8005, init 0,
 * reflected, final xor 0xFFFF) guards the DS2408 register frame.
 */
module Crc {
  import opened Bytes
  import opened Results

  /* ---------------------------------------------------------------------------------------- */
  /* CRC-8 as `checkCRC` computes it                                                          */

  /** One step of the inner loop: shift right, folding the polynomial in when bit 0 was set. */
  function Shift(c: Byte): Byte
  {
    if c & 1 == 1 then (c >> 1) ^ 0x8C else c >> 1
  }

  function Shifts(c: Byte, n: nat): Byte
    decreases n, c as int
  {
    if n == 0 then c else Shifts(Shift(c), n - 1)
  }

  /** One pass of the outer loop: xor the byte in, then eight shifts. */
  function Crc8Step(crc: Byte, b: Byte): Byte
  {
    Shifts(crc ^ b, 8)
  }

  /** The register after all of `s`, starting from 0. */
  function Crc8(s: seq<Byte>): Byte
  {
    if s == [] then 0 else Crc8Step(Crc8(s[..|s| - 1]), s[|s| - 1])
  }

  /**
   * `checkCRC(buffer, length)`: the CRC over the first `length` bytes (all of them when no
   * length is given) is zero. A length beyond the buffer makes `readUInt8` throw.
   */
  method CheckCrc(buffer: seq<Byte>, length: Option<nat>) returns (r: Result<bool>)
    ensures var n := if length.Some? then length.value else |buffer|;
            r == if n <= |buffer| then Ok(Crc8(buffer[..n]) == 0) else Err(RangeError)
  {
    var n := if length.Some? then length.value else |buffer|;
    var crc: Byte := 0;
    var i := 0;
    while i < n
      invariant i <= n && i <= |buffer|
      invariant crc == Crc8(buffer[..i])
    {
      if i == |buffer| {
        return Err(RangeError);
      }
      assert buffer[..i + 1][..i] == buffer[..i];
      crc := crc ^ buffer[i];
      var j := 0;
      while j < 8
        invariant j <= 8
        invariant Shifts(crc, 8 - j) == Crc8(buffer[..i + 1])
      {
        if crc & 0x01 == 1 {
          crc := (crc >> 1) ^ 0x8C;
        } else {
          crc := crc >> 1;
        }
        j := j + 1;
      }
      i := i + 1;
    }
    r := Ok(crc == 0);
  }

  lemma Crc8Append(s: seq<Byte>, b: Byte)
    ensures Crc8(s + [b]) == Crc8Step(Crc8(s), b)
  {
    assert (s + [b])[..|s|] == s;
  }

  /** Only a zero register shifts to zero. */
  lemma ShiftZero(c: Byte)
    ensures Shift(c) == 0 <==> c == 0
  {
  }

  /** Only a zero register shifts to zero, however many times: the shifts are a bijection. */
  lemma {:induction false} ShiftsZero(v: Byte, n: nat)
    ensures Shifts(v, n) == 0 <==> v == 0
    decreases n
  {
    if n > 0 {
      ShiftZero(v);
      ShiftsZero(Shift(v), n - 1);
    }
  }

  /**
   * A block followed by its own CRC checks, and that CRC byte is the only one that does: the
   * last byte of a valid ROM code is determined by the seven before it.
   */
  lemma Crc8Residue(s: seq<Byte>, b: Byte)
    ensures Crc8(s + [b]) == 0 <==> b == Crc8(s)
  {
    Crc8Append(s, b);
    ShiftsZero(Crc8(s) ^ b, 8);
  }

  /* ---------------------------------------------------------------------------------------- */
  /* The catalogue form, CRC-8/MAXIM                                                          */

  /** The bits of a byte in reverse order. */
  function Reflect8(b: Byte): Byte
  {
    ((b & 0x01) << 7) | ((b & 0x02) << 5) | ((b & 0x04) << 3) | ((b & 0x08) << 1)
    | ((b & 0x10) >> 1) | ((b & 0x20) >> 3) | ((b & 0x40) >> 5) | ((b & 0x80) >> 7)
  }

  function MsbShift8(r: Byte): Byte
  {
    if r & 0x80 != 0 then (r << 1) ^ 0x31 else r << 1
  }

  function MsbShifts8(r: Byte, n: nat): Byte
    decreases n
  {
    if n == 0 then r else MsbShifts8(MsbShift8(r), n - 1)
  }

  /** The catalogue register: each input byte reflected, then shifted most significant bit first. */
  function Crc8MaximRegister(s: seq<Byte>): Byte
  {
    if s == [] then 0
    else MsbShifts8(Crc8MaximRegister(s[..|s| - 1]) ^ Reflect8(s[|s| - 1]), 8)
  }

  /** `crc8`: CRC-8/MAXIM with reflected output and no final xor. */
  function Crc8Maxim(s: seq<Byte>): Byte
  {
    Reflect8(Crc8MaximRegister(s)) ^ 0x00
  }

  lemma Reflect8Involutive(x: Byte)
    ensures Reflect8(Reflect8(x)) == x
  {
  }

  lemma Reflect8Xor(x: Byte, y: Byte)
    ensures Reflect8(x ^ y) == Reflect8(x) ^ Reflect8(y)
  {
  }

  lemma Reflect8Shift(x: Byte)
    ensures Reflect8(MsbShift8(Reflect8(x))) == Shift(x)
  {
  }

  lemma {:induction false} MsbShifts8Reflected(x: Byte, n: nat)
    ensures Reflect8(MsbShifts8(Reflect8(x), n)) == Shifts(x, n)
    decreases n
  {
    if n > 0 {
      Reflect8Shift(x);
      Reflect8Involutive(MsbShift8(Reflect8(x)));
      MsbShifts8Reflected(Shift(x), n - 1);
    }
  }

  /** One byte through the catalogue register is one byte through `checkCRC`'s register, mirrored. */
  lemma Crc8MaximStep(r: Byte, b: Byte)
    ensures Reflect8(MsbShifts8(r ^ Reflect8(b), 8)) == Crc8Step(Reflect8(r), b)
  {
    var x := Reflect8(r) ^ b;
    Reflect8Xor(Reflect8(r), b);
    Reflect8Involutive(r);
    assert Reflect8(x) == r ^ Reflect8(b);
    MsbShifts8Reflected(x, 8);
  }

  /**
   * The two bridge classes agree: `crc8` (the catalogue CRC-8/MAXIM) equals the register of
   * `checkCRC`, so `crc8(rom) !== 0` and `!checkCRC(rom)` reject the same ROM codes.
   */
  lemma {:induction false} Crc8MaximAgrees(s: seq<Byte>)
    ensures Crc8Maxim(s) == Crc8(s)
  {
    if s != [] {
      var p, b := s[..|s| - 1], s[|s| - 1];
      Crc8MaximAgrees(p);
      Crc8MaximStep(Crc8MaximRegister(p), b);
    }
  }

  /* ---------------------------------------------------------------------------------------- */
  /* CRC-16/MAXIM                                                                             */

  function Reflect16(v: bv16): bv16
  {
    ((Reflect8((v & 0xFF) as bv8) as bv16) << 8) | (Reflect8((v >> 8) as bv8) as bv16)
  }

  function MsbShift16(r: bv16): bv16
  {
    if r & 0x8000 != 0 then (r << 1) ^ 0x8005 else r << 1
  }

  function MsbShifts16(r: bv16, n: nat): bv16
    decreases n
  {
    if n == 0 then r else MsbShifts16(MsbShift16(r), n - 1)
  }

  /** One byte through the catalogue's register: in at the top, reflected, then eight shifts. */
  function Crc16MaximByte(r: bv16, b: Byte): bv16
  {
    MsbShifts16(r ^ ((Reflect8(b) as bv16) << 8), 8)
  }

  function Crc16MaximRegister(s: seq<Byte>): bv16
  {
    if s == [] then 0
    else Crc16MaximByte(Crc16MaximRegister(s[..|s| - 1]), s[|s| - 1])
  }

  /** `crc16`: CRC-16/MAXIM, the value the DS2408 sends inverted after a register read. */
  function Crc16(s: seq<Byte>): bv16
  {
    Reflect16(Crc16MaximRegister(s)) ^ 0xFFFF
  }

  /** The register over one more byte of `s` is eight shifts of the register before it. */
  lemma Crc16Prefix(s: seq<Byte>, n: nat, r: bv16, b: Byte)
    requires 0 < n <= |s| && s[n - 1] == b && Crc16MaximRegister(s[..n - 1]) == r
    ensures Crc16MaximRegister(s[..n]) == Crc16MaximByte(r, b)
  {
    assert s[..n][..n - 1] == s[..n - 1];
  }

  /** The register after each prefix of the check string "123456789". */
  const CheckRegisters: seq<bv16> := [0x0000, 0x832B, 0x29A2, 0x205D, 0x5D28, 0xAA25, 0x2794, 0x16B9, 0xB93C, 0xBCDD]

  /** The register after the `n`-th digit of the check string is one step from the one before. */
  lemma Crc16CheckStep(n: nat)
    requires 1 <= n <= 9
    ensures Crc16MaximByte(CheckRegisters[n - 1], (0x30 + n) as Byte) == CheckRegisters[n]
  {
    if n == 1 {
      assert Crc16MaximByte(0x0000, 0x31) == 0x832B;
    } else if n == 2 {
      assert Crc16MaximByte(0x832B, 0x32) == 0x29A2;
    } else if n == 3 {
      assert Crc16MaximByte(0x29A2, 0x33) == 0x205D;
    } else if n == 4 {
      assert Crc16MaximByte(0x205D, 0x34) == 0x5D28;
    } else if n == 5 {
      assert Crc16MaximByte(0x5D28, 0x35) == 0xAA25;
    } else if n == 6 {
      assert Crc16MaximByte(0xAA25, 0x36) == 0x2794;
    } else if n == 7 {
      assert Crc16MaximByte(0x2794, 0x37) == 0x16B9;
    } else if n == 8 {
      assert Crc16MaximByte(0x16B9, 0x38) == 0xB93C;
    } else if n == 9 {
      assert Crc16MaximByte(0xB93C, 0x39) == 0xBCDD;
    }
  }

  /** The nine ASCII digits "123456789", the input of the catalogue's check value. */
  predicate CheckString(s: seq<Byte>)
  {
    |s| == 9 && forall i :: 0 <= i < 9 ==> s[i] == (0x31 + i) as Byte
  }

  /** The register after the first `n` digits of the check string. */
  lemma {:induction false} Crc16CheckPrefix(s: seq<Byte>, n: nat)
    requires CheckString(s) && n <= 9
    ensures Crc16MaximRegister(s[..n]) == CheckRegisters[n]
    decreases n
  {
    if n == 0 {
      assert s[..0] == [];
    } else {
      Crc16CheckPrefix(s, n - 1);
      Crc16Prefix(s, n, CheckRegisters[n - 1], (0x30 + n) as Byte);
      Crc16CheckStep(n);
    }
  }

  /**
   * The catalogue's check value of CRC-16/MAXIM: the nine ASCII digits "123456789" give 0x44C2,
   * so the polynomial, the reflections and the final inversion are those of the catalogue entry.
   */
  lemma Crc16Check(s: seq<Byte>)
    requires CheckString(s)
    ensures Crc16(s) == 0x44C2
  {
    Crc16CheckPrefix(s, 9);
    assert s[..9] == s;
  }
}
