/**
 * The DS2438 battery monitor decoder of devices/ds2438.js: scratchpad page reads and writes, the
 * status/configuration bits, the temperature, the A/D voltages (VAD or VDD by the AD bit), the
 * humidity of an HIH-3600 or HIH-4000 sensor on VAD, the illuminance of an SFH-5711 on the
 * current input, and the table of paths the router offers for it. The methods are proved to do
 * what the function of the same name says.
 */
module Ds2438Device {
  import opened Bytes
  import opened Results
  import opened Commands
  import opened Crc
  import opened Wire
  import opened OneWire
  import opened Ds2482

  /* ---------------------------------------------------------------------------------------- */
  /* Commands and status bits                                                                  */

  const WRITE_SCRATCHPAD: Byte := 0x4E
  const READ_SCRATCHPAD: Byte := 0xBE
  const CONVERT_TEMP: Byte := 0x44
  const CONVERT_VOLT: Byte := 0xB4

  /** Bit positions of the status/configuration register (page 0, byte 0). */
  const IAD := 0
  const CA := 1
  const EE := 2
  const AD := 3
  const TB := 4
  const NVB := 5
  const ADB := 6

  /** `#bit_get(value, bit)`: `(value >> bit) % 2`, bit `bit` of the byte as 0 or 1. */
  function BitGet(v: Byte, i: nat): (r: int)
    requires i < 8
    ensures r == 0 || r == 1
    ensures r == 1 <==> ByteBit(v, i)
  {
    if (v >> i) % 2 == 1 then 1 else 0
  }

  /**
   * `#bit_set(value, bit, status)`: bit `bit` set when `status` holds and cleared otherwise,
   * every other bit kept.
   */
  function BitSet(v: Byte, i: nat, s: bool): (y: Byte)
    requires i < 8
    ensures ByteBit(y, i) == s
    ensures y & !Mask(i) == v & !Mask(i)
  {
    if s then v | Mask(i) else v & !Mask(i)
  }

  /** Setting a bit to the value it already has changes nothing. */
  lemma BitSetKeeps(v: Byte, i: nat, s: bool)
    requires i < 8 && ByteBit(v, i) == s
    ensures BitSet(v, i, s) == v
  {
  }

  /* ---------------------------------------------------------------------------------------- */
  /* Scratchpad pages                                                                          */

  /**
   * `#read_sp(page, length)`: select, Read Scratchpad of the page, `length` bytes. A short read
   * ends with a wire reset and no check; a full one is handed to `bridge.checkCRC`, whose answer
   * is ignored. Only the first class has `checkCRC`; on `DS2482_X` the call throws a TypeError.
   */
  function ReadSp(twin: bool, b: Bus, id: string, page: Byte, length: nat): (o: Out<seq<Byte>>)
    ensures Later(b, o.bus)
    ensures o.res.Ok? ==> |o.res.value| == length
    ensures twin && length >= 9 ==> o.res.Err?
  {
    var m := MatchRomOf(twin, b, id);
    if m.res.Err? then Out(Err(m.res.error), m.bus)
    else
      var w := WriteAll(m.bus, [READ_SCRATCHPAD, page]);
      if w.res.Err? then Out(Err(w.res.error), w.bus)
      else ReadSpAfter(twin, w.bus, length)
  }

  /** What `#read_sp` does once the command has gone out: the read, then the reset or the check. */
  function ReadSpAfter(twin: bool, b: Bus, length: nat): (o: Out<seq<Byte>>)
    ensures Later(b, o.bus)
    ensures o.res.Ok? ==> |o.res.value| == length
    ensures twin && length >= 9 ==> o.res.Err?
  {
    var r := ReadDataOf(twin, b, length);
    if r.res.Err? then r
    else if length < 9 then
      var z := ResetWire(r.bus);
      if z.res.Err? then Out(Err(z.res.error), z.bus) else Out(Ok(r.res.value), z.bus)
    else if twin then Out(Err(TypeError), r.bus)
    else r
  }

  /**
   * `#write_sp(page, data, length)`: select, Write Scratchpad of the page, then `length` bytes
   * of `data`; a write shorter than the page of eight ends with a wire reset.
   */
  function WriteSp(twin: bool, b: Bus, id: string, page: Byte, data: seq<Byte>, length: nat): (o: Out<()>)
    ensures Later(b, o.bus)
  {
    var m := MatchRomOf(twin, b, id);
    if m.res.Err? then Out(Err(m.res.error), m.bus)
    else
      var w := WriteAll(m.bus, [WRITE_SCRATCHPAD, page]);
      if w.res.Err? then Out(Err(w.res.error), w.bus)
      else
        var d := WriteDataOf(twin, w.bus, data, length);
        if d.res.Err? then Out(Err(d.res.error), d.bus)
        else if length < 8 then
          var z := ResetWire(d.bus);
          if z.res.Err? then Out(Err(z.res.error), z.bus) else Out(Ok(()), z.bus)
        else Out(Ok(()), d.bus)
  }

  /**
   * A scratchpad read that went through selected the device, sent Read Scratchpad with the
   * page, and read `length` bytes (one for a zero length, which only the twin survives); a short
   * read then reset the wire.
   */
  lemma ReadSpLogged(twin: bool, b: Bus, id: string, page: Byte, length: nat)
    requires ReadSp(twin, b, id, page, length).res.Ok?
    ensures var m := MatchRomOf(twin, b, id);
      m.res.Ok?
      && ReadSp(twin, b, id, page, length).bus.log
         == m.bus.log + WriteLog([READ_SCRATCHPAD, page], 2) + [[SET_READ_POINTER, REG_STATUS]] + ReadCmds(Max(length, 1))
            + (if length < 9 then ResetWireLog else [])
  {
  }

  /**
   * A scratchpad write that went through selected the device, sent Write Scratchpad with the
   * page, then `length` bytes of `data` as the class at hand writes them, and reset the wire
   * after a write shorter than the page.
   */
  lemma WriteSpLogged(twin: bool, b: Bus, id: string, page: Byte, data: seq<Byte>, length: nat)
    requires WriteSp(twin, b, id, page, data, length).res.Ok?
    ensures var m := MatchRomOf(twin, b, id);
      m.res.Ok?
      && WriteSp(twin, b, id, page, data, length).bus.log
         == m.bus.log + WriteLog([WRITE_SCRATCHPAD, page], 2) + WriteLog(if twin then Pad(data, Max(length, 1)) else data, length)
            + (if length < 8 then ResetWireLog else [])
  {
  }

  /**
   * `#set_register(register, status)`: read the first byte of page 0 and, when its bit differs,
   * write back that byte with the bit changed. The twin's buffer has no `readUInt8`, a TypeError.
   */
  function SetRegister(twin: bool, b: Bus, id: string, reg: nat, s: bool): (o: Out<()>)
    requires reg < 8
    ensures Later(b, o.bus)
    ensures twin ==> o.res.Err?
  {
    var sp := ReadSp(twin, b, id, 0, 1);
    if sp.res.Err? then Out(Err(sp.res.error), sp.bus)
    else if twin then Out(Err(TypeError), sp.bus)
    else
      var sc := sp.res.value[0];
      if BitGet(sc, reg) == (if s then 1 else 0) then Out(Ok(()), sp.bus)
      else WriteSp(twin, sp.bus, id, 0, [BitSet(sc, reg, s)], 1)
  }

  /**
   * When `#set_register` goes through, the status byte on the device ends up as `BitSet` makes
   * it: when the bit already matched, the byte was right and nothing was written after the read;
   * otherwise the changed byte was written to page 0.
   */
  lemma SetRegisterWrites(twin: bool, b: Bus, id: string, reg: nat, s: bool)
    requires reg < 8 && SetRegister(twin, b, id, reg, s).res.Ok?
    ensures var sp := ReadSp(twin, b, id, 0, 1);
      sp.res.Ok? && !twin
      && var sc := sp.res.value[0];
      (ByteBit(sc, reg) == s ==> BitSet(sc, reg, s) == sc && SetRegister(twin, b, id, reg, s).bus == sp.bus)
      && (ByteBit(sc, reg) != s ==>
            SetRegister(twin, b, id, reg, s).bus == WriteSp(twin, sp.bus, id, 0, [BitSet(sc, reg, s)], 1).bus)
  {
    var sp := ReadSp(twin, b, id, 0, 1);
    var sc := sp.res.value[0];
    if ByteBit(sc, reg) == s {
      BitSetKeeps(sc, reg, s);
    }
  }

  /* ---------------------------------------------------------------------------------------- */
  /* Temperature                                                                               */

  /**
   * `temp_fetch` as written: bytes 1 and 2 of page 0 read as an unsigned number, divided by 256.
   * The result is never negative.
   */
  function TempValueAsWritten(lo: Byte, hi: Byte): (t: real)
    ensures 0.0 <= t < 256.0
  {
    ReadUInt16LE([lo, hi], 0) as real / 256.0
  }

  /**
   * The temperature register holds a signed two's-complement value in 1/256 degree (the
   * DS2438 data sheet, temperature register): read signed, the result is negative exactly when
   * the sign bit of byte 2 is set.
   */
  function TempValue(lo: Byte, hi: Byte): (t: real)
    ensures -128.0 <= t < 128.0
    ensures t < 0.0 <==> hi & 0x80 != 0
  {
    assert At([lo, hi], 1) == hi;
    ReadInt16LE([lo, hi], 0) as real / 256.0
  }

  /**
   * The two readings agree on every temperature above freezing; below it the unsigned reading
   * is 256 degrees too high.
   */
  lemma TempValuesAgree(lo: Byte, hi: Byte)
    ensures hi & 0x80 == 0 ==> TempValueAsWritten(lo, hi) == TempValue(lo, hi)
    ensures hi & 0x80 != 0 ==> TempValueAsWritten(lo, hi) == TempValue(lo, hi) + 256.0
  {
    assert At([lo, hi], 1) == hi;
  }

  /** -10 degrees (register 0xF600) reads as 246 degrees as written. */
  lemma MinusTenAsWritten()
    ensures TempValueAsWritten(0x00, 0xF6) == 246.0
    ensures TempValue(0x00, 0xF6) == -10.0
  {
  }

  /**
   * `temp_fetch`, its temperature bytes read unsigned as written (`signed` false) or signed as
   * the register holds them (`signed` true): page 0 read in full, then bytes 1 and 2. The twin
   * fails at the checksum call of the full read.
   */
  function TempFetchOf(twin: bool, b: Bus, id: string, signed: bool): (o: Out<real>)
    ensures Later(b, o.bus)
    ensures twin ==> o.res.Err?
    ensures o.res.Ok? ==> var sp := ReadSp(twin, b, id, 0, 9);
      sp.res.Ok? && o.bus == sp.bus
      && o.res.value == if signed then TempValue(sp.res.value[1], sp.res.value[2]) else TempValueAsWritten(sp.res.value[1], sp.res.value[2])
  {
    var sp := ReadSp(twin, b, id, 0, 9);
    if sp.res.Err? then Out(Err(sp.res.error), sp.bus)
    else if signed then Out(Ok(TempValue(sp.res.value[1], sp.res.value[2])), sp.bus)
    else Out(Ok(TempValueAsWritten(sp.res.value[1], sp.res.value[2])), sp.bus)
  }

  /** `temp_fetch` as written: never negative, 256 degrees high below freezing. */
  function TempFetch(twin: bool, b: Bus, id: string): (o: Out<real>)
    ensures Later(b, o.bus)
    ensures twin ==> o.res.Err?
    ensures o.res.Ok? ==> 0.0 <= o.res.value < 256.0
  {
    TempFetchOf(twin, b, id, false)
  }

  /** `temp_fetch` reading the register signed. */
  function TempFetchIntended(twin: bool, b: Bus, id: string): (o: Out<real>)
    ensures Later(b, o.bus)
    ensures twin ==> o.res.Err?
    ensures o.res.Ok? ==> -128.0 <= o.res.value < 128.0
  {
    TempFetchOf(twin, b, id, true)
  }

  /** `temp_read`: select, Convert T, wait, then `temp_fetch` read unsigned or signed. */
  function TempReadOf(twin: bool, b: Bus, id: string, signed: bool): (o: Out<real>)
    ensures Later(b, o.bus)
    ensures twin ==> o.res.Err?
  {
    var m := MatchRomOf(twin, b, id);
    if m.res.Err? then Out(Err(m.res.error), m.bus)
    else
      var w := WriteAll(m.bus, [CONVERT_TEMP]);
      if w.res.Err? then Out(Err(w.res.error), w.bus) else TempFetchOf(twin, w.bus, id, signed)
  }

  /** `temp_read` as written. */
  function TempRead(twin: bool, b: Bus, id: string): (o: Out<real>)
    ensures Later(b, o.bus)
    ensures twin ==> o.res.Err?
    ensures o.res.Ok? ==> 0.0 <= o.res.value < 256.0
  {
    TempReadOf(twin, b, id, false)
  }

  /** `temp_read` reading the register signed. */
  function TempReadIntended(twin: bool, b: Bus, id: string): (o: Out<real>)
    ensures Later(b, o.bus)
    ensures twin ==> o.res.Err?
    ensures o.res.Ok? ==> -128.0 <= o.res.value < 128.0
  {
    TempReadOf(twin, b, id, true)
  }

  /**
   * The two temperature reads do the same transactions and agree on every temperature not below
   * freezing; below it the one as written reads 256 degrees too high.
   */
  lemma TempReadsAgree(twin: bool, b: Bus, id: string)
    ensures TempRead(twin, b, id).bus == TempReadIntended(twin, b, id).bus
    ensures TempRead(twin, b, id).res.Ok? <==> TempReadIntended(twin, b, id).res.Ok?
    ensures TempRead(twin, b, id).res.Ok? ==>
      var t, u := TempRead(twin, b, id).res.value, TempReadIntended(twin, b, id).res.value;
      (u >= 0.0 ==> t == u) && (u < 0.0 ==> t == u + 256.0)
  {
    var m := MatchRomOf(twin, b, id);
    if m.res.Ok? {
      var w := WriteAll(m.bus, [CONVERT_TEMP]);
      if w.res.Ok? {
        var sp := ReadSp(twin, w.bus, id, 0, 9);
        if sp.res.Ok? {
          TempValuesAgree(sp.res.value[1], sp.res.value[2]);
        }
      }
    }
  }

  /* ---------------------------------------------------------------------------------------- */
  /* Voltage and current                                                                       */

  /** The voltage register (bytes 3 and 4 of page 0) in volts: 10 mV per count. */
  function VoltsOf(sp: seq<Byte>): (v: real)
    requires |sp| == 9
    ensures 0.0 <= v <= 655.35
  {
    0.01 * ReadUInt16LE(sp, 3) as real
  }

  /**
   * `#volts(source)`: the AD bit set to the source (VDD when set, VAD when clear), select,
   * Convert V, wait, then page 0 read in full and its voltage register.
   */
  function Volts(twin: bool, b: Bus, id: string, source: bool): (o: Out<real>)
    ensures Later(b, o.bus)
    ensures twin ==> o.res.Err?
    ensures o.res.Ok? ==> 0.0 <= o.res.value <= 655.35
  {
    var c := SetRegister(twin, b, id, AD, source);
    if c.res.Err? then Out(Err(c.res.error), c.bus)
    else
      var m := MatchRomOf(twin, c.bus, id);
      if m.res.Err? then Out(Err(m.res.error), m.bus)
      else
        var w := WriteAll(m.bus, [CONVERT_VOLT]);
        if w.res.Err? then Out(Err(w.res.error), w.bus)
        else
          var sp := ReadSp(twin, w.bus, id, 0, 9);
          if sp.res.Err? then Out(Err(sp.res.error), sp.bus) else Out(Ok(VoltsOf(sp.res.value)), sp.bus)
  }

  /**
   * A voltage reading that went through first set the AD bit to the source asked for (written
   * back only when it differed), then sent Convert V, and is the voltage register of the page
   * read after the conversion.
   */
  lemma VoltsReads(twin: bool, b: Bus, id: string, source: bool)
    requires Volts(twin, b, id, source).res.Ok?
    ensures var st := ReadSp(twin, b, id, 0, 1);
      var c := SetRegister(twin, b, id, AD, source);
      st.res.Ok? && c.res.Ok?
      && var sc := st.res.value[0];
      ByteBit(BitSet(sc, AD, source), AD) == source
      && (ByteBit(sc, AD) == source ==> c.bus == st.bus)
      && (ByteBit(sc, AD) != source ==> c.bus == WriteSp(twin, st.bus, id, 0, [BitSet(sc, AD, source)], 1).bus)
    ensures var c := SetRegister(twin, b, id, AD, source);
      var m := MatchRomOf(twin, c.bus, id);
      m.res.Ok?
      && var w := WriteAll(m.bus, [CONVERT_VOLT]);
      w.res.Ok? && w.bus.log == m.bus.log + WriteLog([CONVERT_VOLT], 1)
      && var sp := ReadSp(twin, w.bus, id, 0, 9);
      sp.res.Ok? && Volts(twin, b, id, source) == Out(Ok(VoltsOf(sp.res.value)), sp.bus)
  {
    SetRegisterWrites(twin, b, id, AD, source);
  }

  /** The current register (bytes 5 and 6 of page 0) read unsigned, in units of 0.2441 mV. */
  function SenseOf(sp: seq<Byte>): (v: real)
    requires |sp| == 9
    ensures 0.0 <= v <= 0.2441 * 65535.0
  {
    0.2441 * ReadUInt16LE(sp, 5) as real
  }

  /** `vsense` (`#current`): the IAD bit set, wait, then page 0 read in full and its current register. */
  function Sense(twin: bool, b: Bus, id: string): (o: Out<real>)
    ensures Later(b, o.bus)
    ensures twin ==> o.res.Err?
    ensures o.res.Ok? ==> 0.0 <= o.res.value <= 0.2441 * 65535.0
  {
    var c := SetRegister(twin, b, id, IAD, true);
    if c.res.Err? then Out(Err(c.res.error), c.bus)
    else
      var sp := ReadSp(twin, c.bus, id, 0, 9);
      if sp.res.Err? then Out(Err(sp.res.error), sp.bus) else Out(Ok(SenseOf(sp.res.value)), sp.bus)
  }

  /**
   * A current reading that went through first set the IAD bit (written back only when it was
   * clear), and is the current register of the page read after it.
   */
  lemma SenseReads(twin: bool, b: Bus, id: string)
    requires Sense(twin, b, id).res.Ok?
    ensures var st := ReadSp(twin, b, id, 0, 1);
      var c := SetRegister(twin, b, id, IAD, true);
      st.res.Ok? && c.res.Ok?
      && var sc := st.res.value[0];
      ByteBit(BitSet(sc, IAD, true), IAD)
      && (ByteBit(sc, IAD) ==> c.bus == st.bus)
      && (!ByteBit(sc, IAD) ==> c.bus == WriteSp(twin, st.bus, id, 0, [BitSet(sc, IAD, true)], 1).bus)
    ensures var c := SetRegister(twin, b, id, IAD, true);
      var sp := ReadSp(twin, c.bus, id, 0, 9);
      sp.res.Ok? && Sense(twin, b, id) == Out(Ok(SenseOf(sp.res.value)), sp.bus)
  {
    SetRegisterWrites(twin, b, id, IAD, true);
  }

  /* ---------------------------------------------------------------------------------------- */
  /* Humidity and illuminance                                                                  */

  /** The humidity sensor on the VAD input. */
  datatype Sensor = Hih3600 | Hih4000

  /**
   * The temperature compensation `1.0546 - 0.00216 * t`: positive below 488 degrees, which
   * covers every temperature `temp_read` gives, read unsigned (below 256) or signed, so the
   * division by it is always defined.
   */
  function Compensation(t: real): (c: real)
    requires t < 488.0
    ensures c > 0.0
  {
    1.0546 - 0.00216 * t
  }

  /**
   * `humidity_3600` / `humidity_4000` from their three readings: -1 when the temperature or VAD is
   * 0 or VDD is below 10 mV; otherwise the ratio VAD/VDD less the sensor's zero offset (0.8 V
   * over VDD for the HIH-3600, 0.16 for the HIH-4000), over the slope 0.0062, temperature
   * compensated.
   */
  function HumidityOf(kind: Sensor, t: real, vad: real, vdd: real): (h: real)
    requires t < 488.0
    ensures t == 0.0 || vad == 0.0 || vdd < 0.01 ==> h == -1.0
  {
    if t == 0.0 || vad == 0.0 || vdd == 0.0 || vdd < 0.01 then -1.0
    else
      var offset := if kind == Hih3600 then 0.8 / vdd else 0.16;
      ((vad / vdd) - offset) / 0.0062 / Compensation(t)
  }

  /** The sensors' zero points: 0.8 V on VAD for the HIH-3600, 16% of VDD for the HIH-4000. */
  lemma HumidityZero(t: real, vdd: real)
    requires t < 488.0 && t != 0.0 && vdd >= 0.01
    ensures HumidityOf(Hih3600, t, 0.8, vdd) == 0.0
    ensures HumidityOf(Hih4000, t, 0.16 * vdd, vdd) == 0.0
  {
    assert (0.16 * vdd) / vdd == 0.16;
  }

  /** At a given temperature and supply, a higher VAD reads as a higher humidity. */
  lemma HumidityIncreasing(kind: Sensor, t: real, vad1: real, vad2: real, vdd: real)
    requires t < 488.0 && t != 0.0 && vdd >= 0.01 && 0.0 < vad1 < vad2
    ensures HumidityOf(kind, t, vad1, vdd) < HumidityOf(kind, t, vad2, vdd)
  {
    var c := Compensation(t);
    var offset := if kind == Hih3600 then 0.8 / vdd else 0.16;
    assert vad1 / vdd < vad2 / vdd by {
      assert vad2 / vdd - vad1 / vdd == (vad2 - vad1) / vdd;
    }
    var d1, d2 := (vad1 / vdd - offset) / 0.0062, (vad2 / vdd - offset) / 0.0062;
    assert d1 < d2;
    assert d1 / c < d2 / c by {
      assert d2 / c - d1 / c == (d2 - d1) / c;
    }
  }

  /**
   * `humidity_3600` / `humidity_4000`: `temp_read`, `vad`, `vdd` in that order, then the formula.
   */
  function Humidity(twin: bool, b: Bus, id: string, kind: Sensor): (o: Out<real>)
    ensures Later(b, o.bus)
    ensures twin ==> o.res.Err?
    ensures o.res.Ok? ==> exists t: real, vad: real, vdd: real ::
      0.0 <= t < 256.0 && 0.0 <= vad <= 655.35 && 0.0 <= vdd <= 655.35
      && o.res.value == HumidityOf(kind, t, vad, vdd)
  {
    var t := TempRead(twin, b, id);
    if t.res.Err? then Out(Err(t.res.error), t.bus)
    else
      var a := Volts(twin, t.bus, id, false);
      if a.res.Err? then Out(Err(a.res.error), a.bus)
      else
        var d := Volts(twin, a.bus, id, true);
        if d.res.Err? then Out(Err(d.res.error), d.bus)
        else Out(Ok(HumidityOf(kind, t.res.value, a.res.value, d.res.value)), d.bus)
  }

  /**
   * `illuminance_5711` from the current reading: `10 ^ ((vsense / 47) * 1000)`, where `^` is
   * JavaScript's bitwise exclusive or of the two operands truncated to 32-bit integers.
   */
  function IlluminanceOf(vsense: real): (e: int)
    requires 0.0 <= vsense <= 0.2441 * 65535.0
    ensures 0 <= e < 0x1_0000_0000
  {
    var x := vsense / 47.0 * 1000.0;
    assert x <= 0.2441 * 65535.0 / 47.0 * 1000.0;
    var n := x.Floor;
    ((10 as bv32) ^ (n as bv32)) as int
  }

  /** As written, a dark sensor reads 10 and a reading of one unit reads 11. */
  lemma IlluminanceXor()
    ensures IlluminanceOf(0.0) == 10
    ensures IlluminanceOf(0.047) == 11
  {
  }

  /** `illuminance_5711`: `vsense`, then the exclusive or. */
  function Illuminance(twin: bool, b: Bus, id: string): (o: Out<int>)
    ensures Later(b, o.bus)
    ensures twin ==> o.res.Err?
    ensures var v := Sense(twin, b, id);
      o.bus == v.bus && (o.res.Ok? <==> v.res.Ok?) && (v.res.Ok? ==> o.res.value == IlluminanceOf(v.res.value))
  {
    var v := Sense(twin, b, id);
    if v.res.Err? then Out(Err(v.res.error), v.bus) else Out(Ok(IlluminanceOf(v.res.value)), v.bus)
  }

  /* ---------------------------------------------------------------------------------------- */
  /* The path table                                                                            */

  /** The handlers of `paths`; all of them read. */
  datatype Op = HumidityOp(kind: Sensor) | TemperatureOp | LatestTempOp | VadOp | VddOp | IlluminanceOp

  /** The key a handler is stored under with its sensor spelt out. */
  function Key(op: Op): string
  {
    match op
    case HumidityOp(Hih3600) => "hih3600/humidity"
    case HumidityOp(Hih4000) => "hih4000/humidity"
    case TemperatureOp => "temperature"
    case LatestTempOp => "latesttemp"
    case VadOp => "vad"
    case VddOp => "vdd"
    case IlluminanceOp => "sfh5711/illuminance"
  }

  /** The keys of `paths`, in the order of the table; the bare `humidity` stands for the HIH-3600. */
  function Keys(): seq<string>
  {
    ["humidity", "temperature", "latesttemp", "vad", "vdd", "hih4000/humidity", "hih3600/humidity",
     "sfh5711/illuminance"]
  }

  /** `paths[key][0]`: the handler stored under a key, if any. */
  function Route(key: string): Option<Op>
  {
    if key == "humidity" || key == "hih3600/humidity" then Some(HumidityOp(Hih3600))
    else if key == "hih4000/humidity" then Some(HumidityOp(Hih4000))
    else if key == "temperature" then Some(TemperatureOp)
    else if key == "latesttemp" then Some(LatestTempOp)
    else if key == "vad" then Some(VadOp)
    else if key == "vdd" then Some(VddOp)
    else if key == "sfh5711/illuminance" then Some(IlluminanceOp)
    else None
  }

  /** Every handler is found under its own key. */
  lemma RouteKey(op: Op)
    ensures Route(Key(op)) == Some(op)
  {
  }

  /**
   * A key finds a handler exactly when it is one of the eight keys of the table, and then it is
   * that handler's key or the bare `humidity`.
   */
  lemma RouteKeys(key: string)
    ensures Route(key).Some? <==> key in Keys()
    ensures Route(key).Some? ==> key == Key(Route(key).value) || key == "humidity"
  {
    if Route(key).Some? {
      assert key in Keys() by {
        if key == "humidity" { assert key == Keys()[0]; }
        else if key == "hih3600/humidity" { assert key == Keys()[6]; }
        else if key == "hih4000/humidity" { assert key == Keys()[5]; }
        else if key == "temperature" { assert key == Keys()[1]; }
        else if key == "latesttemp" { assert key == Keys()[2]; }
        else if key == "vad" { assert key == Keys()[3]; }
        else if key == "vdd" { assert key == Keys()[4]; }
        else { assert key == Keys()[7]; }
      }
    }
  }

  /** `paths[key][0](bridge, id)`. */
  function Read(twin: bool, b: Bus, id: string, op: Op): (o: Out<Value>)
    ensures Later(b, o.bus)
    ensures twin ==> o.res.Err?
    ensures o.res.Ok? ==> o.res.value.Number?
  {
    match op
    case HumidityOp(kind) => MapReal(Humidity(twin, b, id, kind))
    case TemperatureOp => MapReal(TempRead(twin, b, id))
    case LatestTempOp => MapReal(TempFetch(twin, b, id))
    case VadOp => MapReal(Volts(twin, b, id, false))
    case VddOp => MapReal(Volts(twin, b, id, true))
    case IlluminanceOp =>
      var o := Illuminance(twin, b, id);
      if o.res.Err? then Out(Err(o.res.error), o.bus) else Out(Ok(Number(o.res.value as real)), o.bus)
  }

  /** A reading handed on as a number. */
  function MapReal(o: Out<real>): (v: Out<Value>)
    ensures v.bus == o.bus && (v.res.Ok? <==> o.res.Ok?)
    ensures o.res.Ok? ==> v.res == Ok(Number(o.res.value))
    ensures o.res.Err? ==> v.res == Err(o.res.error)
  {
    if o.res.Err? then Out(Err(o.res.error), o.bus) else Out(Ok(Number(o.res.value)), o.bus)
  }

  /* ---------------------------------------------------------------------------------------- */
  /* Methods on the bridge                                                                    */

  /** `#read_sp(page, length)`. */
  method ReadSpOn(br: Bridge, id: string, page: Byte, length: nat) returns (r: Result<seq<Byte>>)
    modifies br.i2c
    ensures Out(r, br.i2c.State()) == ReadSp(br.twin, old(br.i2c.State()), id, page, length)
  {
    ghost var b0 := br.i2c.State();
    var m := br.MatchRom(id);
    ghost var b1 := br.i2c.State();
    assert Out(m, b1) == MatchRomOf(br.twin, b0, id);
    if m.Err? {
      return Err(m.error);
    }
    WriteAllOf(br.twin, b1, [READ_SCRATCHPAD, page]);
    var w := br.WriteData([READ_SCRATCHPAD, page], 2);
    ghost var b2 := br.i2c.State();
    assert Out(w, b2) == WriteAll(b1, [READ_SCRATCHPAD, page]);
    if w.Err? {
      return Err(w.error);
    }
    assert ReadSp(br.twin, b0, id, page, length) == ReadSpAfter(br.twin, b2, length);
    r := br.ReadData(length);
    ghost var b3 := br.i2c.State();
    assert Out(r, b3) == ReadDataOf(br.twin, b2, length);
    if r.Err? {
      return;
    }
    if length < 9 {
      var z := br.ResetWire();
      assert Out(z, br.i2c.State()) == ResetWire(b3);
      if z.Err? {
        return Err(z.error);
      }
      return;
    }
    if br.twin {
      return Err(TypeError);
    }
    var crc := CheckCrc(r.value, None);
  }

  /** `#write_sp(page, data, length)`. */
  method WriteSpOn(br: Bridge, id: string, page: Byte, data: seq<Byte>, length: nat) returns (r: Result<()>)
    modifies br.i2c
    ensures Out(r, br.i2c.State()) == WriteSp(br.twin, old(br.i2c.State()), id, page, data, length)
  {
    var m := br.MatchRom(id);
    if m.Err? {
      return Err(m.error);
    }
    WriteAllOf(br.twin, br.i2c.State(), [WRITE_SCRATCHPAD, page]);
    var w := br.WriteData([WRITE_SCRATCHPAD, page], 2);
    if w.Err? {
      return Err(w.error);
    }
    var d := br.WriteData(data, length);
    if d.Err? {
      return Err(d.error);
    }
    if length < 8 {
      var z := br.ResetWire();
      if z.Err? {
        return Err(z.error);
      }
    }
    r := Ok(());
  }

  /** `#set_register(register, status)`. */
  method SetRegisterOn(br: Bridge, id: string, reg: nat, s: bool) returns (r: Result<()>)
    requires reg < 8
    modifies br.i2c
    ensures Out(r, br.i2c.State()) == SetRegister(br.twin, old(br.i2c.State()), id, reg, s)
  {
    var sp := ReadSpOn(br, id, 0, 1);
    if sp.Err? {
      return Err(sp.error);
    }
    if br.twin {
      return Err(TypeError);
    }
    var sc := sp.value[0];
    if BitGet(sc, reg) == (if s then 1 else 0) {
      return Ok(());
    }
    r := WriteSpOn(br, id, 0, [BitSet(sc, reg, s)], 1);
  }

  /** `temp_fetch`. */
  method TempFetchOn(br: Bridge, id: string) returns (r: Result<real>)
    modifies br.i2c
    ensures Out(r, br.i2c.State()) == TempFetch(br.twin, old(br.i2c.State()), id)
  {
    var sp := ReadSpOn(br, id, 0, 9);
    if sp.Err? {
      return Err(sp.error);
    }
    r := Ok(TempValueAsWritten(sp.value[1], sp.value[2]));
  }

  /** `temp_read`. */
  method TempReadOn(br: Bridge, id: string) returns (r: Result<real>)
    modifies br.i2c
    ensures Out(r, br.i2c.State()) == TempRead(br.twin, old(br.i2c.State()), id)
  {
    var m := br.MatchRom(id);
    if m.Err? {
      return Err(m.error);
    }
    WriteAllOf(br.twin, br.i2c.State(), [CONVERT_TEMP]);
    var w := br.WriteData([CONVERT_TEMP], 1);
    if w.Err? {
      return Err(w.error);
    }
    r := TempFetchOn(br, id);
  }

  /** `#volts(source)`. */
  method VoltsOn(br: Bridge, id: string, source: bool) returns (r: Result<real>)
    modifies br.i2c
    ensures Out(r, br.i2c.State()) == Volts(br.twin, old(br.i2c.State()), id, source)
  {
    var c := SetRegisterOn(br, id, AD, source);
    if c.Err? {
      return Err(c.error);
    }
    var m := br.MatchRom(id);
    if m.Err? {
      return Err(m.error);
    }
    WriteAllOf(br.twin, br.i2c.State(), [CONVERT_VOLT]);
    var w := br.WriteData([CONVERT_VOLT], 1);
    if w.Err? {
      return Err(w.error);
    }
    var sp := ReadSpOn(br, id, 0, 9);
    if sp.Err? {
      return Err(sp.error);
    }
    r := Ok(VoltsOf(sp.value));
  }

  /** `vsense` (`#current`). */
  method SenseOn(br: Bridge, id: string) returns (r: Result<real>)
    modifies br.i2c
    ensures Out(r, br.i2c.State()) == Sense(br.twin, old(br.i2c.State()), id)
  {
    var c := SetRegisterOn(br, id, IAD, true);
    if c.Err? {
      return Err(c.error);
    }
    var sp := ReadSpOn(br, id, 0, 9);
    if sp.Err? {
      return Err(sp.error);
    }
    r := Ok(SenseOf(sp.value));
  }

  /** `humidity_3600` / `humidity_4000`. */
  method HumidityOn(br: Bridge, id: string, kind: Sensor) returns (r: Result<real>)
    modifies br.i2c
    ensures Out(r, br.i2c.State()) == Humidity(br.twin, old(br.i2c.State()), id, kind)
  {
    var t := TempReadOn(br, id);
    if t.Err? {
      return Err(t.error);
    }
    var vad := VoltsOn(br, id, false);
    if vad.Err? {
      return Err(vad.error);
    }
    var vdd := VoltsOn(br, id, true);
    if vdd.Err? {
      return Err(vdd.error);
    }
    r := Ok(HumidityOf(kind, t.value, vad.value, vdd.value));
  }

  /** `paths[key][0](bridge, id)`. */
  method ReadOn(br: Bridge, id: string, op: Op) returns (r: Result<Value>)
    modifies br.i2c
    ensures Out(r, br.i2c.State()) == Read(br.twin, old(br.i2c.State()), id, op)
  {
    var x: Result<real>;
    match op {
      case HumidityOp(kind) => x := HumidityOn(br, id, kind);
      case TemperatureOp => x := TempReadOn(br, id);
      case LatestTempOp => x := TempFetchOn(br, id);
      case VadOp => x := VoltsOn(br, id, false);
      case VddOp => x := VoltsOn(br, id, true);
      case IlluminanceOp =>
        var v := SenseOn(br, id);
        x := if v.Err? then Err(v.error) else Ok(IlluminanceOf(v.value) as real);
    }
    r := if x.Err? then Err(x.error) else Ok(Number(x.value));
  }
}
