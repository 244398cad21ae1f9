/**
 * The DS18B20 thermometer decoder of devices/ds18b20.js: the resolution table, scratchpad reads
 * and writes, the conversion (polled, or under the strong pull-up in parasite mode), the
 * temperature read from the first two scratchpad bytes, and the table of paths the router
 * offers for it. The methods are proved to do what the function of the same name says.
 */
module Ds18b20Device {
  import opened Bytes
  import opened Results
  import opened Commands
  import opened Crc
  import opened Wire
  import opened Control
  import opened Ds2482

  /* ---------------------------------------------------------------------------------------- */
  /* Commands and the resolution table                                                         */

  const WRITE_SCRATCHPAD: Byte := 0x4E
  const READ_SCRATCHPAD: Byte := 0xBE
  const CONVERT_TEMP: Byte := 0x44

  /** The four resolutions the handlers ask for, in bits. */
  type Precision = p: int | 9 <= p <= 12 witness 12

  /** A row of `#resolution`: configuration byte, conversion time in ms, mask of the low byte, scale. */
  datatype Resolution = Resolution(config: Byte, delay: nat, mask: Byte, scale: real)

  /**
   * The counts of 1/16 degree one step of a `p`-bit reading spans: a 12-bit reading has all four
   * fraction bits, each bit less doubles the step.
   */
  function Grain(p: Precision): (g: nat)
    ensures 1 <= g <= 8 && 256 % g == 0
  {
    match p
    case 9 => 8
    case 10 => 4
    case 11 => 2
    case 12 => 1
  }

  /**
   * `#resolution[precision]`. The configuration register holds the precision in bits 6..5
   * (R1 R0 = precision - 9) with the five low bits set; the mask clears exactly the low bits a
   * lower precision leaves undefined; the scale is 16 counts per degree whatever the precision;
   * the wait covers the data sheet's longest conversion time, 750 ms at 12 bits and half of it
   * for each bit less.
   */
  function ResolutionOf(p: Precision): (r: Resolution)
    ensures r.config as int == 32 * (p - 9) + 0x1F
    ensures r.mask as int + Grain(p) == 256
    ensures r.scale == 16.0
    ensures r.delay * Grain(p) >= 750
  {
    match p
    case 9 => Resolution(0x1F, 110, 0xF8, 16.0)
    case 10 => Resolution(0x3F, 200, 0xFC, 16.0)
    case 11 => Resolution(0x5F, 400, 0xFE, 16.0)
    case 12 => Resolution(0x7F, 1000, 0xFF, 16.0)
  }

  /* ---------------------------------------------------------------------------------------- */
  /* The temperature                                                                           */

  /**
   * What `#temp_fetch` makes of the first two scratchpad bytes: the low byte masked for the
   * precision, the pair read as a signed little-endian number, divided by 16. The result lies in
   * the range of a signed 16-bit count of sixteenths, and is negative exactly when the sign bit
   * of the high byte is set. The scale is 16 in every row of the table.
   */
  function Temperature(lo: Byte, hi: Byte, p: Precision): (t: real)
    ensures -2048.0 <= t < 2048.0
    ensures t < 0.0 <==> hi & 0x80 != 0
  {
    var v := ReadInt16LE([lo & ResolutionOf(p).mask, hi], 0);
    assert At([lo & ResolutionOf(p).mask, hi], 1) == hi;
    v as real / 16.0
  }

  /** The temperature register of the DS18B20 data sheet's examples: +25.0625 and -10.125 degrees. */
  lemma TemperatureExamples()
    ensures Temperature(0x91, 0x01, 12) == 25.0625
    ensures Temperature(0x5E, 0xFF, 12) == -10.125
    ensures Temperature(0x91, 0x01, 9) == 25.0
  {
  }

  /** Masking with fewer fraction bits leaves a multiple of the step. */
  lemma MaskGrains(lo: Byte)
    ensures (lo & 0xF8) as int % 8 == 0
    ensures (lo & 0xFC) as int % 4 == 0
    ensures (lo & 0xFE) as int % 2 == 0
  {
  }

  /**
   * A `p`-bit reading is a whole number of steps of the precision: 16 times the temperature is a
   * whole number, a multiple of `Grain(p)` (so a 9-bit reading is a multiple of half a degree).
   */
  lemma TemperatureGrain(lo: Byte, hi: Byte, p: Precision)
    ensures exists k: int :: Temperature(lo, hi, p) == (k * Grain(p)) as real / 16.0
  {
    var m := (lo & ResolutionOf(p).mask) as int;
    var v := ReadInt16LE([lo & ResolutionOf(p).mask, hi], 0);
    var s := if v < 0 then 0x1_0000 else 0;
    assert v == m + 256 * hi as int - s;
    MaskedGrain(lo, p);
    var k := GrainCount(m, hi as int, s, p);
    assert v == k * Grain(p);
    assert Temperature(lo, hi, p) == (k * Grain(p)) as real / 16.0;
  }

  lemma MaskedGrain(lo: Byte, p: Precision)
    ensures (lo & ResolutionOf(p).mask) as int % Grain(p) == 0
  {
    MaskGrains(lo);
  }

  lemma GrainCount(m: int, h: int, s: int, p: Precision) returns (k: int)
    requires m % Grain(p) == 0 && (s == 0 || s == 0x1_0000)
    ensures m + 256 * h - s == k * Grain(p)
  {
    match p {
      case 9 => k := m / 8 + 32 * h - s / 8;
      case 10 => k := m / 4 + 64 * h - s / 4;
      case 11 => k := m / 2 + 128 * h - s / 2;
      case 12 => k := m + 256 * h - s;
    }
  }

  /* ---------------------------------------------------------------------------------------- */
  /* Scratchpad and conversion                                                                 */

  /**
   * `#read_sp(length)`: select, Read Scratchpad, `length` bytes. A short read ends with a wire
   * reset and no check; a full one is handed to `bridge.checkCRC`, whose answer is ignored. Only
   * the first class has `checkCRC`; on `DS2482_X` the call throws a TypeError.
   */
  function ReadSp(twin: bool, b: Bus, id: string, length: nat): (o: Out<seq<Byte>>)
    ensures Later(b, o.bus)
    ensures o.res.Ok? ==> |o.res.value| == length
    ensures twin && length >= 9 ==> o.res.Err?
  {
    var m := MatchRomOf(twin, b, id);
    if m.res.Err? then Out(Err(m.res.error), m.bus)
    else
      var w := WriteAll(m.bus, [READ_SCRATCHPAD]);
      if w.res.Err? then Out(Err(w.res.error), w.bus)
      else
        var r := ReadDataOf(twin, w.bus, length);
        if r.res.Err? then r
        else if length < 9 then
          var z := ResetWire(r.bus);
          if z.res.Err? then Out(Err(z.res.error), z.bus) else Out(Ok(r.res.value), z.bus)
        else if twin then Out(Err(TypeError), r.bus)
        else r
  }

  /**
   * A short scratchpad read sends the command, reads `length` bytes, and resets the wire, in that
   * order; a zero-length read that went through (only the twin's can) still read one byte.
   */
  lemma ReadSpLogged(twin: bool, b: Bus, id: string, length: nat)
    requires length < 9 && ReadSp(twin, b, id, length).res.Ok?
    ensures var m := MatchRomOf(twin, b, id);
      m.res.Ok?
      && ReadSp(twin, b, id, length).bus.log
         == m.bus.log + WriteLog([READ_SCRATCHPAD], 1) + [[SET_READ_POINTER, REG_STATUS]] + ReadCmds(Max(length, 1)) + ResetWireLog
  {
  }

  /** `#write_sp(Th, Tl, CB)`: select, Write Scratchpad, then the three bytes, always all three. */
  function WriteSp(twin: bool, b: Bus, id: string, th: Byte, tl: Byte, cb: Byte): (o: Out<()>)
    ensures Later(b, o.bus)
  {
    var m := MatchRomOf(twin, b, id);
    if m.res.Err? then Out(Err(m.res.error), m.bus)
    else
      var w := WriteAll(m.bus, [WRITE_SCRATCHPAD]);
      if w.res.Err? then Out(Err(w.res.error), w.bus)
      else
        var d := WriteAll(w.bus, [th, tl, cb]);
        if d.res.Err? then Out(Err(d.res.error), d.bus) else Out(Ok(()), d.bus)
  }

  /** A scratchpad write that went through sent the command, then the alarm bytes and the configuration. */
  lemma WriteSpLogged(twin: bool, b: Bus, id: string, th: Byte, tl: Byte, cb: Byte)
    requires WriteSp(twin, b, id, th, tl, cb).res.Ok?
    ensures var m := MatchRomOf(twin, b, id);
      m.res.Ok?
      && WriteSp(twin, b, id, th, tl, cb).bus.log == m.bus.log + WriteLog([WRITE_SCRATCHPAD], 1) + WriteLog([th, tl, cb], 3)
  {
  }

  /**
   * `#temp_fetch(precision)`: the first two scratchpad bytes as a `p`-bit temperature. The twin
   * hands back a plain byte array without `readInt16LE`, a TypeError.
   */
  function TempFetch(twin: bool, b: Bus, id: string, p: Precision): (o: Out<real>)
    ensures Later(b, o.bus)
    ensures twin ==> o.res.Err?
    ensures o.res.Ok? ==> var r := ReadSp(twin, b, id, 2);
      r.res.Ok? && !twin && o.bus == r.bus && o.res.value == Temperature(r.res.value[0], r.res.value[1], p)
  {
    var r := ReadSp(twin, b, id, 2);
    if r.res.Err? then Out(Err(r.res.error), r.bus)
    else if twin then Out(Err(TypeError), r.bus)
    else Out(Ok(Temperature(r.res.value[0], r.res.value[1], p)), r.bus)
  }

  /**
   * The poll of `#temp_conv`: single bytes read until one is not 0 (the device answers 0 while
   * it converts). The conversion timer's flag is never seen set, since its callback cannot run
   * while the loop holds the thread; the poll ends on a nonzero byte or a failed read.
   */
  function Poll(b: Bus): (o: Out<Byte>)
    ensures Later(b, o.bus)
    ensures o.res.Ok? ==> o.res.value != 0
    decreases |b.replies|
  {
    var r := ReadData(b, 1);
    if r.res.Err? then Out(Err(r.res.error), r.bus)
    else if r.res.value[0] == 0 then Poll(r.bus)
    else Out(Ok(r.res.value[0]), r.bus)
  }

  /**
   * The first step of `#temp_conv(precision, SPU)`: read the scratchpad and, when its
   * configuration byte differs from the precision's, write it back with the precision's
   * configuration and the alarm bytes as read.
   */
  function Configure(twin: bool, b: Bus, id: string, p: Precision): (o: Out<()>)
    ensures Later(b, o.bus)
    ensures twin ==> o.res.Err?
  {
    var sp := ReadSp(twin, b, id, 9);
    if sp.res.Err? then Out(Err(sp.res.error), sp.bus)
    else
      var cfg := ResolutionOf(p).config;
      if sp.res.value[4] != cfg then WriteSp(twin, sp.bus, id, sp.res.value[2], sp.res.value[3], cfg)
      else Out(Ok(()), sp.bus)
  }

  /**
   * When the configuration step went through, either the scratchpad already held the
   * precision's configuration and nothing was written after the read, or the alarm bytes read
   * (Th, Tl) were written back unchanged together with the precision's configuration.
   */
  lemma ConfigureWrites(twin: bool, b: Bus, id: string, p: Precision)
    requires Configure(twin, b, id, p).res.Ok?
    ensures var sp := ReadSp(twin, b, id, 9);
      var c := Configure(twin, b, id, p);
      var cfg := ResolutionOf(p).config;
      sp.res.Ok? && !twin
      && (sp.res.value[4] == cfg ==> c.bus == sp.bus)
      && (sp.res.value[4] != cfg ==> var m := MatchRomOf(twin, sp.bus, id);
            m.res.Ok?
            && c.bus.log == m.bus.log + WriteLog([WRITE_SCRATCHPAD], 1) + WriteLog([sp.res.value[2], sp.res.value[3], cfg], 3))
  {
    var sp := ReadSp(twin, b, id, 9);
    var cfg := ResolutionOf(p).config;
    if sp.res.value[4] != cfg {
      WriteSpLogged(twin, sp.bus, id, sp.res.value[2], sp.res.value[3], cfg);
    }
  }

  /**
   * `#temp_conv(precision, SPU)` with the strong pull-up of parasite mode either as the classes
   * are written (`corrected` false: `StrongPullupAsWritten`) or as the bridge's own method
   * (`corrected` true): the configuration step, then select and Convert T, under the strong
   * pull-up and a fixed wait, or polling until the device reports the end; then the temperature.
   */
  function Conversion(twin: bool, b: Bus, id: string, p: Precision, parasite: bool, corrected: bool): (o: Out<real>)
    ensures Later(b, o.bus)
    ensures twin ==> o.res.Err?
    ensures o.res.Ok? ==> exists lo: Byte, hi: Byte :: o.res.value == Temperature(lo, hi, p)
    ensures o.res.Ok? ==> exists a: Bus :: o == TempFetch(twin, a, id, p)
  {
    var c := Configure(twin, b, id, p);
    if c.res.Err? then Out(Err(c.res.error), c.bus)
    else
      var m := MatchRomOf(twin, c.bus, id);
      if m.res.Err? then Out(Err(m.res.error), m.bus)
      else if parasite then
        var u := if corrected then ConfigureBridge(m.bus, StrongOnly, false) else StrongPullupAsWritten(twin, m.bus);
        if u.res.Err? then Out(Err(u.res.error), u.bus)
        else
          var w := WriteAll(u.bus, [CONVERT_TEMP]);
          if w.res.Err? then Out(Err(w.res.error), w.bus) else TempFetch(twin, w.bus, id, p)
      else
        var w := WriteAll(m.bus, [CONVERT_TEMP]);
        if w.res.Err? then Out(Err(w.res.error), w.bus)
        else
          var q := Poll(w.bus);
          if q.res.Err? then Out(Err(q.res.error), q.bus) else TempFetch(twin, q.bus, id, p)
  }

  /**
   * A conversion that went through ends with `#temp_fetch` on the bus as Convert T left it: after
   * the configuration step and the selection, the command goes out (under the strong pull-up in
   * parasite mode) and, when polled, the poll runs to a nonzero byte before the fetch.
   */
  lemma ConversionFetches(twin: bool, b: Bus, id: string, p: Precision, parasite: bool, corrected: bool)
    requires Conversion(twin, b, id, p, parasite, corrected).res.Ok?
    ensures var c := Configure(twin, b, id, p);
      var m := MatchRomOf(twin, c.bus, id);
      var o := Conversion(twin, b, id, p, parasite, corrected);
      c.res.Ok? && m.res.Ok?
      && (parasite ==>
            var u := if corrected then ConfigureBridge(m.bus, StrongOnly, false) else StrongPullupAsWritten(twin, m.bus);
            var w := WriteAll(u.bus, [CONVERT_TEMP]);
            u.res.Ok? && w.res.Ok? && o == TempFetch(twin, w.bus, id, p))
      && (!parasite ==>
            var w := WriteAll(m.bus, [CONVERT_TEMP]);
            var q := Poll(w.bus);
            w.res.Ok? && q.res.Ok? && q.res.value != 0 && o == TempFetch(twin, q.bus, id, p))
  {
  }

  /**
   * `#temp_conv(precision, SPU)` as written. Only a polled conversion on the first class can
   * succeed: the twin fails at the checksum call of the scratchpad read, and on the first class
   * the call of the shadowed `strongPullup` throws.
   */
  function TempConv(twin: bool, b: Bus, id: string, p: Precision, parasite: bool): (o: Out<real>)
    ensures Later(b, o.bus)
    ensures twin || parasite ==> o.res.Err?
    ensures o.res.Ok? ==> exists lo: Byte, hi: Byte :: o.res.value == Temperature(lo, hi, p)
    ensures o.res.Ok? ==> exists a: Bus :: o == TempFetch(twin, a, id, p)
  {
    Conversion(twin, b, id, p, parasite, false)
  }

  /** `#temp_conv(precision, SPU)` with the strong pull-up switched on by the bridge's own method. */
  function TempConvIntended(twin: bool, b: Bus, id: string, p: Precision, parasite: bool): (o: Out<real>)
    ensures Later(b, o.bus)
    ensures twin ==> o.res.Err?
    ensures o.res.Ok? ==> exists lo: Byte, hi: Byte :: o.res.value == Temperature(lo, hi, p)
    ensures o.res.Ok? ==> exists a: Bus :: o == TempFetch(twin, a, id, p)
  {
    Conversion(twin, b, id, p, parasite, true)
  }

  /**
   * The two conversions agree on every polled conversion; in parasite mode on the first class,
   * once the configuration step and the selection went through, the one as written throws a
   * TypeError with no further transaction, where the intended one writes the configuration with
   * the strong pull-up on.
   */
  lemma TempConvsAgree(twin: bool, b: Bus, id: string, p: Precision, parasite: bool)
    ensures !parasite ==> TempConv(twin, b, id, p, parasite) == TempConvIntended(twin, b, id, p, parasite)
    ensures parasite && !twin ==> var c := Configure(twin, b, id, p);
      var m := MatchRomOf(twin, c.bus, id);
      c.res.Ok? && m.res.Ok? ==> TempConv(twin, b, id, p, parasite) == Out(Err(TypeError), m.bus)
  {
  }

  /**
   * Every temperature a `p`-bit conversion gives, as written or intended, is a whole number of
   * steps of that precision: sixteen times it is a multiple of `Grain(p)`.
   */
  lemma TempConvGrain(twin: bool, b: Bus, id: string, p: Precision, parasite: bool, corrected: bool)
    requires Conversion(twin, b, id, p, parasite, corrected).res.Ok?
    ensures exists k: int :: Conversion(twin, b, id, p, parasite, corrected).res.value == (k * Grain(p)) as real / 16.0
  {
    var lo: Byte, hi: Byte :| Conversion(twin, b, id, p, parasite, corrected).res.value == Temperature(lo, hi, p);
    TemperatureGrain(lo, hi, p);
  }

  /* ---------------------------------------------------------------------------------------- */
  /* The path table                                                                            */

  /** A handler of `paths`: a conversion at a precision, with or without parasite power. */
  datatype Op = Temp(p: Precision, parasite: bool)

  /** The decimal digits of a precision. */
  function Digits(p: Precision): (ds: string)
    ensures |ds| == 1 <==> p == 9
  {
    match p
    case 9 => "9"
    case 10 => "10"
    case 11 => "11"
    case 12 => "12"
  }

  /** The key a handler is stored under with its precision spelt out. */
  function Key(op: Op): string
  {
    (if op.parasite then "parasite/" else "") + "temperature" + Digits(op.p)
  }

  /** The keys of `paths`, in the order of the table: the two bare keys stand for 10 bits. */
  function Keys(): seq<string>
  {
    ["temperature", "temperature9", "temperature10", "temperature11", "temperature12",
     "parasite/temperature", "parasite/temperature9", "parasite/temperature10",
     "parasite/temperature11", "parasite/temperature12"]
  }

  /** The precision a key's digits name. */
  function PrecisionOf(ds: string): Option<Precision>
  {
    if ds == "" then Some(10)
    else if ds == "9" then Some(9)
    else if ds == "10" then Some(10)
    else if ds == "11" then Some(11)
    else if ds == "12" then Some(12)
    else None
  }

  /** `paths[key][0]`: the handler stored under a key, if any. */
  function Route(key: string): (r: Option<Op>)
  {
    if |key| >= 20 && key[..20] == "parasite/temperature" then
      var p := PrecisionOf(key[20..]);
      if p.Some? then Some(Temp(p.value, true)) else None
    else if |key| >= 11 && key[..11] == "temperature" then
      var p := PrecisionOf(key[11..]);
      if p.Some? then Some(Temp(p.value, false)) else None
    else None
  }

  /** Every handler is found under the key that spells out its precision. */
  lemma RouteKey(op: Op)
    ensures Route(Key(op)) == Some(op)
  {
    var k := Key(op);
    if op.parasite {
      assert k[..20] == "parasite/temperature" && k[20..] == Digits(op.p);
    } else {
      assert k[..11] == "temperature" && k[11..] == Digits(op.p);
    }
  }

  /** A key that finds a handler is one of the ten keys of the table. */
  lemma RouteInKeys(key: string)
    requires Route(key).Some?
    ensures key in Keys()
  {
    if |key| >= 20 && key[..20] == "parasite/temperature" {
      var t := key[20..];
      assert key == "parasite/temperature" + t;
      if t == "" { assert key == Keys()[5]; }
      else if t == "9" { assert key == Keys()[6]; }
      else if t == "10" { assert key == Keys()[7]; }
      else if t == "11" { assert key == Keys()[8]; }
      else { assert key == Keys()[9]; }
    } else {
      var t := key[11..];
      assert key == "temperature" + t;
      if t == "" { assert key == Keys()[0]; }
      else if t == "9" { assert key == Keys()[1]; }
      else if t == "10" { assert key == Keys()[2]; }
      else if t == "11" { assert key == Keys()[3]; }
      else { assert key == Keys()[4]; }
    }
  }

  /** Each of the ten keys finds a handler; the bare keys find the 10-bit conversions. */
  lemma KeysRoute(i: nat)
    requires i < |Keys()|
    ensures Route(Keys()[i]).Some?
    ensures Route(Keys()[i]) == Some(Temp(if i % 5 == 0 then 10 else i % 5 + 8, i >= 5))
  {
    var key := Keys()[i];
    if i < 5 {
      assert key[..11] == "temperature";
      assert |key| < 20;
    } else {
      assert key[..20] == "parasite/temperature";
    }
  }

  /** `paths[key][0](bridge, id)`: every handler runs the conversion; none writes. */
  function Read(twin: bool, b: Bus, id: string, op: Op): (o: Out<Value>)
    ensures Later(b, o.bus)
    ensures o.res.Ok? ==> o.res.value.Number?
  {
    var t := TempConv(twin, b, id, op.p, op.parasite);
    if t.res.Err? then Out(Err(t.res.error), t.bus) else Out(Ok(Number(t.res.value)), t.bus)
  }

  /* ---------------------------------------------------------------------------------------- */
  /* Methods on the bridge                                                                    */

  /** `#read_sp(length)`. */
  method ReadSpOn(br: Bridge, id: string, length: nat) returns (r: Result<seq<Byte>>)
    modifies br.i2c
    ensures Out(r, br.i2c.State()) == ReadSp(br.twin, old(br.i2c.State()), id, length)
  {
    ghost var b0 := br.i2c.State();
    var m := br.MatchRom(id);
    ghost var b1 := br.i2c.State();
    assert Out(m, b1) == MatchRomOf(br.twin, b0, id);
    if m.Err? {
      return Err(m.error);
    }
    WriteAllOf(br.twin, b1, [READ_SCRATCHPAD]);
    var w := br.WriteData([READ_SCRATCHPAD], 1);
    ghost var b2 := br.i2c.State();
    assert Out(w, b2) == WriteAll(b1, [READ_SCRATCHPAD]);
    if w.Err? {
      return Err(w.error);
    }
    r := br.ReadData(length);
    assert Out(r, br.i2c.State()) == ReadDataOf(br.twin, b2, length);
    if r.Err? {
      return;
    }
    if length < 9 {
      var z := br.ResetWire();
      if z.Err? {
        return Err(z.error);
      }
      return;
    }
    if br.twin {
      return Err(TypeError);
    }
    var crc := CheckCrc(r.value, None);
  }

  /** `#write_sp(Th, Tl, CB)`. */
  method WriteSpOn(br: Bridge, id: string, th: Byte, tl: Byte, cb: Byte) returns (r: Result<()>)
    modifies br.i2c
    ensures Out(r, br.i2c.State()) == WriteSp(br.twin, old(br.i2c.State()), id, th, tl, cb)
  {
    var m := br.MatchRom(id);
    if m.Err? {
      return Err(m.error);
    }
    WriteAllOf(br.twin, br.i2c.State(), [WRITE_SCRATCHPAD]);
    var w := br.WriteData([WRITE_SCRATCHPAD], 1);
    if w.Err? {
      return Err(w.error);
    }
    WriteAllOf(br.twin, br.i2c.State(), [th, tl, cb]);
    var d := br.WriteData([th, tl, cb], 3);
    if d.Err? {
      return Err(d.error);
    }
    r := Ok(());
  }

  /** `#temp_fetch(precision)`. */
  method TempFetchOn(br: Bridge, id: string, p: Precision) returns (r: Result<real>)
    modifies br.i2c
    ensures Out(r, br.i2c.State()) == TempFetch(br.twin, old(br.i2c.State()), id, p)
  {
    var sp := ReadSpOn(br, id, 2);
    if sp.Err? {
      return Err(sp.error);
    }
    if br.twin {
      return Err(TypeError);
    }
    r := Ok(Temperature(sp.value[0], sp.value[1], p));
  }

  /** The poll of `#temp_conv`: read single bytes while they are 0. */
  method PollOn(br: Bridge) returns (r: Result<Byte>)
    modifies br.i2c
    ensures Out(r, br.i2c.State()) == Poll(old(br.i2c.State()))
  {
    while true
      invariant Poll(br.i2c.State()) == Poll(old(br.i2c.State()))
      decreases |br.i2c.replies|
    {
      var rb := br.ReadData(1);
      if rb.Err? {
        return Err(rb.error);
      }
      if rb.value[0] != 0 {
        return Ok(rb.value[0]);
      }
    }
  }

  /** The configuration step of `#temp_conv`. */
  method ConfigureOn(br: Bridge, id: string, p: Precision) returns (r: Result<()>)
    modifies br.i2c
    ensures Out(r, br.i2c.State()) == Configure(br.twin, old(br.i2c.State()), id, p)
  {
    var sp := ReadSpOn(br, id, 9);
    if sp.Err? {
      return Err(sp.error);
    }
    var cfg := ResolutionOf(p).config;
    if sp.value[4] != cfg {
      r := WriteSpOn(br, id, sp.value[2], sp.value[3], cfg);
      return;
    }
    r := Ok(());
  }

  /** `#temp_conv(precision, SPU)`, calling `bridge.strongPullup()` in parasite mode as written. */
  method TempConvOn(br: Bridge, id: string, p: Precision, parasite: bool) returns (r: Result<real>)
    modifies br.i2c
    ensures Out(r, br.i2c.State()) == TempConv(br.twin, old(br.i2c.State()), id, p, parasite)
  {
    var c := ConfigureOn(br, id, p);
    if c.Err? {
      return Err(c.error);
    }
    var m := br.MatchRom(id);
    if m.Err? {
      return Err(m.error);
    }
    if parasite {
      // Only the first class gets here (the twin's scratchpad read has failed), and there the
      // call throws, so the conversion command that follows it is never sent.
      var u := br.CallStrongPullup();
      return Err(u.error);
    }
    WriteAllOf(br.twin, br.i2c.State(), [CONVERT_TEMP]);
    var w := br.WriteData([CONVERT_TEMP], 1);
    if w.Err? {
      return Err(w.error);
    }
    var q := PollOn(br);
    if q.Err? {
      return Err(q.error);
    }
    r := TempFetchOn(br, id, p);
  }

  /** `paths[key][0](bridge, id)`. */
  method ReadOn(br: Bridge, id: string, op: Op) returns (r: Result<Value>)
    modifies br.i2c
    ensures Out(r, br.i2c.State()) == Read(br.twin, old(br.i2c.State()), id, op)
  {
    var t := TempConvOn(br, id, op.p, op.parasite);
    r := if t.Err? then Err(t.error) else Ok(Number(t.value));
  }
}
