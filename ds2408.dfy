/**
 * The DS2408 8-channel addressable switch decoder of devices/ds2408.js: burst reads of the PIO
 * registers checked by CRC-16, the register write, the bit helpers, the Channel-Access Write of
 * the output latch, and the table of paths the router offers for it. Every routine talks to the
 * device through the bridge it is handed; the methods are proved to do what the function of the
 * same name says.
 */
module Ds2408Device {
  import opened Bytes
  import opened Results
  import opened Commands
  import opened Crc
  import opened Wire
  import opened OneWire
  import opened Ds2482

  /* ---------------------------------------------------------------------------------------- */
  /* Commands, registers and bits                                                             */

  const READ_PIO: Byte := 0xF0
  const CHANNEL_ACCESS_WRITE: Byte := 0x5A
  const WRITE_REGISTER: Byte := 0xCC
  const RESET_LATCHES: Byte := 0xC3

  const LOGIC_STATE := 0x88
  const OUTPUT_LATCH_STATE := 0x89
  const ACTIVITY_LATCH_STATE := 0x8A
  const SELECTION_MASK := 0x8B
  const POLARITY := 0x8C
  const CONTROL_STATUS := 0x8D

  const PLS: Byte := 0x01
  const CT: Byte := 0x02
  const ROS: Byte := 0x04
  const PORL: Byte := 0x08
  const VCCP: Byte := 0x80

  /* ---------------------------------------------------------------------------------------- */
  /* Bit helpers                                                                              */

  /** `#bit_get(value, bit)`, `bit` being a mask: 1 when the value has any bit of the mask set. */
  function BitGet(v: Byte, m: Byte): (r: int)
    ensures r == 0 || r == 1
    ensures r == 1 <==> v & m != 0
  {
    if v & m != 0 then 1 else 0
  }

  /**
   * `#bit_set(value, bit, status)`, `bit` being a mask: the bits of the mask set or cleared, all
   * other bits kept.
   */
  function BitSet(v: Byte, m: Byte, s: bool): (y: Byte)
    ensures y & m == if s then m else 0
    ensures y & !m == v & !m
  {
    if s then v | m else v & !m
  }

  /** What `#register_read` gives back: one register, or the whole buffer read. */
  datatype Reg = Register(v: Byte) | Buffer(regs: seq<Byte>)

  /**
   * The number a bitwise operator makes of a result (`ToInt32`): a register is its value; a
   * buffer of several bytes is not a number and counts as 0.
   */
  function Int32Of(r: Reg): Byte
  {
    if r.Register? then r.v else 0
  }

  /** `reg = invert ? reg ^ 0xFF : reg`, then `#bit_get(reg, bit)`. */
  function BitOf(r: Reg, bit: Byte, invert: bool): (b: int)
    ensures b == 0 || b == 1
    ensures b == 1 <==> (if invert then !Int32Of(r) else Int32Of(r)) & bit != 0
  {
    BitGet(if invert then Int32Of(r) ^ 0xFF else Int32Of(r), bit)
  }

  /* ---------------------------------------------------------------------------------------- */
  /* #register_read                                                                           */

  /** Read PIO Registers from address 0x88. */
  const READ_CMD: seq<Byte> := [READ_PIO, 0x88, 0]

  /**
   * What `writeData(cmd)` puts on the wire for the `Uint8Array` command: the twin sends its three
   * bytes; the first class wraps it in a one-element array (`Buffer.from([cmd])`), whose only
   * element is not a number and is stored as 0.
   */
  function CommandSent(twin: bool): (bs: seq<Byte>)
    ensures twin ==> bs == [READ_PIO, 0x88, 0]
    ensures !twin ==> bs == [0]
  {
    if twin then READ_CMD else [0]
  }

  /** One attempt of the burst: select the device, send the command, read ten bytes. */
  function Attempt(twin: bool, b: Bus, id: string): (o: Out<seq<Byte>>)
    ensures Later(b, o.bus)
    ensures o.res.Ok? ==> |o.res.value| == 10 && |o.bus.replies| < |b.replies|
  {
    var m := MatchRomOf(twin, b, id);
    if m.res.Err? then Out(Err(m.res.error), m.bus)
    else
      var w := WriteAll(m.bus, CommandSent(twin));
      if w.res.Err? then Out(Err(w.res.error), w.bus)
      else ReadData(w.bus, 10)
  }

  /**
   * An attempt that went through selected the device, wrote the command bytes the class at hand
   * sends (three on the twin, the single 0 on the first class), then read ten bytes.
   */
  lemma AttemptLogged(twin: bool, b: Bus, id: string)
    requires Attempt(twin, b, id).res.Ok?
    ensures var m := MatchRomOf(twin, b, id);
      m.res.Ok?
      && Attempt(twin, b, id).bus.log
         == m.bus.log + WriteLog(CommandSent(twin), |CommandSent(twin)|) + [[SET_READ_POINTER, REG_STATUS]] + ReadCmds(10)
  {
  }

  /**
   * `readUInt16LE(regs, 8)`, the checksum the device sends after the registers, as a 16-bit word:
   * byte 8 is its low half, byte 9 its high half.
   */
  function Checksum(regs: seq<Byte>): (w: bv16)
    requires |regs| == 10
    ensures (w & 0xFF) as bv8 == regs[8] && (w >> 8) as bv8 == regs[9]
  {
    (regs[9] as bv16 << 8) | regs[8] as bv16
  }

  /**
   * The check of one burst: CRC-16 over the eleven bytes of the command and the eight registers
   * (`cb.length = 11`) against the checksum that follows them.
   */
  predicate CrcMatches(regs: seq<Byte>)
    requires |regs| == 10
  {
    Crc16((READ_CMD + regs)[..11]) == Checksum(regs)
  }

  /** The buffers of an unfinished burst: all ten bytes long, none with a matching checksum. */
  predicate Failed(done: seq<seq<Byte>>)
  {
    forall i :: 0 <= i < |done| ==> |done[i]| == 10 && !CrcMatches(done[i])
  }

  /**
   * `rs` finishes a burst that read `done` first: at most six buffers, every one before the last
   * failed its check, and the last passed unless it was the sixth.
   */
  predicate Finishes(done: seq<seq<Byte>>, rs: seq<seq<Byte>>)
  {
    |done| < |rs| <= 6 && rs[..|done|] == done && Failed(rs[..|rs| - 1])
    && |rs[|rs| - 1]| == 10 && (|rs| < 6 ==> CrcMatches(rs[|rs| - 1]))
  }

  lemma FailedSnoc(done: seq<seq<Byte>>, regs: seq<Byte>)
    requires Failed(done) && |regs| == 10 && !CrcMatches(regs)
    ensures Failed(done + [regs])
  {
  }

  lemma FinishesAfterFailure(done: seq<seq<Byte>>, regs: seq<Byte>, rs: seq<seq<Byte>>)
    requires |regs| == 10 && !CrcMatches(regs) && Finishes(done + [regs], rs)
    ensures Finishes(done, rs)
  {
    assert rs[..|done|] == (done + [regs])[..|done|];
  }

  lemma FinishesNow(done: seq<seq<Byte>>, regs: seq<Byte>)
    requires Failed(done) && |done| <= 5 && |regs| == 10 && (CrcMatches(regs) || |done| == 5)
    ensures Finishes(done, done + [regs])
  {
    assert (done + [regs])[..|done|] == done;
  }

  /**
   * The do-while of `#register_read` from the attempt where the counter is `count`: read, count
   * down, and go round again while the checksum fails and the counter stays above -1. `done`
   * holds the buffers read before; the result is every buffer read, in order. The first class
   * has no `readUInt16LE`, so there the first attempt ends in a TypeError.
   */
  function Burst(twin: bool, b: Bus, id: string, count: nat, done: seq<seq<Byte>>): (o: Out<seq<seq<Byte>>>)
    requires |done| + count == 5 && Failed(done)
    ensures Later(b, o.bus)
    ensures o.res.Ok? ==> Finishes(done, o.res.value)
    decreases count
  {
    var a := Attempt(twin, b, id);
    if a.res.Err? then Out(Err(a.res.error), a.bus)
    else if !twin then Out(Err(TypeError), a.bus)
    else
      var regs := a.res.value;
      if !CrcMatches(regs) && count > 0 then
        FailedSnoc(done, regs);
        var o := Burst(twin, a.bus, id, count - 1, done + [regs]);
        if o.res.Ok? then FinishesAfterFailure(done, regs, o.res.value); o else o
      else
        FinishesNow(done, regs);
        Out(Ok(done + [regs]), a.bus)
  }

  /**
   * The whole retry loop: the buffers of up to six attempts, all but the last failing the check,
   * the last passing it unless all six were used; on the first class a TypeError.
   */
  function Bursts(twin: bool, b: Bus, id: string): (o: Out<seq<seq<Byte>>>)
    ensures Later(b, o.bus)
    ensures o.res.Ok? ==> Finishes([], o.res.value)
    ensures !twin ==> o.res.Err?
  {
    Burst(twin, b, id, 5, [])
  }

  /** The buffer `#register_read` keeps: the last one read, whether or not its checksum matched. */
  function LastRead(rs: seq<seq<Byte>>): seq<Byte>
    requires |rs| >= 1
  {
    rs[|rs| - 1]
  }

  /**
   * `#register_read(target)` as written: a target below 0x88 gives 0 and one above 0x8D gives
   * 0xFF without a transaction; otherwise the burst, then `regs[target - 0x88]` when that index
   * is positive, else the whole buffer, which is what LOGIC_STATE (0x88) gets back.
   */
  function RegisterReadAsWritten(twin: bool, b: Bus, id: string, target: int): (o: Out<Reg>)
    ensures target != 0 && target < 0x88 ==> o == Out(Ok(Register(0)), b)
    ensures target > 0x8D ==> o == Out(Ok(Register(0xFF)), b)
    ensures target == LOGIC_STATE && o.res.Ok? ==> o.res.value.Buffer?
  {
    if target != 0 && target < 0x88 then Out(Ok(Register(0)), b)
    else if target != 0 && target > 0x8D then Out(Ok(Register(0xFF)), b)
    else
      var r := Bursts(twin, b, id);
      if r.res.Err? then Out(Err(r.res.error), r.bus)
      else
        var regs := LastRead(r.res.value);
        if target != 0 && target - 0x88 > 0 then Out(Ok(Register(regs[target - 0x88])), r.bus)
        else Out(Ok(Buffer(regs)), r.bus)
  }

  /**
   * `#register_read(target)` with the register index taken from 0 on, so that LOGIC_STATE
   * (0x88) gives its own byte like the other registers; no target still gives the buffer.
   */
  function RegisterRead(twin: bool, b: Bus, id: string, target: int): (o: Out<Reg>)
    ensures target != 0 && target < 0x88 ==> o == Out(Ok(Register(0)), b)
    ensures target > 0x8D ==> o == Out(Ok(Register(0xFF)), b)
    ensures 0x88 <= target <= 0x8D ==> var r := Bursts(twin, b, id);
      o.bus == r.bus
      && (r.res.Ok? ==> o.res == Ok(Register(LastRead(r.res.value)[target - 0x88])))
      && (r.res.Err? ==> o.res == Err(r.res.error))
    ensures target == 0 && o.res.Ok? ==> o.res.value.Buffer? && |o.res.value.regs| == 10
  {
    if target != 0 && target < 0x88 then Out(Ok(Register(0)), b)
    else if target != 0 && target > 0x8D then Out(Ok(Register(0xFF)), b)
    else
      var r := Bursts(twin, b, id);
      if r.res.Err? then Out(Err(r.res.error), r.bus)
      else
        var regs := LastRead(r.res.value);
        if target != 0 then Out(Ok(Register(regs[target - 0x88])), r.bus)
        else Out(Ok(Buffer(regs)), r.bus)
  }

  /** The two readings agree on every target except LOGIC_STATE. */
  lemma RegisterReadsAgree(twin: bool, b: Bus, id: string, target: int)
    requires target != LOGIC_STATE
    ensures RegisterReadAsWritten(twin, b, id, target) == RegisterRead(twin, b, id, target)
  {
    if target == 0 || 0x88 < target <= 0x8D {
      assert target == 0 || target - 0x88 > 0;
    }
  }

  /** `#register_bit_get(register, bit, invert)` over a register reading. */
  function RegisterBitGetOf(r: Out<Reg>, bit: Byte, invert: bool): (o: Out<int>)
    ensures o.bus == r.bus
    ensures o.res.Ok? <==> r.res.Ok?
    ensures o.res.Ok? ==> o.res.value == BitOf(r.res.value, bit, invert)
  {
    if r.res.Err? then Out(Err(r.res.error), r.bus) else Out(Ok(BitOf(r.res.value, bit, invert)), r.bus)
  }

  /**
   * As written, every `sensed/chN` reading is 0 whatever the pins sense: the logic state comes
   * back as the whole buffer, which the bit test sees as 0.
   */
  lemma SensedAlwaysZero(twin: bool, b: Bus, id: string, n: nat)
    requires n < 8
    ensures var o := RegisterBitGetOf(RegisterReadAsWritten(twin, b, id, LOGIC_STATE), Mask(n), false);
      o.res.Ok? ==> o.res.value == 0
  {
  }

  /** With the register taken from index 0, `sensed/chN` is bit N of the logic-state register read. */
  lemma SensedReadsPin(twin: bool, b: Bus, id: string, n: nat)
    requires n < 8
    ensures var r := Bursts(twin, b, id);
      var o := RegisterBitGetOf(RegisterRead(twin, b, id, LOGIC_STATE), Mask(n), false);
      r.res.Ok? ==> o.res == Ok(BitGet(LastRead(r.res.value)[0], Mask(n)))
  {
  }

  /* ---------------------------------------------------------------------------------------- */
  /* #register_write                                                                          */

  /**
   * The Write Conditional Search Register command: the target register (a missing target becomes
   * 0 in the byte buffer), then the data, inverted when asked, in the low byte.
   */
  function RegisterWriteBytes(data: int, target: Option<int>, invert: bool): (bs: seq<Byte>)
    requires target.Some? ==> SELECTION_MASK <= target.value <= CONTROL_STATUS
    ensures |bs| == 4 && bs[0] == WRITE_REGISTER && bs[2] == 0
    ensures bs[1] as int == if target.Some? then target.value else 0
    ensures bs[3] == if invert then !ToByte(data) else ToByte(data)
  {
    var t: Byte := if target.Some? then ToByte(target.value) else 0;
    assert t as int == if target.Some? then target.value else 0;
    var d := ToByte(data);
    [WRITE_REGISTER, t, 0, if invert then d ^ 0xFF else d]
  }

  /**
   * `#register_write(data, target, invert)`: nothing at all for a zero `data` or a target outside
   * the three writable registers 0x8B..0x8D; otherwise select, send the command, reset the wire.
   * A missing target compares false both ways and so passes the guard.
   */
  function RegisterWrite(twin: bool, b: Bus, id: string, data: int, target: Option<int>, invert: bool): (o: Out<()>)
    ensures Later(b, o.bus)
    ensures data == 0 || (target.Some? && (target.value < SELECTION_MASK || target.value > CONTROL_STATUS))
      ==> o == Out(Ok(()), b)
  {
    if data == 0 || (target.Some? && (target.value < SELECTION_MASK || target.value > CONTROL_STATUS)) then Out(Ok(()), b)
    else
      var m := MatchRomOf(twin, b, id);
      if m.res.Err? then Out(Err(m.res.error), m.bus)
      else
        var w := WriteAll(m.bus, RegisterWriteBytes(data, target, invert));
        if w.res.Err? then Out(Err(w.res.error), w.bus)
        else
          var r := ResetWire(w.bus);
          if r.res.Err? then Out(Err(r.res.error), r.bus) else Out(Ok(()), r.bus)
  }

  /** A register write that went through selected the device, sent the four bytes, then reset the wire. */
  lemma RegisterWriteLogged(twin: bool, b: Bus, id: string, data: int, target: Option<int>, invert: bool)
    requires data != 0 && (target.Some? ==> SELECTION_MASK <= target.value <= CONTROL_STATUS)
    requires RegisterWrite(twin, b, id, data, target, invert).res.Ok?
    ensures var m := MatchRomOf(twin, b, id);
      m.res.Ok?
      && RegisterWrite(twin, b, id, data, target, invert).bus.log
         == m.bus.log + WriteLog(RegisterWriteBytes(data, target, invert), 4) + ResetWireLog
  {
  }

  /* ---------------------------------------------------------------------------------------- */
  /* #pio_channel_set                                                                          */

  /**
   * The state `#pio_channel_set` writes: `data` itself for the whole port (channel 0), otherwise
   * the output latch register read back with that channel's bits set when `data` is nonzero and
   * cleared when it is zero, every other bit as read.
   */
  function LatchFor(twin: bool, b: Bus, id: string, channel: Byte, data: int): (o: Out<int>)
    ensures Later(b, o.bus)
    ensures channel == 0 ==> o == Out(Ok(data), b)
    ensures channel != 0 ==> var r := RegisterReadAsWritten(twin, b, id, OUTPUT_LATCH_STATE);
      o.bus == r.bus && (o.res.Ok? <==> r.res.Ok?)
      && (o.res.Ok? ==> o.res.value == BitSet(Int32Of(r.res.value), channel, data != 0) as int)
  {
    if channel == 0 then Out(Ok(data), b)
    else
      var r := RegisterReadAsWritten(twin, b, id, OUTPUT_LATCH_STATE);
      if r.res.Err? then Out(Err(r.res.error), r.bus)
      else Out(Ok(BitSet(Int32Of(r.res.value), channel, data != 0) as int), r.bus)
  }

  /** Channel-Access Write of `reg`: the command, the low byte, and its complement. */
  function AccessWrite(reg: int): (bs: seq<Byte>)
    ensures |bs| == 3 && bs[0] == CHANNEL_ACCESS_WRITE
    ensures bs[1] as int == reg % 256 && bs[2] == !bs[1]
  {
    [CHANNEL_ACCESS_WRITE, ToByte(reg), !ToByte(reg)]
  }

  /** The confirmation a Channel-Access Write reads back when the device took the byte. */
  const CONFIRMED: Byte := 0xAA

  /**
   * `#pio_channel_set(channel, data)`: the new state, then select, Channel-Access Write, and two
   * bytes read back; the result tells whether the first is the confirmation byte.
   */
  function PioChannelSet(twin: bool, b: Bus, id: string, channel: Byte, data: int): (o: Out<bool>)
    ensures Later(b, o.bus)
  {
    var l := LatchFor(twin, b, id, channel, data);
    if l.res.Err? then Out(Err(l.res.error), l.bus)
    else
      var m := MatchRomOf(twin, l.bus, id);
      if m.res.Err? then Out(Err(m.res.error), m.bus)
      else
        var w := WriteAll(m.bus, AccessWrite(l.res.value));
        if w.res.Err? then Out(Err(w.res.error), w.bus)
        else
          var r := ReadData(w.bus, 2);
          if r.res.Err? then Out(Err(r.res.error), r.bus)
          else Out(Ok(r.res.value[0] == CONFIRMED), r.bus)
  }

  /** A Channel-Access Write that went through sent the state byte and its complement, in that order. */
  lemma AccessWriteLogged(twin: bool, b: Bus, id: string, channel: Byte, data: int)
    requires PioChannelSet(twin, b, id, channel, data).res.Ok?
    ensures var l := LatchFor(twin, b, id, channel, data);
      var m := MatchRomOf(twin, l.bus, id);
      l.res.Ok? && m.res.Ok?
      && PioChannelSet(twin, b, id, channel, data).bus.log
         == m.bus.log + WriteLog(AccessWrite(l.res.value), 3) + [[SET_READ_POINTER, REG_STATUS]] + ReadCmds(2)
  {
  }

  /**
   * What the device answers decides the result: on an idle bridge whose device sends back `x`
   * and then `y` after the Channel-Access Write, `#pio_channel_set` reports whether `x` is the
   * confirmation byte.
   */
  lemma PioChannelSetConfirmed(twin: bool, b: Bus, id: string, channel: Byte, data: int, x: Byte, y: Byte, rest: seq<Byte>)
    requires var l := LatchFor(twin, b, id, channel, data);
      var m := MatchRomOf(twin, l.bus, id);
      l.res.Ok? && m.res.Ok?
      && var w := WriteAll(m.bus, AccessWrite(l.res.value));
      w.res.Ok? && w.bus.replies == [0] + (ReadScript([x, y]) + rest)
    ensures PioChannelSet(twin, b, id, channel, data).res == Ok(x == CONFIRMED)
  {
    var l := LatchFor(twin, b, id, channel, data);
    var m := MatchRomOf(twin, l.bus, id);
    var w := WriteAll(m.bus, AccessWrite(l.res.value));
    ReadDataIdle([x, y], rest, w.bus.log);
    assert w.bus == Bus([0] + (ReadScript([x, y]) + rest), w.bus.log);
  }

  /* ---------------------------------------------------------------------------------------- */
  /* The path table                                                                            */

  /** The handlers of the `paths` object: the seven fixed entries and three per channel. */
  datatype Op =
    | Power | DisableTestMode | Strobe | Por
    | SensedAll | PioAll | LatchAll
    | SensedCh(n: nat) | PioCh(n: nat) | LatchCh(n: nat)

  predicate ValidOp(op: Op)
  {
    (op.SensedCh? || op.PioCh? || op.LatchCh?) ==> op.n < 8
  }

  /** The decimal digit of a channel number below 8. */
  function Digit(n: nat): (c: char)
    requires n < 8
    ensures '0' <= c <= '7' && c as int - '0' as int == n
  {
    ('0' as int + n) as char
  }

  /** The path an entry is stored under. */
  function Key(op: Op): string
    requires ValidOp(op)
  {
    match op
    case Power => "power"
    case DisableTestMode => "disable_test_mode"
    case Strobe => "strobe"
    case Por => "por"
    case SensedAll => "sensed/all"
    case PioAll => "pio/all"
    case LatchAll => "latch/all"
    case SensedCh(n) => "sensed/ch" + [Digit(n)]
    case PioCh(n) => "pio/ch" + [Digit(n)]
    case LatchCh(n) => "latch/ch" + [Digit(n)]
  }

  /** The entries the constructor adds for channels `i` to 7, three per channel. */
  function ChannelOps(i: nat): (ops: seq<Op>)
    requires i <= 8
    ensures |ops| == 3 * (8 - i)
    ensures forall k :: 0 <= k < |ops| ==> ValidOp(ops[k])
    decreases 8 - i
  {
    if i == 8 then [] else [SensedCh(i), PioCh(i), LatchCh(i)] + ChannelOps(i + 1)
  }

  /** The entries of `paths` once the constructor has run, in insertion order. */
  function Ops(): (ops: seq<Op>)
    ensures |ops| == 31
    ensures forall k :: 0 <= k < |ops| ==> ValidOp(ops[k])
  {
    [Power, DisableTestMode, Strobe, Por, SensedAll, PioAll, LatchAll] + ChannelOps(0)
  }

  /** The channel of a `chN` suffix. */
  function ChannelOf(c: char): Option<nat>
  {
    if '0' <= c <= '7' then Some(c as int - '0' as int) else None
  }

  /** `paths[key]`: the entry stored under a key, if any. */
  function Route(key: string): (r: Option<Op>)
    ensures r.Some? ==> ValidOp(r.value)
  {
    if key == "power" then Some(Power)
    else if key == "disable_test_mode" then Some(DisableTestMode)
    else if key == "strobe" then Some(Strobe)
    else if key == "por" then Some(Por)
    else if key == "sensed/all" then Some(SensedAll)
    else if key == "pio/all" then Some(PioAll)
    else if key == "latch/all" then Some(LatchAll)
    else if |key| == 10 && key[..9] == "sensed/ch" && ChannelOf(key[9]).Some? then Some(SensedCh(ChannelOf(key[9]).value))
    else if |key| == 7 && key[..6] == "pio/ch" && ChannelOf(key[6]).Some? then Some(PioCh(ChannelOf(key[6]).value))
    else if |key| == 9 && key[..8] == "latch/ch" && ChannelOf(key[8]).Some? then Some(LatchCh(ChannelOf(key[8]).value))
    else None
  }

  /** Every entry is found under its own key, so no two entries share a key. */
  lemma RouteKey(op: Op)
    requires ValidOp(op)
    ensures Route(Key(op)) == Some(op)
  {
    match op
    case SensedCh(n) =>
      var k := Key(op);
      assert k[..9] == "sensed/ch" && k[9] == Digit(n);
    case PioCh(n) =>
      var k := Key(op);
      assert k != "por" && k[..6] == "pio/ch" && k[6] == Digit(n);
    case LatchCh(n) =>
      var k := Key(op);
      assert k[..8] == "latch/ch" && k[8] == Digit(n);
    case _ =>
  }

  /** A key that finds an entry is that entry's key. */
  lemma KeyRoute(key: string)
    requires Route(key).Some?
    ensures Key(Route(key).value) == key
  {
    var op := Route(key).value;
    match op
    case SensedCh(n) => assert key == key[..9] + [key[9]];
    case PioCh(n) => assert key == key[..6] + [key[6]];
    case LatchCh(n) => assert key == key[..8] + [key[8]];
    case _ =>
  }

  /** `paths[key][0]` is defined: every entry but `disable_test_mode` can be read. */
  predicate Readable(op: Op)
  {
    !op.DisableTestMode?
  }

  /** `paths[key][1]` is defined. */
  predicate Writable(op: Op)
  {
    op.DisableTestMode? || op.Strobe? || op.Por? || op.PioAll? || op.LatchAll? || op.PioCh?
  }

  /* ---------------------------------------------------------------------------------------- */
  /* The handlers                                                                             */

  /** A reading as the handler hands it on: a register is a number, the buffer stays a buffer. */
  function RegValue(r: Reg): Value
  {
    match r
    case Register(v) => Number(v as int as real)
    case Buffer(regs) => Bytes(regs)
  }

  /** A result handed on through `f`, the bus and any error as they were. */
  function MapOut<T, U>(o: Out<T>, f: T -> U): (v: Out<U>)
    ensures v.bus == o.bus && (v.res.Ok? <==> o.res.Ok?)
    ensures o.res.Ok? ==> v.res == Ok(f(o.res.value))
    ensures o.res.Err? ==> v.res == Err(o.res.error)
  {
    if o.res.Err? then Out(Err(o.res.error), o.bus) else Out(Ok(f(o.res.value)), o.bus)
  }

  /** A bit of a register reading, as `#register_bit_get` takes it, handed on as a number. */
  function BitValue(r: Out<Reg>, bit: Byte): (v: Out<Value>)
    ensures v.bus == r.bus && (v.res.Ok? <==> r.res.Ok?)
    ensures r.res.Err? ==> v.res == Err(r.res.error)
    ensures r.res.Ok? ==> v.res == Ok(Number(BitOf(r.res.value, bit, false) as real))
  {
    MapOut(RegisterBitGetOf(r, bit, false), (x: int) => Number(x as real))
  }

  /** `#register_bit_get(register, bit)` handed on as a number. */
  function BitReading(twin: bool, b: Bus, id: string, register: int, bit: Byte): Out<Value>
  {
    BitValue(RegisterReadAsWritten(twin, b, id, register), bit)
  }

  /**
   * `paths[key][0](bridge, id)`: the reading handlers, over `#register_read` as written. A
   * channel of `sensed` therefore always reads 0, and `sensed/all` the whole buffer.
   */
  function Read(twin: bool, b: Bus, id: string, op: Op): (o: Out<Value>)
    requires ValidOp(op) && Readable(op)
    ensures Later(b, o.bus)
    ensures op.SensedCh? && o.res.Ok? ==> o.res.value == Number(0.0)
    ensures op.SensedAll? && o.res.Ok? ==> o.res.value.Bytes?
  {
    match op
    case Power => BitReading(twin, b, id, CONTROL_STATUS, VCCP)
    case Strobe => BitReading(twin, b, id, CONTROL_STATUS, ROS)
    case Por => BitReading(twin, b, id, CONTROL_STATUS, PORL)
    case SensedAll => MapOut(RegisterReadAsWritten(twin, b, id, LOGIC_STATE), RegValue)
    case PioAll => MapOut(RegisterReadAsWritten(twin, b, id, OUTPUT_LATCH_STATE), RegValue)
    case LatchAll => MapOut(RegisterReadAsWritten(twin, b, id, ACTIVITY_LATCH_STATE), RegValue)
    case SensedCh(n) => BitReading(twin, b, id, LOGIC_STATE, Mask(n))
    case PioCh(n) => BitReading(twin, b, id, OUTPUT_LATCH_STATE, Mask(n))
    case LatchCh(n) => BitReading(twin, b, id, ACTIVITY_LATCH_STATE, Mask(n))
  }

  /**
   * The reading handlers over `#register_read` with the register index taken from 0, so that
   * `sensed/all` is the logic-state register and `sensed/chN` its bit N.
   */
  function ReadIntended(twin: bool, b: Bus, id: string, op: Op): (o: Out<Value>)
    requires ValidOp(op) && Readable(op)
    ensures Later(b, o.bus)
    ensures op.SensedCh? || op.SensedAll? ==> var r := Bursts(twin, b, id);
      o.bus == r.bus
      && (r.res.Ok? && op.SensedCh? ==> o.res == Ok(Number(BitGet(LastRead(r.res.value)[0], Mask(op.n)) as real)))
      && (r.res.Ok? && op.SensedAll? ==> o.res == Ok(Number(LastRead(r.res.value)[0] as int as real)))
      && (r.res.Err? ==> o.res == Err(r.res.error))
  {
    match op
    case Power => BitValue(RegisterRead(twin, b, id, CONTROL_STATUS), VCCP)
    case Strobe => BitValue(RegisterRead(twin, b, id, CONTROL_STATUS), ROS)
    case Por => BitValue(RegisterRead(twin, b, id, CONTROL_STATUS), PORL)
    case SensedAll => MapOut(RegisterRead(twin, b, id, LOGIC_STATE), RegValue)
    case PioAll => MapOut(RegisterRead(twin, b, id, OUTPUT_LATCH_STATE), RegValue)
    case LatchAll => MapOut(RegisterRead(twin, b, id, ACTIVITY_LATCH_STATE), RegValue)
    case SensedCh(n) => BitValue(RegisterRead(twin, b, id, LOGIC_STATE), Mask(n))
    case PioCh(n) => BitValue(RegisterRead(twin, b, id, OUTPUT_LATCH_STATE), Mask(n))
    case LatchCh(n) => BitValue(RegisterRead(twin, b, id, ACTIVITY_LATCH_STATE), Mask(n))
  }

  /** The two readings differ only on the `sensed` entries. */
  lemma ReadsAgree(twin: bool, b: Bus, id: string, op: Op)
    requires ValidOp(op) && Readable(op) && !op.SensedAll? && !op.SensedCh?
    ensures ReadIntended(twin, b, id, op) == Read(twin, b, id, op)
  {
    RegisterReadsAgree(twin, b, id, OUTPUT_LATCH_STATE);
    RegisterReadsAgree(twin, b, id, ACTIVITY_LATCH_STATE);
    RegisterReadsAgree(twin, b, id, CONTROL_STATUS);
  }

  /**
   * `latch_reset`: select, send Reset Activity Latches, read two bytes; the loop condition then
   * names `res`, which is out of scope, and throws a ReferenceError.
   */
  function LatchReset(twin: bool, b: Bus, id: string): (o: Out<Value>)
    ensures Later(b, o.bus) && o.res.Err?
    ensures var m := MatchRomOf(twin, b, id);
      var w := WriteAll(m.bus, [RESET_LATCHES]);
      m.res.Ok? && w.res.Ok? && ReadData(w.bus, 2).res.Ok? ==>
        o.res == Err(ReferenceError)
        && o.bus.log == m.bus.log + WriteLog([RESET_LATCHES], 1) + [[SET_READ_POINTER, REG_STATUS]] + ReadCmds(2)
  {
    var m := MatchRomOf(twin, b, id);
    if m.res.Err? then Out(Err(m.res.error), m.bus)
    else
      var w := WriteAll(m.bus, [RESET_LATCHES]);
      if w.res.Err? then Out(Err(w.res.error), w.bus)
      else
        var r := ReadData(w.bus, 2);
        if r.res.Err? then Out(Err(r.res.error), r.bus) else Out(Err(ReferenceError), r.bus)
  }

  /**
   * `strobe_set`: `#register_bit_set(CONTROL_STATUS)` with no bit, state or inversion. The control
   * register is read; the write that follows gets the register number as its data and no
   * target, so the command carries 0 in the target byte and 0x8D as the data; the register is
   * read again, and the loop condition then names `check`, declared inside the loop body, which
   * throws a ReferenceError.
   */
  function StrobeSet(twin: bool, b: Bus, id: string): (o: Out<Value>)
    ensures Later(b, o.bus) && o.res.Err?
    ensures var r := RegisterReadAsWritten(twin, b, id, CONTROL_STATUS);
      var w := RegisterWrite(twin, r.bus, id, CONTROL_STATUS, None, false);
      var c := RegisterReadAsWritten(twin, w.bus, id, CONTROL_STATUS);
      r.res.Ok? && w.res.Ok? && c.res.Ok? ==>
        o == Out(Err(ReferenceError), c.bus)
        && var m := MatchRomOf(twin, r.bus, id);
          m.res.Ok? && w.bus.log == m.bus.log + WriteLog([WRITE_REGISTER, 0, 0, CONTROL_STATUS as Byte], 4) + ResetWireLog
  {
    var r := RegisterReadAsWritten(twin, b, id, CONTROL_STATUS);
    if r.res.Err? then Out(Err(r.res.error), r.bus)
    else
      var w := RegisterWrite(twin, r.bus, id, CONTROL_STATUS, None, false);
      if w.res.Err? then Out(Err(w.res.error), w.bus)
      else
        RegisterWriteLogged(twin, r.bus, id, CONTROL_STATUS, None, false);
        var c := RegisterReadAsWritten(twin, w.bus, id, CONTROL_STATUS);
        if c.res.Err? then Out(Err(c.res.error), c.bus) else Out(Err(ReferenceError), c.bus)
  }

  /** The magic command `disable_test_mode` opens and closes its three bytes with. */
  const TEST_MODE_CMD: Byte := 0x96
  const TEST_MODE_END: Byte := 0x3C

  predicate IsDecimal(c: char)
  {
    '0' <= c <= '9'
  }

  /** The value of a run of decimal digits, most significant first. */
  function DecimalValue(s: string): (n: nat)
    requires forall i :: 0 <= i < |s| ==> IsDecimal(s[i])
  {
    if s == [] then 0
    else
      assert IsDecimal(s[|s| - 1]);
      10 * DecimalValue(s[..|s| - 1]) + (s[|s| - 1] as int - '0' as int)
  }

  /**
   * The byte a JavaScript byte array stores for the text `id` (`ToUint8(ToNumber(id))`), where
   * the model can tell. The empty text is 0. A run of at most 15 decimal digits is its value
   * modulo 256; below 2^53 the number is exact. A text holding one of the letters a, c, d, f, A,
   * C, D or F and no `x` or `X` is no number (NaN) or, for `Infinity`, not a finite one, and is
   * stored as 0. Other texts (signs, exponents, prefixes, blanks) are not modelled.
   */
  function IdByte(id: string): (o: Option<Byte>)
    ensures id == "" ==> o == Some(0)
    ensures (exists i :: 0 <= i < |id| && id[i] in "acdfACDF") && (forall i :: 0 <= i < |id| ==> id[i] != 'x' && id[i] != 'X')
      ==> o == Some(0)
    ensures 0 < |id| <= 15 && (forall i :: 0 <= i < |id| ==> IsDecimal(id[i]))
      ==> o.Some? && o.value as int == DecimalValue(id) % 256
  {
    if id == "" then Some(0)
    else if forall i :: 0 <= i < |id| ==> IsDecimal(id[i]) then
      if |id| <= 15 then Some(ToByte(DecimalValue(id))) else None
    else if (exists i :: 0 <= i < |id| && id[i] in "acdfACDF") && (forall i :: 0 <= i < |id| ==> id[i] != 'x' && id[i] != 'X') then Some(0)
    else None
  }

  /**
   * The text of a ROM code, as the twin's ids are written, stores a byte exactly when one of
   * its sixteen digits is a, c, d or f, and that byte is then 0: the bytes written are
   * 0x96, 0, 0x3C whatever the device.
   */
  lemma RomTextByte(rom: seq<Byte>)
    requires |rom| == 8
    ensures IdByte(Hex(rom)).Some? <==> exists i :: 0 <= i < 16 && Hex(rom)[i] in "acdf"
    ensures IdByte(Hex(rom)).Some? ==> IdByte(Hex(rom)) == Some(0)
  {
    var t := Hex(rom);
    if exists i :: 0 <= i < 16 && t[i] in "acdf" {
      var i :| 0 <= i < 16 && t[i] in "acdf";
      assert !IsDecimal(t[i]);
      assert t[i] in "acdfACDF";
    }
  }

  /**
   * `disable_test_mode`: select, write 0x96, the byte stored for the id and 0x3C, then reset the
   * wire; the handler gives nothing back. An id whose byte the model cannot tell is not modelled.
   */
  function TestModeOff(twin: bool, b: Bus, id: string): (o: Out<Value>)
    ensures Later(b, o.bus)
    ensures IdByte(id).None? ==> o == Out(Err(Unmodelled), b)
    ensures o.res.Ok? ==> o.res.value == Undefined
  {
    match IdByte(id)
    case None => Out(Err(Unmodelled), b)
    case Some(x) =>
      var m := MatchRomOf(twin, b, id);
      if m.res.Err? then Out(Err(m.res.error), m.bus)
      else
        var w := WriteAll(m.bus, [TEST_MODE_CMD, x, TEST_MODE_END]);
        if w.res.Err? then Out(Err(w.res.error), w.bus)
        else
          var z := ResetWire(w.bus);
          if z.res.Err? then Out(Err(z.res.error), z.bus) else Out(Ok(Undefined), z.bus)
  }

  /** A `disable_test_mode` that went through selected the device, sent the three bytes, then reset the wire. */
  lemma TestModeOffLogged(twin: bool, b: Bus, id: string)
    requires TestModeOff(twin, b, id).res.Ok?
    ensures var m := MatchRomOf(twin, b, id);
      IdByte(id).Some? && m.res.Ok?
      && TestModeOff(twin, b, id).bus.log
         == m.bus.log + WriteLog([TEST_MODE_CMD, IdByte(id).value, TEST_MODE_END], 3) + ResetWireLog
  {
  }

  /**
   * `paths[key][1](bridge, id, data)`: the writing handlers. `por_set` names an undeclared
   * `state` before any transaction.
   */
  function Write(twin: bool, b: Bus, id: string, op: Op, data: int): (o: Out<Value>)
    requires ValidOp(op) && Writable(op)
    ensures Later(b, o.bus)
    ensures op.Por? ==> o == Out(Err(ReferenceError), b)
  {
    match op
    case PioAll => MapOut(PioChannelSet(twin, b, id, 0, data), (x: bool) => Bool(x))
    case PioCh(n) => MapOut(PioChannelSet(twin, b, id, Mask(n), data), (x: bool) => Bool(x))
    case LatchAll => LatchReset(twin, b, id)
    case Strobe => StrobeSet(twin, b, id)
    case Por => Out(Err(ReferenceError), b)
    case DisableTestMode => TestModeOff(twin, b, id)
  }

  /* ---------------------------------------------------------------------------------------- */
  /* Methods on the bridge                                                                    */

  /** One attempt of the burst. */
  method ReadAttempt(br: Bridge, id: string) returns (r: Result<seq<Byte>>)
    modifies br.i2c
    ensures Out(r, br.i2c.State()) == Attempt(br.twin, old(br.i2c.State()), id)
  {
    var m := br.MatchRom(id);
    if m.Err? {
      return Err(m.error);
    }
    var cmd := CommandSent(br.twin);
    WriteAllOf(br.twin, br.i2c.State(), cmd);
    var w := br.WriteData(cmd, |cmd|);
    if w.Err? {
      return Err(w.error);
    }
    r := br.ReadData(10);
  }

  /** `#register_read(target)`, with the retry loop counting down from 5. */
  method RegisterReadOn(br: Bridge, id: string, target: int) returns (r: Result<Reg>)
    modifies br.i2c
    ensures Out(r, br.i2c.State()) == RegisterReadAsWritten(br.twin, old(br.i2c.State()), id, target)
  {
    if target != 0 && target < 0x88 {
      return Ok(Register(0));
    }
    if target != 0 && target > 0x8D {
      return Ok(Register(0xFF));
    }
    ghost var goal := Bursts(br.twin, br.i2c.State(), id);
    ghost var done: seq<seq<Byte>> := [];
    var count := 5;
    var regs: seq<Byte>;
    while true
      invariant 0 <= count <= 5 && |done| + count == 5 && Failed(done)
      invariant Burst(br.twin, br.i2c.State(), id, count, done) == goal
      decreases count
    {
      var a := ReadAttempt(br, id);
      if a.Err? {
        return Err(a.error);
      }
      if !br.twin {
        return Err(TypeError);
      }
      regs := a.value;
      var matches := CrcMatches(regs);
      count := count - 1;
      if !(!matches && count > -1) {
        assert goal.res == Ok(done + [regs]);
        break;
      }
      FailedSnoc(done, regs);
      done := done + [regs];
    }
    if target != 0 && target - 0x88 > 0 {
      return Ok(Register(regs[target - 0x88]));
    }
    r := Ok(Buffer(regs));
  }

  /** `#register_bit_get(register, bit)`: the register read, then the bit under the mask. */
  method RegisterBitGetOn(br: Bridge, id: string, register: int, bit: Byte) returns (r: Result<int>)
    modifies br.i2c
    ensures Out(r, br.i2c.State()) == RegisterBitGetOf(RegisterReadAsWritten(br.twin, old(br.i2c.State()), id, register), bit, false)
  {
    var reg := RegisterReadOn(br, id, register);
    if reg.Err? {
      return Err(reg.error);
    }
    r := Ok(BitOf(reg.value, bit, false));
  }

  /** `#register_write(data, target, invert)`. */
  method RegisterWriteOn(br: Bridge, id: string, data: int, target: Option<int>, invert: bool) returns (r: Result<()>)
    modifies br.i2c
    ensures Out(r, br.i2c.State()) == RegisterWrite(br.twin, old(br.i2c.State()), id, data, target, invert)
  {
    if data == 0 || (target.Some? && (target.value < SELECTION_MASK || target.value > CONTROL_STATUS)) {
      return Ok(());
    }
    var m := br.MatchRom(id);
    if m.Err? {
      return Err(m.error);
    }
    var bytes := RegisterWriteBytes(data, target, invert);
    WriteAllOf(br.twin, br.i2c.State(), bytes);
    var w := br.WriteData(bytes, |bytes|);
    if w.Err? {
      return Err(w.error);
    }
    var z := br.ResetWire();
    if z.Err? {
      return Err(z.error);
    }
    r := Ok(());
  }

  /** `#pio_channel_set(channel, data)`. */
  method PioChannelSetOn(br: Bridge, id: string, channel: Byte, data: int) returns (r: Result<bool>)
    modifies br.i2c
    ensures Out(r, br.i2c.State()) == PioChannelSet(br.twin, old(br.i2c.State()), id, channel, data)
  {
    var reg := data;
    if channel != 0 {
      var latch := RegisterReadOn(br, id, OUTPUT_LATCH_STATE);
      if latch.Err? {
        return Err(latch.error);
      }
      reg := BitSet(Int32Of(latch.value), channel, data != 0) as int;
    }
    var m := br.MatchRom(id);
    if m.Err? {
      return Err(m.error);
    }
    var bytes := AccessWrite(reg);
    WriteAllOf(br.twin, br.i2c.State(), bytes);
    var w := br.WriteData(bytes, |bytes|);
    if w.Err? {
      return Err(w.error);
    }
    var res := br.ReadData(2);
    if res.Err? {
      return Err(res.error);
    }
    r := Ok(res.value[0] == CONFIRMED);
  }

  /** `latch_reset`. */
  method LatchResetOn(br: Bridge, id: string) returns (r: Result<Value>)
    modifies br.i2c
    ensures Out(r, br.i2c.State()) == LatchReset(br.twin, old(br.i2c.State()), id)
  {
    var m := br.MatchRom(id);
    if m.Err? {
      return Err(m.error);
    }
    WriteAllOf(br.twin, br.i2c.State(), [RESET_LATCHES]);
    var w := br.WriteData([RESET_LATCHES], 1);
    if w.Err? {
      return Err(w.error);
    }
    var res := br.ReadData(2);
    if res.Err? {
      return Err(res.error);
    }
    r := Err(ReferenceError);
  }

  /** `strobe_set`. */
  method StrobeSetOn(br: Bridge, id: string) returns (r: Result<Value>)
    modifies br.i2c
    ensures Out(r, br.i2c.State()) == StrobeSet(br.twin, old(br.i2c.State()), id)
  {
    var reg := RegisterReadOn(br, id, CONTROL_STATUS);
    if reg.Err? {
      return Err(reg.error);
    }
    var w := RegisterWriteOn(br, id, CONTROL_STATUS, None, false);
    if w.Err? {
      return Err(w.error);
    }
    var check := RegisterReadOn(br, id, CONTROL_STATUS);
    if check.Err? {
      return Err(check.error);
    }
    r := Err(ReferenceError);
  }

  /** `disable_test_mode`. */
  method TestModeOffOn(br: Bridge, id: string) returns (r: Result<Value>)
    modifies br.i2c
    ensures Out(r, br.i2c.State()) == TestModeOff(br.twin, old(br.i2c.State()), id)
  {
    var x := IdByte(id);
    if x.None? {
      return Err(Unmodelled);
    }
    var m := br.MatchRom(id);
    if m.Err? {
      return Err(m.error);
    }
    var bytes := [TEST_MODE_CMD, x.value, TEST_MODE_END];
    WriteAllOf(br.twin, br.i2c.State(), bytes);
    var w := br.WriteData(bytes, |bytes|);
    if w.Err? {
      return Err(w.error);
    }
    var z := br.ResetWire();
    if z.Err? {
      return Err(z.error);
    }
    r := Ok(Undefined);
  }

  /** `paths[key][0](bridge, id)`. */
  method ReadOn(br: Bridge, id: string, op: Op) returns (r: Result<Value>)
    requires ValidOp(op) && Readable(op)
    modifies br.i2c
    ensures Out(r, br.i2c.State()) == Read(br.twin, old(br.i2c.State()), id, op)
  {
    match op
    case Power =>
      var x := RegisterBitGetOn(br, id, CONTROL_STATUS, VCCP);
      r := if x.Err? then Err(x.error) else Ok(Number(x.value as real));
    case Strobe =>
      var x := RegisterBitGetOn(br, id, CONTROL_STATUS, ROS);
      r := if x.Err? then Err(x.error) else Ok(Number(x.value as real));
    case Por =>
      var x := RegisterBitGetOn(br, id, CONTROL_STATUS, PORL);
      r := if x.Err? then Err(x.error) else Ok(Number(x.value as real));
    case SensedAll =>
      var x := RegisterReadOn(br, id, LOGIC_STATE);
      r := if x.Err? then Err(x.error) else Ok(RegValue(x.value));
    case PioAll =>
      var x := RegisterReadOn(br, id, OUTPUT_LATCH_STATE);
      r := if x.Err? then Err(x.error) else Ok(RegValue(x.value));
    case LatchAll =>
      var x := RegisterReadOn(br, id, ACTIVITY_LATCH_STATE);
      r := if x.Err? then Err(x.error) else Ok(RegValue(x.value));
    case SensedCh(n) =>
      var x := RegisterBitGetOn(br, id, LOGIC_STATE, Mask(n));
      r := if x.Err? then Err(x.error) else Ok(Number(x.value as real));
    case PioCh(n) =>
      var x := RegisterBitGetOn(br, id, OUTPUT_LATCH_STATE, Mask(n));
      r := if x.Err? then Err(x.error) else Ok(Number(x.value as real));
    case LatchCh(n) =>
      var x := RegisterBitGetOn(br, id, ACTIVITY_LATCH_STATE, Mask(n));
      r := if x.Err? then Err(x.error) else Ok(Number(x.value as real));
  }

  /** `paths[key][1](bridge, id, data)`. */
  method WriteOn(br: Bridge, id: string, op: Op, data: int) returns (r: Result<Value>)
    requires ValidOp(op) && Writable(op)
    modifies br.i2c
    ensures Out(r, br.i2c.State()) == Write(br.twin, old(br.i2c.State()), id, op, data)
  {
    match op
    case PioAll =>
      var x := PioChannelSetOn(br, id, 0, data);
      r := if x.Err? then Err(x.error) else Ok(Bool(x.value));
    case PioCh(n) =>
      var x := PioChannelSetOn(br, id, Mask(n), data);
      r := if x.Err? then Err(x.error) else Ok(Bool(x.value));
    case LatchAll =>
      r := LatchResetOn(br, id);
    case Strobe =>
      r := StrobeSetOn(br, id);
    case Por =>
      r := Err(ReferenceError);
    case DisableTestMode =>
      r := TestModeOffOn(br, id);
  }
}
