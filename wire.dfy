/**
 * The bridge's side of the I2C bus, as values. `replies` holds the bytes the DS2482 will answer to
 * the coming one-byte reads, in order; `log` holds every write transaction so far. Each bridge
 * primitive is a function from the bus before to its result and the bus after; the `Bridge`
 * class performs the same steps on its `I2c` object and is proved equal to these functions.
 */
module Wire {
  import opened Bytes
  import opened Results
  import opened Commands

  datatype Bus = Bus(replies: seq<Byte>, log: seq<seq<Byte>>)

  /** What a bridge operation gives back (or throws) together with the bus it leaves. */
  datatype Out<T> = Out(res: Result<T>, bus: Bus)

  /** `c` comes after `b`: replies were only consumed. */
  predicate Later(b: Bus, c: Bus)
  {
    |c.replies| <= |b.replies|
  }

  /** `Later` and, when the operation succeeded, at least one read consumed. */
  predicate Progress<T>(b: Bus, o: Out<T>)
  {
    Later(b, o.bus) && (o.res.Ok? ==> |o.bus.replies| < |b.replies|)
  }

  function Max(a: int, b: int): int
  {
    if a < b then b else a
  }

  /** `_i2cWrite`: one write transaction. */
  function Send(b: Bus, bytes: seq<Byte>): Bus
  {
    Bus(b.replies, b.log + [bytes])
  }

  /** `_i2cRead`: one byte from the bridge, or a failed read when the bus has nothing to say. */
  function I2cRead(b: Bus): Out<Byte>
  {
    if |b.replies| == 0 then Out(Err(IoError), b)
    else Out(Ok(b.replies[0]), Bus(b.replies[1..], b.log))
  }

  /** `_readBridge(reg)`: move the read pointer when a register is named, then read. */
  function ReadBridge(b: Bus, reg: Option<Byte>): Out<Byte>
  {
    I2cRead(if reg.Some? then Send(b, [SET_READ_POINTER, reg.value]) else b)
  }

  /**
   * `_wait(setPointer)`: read the status until its BUSY bit is clear; the first read goes through
   * the status pointer when asked to, later ones are plain reads. The result is that status.
   */
  function Wait(b: Bus, setPointer: bool): (o: Out<Byte>)
    ensures Progress(b, o)
    ensures o.bus.log == b.log + (if setPointer then [[SET_READ_POINTER, REG_STATUS]] else [])
    ensures o.res.Ok? ==> !Has(o.res.value, STATUS_BUSY)
    decreases |b.replies|
  {
    var r := ReadBridge(b, if setPointer then Some(REG_STATUS) else None);
    if r.res.Ok? && Has(r.res.value, STATUS_BUSY) then Wait(r.bus, false) else r
  }

  /** Every status in `ss` has the 1-Wire busy bit set. */
  predicate AllBusy(ss: seq<Byte>)
  {
    ss == [] || (Has(ss[0], STATUS_BUSY) && AllBusy(ss[1..]))
  }

  /** `_wait` answers the first idle status of the script, after any number of busy ones. */
  lemma {:induction false} WaitSkipsBusy(busy: seq<Byte>, s: Byte, rest: seq<Byte>, log: seq<seq<Byte>>, setPointer: bool)
    requires AllBusy(busy) && !Has(s, STATUS_BUSY)
    ensures Wait(Bus(busy + [s] + rest, log), setPointer)
         == Out(Ok(s), Bus(rest, log + (if setPointer then [[SET_READ_POINTER, REG_STATUS]] else [])))
    decreases |busy|
  {
    var log' := log + (if setPointer then [[SET_READ_POINTER, REG_STATUS]] else []);
    if busy == [] {
      assert busy + [s] + rest == [s] + rest;
    } else {
      assert (busy + [s] + rest)[0] == busy[0];
      assert (busy + [s] + rest)[1..] == busy[1..] + [s] + rest;
      var r := ReadBridge(Bus(busy + [s] + rest, log), if setPointer then Some(REG_STATUS) else None);
      assert r == Out(Ok(busy[0]), Bus(busy[1..] + [s] + rest, log'));
      WaitSkipsBusy(busy[1..], s, rest, log', false);
      assert log' + [] == log';
    }
  }

  /** The same with no busy status at all: the simplest scripts the device lemmas are built from. */
  lemma WaitIdle(s: Byte, rest: seq<Byte>, log: seq<seq<Byte>>, setPointer: bool)
    requires !Has(s, STATUS_BUSY)
    ensures Wait(Bus([s] + rest, log), setPointer)
         == Out(Ok(s), Bus(rest, log + (if setPointer then [[SET_READ_POINTER, REG_STATUS]] else [])))
  {
    WaitSkipsBusy([], s, rest, log, setPointer);
  }

  /* ---------------------------------------------------------------------------------------- */
  /* The I2C object                                                                           */

  /**
   * The `i2c` object the bridge is constructed with: `read` hands out the next scripted answer,
   * `write` records one transaction.
   */
  class I2c {
    var replies: seq<Byte>
    var log: seq<seq<Byte>>

    constructor (replies: seq<Byte>)
      ensures State() == Bus(replies, [])
    {
      this.replies := replies;
      this.log := [];
    }

    function State(): Bus
      reads this
    {
      Bus(replies, log)
    }

    /** `_i2cWrite`: the transaction joins the log; nothing is read. */
    method Write(bytes: seq<Byte>)
      modifies this
      ensures State() == Send(old(State()), bytes)
    {
      log := log + [bytes];
    }

    /** `_i2cRead`: the next answer, or a failed read once the script is exhausted. */
    method Read() returns (r: Result<Byte>)
      modifies this
      ensures Out(r, State()) == I2cRead(old(State()))
    {
      if replies == [] {
        r := Err(IoError);
      } else {
        r := Ok(replies[0]);
        replies := replies[1..];
      }
    }
  }

  /* ---------------------------------------------------------------------------------------- */
  /* Single-bit, triplet and resets                                                           */

  /** The byte that asks for a 1 (0x80) or a 0 (0x00) in the single-bit and triplet commands. */
  function DirByte(high: bool): Byte
  {
    if high then 0x80 else 0x00
  }

  /** `triplet(dir)`: the status byte after a search triplet that takes `dir` on a discrepancy. */
  function Triplet(b: Bus, dir: bool): (o: Out<Byte>)
    ensures Progress(b, o)
    ensures o.res.Ok? ==> o.bus.log == b.log + [[SET_READ_POINTER, REG_STATUS], [ONE_WIRE_TRIPLET, DirByte(dir)]]
  {
    var w := Wait(b, true);
    if w.res.Err? then w else Wait(Send(w.bus, [ONE_WIRE_TRIPLET, DirByte(dir)]), false)
  }

  /** `bit(setHigh)`: one time slot; 1 when the status reports the single bit set. */
  function Bit(b: Bus, setHigh: bool): (o: Out<int>)
    ensures Progress(b, o)
    ensures o.res.Ok? ==> (o.res.value == 0 || o.res.value == 1)
    ensures o.res.Ok? ==> o.bus.log == b.log + [[SET_READ_POINTER, REG_STATUS], [ONE_WIRE_SINGLE_BIT, DirByte(setHigh)]]
  {
    var w := Wait(b, true);
    if w.res.Err? then Out(Err(w.res.error), w.bus)
    else
      var r := Wait(Send(w.bus, [ONE_WIRE_SINGLE_BIT, DirByte(setHigh)]), false);
      if r.res.Err? then Out(Err(r.res.error), r.bus)
      else Out(Ok(if Has(r.res.value, STATUS_SINGLE_BIT) then 1 else 0), r.bus)
  }

  /** `_resetBridge`: device reset, then wait; the caller records channel 0 on success. */
  function ResetBridge(b: Bus): (o: Out<Byte>)
    ensures Progress(b, o)
    ensures o.bus.log == b.log + [[DEVICE_RESET]]
  {
    Wait(Send(b, [DEVICE_RESET]), false)
  }

  /** The writes of a 1-Wire reset. */
  const ResetWireLog: seq<seq<Byte>> := [[SET_READ_POINTER, REG_STATUS], [ONE_WIRE_RESET]]

  /**
   * `_resetWire`: a 1-Wire reset pulse; a short on the wire and the absence of any presence pulse
   * are errors, in that order.
   */
  function ResetWire(b: Bus): (o: Out<Byte>)
    ensures Progress(b, o)
    ensures o.res.Ok? ==> o.bus.log == b.log + ResetWireLog
    ensures o.res.Ok? ==> !Has(o.res.value, STATUS_SHORT) && Has(o.res.value, STATUS_PRESENCE)
  {
    var w := Wait(b, true);
    if w.res.Err? then w
    else
      var r := Wait(Send(w.bus, [ONE_WIRE_RESET]), false);
      if r.res.Err? then r
      else if Has(r.res.value, STATUS_SHORT) then Out(Err(BusShort), r.bus)
      else if !Has(r.res.value, STATUS_PRESENCE) then Out(Err(NoDevicePresent), r.bus)
      else r
  }

  /** A reset on a bridge that answers at once: a short is reported before a missing presence pulse. */
  lemma ResetWireOutcome(s0: Byte, s: Byte, rest: seq<Byte>, log: seq<seq<Byte>>)
    requires !Has(s0, STATUS_BUSY) && !Has(s, STATUS_BUSY)
    ensures var o := ResetWire(Bus([s0, s] + rest, log));
      o.bus == Bus(rest, log + ResetWireLog)
      && o.res == (if Has(s, STATUS_SHORT) then Err(BusShort)
                   else if !Has(s, STATUS_PRESENCE) then Err(NoDevicePresent)
                   else Ok(s))
  {
    WaitIdle(s0, [s] + rest, log, true);
    assert [s0, s] + rest == [s0] + ([s] + rest);
    WaitIdle(s, rest, log + [[SET_READ_POINTER, REG_STATUS], [ONE_WIRE_RESET]], false);
  }

  /* ---------------------------------------------------------------------------------------- */
  /* writeData / readData                                                                     */

  /** `data.slice(offset, offset + 1)`: the byte at `offset`, or nothing past the end. */
  function Chunk(data: seq<Byte>, offset: nat): seq<Byte>
  {
    if offset < |data| then [data[offset]] else []
  }

  /** The write-byte transactions for offsets `lo` up to `hi`. */
  function WriteCmds(data: seq<Byte>, lo: nat, hi: nat): (cmds: seq<seq<Byte>>)
    ensures |cmds| == Max(hi - lo, 0)
    ensures forall i :: 0 <= i < |cmds| ==> cmds[i] == [ONE_WIRE_WRITE_BYTE] + Chunk(data, lo + i)
    decreases hi - lo
  {
    if lo >= hi then [] else [[ONE_WIRE_WRITE_BYTE] + Chunk(data, lo)] + WriteCmds(data, lo + 1, hi)
  }

  /** Everything `writeData(data, n)` writes: the status pointer, then one write-byte per offset. */
  function WriteLog(data: seq<Byte>, n: int): seq<seq<Byte>>
  {
    [[SET_READ_POINTER, REG_STATUS]] + WriteCmds(data, 0, Max(n, 1))
  }

  lemma WriteCmdsStep(data: seq<Byte>, lo: nat, hi: nat)
    requires lo < hi
    ensures WriteCmds(data, lo, hi) == [[ONE_WIRE_WRITE_BYTE] + Chunk(data, lo)] + WriteCmds(data, lo + 1, hi)
  {
  }

  /**
   * The loop of `writeData`: one write-byte transaction per offset, at least one even when `n`
   * is not above `offset`, each followed by a wait whose status is the result of the last.
   */
  function WriteLoop(b: Bus, data: seq<Byte>, n: int, offset: nat): (o: Out<Byte>)
    ensures Progress(b, o)
    ensures o.res.Ok? ==> o.bus.log == b.log + WriteCmds(data, offset, Max(n, offset + 1))
    ensures o.res.Ok? ==> !Has(o.res.value, STATUS_BUSY)
    decreases n - offset
  {
    var cmd := [ONE_WIRE_WRITE_BYTE] + Chunk(data, offset);
    var w := Wait(Send(b, cmd), false);
    if w.res.Err? then w
    else if offset + 1 >= n then
      assert WriteCmds(data, offset, offset + 1) == [cmd];
      w
    else
      WriteCmdsStep(data, offset, n);
      assert b.log + WriteCmds(data, offset, n) == w.bus.log + WriteCmds(data, offset + 1, n);
      WriteLoop(w.bus, data, n, offset + 1)
  }

  /**
   * `writeData(data, length)`: wait through the status pointer, then send `data` a byte at a time;
   * `n` is `length`, which defaults to the length of `data`.
   */
  function WriteData(b: Bus, data: seq<Byte>, n: int): (o: Out<Byte>)
    ensures Progress(b, o)
    ensures o.res.Ok? ==> o.bus.log == b.log + WriteLog(data, n)
  {
    var w := Wait(b, true);
    if w.res.Err? then w else WriteLoop(w.bus, data, n, 0)
  }

  /** `writeData(data)` with the default length. */
  function WriteAll(b: Bus, data: seq<Byte>): (o: Out<Byte>)
    ensures Progress(b, o)
    ensures o.res.Ok? ==> o.bus.log == b.log + WriteLog(data, |data|)
  {
    WriteData(b, data, |data|)
  }

  /** `data` extended with zeros to length `m`. */
  function Pad(data: seq<Byte>, m: int): (d: seq<Byte>)
    ensures |d| == Max(|data|, m)
    ensures forall i :: 0 <= i < |d| ==> d[i] == At(data, i)
  {
    data + Zeros(Max(m - |data|, 0))
  }

  /**
   * `writeData` of the `DS2482_X` twin: the byte at each offset is `data[offset]`, which past the
   * end of `data` is `undefined` and goes on the wire as 0. Every write-byte transaction carries
   * one byte, where the first bridge class sends none.
   */
  function WriteDataPadded(b: Bus, data: seq<Byte>, n: int): (o: Out<Byte>)
    ensures Progress(b, o)
    ensures o.res.Ok? ==> o.bus.log == b.log + WriteLog(Pad(data, Max(n, 1)), n)
  {
    WriteData(b, Pad(data, Max(n, 1)), n)
  }

  /** The twin writes `max(n, 1)` write-byte transactions, the `i`-th carrying `data[i]`, or 0 past the end. */
  lemma PaddedWrites(data: seq<Byte>, n: int, i: int)
    requires 0 <= i < Max(n, 1)
    ensures |WriteLog(Pad(data, Max(n, 1)), n)| == 1 + Max(n, 1)
    ensures WriteLog(Pad(data, Max(n, 1)), n)[1 + i] == [ONE_WIRE_WRITE_BYTE, At(data, i)]
  {
    var d := Pad(data, Max(n, 1));
    assert WriteCmds(d, 0, Max(n, 1))[i] == [ONE_WIRE_WRITE_BYTE] + Chunk(d, i);
  }

  /** The transactions of reading `k` bytes: a read-byte command, then the pointer to the data register. */
  function ReadCmds(k: nat): (cmds: seq<seq<Byte>>)
    ensures |cmds| == 2 * k
    ensures forall j :: 0 <= j < |cmds| ==>
      cmds[j] == if j % 2 == 0 then [ONE_WIRE_READ_BYTE] else [SET_READ_POINTER, REG_DATA]
  {
    if k == 0 then [] else [[ONE_WIRE_READ_BYTE], [SET_READ_POINTER, REG_DATA]] + ReadCmds(k - 1)
  }

  /**
   * The loop of `readData(size)`: per byte a read-byte command, a wait, and a read of the data
   * register stored at the next offset. Storing past the end of a zero-length buffer throws.
   */
  function ReadLoop(b: Bus, size: nat, acc: seq<Byte>): (o: Out<seq<Byte>>)
    requires |acc| < size || acc == []
    ensures Progress(b, o)
    ensures o.res.Ok? ==> |o.res.value| == size && acc <= o.res.value
    ensures o.res.Ok? ==> o.bus.log == b.log + ReadCmds(size - |acc|)
    decreases size - |acc|
  {
    var w := Wait(Send(b, [ONE_WIRE_READ_BYTE]), false);
    if w.res.Err? then Out(Err(w.res.error), w.bus)
    else
      var r := ReadBridge(w.bus, Some(REG_DATA));
      if r.res.Err? then Out(Err(r.res.error), r.bus)
      else if |acc| >= size then Out(Err(RangeError), r.bus)
      else
        var acc' := acc + [r.res.value];
        assert r.bus.log == b.log + [[ONE_WIRE_READ_BYTE], [SET_READ_POINTER, REG_DATA]];
        assert b.log + ReadCmds(size - |acc|) == r.bus.log + ReadCmds(size - |acc'|);
        if |acc'| < size then ReadLoop(r.bus, size, acc') else Out(Ok(acc'), r.bus)
  }

  /** One byte of the loop of `readData` once the wait and the data-register read succeeded. */
  lemma ReadLoopStep(b: Bus, size: nat, acc: seq<Byte>, w: Out<Byte>, d: Out<Byte>)
    requires |acc| < size
    requires w == Wait(Send(b, [ONE_WIRE_READ_BYTE]), false) && w.res.Ok?
    requires d == ReadBridge(w.bus, Some(REG_DATA)) && d.res.Ok?
    ensures ReadLoop(b, size, acc)
         == if |acc| + 1 < size then ReadLoop(d.bus, size, acc + [d.res.value]) else Out(Ok(acc + [d.res.value]), d.bus)
  {
  }

  /**
   * `readData(size)` of the first class: exactly `size` bytes, in the order they were read. A
   * zero size still reads one byte, which `writeUInt8` cannot store, so it ends in a RangeError.
   */
  function ReadData(b: Bus, size: nat): (o: Out<seq<Byte>>)
    ensures Progress(b, o)
    ensures o.res.Ok? ==> |o.res.value| == size && size > 0
    ensures o.res.Ok? ==> o.bus.log == b.log + [[SET_READ_POINTER, REG_STATUS]] + ReadCmds(size)
  {
    var w := Wait(b, true);
    if w.res.Err? then Out(Err(w.res.error), w.bus) else ReadLoop(w.bus, size, [])
  }

  /**
   * `readData(0)` of the twin: the same single read-byte transaction, but its zero-length
   * `Uint8Array` drops the byte, and the empty array comes back.
   */
  function ReadNone(b: Bus): (o: Out<seq<Byte>>)
    ensures Progress(b, o)
    ensures o.res.Ok? ==> o.res.value == [] && o.bus.log == b.log + [[SET_READ_POINTER, REG_STATUS]] + ReadCmds(1)
  {
    var w := Wait(b, true);
    if w.res.Err? then Out(Err(w.res.error), w.bus)
    else
      var v := Wait(Send(w.bus, [ONE_WIRE_READ_BYTE]), false);
      if v.res.Err? then Out(Err(v.res.error), v.bus)
      else
        var r := ReadBridge(v.bus, Some(REG_DATA));
        if r.res.Err? then Out(Err(r.res.error), r.bus) else Out(Ok([]), r.bus)
  }

  /**
   * The two classes do the same transactions for a zero-size read: where the twin hands back an
   * empty array, the first class throws a RangeError; a failed transaction fails both alike.
   */
  lemma ZeroSizeReads(b: Bus)
    ensures ReadData(b, 0).bus == ReadNone(b).bus
    ensures ReadNone(b).res.Ok? ==> ReadData(b, 0).res == Err(RangeError)
    ensures ReadNone(b).res.Err? ==> ReadData(b, 0).res == ReadNone(b).res
  {
    var w := Wait(b, true);
    if w.res.Ok? {
      assert ReadData(b, 0) == ReadLoop(w.bus, 0, []);
    }
  }

  /* ---------------------------------------------------------------------------------------- */
  /* Idle bridges                                                                             */

  function Zeros(k: nat): (s: seq<Byte>)
    ensures |s| == k && forall i :: 0 <= i < k ==> s[i] == 0
  {
    if k == 0 then [] else [0] + Zeros(k - 1)
  }

  /** What an idle bridge answers while `readData` collects `ds`: a ready status, then each byte. */
  function ReadScript(ds: seq<Byte>): (s: seq<Byte>)
    ensures |s| == 2 * |ds|
  {
    if ds == [] then [] else [0, ds[0]] + ReadScript(ds[1..])
  }

  /** On a bridge that is never busy, `writeData` consumes one status per wait and returns 0. */
  /** One write-byte of `writeData` on an idle bridge: one ready status. */
  lemma WriteLoopOne(data: seq<Byte>, n: int, offset: nat, more: seq<Byte>, log: seq<seq<Byte>>)
    ensures var b1 := Bus(more, log + [[ONE_WIRE_WRITE_BYTE] + Chunk(data, offset)]);
      WriteLoop(Bus([0] + more, log), data, n, offset)
        == if offset + 1 < n then WriteLoop(b1, data, n, offset + 1) else Out(Ok(0), b1)
  {
    WaitIdle(0, more, log + [[ONE_WIRE_WRITE_BYTE] + Chunk(data, offset)], false);
  }

  lemma WriteCmdsLog(log: seq<seq<Byte>>, data: seq<Byte>, offset: nat, n: nat)
    requires offset < n
    ensures log + [[ONE_WIRE_WRITE_BYTE] + Chunk(data, offset)] + WriteCmds(data, offset + 1, n)
         == log + WriteCmds(data, offset, n)
  {
    WriteCmdsStep(data, offset, n);
  }

  lemma ZerosCons(k: nat, rest: seq<Byte>)
    requires k >= 1
    ensures Zeros(k) + rest == [0] + (Zeros(k - 1) + rest)
  {
  }

  lemma {:induction false} WriteLoopIdle(data: seq<Byte>, n: int, offset: nat, rest: seq<Byte>, log: seq<seq<Byte>>)
    ensures var k := Max(n, offset + 1) - offset;
      WriteLoop(Bus(Zeros(k) + rest, log), data, n, offset)
        == Out(Ok(0), Bus(rest, log + WriteCmds(data, offset, Max(n, offset + 1))))
    decreases n - offset
  {
    var k := Max(n, offset + 1) - offset;
    var cmd := [ONE_WIRE_WRITE_BYTE] + Chunk(data, offset);
    var log1 := log + [cmd];
    ZerosCons(k, rest);
    WriteLoopOne(data, n, offset, Zeros(k - 1) + rest, log);
    if offset + 1 < n {
      WriteLoopIdle(data, n, offset + 1, rest, log1);
      WriteCmdsLog(log, data, offset, n);
    } else {
      assert k == 1 && Zeros(0) + rest == rest;
      assert WriteCmds(data, offset, offset + 1) == [cmd];
    }
  }

  /** `writeData` on an idle bridge writes exactly `WriteLog(data, n)` and reads `1 + max(n, 1)` statuses. */
  lemma WriteDataIdle(data: seq<Byte>, n: int, rest: seq<Byte>, log: seq<seq<Byte>>)
    ensures WriteData(Bus(Zeros(1 + Max(n, 1)) + rest, log), data, n)
         == Out(Ok(0), Bus(rest, log + WriteLog(data, n)))
  {
    assert Zeros(1 + Max(n, 1)) + rest == [0] + (Zeros(Max(n, 1)) + rest);
    WaitIdle(0, Zeros(Max(n, 1)) + rest, log, true);
    WriteLoopIdle(data, n, 0, rest, log + [[SET_READ_POINTER, REG_STATUS]]);
  }

  /** One byte of `readData` on an idle bridge: a ready status, then the byte. */
  lemma ReadLoopOne(size: nat, acc: seq<Byte>, d: Byte, more: seq<Byte>, log: seq<seq<Byte>>)
    requires |acc| < size
    ensures var b1 := Bus(more, log + [[ONE_WIRE_READ_BYTE], [SET_READ_POINTER, REG_DATA]]);
      ReadLoop(Bus([0, d] + more, log), size, acc)
        == if |acc| + 1 < size then ReadLoop(b1, size, acc + [d]) else Out(Ok(acc + [d]), b1)
  {
    var log1 := log + [[ONE_WIRE_READ_BYTE]];
    assert [0, d] + more == [0] + ([d] + more);
    WaitIdle(0, [d] + more, log1, false);
    assert ([d] + more)[1..] == more;
    assert log1 + [[SET_READ_POINTER, REG_DATA]] == log + [[ONE_WIRE_READ_BYTE], [SET_READ_POINTER, REG_DATA]];
  }

  lemma {:induction false} ReadLoopIdle(size: nat, acc: seq<Byte>, ds: seq<Byte>, rest: seq<Byte>, log: seq<seq<Byte>>)
    requires |ds| >= 1 && |acc| + |ds| == size
    ensures ReadLoop(Bus(ReadScript(ds) + rest, log), size, acc)
         == Out(Ok(acc + ds), Bus(rest, log + ReadCmds(|ds|)))
    decreases |ds|
  {
    var log2 := log + [[ONE_WIRE_READ_BYTE], [SET_READ_POINTER, REG_DATA]];
    var more := ReadScript(ds[1..]) + rest;
    ReadScriptCons(ds, rest);
    ReadLoopOne(size, acc, ds[0], more, log);
    ReadCmdsCons(log, |ds|);
    SnocTail(acc, ds);
    if |ds| > 1 {
      ReadLoopIdle(size, acc + [ds[0]], ds[1..], rest, log2);
    } else {
      assert ds[1..] == [] && more == rest && [ds[0]] == ds;
      assert log2 + ReadCmds(0) == log2;
    }
  }

  lemma ReadScriptCons(ds: seq<Byte>, rest: seq<Byte>)
    requires |ds| >= 1
    ensures ReadScript(ds) + rest == [0, ds[0]] + (ReadScript(ds[1..]) + rest)
  {
  }

  lemma ReadCmdsCons(log: seq<seq<Byte>>, k: nat)
    requires k >= 1
    ensures log + ReadCmds(k) == log + [[ONE_WIRE_READ_BYTE], [SET_READ_POINTER, REG_DATA]] + ReadCmds(k - 1)
  {
  }

  lemma SnocTail<T>(acc: seq<T>, ds: seq<T>)
    requires |ds| >= 1
    ensures acc + [ds[0]] + ds[1..] == acc + ds
  {
    assert [ds[0]] + ds[1..] == ds;
  }

  lemma ReadDataAfterWait(b: Bus, size: nat, c: Bus, r: Out<seq<Byte>>)
    requires Wait(b, true) == Out(Ok(0), c) && ReadLoop(c, size, []) == r
    ensures ReadData(b, size) == r
  {
  }

  /** `readData` on an idle bridge returns exactly the bytes of the script, in order. */
  lemma ReadDataIdle(ds: seq<Byte>, rest: seq<Byte>, log: seq<seq<Byte>>)
    requires |ds| >= 1
    ensures ReadData(Bus([0] + (ReadScript(ds) + rest), log), |ds|)
         == Out(Ok(ds), Bus(rest, log + [[SET_READ_POINTER, REG_STATUS]] + ReadCmds(|ds|)))
  {
    var rest1 := ReadScript(ds) + rest;
    var log1 := log + [[SET_READ_POINTER, REG_STATUS]];
    WaitIdle(0, rest1, log, true);
    ReadLoopIdle(|ds|, [], ds, rest, log1);
    assert [] + ds == ds;
    ReadDataAfterWait(Bus([0] + rest1, log), |ds|, Bus(rest1, log1), Out(Ok(ds), Bus(rest, log1 + ReadCmds(|ds|))));
  }
}
