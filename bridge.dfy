/**
 * The bridge object: the `DS2482` class of mcu/ds2482.js, and with `twin` set the `DS2482_X`
 * class of mcu/ds2482_Y.js, which differs in `writeData` past the end of its data and in the
 * text-only `matchROM`. The fields are the ones the driver updates (`channel`, the search
 * cursor, the worker cache); the bus lives in the `I2c` object. Every method is proved to do
 * what the function of the same name in `Wire`, `OneWire` or `Control` says.
 */
module Ds2482 {
  import opened Bytes
  import opened Results
  import opened Commands
  import opened Crc
  import opened Wire
  import opened OneWire
  import opened Control

  /** The decoder modules a manifest can name for a family code. */
  datatype Decoder = Ds2408 | Ds18b20 | Ds2438

  /** What a worker is an instance of: a decoder, or the generic placeholder of unknown families. */
  datatype Kind = Device(decoder: Decoder) | Generic

  /** A worker object; `serial` tells apart instances created by `new`. */
  datatype Worker = Worker(kind: Kind, serial: nat)

  /** What a path handler gives back: `undefined`, a number, a boolean or a byte buffer. */
  datatype Value = Undefined | Number(x: real) | Bool(b: bool) | Bytes(bytes: seq<Byte>)

  /**
   * The router's cache: `#workers` by family code, the one generic instance kept under
   * `'*generic*'` in `#modules`, and the number of worker objects created so far.
   */
  datatype WorkerCache = WorkerCache(workers: map<string, Worker>, generic: Option<Worker>, created: nat)

  const EmptyCache := WorkerCache(map[], None, 0)

  /**
   * What the cache keeps true: a family named by the manifest holds an instance of its decoder,
   * any other family holds the shared generic instance, every instance predates `created`, and
   * a family of the manifest shares its instance with no other family and not with the generic.
   */
  ghost predicate CacheValid(c: WorkerCache, manifest: map<string, Decoder>)
  {
    (c.generic.Some? ==> c.generic.value.kind == Generic && c.generic.value.serial < c.created)
    && (forall f :: f in c.workers ==> c.workers[f].serial < c.created)
    && (forall f :: f in c.workers && f in manifest ==> c.workers[f].kind == Device(manifest[f]))
    && (forall f :: f in c.workers && f !in manifest ==> c.generic == Some(c.workers[f]))
    && (forall f :: f in c.workers && f in manifest && c.generic.Some? ==> c.workers[f].serial != c.generic.value.serial)
    && (forall f, g :: f in c.workers && g in c.workers && f != g && f in manifest ==>
          c.workers[f].serial != c.workers[g].serial)
  }

  datatype Lookup = Lookup(worker: Worker, cache: WorkerCache)

  /**
   * `#get_worker(family)`: the cached worker; otherwise a new instance of the manifest's decoder,
   * or the generic instance, created on first need; either way remembered for the family.
   */
  function LookupWorker(c: WorkerCache, manifest: map<string, Decoder>, family: string): (l: Lookup)
    ensures l.cache.workers == c.workers[family := l.worker]
    ensures family in c.workers ==> l == Lookup(c.workers[family], c)
    ensures family !in c.workers && family in manifest ==>
      l.worker.kind == Device(manifest[family]) && l.worker.serial == c.created && l.cache.created == c.created + 1
    ensures family !in c.workers && family !in manifest ==>
      l.cache.generic == Some(l.worker) && (c.generic.Some? ==> l.worker == c.generic.value)
  {
    if family in c.workers then Lookup(c.workers[family], c)
    else if family in manifest then
      var w := Worker(Device(manifest[family]), c.created);
      Lookup(w, WorkerCache(c.workers[family := w], c.generic, c.created + 1))
    else if c.generic.Some? then
      Lookup(c.generic.value, WorkerCache(c.workers[family := c.generic.value], c.generic, c.created))
    else
      var g := Worker(Generic, c.created);
      Lookup(g, WorkerCache(c.workers[family := g], Some(g), c.created + 1))
  }

  /** A lookup keeps the cache valid and hands out a worker of the kind the manifest asks for. */
  lemma GetWorkerValid(c: WorkerCache, manifest: map<string, Decoder>, family: string)
    requires CacheValid(c, manifest)
    ensures var l := LookupWorker(c, manifest, family);
      CacheValid(l.cache, manifest)
      && l.worker.kind == (if family in manifest then Device(manifest[family]) else Generic)
  {
    var l := LookupWorker(c, manifest, family);
    if family !in c.workers {
      forall f, g | f in l.cache.workers && g in l.cache.workers && f != g && f in manifest
        ensures l.cache.workers[f].serial != l.cache.workers[g].serial
      {
        if f != family && g != family {
          assert l.cache.workers[f] == c.workers[f] && l.cache.workers[g] == c.workers[g];
        }
      }
    }
  }

  /** Every family outside the manifest is served by one and the same generic instance. */
  lemma GenericShared(c: WorkerCache, manifest: map<string, Decoder>, f: string, g: string)
    requires CacheValid(c, manifest) && f !in manifest && g !in manifest
    ensures var l := LookupWorker(c, manifest, f);
      LookupWorker(l.cache, manifest, g).worker == l.worker
  {
    GetWorkerValid(c, manifest, f);
  }

  /** A family of the manifest gets an instance of its own, distinct from every other family's. */
  lemma MappedDistinct(c: WorkerCache, manifest: map<string, Decoder>, f: string, g: string)
    requires CacheValid(c, manifest) && f in manifest && f != g
    ensures var l := LookupWorker(c, manifest, f);
      LookupWorker(l.cache, manifest, g).worker != l.worker
  {
    var l := LookupWorker(c, manifest, f);
    GetWorkerValid(c, manifest, f);
    var l2 := LookupWorker(l.cache, manifest, g);
    if g in l.cache.workers {
      assert l.cache.workers[f].serial != l.cache.workers[g].serial;
    }
  }

  /** `writeData` of the bridge class at hand. */
  function WriteDataOf(twin: bool, b: Bus, data: seq<Byte>, n: int): (o: Out<Byte>)
    ensures Progress(b, o)
  {
    if twin then WriteDataPadded(b, data, n) else WriteData(b, data, n)
  }

  /** Both classes write a non-empty buffer with its own length alike. */
  lemma WriteAllOf(twin: bool, b: Bus, data: seq<Byte>)
    requires |data| >= 1
    ensures WriteDataOf(twin, b, data, |data|) == WriteAll(b, data)
  {
    assert Pad(data, Max(|data|, 1)) == data;
  }

  /**
   * `readData(size)` of the bridge class at hand: the two agree on every size but 0, where the
   * twin gives back an empty array and the first class throws.
   */
  function ReadDataOf(twin: bool, b: Bus, size: nat): (o: Out<seq<Byte>>)
    ensures Progress(b, o)
    ensures size > 0 || !twin ==> o == ReadData(b, size)
    ensures size == 0 && twin ==> o == ReadNone(b)
    ensures o.res.Ok? ==> |o.res.value| == size
  {
    if twin && size == 0 then ReadNone(b) else ReadData(b, size)
  }

  /** `matchROM(id)` of the bridge class at hand. */
  function MatchRomOf(twin: bool, b: Bus, id: string): (o: Out<Byte>)
    ensures Later(b, o.bus)
    ensures o.res.Ok? ==>
      |HexDecode(id)| == 8 && o.bus.log == b.log + ResetWireLog + WriteLog([ONE_WIRE_MATCH_ROM], 1) + WriteLog(HexDecode(id), 8)
  {
    if twin then MatchRomText(b, id) else MatchRomId(b, id)
  }

  /** The byte `writeData` sends at `offset`: the data's, or 0 past its end in the twin, or none. */
  lemma ChunkOf(twin: bool, data: seq<Byte>, n: int, offset: nat)
    requires offset < Max(n, 1)
    ensures Chunk(if twin then Pad(data, Max(n, 1)) else data, offset)
         == if offset < |data| then [data[offset]] else if twin then [0] else []
  {
  }

  /** `dir ? part | mask : part & ~mask`: the byte with the bits of `mask` set or cleared. */
  function WriteMasked(part: Byte, mask: Byte, dir: bool): (y: Byte)
    ensures y & mask == if dir then mask else 0
    ensures y & !mask == part & !mask
  {
    if dir then part | mask else part & !mask
  }

  /** The direction `searchNextBit` computes from `offset` and `mask` is `Direction` at `bit`. */
  lemma DirectionByMask(c: Cursor, bit: int, offset: int, k: int, mask: Byte)
    requires 1 <= bit <= 64 && 0 <= k < 8 && bit - 1 == 8 * offset + k && mask == Mask(k)
    ensures Direction(c, bit)
         == if c.lastFound.Some? && bit < c.lastConflict then Has(c.lastFound.value[offset], mask)
            else bit == c.lastConflict
  {
    assert (bit - 1) / 8 == offset && (bit - 1) % 8 == k;
  }

  /** The byte `searchNextBit` writes through `mask` is the step's new ROM byte. */
  lemma StepByMask(p: Partial, bit: int, status: Byte, offset: int, k: int, mask: Byte, written: Byte)
    requires 1 <= bit <= 64 && 0 <= k < 8 && bit - 1 == 8 * offset + k && mask == Mask(k)
    requires !(Has(status, STATUS_SINGLE_BIT) && Has(status, STATUS_TRIPLE_BIT))
    requires written == WriteMasked(p.rom[offset], mask, Has(status, STATUS_BRANCH_DIR))
    ensures Step(p, bit, status)
         == Ok(Partial(p.rom[offset := written], if ZeroConflict(status) then bit else p.conflict))
  {
    assert (bit - 1) / 8 == offset && (bit - 1) % 8 == k;
    assert written == WithBit(p.rom[offset], k, Has(status, STATUS_BRANCH_DIR));
  }

  /** `mask <<= 1` and the carry into the next byte after bit 7: the position of the next bit. */
  method NextPosition(offset: int, mask: Byte, ghost k: int) returns (offset': int, mask': Byte, ghost k': int)
    requires 0 <= k < 8 && mask == Mask(k)
    ensures offset' == if k == 7 then offset + 1 else offset
    ensures 0 <= k' < 8 && 8 * offset' + k' == 8 * offset + k + 1 && mask' == Mask(k')
  {
    if mask == 0x80 {
      offset', mask', k' := offset + 1, 1, 0;
    } else {
      offset', mask', k' := offset, mask << 1, k + 1;
    }
  }

  /** `sendCommand(cmd, rom)` of the bridge class at hand. */
  function SendCommandOf(twin: bool, b: Bus, cmd: Byte, rom: Option<string>): (o: Out<Byte>)
    ensures Later(b, o.bus)
    ensures !twin ==> o == SendCommand(b, cmd, rom)
    ensures o.res.Ok? && Addressed(rom) ==>
      o.bus.log == b.log + ResetWireLog + WriteLog([ONE_WIRE_MATCH_ROM], 1) + WriteLog(HexDecode(rom.value), 8) + WriteLog([cmd], 1)
    ensures o.res.Ok? && !Addressed(rom) ==>
      o.bus.log == b.log + ResetWireLog + WriteLog([ONE_WIRE_SKIP_ROM], 1) + WriteLog([cmd], 1)
    ensures twin && Addressed(rom) && (|rom.value| != 16 || (rom.value[0] == '0' && rom.value[1] == '0'))
      ==> o == Out(Err(RomInvalid), b)
  {
    if !twin then SendCommand(b, cmd, rom)
    else
      var a := if Addressed(rom) then MatchRomText(b, rom.value) else SkipRom(b);
      if a.res.Err? then a else WriteAll(a.bus, [cmd])
  }

  /** The options `strongPullup()` passes to `configureBridge`. */
  const StrongOnly := Options(false, true, false)

  /**
   * `bridge.strongPullup()` as the classes are written: `DS2482` declares a bare class field
   * `strongPullup`, which every instance owns with the value `undefined` and which hides the
   * method of the same name, so the call throws a TypeError; `DS2482_X` has no such field.
   */
  function StrongPullupAsWritten(twin: bool, b: Bus): (o: Out<Option<Byte>>)
    ensures Later(b, o.bus)
    ensures !twin ==> o.res == Err(TypeError) && o.bus == b
  {
    if twin then ConfigureBridge(b, StrongOnly, false) else Out(Err(TypeError), b)
  }

  /**
   * On a bridge that answers at once, the strong pull-up of the classic class is never switched
   * on: the call fails without a transaction, where the method it hides writes the
   * configuration with the strong pull-up bit set.
   */
  lemma StrongPullupShadowed(s: Byte, config: Byte, rest: seq<Byte>, log: seq<seq<Byte>>)
    requires !Has(s, STATUS_BUSY)
    ensures var b := Bus([s, config] + rest, log);
      StrongPullupAsWritten(false, b) == Out(Err(TypeError), b)
      && StrongPullupAsWritten(true, b) == Out(Ok(None), Bus(rest, log + ConfigureLog(ApplyOptions(config & 0x0F, StrongOnly))))
      && Has(ApplyOptions(config & 0x0F, StrongOnly), CONFIG_STRONG)
  {
    var b := Bus([s, config] + rest, log);
    WaitIdle(s, [config] + rest, log, true);
    assert [s, config] + rest == [s] + ([config] + rest);
  }

  class Bridge {
    const i2c: I2c
    const twin: bool
    /** The manifest's table from family code to decoder module (`#modules4devices`). */
    const manifest: map<string, Decoder>
    var channel: Recorded
    var lastFound: Option<Rom>
    var lastConflict: int
    /** `#workers`, the generic instance kept in `#modules`, and the number of workers created. */
    var workers: map<string, Worker>
    var generic: Option<Worker>
    var created: nat
    /** `#devices`: the ids of the last `paths` listing. */
    var devices: seq<string>

    constructor (i2c: I2c, manifest: map<string, Decoder>, twin: bool)
      ensures this.i2c == i2c && this.manifest == manifest && this.twin == twin
      ensures channel == Null && Cursor() == Start
      ensures CacheState() == EmptyCache && Valid() && devices == []
    {
      this.i2c := i2c;
      this.manifest := manifest;
      this.twin := twin;
      channel := Null;
      lastFound := None;
      lastConflict := 0;
      workers := map[];
      generic := None;
      created := 0;
      devices := [];
    }

    /** The search cursor held in `lastFound` and `lastConflict`. */
    function Cursor(): Cursor
      reads this
    {
      OneWire.Cursor(lastFound, lastConflict)
    }

    /** The worker cache held in `workers`, `generic` and `created`. */
    function CacheState(): WorkerCache
      reads this
    {
      WorkerCache(workers, generic, created)
    }

    /** The cache is valid for this bridge's manifest. */
    ghost predicate Valid()
      reads this
    {
      CacheValid(CacheState(), manifest)
    }

    /* -------------------------------------------------------------------------------------- */
    /* Bus primitives                                                                          */

    method ReadBridge(reg: Option<Byte>) returns (r: Result<Byte>)
      modifies i2c
      ensures Out(r, i2c.State()) == Wire.ReadBridge(old(i2c.State()), reg)
    {
      if reg.Some? {
        i2c.Write([SET_READ_POINTER, reg.value]);
      }
      r := i2c.Read();
    }

    /** `_wait`: the do-while over status reads; only the first goes through the pointer. */
    method Wait(setPointer: bool) returns (r: Result<Byte>)
      modifies i2c
      ensures Out(r, i2c.State()) == Wire.Wait(old(i2c.State()), setPointer)
    {
      ghost var target := Wire.Wait(i2c.State(), setPointer);
      r := ReadBridge(if setPointer then Some(REG_STATUS) else None);
      while r.Ok? && Has(r.value, STATUS_BUSY)
        invariant (if r.Ok? && Has(r.value, STATUS_BUSY) then Wire.Wait(i2c.State(), false) else Out(r, i2c.State())) == target
        decreases |i2c.replies| + (if r.Ok? && Has(r.value, STATUS_BUSY) then 1 else 0)
      {
        r := ReadBridge(None);
      }
    }

    /**
     * `writeData(data, length)`: wait through the status pointer, then a write-byte transaction per
     * offset until `offset` reaches `n`, always at least one.
     */
    method WriteData(data: seq<Byte>, n: int) returns (r: Result<Byte>)
      modifies i2c
      ensures Out(r, i2c.State()) == WriteDataOf(twin, old(i2c.State()), data, n)
    {
      ghost var d := if twin then Pad(data, Max(n, 1)) else data;
      ghost var target := Wire.WriteData(i2c.State(), d, n);
      r := Wait(true);
      if r.Err? {
        return;
      }
      var offset := 0;
      while true
        invariant offset < Max(n, 1)
        invariant WriteLoop(i2c.State(), d, n, offset) == target
        decreases n - offset
      {
        var chunk := if offset < |data| then [data[offset]] else if twin then [0] else [];
        ChunkOf(twin, data, n, offset);
        ghost var b := i2c.State();
        i2c.Write([ONE_WIRE_WRITE_BYTE] + chunk);
        r := Wait(false);
        assert Out(r, i2c.State()) == Wire.Wait(Send(b, [ONE_WIRE_WRITE_BYTE] + Chunk(d, offset)), false);
        if r.Err? {
          return;
        }
        offset := offset + 1;
        if offset >= n {
          return;
        }
      }
    }

    /**
     * `readData(size)`: a read-byte command, a wait and a data-register read per byte of the
     * buffer; storing the byte of a zero-size read throws on the first class only.
     */
    method ReadData(size: nat) returns (r: Result<seq<Byte>>)
      modifies i2c
      ensures Out(r, i2c.State()) == ReadDataOf(twin, old(i2c.State()), size)
    {
      ghost var b0 := i2c.State();
      ghost var target := Wire.ReadData(b0, size);
      var data := new Byte[size];
      var w := Wait(true);
      if w.Err? {
        return Err(w.error);
      }
      ghost var b1 := i2c.State();
      var offset := 0;
      while true
        invariant offset < size || offset == 0
        invariant ReadLoop(i2c.State(), size, data[..offset]) == target
        invariant size == 0 ==> i2c.State() == b1
        decreases size - offset
      {
        ghost var b := i2c.State();
        i2c.Write([ONE_WIRE_READ_BYTE]);
        w := Wait(false);
        ghost var b1 := i2c.State();
        assert Out(w, b1) == Wire.Wait(Send(b, [ONE_WIRE_READ_BYTE]), false);
        if w.Err? {
          return Err(w.error);
        }
        var resp := ReadBridge(Some(REG_DATA));
        assert Out(resp, i2c.State()) == Wire.ReadBridge(b1, Some(REG_DATA));
        if resp.Err? {
          return Err(resp.error);
        }
        if offset >= size {
          if twin {
            assert Out(Ok([]), i2c.State()) == ReadNone(b0);
            return Ok([]);
          }
          return Err(RangeError);
        }
        ReadLoopStep(b, size, data[..offset], Out(w, b1), Out(resp, i2c.State()));
        data[offset] := resp.value;
        assert data[..offset + 1] == data[..offset] + [resp.value];
        offset := offset + 1;
        if offset >= size {
          assert data[..] == data[..offset];
          return Ok(data[..]);
        }
      }
    }

    method Triplet(dir: bool) returns (r: Result<Byte>)
      modifies i2c
      ensures Out(r, i2c.State()) == Wire.Triplet(old(i2c.State()), dir)
    {
      r := Wait(true);
      if r.Err? {
        return;
      }
      i2c.Write([ONE_WIRE_TRIPLET, DirByte(dir)]);
      r := Wait(false);
    }

    method Bit(setHigh: bool) returns (r: Result<int>)
      modifies i2c
      ensures Out(r, i2c.State()) == Wire.Bit(old(i2c.State()), setHigh)
    {
      var w := Wait(true);
      if w.Err? {
        return Err(w.error);
      }
      i2c.Write([ONE_WIRE_SINGLE_BIT, DirByte(setHigh)]);
      w := Wait(false);
      if w.Err? {
        return Err(w.error);
      }
      r := Ok(if Has(w.value, STATUS_SINGLE_BIT) then 1 else 0);
    }

    method ResetBridge() returns (r: Result<Byte>)
      modifies this, i2c
      ensures ChannelOut(r, i2c.State(), channel) == ResetBridgeChannel(old(i2c.State()), old(channel))
      ensures Cursor() == old(Cursor())
      ensures CacheState() == old(CacheState()) && devices == old(devices)
    {
      i2c.Write([DEVICE_RESET]);
      r := Wait(false);
      if r.Ok? {
        channel := Num(0);
      }
    }

    method ResetWire() returns (r: Result<Byte>)
      modifies i2c
      ensures Out(r, i2c.State()) == Wire.ResetWire(old(i2c.State()))
    {
      r := Wait(true);
      if r.Err? {
        return;
      }
      i2c.Write([ONE_WIRE_RESET]);
      r := Wait(false);
      if r.Err? {
        return;
      }
      if Has(r.value, STATUS_SHORT) {
        r := Err(BusShort);
      } else if !Has(r.value, STATUS_PRESENCE) {
        r := Err(NoDevicePresent);
      }
    }

    /** `reset` (and `init`): clear the cursor, reset the bridge, then the wire. */
    method Reset() returns (r: Result<Byte>)
      modifies this, i2c
      ensures Cursor() == Start
      ensures CacheState() == old(CacheState()) && devices == old(devices)
      ensures var rb := ResetBridgeChannel(old(i2c.State()), old(channel));
        channel == rb.channel
        && Out(r, i2c.State()) == if rb.res.Err? then Out(rb.res, rb.bus) else Wire.ResetWire(rb.bus)
    {
      lastFound := None;
      lastConflict := 0;
      r := ResetBridge();
      if r.Err? {
        return;
      }
      r := ResetWire();
    }

    /* -------------------------------------------------------------------------------------- */
    /* Configuration and channels                                                             */

    method ConfigureBridge(o: Options, confirm: bool) returns (r: Result<Option<Byte>>)
      modifies i2c
      ensures Out(r, i2c.State()) == Control.ConfigureBridge(old(i2c.State()), o, confirm)
    {
      var w := Wait(true);
      if w.Err? {
        return Err(w.error);
      }
      i2c.Write([SET_READ_POINTER, REG_CONFIG]);
      var rd := i2c.Read();
      if rd.Err? {
        return Err(rd.error);
      }
      var config := ApplyOptions(rd.value & 0x0F, o);
      i2c.Write([WRITE_CONFIG, ConfigByte(config)]);
      if !confirm {
        return Ok(None);
      }
      var resp := ReadBridge(None);
      if resp.Err? {
        return Err(resp.error);
      }
      if resp.value != config {
        return Err(ConfigMismatch);
      }
      r := Ok(Some(resp.value));
    }

    /** `strongPullup()`: `configureBridge({strongPullup: true})`, without confirmation. */
    method StrongPullup() returns (r: Result<Option<Byte>>)
      modifies i2c
      ensures Out(r, i2c.State()) == Control.ConfigureBridge(old(i2c.State()), Options(false, true, false), false)
    {
      r := ConfigureBridge(Options(false, true, false), false);
    }

    /**
     * `bridge.strongPullup()` as a caller of either class makes it: on the first class the bare
     * field of that name hides the method and the call throws; the twin runs the method.
     */
    method CallStrongPullup() returns (r: Result<Option<Byte>>)
      modifies i2c
      ensures Out(r, i2c.State()) == StrongPullupAsWritten(twin, old(i2c.State()))
    {
      if !twin {
        return Err(TypeError);
      }
      r := StrongPullup();
    }

    /**
     * `selectChannel(num)` with the selection sent as the Channel Select command; the code as
     * written is `Control.SelectChannelAsWritten`.
     */
    method SelectChannel(num: Option<int>) returns (r: Result<Byte>)
      modifies this, i2c
      ensures ChannelOut(r, i2c.State(), channel) == Control.SelectChannel(old(i2c.State()), old(channel), num)
      ensures Cursor() == old(Cursor())
      ensures CacheState() == old(CacheState()) && devices == old(devices)
    {
      var ch := Control.SelectionCode(Control.ChannelIndex(num));
      if ch.None? {
        return Err(InvalidChannel);
      }
      if channel == Control.Given(num) {
        return Ok(ch.value.read);
      }
      var w := Wait(true);
      if w.Err? {
        return Err(w.error);
      }
      i2c.Write([CHANNEL_SELECT, ch.value.write]);
      r := ReadBridge(None);
      if r.Err? {
        return;
      }
      if r.value != ch.value.read {
        return Err(ChannelSelectFailed);
      }
      channel := Control.Given(num);
    }

    /* -------------------------------------------------------------------------------------- */
    /* ROM commands                                                                            */

    /**
     * One bit of `searchNextBit`: the triplet in the direction the cursor asks for, a bad answer
     * rejected, the discrepancy noted and the branch taken written into `rom` through `mask`.
     */
    method NextBit(rom: array<Byte>, offset: int, ghost k: int, mask: Byte, bit: int, conflict: int)
      returns (r: Result<int>)
      requires rom.Length == 8 && 1 <= bit <= 64 && 0 <= conflict < bit
      requires 0 <= k < 8 && bit - 1 == 8 * offset + k && mask == Mask(k)
      modifies i2c, rom
      ensures r.Ok? ==> 0 <= r.value <= bit
      ensures var p := Pass(old(i2c.State()), Cursor(), bit, Partial(old(rom[..]), conflict));
        if r.Ok? then p == Pass(i2c.State(), Cursor(), bit + 1, Partial(rom[..], r.value))
        else p == Out(Err(r.error), i2c.State())
    {
      ghost var b, c := i2c.State(), Cursor();
      ghost var p := Partial(rom[..], conflict);
      var d := if lastFound.Some? && bit < lastConflict then Has(lastFound.value[offset], mask)
               else bit == lastConflict;
      DirectionByMask(c, bit, offset, k, mask);
      var t := Triplet(d);
      if t.Err? {
        return Err(t.error);
      }
      ghost var b1 := i2c.State();
      r := RecordBit(rom, offset, k, mask, t.value, bit, conflict);
      PassStep(b, c, bit, p, t.value, b1);
    }

    /**
     * The rest of `searchNextBit` once the triplet answered `status`: a bad answer rejected,
     * otherwise the discrepancy noted and the branch taken written into `rom` through `mask`.
     */
    method RecordBit(rom: array<Byte>, offset: int, ghost k: int, mask: Byte, status: Byte, bit: int, conflict: int)
      returns (r: Result<int>)
      requires rom.Length == 8 && 1 <= bit <= 64 && 0 <= conflict < bit
      requires 0 <= k < 8 && bit - 1 == 8 * offset + k && mask == Mask(k)
      modifies rom
      ensures r.Ok? ==> 0 <= r.value <= bit
      ensures var s := Step(Partial(old(rom[..]), conflict), bit, status);
        if r.Ok? then s == Ok(Partial(rom[..], r.value)) else s.Err? && r.error == s.error
    {
      var sbr := Has(status, STATUS_SINGLE_BIT);
      var tsb := Has(status, STATUS_TRIPLE_BIT);
      var dir := Has(status, STATUS_BRANCH_DIR);
      if sbr && tsb {
        return Err(BadSearchResult);
      }
      r := Ok(if !sbr && !tsb && !dir then bit else conflict);
      var written := WriteMasked(rom[offset], mask, dir);
      StepByMask(Partial(rom[..], conflict), bit, status, offset, k, mask, written);
      rom[offset] := written;
    }

    /**
     * The bit loop of `searchROM`: `searchNextBit` for bits 1 to 64 into a zeroed `rom` buffer,
     * `mask` walking each byte from bit 0 to bit 7.
     */
    method SearchBits() returns (r: Result<Partial>)
      modifies i2c
      ensures Out(r, i2c.State()) == Pass(old(i2c.State()), Cursor(), 1, Partial(ZeroRom, 0))
    {
      ghost var c := Cursor();
      ghost var target := Pass(i2c.State(), c, 1, Partial(ZeroRom, 0));
      var rom := new Byte[8](_ => 0);
      assert rom[..] == ZeroRom;
      var offset, mask: Byte, bit, conflict := 0, 1, 1, 0;
      ghost var k := 0;
      while offset < 8
        invariant 1 <= bit <= 65 && 0 <= conflict < bit
        invariant 0 <= k < 8 && bit - 1 == 8 * offset + k && mask == Mask(k)
        invariant Cursor() == c
        invariant Pass(i2c.State(), c, bit, Partial(rom[..], conflict)) == target
        decreases 65 - bit
      {
        var next := NextBit(rom, offset, k, mask, bit, conflict);
        if next.Err? {
          return Err(next.error);
        }
        conflict := next.value;
        bit := bit + 1;
        offset, mask, k := NextPosition(offset, mask, k);
      }
      r := Ok(Partial(rom[..], conflict));
    }

    /** The traffic of `searchROM`: reset, SEARCH ROM, the bit loop. */
    method SearchPass() returns (r: Result<Partial>)
      modifies i2c
      ensures Out(r, i2c.State()) == OneWire.SearchPass(old(i2c.State()), Cursor())
    {
      var w := ResetWire();
      if w.Err? {
        return Err(w.error);
      }
      WriteAllOf(twin, i2c.State(), [ONE_WIRE_SEARCH_ROM]);
      w := WriteData([ONE_WIRE_SEARCH_ROM], 1);
      if w.Err? {
        return Err(w.error);
      }
      r := SearchBits();
    }

    /**
     * `searchROM`: the pass, then the checks of the code assembled; the cursor moves to it only
     * once it checks out.
     */
    method SearchRom() returns (r: Result<string>)
      modifies this, i2c
      ensures SearchOut(r, i2c.State(), Cursor()) == OneWire.SearchRom(old(i2c.State()), old(Cursor()))
      ensures CacheState() == old(CacheState()) && devices == old(devices) && channel == old(channel)
    {
      ghost var b, c := i2c.State(), Cursor();
      var p := SearchPass();
      assert Out(p, i2c.State()) == OneWire.SearchPass(b, c);
      if p.Err? {
        return Err(p.error);
      }
      var rom := p.value.rom;
      r := CheckRom(rom);
      if r.Err? {
        return;
      }
      lastFound, lastConflict := Some(rom), p.value.conflict;
    }

    /** `search`: passes from a cleared cursor until one leaves no discrepancy, then clear it again. */
    method Search() returns (r: Result<seq<string>>)
      modifies this, i2c
      ensures SearchOut(r, i2c.State(), Cursor()) == OneWire.Search(old(i2c.State()))
      ensures CacheState() == old(CacheState()) && devices == old(devices) && channel == old(channel)
    {
      ghost var target := OneWire.Search(i2c.State());
      lastFound := None;
      lastConflict := 0;
      var found: seq<string> := [];
      while true
        invariant SearchLoop(i2c.State(), Cursor(), found) == target
        invariant CacheState() == old(CacheState()) && devices == old(devices) && channel == old(channel)
        decreases |i2c.replies|
      {
        assert SearchLoop(i2c.State(), Cursor(), found) == SearchRound(i2c.State(), Cursor(), found);
        var resp := SearchRom();
        if resp.Err? {
          return Err(resp.error);
        }
        found := found + [resp.value];
        if lastConflict == 0 {
          lastFound := None;
          lastConflict := 0;
          return Ok(found);
        }
      }
    }

    /**
     * `searchByFamily(family)`: passes from the family's cursor, keeping the codes of the family,
     * while the last discrepancy lies beyond the family byte and something was kept.
     */
    method SearchByFamily(family: int) returns (r: Result<seq<string>>)
      modifies this, i2c
      ensures SearchOut(r, i2c.State(), Cursor()) == OneWire.SearchByFamily(old(i2c.State()), family)
      ensures CacheState() == old(CacheState()) && devices == old(devices) && channel == old(channel)
    {
      ghost var target := OneWire.SearchByFamily(i2c.State(), family);
      lastFound := Some([ToByte(family), 0, 0, 0, 0, 0, 0, 0]);
      lastConflict := 64;
      var found: seq<string> := [];
      while true
        invariant FamilyLoop(i2c.State(), Cursor(), family, found) == target
        invariant CacheState() == old(CacheState()) && devices == old(devices) && channel == old(channel)
        decreases |i2c.replies|
      {
        var resp := SearchRom();
        if resp.Err? {
          return Err(resp.error);
        }
        if lastFound.value[0] as int == family {
          found := found + [resp.value];
        }
        if !(lastConflict > 7 && |found| > 0) {
          lastFound := None;
          lastConflict := 0;
          return Ok(found);
        }
      }
    }

    /** The checks `searchROM` and `readROM` make of a code: nonzero family byte, then the CRC-8. */
    method CheckRom(rom: Rom) returns (r: Result<string>)
      ensures r == if rom[0] == 0 then Err(RomInvalid) else if Crc8(rom) != 0 then Err(CrcMismatch) else Ok(Hex(rom))
    {
      if rom[0] == 0 {
        return Err(RomInvalid);
      }
      var valid;
      if twin {
        Crc8MaximAgrees(rom);
        valid := Crc8Maxim(rom) == 0;
      } else {
        var check := CheckCrc(rom, None);
        assert rom[..|rom|] == rom;
        valid := check == Ok(true);
      }
      if !valid {
        return Err(CrcMismatch);
      }
      r := Ok(Hex(rom));
    }

    method ReadRom() returns (r: Result<string>)
      modifies i2c
      ensures Out(r, i2c.State()) == OneWire.ReadRom(old(i2c.State()))
    {
      var w := ResetWire();
      if w.Err? {
        return Err(w.error);
      }
      WriteAllOf(twin, i2c.State(), [ONE_WIRE_READ_ROM]);
      w := WriteData([ONE_WIRE_READ_ROM], 1);
      if w.Err? {
        return Err(w.error);
      }
      var d := ReadData(8);
      if d.Err? {
        return Err(d.error);
      }
      r := CheckRom(d.value);
    }

    /**
     * `matchROM(id)`: the text form of the code is checked (as `Buffer.from(id, "hex")` by
     * `DS2482`, by length and family digits by `DS2482_X`) before reset, MATCH ROM and the code.
     */
    method MatchRom(id: string) returns (r: Result<Byte>)
      modifies i2c
      ensures Out(r, i2c.State()) == MatchRomOf(twin, old(i2c.State()), id)
    {
      if twin && (|id| != 16 || (id[0] == '0' && id[1] == '0')) {
        return Err(RomInvalid);
      }
      var rom := HexDecode(id);
      if |rom| != 8 || rom[0] == 0 {
        return Err(RomInvalid);
      }
      r := ResetWire();
      if r.Err? {
        return;
      }
      WriteAllOf(twin, i2c.State(), [ONE_WIRE_MATCH_ROM]);
      r := WriteData([ONE_WIRE_MATCH_ROM], 1);
      if r.Err? {
        return;
      }
      WriteAllOf(twin, i2c.State(), rom);
      r := WriteData(rom, |rom|);
    }

    method SkipRom() returns (r: Result<Byte>)
      modifies i2c
      ensures Out(r, i2c.State()) == OneWire.SkipRom(old(i2c.State()))
    {
      r := ResetWire();
      if r.Err? {
        return;
      }
      WriteAllOf(twin, i2c.State(), [ONE_WIRE_SKIP_ROM]);
      r := WriteData([ONE_WIRE_SKIP_ROM], 1);
    }

    /** `resumeROM` exists on `DS2482_X` only; on `DS2482` the call is a `TypeError`. */
    method ResumeRom() returns (r: Result<Byte>)
      modifies i2c
      ensures Out(r, i2c.State()) == if twin then OneWire.ResumeRom(old(i2c.State())) else Out(Err(TypeError), old(i2c.State()))
    {
      if !twin {
        return Err(TypeError);
      }
      WriteAllOf(twin, i2c.State(), [ONE_WIRE_RESUME_COMMAND]);
      r := WriteData([ONE_WIRE_RESUME_COMMAND], 1);
    }

    /** `sendCommand(cmd, rom)`: MATCH ROM when an id is given, SKIP ROM otherwise, then the command. */
    method SendCommand(cmd: Byte, rom: Option<string>) returns (r: Result<Byte>)
      modifies i2c
      ensures Out(r, i2c.State()) == SendCommandOf(twin, old(i2c.State()), cmd, rom)
    {
      if Addressed(rom) {
        r := MatchRom(rom.value);
      } else {
        r := SkipRom();
      }
      if r.Err? {
        return;
      }
      WriteAllOf(twin, i2c.State(), [cmd]);
      r := WriteData([cmd], 1);
    }

    /* -------------------------------------------------------------------------------------- */
    /* The worker cache                                                                        */

    /** `#get_worker(family)` on the bridge's own cache; a valid cache stays valid. */
    method GetWorker(family: string) returns (w: Worker)
      modifies this
      ensures Lookup(w, CacheState()) == LookupWorker(old(CacheState()), manifest, family)
      ensures workers == old(workers)[family := w]
      ensures Cursor() == old(Cursor()) && channel == old(channel) && devices == old(devices)
      ensures old(Valid()) ==> Valid() && w.kind == if family in manifest then Device(manifest[family]) else Generic
    {
      ghost var c0 := CacheState();
      if family in workers {
        w := workers[family];
        return;
      }
      if family in manifest {
        w := Worker(Device(manifest[family]), created);
        created := created + 1;
      } else {
        if generic.None? {
          generic := Some(Worker(Generic, created));
          created := created + 1;
        }
        w := generic.value;
      }
      workers := workers[family := w];
      if CacheValid(c0, manifest) {
        GetWorkerValid(c0, manifest, family);
      }
    }
  }
}
