/**
 * The 1-Wire ROM layer of the bridge: ROM codes, the search cursor and the triplet-driven
 * search of Maxim Application Note 187, and the read/match/skip ROM commands. As in `Wire`,
 * every operation is a function of the bus; the cursor (`lastFound`, `lastConflict`) is passed in
 * and handed back.
 */
module OneWire {
  import opened Bytes
  import opened Results
  import opened Commands
  import opened Crc
  import opened Wire

  /** A 64-bit ROM code: family byte, 48-bit serial number, CRC-8. */
  type Rom = s: seq<Byte> | |s| == 8 witness [0, 0, 0, 0, 0, 0, 0, 0]

  const ZeroRom: Rom := [0, 0, 0, 0, 0, 0, 0, 0]

  /** `1 << k` for a bit position within a byte. */
  function Mask(k: nat): Byte
    requires k < 8
  {
    [0x01, 0x02, 0x04, 0x08, 0x10, 0x20, 0x40, 0x80][k]
  }

  /** Bit `k` of a byte. */
  predicate ByteBit(x: Byte, k: nat)
    requires k < 8
  {
    x & Mask(k) != 0
  }

  /** Bit `i` of a ROM code, counting from the least significant bit of the family byte. */
  predicate RomBit(rom: Rom, i: nat)
    requires i < 64
  {
    ByteBit(rom[i / 8], i % 8)
  }

  /** `dir ? part | mask : part & ~mask` */
  function WithBit(x: Byte, k: nat, v: bool): (y: Byte)
    requires k < 8
    ensures ByteBit(y, k) == v
    ensures forall k' :: 0 <= k' < 8 && k' != k ==> ByteBit(y, k') == ByteBit(x, k')
  {
    var y := if v then x | Mask(k) else x & !Mask(k);
    forall k' | 0 <= k' < 8 && k' != k
      ensures ByteBit(y, k') == ByteBit(x, k')
    {
      OtherMask(x, k, k', v);
    }
    y
  }

  lemma OtherMask(x: Byte, k: nat, k': nat, v: bool)
    requires k < 8 && k' < 8 && k != k'
    ensures var y := if v then x | Mask(k) else x & !Mask(k);
      ByteBit(y, k') == ByteBit(x, k')
  {
    MasksDisjoint(k, k');
    DisjointMask(x, Mask(k), Mask(k'));
  }

  lemma MasksDisjoint(k: nat, k': nat)
    requires k < 8 && k' < 8 && k != k'
    ensures Mask(k) & Mask(k') == 0
  {
    assert Mask(k) == (1 as Byte) << k;
    assert Mask(k') == (1 as Byte) << k';
  }

  lemma DisjointMask(x: Byte, m: Byte, m': Byte)
    requires m & m' == 0
    ensures (x | m) & m' == x & m'
    ensures (x & !m) & m' == x & m'
  {
  }

  lemma SameByteOtherBit(i: nat, j: nat)
    requires i < 64 && j < 64 && i != j && i / 8 == j / 8
    ensures i % 8 != j % 8
  {
    assert i == 8 * (i / 8) + i % 8;
    assert j == 8 * (j / 8) + j % 8;
  }

  lemma WithBitFrame(rom: Rom, i: nat, v: bool, j: nat)
    requires i < 64 && j < 64 && j != i
    ensures RomBit(rom[i / 8 := WithBit(rom[i / 8], i % 8, v)], j) == RomBit(rom, j)
  {
    if j / 8 == i / 8 {
      SameByteOtherBit(i, j);
    }
  }

  /** The ROM code with bit `i` set to `v`, as `rom.writeUInt8(dir ? part | mask : part & ~mask, offset)`. */
  function SetBit(rom: Rom, i: nat, v: bool): (r: Rom)
    requires i < 64
    ensures RomBit(r, i) == v
    ensures forall j :: 0 <= j < 64 && j != i ==> RomBit(r, j) == RomBit(rom, j)
  {
    var r: Rom := rom[i / 8 := WithBit(rom[i / 8], i % 8, v)];
    forall j | 0 <= j < 64 && j != i
      ensures RomBit(r, j) == RomBit(rom, j)
    {
      WithBitFrame(rom, i, v, j);
    }
    r
  }

  /* ---------------------------------------------------------------------------------------- */
  /* One search pass                                                                           */

  /** The search cursor: the last ROM found and the last bit where the search took the 0 branch. */
  datatype Cursor = Cursor(lastFound: Option<Rom>, lastConflict: int)

  /** The cursor `search` starts from and leaves behind. */
  const Start := Cursor(None, 0)

  /**
   * The branch taken at `bit` (1..64) when both values are present: the previous ROM's bit before
   * the last conflict, 1 at the last conflict, 0 beyond it.
   */
  predicate Direction(c: Cursor, bit: int)
    requires 1 <= bit <= 64
  {
    if c.lastFound.Some? && bit < c.lastConflict then RomBit(c.lastFound.value, bit - 1)
    else bit == c.lastConflict
  }

  /** The ROM assembled so far and the last 0-branch discrepancy of this pass. */
  datatype Partial = Partial(rom: Rom, conflict: int)

  /** Both bit slots of the triplet read 0 and the 0 branch was taken: a discrepancy to come back to. */
  predicate ZeroConflict(status: Byte)
  {
    !Has(status, STATUS_SINGLE_BIT) && !Has(status, STATUS_TRIPLE_BIT) && !Has(status, STATUS_BRANCH_DIR)
  }

  /** One triplet answer: both slots 1 means no device answered; otherwise record the branch taken. */
  function Step(p: Partial, bit: int, status: Byte): (r: Result<Partial>)
    requires 1 <= bit <= 64
    ensures r.Err? <==> Has(status, STATUS_SINGLE_BIT) && Has(status, STATUS_TRIPLE_BIT)
    ensures r.Err? ==> r.error == BadSearchResult
    ensures r.Ok? ==> r.value.conflict == if ZeroConflict(status) then bit else p.conflict
  {
    var sbr := Has(status, STATUS_SINGLE_BIT);
    var tsb := Has(status, STATUS_TRIPLE_BIT);
    var dir := Has(status, STATUS_BRANCH_DIR);
    if sbr && tsb then Err(BadSearchResult)
    else Ok(Partial(SetBit(p.rom, bit - 1, dir), if !sbr && !tsb && !dir then bit else p.conflict))
  }

  /** A successful step records the branch taken at `bit` and leaves every other bit alone. */
  lemma StepBit(p: Partial, bit: int, status: Byte)
    requires 1 <= bit <= 64 && Step(p, bit, status).Ok?
    ensures RomBit(Step(p, bit, status).value.rom, bit - 1) == Has(status, STATUS_BRANCH_DIR)
  {
  }

  /** ... and leaves every other bit alone. */
  lemma StepFrame(p: Partial, bit: int, status: Byte, j: int)
    requires 1 <= bit <= 64 && Step(p, bit, status).Ok? && 0 <= j < 64 && j != bit - 1
    ensures RomBit(Step(p, bit, status).value.rom, j) == RomBit(p.rom, j)
  {
  }

  /** The pass on its own terms: `Step` applied to the triplet answers for bits `bit`..64. */
  function Steps(p: Partial, bit: int, ss: seq<Byte>): Result<Partial>
    requires 1 <= bit <= 65 && |ss| == 65 - bit
    decreases |ss|
  {
    if ss == [] then Ok(p)
    else
      match Step(p, bit, ss[0])
      case Err(e) => Err(e)
      case Ok(q) => Steps(q, bit + 1, ss[1..])
  }

  /**
   * The recursive `searchNextBit` of `searchROM` on the bus: a triplet per bit in the direction
   * the cursor asks for, then `Step` on its status.
   */
  function Pass(b: Bus, c: Cursor, bit: int, p: Partial): (o: Out<Partial>)
    requires 1 <= bit <= 65
    ensures Later(b, o.bus)
    ensures o.res.Ok? && bit <= 64 ==> |o.bus.replies| < |b.replies|
    decreases 8 * |p.rom| + 1 - bit
  {
    if bit > 64 then Out(Ok(p), b)
    else
      var t := Triplet(b, Direction(c, bit));
      if t.res.Err? then Out(Err(t.res.error), t.bus)
      else
        match Step(p, bit, t.res.value)
        case Err(e) => Out(Err(e), t.bus)
        case Ok(q) => Pass(t.bus, c, bit + 1, q)
  }

  /** The index (1-based) of the last answer in `ss` that is a 0-branch discrepancy, or 0 when there is none. */
  function LastZeroConflict(ss: seq<Byte>): (k: nat)
    ensures k <= |ss|
  {
    if ss == [] then 0
    else
      var k := LastZeroConflict(ss[1..]);
      if k > 0 then k + 1 else if ZeroConflict(ss[0]) then 1 else 0
  }

  /** `LastZeroConflict` names a discrepancy, and no answer after it is one. */
  lemma {:induction false} LastZeroConflictMeaning(ss: seq<Byte>)
    ensures var k := LastZeroConflict(ss);
      (k > 0 ==> ZeroConflict(ss[k - 1])) && forall j :: k <= j < |ss| ==> !ZeroConflict(ss[j])
    decreases |ss|
  {
    if ss != [] {
      var t := ss[1..];
      LastZeroConflictMeaning(t);
      var k := LastZeroConflict(t);
      if k > 0 {
        assert ss[k] == t[k - 1];
      }
      forall j | LastZeroConflict(ss) <= j < |ss|
        ensures !ZeroConflict(ss[j])
      {
        if j > 0 {
          assert ss[j] == t[j - 1];
        }
      }
    }
  }

  predicate NoBadAnswer(ss: seq<Byte>)
  {
    forall i :: 0 <= i < |ss| ==> !(Has(ss[i], STATUS_SINGLE_BIT) && Has(ss[i], STATUS_TRIPLE_BIT))
  }

  /** `NoBadAnswer` split at its first answer. */
  lemma NoBadAnswerCons(ss: seq<Byte>)
    requires ss != []
    ensures NoBadAnswer(ss) <==> !(Has(ss[0], STATUS_SINGLE_BIT) && Has(ss[0], STATUS_TRIPLE_BIT)) && NoBadAnswer(ss[1..])
  {
    if NoBadAnswer(ss) {
      forall i | 0 <= i < |ss[1..]|
        ensures !(Has(ss[1..][i], STATUS_SINGLE_BIT) && Has(ss[1..][i], STATUS_TRIPLE_BIT))
      {
        assert ss[1..][i] == ss[i + 1];
      }
    }
    if !(Has(ss[0], STATUS_SINGLE_BIT) && Has(ss[0], STATUS_TRIPLE_BIT)) && NoBadAnswer(ss[1..]) {
      forall i | 0 < i < |ss|
        ensures !(Has(ss[i], STATUS_SINGLE_BIT) && Has(ss[i], STATUS_TRIPLE_BIT))
      {
        assert ss[i] == ss[1..][i - 1];
      }
    }
  }

  /** A pass over answers `ss` fails exactly when some answer has both slots set. */
  lemma {:induction false} StepsError(p: Partial, bit: int, ss: seq<Byte>)
    requires 1 <= bit <= 65 && |ss| == 65 - bit
    ensures Steps(p, bit, ss).Err? <==> !NoBadAnswer(ss)
    ensures Steps(p, bit, ss).Err? ==> Steps(p, bit, ss).error == BadSearchResult
    decreases |ss|
  {
    if ss != [] {
      NoBadAnswerCons(ss);
      var r := Step(p, bit, ss[0]);
      if r.Ok? {
        StepsError(r.value, bit + 1, ss[1..]);
      }
    }
  }

  /** A pass that survives its first answer goes on from the next bit. */
  lemma StepsCons(p: Partial, bit: int, ss: seq<Byte>)
    requires 1 <= bit <= 64 && |ss| == 65 - bit && Step(p, bit, ss[0]).Ok?
    ensures Steps(p, bit, ss) == Steps(Step(p, bit, ss[0]).value, bit + 1, ss[1..])
  {
  }

  /** A successful pass holds the branch bit of every answer from `bit` on: answer `i` sits at ROM bit `j = bit - 1 + i`. */
  lemma {:induction false} StepsBitAt(p: Partial, bit: int, ss: seq<Byte>, i: int, j: int)
    requires 1 <= bit <= 65 && |ss| == 65 - bit && 0 <= i < |ss| && j == bit - 1 + i
    ensures Steps(p, bit, ss).Ok? ==> RomBit(Steps(p, bit, ss).value.rom, j) == Has(ss[i], STATUS_BRANCH_DIR)
    decreases |ss|
  {
    if i == 0 {
      StepsBitFirst(p, bit, ss);
    } else if Step(p, bit, ss[0]).Ok? {
      var q := Step(p, bit, ss[0]).value;
      var o := Steps(q, bit + 1, ss[1..]);
      assert Steps(p, bit, ss) == o;
      if o.Ok? {
        StepsBitAt(q, bit + 1, ss[1..], i - 1, j);
        BitOfTail(o.value.rom, j, ss, i);
      }
    } else {
      assert Steps(p, bit, ss).Err?;
    }
  }

  lemma BitOfTail(rom: Rom, j: int, ss: seq<Byte>, i: int)
    requires 1 <= i < |ss| && 0 <= j < 64 && RomBit(rom, j) == Has(ss[1..][i - 1], STATUS_BRANCH_DIR)
    ensures RomBit(rom, j) == Has(ss[i], STATUS_BRANCH_DIR)
  {
    assert ss[1..][i - 1] == ss[i];
  }

  /** A successful pass holds the branch bit of its first answer at ROM bit `bit - 1`. */
  lemma StepsBitFirst(p: Partial, bit: int, ss: seq<Byte>)
    requires 1 <= bit <= 64 && |ss| == 65 - bit
    ensures Steps(p, bit, ss).Ok? ==> RomBit(Steps(p, bit, ss).value.rom, bit - 1) == Has(ss[0], STATUS_BRANCH_DIR)
  {
    var r := Step(p, bit, ss[0]);
    if r.Ok? {
      var o := Steps(r.value, bit + 1, ss[1..]);
      StepsCons(p, bit, ss);
      if o.Ok? {
        StepsFrameAt(r.value, bit + 1, ss[1..], bit - 1);
        StepBit(p, bit, ss[0]);
      }
    } else {
      assert Steps(p, bit, ss).Err?;
    }
  }

  /** A pass from `bit` on leaves the bits before it alone. */
  lemma {:induction false} StepsFrameAt(p: Partial, bit: int, ss: seq<Byte>, j: int)
    requires 1 <= bit <= 65 && |ss| == 65 - bit && 0 <= j < bit - 1
    ensures Steps(p, bit, ss).Ok? ==> RomBit(Steps(p, bit, ss).value.rom, j) == RomBit(p.rom, j)
    decreases |ss|
  {
    if ss != [] {
      var r := Step(p, bit, ss[0]);
      if r.Ok? {
        var o := Steps(r.value, bit + 1, ss[1..]);
        assert o.Ok? ==> RomBit(o.value.rom, j) == RomBit(r.value.rom, j) by {
          StepsFrameAt(r.value, bit + 1, ss[1..], j);
        }
        assert RomBit(r.value.rom, j) == RomBit(p.rom, j) by {
          StepFrame(p, bit, ss[0], j);
        }
        StepsCons(p, bit, ss);
      }
    }
  }

  /** The conflict of a successful pass is the last 0-branch discrepancy after `p.conflict`. */
  lemma {:induction false} StepsConflict(p: Partial, bit: int, ss: seq<Byte>)
    requires 1 <= bit <= 65 && |ss| == 65 - bit
    ensures Steps(p, bit, ss).Ok? ==>
      Steps(p, bit, ss).value.conflict
        == (if LastZeroConflict(ss) > 0 then bit - 1 + LastZeroConflict(ss) else p.conflict)
    decreases |ss|
  {
    if ss != [] {
      var r := Step(p, bit, ss[0]);
      if r.Ok? {
        StepsConflict(r.value, bit + 1, ss[1..]);
        assert Steps(p, bit, ss) == Steps(r.value, bit + 1, ss[1..]);
      }
    }
  }

  /** What a bridge that is never busy answers during a pass: a ready status, then the triplet status, per answer in `ss`. */
  function PassScript(ss: seq<Byte>, rest: seq<Byte>): (s: seq<Byte>)
    ensures |s| == 2 * |ss| + |rest|
  {
    if ss == [] then rest else [0, ss[0]] + PassScript(ss[1..], rest)
  }

  /** The writes of a pass from `bit` on, after `log`: the triplets ask for the directions the cursor dictates. */
  function PassLog(c: Cursor, bit: int, log: seq<seq<Byte>>): (l: seq<seq<Byte>>)
    requires 1 <= bit <= 65
    ensures |l| == |log| + 2 * (65 - bit)
    decreases 65 - bit
  {
    if bit > 64 then log
    else PassLog(c, bit + 1, log + [[SET_READ_POINTER, REG_STATUS], [ONE_WIRE_TRIPLET, DirByte(Direction(c, bit))]])
  }

  /** No answer in `ss` has the 1-Wire busy bit set. */
  predicate NoneBusy(ss: seq<Byte>)
  {
    ss == [] || (!Has(ss[0], STATUS_BUSY) && NoneBusy(ss[1..]))
  }

  /** One triplet on a ready bridge returns its scripted status. */
  lemma TripletIdle(dir: bool, s: Byte, rest: seq<Byte>, log: seq<seq<Byte>>)
    requires !Has(s, STATUS_BUSY)
    ensures Triplet(Bus([0, s] + rest, log), dir)
         == Out(Ok(s), Bus(rest, log + [[SET_READ_POINTER, REG_STATUS], [ONE_WIRE_TRIPLET, DirByte(dir)]]))
  {
    assert [0, s] + rest == [0] + ([s] + rest);
    WaitIdle(0, [s] + rest, log, true);
    WaitIdle(s, rest, log + [[SET_READ_POINTER, REG_STATUS], [ONE_WIRE_TRIPLET, DirByte(dir)]], false);
  }

  /** One bit of a pass, once its triplet has answered `s`. */
  lemma PassStep(b: Bus, c: Cursor, bit: int, p: Partial, s: Byte, b1: Bus)
    requires 1 <= bit <= 64 && Triplet(b, Direction(c, bit)) == Out(Ok(s), b1)
    ensures Pass(b, c, bit, p)
         == if Step(p, bit, s).Err? then Out(Err(Step(p, bit, s).error), b1) else Pass(b1, c, bit + 1, Step(p, bit, s).value)
  {
  }

  /** One bit of a pass on a ready bridge whose remaining triplet answers are `ss`. */
  lemma PassOnReady(c: Cursor, bit: int, p: Partial, ss: seq<Byte>, rest: seq<Byte>, log: seq<seq<Byte>>)
    requires 1 <= bit <= 64 && ss != [] && !Has(ss[0], STATUS_BUSY)
    ensures var log1 := log + [[SET_READ_POINTER, REG_STATUS], [ONE_WIRE_TRIPLET, DirByte(Direction(c, bit))]];
      Pass(Bus(PassScript(ss, rest), log), c, bit, p)
      == if Step(p, bit, ss[0]).Err? then Out(Err(BadSearchResult), Bus(PassScript(ss[1..], rest), log1))
         else Pass(Bus(PassScript(ss[1..], rest), log1), c, bit + 1, Step(p, bit, ss[0]).value)
  {
    var log1 := log + [[SET_READ_POINTER, REG_STATUS], [ONE_WIRE_TRIPLET, DirByte(Direction(c, bit))]];
    var rest1 := PassScript(ss[1..], rest);
    TripletIdle(Direction(c, bit), ss[0], rest1, log);
    PassStep(Bus([0, ss[0]] + rest1, log), c, bit, p, ss[0], Bus(rest1, log1));
  }

  /** A ready bridge answering `ss` to the triplets: the pass fails when `Steps` over `ss` fails... */
  lemma {:induction false} PassOnScriptErr(c: Cursor, bit: int, p: Partial, ss: seq<Byte>, rest: seq<Byte>, log: seq<seq<Byte>>)
    requires 1 <= bit <= 65 && |ss| == 65 - bit && NoneBusy(ss)
    ensures Steps(p, bit, ss).Err? ==> Pass(Bus(PassScript(ss, rest), log), c, bit, p).res == Err(BadSearchResult)
    decreases |ss|, 1
  {
    if ss != [] {
      PassOnScriptErrStep(c, bit, p, ss, rest, log);
    }
  }

  /** The inductive step of `PassOnScriptErr`. */
  lemma {:induction false} PassOnScriptErrStep(c: Cursor, bit: int, p: Partial, ss: seq<Byte>, rest: seq<Byte>, log: seq<seq<Byte>>)
    requires 1 <= bit <= 64 && |ss| == 65 - bit && NoneBusy(ss)
    ensures Steps(p, bit, ss).Err? ==> Pass(Bus(PassScript(ss, rest), log), c, bit, p).res == Err(BadSearchResult)
    decreases |ss|, 0
  {
    PassOnReady(c, bit, p, ss, rest, log);
    var q := Step(p, bit, ss[0]);
    if q.Ok? {
      PassOnScriptErr(c, bit + 1, q.value, ss[1..], rest,
        log + [[SET_READ_POINTER, REG_STATUS], [ONE_WIRE_TRIPLET, DirByte(Direction(c, bit))]]);
    }
  }

  /** ... and otherwise computes what `Steps` computes, consuming the script and logging the triplets the cursor asks for. */
  lemma {:induction false} PassOnScript(c: Cursor, bit: int, p: Partial, ss: seq<Byte>, rest: seq<Byte>, log: seq<seq<Byte>>)
    requires 1 <= bit <= 65 && |ss| == 65 - bit && NoneBusy(ss)
    ensures Steps(p, bit, ss).Ok? ==>
      Pass(Bus(PassScript(ss, rest), log), c, bit, p) == Out(Steps(p, bit, ss), Bus(rest, PassLog(c, bit, log)))
    decreases |ss|, 1
  {
    if ss != [] {
      PassOnScriptStep(c, bit, p, ss, rest, log);
    }
  }

  /** The inductive step of `PassOnScript`. */
  lemma {:induction false} PassOnScriptStep(c: Cursor, bit: int, p: Partial, ss: seq<Byte>, rest: seq<Byte>, log: seq<seq<Byte>>)
    requires 1 <= bit <= 64 && |ss| == 65 - bit && NoneBusy(ss)
    ensures Steps(p, bit, ss).Ok? ==>
      Pass(Bus(PassScript(ss, rest), log), c, bit, p) == Out(Steps(p, bit, ss), Bus(rest, PassLog(c, bit, log)))
    decreases |ss|, 0
  {
    PassOnReady(c, bit, p, ss, rest, log);
    var q := Step(p, bit, ss[0]);
    if q.Ok? {
      PassOnScript(c, bit + 1, q.value, ss[1..], rest,
        log + [[SET_READ_POINTER, REG_STATUS], [ONE_WIRE_TRIPLET, DirByte(Direction(c, bit))]]);
    }
  }

  /* ---------------------------------------------------------------------------------------- */
  /* ROM commands                                                                              */

  /** A ROM code the driver accepts: nonzero family byte and a CRC-8 that checks. */
  predicate ValidRom(rom: Rom)
  {
    rom[0] != 0 && Crc8(rom) == 0
  }

  /** `searchROM` and friends hand back the text of the ROM and the cursor they leave. */
  datatype SearchOut<T> = SearchOut(res: Result<T>, bus: Bus, cursor: Cursor)

  /** The traffic of `searchROM`: reset, SEARCH ROM, then the 64-bit pass from an all-zero code. */
  function SearchPass(b: Bus, c: Cursor): (o: Out<Partial>)
    ensures Later(b, o.bus) && (o.res.Ok? ==> |o.bus.replies| < |b.replies|)
    ensures o.res.Ok? ==> 0 <= o.res.value.conflict <= 64
  {
    var r := ResetWire(b);
    if r.res.Err? then Out(Err(r.res.error), r.bus)
    else
      var w := WriteAll(r.bus, [ONE_WIRE_SEARCH_ROM]);
      if w.res.Err? then Out(Err(w.res.error), w.bus)
      else
        PassConflictRange(w.bus, c, 1, Partial(ZeroRom, 0));
        Pass(w.bus, c, 1, Partial(ZeroRom, 0))
  }

  /**
   * `searchROM`: the pass, then a zero family byte or a failing CRC is an error; the cursor
   * moves to the new ROM and its last conflict only on success.
   */
  function SearchRom(b: Bus, c: Cursor): (o: SearchOut<string>)
    ensures Later(b, o.bus) && (o.res.Ok? ==> |o.bus.replies| < |b.replies|)
    ensures o.res.Err? ==> o.cursor == c
    ensures o.res.Ok? ==> o.cursor.lastFound.Some? && ValidRom(o.cursor.lastFound.value)
                          && o.res.value == Hex(o.cursor.lastFound.value)
                          && 0 <= o.cursor.lastConflict <= 64
  {
    var p := SearchPass(b, c);
    if p.res.Err? then SearchOut(Err(p.res.error), p.bus, c)
    else
      var rom := p.res.value.rom;
      if rom[0] == 0 then SearchOut(Err(RomInvalid), p.bus, c)
      else if Crc8(rom) != 0 then SearchOut(Err(CrcMismatch), p.bus, c)
      else SearchOut(Ok(Hex(rom)), p.bus, Cursor(Some(rom), p.res.value.conflict))
  }

  /** The conflict of a pass is a bit number of the pass, or the one it started with. */
  lemma {:induction false} PassConflictRange(b: Bus, c: Cursor, bit: int, p: Partial)
    requires 1 <= bit <= 65 && 0 <= p.conflict < bit
    ensures Pass(b, c, bit, p).res.Ok? ==> 0 <= Pass(b, c, bit, p).res.value.conflict <= 64
    decreases 65 - bit
  {
    if bit <= 64 {
      var t := Triplet(b, Direction(c, bit));
      if t.res.Ok? {
        var r := Step(p, bit, t.res.value);
        if r.Ok? {
          PassConflictRange(t.bus, c, bit + 1, r.value);
        }
      }
    }
  }

  /** `id` is the (lower-case) text of a valid ROM code. */
  predicate IsRomText(id: string)
  {
    var bs := HexDecode(id);
    |bs| == 8 && ValidRom(bs) && Hex(bs) == id
  }

  lemma RomText(rom: Rom)
    requires ValidRom(rom)
    ensures IsRomText(Hex(rom)) && HexDecode(Hex(rom)) == rom
  {
    HexRoundTrip(rom);
  }

  /** Every id in a search result is the text of a valid ROM code. */
  predicate AllValid(ids: seq<string>)
  {
    forall i :: 0 <= i < |ids| ==> IsRomText(ids[i])
  }

  /**
   * The loop of `search`: a pass, its ROM appended, again while the pass left a conflict; the
   * cursor is reset once the last pass finds none. An error leaves the cursor of the last
   * successful pass.
   */
  function SearchLoop(b: Bus, c: Cursor, found: seq<string>): (o: SearchOut<seq<string>>)
    ensures Later(b, o.bus)
    ensures o.res.Ok? ==> o.cursor == Start && found < o.res.value
    ensures o.res.Ok? && AllValid(found) ==> AllValid(o.res.value)
    decreases |b.replies|, 1
  {
    SearchRound(b, c, found)
  }

  /** One round of the loop of `search`: a `searchROM` pass, then the next round or the end. */
  function SearchRound(b: Bus, c: Cursor, found: seq<string>): (o: SearchOut<seq<string>>)
    ensures Later(b, o.bus)
    ensures o.res.Ok? ==> o.cursor == Start && found < o.res.value
    ensures o.res.Ok? && AllValid(found) ==> AllValid(o.res.value)
    decreases |b.replies|, 0
  {
    var p := SearchRom(b, c);
    if p.res.Err? then SearchOut(Err(p.res.error), p.bus, p.cursor)
    else
      assert AllValid(found) ==> AllValid(found + [p.res.value]) by {
        if AllValid(found) {
          RomText(p.cursor.lastFound.value);
          AllValidAppend(found, p.res.value);
        }
      }
      if p.cursor.lastConflict != 0 then SearchLoop(p.bus, p.cursor, found + [p.res.value])
    else SearchOut(Ok(found + [p.res.value]), p.bus, Start)
  }

  /** `search`: every ROM code on the wire, in the order the passes discover them. */
  function Search(b: Bus): (o: SearchOut<seq<string>>)
    ensures Later(b, o.bus)
    ensures o.res.Ok? ==> o.cursor == Start && |o.res.value| >= 1 && AllValid(o.res.value)
  {
    SearchLoop(b, Start, [])
  }

  lemma AllValidAppend(ids: seq<string>, id: string)
    requires AllValid(ids) && IsRomText(id)
    ensures AllValid(ids + [id])
  {
    var ids' := ids + [id];
    forall i | 0 <= i < |ids'| ensures IsRomText(ids'[i]) {
      if i < |ids| {
        assert ids'[i] == ids[i];
      }
    }
  }

  /** The cursor `searchByFamily` starts from: the family code with a zero serial, conflict at bit 64. */
  function FamilyStart(family: int): Cursor
  {
    Cursor(Some([ToByte(family), 0, 0, 0, 0, 0, 0, 0]), 64)
  }

  /**
   * The loop of `searchByFamily`: keep the ROMs whose family byte equals `family`, go on while the
   * last conflict lies beyond the family byte and something was kept, then reset the cursor.
   */
  function FamilyLoop(b: Bus, c: Cursor, family: int, found: seq<string>): (o: SearchOut<seq<string>>)
    ensures Later(b, o.bus)
    ensures o.res.Ok? ==> o.cursor == Start && found <= o.res.value
    ensures o.res.Ok? && AllOfFamily(found, family) ==> AllOfFamily(o.res.value, family)
    decreases |b.replies|
  {
    var p := SearchRom(b, c);
    if p.res.Err? then SearchOut(Err(p.res.error), p.bus, p.cursor)
    else
      var rom := p.cursor.lastFound.value;
      var found' := if rom[0] as int == family then found + [p.res.value] else found;
      KeepFamily(found, rom, family);
      if p.cursor.lastConflict > 7 && |found'| > 0 then FamilyLoop(p.bus, p.cursor, family, found')
      else SearchOut(Ok(found'), p.bus, Start)
  }

  /** `searchByFamily(family)`: the ROM codes of one family. */
  function SearchByFamily(b: Bus, family: int): (o: SearchOut<seq<string>>)
    ensures Later(b, o.bus)
    ensures o.res.Ok? ==> o.cursor == Start && AllOfFamily(o.res.value, family)
  {
    FamilyLoop(b, FamilyStart(family), family, [])
  }

  /** `id` is the text of a valid ROM code of the given family. */
  predicate OfFamily(id: string, family: int)
  {
    IsRomText(id) && HexDecode(id)[0] as int == family
  }

  /** Every id holds a valid ROM code of the given family. */
  predicate AllOfFamily(ids: seq<string>, family: int)
  {
    forall i :: 0 <= i < |ids| ==> OfFamily(ids[i], family)
  }

  /** Keeping the text of a valid ROM code only when it is of the family keeps the list to the family. */
  lemma KeepFamily(found: seq<string>, rom: Rom, family: int)
    requires ValidRom(rom)
    ensures AllOfFamily(found, family) ==>
      AllOfFamily(if rom[0] as int == family then found + [Hex(rom)] else found, family)
  {
    if AllOfFamily(found, family) && rom[0] as int == family {
      RomText(rom);
      AllOfFamilyAppend(found, Hex(rom), family);
    }
  }

  lemma AllOfFamilyAppend(ids: seq<string>, id: string, family: int)
    requires AllOfFamily(ids, family) && OfFamily(id, family)
    ensures AllOfFamily(ids + [id], family)
  {
    var ids' := ids + [id];
    forall i | 0 <= i < |ids'| ensures OfFamily(ids'[i], family) {
      if i < |ids| {
        assert ids'[i] == ids[i];
      }
    }
  }

  /** The family code is the first two characters of the text of each ROM found. */
  lemma FamilyPrefix(rom: Rom)
    ensures Hex(rom)[..2] == Hex([rom[0]])
  {
    HexFamily(rom);
  }

  /**
   * `readROM`: reset, READ ROM, eight bytes; a zero family byte or a failing CRC is an error,
   * otherwise the text of the code.
   */
  function ReadRom(b: Bus): (o: Out<string>)
    ensures Later(b, o.bus)
    ensures o.res.Ok? ==> IsRomText(o.res.value)
  {
    var r := ResetWire(b);
    if r.res.Err? then Out(Err(r.res.error), r.bus)
    else
      var w := WriteAll(r.bus, [ONE_WIRE_READ_ROM]);
      if w.res.Err? then Out(Err(w.res.error), w.bus)
      else
        var d := ReadData(w.bus, 8);
        if d.res.Err? then Out(Err(d.res.error), d.bus)
        else
          var rom: Rom := d.res.value;
          if rom[0] == 0 then Out(Err(RomInvalid), d.bus)
          else if Crc8(rom) != 0 then Out(Err(CrcMismatch), d.bus)
          else
            RomText(rom);
            Out(Ok(Hex(rom)), d.bus)
  }

  /**
   * `matchROM` given bytes: a code that is not eight bytes long or has a zero family byte is
   * rejected before any traffic; otherwise reset, MATCH ROM and the code.
   */
  function MatchRom(b: Bus, rom: seq<Byte>): (o: Out<Byte>)
    ensures Later(b, o.bus)
    ensures (|rom| != 8 || rom[0] == 0) ==> o == Out(Err(RomInvalid), b)
    ensures o.res.Ok? ==> |rom| == 8 && rom[0] != 0 && o.bus.log == b.log + ResetWireLog + WriteLog([ONE_WIRE_MATCH_ROM], 1) + WriteLog(rom, 8)
  {
    if |rom| == 0 || rom[0] == 0 || |rom| != 8 then Out(Err(RomInvalid), b)
    else MatchSend(b, rom)
  }

  /** The traffic of `matchROM` once the code is accepted: reset, MATCH ROM, the eight bytes. */
  function MatchSend(b: Bus, rom: seq<Byte>): (o: Out<Byte>)
    requires |rom| == 8
    ensures Later(b, o.bus)
    ensures o.res.Ok? ==> o.bus.log == b.log + ResetWireLog + WriteLog([ONE_WIRE_MATCH_ROM], 1) + WriteLog(rom, 8)
  {
    var r := ResetWire(b);
    if r.res.Err? then r
    else
      var w := WriteAll(r.bus, [ONE_WIRE_MATCH_ROM]);
      if w.res.Err? then w
      else
        WriteAll(w.bus, rom)
  }

  /** `matchROM(id)` as the driver's device code calls it: the id is hexadecimal text. */
  function MatchRomId(b: Bus, id: string): (o: Out<Byte>)
    ensures Later(b, o.bus)
    ensures o.res.Ok? ==>
      |HexDecode(id)| == 8 && o.bus.log == b.log + ResetWireLog + WriteLog([ONE_WIRE_MATCH_ROM], 1) + WriteLog(HexDecode(id), 8)
  {
    MatchRom(b, HexDecode(id))
  }

  /**
   * `matchROM` of the `DS2482_X` twin: only text of exactly sixteen characters whose family is not
   * "00", checked before any traffic.
   */
  function MatchRomText(b: Bus, id: string): (o: Out<Byte>)
    ensures Later(b, o.bus)
    ensures (|id| != 16 || (id[0] == '0' && id[1] == '0')) ==> o == Out(Err(RomInvalid), b)
    ensures o.res.Ok? ==> |HexDecode(id)| == 8 && o.bus.log == b.log + ResetWireLog + WriteLog([ONE_WIRE_MATCH_ROM], 1) + WriteLog(HexDecode(id), 8)
  {
    if |id| != 16 then Out(Err(RomInvalid), b)
    else if id[0] == '0' && id[1] == '0' then Out(Err(RomInvalid), b)
    else
      var bs := HexDecode(id);
      // Stands in for the rejection by `Hex.toBuffer` of text that is not hexadecimal.
      if |bs| != 8 then Out(Err(RomInvalid), b)
      else MatchSend(b, bs)
  }

  /** On the text of a ROM code both forms of `matchROM` agree. */
  lemma MatchRomFormsAgree(b: Bus, rom: Rom)
    ensures MatchRomText(b, Hex(rom)) == MatchRomId(b, Hex(rom))
  {
    HexRoundTrip(rom);
    var id := Hex(rom);
    HexFamily(rom);
    assert id[..2] == Hex([rom[0]]);
    if id[0] == '0' && id[1] == '0' {
      assert Hex([rom[0]]) == [HexDigit((rom[0] as int) / 16), HexDigit((rom[0] as int) % 16)] + Hex([]);
      assert HexValue(id[0]) == 0 && HexValue(id[1]) == 0;
      assert rom[0] as int == 16 * ((rom[0] as int) / 16) + (rom[0] as int) % 16;
    }
  }

  /** `skipROM`: reset, then SKIP ROM. */
  function SkipRom(b: Bus): (o: Out<Byte>)
    ensures Later(b, o.bus)
    ensures o.res.Ok? ==> o.bus.log == b.log + ResetWireLog + WriteLog([ONE_WIRE_SKIP_ROM], 1)
  {
    var r := ResetWire(b);
    if r.res.Err? then r else WriteAll(r.bus, [ONE_WIRE_SKIP_ROM])
  }

  /** `resumeROM` of the `DS2482_X` twin: RESUME, without a reset. */
  function ResumeRom(b: Bus): (o: Out<Byte>)
    ensures Later(b, o.bus)
    ensures o.res.Ok? ==> o.bus.log == b.log + WriteLog([ONE_WIRE_RESUME_COMMAND], 1)
  {
    WriteAll(b, [ONE_WIRE_RESUME_COMMAND])
  }

  /**
   * `rom ? matchROM(rom) : skipROM()`: a missing id and the empty string, which JavaScript counts
   * as false, both address every device.
   */
  predicate Addressed(rom: Option<string>)
  {
    rom.Some? && rom.value != ""
  }

  /**
   * `sendCommand(cmd, rom)`: address one device (or all of them), then send the command byte;
   * an id that is not a valid code is refused before any traffic.
   */
  function SendCommand(b: Bus, cmd: Byte, rom: Option<string>): (o: Out<Byte>)
    ensures Later(b, o.bus)
    ensures o.res.Ok? && Addressed(rom) ==>
      o.bus.log == b.log + ResetWireLog + WriteLog([ONE_WIRE_MATCH_ROM], 1) + WriteLog(HexDecode(rom.value), 8) + WriteLog([cmd], 1)
    ensures o.res.Ok? && !Addressed(rom) ==>
      o.bus.log == b.log + ResetWireLog + WriteLog([ONE_WIRE_SKIP_ROM], 1) + WriteLog([cmd], 1)
    ensures Addressed(rom) && (|HexDecode(rom.value)| != 8 || HexDecode(rom.value)[0] == 0)
      ==> o == Out(Err(RomInvalid), b)
  {
    var a := if Addressed(rom) then MatchRomId(b, rom.value) else SkipRom(b);
    if a.res.Err? then a else WriteAll(a.bus, [cmd])
  }
}
