/**
 * A simulated 1-Wire bus: a finite set of devices, each with its ROM code, answering the
 * triplets of a search as the wire does. The two read slots are the wired AND of the
 * participating devices' bit and of its complement; the bridge then writes the common bit, or
 * the requested direction when both values are present. Devices whose bit differs from the one
 * written drop out of the pass.
 *
 * This module gives the bus, the order in which a search visits ROM codes (bits read from bit 0
 * up, 0 before 1), and what one pass of the search finds on it; the module SimSearch puts the
 * passes together.
 */
module SimBus {
  import opened Bytes
  import opened Results
  import opened Commands
  import opened Wire
  import opened OneWire

  /* ---------------------------------------------------------------------------------------- */
  /* ROM codes as bit strings                                                                 */

  /** `a` and `b` have the same bits 0..n-1. */
  predicate Agree(a: Rom, b: Rom, n: nat)
    requires n <= 64
  {
    forall i :: 0 <= i < n ==> RomBit(a, i) == RomBit(b, i)
  }

  /** Eight bits make a byte. */
  lemma ByteBits(x: Byte, y: Byte)
    requires forall k :: 0 <= k < 8 ==> ByteBit(x, k) == ByteBit(y, k)
    ensures x == y
  {
    assert ByteBit(x, 0) == ByteBit(y, 0) && ByteBit(x, 1) == ByteBit(y, 1);
    assert ByteBit(x, 2) == ByteBit(y, 2) && ByteBit(x, 3) == ByteBit(y, 3);
    assert ByteBit(x, 4) == ByteBit(y, 4) && ByteBit(x, 5) == ByteBit(y, 5);
    assert ByteBit(x, 6) == ByteBit(y, 6) && ByteBit(x, 7) == ByteBit(y, 7);
  }

  /** The 64 bits of a ROM code determine it. */
  lemma RomBits(a: Rom, b: Rom)
    requires Agree(a, b, 64)
    ensures a == b
  {
    forall n | 0 <= n < 8 ensures a[n] == b[n] {
      forall k | 0 <= k < 8 ensures ByteBit(a[n], k) == ByteBit(b[n], k) {
        var i := 8 * n + k;
        assert i / 8 == n && i % 8 == k;
        assert RomBit(a, i) == RomBit(b, i);
      }
      ByteBits(a[n], b[n]);
    }
  }

  /** `a` comes before `b`: at the first bit where they differ, `a` has 0 and `b` has 1. */
  predicate Before(a: Rom, b: Rom)
  {
    exists k :: 0 <= k < 64 && Agree(a, b, k) && !RomBit(a, k) && RomBit(b, k)
  }

  /** The first bit from `i` on where `a` and `b` differ, or 64. */
  function FirstDiff(a: Rom, b: Rom, i: nat): (k: nat)
    requires i <= 64 && Agree(a, b, i)
    ensures i <= k <= 64 && Agree(a, b, k) && (k < 64 ==> RomBit(a, k) != RomBit(b, k))
    decreases 8 * |a| - i
  {
    if i == 64 || RomBit(a, i) != RomBit(b, i) then i else FirstDiff(a, b, i + 1)
  }

  lemma BeforeIrreflexive(a: Rom)
    ensures !Before(a, a)
  {
  }

  lemma BeforeAsymmetric(a: Rom, b: Rom)
    requires Before(a, b)
    ensures !Before(b, a)
  {
    var k :| 0 <= k < 64 && Agree(a, b, k) && !RomBit(a, k) && RomBit(b, k);
    forall j | 0 <= j < 64 && Agree(b, a, j) && !RomBit(b, j)
      ensures !RomBit(a, j)
    {
      assert k <= j || RomBit(a, j) == RomBit(b, j);
      assert RomBit(a, k) == RomBit(b, k) || j <= k;
    }
  }

  lemma BeforeTransitive(a: Rom, b: Rom, c: Rom)
    requires Before(a, b) && Before(b, c)
    ensures Before(a, c)
  {
    var k :| 0 <= k < 64 && Agree(a, b, k) && !RomBit(a, k) && RomBit(b, k);
    var j :| 0 <= j < 64 && Agree(b, c, j) && !RomBit(b, j) && RomBit(c, j);
    if k < j {
      AgreeBit(b, c, j, k);
      AgreeDown(b, c, j, k);
      AgreeTrans(a, b, c, k);
      BeforeAt(a, c, k);
    } else if j < k {
      AgreeBit(a, b, k, j);
      AgreeDown(a, b, k, j);
      AgreeTrans(a, b, c, j);
      BeforeAt(a, c, j);
    } else {
      assert false;
    }
  }

  lemma AgreeBit(a: Rom, b: Rom, n: nat, i: nat)
    requires i < n <= 64 && Agree(a, b, n)
    ensures RomBit(a, i) == RomBit(b, i)
  {
  }

  lemma AgreeDown(a: Rom, b: Rom, n: nat, m: nat)
    requires m <= n <= 64 && Agree(a, b, n)
    ensures Agree(a, b, m)
  {
  }

  lemma AgreeTrans(a: Rom, b: Rom, c: Rom, n: nat)
    requires n <= 64 && Agree(a, b, n) && Agree(b, c, n)
    ensures Agree(a, c, n)
  {
  }

  lemma BeforeAt(a: Rom, b: Rom, k: nat)
    requires k < 64 && Agree(a, b, k) && !RomBit(a, k) && RomBit(b, k)
    ensures Before(a, b)
  {
  }

  /** Two different codes are ordered one way or the other. */
  lemma BeforeTotal(a: Rom, b: Rom)
    requires a != b
    ensures Before(a, b) || Before(b, a)
  {
    var k := FirstDiff(a, b, 0);
    if k == 64 {
      RomBits(a, b);
    } else if RomBit(b, k) {
      assert Agree(a, b, k) && !RomBit(a, k) && RomBit(b, k);
    } else {
      assert Agree(b, a, k) && !RomBit(b, k) && RomBit(a, k);
    }
  }

  /* ---------------------------------------------------------------------------------------- */
  /* The wire                                                                                 */

  /** Some device of `devices` that agrees with `path` on bits 0..i-1 has bit `i` equal to `v`. */
  predicate Present(devices: set<Rom>, path: Rom, i: nat, v: bool)
    requires i < 64
  {
    exists d {:trigger Agree(d, path, i)} :: d in devices && Agree(d, path, i) && RomBit(d, i) == v
  }

  /** Bit `i` is a discrepancy on the way to `path`: both values are present. */
  predicate Branch(devices: set<Rom>, path: Rom, i: nat)
    requires i < 64
  {
    Present(devices, path, i, false) && Present(devices, path, i, true)
  }

  /**
   * The status of a triplet at bit `i` once the devices off `path` have dropped out: SINGLE_BIT
   * when no remaining device has a 0 there, TRIPLE_BIT when none has a 1, and BRANCH_DIR the bit
   * written, which is `dir` on a discrepancy. With no device left both slots read 1.
   */
  function Answer(devices: set<Rom>, path: Rom, i: nat, dir: bool): (s: Byte)
    requires i < 64
    ensures !Has(s, STATUS_BUSY)
    ensures Has(s, STATUS_SINGLE_BIT) <==> !Present(devices, path, i, false)
    ensures Has(s, STATUS_TRIPLE_BIT) <==> !Present(devices, path, i, true)
    ensures Has(s, STATUS_BRANCH_DIR) <==> if Branch(devices, path, i) then dir else !Present(devices, path, i, false)
  {
    var has0 := Present(devices, path, i, false);
    var has1 := Present(devices, path, i, true);
    if has0 && has1 then (if dir then 0x80 else 0x00)
    else if has0 then 0x40
    else if has1 then 0xA0
    else 0xE0
  }

  /** The answers of the bus to a pass from `bit` on, with the cursor `c` choosing the directions. */
  function Answers(devices: set<Rom>, c: Cursor, bit: int, p: Partial): (ss: seq<Byte>)
    requires 1 <= bit <= 65
    ensures |ss| == 65 - bit
    decreases 8 * |p.rom| + 1 - bit
  {
    if bit > 64 then []
    else
      var s := Answer(devices, p.rom, bit - 1, Direction(c, bit));
      var q := Step(p, bit, s);
      [s] + Answers(devices, c, bit + 1, if q.Ok? then q.value else p)
  }

  /** No answer of the bus has the busy bit set. */
  lemma {:induction false} AnswersNoneBusy(devices: set<Rom>, c: Cursor, bit: int, p: Partial)
    requires 1 <= bit <= 65
    ensures NoneBusy(Answers(devices, c, bit, p))
    decreases 65 - bit
  {
    if bit <= 64 {
      var s := Answer(devices, p.rom, bit - 1, Direction(c, bit));
      var q := Step(p, bit, s);
      var rest := Answers(devices, c, bit + 1, if q.Ok? then q.value else p);
      AnswersNoneBusy(devices, c, bit + 1, if q.Ok? then q.value else p);
      assert ([s] + rest)[1..] == rest;
    }
  }

  /**
   * The last discrepancy from bit `lo` on where `path` has 0, counted from 1, or 0 when there is
   * none: the `lastConflict` a pass that found `path` leaves.
   */
  function LastZeroBranch(devices: set<Rom>, path: Rom, lo: nat): (k: nat)
    requires lo <= 64
    ensures k == 0 || lo < k <= 64
    decreases 8 * |path| - lo
  {
    if lo == 64 then 0
    else
      var k := LastZeroBranch(devices, path, lo + 1);
      if k > 0 then k
      else if Branch(devices, path, lo) && !RomBit(path, lo) then lo + 1
      else 0
  }

  /** Some device agrees with `path` on bits 0..n-1. */
  predicate OnPath(devices: set<Rom>, path: Rom, n: nat)
    requires n <= 64
  {
    exists d {:trigger Agree(d, path, n)} :: d in devices && Agree(d, path, n)
  }

  /** Paths that agree up to bit `i` have the same devices on them. */
  lemma PresentAgree(devices: set<Rom>, a: Rom, b: Rom, i: nat, v: bool)
    requires i < 64 && Agree(a, b, i)
    ensures Present(devices, a, i, v) == Present(devices, b, i, v)
  {
    if Present(devices, a, i, v) {
      var d :| d in devices && Agree(d, a, i) && RomBit(d, i) == v;
      assert Agree(d, b, i);
    }
    if Present(devices, b, i, v) {
      var d :| d in devices && Agree(d, b, i) && RomBit(d, i) == v;
      assert Agree(d, a, i);
    }
  }

  /** A device on the way to `path` with bit `i` equal to `v` stays on it once the pass writes `v`. */
  lemma AgreeSetBit(d: Rom, path: Rom, i: nat, v: bool)
    requires i < 64 && Agree(d, path, i) && RomBit(d, i) == v
    ensures Agree(d, SetBit(path, i, v), i + 1)
  {
  }

  /** ... and a code on the way after bit `i` was written was on the way before it. */
  lemma AgreeOfSetBit(d: Rom, path: Rom, i: nat, v: bool)
    requires i < 64 && Agree(d, SetBit(path, i, v), i + 1)
    ensures Agree(d, path, i) && RomBit(d, i) == v
  {
    assert RomBit(d, i) == RomBit(SetBit(path, i, v), i);
  }

  /** One triplet of a pass while some device is still on the way to `p.rom`. */
  lemma AnswerStep(devices: set<Rom>, c: Cursor, bit: int, lo: nat, p: Partial, v: bool, q: Partial)
    requires 1 <= bit <= 64 && lo == bit - 1
    requires Present(devices, p.rom, lo, false) || Present(devices, p.rom, lo, true)
    requires var branch := Branch(devices, p.rom, lo);
      v == (if branch then Direction(c, bit) else Present(devices, p.rom, lo, true))
      && q == Partial(SetBit(p.rom, lo, v), if branch && !Direction(c, bit) then bit else p.conflict)
    ensures Step(p, bit, Answer(devices, p.rom, lo, Direction(c, bit))) == Ok(q)
  {
  }

  /** At every discrepancy from bit `lo` on, `rom` took the branch the cursor asks for. */
  predicate Follows(devices: set<Rom>, c: Cursor, rom: Rom, lo: nat)
  {
    forall i :: lo <= i < 64 && Branch(devices, rom, i) ==> RomBit(rom, i) == Direction(c, i + 1)
  }

  /** The pass on the simulated bus from `bit` on, as `Steps` computes it from the bus's answers. */
  function SimSteps(devices: set<Rom>, c: Cursor, bit: int, p: Partial): Result<Partial>
    requires 1 <= bit <= 65
  {
    Steps(p, bit, Answers(devices, c, bit, p))
  }

  lemma SimStepsCons(devices: set<Rom>, c: Cursor, bit: int, p: Partial, q: Partial)
    requires 1 <= bit <= 64 && Step(p, bit, Answer(devices, p.rom, bit - 1, Direction(c, bit))) == Ok(q)
    ensures SimSteps(devices, c, bit, p) == SimSteps(devices, c, bit + 1, q)
  {
    var s := Answer(devices, p.rom, bit - 1, Direction(c, bit));
    var rest := Answers(devices, c, bit + 1, q);
    assert Answers(devices, c, bit, p) == [s] + rest;
    assert ([s] + rest)[0] == s && ([s] + rest)[1..] == rest;
  }

  /**
   * What a pass from bit `lo` (0-based) on with partial code `p` gives: a device on the way to
   * `p.rom` that took at every discrepancy the branch the cursor asks for, with the last
   * discrepancy where it took 0 as its conflict.
   */
  predicate PassResult(devices: set<Rom>, c: Cursor, lo: nat, p: Partial, o: Result<Partial>)
    requires lo <= 64
  {
    o.Ok? && o.value.rom in devices && Agree(o.value.rom, p.rom, lo)
    && Follows(devices, c, o.value.rom, lo)
    && o.value.conflict == (if LastZeroBranch(devices, o.value.rom, lo) > 0
                            then LastZeroBranch(devices, o.value.rom, lo) else p.conflict)
  }

  /** While a device is on the way to `p.rom`, the pass cannot fail and gives a `PassResult`. */
  lemma {:induction false} PassFollows(devices: set<Rom>, c: Cursor, bit: int, lo: nat, p: Partial)
    requires 1 <= bit <= 65 && lo == bit - 1 && OnPath(devices, p.rom, lo)
    ensures PassResult(devices, c, lo, p, SimSteps(devices, c, bit, p))
    decreases 65 - bit
  {
    if bit == 65 {
      PassEnd(devices, c, p);
    } else {
      OnPathPresent(devices, p.rom, lo);
      var branch := Branch(devices, p.rom, lo);
      var v := if branch then Direction(c, bit) else Present(devices, p.rom, lo, true);
      var q := Partial(SetBit(p.rom, lo, v), if branch && !Direction(c, bit) then bit else p.conflict);
      StaysOnPath(devices, p.rom, lo, v);
      PassFollows(devices, c, bit + 1, bit, q);
      AnswerStep(devices, c, bit, lo, p, v, q);
      SimStepsCons(devices, c, bit, p, q);
      PassResultStep(devices, c, bit, lo, p, v, q, SimSteps(devices, c, bit + 1, q));
    }
  }

  /** After the last bit the path is the code of the one device on it. */
  lemma PassEnd(devices: set<Rom>, c: Cursor, p: Partial)
    requires OnPath(devices, p.rom, 64)
    ensures PassResult(devices, c, 64, p, SimSteps(devices, c, 65, p))
  {
    var d :| d in devices && Agree(d, p.rom, 64);
    RomBits(d, p.rom);
  }

  /** A device on the path has some value at the next bit. */
  lemma OnPathPresent(devices: set<Rom>, path: Rom, i: nat)
    requires i < 64 && OnPath(devices, path, i)
    ensures Present(devices, path, i, false) || Present(devices, path, i, true)
  {
    var d :| d in devices && Agree(d, path, i);
    assert Present(devices, path, i, RomBit(d, i));
  }

  /** Writing a value some device on the path has keeps a device on the path. */
  lemma StaysOnPath(devices: set<Rom>, path: Rom, i: nat, v: bool)
    requires i < 64 && Present(devices, path, i, v)
    ensures OnPath(devices, SetBit(path, i, v), i + 1)
  {
    var d :| d in devices && Agree(d, path, i) && RomBit(d, i) == v;
    AgreeSetBit(d, path, i, v);
  }

  /** A `PassResult` from bit `bit` after bit `lo = bit - 1` was written as `v`. */
  lemma PassResultStep(devices: set<Rom>, c: Cursor, bit: int, lo: nat, p: Partial, v: bool, q: Partial, o: Result<Partial>)
    requires 1 <= bit <= 64 && lo == bit - 1
    requires Branch(devices, p.rom, lo) ==> v == Direction(c, bit)
    requires q.rom == SetBit(p.rom, lo, v)
    requires q.conflict == if Branch(devices, p.rom, lo) && !Direction(c, bit) then bit else p.conflict
    requires PassResult(devices, c, bit, q, o)
    ensures PassResult(devices, c, lo, p, o)
  {
    var m := o.value.rom;
    AgreeOfSetBit(m, p.rom, lo, v);
    BranchAgree(devices, m, p.rom, lo);
    FollowsDown(devices, c, m, lo);
    assert LastZeroBranch(devices, m, lo)
        == if LastZeroBranch(devices, m, bit) > 0 then LastZeroBranch(devices, m, bit)
           else if Branch(devices, m, lo) && !RomBit(m, lo) then bit else 0;
  }

  /** Paths that agree up to bit `i` have a discrepancy at `i` together. */
  lemma BranchAgree(devices: set<Rom>, a: Rom, b: Rom, i: nat)
    requires i < 64 && Agree(a, b, i)
    ensures Branch(devices, a, i) == Branch(devices, b, i)
  {
    PresentAgree(devices, a, b, i, false);
    PresentAgree(devices, a, b, i, true);
  }

  /** `Follows` from bit `lo + 1`, and at bit `lo`, is `Follows` from `lo`. */
  lemma FollowsDown(devices: set<Rom>, c: Cursor, rom: Rom, lo: nat)
    requires lo < 64 && Follows(devices, c, rom, lo + 1)
    requires Branch(devices, rom, lo) ==> RomBit(rom, lo) == Direction(c, lo + 1)
    ensures Follows(devices, c, rom, lo)
  {
  }

  /* ---------------------------------------------------------------------------------------- */
  /* Which device a pass finds                                                                */

  /** `LastZeroBranch` names a discrepancy where the path has 0... */
  lemma {:induction false} LastZeroBranchAt(devices: set<Rom>, path: Rom, lo: nat, k: nat)
    requires lo <= 64 && k == LastZeroBranch(devices, path, lo) && k > 0
    ensures Branch(devices, path, k - 1) && !RomBit(path, k - 1)
    decreases 64 - lo
  {
    var k' := LastZeroBranch(devices, path, lo + 1);
    if k' > 0 {
      LastZeroBranchAt(devices, path, lo + 1, k');
    } else {
      assert k - 1 == lo;
    }
  }

  /** ... and there is none after it. */
  lemma {:induction false} LastZeroBranchAfter(devices: set<Rom>, path: Rom, lo: nat, j: nat)
    requires lo <= j < 64 && LastZeroBranch(devices, path, lo) <= j
    ensures !(Branch(devices, path, j) && !RomBit(path, j))
    decreases 64 - lo
  {
    if lo < j {
      LastZeroBranchAfter(devices, path, lo + 1, j);
    } else {
      assert LastZeroBranch(devices, path, lo + 1) == 0;
    }
  }

  /** Two codes agreeing on bits 0..n-1 and at bit n agree on bits 0..n. */
  lemma AgreeExtend(a: Rom, b: Rom, n: nat)
    requires n < 64 && Agree(a, b, n) && RomBit(a, n) == RomBit(b, n)
    ensures Agree(a, b, n + 1)
  {
  }

  /** Where some device has each of two values, a pass through there is at a discrepancy. */
  lemma BranchOf(devices: set<Rom>, path: Rom, i: nat, a: Rom, b: Rom)
    requires i < 64 && a in devices && b in devices && Agree(a, path, i) && Agree(b, path, i)
    requires RomBit(a, i) != RomBit(b, i)
    ensures Branch(devices, path, i)
  {
    assert Present(devices, path, i, RomBit(a, i));
    assert Present(devices, path, i, RomBit(b, i));
  }

  /**
   * A device a pass finds while asking for 0 at every discrepancy from bit `lo` on comes before
   * every other device that agrees with it on bits 0..lo-1.
   */
  lemma Least(devices: set<Rom>, c: Cursor, m: Rom, lo: nat, d: Rom)
    requires lo <= 64 && m in devices && d in devices && d != m && Agree(d, m, lo)
    requires Follows(devices, c, m, lo)
    requires forall bit :: lo < bit <= 64 ==> !Direction(c, bit)
    ensures Before(m, d)
  {
    var k := FirstDiff(m, d, lo);
    if k == 64 {
      RomBits(m, d);
    }
    assert Agree(m, m, k);
    BranchOf(devices, m, k, m, d);
    BeforeAt(m, d, k);
  }

  /** The first pass, from the start, finds the device that comes before every other. */
  lemma FirstPass(devices: set<Rom>, m: Rom, d: Rom)
    requires m in devices && d in devices && d != m && Follows(devices, Start, m, 0)
    ensures Before(m, d)
  {
    Least(devices, Start, m, 0, d);
  }

  /** The cursor a pass leaves after finding `r`. */
  function CursorOf(devices: set<Rom>, r: Rom): Cursor
  {
    Cursor(Some(r), LastZeroBranch(devices, r, 0))
  }

  /** Up to the bit before the last conflict, the next pass retraces the previous device. */
  lemma {:induction false} Retrace(devices: set<Rom>, r: Rom, m: Rom, n: nat)
    requires r in devices && m in devices && Follows(devices, CursorOf(devices, r), m, 0)
    requires n < LastZeroBranch(devices, r, 0)
    ensures Agree(m, r, n)
  {
    if n > 0 {
      var i := n - 1;
      Retrace(devices, r, m, i);
      assert Agree(m, m, i) && Agree(r, m, i);
      assert Present(devices, m, i, RomBit(r, i));
      assert Present(devices, m, i, RomBit(m, i));
      AgreeExtend(m, r, i);
    }
  }

  /** The bit where the next pass leaves `r`: the last conflict of the pass that found `r`. */
  lemma NextPassTurns(devices: set<Rom>, r: Rom, m: Rom)
    requires r in devices && m in devices && Follows(devices, CursorOf(devices, r), m, 0)
    requires LastZeroBranch(devices, r, 0) > 0
    ensures var k := LastZeroBranch(devices, r, 0) - 1;
      Agree(m, r, k) && !RomBit(r, k) && RomBit(m, k)
  {
    var k := LastZeroBranch(devices, r, 0) - 1;
    LastZeroBranchAt(devices, r, 0, k + 1);
    Retrace(devices, r, m, k);
    PresentAgree(devices, m, r, k, false);
    PresentAgree(devices, m, r, k, true);
  }

  /**
   * A pass from the cursor left by `r` with a conflict finds the device that comes next: after
   * `r`, and before every other device after `r`.
   */
  lemma NextPass(devices: set<Rom>, r: Rom, m: Rom, d: Rom)
    requires r in devices && m in devices && Follows(devices, CursorOf(devices, r), m, 0)
    requires LastZeroBranch(devices, r, 0) > 0
    ensures Before(r, m)
    ensures d in devices && d != m && Before(r, d) ==> Before(m, d)
  {
    var k := LastZeroBranch(devices, r, 0) - 1;
    NextPassTurns(devices, r, m);
    BeforeAt(r, m, k);
    if d in devices && d != m && Before(r, d) {
      var j :| 0 <= j < 64 && Agree(r, d, j) && !RomBit(r, j) && RomBit(d, j);
      NextPassBefore(devices, r, m, d, k, j);
    }
  }

  /** The case analysis of `NextPass` on the first bit `j` where a later device `d` leaves `r`. */
  lemma NextPassBefore(devices: set<Rom>, r: Rom, m: Rom, d: Rom, k: nat, j: nat)
    requires r in devices && m in devices && Follows(devices, CursorOf(devices, r), m, 0)
    requires k + 1 == LastZeroBranch(devices, r, 0) && Agree(m, r, k) && RomBit(m, k)
    requires d in devices && d != m && j < 64 && Agree(r, d, j) && !RomBit(r, j) && RomBit(d, j)
    ensures Before(m, d)
  {
    assert Agree(r, r, j);
    BranchOf(devices, r, j, r, d);
    if k < j {
      LastZeroBranchAfter(devices, r, 0, j);
      assert false;
    } else if j < k {
      AgreeBit(m, r, k, j);
      AgreeDown(m, r, k, j);
      AgreeTrans(m, r, d, j);
      BeforeAt(m, d, j);
    } else {
      AgreeTrans(d, r, m, k);
      AgreeExtend(d, m, k);
      Least(devices, CursorOf(devices, r), m, k + 1, d);
    }
  }

  /** A pass that leaves no conflict found the last device: none comes after it. */
  lemma LastPass(devices: set<Rom>, r: Rom, d: Rom)
    requires r in devices && d in devices && LastZeroBranch(devices, r, 0) == 0
    ensures !Before(r, d)
  {
    forall j | 0 <= j < 64 && Agree(r, d, j) && !RomBit(r, j)
      ensures !RomBit(d, j)
    {
      LastZeroBranchAfter(devices, r, 0, j);
      assert Agree(r, r, j);
      assert Present(devices, r, j, false);
      assert Agree(d, r, j);
      assert Present(devices, r, j, RomBit(d, j));
    }
  }

  /* ---------------------------------------------------------------------------------------- */
  /* What the search finds                                                                    */

  /** Every code of `rs` comes before every code after it. */
  predicate Ascending(rs: seq<Rom>)
  {
    forall i, j {:trigger Before(rs[i], rs[j])} :: 0 <= i < j < |rs| ==> Before(rs[i], rs[j])
  }

  /** The cursor after the passes that found `rs`: the start, then what the last pass left. */
  function CursorAfter(devices: set<Rom>, rs: seq<Rom>): Cursor
  {
    if rs == [] then Start else CursorOf(devices, rs[|rs| - 1])
  }

  /** `rs` is, in order, every device up to its last element. */
  predicate FoundSoFar(devices: set<Rom>, rs: seq<Rom>)
  {
    Ascending(rs) && (forall i :: 0 <= i < |rs| ==> rs[i] in devices)
    && (rs != [] ==> forall d :: d in devices && Before(d, rs[|rs| - 1]) ==> d in rs)
  }

  /** `rs` is, in order, every device. */
  predicate Complete(devices: set<Rom>, rs: seq<Rom>)
  {
    Ascending(rs) && (forall i :: 0 <= i < |rs| ==> rs[i] in devices)
    && forall d :: d in devices ==> d in rs
  }

  /** The codes found so far come no later than the last of them. */
  lemma FoundBefore(rs: seq<Rom>, x: Rom)
    requires Ascending(rs) && x in rs
    ensures x == rs[|rs| - 1] || Before(x, rs[|rs| - 1])
  {
    var i :| 0 <= i < |rs| && rs[i] == x;
  }

  /** The device the next pass finds extends what was found so far. */
  lemma FoundNext(devices: set<Rom>, rs: seq<Rom>, m: Rom)
    requires FoundSoFar(devices, rs) && (rs != [] ==> LastZeroBranch(devices, rs[|rs| - 1], 0) > 0)
    requires m in devices && Follows(devices, CursorAfter(devices, rs), m, 0)
    ensures m !in rs && FoundSoFar(devices, rs + [m])
  {
    var rs' := rs + [m];
    BeforeIrreflexive(m);
    if rs == [] {
      forall d | d in devices ensures !Before(d, m) {
        if d != m {
          FirstPass(devices, m, d);
          BeforeAsymmetric(m, d);
        }
      }
    } else {
      var r := rs[|rs| - 1];
      NextPass(devices, r, m, m);
      forall x | x in rs ensures x != m {
        FoundBefore(rs, x);
        if x != r {
          BeforeTransitive(x, r, m);
        }
      }
      forall i, j | 0 <= i < j < |rs'| ensures Before(rs'[i], rs'[j]) {
        if j == |rs| && i < |rs| - 1 {
          BeforeTransitive(rs[i], r, m);
        }
      }
      forall d | d in devices && Before(d, m) ensures d in rs' {
        if d != r {
          BeforeTotal(d, r);
          NextPass(devices, r, m, d);
          BeforeAsymmetric(d, m);
        }
      }
    }
  }

  /** Codes in strictly ascending order are all different. */
  lemma {:induction false} AscendingCount(rs: seq<Rom>)
    requires Ascending(rs)
    ensures |set x | x in rs| == |rs|
    decreases |rs|
  {
    if rs != [] {
      var init := rs[..|rs| - 1];
      var x := rs[|rs| - 1];
      assert Ascending(init);
      AscendingCount(init);
      BeforeIrreflexive(x);
      assert x !in init;
      assert rs == init + [x];
      assert (set y | y in rs) == (set y | y in init) + {x};
    }
  }

  /** A complete result holds each device once. */
  lemma CompleteCount(devices: set<Rom>, rs: seq<Rom>)
    requires Complete(devices, rs)
    ensures |rs| == |devices|
  {
    AscendingCount(rs);
    assert (set x | x in rs) == devices;
  }

  /** While something is left to find, fewer codes than devices have been found. */
  lemma FewerFound(devices: set<Rom>, rs: seq<Rom>, m: Rom)
    requires FoundSoFar(devices, rs) && m in devices && m !in rs
    ensures |rs| < |devices|
  {
    var found := set x | x in rs;
    AscendingCount(rs);
    assert found <= devices - {m};
    SubsetCount(found, devices - {m});
  }

  lemma {:induction false} SubsetCount(a: set<Rom>, b: set<Rom>)
    requires a <= b
    ensures |a| <= |b|
    decreases |a|
  {
    if a != {} {
      var x :| x in a;
      SubsetCount(a - {x}, b - {x});
    }
  }

  /* ---------------------------------------------------------------------------------------- */
  /* The search on the simulated bus                                                          */

  /** The reset status: a presence pulse when some device is on the wire. */
  function Presence(devices: set<Rom>): Byte
  {
    if devices == {} then 0x00 else STATUS_PRESENCE
  }

  /** The partial code a pass starts from. */
  const Fresh := Partial(ZeroRom, 0)

  /**
   * What the bridge answers during one `searchROM` from cursor `c`, then `rest`: a ready status
   * and the reset status, two ready statuses for the SEARCH ROM byte, then a ready status and
   * the triplet answer per bit.
   */
  function PassReplies(devices: set<Rom>, c: Cursor, rest: seq<Byte>): seq<Byte>
  {
    [0, Presence(devices), 0, 0] + PassScript(Answers(devices, c, 1, Fresh), rest)
  }

  /** What the bridge answers to at most `n` passes from cursor `c`, stopping after a pass without conflict. */
  function SimScript(devices: set<Rom>, c: Cursor, n: nat): seq<Byte>
    decreases n, 1
  {
    if n == 0 then [] else PassesFrom(devices, c, n)
  }

  /** What the bridge answers to the pass from cursor `c`, then to the passes after it, `n` in all at most. */
  function PassesFrom(devices: set<Rom>, c: Cursor, n: nat): seq<Byte>
    requires n >= 1
    decreases n, 0
  {
    var o := SimSteps(devices, c, 1, Fresh);
    PassReplies(devices, c,
      if o.Ok? && o.value.conflict != 0 then SimScript(devices, Cursor(Some(o.value.rom), o.value.conflict), n - 1)
      else [])
  }

  /** The ids of the codes `rs`, in order. */
  function Hexes(rs: seq<Rom>): (ids: seq<string>)
    ensures |ids| == |rs| && forall i :: 0 <= i < |rs| ==> ids[i] == Hex(rs[i])
  {
    seq(|rs|, i requires 0 <= i < |rs| => Hex(rs[i]))
  }

  /** The ROM codes of the devices are valid: the driver throws on any other. */
  predicate AllValidRoms(devices: set<Rom>)
  {
    forall d {:trigger ValidRom(d)} :: d in devices ==> ValidRom(d)
  }

  /** The reset and SEARCH ROM byte of a pass, on the simulated bus. */
  lemma SimSearchPrelude(devices: set<Rom>, tail: seq<Byte>, log: seq<seq<Byte>>)
    requires devices != {}
    ensures var b1 := Bus([0, 0] + tail, log + ResetWireLog);
      ResetWire(Bus([0, Presence(devices), 0, 0] + tail, log)) == Out(Ok(STATUS_PRESENCE), b1)
      && WriteAll(b1, [ONE_WIRE_SEARCH_ROM])
         == Out(Ok(0), Bus(tail, log + ResetWireLog + WriteLog([ONE_WIRE_SEARCH_ROM], 1)))
  {
    assert [0, Presence(devices), 0, 0] + tail == [0, STATUS_PRESENCE] + ([0, 0] + tail);
    ResetWireOutcome(0, STATUS_PRESENCE, [0, 0] + tail, log);
    assert Zeros(1 + Max(1, 1)) + tail == [0, 0] + tail;
    WriteDataIdle([ONE_WIRE_SEARCH_ROM], 1, tail, log + ResetWireLog);
  }

  /** `searchROM` put together from its reset, its SEARCH ROM byte and its pass. */
  lemma SearchRomOf(b: Bus, c: Cursor, b1: Bus, b2: Bus, o: Out<Partial>)
    requires ResetWire(b).res.Ok? && ResetWire(b).bus == b1
    requires WriteAll(b1, [ONE_WIRE_SEARCH_ROM]).res.Ok? && WriteAll(b1, [ONE_WIRE_SEARCH_ROM]).bus == b2
    requires Pass(b2, c, 1, Fresh) == o && o.res.Ok? && ValidRom(o.res.value.rom)
    ensures SearchRom(b, c) == SearchOut(Ok(Hex(o.res.value.rom)), o.bus, Cursor(Some(o.res.value.rom), o.res.value.conflict))
  {
    assert SearchPass(b, c) == o;
  }

  /** A pass on the simulated bus with some device on it gives a `PassResult`. */
  lemma SimPass(devices: set<Rom>, c: Cursor)
    requires devices != {}
    ensures PassResult(devices, c, 0, Fresh, SimSteps(devices, c, 1, Fresh))
  {
    var d :| d in devices;
    assert Agree(d, ZeroRom, 0);
    PassFollows(devices, c, 1, 0, Fresh);
  }

  /** One `searchROM` on the simulated bus finds the device of the pass and moves the cursor to it. */
  lemma SearchRomSim(devices: set<Rom>, c: Cursor, rest: seq<Byte>, log: seq<seq<Byte>>)
    requires devices != {} && AllValidRoms(devices)
    ensures var o := SimSteps(devices, c, 1, Fresh);
      PassResult(devices, c, 0, Fresh, o)
      && SearchRom(Bus(PassReplies(devices, c, rest), log), c)
         == SearchOut(Ok(Hex(o.value.rom)),
                      Bus(rest, PassLog(c, 1, log + ResetWireLog + WriteLog([ONE_WIRE_SEARCH_ROM], 1))),
                      CursorOf(devices, o.value.rom))
  {
    SimPass(devices, c);
    var ss := Answers(devices, c, 1, Fresh);
    AnswersNoneBusy(devices, c, 1, Fresh);
    var tail := PassScript(ss, rest);
    SimSearchPrelude(devices, tail, log);
    var log2 := log + ResetWireLog + WriteLog([ONE_WIRE_SEARCH_ROM], 1);
    PassOnScript(c, 1, Fresh, ss, rest, log2);
    var o := Out(SimSteps(devices, c, 1, Fresh), Bus(rest, PassLog(c, 1, log2)));
    assert Pass(Bus(tail, log2), c, 1, Fresh) == o;
    SearchRomOf(Bus(PassReplies(devices, c, rest), log), c, Bus([0, 0] + tail, log + ResetWireLog), Bus(tail, log2), o);
  }

  /** With no device on the wire the reset finds no presence pulse, and `search` throws. */
  lemma SearchNoDevice(n: nat, log: seq<seq<Byte>>)
    requires n >= 1
    ensures Search(Bus(SimScript({}, Start, n), log)).res == Err(NoDevicePresent)
  {
    SimScriptStarts({}, Start, n);
    var script := SimScript({}, Start, n);
    assert script == [0, 0] + script[2..];
    ResetWireOutcome(0, 0, script[2..], log);
    assert SearchLoop(Bus(script, log), Start, []) == SearchRound(Bus(script, log), Start, []);
  }

  /** A script with passes left starts with a ready status and the reset status. */
  lemma SimScriptStarts(devices: set<Rom>, c: Cursor, n: nat)
    requires n >= 1
    ensures |SimScript(devices, c, n)| >= 2
    ensures SimScript(devices, c, n)[0] == 0 && SimScript(devices, c, n)[1] == Presence(devices)
  {
  }

  /** A script with passes left starts with the replies of the next pass. */
  lemma SimScriptCons(devices: set<Rom>, c: Cursor, n: nat)
    requires n >= 1
    ensures var o := SimSteps(devices, c, 1, Fresh);
      SimScript(devices, c, n)
      == PassReplies(devices, c,
           if o.Ok? && o.value.conflict != 0 then SimScript(devices, Cursor(Some(o.value.rom), o.value.conflict), n - 1)
           else [])
  {
  }

  /** One round of the loop of `search`, once its `searchROM` has succeeded. */
  lemma SearchLoopOf(b: Bus, c: Cursor, found: seq<string>, p: SearchOut<string>)
    requires SearchRom(b, c) == p && p.res.Ok?
    ensures SearchLoop(b, c, found)
         == if p.cursor.lastConflict != 0 then SearchLoop(p.bus, p.cursor, found + [p.res.value])
            else SearchOut(Ok(found + [p.res.value]), p.bus, Start)
  {
    assert SearchLoop(b, c, found) == SearchRound(b, c, found);
  }

  lemma HexesSnoc(rs: seq<Rom>, m: Rom)
    ensures Hexes(rs) + [Hex(m)] == Hexes(rs + [m])
  {
  }

  /** What the loop of `search` returns on the simulated bus after the passes that found `rs`. */
  ghost function LoopOutcome(devices: set<Rom>, rs: seq<Rom>, n: nat, log: seq<seq<Byte>>): SearchOut<seq<string>>
  {
    var c := CursorAfter(devices, rs);
    SearchLoop(Bus(SimScript(devices, c, n), log), c, Hexes(rs))
  }

  /**
   * The codes the simulated passes find after `rs`, at most `n` more: each pass from the cursor
   * the last one left, until a pass without conflict.
   */
  ghost function Found(devices: set<Rom>, rs: seq<Rom>, n: nat): seq<Rom>
    decreases n
  {
    var o := SimSteps(devices, CursorAfter(devices, rs), 1, Fresh);
    if n == 0 || o.Err? then rs
    else if o.value.conflict == 0 then rs + [o.value.rom]
    else Found(devices, rs + [o.value.rom], n - 1)
  }

  /** The next pass after `rs` finds the next device `m`, and the search either ends there or goes on from `m`. */
  lemma FoundStep(devices: set<Rom>, rs: seq<Rom>, n: nat) returns (m: Rom)
    requires SearchReady(devices, rs, n)
    ensures m in devices && FoundSoFar(devices, rs + [m]) && n >= 1 && |rs + [m]| + (n - 1) >= |devices|
    ensures rs + [m] != [] ==> LastZeroBranch(devices, (rs + [m])[|rs + [m]| - 1], 0) == LastZeroBranch(devices, m, 0)
    ensures SimSteps(devices, CursorAfter(devices, rs), 1, Fresh) == Ok(Partial(m, LastZeroBranch(devices, m, 0)))
    ensures Found(devices, rs, n) == if LastZeroBranch(devices, m, 0) != 0 then Found(devices, rs + [m], n - 1) else rs + [m]
  {
    var c := CursorAfter(devices, rs);
    var o := SimSteps(devices, c, 1, Fresh);
    SimPass(devices, c);
    m := o.value.rom;
    FoundNext(devices, rs, m);
    FewerFound(devices, rs, m);
    assert o.value.conflict == LastZeroBranch(devices, m, 0);
  }

  /** What holds before each pass of the loop of `search` on the simulated bus: the passes so far found `rs`, and `n` more are enough. */
  ghost predicate SearchReady(devices: set<Rom>, rs: seq<Rom>, n: nat)
  {
    devices != {} && AllValidRoms(devices) && FoundSoFar(devices, rs)
    && (rs != [] ==> LastZeroBranch(devices, rs[|rs| - 1], 0) > 0)
    && |rs| + n >= |devices|
  }

  /** The loop of `search` on the simulated bus, after the passes that found `rs`, returns the ids of what the passes find, whatever the log so far. */
  ghost predicate LoopFinds(devices: set<Rom>, rs: seq<Rom>, n: nat)
  {
    forall log :: LoopOutcome(devices, rs, n, log).res == Ok(Hexes(Found(devices, rs, n)))
  }

  /** After a pass without conflict everything has been found. */
  lemma SearchEnds(devices: set<Rom>, rs: seq<Rom>, m: Rom)
    requires FoundSoFar(devices, rs + [m]) && m in devices && LastZeroBranch(devices, m, 0) == 0
    ensures Complete(devices, rs + [m])
  {
    var rs' := rs + [m];
    forall d | d in devices ensures d in rs' {
      if d != m {
        LastPass(devices, m, d);
        BeforeTotal(d, m);
      }
    }
  }

  /** `search` on the simulated bus is its loop from the start, with nothing found yet. */
  lemma SearchStartsLoop(devices: set<Rom>, log: seq<seq<Byte>>)
    ensures Search(Bus(SimScript(devices, Start, |devices|), log)) == LoopOutcome(devices, [], |devices|, log)
  {
    assert Hexes([]) == [];
  }

  /** The ids of every device, each once, are as many as the devices and hold the id of each. */
  lemma CompleteIds(devices: set<Rom>, all: seq<Rom>)
    requires Complete(devices, all)
    ensures |Hexes(all)| == |devices| && forall d :: d in devices ==> Hex(d) in Hexes(all)
  {
    CompleteCount(devices, all);
    forall d | d in devices ensures Hex(d) in Hexes(all) {
      var i :| 0 <= i < |all| && all[i] == d;
      assert Hexes(all)[i] == Hex(d);
    }
  }
}
