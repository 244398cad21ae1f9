/**
 * The search of Maxim Application Note 187, as the driver runs it, on the simulated bus: the
 * loop over the passes, and what it returns in the end.
 */
module SimSearch {
  import opened Bytes
  import opened Results
  import opened Wire
  import opened OneWire
  import opened SimBus

  /** One pass of the loop of `search` on the simulated bus: it finds the next device `m`, then either goes on from it or returns what was found. */
  lemma LoopPass(devices: set<Rom>, rs: seq<Rom>, n: nat, log: seq<seq<Byte>>) returns (m: Rom, log': seq<seq<Byte>>)
    requires SearchReady(devices, rs, n)
    ensures n >= 1
    ensures SimSteps(devices, CursorAfter(devices, rs), 1, Fresh) == Ok(Partial(m, LastZeroBranch(devices, m, 0)))
    ensures LastZeroBranch(devices, m, 0) != 0 ==> LoopOutcome(devices, rs, n, log) == LoopOutcome(devices, rs + [m], n - 1, log')
    ensures LastZeroBranch(devices, m, 0) == 0 ==> LoopOutcome(devices, rs, n, log).res == Ok(Hexes(rs + [m]))
  {
    m := FoundStep(devices, rs, n);
    var c := CursorAfter(devices, rs);
    var more := if LastZeroBranch(devices, m, 0) != 0 then SimScript(devices, CursorOf(devices, m), n - 1) else [];
    SimScriptCons(devices, c, n);
    assert SimScript(devices, c, n) == PassReplies(devices, c, more);
    HexesSnoc(rs, m);
    assert CursorAfter(devices, rs + [m]) == CursorOf(devices, m);
    SearchRomSim(devices, c, more, log);
    var b := Bus(SimScript(devices, c, n), log);
    var p := SearchRom(b, c);
    log' := p.bus.log;
    assert p == SearchOut(Ok(Hex(m)), Bus(more, log'), CursorOf(devices, m));
    SearchLoopOf(b, c, Hexes(rs), p);
    assert LoopOutcome(devices, rs, n, log) == SearchLoop(b, c, Hexes(rs));
  }

  /** The loop of `search` on the simulated bus, after the passes that found `rs`, returns the ids of what the passes find. */
  lemma {:induction false} SearchLoopSim(devices: set<Rom>, rs: seq<Rom>, n: nat)
    requires SearchReady(devices, rs, n)
    ensures LoopFinds(devices, rs, n)
    decreases n
  {
    var m := FoundStep(devices, rs, n);
    if LastZeroBranch(devices, m, 0) != 0 {
      SearchLoopSim(devices, rs + [m], n - 1);
    }
    forall log ensures LoopOutcome(devices, rs, n, log).res == Ok(Hexes(Found(devices, rs, n))) {
      var m', log' := LoopPass(devices, rs, n, log);
      assert m' == m;
    }
  }

  /** The passes after `rs` find every device, each once, in ascending order. */
  lemma {:induction false} FoundComplete(devices: set<Rom>, rs: seq<Rom>, n: nat)
    requires SearchReady(devices, rs, n)
    ensures Complete(devices, Found(devices, rs, n))
    decreases n
  {
    var m := FoundStep(devices, rs, n);
    if LastZeroBranch(devices, m, 0) != 0 {
      FoundComplete(devices, rs + [m], n - 1);
    } else {
      SearchEnds(devices, rs, m);
    }
  }

  /**
   * `search` on a wire with devices whose ROM codes are valid, each answering as the wire does:
   * it returns the id of every device exactly once, in ascending order of the ROM bits, and
   * leaves the cursor at the start.
   */
  lemma SearchFindsEveryDevice(devices: set<Rom>, log: seq<seq<Byte>>)
    requires devices != {} && AllValidRoms(devices)
    ensures var o := Search(Bus(SimScript(devices, Start, |devices|), log));
      o.res.Ok? && o.cursor == Start && |o.res.value| == |devices|
      && (forall d :: d in devices ==> Hex(d) in o.res.value)
      && exists all :: o.res.value == Hexes(all) && Complete(devices, all)
  {
    var all := Found(devices, [], |devices|);
    SearchLoopSim(devices, [], |devices|);
    FoundComplete(devices, [], |devices|);
    SearchStartsLoop(devices, log);
    CompleteIds(devices, all);
  }
}
