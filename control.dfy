/**
 * Bridge configuration and channel selection: the Write Configuration byte of the DS2482
 * datasheet (upper nibble the complement of the lower), and the channel selection of the
 * DS2482-800 with the channel the driver believes is selected.
 */
module Control {
  import opened Bytes
  import opened Results
  import opened Commands
  import opened Wire

  /* ---------------------------------------------------------------------------------------- */
  /* Configuration                                                                            */

  /** The options of `configureBridge`; an absent option is `false`. */
  datatype Options = Options(activePullup: bool, strongPullup: bool, overdrive: bool)

  /** The configuration bits the options can touch. */
  const OPTION_BITS: Byte := CONFIG_ACTIVE | CONFIG_STRONG | CONFIG_OVERDRIVE

  /** `(config & ~bit) | (on ? 1 : 0) * bit`, applied only when the option is truthy. */
  function SetOption(config: Byte, on: bool, bit: Byte): (c: Byte)
    requires bit == CONFIG_ACTIVE || bit == CONFIG_STRONG || bit == CONFIG_OVERDRIVE
    ensures c & config == config
    ensures c & bit == if on then bit else config & bit
    ensures c & !bit == config & !bit
  {
    if on then (config & !bit) | bit else config
  }

  /** The new configuration: each truthy option sets its bit; none is ever cleared. */
  function ApplyOptions(config: Byte, o: Options): (c: Byte)
    ensures c & config == config
    ensures Has(c, CONFIG_ACTIVE) <==> o.activePullup || Has(config, CONFIG_ACTIVE)
    ensures Has(c, CONFIG_STRONG) <==> o.strongPullup || Has(config, CONFIG_STRONG)
    ensures Has(c, CONFIG_OVERDRIVE) <==> o.overdrive || Has(config, CONFIG_OVERDRIVE)
    ensures c & !OPTION_BITS == config & !OPTION_BITS
  {
    var c1 := SetOption(config, o.activePullup, CONFIG_ACTIVE);
    var c2 := SetOption(c1, o.strongPullup, CONFIG_STRONG);
    SetOption(c2, o.overdrive, CONFIG_OVERDRIVE)
  }

  /** The byte written with Write Configuration: the complement of the nibble, then the nibble. */
  function ConfigByte(config: Byte): (w: Byte)
    requires config <= 0x0F
    ensures w & 0x0F == config
    ensures w >> 4 == !config & 0x0F
    ensures WellFormedConfig(w)
  {
    ((!config & 0x0F) << 4) | config
  }

  /** The bridge accepts a configuration byte exactly when its upper nibble complements its lower one. */
  predicate WellFormedConfig(w: Byte)
  {
    w >> 4 == !(w & 0x0F) & 0x0F
  }

  /** No two configurations are sent as the same byte. */
  lemma ConfigByteInjective(c: Byte, d: Byte)
    requires c <= 0x0F && d <= 0x0F && ConfigByte(c) == ConfigByte(d)
    ensures c == d
  {
    assert ConfigByte(c) & 0x0F == c;
  }

  /**
   * `configureBridge(options, confirm)`: wait, read the configuration register (low nibble), set
   * the requested bits, write it back; with `confirm`, read back and insist on the same nibble.
   * Without `confirm` the result is `undefined` (`None`).
   */
  function ConfigureBridge(b: Bus, o: Options, confirm: bool): (r: Out<Option<Byte>>)
    ensures Later(b, r.bus)
    ensures r.res.Ok? ==> (r.res.value.Some? <==> confirm)
  {
    var w := Wait(b, true);
    if w.res.Err? then Out(Err(w.res.error), w.bus)
    else
      var rd := I2cRead(Send(w.bus, [SET_READ_POINTER, REG_CONFIG]));
      if rd.res.Err? then Out(Err(rd.res.error), rd.bus)
      else
        var config := ApplyOptions(rd.res.value & 0x0F, o);
        var b2 := Send(rd.bus, [WRITE_CONFIG, ConfigByte(config)]);
        if !confirm then Out(Ok(None), b2)
        else
          var resp := ReadBridge(b2, None);
          if resp.res.Err? then Out(Err(resp.res.error), resp.bus)
          else if resp.res.value != config then Out(Err(ConfigMismatch), resp.bus)
          else Out(Ok(Some(resp.res.value)), resp.bus)
  }

  /** The transactions of a configuration that went through. */
  function ConfigureLog(config: Byte): seq<seq<Byte>>
    requires config <= 0x0F
  {
    [[SET_READ_POINTER, REG_STATUS], [SET_READ_POINTER, REG_CONFIG], [WRITE_CONFIG, ConfigByte(config)]]
  }

  /**
   * A successful configuration wrote one well-formed configuration byte holding the low nibble
   * of the configuration register as read, with the options asked for set, and confirmed exactly that nibble when asked to.
   */
  lemma ConfigureBridgeWrites(b: Bus, o: Options, confirm: bool)
    requires ConfigureBridge(b, o, confirm).res.Ok?
    ensures var r := ConfigureBridge(b, o, confirm);
      var w := Wait(b, true);
      var rd := I2cRead(Send(w.bus, [SET_READ_POINTER, REG_CONFIG]));
      w.res.Ok? && rd.res.Ok?
      && var prior: Byte := rd.res.value & 0x0F;
        r.bus.log == b.log + ConfigureLog(ApplyOptions(prior, o))
        && WellFormedConfig(ConfigByte(ApplyOptions(prior, o)))
        && (confirm ==> r.res.value == Some(ApplyOptions(prior, o)))
  {
    var w := Wait(b, true);
    var rd := I2cRead(Send(w.bus, [SET_READ_POINTER, REG_CONFIG]));
    var prior: Byte := rd.res.value & 0x0F;
    var config := ApplyOptions(prior, o);
    assert b.log + ConfigureLog(config) == w.bus.log + [[SET_READ_POINTER, REG_CONFIG], [WRITE_CONFIG, ConfigByte(config)]];
  }

  /* ---------------------------------------------------------------------------------------- */
  /* Channel selection                                                                        */

  /**
   * What `this.channel` holds: `null` as the constructor leaves it, `undefined` after a
   * successful `selectChannel()` without a number, or a channel number. `selectChannel` compares
   * it with `===`, so the three never match one another.
   */
  datatype Recorded = Null | Undefined | Num(n: int)

  /** `num` as `this.channel = num` stores it: an absent number is `undefined`. */
  function Given(num: Option<int>): Recorded
  {
    if num.Some? then Num(num.value) else Undefined
  }

  /** What `selectChannel` and `_resetBridge` hand back: the result, the bus, the channel recorded. */
  datatype ChannelOut = ChannelOut(res: Result<Byte>, bus: Bus, channel: Recorded)

  /** `cmds.SELECTION_CODES[num]`: defined for the eight channels only. */
  function SelectionCode(num: int): (c: Option<SelectionCode>)
    ensures c.Some? <==> 0 <= num < 8
  {
    if 0 <= num < 8 then Some(SELECTION_CODES[num]) else None
  }

  /** `num || 0`: an absent channel number (`undefined`) indexes the codes as channel 0. */
  function ChannelIndex(num: Option<int>): (n: int)
    ensures num.Some? ==> n == num.value
    ensures num.None? ==> n == 0
  {
    if num.Some? then num.value else 0
  }

  /**
   * `selectChannel(num)` as written, with `None` for a call without a number: an unknown channel
   * throws; the code is looked up as `num || 0`, but the channel already selected is compared with
   * `num` itself, and when equal it answers its code without traffic; otherwise the selection goes out as
   * `writeData(CHANNEL_SELECT, [code])`, which sends the command byte as 1-Wire data and takes the
   * one-element array as the length, so the bridge gets `code` write-byte commands and never a
   * Channel Select. The read-back that follows must equal the channel's read code, and `num` as
   * given (`undefined` for an absent one) is recorded as the channel. `twin` chooses
   * the `writeData` of the `DS2482_X` class.
   */
  function SelectChannelAsWritten(b: Bus, channel: Recorded, num: Option<int>, twin: bool): (o: ChannelOut)
    ensures Later(b, o.bus)
    ensures !(0 <= ChannelIndex(num) < 8) ==> o == ChannelOut(Err(InvalidChannel), b, channel)
    ensures o.res.Err? ==> o.channel == channel
    ensures o.res.Ok? ==> o.channel == Given(num) && 0 <= ChannelIndex(num) < 8 && o.res.value == SELECTION_CODES[ChannelIndex(num)].read
    ensures channel == Given(num) && 0 <= ChannelIndex(num) < 8 ==> o == ChannelOut(Ok(SELECTION_CODES[ChannelIndex(num)].read), b, channel)
  {
    var ch := SelectionCode(ChannelIndex(num));
    if ch.None? then ChannelOut(Err(InvalidChannel), b, channel)
    else if channel == Given(num) then ChannelOut(Ok(ch.value.read), b, channel)
    else
      var w := Wait(b, true);
      if w.res.Err? then ChannelOut(Err(w.res.error), w.bus, channel)
      else
        var d := if twin then WriteDataPadded(w.bus, [CHANNEL_SELECT], ch.value.write as int)
                 else WriteData(w.bus, [CHANNEL_SELECT], ch.value.write as int);
        if d.res.Err? then ChannelOut(Err(d.res.error), d.bus, channel)
        else
          var resp := ReadBridge(d.bus, None);
          if resp.res.Err? then ChannelOut(Err(resp.res.error), resp.bus, channel)
          else if resp.res.value != ch.value.read then ChannelOut(Err(ChannelSelectFailed), resp.bus, channel)
          else ChannelOut(Ok(resp.res.value), resp.bus, Given(num))
  }

  /**
   * A call without a number. Once such a call has gone through (`undefined` recorded) it answers
   * channel 0's read code with no traffic. From any other record, the constructor's `null`
   * included, it sends what selecting channel 0 on a fresh bridge sends and gets the same answer,
   * but records `undefined` rather than channel 0.
   */
  lemma SelectWithoutNumber(b: Bus, channel: Recorded, twin: bool)
    ensures channel == Undefined ==>
      SelectChannelAsWritten(b, channel, None, twin) == ChannelOut(Ok(SELECTION_CODES[0].read), b, Undefined)
    ensures channel != Undefined ==> var o := SelectChannelAsWritten(b, channel, None, twin);
      var z := SelectChannelAsWritten(b, Null, Some(0), twin);
      o.res == z.res && o.bus == z.bus && (o.res.Ok? ==> o.channel == Undefined && z.channel == Num(0))
  {
  }

  /**
   * On a bridge that was never reset, `selectChannel()` is no shortcut: `null === undefined` is
   * false, so it waits on the bridge first, and with no answer to read it throws the read error.
   */
  lemma FreshSelectWaits(log: seq<seq<Byte>>, twin: bool)
    ensures SelectChannelAsWritten(Bus([], log), Null, None, twin)
         == ChannelOut(Err(IoError), Bus([], log + [[SET_READ_POINTER, REG_STATUS]]), Null)
  {
  }

  /** Whether any transaction of the log is the Channel Select command for `code`. */
  predicate SendsChannelSelect(log: seq<seq<Byte>>, code: Byte)
  {
    exists i :: 0 <= i < |log| && log[i] == [CHANNEL_SELECT, code]
  }

  /**
   * The as-written selection never issues Channel Select: a successful selection of a new
   * channel writes two status pointers and `code` write-byte commands, none of them the command.
   */
  lemma SelectChannelNeverSelects(b: Bus, channel: Recorded, num: Option<int>)
    requires channel != Given(num) && SelectChannelAsWritten(b, channel, num, false).res.Ok?
    ensures var o := SelectChannelAsWritten(b, channel, num, false);
      var code := SELECTION_CODES[ChannelIndex(num)].write;
      o.bus.log == b.log + [[SET_READ_POINTER, REG_STATUS]] + WriteLog([CHANNEL_SELECT], code as int)
      && |o.bus.log| == |b.log| + 2 + code as int
      && !SendsChannelSelect(o.bus.log[|b.log|..], code)
  {
    var code := SELECTION_CODES[ChannelIndex(num)].write;
    var added := [[SET_READ_POINTER, REG_STATUS]] + WriteLog([CHANNEL_SELECT], code as int);
    SelectLogAsWritten(b, channel, num);
    var log := SelectChannelAsWritten(b, channel, num, false).bus.log;
    assert log[|b.log|..] == added;
    NoChannelSelectWritten(code as int);
  }

  /** The transactions of a successful as-written selection of a new channel. */
  lemma SelectLogAsWritten(b: Bus, channel: Recorded, num: Option<int>)
    requires channel != Given(num) && SelectChannelAsWritten(b, channel, num, false).res.Ok?
    ensures SelectChannelAsWritten(b, channel, num, false).bus.log
         == b.log + ([[SET_READ_POINTER, REG_STATUS]] + WriteLog([CHANNEL_SELECT], SELECTION_CODES[ChannelIndex(num)].write as int))
  {
    var w := Wait(b, true);
    var d := WriteData(w.bus, [CHANNEL_SELECT], SELECTION_CODES[ChannelIndex(num)].write as int);
    assert SelectChannelAsWritten(b, channel, num, false).bus.log == d.bus.log;
  }

  /** Every transaction of `writeData(CHANNEL_SELECT, n)` after a wait starts with a pointer or a write-byte command. */
  lemma NoChannelSelectWritten(n: int)
    ensures var added := [[SET_READ_POINTER, REG_STATUS]] + WriteLog([CHANNEL_SELECT], n);
      forall i :: 0 <= i < |added| ==> added[i][0] != CHANNEL_SELECT
  {
    var cmds := WriteCmds([CHANNEL_SELECT], 0, Max(n, 1));
    var added := [[SET_READ_POINTER, REG_STATUS]] + WriteLog([CHANNEL_SELECT], n);
    assert added == [[SET_READ_POINTER, REG_STATUS], [SET_READ_POINTER, REG_STATUS]] + cmds;
    forall i | 0 <= i < |added|
      ensures added[i][0] != CHANNEL_SELECT
    {
      if i >= 2 {
        assert added[i] == cmds[i - 2];
      }
    }
  }

  /**
   * `selectChannel(num)` with the selection sent as the bridge command it names: after the wait,
   * one Channel Select transaction carrying the channel's write code, then the read-back, which
   * the DS2482-800 answers from its channel selection register.
   */
  function SelectChannel(b: Bus, channel: Recorded, num: Option<int>): (o: ChannelOut)
    ensures Later(b, o.bus)
    ensures !(0 <= ChannelIndex(num) < 8) ==> o == ChannelOut(Err(InvalidChannel), b, channel)
    ensures o.res.Err? ==> o.channel == channel
    ensures o.res.Ok? ==> o.channel == Given(num) && 0 <= ChannelIndex(num) < 8 && o.res.value == SELECTION_CODES[ChannelIndex(num)].read
    ensures o.res.Ok? && channel != Given(num) ==>
      o.bus.log == b.log + [[SET_READ_POINTER, REG_STATUS], [CHANNEL_SELECT, SELECTION_CODES[ChannelIndex(num)].write]]
    ensures channel == Given(num) && 0 <= ChannelIndex(num) < 8 ==> o == ChannelOut(Ok(SELECTION_CODES[ChannelIndex(num)].read), b, channel)
  {
    var ch := SelectionCode(ChannelIndex(num));
    if ch.None? then ChannelOut(Err(InvalidChannel), b, channel)
    else if channel == Given(num) then ChannelOut(Ok(ch.value.read), b, channel)
    else
      var w := Wait(b, true);
      if w.res.Err? then ChannelOut(Err(w.res.error), w.bus, channel)
      else
        var resp := ReadBridge(Send(w.bus, [CHANNEL_SELECT, ch.value.write]), None);
        if resp.res.Err? then ChannelOut(Err(resp.res.error), resp.bus, channel)
        else if resp.res.value != ch.value.read then ChannelOut(Err(ChannelSelectFailed), resp.bus, channel)
        else ChannelOut(Ok(resp.res.value), resp.bus, Given(num))
  }

  /**
   * `_resetBridge`: device reset, wait; the channel is recorded as 0 once the wait returns,
   * whatever the status says.
   */
  function ResetBridgeChannel(b: Bus, channel: Recorded): (o: ChannelOut)
    ensures o.res.Ok? ==> o.channel == Num(0)
    ensures o.res.Err? ==> o.channel == channel
    ensures o.bus == ResetBridge(b).bus
  {
    var r := ResetBridge(b);
    if r.res.Err? then ChannelOut(Err(r.res.error), r.bus, channel) else ChannelOut(r.res, r.bus, Num(0))
  }
}
