# DS2482 1-Wire bridge driver, modelled in Dafny

This project models the core of node-red-DS2482-mcu. That is the driver for the DS2482-100/-800 I2C-to-1-Wire
bridge on a Moddable micro-controller, together with three device decoders that use it.

**The bridge.** The model covers two classes.
- `DS2482` in mcu/ds2482.js.
- `DS2482_X` in mcu/ds2482_Y.js (the "twin"). It is a variant of the first class:
  - its `writeData` pads past the end of its data with zeros;
  - its `readData(0)` makes one read-byte transaction and returns an empty array, where the first
    class throws;
  - its `matchROM` accepts text only;
  - it adds `resumeROM`, `crc8`, `crc16` and the little-endian readers, but has no `checkCRC`, and
    the arrays it returns are plain `Uint8Array`s without the `Buffer` readers the decoders call;
  - its ROM text comes from Moddable's `Hex.toString`, taken here to give lower-case digits as
    `toString('hex')` does.

Both classes are one Dafny class, `Ds2482.Bridge`, with a `twin` flag. It holds the fields the driver
updates in place:
- the selected channel;
- the search cursor, `lastFound` and `lastConflict`;
- the worker cache, `#workers` and `#modules['*generic*']`;
- the list of devices last found.

The I2C bus is an `I2c` object. It holds the bytes the bridge will answer, as a script, and the log of
every write transaction.

Each bridge operation has two forms:
- a function from the bus (and cursor, cache or channel) before to the outcome and the state after, in
  the modules `Wire`, `OneWire`, `Control` and `Ds2482`;
- a method that performs the same steps on the object. Its `ensures` equates the new state with that
  function.

The properties are then proved about the functions:
- the search's ROM codes are valid;
- the CRC-8 agrees between the two classes;
- the configuration byte is well formed;
- selecting the channel already selected needs no traffic;
- the worker cache stays valid.

**The decoders.** Three decoders are modelled:
- devices/ds2408.js, the 8-channel switch: burst register reads checked by CRC-16, register writes,
  Channel-Access Write, and its table of paths;
- devices/ds18b20.js, the thermometer: scratchpad, resolution, conversion and temperature;
- devices/ds2438.js, the battery monitor: scratchpad, temperature, voltages, current, humidity and
  illuminance.

Each decoder routine is a function over the bus and a method on the bridge that is proved equal to it.
The path handlers model the code as written, including the defects listed under "## Findings"; each
defect also has a corrected member beside it (`ReadIntended`, `TempConvIntended`, `TempReadIntended`),
and a lemma says where the two differ.

**The router.** `readPath`, `writePath` and `paths` are in the module `Router`. The string operations
they use (lower case, split and join, and the default sort order) are in `Text`.

**The simulated bus.** The module `SimBus` models a wire carrying a finite set of devices, each
with a 64-bit ROM code. It answers each triplet of a search as the wire does:
- the two read slots are the wired AND of the remaining devices' bit and of its complement;
- the bridge writes the common bit, or the requested direction at a discrepancy;
- the devices whose bit differs from the one written drop out of the pass.

The module `SimSearch` proves that `search` on such a bus returns the id of every device exactly
once. The ids come in ascending order of the ROM bits read from bit 0 up, with 0 before 1. The
search also clears the cursor at the end.

A thrown exception is an `Err` of `Results.Error`. The outcome of every operation is `Out(result, bus)`.

## Model

| member | source | states |
|---|---|---|
| Bytes.ReadUInt16LE | mcu/ds2482_Y.js:768-771 | the value is in 0..65535; its low byte is `a[offset]` and its high byte `a[offset+1]` (0 past the end) |
| Bytes.ReadInt16LE | mcu/ds2482_Y.js:773-777 | the value is in -32768..32767 and agrees with the unsigned reading modulo 65536; it is negative exactly when bit 15 is set |
| Bytes.ReadInt16LERoundTrip | mcu/ds2482_Y.js:773-777 | reading back the two bytes a device sends for a signed 16-bit value gives that value |
| Bytes.Hex | mcu/ds2482.js:360 | `toString('hex')`: two lower-case hexadecimal digits per byte |
| Bytes.HexDecode | mcu/ds2482.js:389-392 | `Buffer.from(id, "hex")`: at most one byte per two characters |
| Bytes.HexRoundTrip | mcu/ds2482.js:386-401 | decoding the text of a ROM code gives the code back, so `matchROM(searchROM())` addresses the device found |
| Bytes.HexInjective | mcu/ds2482.js:360 | two codes with the same text are the same code |
| Bytes.HexFamily | mcu/ds2482.js:627-632 | the first two characters of the text are the family byte's text; the rest is the serial's text |
| Crc.CheckCrc | mcu/ds2482.js:32-56 | `checkCRC(buffer, length)` is true exactly when the CRC-8 register over the first `length` bytes (default: all) ends at zero; a length past the buffer throws a RangeError |
| Crc.Crc8Append | mcu/ds2482.js:32-56 | the register after one more byte is one outer-loop step from the register before it |
| Crc.ShiftsZero | mcu/ds2482.js:43-50 | the eight shifts of the inner loop give zero only from zero |
| Crc.Crc8Residue | mcu/ds2482.js:32-56 | a block followed by byte `b` checks exactly when `b` is the CRC of the block: the CRC byte of a ROM code is determined by its first seven bytes |
| Crc.Crc8MaximAgrees | mcu/ds2482_Y.js:748-756 | the twin's CRC-8/MAXIM (reflected, polynomial 0x31) equals `checkCRC`'s register, so both classes reject the same ROM codes |
| Crc.Crc16Check | mcu/ds2482_Y.js:758-765 | `crc16` is the catalogue's CRC-16/MAXIM: the nine ASCII digits "123456789" give its check value 0x44C2 |
| Wire.Wait | mcu/ds2482.js:506-529 | `_wait` returns the first status with the busy bit clear, consumes at least one reply, and writes the status pointer only when asked to |
| Wire.WaitSkipsBusy | mcu/ds2482.js:506-529 | after any run of busy statuses, `_wait` answers the first idle one and consumes exactly the statuses up to it |
| Wire.WaitIdle | mcu/ds2482.js:506-529 | on an idle status, `_wait` answers it at once |
| Wire.Triplet | mcu/ds2482.js:469-474 | `triplet(dir)` writes the status pointer and the triplet command with direction byte 0x80 or 0x00 |
| Wire.Bit | mcu/ds2482.js:462-467 | `bit` answers 0 or 1 after the single-bit command with the requested direction |
| Wire.ResetBridge | mcu/ds2482.js:480-485 | `_resetBridge` writes the device-reset command and waits |
| Wire.ResetWire | mcu/ds2482.js:487-504 | `_resetWire` writes the 1-Wire reset; success means no short and a presence pulse |
| Wire.ResetWireOutcome | mcu/ds2482.js:487-504 | on a ready bridge, a short is reported before a missing presence pulse, and otherwise the status is returned |
| Wire.WriteCmds | mcu/ds2482.js:423-433 | one write-byte transaction per offset, each carrying `data.slice(offset, offset + 1)` |
| Wire.WriteLoop | mcu/ds2482.js:423-433 | the recursive `writeNextByte` sends at least one byte, then one per offset below the length, and returns the last status, which is not busy |
| Wire.WriteData | mcu/ds2482.js:413-437 | `writeData(data, length)` waits through the status pointer, then writes exactly the transactions of `WriteLog(data, length)` |
| Wire.WriteAll | mcu/ds2482.js:413-437 | `writeData(data)` with the default length writes one transaction per byte of `data` |
| Wire.WriteLoopIdle | mcu/ds2482.js:423-433 | on a bridge that is never busy, the loop consumes one status per byte and writes exactly its transactions |
| Wire.WriteDataIdle | mcu/ds2482.js:413-437 | on an idle bridge, `writeData` consumes `1 + max(n, 1)` statuses and writes exactly `WriteLog(data, n)` |
| Wire.Pad | mcu/ds2482_Y.js:443-444 | `data[offset]` past the end is `undefined` and goes on the wire as 0 |
| Wire.WriteDataPadded | mcu/ds2482_Y.js:427-457 | the twin's `writeData` writes the transactions of the data padded with zeros to the length asked |
| Wire.PaddedWrites | mcu/ds2482_Y.js:427-457 | the twin writes `max(n, 1)` write-byte transactions, the i-th carrying `data[i]`, or 0 past the end |
| Wire.ReadCmds | mcu/ds2482.js:439-460 | reading `k` bytes writes a read-byte command and the data-register pointer per byte, `2k` transactions |
| Wire.ReadLoop | mcu/ds2482.js:439-460 | the read loop fills exactly `size` bytes in read order, keeping the bytes already read |
| Wire.ReadData | mcu/ds2482.js:439-460 | `readData(size)` of the first class returns exactly `size` bytes after the status pointer and `ReadCmds(size)`; a zero size still reads one byte and throws a RangeError |
| Wire.ReadNone | mcu/ds2482_Y.js:459-482 | the twin's `readData(0)`: one read-byte transaction and a data-register read, and the empty array back |
| Wire.ZeroSizeReads | mcu/ds2482_Y.js:459-482 | for a zero size both classes make the same transactions; where the twin returns the empty array the first class throws a RangeError |
| Wire.ReadLoopIdle | mcu/ds2482.js:439-460 | on an idle bridge the loop returns exactly the scripted data bytes |
| Wire.ReadDataAfterWait | mcu/ds2482.js:439-460 | `readData` is its wait followed by its loop |
| Wire.ReadDataIdle | mcu/ds2482.js:439-460 | on an idle bridge, `readData` returns exactly the bytes of the script, in order, and logs its transactions |
| Wire.I2c.Write | mcu/ds2482.js:541-564 | `_i2cWrite` appends one transaction to the log and reads nothing |
| Wire.I2c.Read | mcu/ds2482.js:566-575 | `_i2cRead` consumes the next reply, or fails with the I2C read error when there is none |
| OneWire.WithBit | mcu/ds2482.js:333-335 | `dir ? part \| mask : part & ~mask` sets bit `k` to `dir` and keeps every other bit |
| OneWire.SetBit | mcu/ds2482.js:333-335 | writing the branch into the ROM buffer sets ROM bit `i` and keeps the other 63 |
| OneWire.Step | mcu/ds2482.js:319-331 | a triplet answer with both slots set is "Bad search result"; otherwise the conflict moves to this bit exactly on a 0-branch discrepancy |
| OneWire.StepBit | mcu/ds2482.js:333-335 | a successful step records the branch bit of the answer at its ROM bit |
| OneWire.StepFrame | mcu/ds2482.js:333-335 | a step leaves every other ROM bit alone |
| OneWire.Pass | mcu/ds2482.js:313-347 | `searchNextBit` over bits `bit`..64, each a triplet in the cursor's direction followed by `Step`; it consumes replies |
| OneWire.LastZeroConflict | mcu/ds2482.js:329-331 | the index of the last 0-branch discrepancy is within the answers |
| OneWire.LastZeroConflictMeaning | mcu/ds2482.js:329-331 | `LastZeroConflict` names a discrepancy, and no answer after it is one |
| OneWire.StepsError | mcu/ds2482.js:325-327 | a pass fails exactly when some answer has both slots set, and then with "Bad search result" |
| OneWire.StepsCons | mcu/ds2482.js:345-347 | a pass that survives its first answer goes on from the next bit |
| OneWire.StepsBitAt | mcu/ds2482.js:333-335 | a successful pass holds the branch bit of answer `i` at ROM bit `j = bit - 1 + i` |
| OneWire.StepsFrameAt | mcu/ds2482.js:333-335 | a pass from `bit` on leaves the bits before it alone |
| OneWire.StepsConflict | mcu/ds2482.js:329-331 | the conflict after a pass is the last 0-branch discrepancy, or the one it started with |
| OneWire.PassScript | mcu/ds2482.js:313-347 | the replies of a ready bridge during a pass: a status and a triplet answer per bit |
| OneWire.PassLog | mcu/ds2482.js:313-317 | the writes of a pass: pointer and triplet per bit, in the cursor's directions |
| OneWire.TripletIdle | mcu/ds2482.js:469-474 | on a ready bridge a triplet returns its scripted status |
| OneWire.PassStep | mcu/ds2482.js:313-347 | one bit of the pass is one `Step` on the triplet's answer, then the rest of the pass |
| OneWire.PassOnReady | mcu/ds2482.js:313-347 | the same on a ready bridge with scripted answers |
| OneWire.PassOnScriptErr | mcu/ds2482.js:325-327 | on scripted answers the bus pass fails with "Bad search result" when `Steps` fails |
| OneWire.PassOnScriptErrStep | mcu/ds2482.js:325-327 | the inductive step of `PassOnScriptErr` |
| OneWire.PassOnScript | mcu/ds2482.js:313-347 | on scripted answers the bus pass computes what `Steps` computes, consumes the script and logs the triplets the cursor asks for |
| OneWire.PassOnScriptStep | mcu/ds2482.js:313-347 | the inductive step of `PassOnScript` |
| OneWire.SearchPass | mcu/ds2482.js:364-366 | reset, SEARCH ROM and the 64-bit pass; the conflict found is a bit number 0..64 |
| OneWire.SearchRom | mcu/ds2482.js:297-368 | `searchROM`: on success the cursor moves to a valid ROM code (nonzero family, CRC checks), the result is its hex text, and the conflict is in 0..64; an error leaves the cursor as it was |
| OneWire.PassConflictRange | mcu/ds2482.js:329-331 | the conflict of a pass is a bit number of the pass, or the one it started with |
| OneWire.RomText | mcu/ds2482.js:360 | the text of a valid code is ROM text and decodes back to the code |
| OneWire.SearchLoop | mcu/ds2482.js:245-257 | `searchNext` appends one code per pass and goes on while a conflict is left; at the end the cursor is cleared |
| OneWire.SearchRound | mcu/ds2482.js:245-257 | one round of `searchNext`: a `searchROM` pass and its id appended, then the next round while a conflict is left, or the end with the cursor cleared; on success the ids found before are a proper prefix of the result |
| OneWire.Search | mcu/ds2482.js:239-260 | `search`: on success at least one id is returned, every id is the text of a valid ROM code, and the cursor is cleared |
| OneWire.AllValidAppend | mcu/ds2482.js:247 | appending the text of a valid code keeps every id valid |
| OneWire.FamilyLoop | mcu/ds2482.js:273-288 | the loop keeps only codes of the family and goes on while the conflict lies beyond the family byte and something was kept |
| OneWire.SearchByFamily | mcu/ds2482.js:262-291 | `searchByFamily`: every id returned is a valid ROM code of that family, and the cursor is cleared |
| OneWire.AllOfFamilyAppend | mcu/ds2482.js:276-278 | appending a code of the family keeps the list of one family |
| OneWire.FamilyPrefix | mcu/ds2482.js:627-632 | the family is the first two characters of the id text |
| OneWire.ReadRom | mcu/ds2482.js:370-384 | `readROM`: on success the result is the text of a valid ROM code |
| OneWire.MatchRom | mcu/ds2482.js:386-401 | `matchROM` rejects a code that is not 8 bytes or has family 0, before any traffic; otherwise it writes reset, MATCH ROM and the 8 bytes |
| OneWire.MatchRomId | mcu/ds2482.js:386-401 | `matchROM(id)` with hex text: on success the id decodes to 8 bytes and reset, MATCH ROM and those 8 bytes were written |
| OneWire.MatchRomText | mcu/ds2482_Y.js:394-412 | the twin rejects text that is not 16 characters or has family "00", before any traffic |
| OneWire.MatchRomFormsAgree | mcu/ds2482_Y.js:394-412 | on the text of a ROM code, both classes' `matchROM` do the same |
| OneWire.SkipRom | mcu/ds2482.js:403-406 | `skipROM` writes reset, then SKIP ROM |
| OneWire.ResumeRom | mcu/ds2482_Y.js:419-421 | `resumeROM` writes RESUME without a reset |
| OneWire.SendCommand | mcu/ds2482.js:234-237 | `sendCommand`: a missing or empty id (falsy) addresses every device with SKIP ROM, any other id is matched first; an id that is not 8 bytes or has family 0 fails before any traffic; on success the addressing and then the command byte were written |
| Control.SetOption | mcu/ds2482.js:184-192 | a truthy option sets its bit and leaves every other bit as it was |
| Control.ApplyOptions | mcu/ds2482.js:184-192 | each of the three bits is set after the options exactly when asked for or already set; no bit is ever cleared; other bits are untouched |
| Control.ConfigByte | mcu/ds2482.js:194 | the byte written carries the configuration in its low nibble and its complement in the high nibble, so the bridge accepts it |
| Control.ConfigByteInjective | mcu/ds2482.js:194 | no two configurations are sent as the same byte |
| Control.ConfigureBridge | mcu/ds2482.js:175-205 | `configureBridge` returns the configuration read back exactly when `confirm` is set |
| Control.ConfigureBridgeWrites | mcu/ds2482.js:175-205 | a successful configuration read the configuration register after the wait and wrote one well-formed byte holding that register's low nibble with the options set, and confirmed exactly that nibble when asked |
| Control.SelectionCode | mcu/ds2482.js:213-216 | a selection code exists exactly for channels 0..7 |
| Control.SelectChannelAsWritten | mcu/ds2482.js:211-232 | `selectChannel` as written. The recorded channel is `null` (`Null`), `undefined` or a number, and an absent number is `undefined`, looked up as channel 0. An unknown channel throws; an argument `===` the recorded channel is answered with its read code and no traffic; on success the argument as given is recorded and the read code returned; an error keeps the channel |
| Control.SelectWithoutNumber | mcu/ds2482.js:213-230 | a call without a number answers channel 0's code with no traffic only once such a call has gone through (`undefined` recorded); from any other record, the constructor's `null` included, it does what selecting channel 0 on a fresh bridge does, but records `undefined` instead of channel 0 |
| Control.FreshSelectWaits | mcu/ds2482.js:218-222 | on a bridge never reset, `selectChannel()` is no shortcut (`null === undefined` is false): it sets the status pointer to wait, and with no answer left throws the read error, keeping `null` |
| Control.SelectChannelNeverSelects | mcu/ds2482.js:222-224 | as written, the selection of a new channel writes the status pointer and `code` write-byte commands, and never the Channel Select command |
| Control.NoChannelSelectWritten | mcu/ds2482.js:223 | no transaction of `writeData(CHANNEL_SELECT, n)` starts with the Channel Select command |
| Control.SelectChannel | mcu/ds2482.js:211-232 | the corrected selection, with the same records, lookup and `===` comparison: an unknown channel throws; an argument equal to the recorded channel is answered with no traffic; on success the argument as given is recorded, its read code returned, and exactly one Channel Select with the channel's write code is sent; an error keeps the channel |
| Control.ResetBridgeChannel | mcu/ds2482.js:480-485 | `_resetBridge` records channel 0 (`Num(0)`) once its wait returns; an error keeps the channel |
| Ds2482.LookupWorker | mcu/ds2482.js:589-615 | `#get_worker`: a cached worker is returned unchanged; otherwise a new instance of the manifest's decoder, or the one generic instance; either way it is remembered for the family |
| Ds2482.GetWorkerValid | mcu/ds2482.js:589-615 | a lookup keeps the cache valid and hands out a worker of the kind the manifest names (generic otherwise) |
| Ds2482.GenericShared | mcu/ds2482.js:603-610 | every family outside the manifest is served by the same generic instance |
| Ds2482.MappedDistinct | mcu/ds2482.js:594-600 | a family of the manifest gets an instance of its own, distinct from every other family's |
| Ds2482.WriteDataOf | mcu/ds2482_Y.js:427-457 | `writeData` of the class at hand consumes replies |
| Ds2482.WriteAllOf | mcu/ds2482_Y.js:427-457 | both classes write a non-empty buffer with its own length alike |
| Ds2482.MatchRomOf | mcu/ds2482_Y.js:394-412 | `matchROM(id)` of the class at hand: on success the id decodes to 8 bytes and reset, MATCH ROM and those bytes were written |
| Ds2482.ReadDataOf | mcu/ds2482_Y.js:459-482 | `readData(size)` of the class at hand: exactly `size` bytes on success; the classes agree on every size but 0, where the twin returns the empty array |
| Ds2482.WriteMasked | mcu/ds2482.js:335 | the masked write sets or clears exactly the bits of the mask |
| Ds2482.DirectionByMask | mcu/ds2482.js:305-311 | `direction()` computed from `offset` and `mask` is the cursor's `Direction` at `bit` |
| Ds2482.StepByMask | mcu/ds2482.js:329-335 | the byte written through `mask` is the ROM byte `Step` gives, and the discrepancy is noted exactly when both slots and the direction are 0 |
| Ds2482.Bridge.RecordBit | mcu/ds2482.js:319-335 | recording one triplet answer in the buffer is one `Step`: a bad answer is rejected, otherwise the buffer becomes the step's ROM code |
| Ds2482.NextPosition | mcu/ds2482.js:337-343 | `mask <<= 1`, with the carry into the next byte once it passes 128, moves to the next bit of the code: the bit index grows by one and `mask` is that bit's mask |
| Ds2482.SendCommandOf | mcu/ds2482.js:234-237 | `sendCommand` of the class at hand: on the first class `OneWire.SendCommand`; on the twin an id that is not 16 characters or has family "00" fails before traffic; on both, success wrote the addressing and then the command byte |
| Ds2482.StrongPullupAsWritten | mcu/ds2482.js:408 | as written, on the first class `bridge.strongPullup()` throws a TypeError without traffic |
| Ds2482.StrongPullupShadowed | mcu/ds2482.js:207-209 | on a ready bridge, the first class never switches the strong pull-up on, while the method it hides writes the configuration with the strong bit set |
| Ds2482.Bridge.constructor | mcu/ds2482.js:151-157 | the channel recorded as `null` (`Null`, distinct from `undefined`), a cleared cursor, an empty cache and no devices |
| Ds2482.Bridge.ReadBridge | mcu/ds2482.js:531-538 | `_readBridge` changes the bus as `Wire.ReadBridge` |
| Ds2482.Bridge.Wait | mcu/ds2482.js:506-529 | the do-while of `_wait` changes the bus as `Wire.Wait` |
| Ds2482.Bridge.WriteData | mcu/ds2482.js:413-437 | the write loop changes the bus as `WriteDataOf` for the class at hand |
| Ds2482.Bridge.ReadData | mcu/ds2482_Y.js:459-482 | the read loop changes the bus as `ReadDataOf` for the class at hand |
| Ds2482.Bridge.Triplet | mcu/ds2482.js:469-474 | as `Wire.Triplet` |
| Ds2482.Bridge.Bit | mcu/ds2482.js:462-467 | as `Wire.Bit` |
| Ds2482.Bridge.ResetBridge | mcu/ds2482.js:480-485 | as `ResetBridgeChannel`, updating `channel`; the cursor, the worker cache and the device list are unchanged |
| Ds2482.Bridge.ResetWire | mcu/ds2482.js:487-504 | as `Wire.ResetWire` |
| Ds2482.Bridge.Reset | mcu/ds2482.js:163-173 | `reset` (and `init`) clears the cursor, resets the bridge, then the wire unless the bridge reset failed; the worker cache and the device list are unchanged |
| Ds2482.Bridge.ConfigureBridge | mcu/ds2482.js:175-205 | as `Control.ConfigureBridge` |
| Ds2482.Bridge.StrongPullup | mcu/ds2482.js:207-209 | the method: `configureBridge({strongPullup: true})` without confirmation |
| Ds2482.Bridge.CallStrongPullup | mcu/ds2482.js:408 | `bridge.strongPullup()` as a caller makes it: as `StrongPullupAsWritten` for the class at hand |
| Ds2482.Bridge.SelectChannel | mcu/ds2482.js:211-232 | as the corrected `Control.SelectChannel`, updating `channel`; the cursor, the worker cache and the device list are unchanged |
| Ds2482.Bridge.NextBit | mcu/ds2482.js:313-343 | one bit written into the `rom` array: the pass from `bit` equals the pass from `bit + 1` on the new array and conflict |
| Ds2482.Bridge.SearchBits | mcu/ds2482.js:313-347 | the bit loop over a zeroed 8-byte array computes `Pass` from bit 1 |
| Ds2482.Bridge.SearchPass | mcu/ds2482.js:364-366 | as `OneWire.SearchPass` |
| Ds2482.Bridge.SearchRom | mcu/ds2482.js:297-368 | as `OneWire.SearchRom`, updating the cursor fields; cache, devices and channel unchanged |
| Ds2482.Bridge.Search | mcu/ds2482.js:239-260 | as `OneWire.Search`; cache, devices and channel unchanged |
| Ds2482.Bridge.SearchByFamily | mcu/ds2482.js:262-291 | as `OneWire.SearchByFamily`; cache, devices and channel unchanged |
| Ds2482.Bridge.CheckRom | mcu/ds2482.js:349-360 | family 0 is "ROM invalid", a failing CRC is "CRC mismatch", otherwise the hex text |
| Ds2482.Bridge.ReadRom | mcu/ds2482.js:370-384 | as `OneWire.ReadRom` |
| Ds2482.Bridge.MatchRom | mcu/ds2482.js:386-401 | as `MatchRomOf` for the class at hand |
| Ds2482.Bridge.SkipRom | mcu/ds2482.js:403-406 | as `OneWire.SkipRom` |
| Ds2482.Bridge.ResumeRom | mcu/ds2482_Y.js:419-421 | RESUME on the twin; a TypeError without traffic on the first class |
| Ds2482.Bridge.SendCommand | mcu/ds2482.js:234-237 | as `SendCommandOf` |
| Ds2482.Bridge.GetWorker | mcu/ds2482.js:589-615 | as `LookupWorker` on the bridge's own cache; the family maps to the worker returned; a valid cache stays valid and the worker has the manifest's kind |
| Ds2408Device.BitGet | devices/ds2408.js:128-131 | `#bit_get` is 1 exactly when the value has a bit of the mask set, else 0 |
| Ds2408Device.BitSet | devices/ds2408.js:133-136 | `#bit_set` sets or clears the mask's bits and keeps all others |
| Ds2408Device.BitOf | devices/ds2408.js:138-142 | `#register_bit_get`: 1 exactly when the register (inverted when asked) has a bit of the mask set, else 0; a buffer counts as 0 |
| Ds2408Device.CommandSent | devices/ds2408.js:79-89 | the bytes `writeData(cmd)` puts on the wire for the command array: the three bytes 0xF0, 0x88, 0 on the twin, the single byte 0 on the first class |
| Ds2408Device.Attempt | devices/ds2408.js:88-90 | one attempt of the burst returns ten bytes and consumes replies |
| Ds2408Device.AttemptLogged | devices/ds2408.js:86-90 | an attempt that went through selected the device, wrote the class's command bytes, then read ten bytes |
| Ds2408Device.Checksum | devices/ds2408.js:92 | `readUInt16LE(regs, 8)`: byte 8 is the low half and byte 9 the high half |
| Ds2408Device.Burst | devices/ds2408.js:86-107 | the retry loop ends with a sequence of buffers that `Finishes`: at most six, every one before the last failed its CRC-16, the last passed unless it was the sixth |
| Ds2408Device.Bursts | devices/ds2408.js:82-107 | the whole loop from count 5; on the first class (no `readUInt16LE`) it throws |
| Ds2408Device.RegisterReadAsWritten | devices/ds2408.js:71-115 | as written: a target below 0x88 gives 0 and one above 0x8D gives 0xFF without traffic; LOGIC_STATE gets the whole buffer back |
| Ds2408Device.RegisterRead | devices/ds2408.js:71-115 | the corrected read: the same guards, and every register 0x88..0x8D gets its own byte of the last buffer read |
| Ds2408Device.RegisterReadsAgree | devices/ds2408.js:109-114 | the two reads agree on every target except LOGIC_STATE |
| Ds2408Device.RegisterBitGetOf | devices/ds2408.js:138-142 | the bit reading fails exactly when the register read does, and otherwise is `BitOf` of it |
| Ds2408Device.SensedAlwaysZero | devices/ds2408.js:220-228 | as written, every `sensed/chN` reading is 0 whatever the pins sense |
| Ds2408Device.SensedReadsPin | devices/ds2408.js:220-228 | corrected, `sensed/chN` is bit N of the logic-state register read |
| Ds2408Device.RegisterWriteBytes | devices/ds2408.js:117-126 | the command is WRITE_REGISTER, the target (0 when missing), 0, and the low byte of the data, inverted when asked |
| Ds2408Device.RegisterWrite | devices/ds2408.js:117-126 | zero data or a target outside 0x8B..0x8D writes nothing at all |
| Ds2408Device.RegisterWriteLogged | devices/ds2408.js:117-126 | a register write that went through selected the device, sent the four bytes, then reset the wire |
| Ds2408Device.LatchFor | devices/ds2408.js:194-206 | for channel 0 the state written is the data itself, with no traffic; for any other channel it is the output latch read back with only that channel's bits changed (`BitSet`), and it fails exactly when that read does |
| Ds2408Device.AccessWrite | devices/ds2408.js:208-209 | Channel-Access Write sends the command, the low byte, and its complement |
| Ds2408Device.PioChannelSet | devices/ds2408.js:194-217 | `#pio_channel_set` consumes replies; its traffic and its result are stated by `AccessWriteLogged` and `PioChannelSetConfirmed` |
| Ds2408Device.AccessWriteLogged | devices/ds2408.js:194-217 | a Channel-Access Write that went through sent the state byte and its complement after MATCH ROM, then read two bytes |
| Ds2408Device.PioChannelSetConfirmed | devices/ds2408.js:211-216 | `#pio_channel_set` is true exactly when the first byte the device sends back after the Channel-Access Write is 0xAA |
| Ds2408Device.ChannelOps | devices/ds2408.js:19-25 | the constructor adds three entries per channel |
| Ds2408Device.Ops | devices/ds2408.js:9-25 | the table has 31 entries once constructed |
| Ds2408Device.Route | devices/ds2408.js:9-25 | `paths[key]` finds only entries of the table |
| Ds2408Device.RouteKey | devices/ds2408.js:9-25 | every entry is found under its own key, so no two entries share a key |
| Ds2408Device.KeyRoute | devices/ds2408.js:9-25 | a key that finds an entry is that entry's key |
| Ds2408Device.Read | devices/ds2408.js:220-260 | the reading handlers over `#register_read` as written: a channel of `sensed` reads 0 whenever it succeeds, and `sensed/all` gives the whole buffer |
| Ds2408Device.ReadIntended | devices/ds2408.js:220-260 | the reading handlers over the corrected register read: `sensed/chN` is bit N of the logic-state register of the last burst, and `sensed/all` that register |
| Ds2408Device.ReadsAgree | devices/ds2408.js:220-260 | the two readings agree on every handler except the `sensed` ones |
| Ds2408Device.LatchReset | devices/ds2408.js:184-192 | `latch_reset` always ends in an error; once the selection, the Reset Activity Latches command and the two-byte read went through, that error is the ReferenceError on the out-of-scope `res`, after exactly those transactions |
| Ds2408Device.StrobeSet | devices/ds2408.js:144-154 | `strobe_set` always ends in an error; once the control register read, the write and the second read went through, it is the ReferenceError on the loop-scoped `check`, and the write sent `[WRITE_REGISTER, 0, 0, 0x8D]` after the selection, then reset the wire |
| Ds2408Device.IdByte | devices/ds2408.js:180 | the byte a JavaScript byte array stores for the id text: 0 for the empty text and for a text holding a, c, d or f and no x; a run of up to 15 decimal digits modulo 256 |
| Ds2408Device.RomTextByte | devices/ds2408.js:180 | for the text of a ROM code the byte is known exactly when a digit is a, c, d or f, and it is then 0 |
| Ds2408Device.TestModeOff | devices/ds2408.js:177-182 | `disable_test_mode` gives nothing back; an id whose byte the model cannot tell is not modelled |
| Ds2408Device.TestModeOffLogged | devices/ds2408.js:177-182 | a `disable_test_mode` that went through selected the device, wrote 0x96, the id's byte and 0x3C, then reset the wire |
| Ds2408Device.Write | devices/ds2408.js:164-182 | `por_set` fails with a ReferenceError before any traffic; `pio`, `latch`, `strobe` and `disable_test_mode` are `PioChannelSet`, `LatchReset`, `StrobeSet` and `TestModeOff` |
| Ds2408Device.ReadAttempt | devices/ds2408.js:88-90 | as `Attempt` |
| Ds2408Device.RegisterReadOn | devices/ds2408.js:71-115 | the retry loop on the bridge computes `RegisterReadAsWritten` |
| Ds2408Device.RegisterBitGetOn | devices/ds2408.js:138-142 | as `RegisterBitGetOf` of the register read as written |
| Ds2408Device.RegisterWriteOn | devices/ds2408.js:117-126 | as `RegisterWrite` |
| Ds2408Device.PioChannelSetOn | devices/ds2408.js:194-217 | as `PioChannelSet` |
| Ds2408Device.LatchResetOn | devices/ds2408.js:184-192 | as `LatchReset` |
| Ds2408Device.StrobeSetOn | devices/ds2408.js:173-175 | as `StrobeSet` |
| Ds2408Device.TestModeOffOn | devices/ds2408.js:177-182 | as `TestModeOff` |
| Ds2408Device.ReadOn | devices/ds2408.js:220-260 | as `Read` |
| Ds2408Device.WriteOn | devices/ds2408.js:9-17 | as `Write` |
| Ds18b20Device.Grain | devices/ds18b20.js:33-39 | the step of a p-bit reading, in sixteenths of a degree, is 1..8 and divides 256 |
| Ds18b20Device.ResolutionOf | devices/ds18b20.js:33-39 | the configuration byte holds `p - 9` in bits 6..5 with the low five bits set; the mask clears exactly the unused fraction bits; scale 16; the delay covers the conversion time |
| Ds18b20Device.Temperature | devices/ds18b20.js:137-144 | the reading is in -2048..2048 and negative exactly when the sign bit is set |
| Ds18b20Device.TemperatureExamples | devices/ds18b20.js:137-144 | the DS18B20 data sheet's examples: 0x0191 is +25.0625, 0xFF5E is -10.125, and 0x0191 at 9 bits is 25.0 |
| Ds18b20Device.TemperatureGrain | devices/ds18b20.js:137-144 | a p-bit reading is a whole number of steps of that precision |
| Ds18b20Device.ReadSp | devices/ds18b20.js:92-121 | `#read_sp` returns exactly `length` bytes; on the twin a full read fails at `checkCRC` |
| Ds18b20Device.ReadSpLogged | devices/ds18b20.js:101-112 | a short read sends READ SCRATCHPAD, reads `length` bytes and resets the wire, in that order |
| Ds18b20Device.WriteSp | devices/ds18b20.js:123-135 | `#write_sp` consumes replies; its traffic is stated by `WriteSpLogged` |
| Ds18b20Device.WriteSpLogged | devices/ds18b20.js:123-135 | a write that went through sent WRITE SCRATCHPAD and then all three bytes |
| Ds18b20Device.TempFetch | devices/ds18b20.js:137-144 | `#temp_fetch` reads two scratchpad bytes and, on success, returns `Temperature` of exactly those two bytes (byte 0 masked to the precision, byte 1 the high byte) and leaves the bus as that read did; the twin's buffer has no `readInt16LE`, so the twin fails |
| Ds18b20Device.Poll | devices/ds18b20.js:69-85 | the poll ends on a byte that is not 0 |
| Ds18b20Device.Configure | devices/ds18b20.js:52-55 | the configuration step of `#temp_conv` consumes replies; the twin fails |
| Ds18b20Device.ConfigureWrites | devices/ds18b20.js:52-55 | when the scratchpad already holds the precision's configuration nothing is written after the read; otherwise Th and Tl as read and the precision's configuration byte are written |
| Ds18b20Device.Conversion | devices/ds18b20.js:46-89 | the conversion with the strong pull-up as written or as intended: a result is `TempFetch` on some bus state, so it is the temperature of two scratchpad bytes read at that precision; the twin fails |
| Ds18b20Device.ConversionFetches | devices/ds18b20.js:46-89 | a conversion that went through ran the configuration step and the selection, then sent Convert T (after the strong pull-up in parasite mode, or followed by a poll ending on a nonzero byte otherwise), and its result is `TempFetch` on exactly the bus that step left |
| Ds18b20Device.TempConv | devices/ds18b20.js:46-89 | `#temp_conv` as written: a result is `TempFetch` on some bus state (the bus after Convert T, by `ConversionFetches`); the twin fails, and so does parasite mode on the first class, where `bridge.strongPullup` is the shadowing field |
| Ds18b20Device.TempConvIntended | devices/ds18b20.js:46-89 | `#temp_conv` with the strong pull-up switched on by the bridge's own method: a result is `TempFetch` on some bus state (the bus after Convert T, by `ConversionFetches`); the twin fails |
| Ds18b20Device.TempConvsAgree | devices/ds18b20.js:57-62 | the two conversions agree when polled; in parasite mode on the first class the one as written throws a TypeError right after the selection |
| Ds18b20Device.TempConvGrain | devices/ds18b20.js:46-89 | every temperature a p-bit conversion gives, as written or intended, is a whole number of steps of that precision |
| Ds18b20Device.Digits | devices/ds18b20.js:11-22 | a precision is spelt with one digit exactly when it is 9 |
| Ds18b20Device.RouteKey | devices/ds18b20.js:11-22 | every handler is found under the key that spells out its precision |
| Ds18b20Device.RouteInKeys | devices/ds18b20.js:11-22 | a key that finds a handler is one of the ten keys of the table |
| Ds18b20Device.KeysRoute | devices/ds18b20.js:11-22 | each of the ten keys finds its handler; the bare keys find the 10-bit conversions |
| Ds18b20Device.Read | devices/ds18b20.js:147-177 | every handler runs the conversion as written and gives a number |
| Ds18b20Device.ReadSpOn | devices/ds18b20.js:92-121 | as `ReadSp` |
| Ds18b20Device.WriteSpOn | devices/ds18b20.js:123-135 | as `WriteSp` |
| Ds18b20Device.TempFetchOn | devices/ds18b20.js:137-144 | as `TempFetch`: the temperature of the two scratchpad bytes the method reads |
| Ds18b20Device.PollOn | devices/ds18b20.js:74-83 | the do-while on the bridge computes `Poll` |
| Ds18b20Device.ConfigureOn | devices/ds18b20.js:52-55 | as `Configure` |
| Ds18b20Device.TempConvOn | devices/ds18b20.js:46-89 | as `TempConv`, calling `strongPullup` as the class at hand has it; its temperature is the fetch after Convert T (`ConversionFetches`) |
| Ds18b20Device.ReadOn | devices/ds18b20.js:147-177 | as `Read` |
| Ds2438Device.BitGet | devices/ds2438.js:98-100 | `#bit_get` is bit `i` of the byte, as 0 or 1 |
| Ds2438Device.BitSet | devices/ds2438.js:102-104 | `#bit_set` sets bit `i` to the status and keeps every other bit |
| Ds2438Device.BitSetKeeps | devices/ds2438.js:102-104 | setting a bit to the value it has changes nothing |
| Ds2438Device.ReadSp | devices/ds2438.js:54-83 | `#read_sp(page, length)` returns exactly `length` bytes; on the twin a full read fails at `checkCRC` |
| Ds2438Device.WriteSp | devices/ds2438.js:85-96 | `#write_sp` consumes replies; its traffic is stated by `WriteSpLogged` |
| Ds2438Device.ReadSpLogged | devices/ds2438.js:54-83 | a scratchpad read that went through selected the device, sent Read Scratchpad with the page and read `length` bytes; a short read then reset the wire |
| Ds2438Device.WriteSpLogged | devices/ds2438.js:85-96 | a scratchpad write that went through selected the device, sent Write Scratchpad with the page, then `length` bytes of the data as the class writes them, and reset the wire after a write shorter than 8 |
| Ds2438Device.SetRegister | devices/ds2438.js:106-121 | `#set_register` fails on the twin (no `readUInt8`) |
| Ds2438Device.SetRegisterWrites | devices/ds2438.js:106-121 | when the bit already matches nothing is written after the read; otherwise the status byte with that bit changed is written back |
| Ds2438Device.TempValueAsWritten | devices/ds2438.js:48-52 | as written, the temperature is read unsigned and is never negative |
| Ds2438Device.TempValue | devices/ds2438.js:48-52 | corrected: the signed register in 1/256 degree, in -128..128, negative exactly when the sign bit is set |
| Ds2438Device.TempValuesAgree | devices/ds2438.js:48-52 | the two readings agree above freezing; below it the unsigned one is 256 degrees too high |
| Ds2438Device.MinusTenAsWritten | devices/ds2438.js:48-52 | -10 degrees (0xF600) reads as 246 degrees as written |
| Ds2438Device.TempFetchOf | devices/ds2438.js:48-52 | `temp_fetch` read unsigned or signed: page 0 read in full, and the value of its bytes 1 and 2 |
| Ds2438Device.TempFetch | devices/ds2438.js:48-52 | `temp_fetch` as written: the temperature is read unsigned, in 0..256 degrees; the twin fails |
| Ds2438Device.TempRead | devices/ds2438.js:41-46 | `temp_read` as written: Convert T, then `temp_fetch`; the reading is in 0..256 degrees; the twin fails |
| Ds2438Device.TempFetchIntended | devices/ds2438.js:48-52 | `temp_fetch` reading the register signed: in -128..128 degrees |
| Ds2438Device.TempReadOf | devices/ds2438.js:41-46 | `temp_read` read unsigned or signed; the twin fails |
| Ds2438Device.TempReadIntended | devices/ds2438.js:41-46 | `temp_read` reading the register signed: in -128..128 degrees |
| Ds2438Device.TempReadsAgree | devices/ds2438.js:41-52 | both temperature reads make the same transactions and succeed together; they agree at or above freezing, and below it the one as written is 256 degrees too high |
| Ds2438Device.VoltsOf | devices/ds2438.js:129-140 | the voltage register in volts at 10 mV per count, 0..655.35 |
| Ds2438Device.Volts | devices/ds2438.js:129-148 | `#volts` gives 0..655.35 volts; the twin fails; `VoltsReads` states the AD bit and the register read |
| Ds2438Device.VoltsReads | devices/ds2438.js:129-148 | a voltage reading first set the AD bit to the source (written back only when it differed), then sent Convert V, and is `VoltsOf` of the page read after it |
| Ds2438Device.SenseOf | devices/ds2438.js:150-157 | the current register in units of 0.2441 mV |
| Ds2438Device.Sense | devices/ds2438.js:150-161 | `vsense` is in 0..0.2441 x 65535; the twin fails; `SenseReads` states the IAD bit and the register read |
| Ds2438Device.SenseReads | devices/ds2438.js:150-161 | a current reading first set the IAD bit (written back only when clear) and is `SenseOf` of the page read after it |
| Ds2438Device.Compensation | devices/ds2438.js:164-191 | the temperature compensation is positive for every temperature below 488 degrees, which covers the unsigned readings, so the division by it is always defined |
| Ds2438Device.HumidityOf | devices/ds2438.js:164-191 | -1 when the temperature or VAD is 0 or VDD is below 10 mV, for every temperature `temp_read` can give |
| Ds2438Device.HumidityZero | devices/ds2438.js:164-191 | the sensors' zero points: 0.8 V for the HIH-3600 and 16% of VDD for the HIH-4000 read 0% |
| Ds2438Device.HumidityIncreasing | devices/ds2438.js:164-191 | at a given temperature and supply, a higher VAD reads as a higher humidity |
| Ds2438Device.Humidity | devices/ds2438.js:164-191 | `humidity_3600`/`humidity_4000` give `HumidityOf` of a temperature in 0..256 (read unsigned, as written) and two voltages in 0..655.35; the twin fails |
| Ds2438Device.IlluminanceOf | devices/ds2438.js:194-197 | the result of the `^` operator is a 32-bit unsigned value |
| Ds2438Device.IlluminanceXor | devices/ds2438.js:194-197 | a dark sensor reads 10 and one count reads 11, because `^` is exclusive or |
| Ds2438Device.Illuminance | devices/ds2438.js:194-197 | `illuminance_5711` does what `vsense` does and gives `IlluminanceOf` its reading; it fails exactly when `vsense` does |
| Ds2438Device.RouteKey | devices/ds2438.js:11-20 | every handler is found under its own key |
| Ds2438Device.RouteKeys | devices/ds2438.js:11-20 | a key finds a handler exactly when it is one of the eight keys, and then it is that handler's key or the bare `humidity` |
| Ds2438Device.Read | devices/ds2438.js:11-20 | every handler gives a number, the temperature and humidity read as written; the twin fails |
| Ds2438Device.MapReal | devices/ds2438.js:11-20 | a reading is handed on as a number, an error as that error |
| Ds2438Device.ReadSpOn | devices/ds2438.js:54-83 | as `ReadSp` |
| Ds2438Device.WriteSpOn | devices/ds2438.js:85-96 | as `WriteSp` |
| Ds2438Device.SetRegisterOn | devices/ds2438.js:106-121 | as `SetRegister` |
| Ds2438Device.TempFetchOn | devices/ds2438.js:48-52 | as `TempFetch` (unsigned, as written) |
| Ds2438Device.TempReadOn | devices/ds2438.js:41-46 | as `TempRead` (unsigned, as written) |
| Ds2438Device.VoltsOn | devices/ds2438.js:129-140 | as `Volts` |
| Ds2438Device.SenseOn | devices/ds2438.js:150-161 | as `Sense` |
| Ds2438Device.HumidityOn | devices/ds2438.js:164-191 | as `Humidity` |
| Ds2438Device.ReadOn | devices/ds2438.js:11-20 | as `Read` |
| Text.LowerChar | mcu/ds2482.js:644 | lowering gives no capital letter, and changes only a capital letter, by 32 |
| Text.Lower | mcu/ds2482.js:644 | `toLowerCase` keeps the length and lowers each character in place |
| Text.LowerIdempotent | mcu/ds2482.js:644 | lowering twice is lowering once |
| Text.LowerAppend | mcu/ds2482.js:644 | lowering works piece by piece |
| Text.Split | mcu/ds2482.js:646-647 | `split` gives at least one piece, none holds the separator, and `join` gives the text back |
| Text.SplitAt | mcu/ds2482.js:646-647 | the first piece is the text before the first separator; the rest join back to what follows it |
| Text.SplitWhole | mcu/ds2482.js:646-647 | a text without the separator is one piece |
| Text.LeTotal | mcu/ds2482.js:635 | any two strings are ordered one way or the other |
| Text.LeTrans | mcu/ds2482.js:635 | the order is transitive |
| Text.LeAntisymmetric | mcu/ds2482.js:635 | strings ordered both ways are equal |
| Text.Insert | mcu/ds2482.js:635 | inserting into a sorted sequence keeps it sorted and adds exactly that string |
| Text.Sort | mcu/ds2482.js:635 | `sort()` gives a sorted permutation of its input |
| Text.SortedFirst | mcu/ds2482.js:635 | the first of a sorted sequence sorts no later than any of its strings |
| Text.SortedUnique | mcu/ds2482.js:635 | two sorted permutations of the same strings are the same sequence |
| Text.SortPermutation | mcu/ds2482.js:635 | sorting does not depend on the order the strings come in |
| Router.ParsePath | mcu/ds2482.js:638-661 | a non-string or short id is "invalid path"; otherwise the family is two characters, the id starts with it, holds no "/", and is at least the minimum length less the optional "." |
| Router.ParseKeyed | mcu/ds2482.js:644-653 | for `head/key` the id is the lowered head and the key the lowered rest, or "invalid path" when the head is too short |
| Router.ParseBare | mcu/ds2482.js:644-653 | a path without "/" has an empty key |
| Router.ParseDotted | mcu/ds2482.js:655-660 | "28.0011…/key" and "280011…/key" parse to the same target |
| Router.ReadHandler | mcu/ds2482.js:665 | the generic worker has no read handler; a handler found belongs to the family's decoder and to the key |
| Router.WriteHandler | mcu/ds2482.js:695 | only DS2408 has write handlers, found under their own keys |
| Router.CallRead | mcu/ds2482.js:666 | the read handler only consumes replies |
| Router.ReadPath | mcu/ds2482.js:638-668 | a bad path is "invalid path" with nothing changed; otherwise the cache is the one `#get_worker` leaves |
| Router.WritePath | mcu/ds2482.js:670-697 | the same with ids of eight characters or more and the write handler |
| Router.UnknownFamilyRead | mcu/ds2482.js:603-610 | a family outside the manifest reads `undefined`, with no bus traffic, and the cache stays valid |
| Router.UnknownFamilyWrite | mcu/ds2482.js:603-610 | the same for a write |
| Router.ReadPathRoutes | mcu/ds2482.js:638-668 | a read through a valid cache keeps it valid and reaches the family decoder's handler under the key; with no handler, `undefined` and no traffic |
| Router.WritePathRoutes | mcu/ds2482.js:670-697 | a write keeps the cache valid and reaches DS2408's write handler under the key |
| Router.ReadPathDotted | mcu/ds2482_Y.js:682-686 | reading with or without the "." after the family code does the same |
| Router.Prefix | mcu/ds2482.js:632 | `substring(0, n)` is a prefix of at most `n` characters |
| Router.Drop | mcu/ds2482.js:632 | `substring(0, n) + substring(n)` is the string |
| Router.EntryReads | mcu/ds2482.js:630-632 | a listed path is one `readPath` takes: it parses to the lowered id and key, and reads what the path without the "." reads |
| Router.EntriesOfSorted | mcu/ds2482.js:630-632 | the paths listed for the sorted keys are the paths of the keys, in any order |
| Router.EntriesComplete | mcu/ds2482.js:617-632 | the paths of one device are exactly the paths of its worker's keys |
| Router.ListedSnoc | mcu/ds2482.js:623-633 | a path of the devices is a path of the earlier devices or of the last one |
| Router.ListingComplete | mcu/ds2482.js:621-636 | the list pushed holds exactly the path of every key of every device |
| Router.PathsOf | mcu/ds2482.js:635 | the result is sorted and a permutation of the list pushed |
| Router.PathsComplete | mcu/ds2482.js:621-636 | a path is listed exactly when it names a key of a device found |
| Router.PathsOfThermometer | devices/ds18b20.js:11-22 | every DS18B20 found contributes its ten temperature paths |
| Router.CallReadOn | mcu/ds2482.js:666 | as `CallRead` |
| Router.ReadPathOn | mcu/ds2482.js:638-668 | as `ReadPath` on the bridge's bus and cache; cursor, channel and devices unchanged; a valid cache stays valid |
| Router.WritePathOn | mcu/ds2482.js:670-697 | as `WritePath`, with the same frame |
| Router.PushEntries | mcu/ds2482.js:630-632 | the inner loop appends one path per key |
| Router.EntriesSnoc | mcu/ds2482.js:630-632 | the paths of one key more are the paths so far plus its path |
| Router.ListingSnoc | mcu/ds2482.js:623-633 | the list after one more device is the list so far plus its paths |
| SimBus.RomBits | mcu/ds2482.js:333-343 | the 64 bits a pass writes determine the ROM code |
| SimBus.FirstDiff | mcu/ds2482.js:305-311 | the first bit from `i` on where two codes differ, or 64 when they agree from there on |
| SimBus.BeforeIrreflexive | mcu/ds2482.js:305-311 | no code comes before itself in the order the search visits codes (bit 0 first, 0 before 1) |
| SimBus.BeforeAsymmetric | mcu/ds2482.js:305-311 | of two codes at most one comes before the other |
| SimBus.BeforeTransitive | mcu/ds2482.js:305-311 | the search order is transitive |
| SimBus.BeforeTotal | mcu/ds2482.js:305-311 | of two different codes one comes before the other |
| SimBus.Answer | mcu/ds2482.js:469-474 | the status a triplet returns on the simulated wire is never busy; SINGLE_BIT is set exactly when no remaining device has a 0 at the bit, TRIPLE_BIT exactly when none has a 1, and BRANCH_DIR is the requested direction at a discrepancy, otherwise the only value present |
| SimBus.AnswersNoneBusy | mcu/ds2482.js:469-474 | no status of a simulated pass has the busy bit set |
| SimBus.LastZeroBranch | mcu/ds2482.js:329-331 | the last discrepancy where the code took 0, as a 1-based bit number after `lo`, or 0 when there is none |
| SimBus.LastZeroBranchAt | mcu/ds2482.js:329-331 | at the bit `LastZeroBranch` names there is a discrepancy and the code has a 0 |
| SimBus.LastZeroBranchAfter | mcu/ds2482.js:329-331 | after that bit the code takes 0 at no discrepancy |
| SimBus.AnswerStep | mcu/ds2482.js:313-331 | one bit of a pass on the simulated wire writes the bit the remaining devices agree on, or the cursor's direction at a discrepancy, and records a 0-branch discrepancy as the conflict |
| SimBus.SimStepsCons | mcu/ds2482.js:345-347 | a simulated pass that survives its first triplet goes on from the next bit |
| SimBus.PassFollows | mcu/ds2482.js:313-347 | while some device is on the way to the partial code, the pass cannot fail: it ends on the code of a device that took the cursor's direction at every discrepancy, with the last 0-branch discrepancy as its conflict |
| SimBus.PassEnd | mcu/ds2482.js:345-347 | a pass that has written all 64 bits holds the code of a device |
| SimBus.FirstPass | mcu/ds2482.js:239-241 | the first pass, from a cleared cursor, finds the device that comes first |
| SimBus.Retrace | mcu/ds2482.js:305-308 | a pass from the cursor left by code `r` writes the bits of `r` below the cursor's conflict |
| SimBus.NextPassTurns | mcu/ds2482.js:309-311 | at the conflict bit that pass writes 1 where `r` had 0 |
| SimBus.NextPass | mcu/ds2482.js:305-311 | the pass after the one that found `r` finds a device after `r`, and no device lies between the two |
| SimBus.LastPass | mcu/ds2482.js:329-331 | when a pass leaves no conflict, no device comes after the code it found |
| SimBus.FoundNext | mcu/ds2482.js:245-251 | the next pass finds a device not found yet, and the codes found stay, in order, every device up to the last one |
| SimBus.AscendingCount | mcu/ds2482.js:245-251 | codes found in ascending order hold no duplicate |
| SimBus.CompleteCount | mcu/ds2482.js:245-251 | a complete ascending list has one entry per device |
| SimBus.FewerFound | mcu/ds2482.js:245-251 | while a device is left to find, fewer codes than devices have been found |
| SimBus.SearchRomOf | mcu/ds2482.js:364-366 | `searchROM` is the reset, the SEARCH ROM byte and the pass; a pass that ends on a valid code gives its hex text and moves the cursor |
| SimBus.SimSearchPrelude | mcu/ds2482.js:364-365 | on the simulated bus the reset sees a presence pulse and the SEARCH ROM byte is written |
| SimBus.SimPass | mcu/ds2482.js:313-347 | a pass on a wire with devices finds a device that followed the cursor's directions |
| SimBus.SearchRomSim | mcu/ds2482.js:297-368 | on the simulated bus `searchROM` returns the hex text of the code the pass found, consumes the replies of the pass, logs the reset, the SEARCH ROM byte and the triplets, and moves the cursor to that code and its conflict |
| SimBus.SearchNoDevice | mcu/ds2482.js:487-501 | with no device on the wire the reset sees no presence pulse and `search` throws |
| SimBus.SimScriptStarts | mcu/ds2482.js:487-491 | every pass on the simulated bus starts with a ready status and the reset status |
| SimBus.SimScriptCons | mcu/ds2482.js:245-251 | the replies of the passes are those of the next pass, then those of the passes after it while the pass left a conflict |
| SimBus.SearchLoopOf | mcu/ds2482.js:245-257 | after a successful `searchROM` the loop goes on from the new cursor while a conflict is left, and otherwise returns the ids with the cursor cleared |
| SimBus.HexesSnoc | mcu/ds2482.js:247 | appending a code appends its id |
| SimBus.FoundStep | mcu/ds2482.js:245-251 | the next pass finds a new device `m`, and the passes after it find `m` and then what the passes from `m` find, or `m` alone when it left no conflict |
| SimBus.SearchEnds | mcu/ds2482.js:249-256 | a pass without conflict leaves every device found |
| SimBus.SearchStartsLoop | mcu/ds2482.js:239-243 | `search` is the loop from a cleared cursor and no id found |
| SimBus.CompleteIds | mcu/ds2482.js:247 | the ids of a complete list are one per device and include every device's id |
| SimSearch.LoopPass | mcu/ds2482.js:245-257 | one round of the loop on the simulated bus finds the next device and goes on from it, or returns every id found when it left no conflict |
| SimSearch.SearchLoopSim | mcu/ds2482.js:245-257 | the loop of `search` on the simulated bus returns the ids of what the passes find, whatever the log before it |
| SimSearch.FoundComplete | mcu/ds2482.js:245-257 | the passes find every device, each once, in ascending order |
| SimSearch.SearchFindsEveryDevice | mcu/ds2482.js:239-260 | `search` on a wire of devices with valid ROM codes succeeds, clears the cursor, and returns one id per device, the id of every device, in ascending order of the codes |
| Router.PushDevice | mcu/ds2482.js:624-632 | one device's turn: its family's worker is fetched and cached, the cache stays valid, and its paths are appended |
| Router.ListDevices | mcu/ds2482.js:623-633 | the loop over the devices builds `Listing` and caches every device's family; cursor, channel and devices unchanged |
| Router.PathsOn | mcu/ds2482.js:621-636 | `paths`: the search's outcome on the bus and cursor; on success `devices` holds the ids found, every family is cached, and the result is `PathsOf` of them; a failed search leaves `devices` alone; the channel is unchanged |

## Left out

- The `cmds` table comes from a `commands` module that is not part of this model. Its values (`Commands`) are the DS2482-100/-800 data sheet's command codes, registers and channel selection codes, and the standard 1-Wire ROM commands.
- The I2C transport (`this.i2c`) is a script of read answers and a log of writes. A read with no answer left is the I2C read failure.
- Timers are not modelled: `Timer.delay`, and the 200 ms `Timer` in `_wait`, whose callback cannot run while the synchronous loop holds the thread. The conversion timer of the DS18B20 poll is left out for the same reason. Each such loop ends on a status that is not busy, or on a read failure.
- `DS2482_X` calls `_wait`, but that class does not define it. The model gives the twin the `_wait` of `DS2482`.
- The manifest (`config_from_manifest?.ds2482?.devices`) and `Modules.importNow` are modelled as a map from family code to decoder. A missing manifest is not modelled.
- The second half of mcu/ds2482_Y.js (the asynchronous driver from line 779 on) is not part of this model. Neither are mcu/node.js, the top-level ds2482.js (the Node-RED plumbing) or devices/ds1420.js.
- Promises are modelled as the outcome they settle with: the `DS2482_X` `readPath`/`writePath`, and the asynchronous helpers of devices/ds2408.js (lines 262-415) that the path table's one-liners call. A throw inside the executor is that promise's rejection. The asynchronous helpers do the same steps as the private methods of the class (lines 71-217), so one model serves both.
- Floating point is exact `real` arithmetic: the DS18B20 and DS2438 readings, and the humidity formula. No rounding is modelled.
- `Text.Lower`: `toLowerCase` is modelled for ASCII letters only.
- `Ds2408Device.TestModeOff`: `disable_test_mode` writes `[0x96, id, 0x3C]`, and the byte array stores `ToNumber(id)` truncated to 8 bits. The model gives that byte for the empty id, for ids holding a, c, d or f (NaN, stored as 0) and for short decimal ids. Other texts (signs, exponents, `0x` prefixes, blanks) give `Unmodelled`.
- `Router.WritePath`: the data handed to a write handler is an integer. Other JavaScript values are not modelled.
- `Ds2438Device.IlluminanceOf`: `^` is modelled as what it is, the bitwise exclusive or. The power of ten the formula evidently intends is not expressible without floating-point exponentiation, so no corrected member is given.
- `Crc.Crc16`: the CRC-16/MAXIM of `crc16` is modelled as a function. Only its catalogue check value (`Crc16Check`) is proved; no algebraic property is.
- `Crc.CheckCrc`: the `utils.checkCRC` argument is taken to be a byte sequence. Other JavaScript values are not modelled.
- `Ds2408Device.PioChannelSet`, `Ds18b20Device.WriteSp` and `Ds2438Device.WriteSp`: their own contracts state only that replies are consumed. Their traffic is stated by the lemmas `AccessWriteLogged`, `WriteSpLogged` and `WriteSpLogged` beside them, and the result of `PioChannelSet` by `PioChannelSetConfirmed`.
- `Ds2438Device.Humidity`: the contract states the formula over readings in the ranges `temp_read` and `#volts` give. The order of the three readings (`temp_read`, `vad`, `vdd`) is in its definition only; no lemma states it.
- I2C write failures are not modelled: `_i2cWrite` (mcu/ds2482.js:541-564) throws when `i2c.write` fails, but in the model every write succeeds and is logged. Its TypeError for a `bytes` argument that is neither an array nor a `Buffer` is not modelled either.
- The simulated bus answers each pass from the directions its cursor asks for. Its script of replies is written out ahead of the passes, and it does not react to the bytes the bridge actually writes. The methods are proved to write what the cursor asks for, so the two agree.
- On the simulated bus, a triplet with no device left answers that both slots read 1, as an empty wire does. The search never reaches that case while a device is on the path.
- `SimSearch.SearchFindsEveryDevice` runs the simulated bus for as many passes as there are devices. The theorem shows that `search` needs no more.
- The simulated bus covers `search` only. `searchByFamily` is modelled against any bus, but not on the simulated one.
- `OneWire.SearchByFamily`: the family is a number. A string family, which `searchByFamily` parses with `parseInt(family, 16)` (mcu/ds2482.js:263-266), is not modelled; a caller passes the parsed number.
- `trace` output is not modelled.

## Findings

Each row has a member for the code as written and a corrected one. The path handlers, and every
member proved equal to them, follow the code as written; the corrected members stand beside them
(`Control.SelectChannel` is the bridge method's model, `Ds2408Device.ReadIntended`,
`Ds18b20Device.TempConvIntended` and `Ds2438Device.TempReadIntended` the handlers'), with lemmas
saying where the two differ (`Ds2408Device.ReadsAgree`, `Ds18b20Device.TempConvsAgree`,
`Ds2438Device.TempReadsAgree`).

| source | as written | input that shows it | evidently intended | confidence | as-written member | corrected member |
|---|---|---|---|---|---|---|
| mcu/ds2482.js:223 | `writeData(cmds.CHANNEL_SELECT, [ch.write])` passes the selection code as the length argument, so the bridge gets `code` write-byte transactions: the first carries 0xC3 as 1-Wire data, the other `code - 1` carry no data byte (`data.slice` past the end is empty), and no Channel Select goes out as a bridge command | `selectChannel(1)` from channel 0: code 0xE1 gives 225 write-byte transactions and no Channel Select | one Channel Select transaction carrying the channel's code, then the read-back | not executed | Control.SelectChannelNeverSelects | Control.SelectChannel |
| devices/ds2408.js:109-114 | `target - 0x88 > 0` excludes index 0, so LOGIC_STATE (0x88) returns the whole buffer, which the bit test reads as 0 | `sensed/ch3` with the pins at 0xFF reads 0 | `regs[target - 0x88]` for every register 0x88..0x8D | not executed | Ds2408Device.SensedAlwaysZero | Ds2408Device.SensedReadsPin |
| devices/ds2438.js:48-52 | the temperature register is read unsigned | register 0xF600 (-10 degrees) reads as 246 degrees | the two's-complement value of the DS2438 data sheet | not executed | Ds2438Device.MinusTenAsWritten | Ds2438Device.TempValue |
| mcu/ds2482.js:408 | a bare class field `strongPullup` gives every `DS2482` instance an own property `undefined` that hides the method, so `bridge.strongPullup()` throws a TypeError | a DS18B20 `parasite/temperature` read on the first class | `configureBridge({strongPullup: true})` | not executed | Ds2482.StrongPullupShadowed | Ds2482.Bridge.StrongPullup |
