/**
 * The path router of the bridge: `readPath`, `writePath` and `paths` of mcu/ds2482.js and
 * mcu/ds2482_Y.js. A path "ff[.]serial/key" names a device by its ROM id and a handler by the
 * key under which the family's worker stores it; `paths` lists every such path for the devices
 * a search finds. In `DS2482_X` the two path calls hand back a promise; here the outcome it
 * settles with is the result.
 */
module Router {
  import opened Results
  import opened Wire
  import opened OneWire
  import opened Ds2482
  import opened Text
  import Ds2408Device
  import Ds18b20Device
  import Ds2438Device

  /** What `readPath`/`writePath` are called with: a string, or a value of any other type. */
  datatype PathArg = Str(s: string) | NotString

  /** A parsed path: the family code, the id handed to the handler, and the handler's key. */
  datatype Target = Target(family: string, id: string, key: string)

  /** The fewest characters the id of a read path and of a write path may have. */
  const READ_ID_MIN := 16
  const WRITE_ID_MIN := 8

  /**
   * The common head of `readPath` and `writePath`: lower the path, split it on "/", take the
   * first piece as the id and join the rest back into the key. An id shorter than `min` is a
   * RangeError; otherwise its first two characters are the family, and a "." after them is
   * dropped from the id.
   */
  function ParsePath(path: PathArg, min: nat): (t: Result<Target>)
    requires min >= 3
    ensures t.Err? ==> t.error == InvalidPath
    ensures t.Ok? ==> |t.value.family| == 2 && |t.value.id| >= min - 1 && t.value.id[..2] == t.value.family
    ensures t.Ok? ==> '/' !in t.value.id
  {
    if path.NotString? then Err(InvalidPath)
    else
      var parts := Split(Lower(path.s), '/');
      var id := parts[0];
      if |id| < min then Err(InvalidPath)
      else
        var family := id[..2];
        var name := if id[2] == '.' then family + id[3..] else id;
        assert '/' !in name by {
          if id[2] == '.' {
            assert forall i :: 0 <= i < |name| ==> name[i] in id;
          }
        }
        Ok(Target(family, name, Join(parts[1..], '/')))
  }

  /** A path "<head>/<key>": the id is the lowered head, the key the lowered rest, when long enough. */
  lemma ParseKeyed(head: string, key: string, min: nat)
    requires min >= 3 && '/' !in head && head[..] != [] && (|head| < 3 || head[2] != '.')
    ensures var t := ParsePath(Str(head + "/" + key), min);
      if |head| < min then t == Err(InvalidPath)
      else t == Ok(Target(Lower(head)[..2], Lower(head), Lower(key)))
  {
    LowerAppend(head, "/" + key);
    LowerAppend("/", key);
    assert '/' !in Lower(head) by {
      forall i | 0 <= i < |head| ensures Lower(head)[i] != '/' {
        assert head[i] != '/';
      }
    }
    assert Lower(head + "/" + key) == Lower(head) + ['/'] + Lower(key);
    SplitAt(Lower(head), Lower(key), '/');
  }

  /** A path without "/": the whole lowered path is the id and the key is empty. */
  lemma ParseBare(path: string, min: nat)
    requires min >= 3 && '/' !in path
    ensures var t := ParsePath(Str(path), min);
      if |path| < min then t == Err(InvalidPath)
      else t.Ok? && t.value.key == ""
  {
    assert '/' !in Lower(path) by {
      forall i | 0 <= i < |path| ensures Lower(path)[i] != '/' {
        assert path[i] != '/';
      }
    }
    SplitWhole(Lower(path), '/');
  }

  /** A lowered path "<low>/<lkey>" parses by its head alone. */
  lemma ParseHead(path: string, low: string, lkey: string, min: nat)
    requires min >= 3 && '/' !in low && Lower(path) == low + ['/'] + lkey
    ensures ParsePath(Str(path), min) ==
      if |low| < min then Err(InvalidPath)
      else Ok(Target(low[..2], if low[2] == '.' then low[..2] + low[3..] else low, lkey))
  {
    SplitAt(low, lkey, '/');
  }

  /** Lowering a path with a "." after the family code keeps the "." in place. */
  lemma LowerDotted(head: string, key: string)
    requires |head| >= 2
    ensures var low := Lower(head);
      Lower(head[..2] + "." + head[2..] + "/" + key) == low[..2] + "." + low[2..] + ['/'] + Lower(key)
  {
    var dotted := head[..2] + "." + head[2..] + "/" + key;
    var low := Lower(head);
    var want := low[..2] + "." + low[2..] + ['/'] + Lower(key);
    forall i | 0 <= i < |dotted| ensures Lower(dotted)[i] == want[i] {
      if 2 < i < |head| + 1 {
        assert dotted[i] == head[i - 1];
      } else if i > |head| + 1 {
        assert dotted[i] == key[i - |head| - 2];
      }
    }
  }

  /**
   * "28.0011223344556677/key" and "280011223344556677/key" name the same device and handler:
   * the "." after the family code is optional.
   */
  lemma ParseDotted(head: string, key: string, min: nat)
    requires min >= 3 && '/' !in head && |head| >= min && head[2] != '.'
    ensures ParsePath(Str(head[..2] + "." + head[2..] + "/" + key), min) == ParsePath(Str(head + "/" + key), min)
  {
    var plain := head + "/" + key;
    var dotted := head[..2] + "." + head[2..] + "/" + key;
    var low := Lower(head);
    var lowDotted := low[..2] + "." + low[2..];
    assert Lower(plain) == low + ['/'] + Lower(key) by {
      LowerAppend(head, "/" + key);
      LowerAppend("/", key);
    }
    LowerDotted(head, key);
    assert '/' !in low by {
      forall i | 0 <= i < |head| ensures low[i] != '/' {
        assert head[i] != '/';
      }
    }
    assert '/' !in lowDotted by {
      forall i | 0 <= i < |lowDotted| ensures lowDotted[i] != '/' {
        if i > 2 { assert lowDotted[i] == low[i - 1]; } else if i < 2 { assert lowDotted[i] == low[i]; }
      }
    }
    ParseHead(plain, low, Lower(key), min);
    ParseHead(dotted, lowDotted, Lower(key), min);
    assert lowDotted[..2] + lowDotted[3..] == low;
  }

  /* ---------------------------------------------------------------------------------------- */
  /* Handlers                                                                                 */

  /** A handler found in a decoder's table. */
  datatype Handler =
    | On2408(op: Ds2408Device.Op)
    | On18b20(temp: Ds18b20Device.Op)
    | On2438(gauge: Ds2438Device.Op)

  /**
   * `worker.paths[key][0]`: the read handler under `key`. The generic worker's one entry,
   * "not_implemented", holds no function, and neither does DS2408's "disable_test_mode".
   */
  function ReadHandler(kind: Kind, key: string): (h: Option<Handler>)
    ensures kind.Generic? ==> h.None?
    ensures h.Some? && h.value.On2408? ==>
      kind == Device(Ds2408) && Ds2408Device.ValidOp(h.value.op) && Ds2408Device.Readable(h.value.op)
      && Ds2408Device.Key(h.value.op) == key
    ensures h.Some? && h.value.On18b20? ==> kind == Device(Ds18b20) && Ds18b20Device.Route(key) == Some(h.value.temp)
    ensures h.Some? && h.value.On2438? ==> kind == Device(Ds2438) && Ds2438Device.Route(key) == Some(h.value.gauge)
  {
    match kind
    case Generic => None
    case Device(Ds2408) =>
      var op := Ds2408Device.Route(key);
      if op.Some? && Ds2408Device.Readable(op.value) then
        Ds2408Device.KeyRoute(key);
        Some(On2408(op.value))
      else None
    case Device(Ds18b20) =>
      var op := Ds18b20Device.Route(key);
      if op.Some? then Some(On18b20(op.value)) else None
    case Device(Ds2438) =>
      var op := Ds2438Device.Route(key);
      if op.Some? then Some(On2438(op.value)) else None
  }

  /**
   * `worker.paths[key][1]`: the write handler under `key`. Only DS2408 has any; the DS18B20
   * and DS2438 tables hold read functions alone.
   */
  function WriteHandler(kind: Kind, key: string): (op: Option<Ds2408Device.Op>)
    ensures op.Some? ==> (kind == Device(Ds2408) && Ds2408Device.ValidOp(op.value)
      && Ds2408Device.Writable(op.value) && Ds2408Device.Key(op.value) == key)
  {
    if kind != Device(Ds2408) then None
    else
      var op := Ds2408Device.Route(key);
      if op.Some? && Ds2408Device.Writable(op.value) then
        Ds2408Device.KeyRoute(key);
        op
      else None
  }

  /** `read_fn.call(worker, bridge, id)`. */
  function CallRead(twin: bool, b: Bus, id: string, h: Handler): (o: Out<Value>)
    requires h.On2408? ==> Ds2408Device.ValidOp(h.op) && Ds2408Device.Readable(h.op)
    ensures Later(b, o.bus)
  {
    match h
    case On2408(op) => Ds2408Device.Read(twin, b, id, op)
    case On18b20(op) => Ds18b20Device.Read(twin, b, id, op)
    case On2438(op) => Ds2438Device.Read(twin, b, id, op)
  }

  /** The outcome of a path call: the handler's result, the bus after it and the worker cache. */
  datatype Routed = Routed(res: Result<Value>, bus: Bus, cache: WorkerCache)

  /** The worker kind a family gets from a valid cache. */
  function KindOf(manifest: map<string, Decoder>, family: string): Kind
  {
    if family in manifest then Device(manifest[family]) else Generic
  }

  /**
   * `readPath(path)`: parse the path, fetch the family's worker (creating it on first need),
   * and call the read handler under the key; no handler gives `undefined` with no traffic.
   */
  function ReadPath(twin: bool, b: Bus, c: WorkerCache, manifest: map<string, Decoder>, path: PathArg): (o: Routed)
    ensures Later(b, o.bus)
    ensures ParsePath(path, READ_ID_MIN).Err? ==> o == Routed(Err(InvalidPath), b, c)
    ensures ParsePath(path, READ_ID_MIN).Ok? ==>
      o.cache == LookupWorker(c, manifest, ParsePath(path, READ_ID_MIN).value.family).cache
  {
    var t := ParsePath(path, READ_ID_MIN);
    if t.Err? then Routed(Err(t.error), b, c)
    else
      var l := LookupWorker(c, manifest, t.value.family);
      var h := ReadHandler(l.worker.kind, t.value.key);
      if h.None? then Routed(Ok(Undefined), b, l.cache)
      else
        var o := CallRead(twin, b, t.value.id, h.value);
        Routed(o.res, o.bus, l.cache)
  }

  /**
   * `writePath(path, data)`: as `readPath`, with ids of eight characters or more, and the
   * write handler under the key called with `data`.
   */
  function WritePath(twin: bool, b: Bus, c: WorkerCache, manifest: map<string, Decoder>, path: PathArg, data: int): (o: Routed)
    ensures Later(b, o.bus)
    ensures ParsePath(path, WRITE_ID_MIN).Err? ==> o == Routed(Err(InvalidPath), b, c)
    ensures ParsePath(path, WRITE_ID_MIN).Ok? ==>
      o.cache == LookupWorker(c, manifest, ParsePath(path, WRITE_ID_MIN).value.family).cache
  {
    var t := ParsePath(path, WRITE_ID_MIN);
    if t.Err? then Routed(Err(t.error), b, c)
    else
      var l := LookupWorker(c, manifest, t.value.family);
      var op := WriteHandler(l.worker.kind, t.value.key);
      if op.None? then Routed(Ok(Undefined), b, l.cache)
      else
        var o := Ds2408Device.Write(twin, b, t.value.id, op.value, data);
        Routed(o.res, o.bus, l.cache)
  }

  /**
   * A family the manifest does not name is served by the generic worker, whose table holds no
   * function: any read of it gives `undefined` with no bus traffic, and the cache stays valid.
   */
  lemma UnknownFamilyRead(twin: bool, b: Bus, c: WorkerCache, manifest: map<string, Decoder>, path: PathArg)
    requires CacheValid(c, manifest)
    requires ParsePath(path, READ_ID_MIN).Ok? && ParsePath(path, READ_ID_MIN).value.family !in manifest
    ensures var o := ReadPath(twin, b, c, manifest, path);
      o.res == Ok(Undefined) && o.bus == b && CacheValid(o.cache, manifest)
  {
    GetWorkerValid(c, manifest, ParsePath(path, READ_ID_MIN).value.family);
  }

  /** The same for a write to a family the manifest does not name. */
  lemma UnknownFamilyWrite(twin: bool, b: Bus, c: WorkerCache, manifest: map<string, Decoder>, path: PathArg, data: int)
    requires CacheValid(c, manifest)
    requires ParsePath(path, WRITE_ID_MIN).Ok? && ParsePath(path, WRITE_ID_MIN).value.family !in manifest
    ensures var o := WritePath(twin, b, c, manifest, path, data);
      o.res == Ok(Undefined) && o.bus == b && CacheValid(o.cache, manifest)
  {
    GetWorkerValid(c, manifest, ParsePath(path, WRITE_ID_MIN).value.family);
  }

  /**
   * A read through a valid cache keeps it valid and reaches the handler the family's decoder
   * stores under the key; with none there, the result is `undefined` and nothing is sent.
   */
  lemma ReadPathRoutes(twin: bool, b: Bus, c: WorkerCache, manifest: map<string, Decoder>, path: PathArg)
    requires CacheValid(c, manifest) && ParsePath(path, READ_ID_MIN).Ok?
    ensures var t := ParsePath(path, READ_ID_MIN).value; var o := ReadPath(twin, b, c, manifest, path);
      var h := ReadHandler(KindOf(manifest, t.family), t.key);
      CacheValid(o.cache, manifest)
      && (h.None? ==> o.res == Ok(Undefined) && o.bus == b)
      && (h.Some? ==> Out(o.res, o.bus) == CallRead(twin, b, t.id, h.value))
  {
    GetWorkerValid(c, manifest, ParsePath(path, READ_ID_MIN).value.family);
  }

  /** A write through a valid cache keeps it valid and reaches DS2408's write handler under the key. */
  lemma WritePathRoutes(twin: bool, b: Bus, c: WorkerCache, manifest: map<string, Decoder>, path: PathArg, data: int)
    requires CacheValid(c, manifest) && ParsePath(path, WRITE_ID_MIN).Ok?
    ensures var t := ParsePath(path, WRITE_ID_MIN).value; var o := WritePath(twin, b, c, manifest, path, data);
      var op := WriteHandler(KindOf(manifest, t.family), t.key);
      CacheValid(o.cache, manifest)
      && (op.None? ==> o.res == Ok(Undefined) && o.bus == b)
      && (op.Some? ==> Out(o.res, o.bus) == Ds2408Device.Write(twin, b, t.id, op.value, data))
  {
    GetWorkerValid(c, manifest, ParsePath(path, WRITE_ID_MIN).value.family);
  }

  /** Reading the same path with the "." after the family code or without it does the same. */
  lemma ReadPathDotted(twin: bool, b: Bus, c: WorkerCache, manifest: map<string, Decoder>, head: string, key: string)
    requires '/' !in head && |head| >= READ_ID_MIN && head[2] != '.'
    ensures ReadPath(twin, b, c, manifest, Str(head[..2] + "." + head[2..] + "/" + key))
         == ReadPath(twin, b, c, manifest, Str(head + "/" + key))
  {
    ParseDotted(head, key, READ_ID_MIN);
  }

  /* ---------------------------------------------------------------------------------------- */
  /* Listing                                                                                   */

  /** `s.substring(0, n)` and `s.substring(n)` for a non-negative `n`. */
  function Prefix(s: string, n: nat): (p: string)
    ensures |p| <= n && p <= s
  {
    if |s| <= n then s else s[..n]
  }

  function Drop(s: string, n: nat): (d: string)
    ensures Prefix(s, n) + d == s
  {
    if |s| <= n then "" else s[n..]
  }

  /** The keys of a worker's table. */
  function KindKeys(kind: Kind): seq<string>
  {
    match kind
    case Generic => ["not_implemented"]
    case Device(Ds2408) =>
      var ops := Ds2408Device.Ops();
      seq(|ops|, i requires 0 <= i < |ops| => Ds2408Device.Key(ops[i]))
    case Device(Ds18b20) => Ds18b20Device.Keys()
    case Device(Ds2438) => Ds2438Device.Keys()
  }

  /** One listed path: the id with a "." after its family code, then "/" and the key. */
  function Entry(id: string, key: string): string
  {
    Prefix(id, 2) + "." + Drop(id, 2) + "/" + key
  }

  /** The paths of one device, in the order of its keys. */
  function Entries(id: string, keys: seq<string>): seq<string>
  {
    seq(|keys|, i requires 0 <= i < |keys| => Entry(id, keys[i]))
  }

  /**
   * A listed path is one `readPath` takes: it parses to the device's lowered id and the lowered
   * key, and reads what the same path without the "." reads.
   */
  lemma EntryReads(twin: bool, b: Bus, c: WorkerCache, manifest: map<string, Decoder>, id: string, key: string)
    requires '/' !in id && |id| >= READ_ID_MIN && id[2] != '.'
    ensures ParsePath(Str(Entry(id, key)), READ_ID_MIN) == Ok(Target(Lower(id)[..2], Lower(id), Lower(key)))
    ensures ReadPath(twin, b, c, manifest, Str(Entry(id, key))) == ReadPath(twin, b, c, manifest, Str(id + "/" + key))
  {
    assert Entry(id, key) == id[..2] + "." + id[2..] + "/" + key;
    ParseDotted(id, key, READ_ID_MIN);
    ParseKeyed(id, key, READ_ID_MIN);
    ReadPathDotted(twin, b, c, manifest, id, key);
  }

  /** The keys of the worker a device's family gets. */
  function DeviceKeys(manifest: map<string, Decoder>, id: string): seq<string>
  {
    KindKeys(KindOf(manifest, Prefix(id, 2)))
  }

  /** The paths of the devices in the order `paths` pushes them: device by device, keys sorted. */
  function Listing(manifest: map<string, Decoder>, ids: seq<string>): seq<string>
    decreases |ids|
  {
    if ids == [] then []
    else
      var id := ids[|ids| - 1];
      Listing(manifest, ids[..|ids| - 1]) + Entries(id, Sort(DeviceKeys(manifest, id)))
  }

  /** `e` is the path of one of the keys of device `id`. */
  ghost predicate ListedFor(manifest: map<string, Decoder>, id: string, e: string)
  {
    exists k :: k in DeviceKeys(manifest, id) && e == Entry(id, k)
  }

  /** `e` is the path of some key of some device. */
  ghost predicate Listed(manifest: map<string, Decoder>, ids: seq<string>, e: string)
  {
    exists i :: 0 <= i < |ids| && ListedFor(manifest, ids[i], e)
  }

  /** The paths listed for keys sorted are the paths of those keys, in any order. */
  lemma EntriesOfSorted(id: string, keys: seq<string>, e: string)
    ensures e in Entries(id, Sort(keys)) <==> exists k :: k in keys && e == Entry(id, k)
  {
    var sorted := Sort(keys);
    if e in Entries(id, sorted) {
      var j :| 0 <= j < |sorted| && Entries(id, sorted)[j] == e;
      assert sorted[j] in multiset(keys);
    }
    if k :| k in keys && e == Entry(id, k) {
      assert k in multiset(sorted);
      var j :| 0 <= j < |sorted| && sorted[j] == k;
      assert Entries(id, sorted)[j] == e;
    }
  }

  /** The paths of one device hold the path of each of its keys and nothing else. */
  lemma EntriesComplete(manifest: map<string, Decoder>, id: string, e: string)
    ensures e in Entries(id, Sort(DeviceKeys(manifest, id))) <==> ListedFor(manifest, id, e)
  {
    EntriesOfSorted(id, DeviceKeys(manifest, id), e);
  }

  /** A path of the devices is a path of all but the last device or one of the last device's. */
  lemma ListedSnoc(manifest: map<string, Decoder>, ids: seq<string>, e: string)
    requires ids != []
    ensures Listed(manifest, ids, e) <==>
      Listed(manifest, ids[..|ids| - 1], e) || ListedFor(manifest, ids[|ids| - 1], e)
  {
    var init := ids[..|ids| - 1];
    if i :| 0 <= i < |ids| && ListedFor(manifest, ids[i], e) {
      if i < |init| {
        assert init[i] == ids[i];
        assert Listed(manifest, init, e);
      }
    }
    if i :| 0 <= i < |init| && ListedFor(manifest, init[i], e) {
      assert ids[i] == init[i];
      assert Listed(manifest, ids, e);
    }
    if ListedFor(manifest, ids[|ids| - 1], e) {
      assert Listed(manifest, ids, e);
    }
  }

  /** The listing holds exactly the path of every key of every device. */
  lemma {:induction false} ListingComplete(manifest: map<string, Decoder>, ids: seq<string>, e: string)
    ensures e in Listing(manifest, ids) <==> Listed(manifest, ids, e)
    decreases |ids|
  {
    if ids != [] {
      var n := |ids| - 1;
      var last := Entries(ids[n], Sort(DeviceKeys(manifest, ids[n])));
      assert Listing(manifest, ids) == Listing(manifest, ids[..n]) + last;
      assert e in Listing(manifest, ids) <==> e in Listing(manifest, ids[..n]) || e in last;
      ListingComplete(manifest, ids[..n], e);
      EntriesComplete(manifest, ids[n], e);
      ListedSnoc(manifest, ids, e);
    }
  }

  /**
   * `paths`: the listing sorted as a whole. It is in order, and it holds exactly the path of
   * every key of every device's worker.
   */
  function PathsOf(manifest: map<string, Decoder>, ids: seq<string>): (p: seq<string>)
    ensures Sorted(p)
    ensures multiset(p) == multiset(Listing(manifest, ids))
  {
    Sort(Listing(manifest, ids))
  }

  /** A path is listed exactly when it names a key of a device found. */
  lemma PathsComplete(manifest: map<string, Decoder>, ids: seq<string>, e: string)
    ensures e in PathsOf(manifest, ids) <==> Listed(manifest, ids, e)
  {
    ListingComplete(manifest, ids, e);
    assert e in PathsOf(manifest, ids) <==> e in multiset(Listing(manifest, ids));
  }

  /** Every DS18B20 found contributes its ten temperature paths. */
  lemma PathsOfThermometer(manifest: map<string, Decoder>, ids: seq<string>, i: nat, k: nat)
    requires i < |ids| && k < |Ds18b20Device.Keys()| && Prefix(ids[i], 2) in manifest
    requires manifest[Prefix(ids[i], 2)] == Ds18b20
    ensures Entry(ids[i], Ds18b20Device.Keys()[k]) in PathsOf(manifest, ids)
  {
    var e := Entry(ids[i], Ds18b20Device.Keys()[k]);
    assert Ds18b20Device.Keys()[k] in DeviceKeys(manifest, ids[i]);
    assert ListedFor(manifest, ids[i], e);
    PathsComplete(manifest, ids, e);
  }

  /* ---------------------------------------------------------------------------------------- */
  /* Methods on the bridge                                                                    */

  /** The read handler called on the bridge. */
  method CallReadOn(br: Bridge, id: string, h: Handler) returns (r: Result<Value>)
    requires h.On2408? ==> Ds2408Device.ValidOp(h.op) && Ds2408Device.Readable(h.op)
    modifies br.i2c
    ensures Out(r, br.i2c.State()) == CallRead(br.twin, old(br.i2c.State()), id, h)
  {
    match h {
      case On2408(op) => r := Ds2408Device.ReadOn(br, id, op);
      case On18b20(op) => r := Ds18b20Device.ReadOn(br, id, op);
      case On2438(op) => r := Ds2438Device.ReadOn(br, id, op);
    }
  }

  /** `readPath(path)` on the bridge: the worker cache and the bus change as `ReadPath` says. */
  method ReadPathOn(br: Bridge, path: PathArg) returns (r: Result<Value>)
    modifies br, br.i2c
    ensures Routed(r, br.i2c.State(), br.CacheState())
         == ReadPath(br.twin, old(br.i2c.State()), old(br.CacheState()), br.manifest, path)
    ensures br.Cursor() == old(br.Cursor()) && br.channel == old(br.channel) && br.devices == old(br.devices)
    ensures old(br.Valid()) ==> br.Valid()
  {
    var t := ParsePath(path, READ_ID_MIN);
    if t.Err? {
      return Err(t.error);
    }
    var w := br.GetWorker(t.value.family);
    var h := ReadHandler(w.kind, t.value.key);
    if h.None? {
      return Ok(Undefined);
    }
    r := CallReadOn(br, t.value.id, h.value);
  }

  /** `writePath(path, data)` on the bridge. */
  method WritePathOn(br: Bridge, path: PathArg, data: int) returns (r: Result<Value>)
    modifies br, br.i2c
    ensures Routed(r, br.i2c.State(), br.CacheState())
         == WritePath(br.twin, old(br.i2c.State()), old(br.CacheState()), br.manifest, path, data)
    ensures br.Cursor() == old(br.Cursor()) && br.channel == old(br.channel) && br.devices == old(br.devices)
    ensures old(br.Valid()) ==> br.Valid()
  {
    var t := ParsePath(path, WRITE_ID_MIN);
    if t.Err? {
      return Err(t.error);
    }
    var w := br.GetWorker(t.value.family);
    var op := WriteHandler(w.kind, t.value.key);
    if op.None? {
      return Ok(Undefined);
    }
    r := Ds2408Device.WriteOn(br, t.value.id, op.value, data);
  }

  /** The paths of one device pushed one by one after those already listed. */
  method PushEntries(p: seq<string>, id: string, keys: seq<string>) returns (q: seq<string>)
    ensures q == p + Entries(id, keys)
  {
    q := p;
    var k := 0;
    while k < |keys|
      invariant 0 <= k <= |keys|
      invariant q == p + Entries(id, keys[..k])
    {
      EntriesSnoc(id, keys, k);
      q := q + [Entry(id, keys[k])];
      k := k + 1;
    }
    assert keys[..k] == keys;
  }

  lemma EntriesSnoc(id: string, keys: seq<string>, k: nat)
    requires k < |keys|
    ensures Entries(id, keys[..k + 1]) == Entries(id, keys[..k]) + [Entry(id, keys[k])]
  {
  }

  lemma ListingSnoc(manifest: map<string, Decoder>, ids: seq<string>, d: nat)
    requires d < |ids|
    ensures Listing(manifest, ids[..d + 1]) == Listing(manifest, ids[..d]) + Entries(ids[d], Sort(DeviceKeys(manifest, ids[d])))
  {
    assert ids[..d + 1][..d] == ids[..d];
  }

  /** Families cached before stay cached when the cache only grows. */
  lemma StillCached(before: map<string, Worker>, after: map<string, Worker>, ids: seq<string>, d: nat)
    requires d < |ids| && Prefix(ids[d], 2) in after
    requires forall f :: f in before ==> f in after
    requires forall i :: 0 <= i < d ==> Prefix(ids[i], 2) in before
    ensures forall i :: 0 <= i <= d ==> Prefix(ids[i], 2) in after
  {
  }

  /** One device's turn in `paths`: its family's worker fetched, the paths of its keys pushed. */
  method PushDevice(br: Bridge, p: seq<string>, id: string) returns (q: seq<string>)
    requires br.Valid()
    modifies br
    ensures q == p + Entries(id, Sort(DeviceKeys(br.manifest, id)))
    ensures br.Valid() && Prefix(id, 2) in br.workers
    ensures forall f :: f in old(br.workers) ==> f in br.workers
    ensures br.Cursor() == old(br.Cursor()) && br.devices == old(br.devices) && br.channel == old(br.channel)
  {
    var w := br.GetWorker(Prefix(id, 2));
    q := PushEntries(p, id, Sort(KindKeys(w.kind)));
  }

  /**
   * `paths`: search the wire, remember the ids found in `devices`, fetch each device's worker
   * and push one path per key of its table; then sort. A failed search throws and leaves
   * `devices` as it was.
   */
  method PathsOn(br: Bridge) returns (r: Result<seq<string>>)
    requires br.Valid()
    modifies br, br.i2c
    ensures var s := OneWire.Search(old(br.i2c.State()));
      br.i2c.State() == s.bus && br.Cursor() == s.cursor && br.Valid()
      && r == (if s.res.Err? then Err(s.res.error) else Ok(PathsOf(br.manifest, s.res.value)))
      && br.devices == (if s.res.Err? then old(br.devices) else s.res.value)
      && br.channel == old(br.channel)
    ensures r.Ok? ==> forall i :: 0 <= i < |br.devices| ==> Prefix(br.devices[i], 2) in br.workers
  {
    var found := br.Search();
    if found.Err? {
      return Err(found.error);
    }
    br.devices := found.value;
    var p := ListDevices(br, found.value);
    r := Ok(Sort(p));
  }

  /** The loop of `paths` over the devices found: their paths in the order they are pushed. */
  method ListDevices(br: Bridge, ids: seq<string>) returns (p: seq<string>)
    requires br.Valid()
    modifies br
    ensures p == Listing(br.manifest, ids)
    ensures br.Valid() && br.Cursor() == old(br.Cursor()) && br.devices == old(br.devices) && br.channel == old(br.channel)
    ensures forall i :: 0 <= i < |ids| ==> Prefix(ids[i], 2) in br.workers
  {
    p := [];
    var d := 0;
    while d < |ids|
      invariant 0 <= d <= |ids|
      invariant p == Listing(br.manifest, ids[..d])
      invariant br.Valid() && br.Cursor() == old(br.Cursor()) && br.devices == old(br.devices) && br.channel == old(br.channel)
      invariant forall i :: 0 <= i < d ==> Prefix(ids[i], 2) in br.workers
    {
      ghost var before := br.workers;
      p := PushDevice(br, p, ids[d]);
      ListingSnoc(br.manifest, ids, d);
      StillCached(before, br.workers, ids, d);
      d := d + 1;
    }
    assert ids[..d] == ids;
  }
}
