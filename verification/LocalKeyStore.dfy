/**
 The generation-fenced, multi-version local key store: every mutation is stamped by a
 monotonic clock, appended to the log and pushed on its key's version history; readers
 pin a snapshot; compaction drops versions below the oldest pinned snapshot.
 */
module LocalKeyStore {
  import opened Sequences
  import opened LittleEndian
  import opened WalFrames

  /** One version of a key; no holder means a tombstone. */
  datatype Version = Version(generation: nat, oid: Option<Oid>)

  type History = map<Key, seq<Version>>

  datatype Store = Store(history: History, clock: nat, readers: map<nat, nat>, log: seq<Byte>)

  datatype PutOutcome =
    | Committed(generation: nat)
    | Conflict(holder: Oid, generation: nat)
    | Failed  // the frame could not be written; the clock has ticked all the same

  // ----- version histories

  function Versions(h: History, key: Key): seq<Version>
  {
    if key in h then h[key] else []
  }

  function Push(h: History, rec: Record): History
  {
    h[rec.key := Versions(h, rec.key) + [Version(rec.generation, rec.oid)]]
  }

  /** The histories a replayed log stands for. */
  function Rebuild(recs: seq<Record>): History
  {
    if recs == [] then map[] else Push(Rebuild(recs[..|recs| - 1]), recs[|recs| - 1])
  }

  function MaxGeneration(recs: seq<Record>): nat
  {
    if recs == [] then 0 else
    var rest := MaxGeneration(recs[..|recs| - 1]);
    var last := recs[|recs| - 1].generation;
    if last > rest then last else rest
  }

  /** The current holder: the last version's, if it is a claim. */
  function Live(vs: seq<Version>): Option<Oid>
  {
    if vs == [] then None else vs[|vs| - 1].oid
  }

  /** The holder seen at `snapshot`: that of the last version not newer than it. */
  function ResolveAt(vs: seq<Version>, snapshot: nat): Option<Oid>
  {
    if vs == [] then None
    else if vs[|vs| - 1].generation <= snapshot then vs[|vs| - 1].oid
    else ResolveAt(vs[..|vs| - 1], snapshot)
  }

  /** The number of leading versions below the watermark. */
  function Below(vs: seq<Version>, watermark: nat): (n: nat)
    ensures n <= |vs|
    ensures forall i :: 0 <= i < n ==> vs[i].generation < watermark
    ensures n < |vs| ==> vs[n].generation >= watermark
  {
    if vs == [] || vs[0].generation >= watermark then 0 else 1 + Below(vs[1..], watermark)
  }

  function Prune(vs: seq<Version>, watermark: nat): seq<Version>
  {
    var split := Below(vs, watermark);
    var kept := if split > 0 then vs[split - 1..] else vs;
    if |kept| == 1 && kept[0].oid.None? then [] else kept
  }

  /** The histories compaction keeps: pruned, and without the keys pruned to nothing. */
  function Kept(h: History, watermark: nat): History
  {
    map key | key in h && Prune(h[key], watermark) != [] :: Prune(h[key], watermark)
  }

  function RecordsOf(key: Key, vs: seq<Version>): (recs: seq<Record>)
    ensures |recs| == |vs|
    ensures forall i :: 0 <= i < |vs| ==> recs[i] == Record(key, vs[i].generation, vs[i].oid)
  {
    seq(|vs|, i requires 0 <= i < |vs| => Record(key, vs[i].generation, vs[i].oid))
  }

  /** The records of the compacted log, keys in the hash map's order. */
  function RecordsIn(h: History, order: seq<Key>): seq<Record>
    requires forall key :: key in order ==> key in h
  {
    if order == [] then []
    else RecordsIn(h, order[..|order| - 1]) + RecordsOf(order[|order| - 1], h[order[|order| - 1]])
  }

  // ----- the operations

  function Oldest(readers: map<nat, nat>, clock: nat): (w: nat)
    ensures readers == map[] ==> w == clock
    ensures readers != map[] ==> w in readers && forall snap :: snap in readers ==> w <= snap
  {
    if readers == map[] then clock else LeastOf(readers.Keys)
  }

  function LeastOf(s: set<nat>): (m: nat)
    requires s != {}
    ensures m in s && forall x :: x in s ==> m <= x
  {
    LeastExists(s);
    var m :| m in s && IsLeast(s, m);
    m
  }

  lemma {:induction false} LeastExists(s: set<nat>)
    requires s != {}
    ensures exists m :: IsLeast(s, m)
  {
    var y :| y in s;
    var rest := s - {y};
    forall x | x in s ensures x == y || x in rest { }
    if rest == {} {
      assert IsLeast(s, y);
    } else {
      LeastExists(rest);
      var m :| IsLeast(rest, m);
      assert IsLeast(s, if y < m then y else m);
    }
  }

  predicate IsLeast(s: set<nat>, m: nat)
  {
    m in s && forall x :: x in s ==> m <= x
  }

  function Watermark(s: Store): nat
  {
    Oldest(s.readers, s.clock)
  }

  function Tick(clock: nat, fence: nat): nat
  {
    if fence > clock + 1 then fence else clock + 1
  }

  function Append(env: Env, s: Store, rec: Record): Store
  {
    var ticked := s.(clock := rec.generation);
    if Fits(rec) then ticked.(history := Push(s.history, rec), log := s.log + Frame(env, rec)) else ticked
  }

  function Put(env: Env, s: Store, key: Key, oid: Oid, fence: nat): (Store, PutOutcome)
  {
    var vs := Versions(s.history, key);
    if Live(vs).Some? then (s, Conflict(Live(vs).value, vs[|vs| - 1].generation))
    else
      var rec := Record(key, Tick(s.clock, fence), Some(oid));
      (Append(env, s, rec), if Fits(rec) then Committed(rec.generation) else Failed)
  }

  function Tombstone(env: Env, s: Store, key: Key, fence: nat): Store
  {
    if Live(Versions(s.history, key)).None? then s
    else Append(env, s, Record(key, Tick(s.clock, fence), None))
  }

  function BeginRead(s: Store): Store
  {
    s.(readers := s.readers[s.clock := 1 + if s.clock in s.readers then s.readers[s.clock] else 0])
  }

  function EndRead(s: Store, snapshot: nat): Store
  {
    if snapshot !in s.readers then s
    else if s.readers[snapshot] <= 1 then s.(readers := s.readers - {snapshot})
    else s.(readers := s.readers[snapshot := s.readers[snapshot] - 1])
  }

  ghost predicate Enumerates(order: seq<Key>, keys: set<Key>)
  {
    Distinct(order) && Elements(order) == keys
  }

  function Compact(env: Env, s: Store, order: seq<Key>): Store
    requires forall key :: key in order ==> key in Kept(s.history, Watermark(s))
  {
    var kept := Kept(s.history, Watermark(s));
    s.(history := kept, log := Log(env, RecordsIn(kept, order)))
  }

  /** Opening a log file: replay it, with no readers. */
  function Open(env: Env, log: seq<Byte>): Store
  {
    var recs := Replay(env, log);
    Store(Rebuild(recs), MaxGeneration(recs), map[], log)
  }

  // ----- runs

  datatype Event =
    | PutEvent(key: Key, oid: Oid, fence: nat)
    | TombstoneEvent(key: Key, fence: nat)
    | BeginReadEvent
    | EndReadEvent(snapshot: nat)
    | CompactEvent(order: seq<Key>)
    | ReopenEvent
    | CrashEvent(key: Key, holder: Option<Oid>, fence: nat, cut: nat)  // inside an append, then reopened

  /** The record a claim of `key`, or without a holder its deletion, would append. */
  function Stamp(s: Store, key: Key, holder: Option<Oid>, fence: nat): Record
  {
    Record(key, Tick(s.clock, fence), holder)
  }

  /**
   Fences and stamps are 64-bit, holders are UTF-8, and a read ends once per guard. A crash
   hits a claim of a free key or a deletion of a held one, after any number of its frame's bytes.
   */
  ghost predicate Enabled(env: Env, s: Store, e: Event)
  {
    match e
    case PutEvent(_, oid, fence) => env.utf8(oid) && Tick(s.clock, fence) < U64_LIMIT
    case TombstoneEvent(_, fence) => Tick(s.clock, fence) < U64_LIMIT
    case BeginReadEvent => true
    case EndReadEvent(snapshot) => snapshot in s.readers
    case CompactEvent(order) => Enumerates(order, Kept(s.history, Watermark(s)).Keys)
    case ReopenEvent => true
    case CrashEvent(key, holder, fence, cut) =>
      var rec := Stamp(s, key, holder, fence);
      && Writable(env, rec) && cut <= |Frame(env, rec)|
      && Live(Versions(s.history, key)).Some? != holder.Some?
  }

  ghost function Next(env: Env, s: Store, e: Event): Store
    requires Enabled(env, s, e)
  {
    match e
    case PutEvent(key, oid, fence) => Put(env, s, key, oid, fence).0
    case TombstoneEvent(key, fence) => Tombstone(env, s, key, fence)
    case BeginReadEvent => BeginRead(s)
    case EndReadEvent(snapshot) => EndRead(s, snapshot)
    case CompactEvent(order) =>
      assert forall key :: key in order ==> key in Elements(order);
      Compact(env, s, order)
    case ReopenEvent => Open(env, s.log)
    case CrashEvent(key, holder, fence, cut) => Open(env, s.log + Frame(env, Stamp(s, key, holder, fence))[..cut])
  }

  predicate Restarts(e: Event)
  {
    e.ReopenEvent? || e.CrashEvent?
  }

  /** The bytes a restart reads: the log, with what a crash left of the frame in flight. */
  ghost function LogRead(env: Env, s: Store, e: Event): seq<Byte>
    requires Restarts(e) && Enabled(env, s, e)
  {
    if e.ReopenEvent? then s.log else s.log + Frame(env, Stamp(s, e.key, e.holder, e.fence))[..e.cut]
  }

  /**
   The record an event writes and reports: a claim of a free key or a deletion of a held one,
   if its frame fits.
   */
  function WrittenBy(s: Store, e: Event): seq<Record>
  {
    match e
    case PutEvent(key, oid, fence) =>
      var rec := Stamp(s, key, Some(oid), fence);
      if Live(Versions(s.history, key)).None? && Fits(rec) then [rec] else []
    case TombstoneEvent(key, fence) =>
      var rec := Stamp(s, key, None, fence);
      if Live(Versions(s.history, key)).Some? && Fits(rec) then [rec] else []
    case _ => []
  }

  ghost predicate Legal(env: Env, s: Store, events: seq<Event>)
    decreases |events|
  {
    events == [] || (Enabled(env, s, events[0]) && Legal(env, Next(env, s, events[0]), events[1..]))
  }

  ghost function After(env: Env, s: Store, events: seq<Event>): Store
    requires Legal(env, s, events)
    decreases |events|
  {
    if events == [] then s else After(env, Next(env, s, events[0]), events[1..])
  }

  // ----- the invariant

  /** Strictly newer along the history, claims and tombstones alternating, no lone tombstone. */
  ghost predicate GoodVersions(vs: seq<Version>, clock: nat)
  {
    && vs != []
    && (forall i, j :: 0 <= i < j < |vs| ==> vs[i].generation < vs[j].generation)
    && (forall i :: 0 <= i < |vs| - 1 ==> vs[i].oid.Some? != vs[i + 1].oid.Some?)
    && (forall i :: 0 <= i < |vs| ==> 1 <= vs[i].generation <= clock)
    && (|vs| == 1 ==> vs[0].oid.Some?)
  }

  ghost predicate AllGood(h: History, clock: nat)
  {
    forall key :: key in h ==> GoodVersions(h[key], clock)
  }

  /** The histories are those of records the store can write. */
  ghost predicate Recorded(env: Env, h: History)
  {
    exists recs :: AllWritable(env, recs) && Rebuild(recs) == h
  }

  /** What holds of the memory of the store, whatever a crash has done to its log. */
  ghost predicate Sound(env: Env, s: Store)
  {
    && AllGood(s.history, s.clock)
    && (forall snap :: snap in s.readers ==> snap <= s.clock && s.readers[snap] >= 1)
    && s.clock < U64_LIMIT
    && Recorded(env, s.history)
  }

  /** The log has no torn tail and replays to the histories. */
  ghost predicate Durable(env: Env, s: Store)
  {
    TornTail(env, s.log) == [] && Rebuild(Replay(env, s.log)) == s.history
  }

  ghost predicate Valid(env: Env, s: Store)
  {
    Sound(env, s) && Durable(env, s)
  }
}
