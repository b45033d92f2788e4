/**
 What the runs of the local key store keep, crashes included: histories stay well formed,
 a whole log replays to them, pinned snapshots read the same, and no key has two holders.
 */
module LocalKeyStoreTheorems {
  import opened Sequences
  import opened LittleEndian
  import opened WalFrames
  import opened LocalKeyStore

  // ----- rebuilding histories from records

  lemma RebuildPush(recs: seq<Record>, rec: Record)
    ensures Rebuild(recs + [rec]) == Push(Rebuild(recs), rec)
    ensures MaxGeneration(recs + [rec]) == if rec.generation > MaxGeneration(recs) then rec.generation else MaxGeneration(recs)
  {
    assert (recs + [rec])[..|recs|] == recs;
  }

  lemma PushTwice(h: History, key: Key, vs: seq<Version>, v: Version)
    ensures Push(h[key := vs], Record(key, v.generation, v.oid)) == h[key := vs + [v]]
  {
  }

  lemma {:induction false} RebuildBlock(recs: seq<Record>, key: Key, vs: seq<Version>)
    requires vs != []
    ensures Rebuild(recs + RecordsOf(key, vs)) == Rebuild(recs)[key := Versions(Rebuild(recs), key) + vs]
  {
    hide Rebuild, Push;
    var n := |vs| - 1;
    var last := Record(key, vs[n].generation, vs[n].oid);
    assert recs + RecordsOf(key, vs) == recs + RecordsOf(key, vs[..n]) + [last];
    RebuildPush(recs + RecordsOf(key, vs[..n]), last);
    var prior := Versions(Rebuild(recs), key);
    assert prior + vs == prior + vs[..n] + [vs[n]];
    if n == 0 {
      assert recs + RecordsOf(key, vs[..n]) == recs;
      assert vs[..n] == [] && prior + [] == prior;
      PushOne(Rebuild(recs), last);
    } else {
      RebuildBlock(recs, key, vs[..n]);
      PushTwice(Rebuild(recs), key, prior + vs[..n], vs[n]);
    }
  }

  lemma PushOne(h: History, rec: Record)
    ensures Push(h, rec) == h[rec.key := Versions(h, rec.key) + [Version(rec.generation, rec.oid)]]
  {
  }

  function Restrict(h: History, order: seq<Key>): History
  {
    map key | key in order && key in h :: h[key]
  }

  lemma RestrictOneMore(h: History, order: seq<Key>, key: Key)
    requires key in h && key !in order
    ensures Restrict(h, order + [key]) == Restrict(h, order)[key := h[key]]
    ensures Versions(Restrict(h, order), key) + h[key] == h[key]
  {
  }

  /** The compacted log replays to the kept histories, whatever order the keys went out in. */
  lemma {:induction false} RebuildInAnyOrder(h: History, order: seq<Key>)
    requires Distinct(order)
    requires forall key :: key in order ==> key in h && h[key] != []
    ensures Rebuild(RecordsIn(h, order)) == Restrict(h, order)
  {
    if order != [] {
      hide Rebuild, Restrict, Versions;
      var n := |order| - 1;
      var key := order[n];
      assert order == order[..n] + [key] && key !in order[..n];
      RebuildInAnyOrder(h, order[..n]);
      RebuildBlock(RecordsIn(h, order[..n]), key, h[key]);
      RestrictOneMore(h, order[..n], key);
    }
  }

  /** `g` is the highest generation in `h`. */
  ghost predicate Highest(h: History, g: nat)
  {
    && (forall key, i :: key in h && 0 <= i < |h[key]| ==> h[key][i].generation <= g)
    && (g == 0 || exists key, i :: key in h && 0 <= i < |h[key]| && h[key][i].generation == g)
  }

  lemma {:induction false} MaxGenerationIsHighest(recs: seq<Record>)
    ensures Highest(Rebuild(recs), MaxGeneration(recs))
  {
    if recs != [] {
      var n := |recs| - 1;
      var rec := recs[n];
      var h: History := Rebuild(recs[..n]);
      var h': History := Rebuild(recs);
      MaxGenerationIsHighest(recs[..n]);
      var prior := Versions(h, rec.key);
      assert h'[rec.key][|prior|].generation == rec.generation;
      if MaxGeneration(recs) != rec.generation && MaxGeneration(recs) != 0 {
        var key, i :| key in h && 0 <= i < |h[key]| && h[key][i].generation == MaxGeneration(recs[..n]);
        assert h'[key][i] == h[key][i];
      }
    }
  }

  lemma {:induction false} VersionsWereRecorded(recs: seq<Record>, key: Key, i: nat)
    requires key in Rebuild(recs) && i < |Rebuild(recs)[key]|
    ensures Record(key, Rebuild(recs)[key][i].generation, Rebuild(recs)[key][i].oid) in recs
  {
    var n := |recs| - 1;
    var prior := Versions(Rebuild(recs[..n]), key);
    if key == recs[n].key && i == |prior| {
      assert recs[n] in recs;
    } else {
      VersionsWereRecorded(recs[..n], key, i);
    }
  }

  // ----- pruning

  lemma {:induction false} ResolveSuffix(vs: seq<Version>, k: nat, snapshot: nat)
    requires k < |vs| && vs[k].generation <= snapshot
    ensures ResolveAt(vs[k..], snapshot) == ResolveAt(vs, snapshot)
  {
    var n := |vs| - 1;
    if vs[n].generation > snapshot {
      assert vs[k..][..n - k] == vs[..n][k..];
      ResolveSuffix(vs[..n], k, snapshot);
    }
  }

  /** A read at or above the watermark sees the same holder before and after pruning. */
  lemma PruneInvisible(vs: seq<Version>, watermark: nat, snapshot: nat)
    requires watermark <= snapshot
    ensures ResolveAt(Prune(vs, watermark), snapshot) == ResolveAt(vs, snapshot)
  {
    var split := Below(vs, watermark);
    var kept := if split > 0 then vs[split - 1..] else vs;
    if split > 0 {
      ResolveSuffix(vs, split - 1, snapshot);
    }
    if |kept| == 1 && kept[0].oid.None? {
      assert kept[..0] == [];
    }
  }

  lemma PruneGood(vs: seq<Version>, watermark: nat, clock: nat)
    requires GoodVersions(vs, clock)
    ensures Prune(vs, watermark) != [] ==> GoodVersions(Prune(vs, watermark), clock)
    ensures Live(Prune(vs, watermark)) == Live(vs)
  {
    hide Below;
    var split := Below(vs, watermark);
    SuffixGood(vs, if split > 0 then split - 1 else 0, clock);
  }

  lemma SuffixGood(vs: seq<Version>, n: nat, clock: nat)
    requires GoodVersions(vs, clock) && n < |vs|
    ensures Live(vs[n..]) == Live(vs) && ((|vs[n..]| == 1 && vs[n].oid.None?) || GoodVersions(vs[n..], clock))
  {
    forall i | 0 <= i < |vs[n..]| ensures vs[n..][i] == vs[n + i] { }
  }

  /** Pruning forgets a history only if it ended in a tombstone below the watermark. */
  lemma PruneEmpty(vs: seq<Version>, watermark: nat, clock: nat)
    requires GoodVersions(vs, clock)
    ensures Prune(vs, watermark) == [] <==> vs[|vs| - 1].oid.None? && vs[|vs| - 1].generation < watermark
    ensures Prune(vs, watermark) != [] ==> Prune(vs, watermark)[|Prune(vs, watermark)| - 1] == vs[|vs| - 1]
  {
  }

  lemma {:induction false} RecordsWritable(env: Env, recs: seq<Record>, h: History, order: seq<Key>)
    requires AllWritable(env, recs)
    requires forall key :: key in order ==> key in h
    requires forall key, i :: key in h && 0 <= i < |h[key]| ==> Record(key, h[key][i].generation, h[key][i].oid) in recs
    ensures AllWritable(env, RecordsIn(h, order))
  {
    if order != [] {
      RecordsWritable(env, recs, h, order[..|order| - 1]);
    }
  }

  lemma KeptIsSuffix(h: History, watermark: nat, key: Key, i: nat) returns (skip: nat)
    requires key in Kept(h, watermark) && i < |Kept(h, watermark)[key]|
    ensures i + skip < |h[key]| && Kept(h, watermark)[key][i] == h[key][i + skip]
  {
    skip := |h[key]| - |Kept(h, watermark)[key]|;
  }

  lemma KeptWereRecorded(recs: seq<Record>, watermark: nat)
    ensures
      var kept: History := Kept(Rebuild(recs), watermark);
      forall key, i :: key in kept && 0 <= i < |kept[key]| ==> Record(key, kept[key][i].generation, kept[key][i].oid) in recs
  {
    var h: History := Rebuild(recs);
    var kept: History := Kept(h, watermark);
    forall key, i | key in kept && 0 <= i < |kept[key]|
      ensures Record(key, kept[key][i].generation, kept[key][i].oid) in recs
    {
      hide Rebuild;
      var skip := KeptIsSuffix(h, watermark, key, i);
      VersionsWereRecorded(recs, key, i + skip);
    }
  }

  // ----- the invariant is kept by every step

  lemma PushGood(h: History, rec: Record, clock: nat)
    requires AllGood(h, clock) && clock < rec.generation
    requires Live(Versions(h, rec.key)).Some? != rec.oid.Some?
    ensures AllGood(Push(h, rec), rec.generation)
  {
  }

  lemma PushRecorded(env: Env, h: History, rec: Record)
    requires Recorded(env, h) && Writable(env, rec)
    ensures Recorded(env, Push(h, rec))
  {
    hide Rebuild, Push, Writable;
    var recs :| AllWritable(env, recs) && Rebuild(recs) == h;
    RebuildPush(recs, rec);
    assert AllWritable(env, recs + [rec]);
  }

  lemma AppendSound(env: Env, s: Store, rec: Record)
    requires Sound(env, s) && s.clock < rec.generation < U64_LIMIT
    requires rec.oid.Some? ==> env.utf8(rec.oid.value)
    requires Live(Versions(s.history, rec.key)).Some? != rec.oid.Some?
    ensures Sound(env, Append(env, s, rec))
  {
    hide Frame, Payload, Push, Versions, Recorded;
    if Fits(rec) {
      PushGood(s.history, rec, s.clock);
      PushRecorded(env, s.history, rec);
    }
  }

  lemma AppendDurable(env: Env, s: Store, rec: Record)
    requires Durable(env, s) && rec.generation < U64_LIMIT && (rec.oid.Some? ==> env.utf8(rec.oid.value))
    ensures Durable(env, Append(env, s, rec))
  {
    hide Replay, TornTail, Frame, Payload, Push, Versions, Rebuild;
    if Fits(rec) {
      CleanAppendSurvives(env, s.log, rec);
      RebuildPush(Replay(env, s.log), rec);
    }
  }

  lemma KeptGood(h: History, watermark: nat, clock: nat)
    requires AllGood(h, clock)
    ensures AllGood(Kept(h, watermark), clock)
  {
    forall key | key in Kept(h, watermark) ensures GoodVersions(Kept(h, watermark)[key], clock) {
      PruneGood(h[key], watermark, clock);
    }
  }

  /** The compacted log, in any key order, replays to the kept histories. */
  lemma CompactedLogReplays(env: Env, recs: seq<Record>, watermark: nat, order: seq<Key>)
    requires AllWritable(env, recs) && Enumerates(order, Kept(Rebuild(recs), watermark).Keys)
    ensures
      var kept := Kept(Rebuild(recs), watermark);
      && (forall key :: key in order ==> key in kept)
      && Rebuild(Replay(env, Log(env, RecordsIn(kept, order)))) == kept
      && TornTail(env, Log(env, RecordsIn(kept, order))) == []
  {
    hide Replay, TornTail, Prune, Log;
    var kept := Kept(Rebuild(recs), watermark);
    forall key ensures key in order <==> key in kept { assert key in order <==> key in Elements(order); }
    KeptWereRecorded(recs, watermark);
    RecordsWritable(env, recs, kept, order);
    ReplayInverts(env, RecordsIn(kept, order));
    RebuildInAnyOrder(kept, order);
    assert Restrict(kept, order) == kept;
  }

  lemma ReplayRecorded(env: Env, log: seq<Byte>)
    ensures Recorded(env, Rebuild(Replay(env, log)))
  {
    hide Replay, Rebuild;
    ReplayedIsWritable(env, log);
  }

  /** A compaction leaves a whole log, whatever the log was before. */
  lemma CompactValid(env: Env, s: Store, order: seq<Key>)
    requires Sound(env, s) && Enumerates(order, Kept(s.history, Watermark(s)).Keys)
    ensures forall key :: key in order ==> key in Kept(s.history, Watermark(s))
    ensures Valid(env, Compact(env, s, order))
  {
    hide Replay, TornTail, Kept, Log, RecordsIn, Rebuild;
    var recs :| AllWritable(env, recs) && Rebuild(recs) == s.history;
    CompactedLogReplays(env, recs, Watermark(s), order);
    KeptGood(s.history, Watermark(s), s.clock);
    ReplayRecorded(env, Compact(env, s, order).log);
  }

  lemma OpenValid(env: Env, s: Store)
    requires Valid(env, s)
    ensures Valid(env, Open(env, s.log)) && Open(env, s.log).history == s.history
    ensures Open(env, s.log).clock <= s.clock
  {
    hide Replay, TornTail, Rebuild, MaxGeneration, Recorded;
    OpenSound(env, s.log, s.clock);
  }

  /** A log that replays to good histories opens to a sound store. */
  lemma OpenSound(env: Env, log: seq<Byte>, clock: nat)
    requires AllGood(Rebuild(Replay(env, log)), clock) && clock < U64_LIMIT
    ensures Sound(env, Open(env, log)) && Open(env, log).clock <= clock
    ensures Highest(Open(env, log).history, Open(env, log).clock)
  {
    hide Replay, Rebuild, MaxGeneration, Recorded;
    var recs := Replay(env, log);
    MaxGenerationIsHighest(recs);
    HighestBounds(Rebuild(recs), clock, MaxGeneration(recs));
    ReplayRecorded(env, log);
  }

  /** The highest generation of a good history bounds it, and is itself within the clock. */
  lemma HighestBounds(h: History, clock: nat, top: nat)
    requires Highest(h, top) && AllGood(h, clock)
    ensures top <= clock && AllGood(h, top)
  {
    if top != 0 {
      var key, i :| key in h && 0 <= i < |h[key]| && h[key][i].generation == top;
    }
  }

  /** The append a crash hits is cut inside its frame. */
  ghost predicate TornBy(env: Env, s: Store, e: Event)
  {
    e.CrashEvent? && 0 < e.cut < |Frame(env, Stamp(s, e.key, e.holder, e.fence))|
  }

  /** A frame cut before its end leaves the old records and itself as the tail; a whole one is recovered. */
  lemma CrashedLog(env: Env, log: seq<Byte>, rec: Record, cut: nat)
    requires TornTail(env, log) == [] && Writable(env, rec) && cut <= |Frame(env, rec)|
    ensures cut < |Frame(env, rec)| ==>
      Replay(env, log + Frame(env, rec)[..cut]) == Replay(env, log) && TornTail(env, log + Frame(env, rec)[..cut]) == Frame(env, rec)[..cut]
    ensures cut == |Frame(env, rec)| ==>
      Replay(env, log + Frame(env, rec)[..cut]) == Replay(env, log) + [rec] && TornTail(env, log + Frame(env, rec)[..cut]) == []
  {
    hide Replay, TornTail, FirstFrame, Frame, Payload;
    var part := Frame(env, rec)[..cut];
    if cut < |Frame(env, rec)| {
      CutFrameRejected(env, rec, cut);
      assert TornTail(env, log) + part == part;
      AppendsLostIff(env, log, part);
    } else {
      assert part == Frame(env, rec);
      CleanAppendSurvives(env, log, rec);
    }
  }

  /** The histories after a crash: those of before, and the record in flight if its frame was whole. */
  lemma CrashKeeps(env: Env, s: Store, e: Event)
    requires Valid(env, s) && e.CrashEvent? && Enabled(env, s, e)
    ensures
      var rec, t := Stamp(s, e.key, e.holder, e.fence), Next(env, s, e);
      && Sound(env, t) && t.readers == map[] && Highest(t.history, t.clock)
      && t.history == (if e.cut < |Frame(env, rec)| then s.history else Push(s.history, rec))
      && (Durable(env, t) <==> !TornBy(env, s, e))
  {
    hide Replay, TornTail, Frame, Payload, Push, Rebuild, Recorded, MaxGeneration, Highest;
    var rec := Stamp(s, e.key, e.holder, e.fence);
    var log := s.log + Frame(env, rec)[..e.cut];
    CrashedLog(env, s.log, rec, e.cut);
    RebuildPush(Replay(env, s.log), rec);
    PushGood(s.history, rec, s.clock);
    OpenSound(env, log, if e.cut < |Frame(env, rec)| then s.clock else rec.generation);
  }

  /** A step keeps the memory sound; a restart needs the log to be whole. */
  lemma StepSound(env: Env, s: Store, e: Event)
    requires Sound(env, s) && Enabled(env, s, e) && (Restarts(e) ==> Durable(env, s))
    ensures Sound(env, Next(env, s, e))
  {
    hide Replay, TornTail, Frame, Payload, Recorded, Durable;
    match e
    case PutEvent(key, oid, fence) =>
      if Live(Versions(s.history, key)).None? { AppendSound(env, s, Stamp(s, key, Some(oid), fence)); }
    case TombstoneEvent(key, fence) =>
      if Live(Versions(s.history, key)).Some? { AppendSound(env, s, Stamp(s, key, None, fence)); }
    case CompactEvent(order) => CompactValid(env, s, order);
    case ReopenEvent => OpenValid(env, s);
    case CrashEvent(_, _, _, _) => CrashKeeps(env, s, e);
    case BeginReadEvent =>
    case EndReadEvent(snapshot) =>
  }

  /** A whole log stays whole unless an append is torn, and a compaction makes any log whole. */
  lemma StepDurable(env: Env, s: Store, e: Event)
    requires Sound(env, s) && Enabled(env, s, e)
    requires e.CompactEvent? || (Durable(env, s) && !TornBy(env, s, e))
    ensures Durable(env, Next(env, s, e))
  {
    hide Durable, Sound, Frame, Payload, Kept;
    match e
    case PutEvent(key, oid, fence) => AppendDurable(env, s, Stamp(s, key, Some(oid), fence));
    case TombstoneEvent(key, fence) => AppendDurable(env, s, Stamp(s, key, None, fence));
    case CompactEvent(order) => CompactValid(env, s, order);
    case ReopenEvent => OpenValid(env, s);
    case CrashEvent(_, _, _, _) => CrashKeeps(env, s, e);
    case BeginReadEvent => SameLog(env, s, Next(env, s, e));
    case EndReadEvent(snapshot) => SameLog(env, s, Next(env, s, e));
  }

  lemma SameLog(env: Env, s: Store, t: Store)
    requires s.log == t.log && s.history == t.history
    ensures Durable(env, s) <==> Durable(env, t)
  {
  }

  /** Every restart of the run finds a whole log that replays to the histories. */
  ghost predicate Healed(env: Env, s: Store, events: seq<Event>)
    requires Legal(env, s, events)
    decreases |events|
  {
    events == [] || ((Restarts(events[0]) ==> Durable(env, s)) && Healed(env, Next(env, s, events[0]), events[1..]))
  }

  /** Every state of a healed run, crashes included, is sound. */
  lemma {:induction false} RunSound(env: Env, s: Store, events: seq<Event>)
    requires Sound(env, s) && Legal(env, s, events) && Healed(env, s, events)
    ensures Sound(env, After(env, s, events))
    decreases |events|
  {
    hide Sound, Durable, Enabled, Next;
    if events != [] {
      StepSound(env, s, events[0]);
      RunSound(env, Next(env, s, events[0]), events[1..]);
    }
  }

  /** After a crash a compaction comes before the next restart; `whole` says whether one is owed. */
  predicate CompactsFirst(events: seq<Event>, whole: bool)
  {
    events == [] ||
    match events[0]
    case CompactEvent(_) => CompactsFirst(events[1..], true)
    case ReopenEvent => whole && CompactsFirst(events[1..], true)
    case CrashEvent(_, _, _, _) => whole && CompactsFirst(events[1..], false)
    case _ => CompactsFirst(events[1..], whole)
  }

  /** That discipline heals every run, for every checksum. */
  lemma {:induction false} CompactionsHeal(env: Env, s: Store, events: seq<Event>, whole: bool)
    requires Sound(env, s) && (whole ==> Durable(env, s)) && Legal(env, s, events) && CompactsFirst(events, whole)
    ensures Healed(env, s, events)
    decreases |events|
  {
    hide Sound, Durable, Enabled, Next, TornBy;
    if events != [] {
      var e := events[0];
      StepSound(env, s, e);
      NotTorn(env, s, e);
      var after := e.CompactEvent? || (whole && !e.CrashEvent?);
      if after { StepDurable(env, s, e); }
      CompactionsHeal(env, Next(env, s, e), events[1..], after);
    }
  }

  lemma NotTorn(env: Env, s: Store, e: Event)
    ensures TornBy(env, s, e) ==> e.CrashEvent?
  {
  }

  /** Every state a run without a torn append reaches has a whole log too. */
  lemma {:induction false} RunValid(env: Env, s: Store, events: seq<Event>)
    requires Valid(env, s) && Legal(env, s, events) && NoneTorn(env, s, events)
    ensures Valid(env, After(env, s, events)) && Healed(env, s, events)
    decreases |events|
  {
    hide Sound, Durable, Enabled, Next, TornBy;
    if events != [] {
      StepSound(env, s, events[0]);
      StepDurable(env, s, events[0]);
      RunValid(env, Next(env, s, events[0]), events[1..]);
    }
  }

  ghost predicate NoneTorn(env: Env, s: Store, events: seq<Event>)
    requires Legal(env, s, events)
    decreases |events|
  {
    events == [] || (!TornBy(env, s, events[0]) && NoneTorn(env, Next(env, s, events[0]), events[1..]))
  }

  // ----- snapshot reads

  function ReadAt(s: Store, key: Key, snapshot: nat): Option<Oid>
  {
    ResolveAt(Versions(s.history, key), snapshot)
  }

  lemma PushInvisible(h: History, rec: Record, key: Key, snapshot: nat)
    requires snapshot < rec.generation
    ensures ResolveAt(Versions(Push(h, rec), key), snapshot) == ResolveAt(Versions(h, key), snapshot)
  {
    if key == rec.key {
      var vs := Versions(h, key);
      assert (vs + [Version(rec.generation, rec.oid)])[..|vs|] == vs;
    }
  }

  lemma KeptInvisible(h: History, watermark: nat, key: Key, snapshot: nat)
    requires watermark <= snapshot
    ensures ResolveAt(Versions(Kept(h, watermark), key), snapshot) == ResolveAt(Versions(h, key), snapshot)
  {
    if key in h {
      PruneInvisible(h[key], watermark, snapshot);
      assert Versions(Kept(h, watermark), key) == Prune(h[key], watermark);
    }
  }

  /** No step changes what a pinned snapshot reads. */
  lemma StepKeepsSnapshot(env: Env, s: Store, e: Event, key: Key, snapshot: nat)
    requires Sound(env, s) && Enabled(env, s, e) && snapshot in s.readers && (Restarts(e) ==> Durable(env, s))
    ensures ReadAt(Next(env, s, e), key, snapshot) == ReadAt(s, key, snapshot)
  {
    hide Replay, TornTail, Frame, Payload, Push, Versions, Kept, ResolveAt, Recorded;
    match e
    case PutEvent(k, oid, fence) => PushInvisible(s.history, Stamp(s, k, Some(oid), fence), key, snapshot);
    case TombstoneEvent(k, fence) => PushInvisible(s.history, Stamp(s, k, None, fence), key, snapshot);
    case CrashEvent(k, holder, fence, _) =>
      CrashKeeps(env, s, e);
      PushInvisible(s.history, Stamp(s, k, holder, fence), key, snapshot);
    case CompactEvent(order) => KeptInvisible(s.history, Watermark(s), key, snapshot);
    case ReopenEvent => OpenValid(env, s);
    case BeginReadEvent =>
    case EndReadEvent(_) =>
  }

  /** The guard on `snapshot` is held before every step of the run. */
  ghost predicate Held(env: Env, s: Store, events: seq<Event>, snapshot: nat)
    requires Legal(env, s, events)
    decreases |events|
  {
    events == [] || (snapshot in s.readers && Held(env, Next(env, s, events[0]), events[1..], snapshot))
  }

  /**
   Repeatable reads: while its guard is held, a reader sees the same holder for every
   key, whatever claims, deletions, other readers and compactions run in between. A restart
   drops all guards, and still reads the same if it finds a whole log.
   */
  lemma {:induction false} RepeatableRead(env: Env, s: Store, events: seq<Event>, key: Key, snapshot: nat)
    requires Sound(env, s) && Legal(env, s, events) && Healed(env, s, events) && Held(env, s, events, snapshot)
    ensures ReadAt(After(env, s, events), key, snapshot) == ReadAt(s, key, snapshot)
    decreases |events|
  {
    if events != [] {
      StepSound(env, s, events[0]);
      StepKeepsSnapshot(env, s, events[0], key, snapshot);
      RepeatableRead(env, Next(env, s, events[0]), events[1..], key, snapshot);
    }
  }

  // ----- exclusive ownership

  /** The state before the `i`-th event of a run. */
  ghost function StateAt(env: Env, s: Store, events: seq<Event>, i: nat): Store
    requires Legal(env, s, events) && i <= |events|
    decreases |events|
  {
    if i == 0 then s else StateAt(env, Next(env, s, events[0]), events[1..], i - 1)
  }

  lemma {:induction false} StateAtSteps(env: Env, s: Store, events: seq<Event>, i: nat)
    requires Sound(env, s) && Legal(env, s, events) && Healed(env, s, events) && i < |events|
    ensures Sound(env, StateAt(env, s, events, i)) && Enabled(env, StateAt(env, s, events, i), events[i])
    ensures Restarts(events[i]) ==> Durable(env, StateAt(env, s, events, i))
    ensures StateAt(env, s, events, i + 1) == Next(env, StateAt(env, s, events, i), events[i])
    decreases |events|
  {
    hide Sound, Durable, Enabled, Next;
    if i > 0 {
      StepSound(env, s, events[0]);
      StateAtSteps(env, Next(env, s, events[0]), events[1..], i - 1);
    }
  }

  ghost predicate HeldIn(s: Store, key: Key)
  {
    Live(Versions(s.history, key)).Some?
  }

  /** The `i`-th event claims `key`: it was free before and is held after. */
  ghost predicate Claims(env: Env, s: Store, events: seq<Event>, i: nat, key: Key)
    requires Legal(env, s, events) && i < |events|
  {
    && events[i].PutEvent? && events[i].key == key
    && Put(env, StateAt(env, s, events, i), key, events[i].oid, events[i].fence).1.Committed?
  }

  /** A deletion of `key`, or a crash inside one. */
  predicate Deleting(e: Event, key: Key)
  {
    (e.TombstoneEvent? || (e.CrashEvent? && e.holder.None?)) && e.key == key
  }

  /** The `i`-th event deletes `key`: it was held before and is free after. */
  ghost predicate Deletes(env: Env, s: Store, events: seq<Event>, i: nat, key: Key)
    requires Legal(env, s, events) && i < |events|
  {
    && Deleting(events[i], key)
    && HeldIn(StateAt(env, s, events, i), key) && !HeldIn(StateAt(env, s, events, i + 1), key)
  }

  /** Nothing but a deletion of the key frees it: not a compaction, and not a restart from a whole log. */
  lemma HeldThroughStep(env: Env, s: Store, e: Event, key: Key)
    requires Sound(env, s) && Enabled(env, s, e) && (Restarts(e) ==> Durable(env, s))
    requires HeldIn(s, key) && !HeldIn(Next(env, s, e), key)
    ensures Deleting(e, key)
  {
    hide Replay, TornTail, Frame, Payload, Kept, Rebuild, Recorded;
    match e
    case CompactEvent(order) => KeptLive(s.history, Watermark(s), key);
    case ReopenEvent => OpenValid(env, s);
    case CrashEvent(_, _, _, _) => CrashKeeps(env, s, e);
    case _ =>
  }

  lemma PruneLive(vs: seq<Version>, watermark: nat)
    ensures Live(Prune(vs, watermark)) == Live(vs)
  {
    hide Below;
  }

  lemma KeptLive(h: History, watermark: nat, key: Key)
    ensures Live(Versions(Kept(h, watermark), key)) == Live(Versions(h, key))
  {
    if key in h {
      PruneLive(h[key], watermark);
      assert Versions(Kept(h, watermark), key) == Prune(h[key], watermark);
    }
  }

  lemma {:induction false} HeldUntilDeleted(env: Env, s: Store, events: seq<Event>, i: nat, j: nat, key: Key)
    requires Sound(env, s) && Legal(env, s, events) && Healed(env, s, events)
    requires i <= j <= |events| && HeldIn(StateAt(env, s, events, i), key)
    requires forall k :: i <= k < j ==> !Deletes(env, s, events, k, key)
    ensures HeldIn(StateAt(env, s, events, j), key)
    decreases j
  {
    hide StateAt, Legal, Healed, Sound, Durable, Enabled, Next, HeldIn, Deleting;
    if i < j {
      HeldUntilDeleted(env, s, events, i, j - 1, key);
      StateAtSteps(env, s, events, j - 1);
      assert !Deletes(env, s, events, j - 1, key);
      if !HeldIn(StateAt(env, s, events, j), key) {
        HeldThroughStep(env, StateAt(env, s, events, j - 1), events[j - 1], key);
      }
    }
  }

  lemma ClaimChanges(env: Env, s: Store, events: seq<Event>, i: nat, key: Key)
    requires Sound(env, s) && Legal(env, s, events) && Healed(env, s, events) && i < |events| && Claims(env, s, events, i, key)
    ensures !HeldIn(StateAt(env, s, events, i), key) && HeldIn(StateAt(env, s, events, i + 1), key)
  {
    hide StateAt, Legal, Healed, Sound, Frame, Payload;
    StateAtSteps(env, s, events, i);
  }

  /**
   No key has two holders: over every healed run, through compactions, crashes and restarts,
   two committed claims of one key have a deletion of it in between.
   */
  lemma ClaimsAreSeparated(env: Env, s: Store, events: seq<Event>, i: nat, j: nat, key: Key) returns (k: nat)
    requires Sound(env, s) && Legal(env, s, events) && Healed(env, s, events) && i < j < |events|
    requires Claims(env, s, events, i, key) && Claims(env, s, events, j, key)
    ensures i < k < j && Deletes(env, s, events, k, key)
  {
    hide *;
    ClaimChanges(env, s, events, i, key);
    ClaimChanges(env, s, events, j, key);
    if forall l :: i + 1 <= l < j ==> !Deletes(env, s, events, l, key) {
      HeldUntilDeleted(env, s, events, i + 1, j, key);
    }
    k :| i + 1 <= k < j && Deletes(env, s, events, k, key);
  }

  const EMPTY: Store := Store(map[], 0, map[], [])

  lemma EmptyIsValid(env: Env)
    ensures Valid(env, EMPTY)
  {
    assert AllWritable(env, []) && Rebuild([]) == map[];
  }

  /** From an empty log: if after each crash a compaction comes before the next restart, every state is sound. */
  lemma ReachedIsSound(env: Env, events: seq<Event>)
    requires Legal(env, EMPTY, events) && CompactsFirst(events, true)
    ensures Healed(env, EMPTY, events) && Sound(env, After(env, EMPTY, events))
  {
    hide Sound, Durable, Healed, Legal, CompactsFirst, After;
    EmptyIsValid(env);
    CompactionsHeal(env, EMPTY, events, true);
    RunSound(env, EMPTY, events);
  }

  /** And two committed claims of one key have a deletion of it in between. */
  lemma ReachedClaimsAreSeparated(env: Env, events: seq<Event>, i: nat, j: nat, key: Key) returns (k: nat)
    requires Legal(env, EMPTY, events) && CompactsFirst(events, true) && i < j < |events|
    requires Claims(env, EMPTY, events, i, key) && Claims(env, EMPTY, events, j, key)
    ensures i < k < j && Deletes(env, EMPTY, events, k, key)
  {
    hide *;
    ReachedIsSound(env, events);
    EmptyIsSound(env);
    k := ClaimsAreSeparated(env, EMPTY, events, i, j, key);
  }

  lemma EmptyIsSound(env: Env)
    ensures Sound(env, EMPTY)
  {
    hide Sound;
    EmptyIsValid(env);
  }

  /** From an empty log, without a torn append, every state is valid. */
  lemma ReachedIsValid(env: Env, events: seq<Event>)
    requires Legal(env, EMPTY, events) && NoneTorn(env, EMPTY, events)
    ensures Valid(env, After(env, EMPTY, events))
  {
    hide Valid;
    EmptyIsValid(env);
    RunValid(env, EMPTY, events);
  }
}
