/**
 A generation is documented never to decrease for a key. When that holds over every run,
 with compactions, crashes and restarts in it, from every log.
 */
module LocalKeyStoreGenerations {
  import opened Sequences
  import opened LittleEndian
  import opened WalFrames
  import opened LocalKeyStore
  import opened LocalKeyStoreTheorems

  // ----- generations across compaction and restart

  /** The clock is the generation of some version: no failed append has pushed it past them. */
  ghost predicate Stamped(s: Store)
  {
    Highest(s.history, s.clock)
  }

  ghost predicate Fails(s: Store, e: Event)
  {
    match e
    case PutEvent(key, oid, fence) => !Fits(Record(key, Tick(s.clock, fence), Some(oid)))
    case TombstoneEvent(key, fence) => !Fits(Record(key, Tick(s.clock, fence), None))
    case _ => false
  }

  /** A restart restores the histories always, and the clock exactly when it is stamped. */
  lemma RestartRestores(env: Env, s: Store)
    requires Valid(env, s)
    ensures Open(env, s.log).history == s.history
    ensures Open(env, s.log).clock == s.clock <==> Stamped(s)
  {
    hide Replay, TornTail, Rebuild;
    OpenValid(env, s);
    MaxGenerationIsHighest(Replay(env, s.log));
  }

  lemma PushHighest(h: History, rec: Record)
    requires forall key, i :: key in h && 0 <= i < |h[key]| ==> h[key][i].generation < rec.generation
    ensures Highest(Push(h, rec), rec.generation)
  {
    assert Push(h, rec)[rec.key][|Versions(h, rec.key)|].generation == rec.generation;
  }

  function Last(vs: seq<Version>): Version
    requires vs != []
  {
    vs[|vs| - 1]
  }

  /** In well-formed histories the last version of a key carries its highest generation. */
  lemma HighestByLast(h: History, g: nat, clock: nat)
    requires AllGood(h, clock) && g > 0
    ensures Highest(h, g) <==> && (forall key :: key in h ==> Last(h[key]).generation <= g)
                               && (exists key :: key in h && Last(h[key]).generation == g)
  {
    if Highest(h, g) {
      var key, i :| key in h && 0 <= i < |h[key]| && h[key][i].generation == g;
      assert Last(h[key]).generation == g;
    }
    if key :| key in h && Last(h[key]).generation == g {
      assert h[key][|h[key]| - 1].generation == g;
    }
  }

  lemma KeptLast(h: History, watermark: nat, clock: nat, key: Key)
    requires AllGood(h, clock) && key in h
    ensures key in Kept(h, watermark) <==> Last(h[key]).oid.Some? || watermark <= Last(h[key]).generation
    ensures key in Kept(h, watermark) ==> Kept(h, watermark)[key] != [] && Last(Kept(h, watermark)[key]) == Last(h[key])
  {
    PruneEmpty(h[key], watermark, clock);
  }

  /** The highest generation survives compaction unless every key holding it is a swept tombstone. */
  lemma CompactHighest(h: History, watermark: nat, clock: nat, g: nat)
    requires AllGood(h, clock) && g > 0 && Highest(h, g)
    ensures Highest(Kept(h, watermark), g) <==>
            exists key :: key in h && Last(h[key]).generation == g && (Last(h[key]).oid.Some? || watermark <= g)
  {
    var kept := Kept(h, watermark);
    KeptGood(h, watermark, clock);
    HighestByLast(h, g, clock);
    HighestByLast(kept, g, clock);
    assert kept.Keys <= h.Keys;
    hide Kept, Highest, GoodVersions;
    forall key | key in h
      ensures key in kept <==> Last(h[key]).oid.Some? || watermark <= Last(h[key]).generation
      ensures key in kept ==> kept[key] != [] && Last(kept[key]) == Last(h[key])
    {
      KeptLast(h, watermark, clock, key);
    }
    if key :| key in h && Last(h[key]).generation == g && (Last(h[key]).oid.Some? || watermark <= g) {
      assert key in kept && Last(kept[key]).generation == g;
    }
  }

  lemma CompactStamped(env: Env, s: Store)
    requires Sound(env, s) && Stamped(s)
    ensures Highest(Kept(s.history, Watermark(s)), s.clock)
  {
    hide Recorded;
    if s.clock > 0 {
      HighestByLast(s.history, s.clock, s.clock);
      CompactHighest(s.history, Watermark(s), s.clock, s.clock);
    }
  }

  lemma HighestIsUnique(h: History, a: nat, b: nat)
    requires Highest(h, a) && Highest(h, b)
    ensures a == b
  {
  }

  lemma StepStamped(env: Env, s: Store, e: Event)
    requires Sound(env, s) && Stamped(s) && Enabled(env, s, e) && !Fails(s, e) && (Restarts(e) ==> Durable(env, s))
    ensures Stamped(Next(env, s, e)) && s.clock <= Next(env, s, e).clock
  {
    hide Replay, TornTail, Frame, Payload, Push, Kept, Recorded, Rebuild;
    match e
    case PutEvent(key, oid, fence) => PushHighest(s.history, Stamp(s, key, Some(oid), fence));
    case TombstoneEvent(key, fence) => PushHighest(s.history, Stamp(s, key, None, fence));
    case CompactEvent(order) => CompactStamped(env, s);
    case ReopenEvent => RestartRestores(env, s);
    case CrashEvent(_, _, _, _) => CrashClock(env, s, e);
    case BeginReadEvent =>
    case EndReadEvent(_) =>
  }

  /** After a crash the clock is the highest generation there is, the one in flight included if its frame was whole. */
  lemma CrashClock(env: Env, s: Store, e: Event)
    requires Valid(env, s) && e.CrashEvent? && Enabled(env, s, e)
    ensures
      var rec, t := Stamp(s, e.key, e.holder, e.fence), Next(env, s, e);
      && Stamped(t)
      && (e.cut < |Frame(env, rec)| ==> t.clock <= s.clock && (t.clock == s.clock <==> Stamped(s)))
      && (e.cut == |Frame(env, rec)| ==> t.clock == rec.generation > s.clock)
  {
    hide Replay, TornTail, Frame, Payload, Push, Rebuild, Recorded, Next, Highest;
    CrashKeeps(env, s, e);
    var rec, t := Stamp(s, e.key, e.holder, e.fence), Next(env, s, e);
    if e.cut < |Frame(env, rec)| {
      HighestBounds(s.history, s.clock, t.clock);
      if Stamped(s) { HighestIsUnique(s.history, s.clock, t.clock); }
    } else {
      BelowClock(s.history, s.clock);
      PushHighest(s.history, rec);
      HighestIsUnique(t.history, t.clock, rec.generation);
    }
  }

  lemma BelowClock(h: History, clock: nat)
    requires AllGood(h, clock)
    ensures forall key, i :: key in h && 0 <= i < |h[key]| ==> h[key][i].generation <= clock
  {
  }

  /**
   The clock falls at a step exactly if the step restarts a store whose clock no version
   carries, without recovering a record in flight.
   */
  lemma ClockFallsIff(env: Env, s: Store, e: Event)
    requires Valid(env, s) && Enabled(env, s, e)
    ensures Next(env, s, e).clock < s.clock <==>
      && !Stamped(s) && Restarts(e)
      && (e.CrashEvent? ==> e.cut < |Frame(env, Stamp(s, e.key, e.holder, e.fence))|)
  {
    hide Replay, TornTail, Frame, Payload, Push, Kept, Rebuild, Highest, Recorded;
    if e.ReopenEvent? {
      OpenValid(env, s);
      RestartRestores(env, s);
    } else if e.CrashEvent? {
      CrashClock(env, s, e);
    }
  }

  /** No append in the run fails. */
  ghost predicate NoneFails(env: Env, s: Store, events: seq<Event>)
    requires Legal(env, s, events)
    decreases |events|
  {
    events == [] || (!Fails(s, events[0]) && NoneFails(env, Next(env, s, events[0]), events[1..]))
  }

  /**
   A condition that is easy to meet: over every healed run in which no append fails, through
   any number of compactions, crashes and restarts, the clock only rises and stays the
   generation of a version.
   */
  lemma {:induction false} ClockRises(env: Env, s: Store, events: seq<Event>)
    requires Sound(env, s) && Stamped(s) && Legal(env, s, events) && Healed(env, s, events) && NoneFails(env, s, events)
    ensures s.clock <= After(env, s, events).clock && Stamped(After(env, s, events))
    decreases |events|
  {
    hide Sound, Stamped, Durable, Enabled, Next, Fails;
    if events != [] {
      StepSound(env, s, events[0]);
      StepStamped(env, s, events[0]);
      ClockRises(env, Next(env, s, events[0]), events[1..]);
    }
  }

  // ----- what a compaction and a restart do to the highest generation the histories hold

  lemma CompactedIsValid(env: Env, s: Store, order: seq<Key>)
    requires Sound(env, s) && Enabled(env, s, CompactEvent(order))
    ensures
      var t := Next(env, s, CompactEvent(order));
      && Valid(env, t) && t.history == Kept(s.history, Watermark(s))
      && Open(env, t.log).history == t.history && Highest(t.history, Open(env, t.log).clock)
  {
    hide Replay, TornTail, Kept, Rebuild, Recorded, RecordsIn, Log, Highest;
    CompactValid(env, s, order);
    var t := Next(env, s, CompactEvent(order));
    OpenValid(env, t);
    OpenSound(env, t.log, t.clock);
  }

  /**
   After a compaction and a restart the clock resumes at the highest generation the histories
   held exactly when some key holding it is live, or it is not below the watermark.
   */
  lemma CompactThenRestart(env: Env, s: Store, order: seq<Key>, g: nat)
    requires Sound(env, s) && Enabled(env, s, CompactEvent(order)) && g > 0 && Highest(s.history, g)
    ensures Open(env, Next(env, s, CompactEvent(order)).log).clock == g <==> Anchored(s, g)
  {
    hide Replay, TornTail, Kept, Rebuild, Recorded, Next, Open, Enabled;
    CompactedIsValid(env, s, order);
    CompactHighest(s.history, Watermark(s), s.clock, g);
  }

  /** What a key needs to fit in a tombstone's frame, it needs to fit in a claim with an empty holder. */
  lemma SameSize(key: Key, g: nat, h: nat)
    ensures Fits(Record(key, g, None)) <==> Fits(Record(key, h, Some([])))
  {
    hide Encode;
  }

  /** A version has a record that fits its frame. */
  lemma VersionFits(env: Env, s: Store, key: Key, i: nat)
    requires Recorded(env, s.history) && key in s.history && i < |s.history[key]|
    ensures Fits(Record(key, s.history[key][i].generation, s.history[key][i].oid))
  {
    hide Rebuild, Payload;
    var recs :| AllWritable(env, recs) && Rebuild(recs) == s.history;
    VersionsWereRecorded(recs, key, i);
    var rec := Record(key, s.history[key][i].generation, s.history[key][i].oid);
    var j :| 0 <= j < |recs| && recs[j] == rec;
    assert Writable(env, recs[j]);
  }

  /** The restart after a compaction: the kept histories, and a clock no higher than they are. */
  lemma RestartedStore(env: Env, s: Store, order: seq<Key>, g: nat)
    requires Sound(env, s) && Enabled(env, s, CompactEvent(order)) && Highest(s.history, g)
    ensures
      var t := Open(env, Next(env, s, CompactEvent(order)).log);
      t.history == Kept(s.history, Watermark(s)) && t.clock <= g
  {
    hide Replay, TornTail, Rebuild, Kept, Open, Recorded;
    CompactedIsValid(env, s, order);
    KeptNotHigher(s.history, Watermark(s), g, Open(env, Next(env, s, CompactEvent(order)).log).clock);
  }

  lemma KeptNotHigher(h: History, watermark: nat, g: nat, top: nat)
    requires Highest(h, g) && Highest(Kept(h, watermark), top)
    ensures top <= g
  {
    if top != 0 {
      var key, i :| key in Kept(h, watermark) && 0 <= i < |Kept(h, watermark)[key]| && Kept(h, watermark)[key][i].generation == top;
      var skip := KeptIsSuffix(h, watermark, key, i);
    }
  }

  /** The highest generation's key is live, or the tombstone is not below the watermark. */
  ghost predicate Anchored(s: Store, g: nat)
  {
    exists key :: key in s.history && s.history[key] != [] && Last(s.history[key]).generation == g
                  && (Last(s.history[key]).oid.Some? || Watermark(s) <= g)
  }

  /** Otherwise the key that held generation `g` is handed one no higher after the restart. */
  lemma SweptKeyGoesBack(env: Env, s: Store, order: seq<Key>, g: nat) returns (key: Key)
    requires Sound(env, s) && Enabled(env, s, CompactEvent(order)) && g > 0 && Highest(s.history, g) && !Anchored(s, g)
    ensures key in s.history && s.history[key] != [] && Last(s.history[key]).generation == g
    ensures
      var t := Open(env, Next(env, s, CompactEvent(order)).log);
      Put(env, t, key, [], 0).1 == Committed(t.clock + 1) && t.clock + 1 <= g
  {
    hide Replay, TornTail, Rebuild, Kept, Frame, Payload, Open, Next, Fits, Recorded, Enabled;
    HighestByLast(s.history, g, s.clock);
    key :| key in s.history && Last(s.history[key]).generation == g;
    var t := Open(env, Next(env, s, CompactEvent(order)).log);
    RestartedStore(env, s, order, g);
    KeptLast(s.history, Watermark(s), s.clock, key);
    VersionFits(env, s, key, |s.history[key]| - 1);
    SameSize(key, g, t.clock + 1);
    CompactThenRestart(env, s, order, g);
  }

  /**
   After a compaction and a restart every claim is stamped above the highest generation the
   histories held, if and only if some key holding that generation is live or the generation
   is not below the watermark. An earlier compaction may have swept a higher one; the section
   on whole runs accounts for that.
   */
  lemma CompactedClaimsRiseIff(env: Env, s: Store, order: seq<Key>, g: nat)
    requires Sound(env, s) && Enabled(env, s, CompactEvent(order)) && g > 0 && Highest(s.history, g)
    ensures
      var t := Open(env, Next(env, s, CompactEvent(order)).log);
      (forall key, oid, fence: nat :: Put(env, t, key, oid, fence).1.Committed? ==> Put(env, t, key, oid, fence).1.generation > g)
      <==> Anchored(s, g)
  {
    hide Replay, TornTail, Rebuild, Kept, Frame, Payload, Open, Next, Fits, Recorded, Enabled;
    if Anchored(s, g) {
      CompactThenRestart(env, s, order, g);
    } else {
      var key := SweptKeyGoesBack(env, s, order, g);
    }
  }

  // ----- generations over whole runs

  /** Whatever the store may write next is stamped above every record of `past`. */
  ghost predicate NextRises(env: Env, s: Store, past: seq<Record>)
  {
    forall e, i :: Enabled(env, s, e) && WrittenBy(s, e) != [] && 0 <= i < |past|
                   ==> past[i].generation < WrittenBy(s, e)[0].generation
  }

  /** The same, asked only of the records of one key at a time. */
  ghost predicate NextRisesPerKey(env: Env, s: Store, past: seq<Record>)
  {
    forall e, i :: Enabled(env, s, e) && WrittenBy(s, e) != [] && 0 <= i < |past| && past[i].key == WrittenBy(s, e)[0].key
                   ==> past[i].generation < WrittenBy(s, e)[0].generation
  }

  /** At every point of the run; `past` grows by what the run writes and reports. */
  ghost predicate Rises(env: Env, s: Store, events: seq<Event>, past: seq<Record>)
    requires Legal(env, s, events)
    decreases |events|
  {
    NextRises(env, s, past) && (events != [] ==> Rises(env, Next(env, s, events[0]), events[1..], past + WrittenBy(s, events[0])))
  }

  ghost predicate RisesPerKey(env: Env, s: Store, events: seq<Event>, past: seq<Record>)
    requires Legal(env, s, events)
    decreases |events|
  {
    NextRisesPerKey(env, s, past) && (events != [] ==> RisesPerKey(env, Next(env, s, events[0]), events[1..], past + WrittenBy(s, events[0])))
  }

  /** Every restart of the run replays a generation no lower than the highest handed out so far. */
  ghost predicate RestartsReach(env: Env, s: Store, events: seq<Event>, past: seq<Record>)
    requires Legal(env, s, events)
    decreases |events|
  {
    events == [] ||
    (&& (Restarts(events[0]) ==> MaxGeneration(past) <= MaxGeneration(Replay(env, LogRead(env, s, events[0]))))
     && RestartsReach(env, Next(env, s, events[0]), events[1..], past + WrittenBy(s, events[0])))
  }

  lemma {:induction false} MaxGenerationBounds(recs: seq<Record>)
    ensures forall i :: 0 <= i < |recs| ==> recs[i].generation <= MaxGeneration(recs)
    ensures MaxGeneration(recs) > 0 ==> exists i :: 0 <= i < |recs| && recs[i].generation == MaxGeneration(recs)
  {
    if recs != [] {
      var n := |recs| - 1;
      MaxGenerationBounds(recs[..n]);
      forall i | 0 <= i < |recs| ensures recs[i].generation <= MaxGeneration(recs) {
        if i < n { assert recs[i] == recs[..n][i]; }
      }
      if MaxGeneration(recs) > recs[n].generation {
        var i :| 0 <= i < n && recs[..n][i].generation == MaxGeneration(recs[..n]);
        assert recs[i].generation == MaxGeneration(recs);
      }
    }
  }

  /** While the clock has reached what was handed out, whatever comes next is above it. */
  lemma ReachedRises(env: Env, s: Store, past: seq<Record>)
    requires MaxGeneration(past) <= s.clock
    ensures NextRises(env, s, past) && NextRisesPerKey(env, s, past)
  {
    hide MaxGeneration, Enabled, Fits, Versions;
    MaxGenerationBounds(past);
  }

  lemma WrittenIsWritable(env: Env, s: Store, e: Event)
    requires Enabled(env, s, e)
    ensures AllWritable(env, WrittenBy(s, e))
  {
    hide Payload, Versions, Frame;
  }

  /** A step that is no restart leaves the clock at or above all that was handed out. */
  lemma StepReaches(env: Env, s: Store, e: Event, past: seq<Record>)
    requires Enabled(env, s, e) && MaxGeneration(past) <= s.clock && !Restarts(e)
    ensures MaxGeneration(past + WrittenBy(s, e)) <= Next(env, s, e).clock
  {
    hide MaxGeneration, Payload, Versions, Frame, Kept;
    var written := WrittenBy(s, e);
    if written == [] {
      assert past + written == past;
    } else {
      RebuildPush(past, written[0]);
      assert past + written == past + [written[0]];
    }
  }

  /** A restart reports no record, and resumes the clock at what it replays. */
  lemma RestartClock(env: Env, s: Store, e: Event, past: seq<Record>)
    requires Enabled(env, s, e) && Restarts(e)
    ensures past + WrittenBy(s, e) == past
    ensures Next(env, s, e).clock == MaxGeneration(Replay(env, LogRead(env, s, e)))
  {
    hide MaxGeneration, Replay, Frame;
  }

  /** Below what was handed out, the key of the highest generation is next stamped at or below it. */
  lemma UnreachedFalls(env: Env, s: Store, past: seq<Record>)
    requires env.utf8([]) && AllWritable(env, past) && s.clock < MaxGeneration(past)
    ensures !NextRisesPerKey(env, s, past) && !NextRises(env, s, past)
  {
    MaxGenerationBounds(past);
    hide MaxGeneration, Payload, Versions, Fits;
    var i :| 0 <= i < |past| && past[i].generation == MaxGeneration(past);
    var rec := past[i];
    assert Writable(env, rec);
    var e := if Live(Versions(s.history, rec.key)).None? then PutEvent(rec.key, [], 0) else TombstoneEvent(rec.key, 0);
    SmallerFits(rec, s.clock + 1);
    assert Enabled(env, s, e) && WrittenBy(s, e) != [];
    assert WrittenBy(s, e)[0].generation <= past[i].generation && WrittenBy(s, e)[0].key == past[i].key;
  }

  /** What fits with a holder fits with an empty one, and without. */
  lemma SmallerFits(rec: Record, g: nat)
    requires Fits(rec)
    ensures Fits(Record(rec.key, g, Some([]))) && Fits(Record(rec.key, g, None))
  {
    hide Encode;
  }

  lemma {:induction false} RunRisesIff(env: Env, s: Store, events: seq<Event>, past: seq<Record>)
    requires env.utf8([]) && Legal(env, s, events) && AllWritable(env, past) && MaxGeneration(past) <= s.clock
    ensures Rises(env, s, events, past) <==> RestartsReach(env, s, events, past)
    ensures RisesPerKey(env, s, events, past) <==> RestartsReach(env, s, events, past)
    decreases |events|
  {
    hide NextRises, NextRisesPerKey, MaxGeneration, Enabled, Next, WrittenBy, LogRead, Replay, Writable, Restarts;
    ReachedRises(env, s, past);
    if events != [] {
      var e, next := events[0], Next(env, s, events[0]);
      var past' := past + WrittenBy(s, e);
      WrittenIsWritable(env, s, e);
      if Restarts(e) { RestartClock(env, s, e, past); } else { StepReaches(env, s, e, past); }
      if MaxGeneration(past') <= next.clock {
        RunRisesIff(env, next, events[1..], past');
      } else {
        UnreachedFalls(env, next, past');
      }
    }
  }

  /**
   When generations never decrease. Open any log and take any run of claims, deletions, reads,
   compactions, crashes and restarts. At every point of it whatever the store may write next
   is stamped above all the log held and the run has handed out, if and only if every restart
   replays a generation that reaches the highest handed out before it. Asking this of each
   key alone is no weaker: the key that got the highest generation is the one to fall back.
   */
  lemma GenerationsRiseIff(env: Env, log: seq<Byte>, events: seq<Event>)
    requires env.utf8([]) && Legal(env, Open(env, log), events)
    ensures
      var start, held := Open(env, log), Replay(env, log);
      && (Rises(env, start, events, held) <==> RestartsReach(env, start, events, held))
      && (RisesPerKey(env, start, events, held) <==> RestartsReach(env, start, events, held))
  {
    var start, held := Open(env, log), Replay(env, log);
    hide Replay, Rises, RisesPerKey, RestartsReach, Legal, Rebuild, MaxGeneration, Writable;
    ReplayedIsWritable(env, log);
    RunRisesIff(env, start, events, held);
  }

  /** No append fails and every restart finds a whole log: a condition on the run that is enough. */
  lemma {:induction false} GenerationsRise(env: Env, s: Store, events: seq<Event>, past: seq<Record>)
    requires Sound(env, s) && Stamped(s) && Legal(env, s, events) && Healed(env, s, events) && NoneFails(env, s, events)
    requires MaxGeneration(past) <= s.clock
    ensures Rises(env, s, events, past) && RisesPerKey(env, s, events, past)
    decreases |events|
  {
    hide Sound, Stamped, Durable, NextRises, NextRisesPerKey, MaxGeneration, Enabled, Next, WrittenBy, Restarts, Fails;
    ReachedRises(env, s, past);
    if events != [] {
      var e := events[0];
      StepSound(env, s, e);
      StepStamped(env, s, e);
      if Restarts(e) { RestartClock(env, s, e, past); } else { StepReaches(env, s, e, past); }
      GenerationsRise(env, Next(env, s, e), events[1..], past + WrittenBy(s, e));
    }
  }

  // ----- the same in terms of what the histories hold

  ghost predicate NoCrashes(events: seq<Event>)
  {
    forall i :: 0 <= i < |events| ==> !events[i].CrashEvent?
  }

  /** At every restart the histories still hold the highest generation handed out. */
  ghost predicate RestartsHold(env: Env, s: Store, events: seq<Event>, past: seq<Record>)
    requires Legal(env, s, events)
    decreases |events|
  {
    events == [] ||
    (&& (Restarts(events[0]) ==> Highest(s.history, MaxGeneration(past)))
     && RestartsHold(env, Next(env, s, events[0]), events[1..], past + WrittenBy(s, events[0])))
  }

  ghost predicate Within(h: History, top: nat)
  {
    forall key, i :: key in h && 0 <= i < |h[key]| ==> h[key][i].generation <= top
  }

  lemma ReopenHolds(env: Env, s: Store, top: nat)
    requires Valid(env, s) && Within(s.history, top)
    ensures top <= MaxGeneration(Replay(env, s.log)) <==> Highest(s.history, top)
  {
    hide Replay, TornTail, Rebuild, MaxGeneration, Recorded;
    MaxGenerationIsHighest(Replay(env, s.log));
  }

  lemma KeptWithin(h: History, watermark: nat, top: nat)
    requires Within(h, top)
    ensures Within(Kept(h, watermark), top)
  {
    forall key, i | key in Kept(h, watermark) && 0 <= i < |Kept(h, watermark)[key]|
      ensures Kept(h, watermark)[key][i].generation <= top {
      var skip := KeptIsSuffix(h, watermark, key, i);
    }
  }

  lemma PushWithin(h: History, rec: Record, top: nat)
    requires Within(h, top)
    ensures Within(Push(h, rec), if rec.generation > top then rec.generation else top)
  {
  }

  lemma StepWithin(env: Env, s: Store, e: Event, past: seq<Record>)
    requires Valid(env, s) && Enabled(env, s, e) && !e.CrashEvent? && Within(s.history, MaxGeneration(past))
    ensures Within(Next(env, s, e).history, MaxGeneration(past + WrittenBy(s, e)))
  {
    hide MaxGeneration, Payload, Frame, Kept, Within, Push, Replay, TornTail, Rebuild, Recorded;
    var written := WrittenBy(s, e);
    if written == [] {
      assert past + written == past;
      if e.CompactEvent? { KeptWithin(s.history, Watermark(s), MaxGeneration(past)); }
    } else {
      RebuildPush(past, written[0]);
      PushWithin(s.history, written[0], MaxGeneration(past));
      assert past + written == past + [written[0]];
    }
  }

  lemma {:induction false} ReachIsHold(env: Env, s: Store, events: seq<Event>, past: seq<Record>)
    requires Valid(env, s) && Legal(env, s, events) && NoCrashes(events) && Within(s.history, MaxGeneration(past))
    ensures RestartsReach(env, s, events, past) <==> RestartsHold(env, s, events, past)
    decreases |events|
  {
    hide Valid, Sound, Durable, MaxGeneration, Enabled, Next, WrittenBy, Within, Highest, Replay;
    if events != [] {
      var e := events[0];
      ValidIsBoth(env, s);
      StepSound(env, s, e);
      StepDurable(env, s, e);
      ValidIsBoth(env, Next(env, s, e));
      StepWithin(env, s, e, past);
      if Restarts(e) { ReopenHolds(env, s, MaxGeneration(past)); }
      ReachIsHold(env, Next(env, s, e), events[1..], past + WrittenBy(s, e));
    }
  }

  lemma ValidIsBoth(env: Env, s: Store)
    ensures Valid(env, s) <==> Sound(env, s) && Durable(env, s)
  {
  }

  /**
   Without crashes, from an empty log: generations rise at every point of a run, for all keys
   together as for each alone, if and only if at every restart the histories still hold the
   highest generation handed out.
   */
  lemma GenerationsRiseIffHeld(env: Env, events: seq<Event>)
    requires env.utf8([]) && Legal(env, EMPTY, events) && NoCrashes(events)
    ensures Rises(env, EMPTY, events, []) <==> RestartsHold(env, EMPTY, events, [])
    ensures RisesPerKey(env, EMPTY, events, []) <==> RestartsHold(env, EMPTY, events, [])
  {
    hide Rises, RisesPerKey, RestartsReach, RestartsHold, Legal, Valid;
    EmptyIsValid(env);
    RunRisesIff(env, EMPTY, events, []);
    ReachIsHold(env, EMPTY, events, []);
  }

  /**
   Which step loses it: a generation handed out stays the highest the histories hold, or a
   higher one takes its place, unless a compaction sweeps every key that holds it.
   */
  lemma HoldLostIff(env: Env, s: Store, e: Event, past: seq<Record>)
    requires Valid(env, s) && Enabled(env, s, e) && !e.CrashEvent? && Highest(s.history, MaxGeneration(past))
    ensures Highest(Next(env, s, e).history, MaxGeneration(past + WrittenBy(s, e)))
       <==> !(e.CompactEvent? && MaxGeneration(past) > 0 && !Anchored(s, MaxGeneration(past)))
  {
    hide MaxGeneration, Payload, Frame, Kept, Highest, Push, Replay, TornTail, Rebuild, Recorded, Anchored;
    var written, top := WrittenBy(s, e), MaxGeneration(past);
    HighestBounds(s.history, s.clock, top);
    if written != [] {
      RebuildPush(past, written[0]);
      BelowClock(s.history, s.clock);
      PushHighest(s.history, written[0]);
      assert past + written == past + [written[0]];
    } else {
      assert past + written == past;
      if e.CompactEvent? { CompactHolds(s, top); }
    }
  }

  lemma CompactHolds(s: Store, top: nat)
    requires AllGood(s.history, s.clock) && Highest(s.history, top)
    ensures Highest(Kept(s.history, Watermark(s)), top) <==> top == 0 || Anchored(s, top)
  {
    hide Kept;
    if top > 0 {
      CompactHighest(s.history, Watermark(s), s.clock, top);
    } else {
      KeptZero(s.history, Watermark(s));
    }
  }

  lemma KeptZero(h: History, watermark: nat)
    requires Highest(h, 0)
    ensures Highest(Kept(h, watermark), 0)
  {
    KeptWithin(h, watermark, 0);
  }

  /** The run behind the exception: a failed append, then a compaction, then a restart. */
  function ReuseRun(key: Key, big: Key, a: Oid): seq<Event>
  {
    [PutEvent(key, a, 0), TombstoneEvent(key, 0), PutEvent(big, a, 0), CompactEvent([]), ReopenEvent]
  }

  /**
   For any key, if one oversized append fails in between, the same key is handed
   generation 1 twice: the failed append leaves the clock above the tombstone, so the
   compaction sweeps it and the restart forgets that its generation was used.
   */
  lemma FailedAppendReusesGeneration(env: Env, key: Key, big: Key, a: Oid, b: Oid)
    requires env.utf8(a) && env.utf8(b)
    requires Fits(Record(key, 1, Some(a))) && Fits(Record(key, 2, None)) && Fits(Record(key, 1, Some(b)))
    requires !Fits(Record(big, 3, Some(a)))
    ensures Put(env, EMPTY, key, a, 0).1 == Committed(1)
    ensures Legal(env, EMPTY, ReuseRun(key, big, a))
    ensures Put(env, After(env, EMPTY, ReuseRun(key, big, a)), key, b, 0).1 == Committed(1)
  {
    hide Fits, Put, Tombstone, Open, Kept, Log;
    var s3 := FailedAppend(env, key, big, a, b);
    var s4 := SweptBySecondKey(env, s3, key, a);
    RunCons(env, s4, ReopenEvent, []);
    RunCons(env, s3, CompactEvent([]), [ReopenEvent]);
    var s1 := Next(env, EMPTY, PutEvent(key, a, 0));
    var s2 := Next(env, s1, TombstoneEvent(key, 0));
    RunCons(env, s2, PutEvent(big, a, 0), [CompactEvent([]), ReopenEvent]);
    RunCons(env, s1, TombstoneEvent(key, 0), [PutEvent(big, a, 0), CompactEvent([]), ReopenEvent]);
    RunCons(env, EMPTY, PutEvent(key, a, 0), [TombstoneEvent(key, 0), PutEvent(big, a, 0), CompactEvent([]), ReopenEvent]);
  }

  lemma RunCons(env: Env, s: Store, e: Event, rest: seq<Event>)
    requires Enabled(env, s, e) && Legal(env, Next(env, s, e), rest)
    ensures Legal(env, s, [e] + rest) && After(env, s, [e] + rest) == After(env, Next(env, s, e), rest)
  {
    assert ([e] + rest)[1..] == rest;
  }

  lemma FailedAppend(env: Env, key: Key, big: Key, a: Oid, b: Oid) returns (s3: Store)
    requires env.utf8(a) && env.utf8(b)
    requires Fits(Record(key, 1, Some(a))) && Fits(Record(key, 2, None)) && Fits(Record(key, 1, Some(b)))
    requires !Fits(Record(big, 3, Some(a)))
    ensures Put(env, EMPTY, key, a, 0).1 == Committed(1) && Put(env, EMPTY, key, b, 0).1 == Committed(1)
    ensures Enabled(env, EMPTY, PutEvent(key, a, 0))
    ensures
      var s1 := Next(env, EMPTY, PutEvent(key, a, 0));
      && Enabled(env, s1, TombstoneEvent(key, 0))
      && var s2 := Next(env, s1, TombstoneEvent(key, 0));
      && Enabled(env, s2, PutEvent(big, a, 0))
      && s3 == Next(env, s2, PutEvent(big, a, 0))
    ensures s3.history == map[key := [Version(1, Some(a)), Version(2, None)]]
    ensures s3.clock == 3 && s3.readers == map[]
  {
    hide Frame, Payload;
    assert big != key by { PayloadLength(key, big, a); }
    var s1 := Next(env, EMPTY, PutEvent(key, a, 0));
    assert [] + [Version(1, Some(a))] == [Version(1, Some(a))];
    assert s1.history == map[key := [Version(1, Some(a))]];
    var s2 := Next(env, s1, TombstoneEvent(key, 0));
    assert [Version(1, Some(a))] + [Version(2, None)] == [Version(1, Some(a)), Version(2, None)];
    assert s2.history == map[key := [Version(1, Some(a)), Version(2, None)]];
    s3 := Next(env, s2, PutEvent(big, a, 0));
  }

  lemma PayloadLength(key: Key, big: Key, a: Oid)
    requires Fits(Record(key, 1, Some(a))) && !Fits(Record(big, 3, Some(a)))
    ensures key != big
  {
  }

  lemma SweptBySecondKey(env: Env, s: Store, key: Key, a: Oid) returns (s': Store)
    requires s.history == map[key := [Version(1, Some(a)), Version(2, None)]]
    requires s.clock == 3 && s.readers == map[]
    ensures Enabled(env, s, CompactEvent([])) && s' == Next(env, s, CompactEvent([]))
    ensures Open(env, s'.log) == EMPTY
  {
    var vs := s.history[key];
    assert vs[1..][1..] == [] && Below(vs, 3) == 2;
    assert vs[1..] == [Version(2, None)];
    assert Prune(vs, 3) == [];
    assert Kept(s.history, 3) == map[];
    s' := Next(env, s, CompactEvent([]));
  }
}
