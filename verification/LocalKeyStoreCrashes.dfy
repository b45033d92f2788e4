/**
 Opening a log does not cut off its torn tail, and the store appends behind it. What then
 happens to the appended claims and deletions at the next restart, for every tail and every
 run of appends, and when a key keeps its holder over every run with crashes in it.
 */
module LocalKeyStoreCrashes {
  import opened Sequences
  import opened LittleEndian
  import opened WalFrames
  import opened LocalKeyStore
  import opened LocalKeyStoreTheorems

  // ----- runs that only append

  ghost predicate OnlyAppends(events: seq<Event>)
  {
    forall i :: 0 <= i < |events| ==> !events[i].CompactEvent? && !Restarts(events[i])
  }

  ghost function Written(env: Env, s: Store, events: seq<Event>): seq<Record>
    requires Legal(env, s, events)
    decreases |events|
  {
    if events == [] then [] else WrittenBy(s, events[0]) + Written(env, Next(env, s, events[0]), events[1..])
  }

  lemma LogOne(env: Env, rec: Record)
    ensures Log(env, [rec]) == Frame(env, rec) && Log(env, []) == []
  {
    hide Frame;
    assert [rec][1..] == [];
  }

  lemma StepAppends(env: Env, s: Store, e: Event, recs: seq<Record>)
    requires Enabled(env, s, e) && !e.CompactEvent? && !Restarts(e) && s.history == Rebuild(recs)
    ensures Next(env, s, e).log == s.log + Log(env, WrittenBy(s, e))
    ensures Next(env, s, e).history == Rebuild(recs + WrittenBy(s, e))
    ensures AllWritable(env, WrittenBy(s, e))
  {
    hide Frame, Payload, Rebuild, Versions, Log;
    var written := WrittenBy(s, e);
    if written == [] {
      LogOne(env, Record([], 0, None));
      assert recs + [] == recs && s.log + [] == s.log;
    } else {
      LogOne(env, written[0]);
      RebuildPush(recs, written[0]);
    }
  }

  /** A run of appends adds the frames of what it wrote to the log, and their versions to the histories. */
  lemma {:induction false} RunAppends(env: Env, s: Store, events: seq<Event>, recs: seq<Record>)
    requires Legal(env, s, events) && OnlyAppends(events) && s.history == Rebuild(recs)
    ensures After(env, s, events).log == s.log + Log(env, Written(env, s, events))
    ensures After(env, s, events).history == Rebuild(recs + Written(env, s, events))
    ensures AllWritable(env, Written(env, s, events))
    decreases |events|
  {
    hide Log, Rebuild, Writable, WrittenBy, Next, Enabled;
    if events == [] {
      LogOne(env, Record([], 0, None));
      assert recs + [] == recs && s.log + [] == s.log;
    } else {
      var first, next := WrittenBy(s, events[0]), Next(env, s, events[0]);
      StepAppends(env, s, events[0], recs);
      RunAppends(env, next, events[1..], recs + first);
      var rest := Written(env, next, events[1..]);
      LogConcat(env, first, rest);
      assert recs + first + rest == recs + (first + rest);
      assert s.log + Log(env, first) + Log(env, rest) == s.log + (Log(env, first) + Log(env, rest));
    }
  }

  // ----- histories tell their records apart

  lemma {:induction false} VersionsGrow(a: seq<Record>, x: seq<Record>, key: Key)
    ensures |Versions(Rebuild(a + x), key)| >= |Versions(Rebuild(a), key)|
    ensures x != [] && x[|x| - 1].key == key ==> |Versions(Rebuild(a + x), key)| > |Versions(Rebuild(a), key)|
  {
    hide Rebuild;
    if x == [] {
      assert a + x == a;
    } else {
      var n := |x| - 1;
      VersionsGrow(a, x[..n], key);
      assert a + x == a + x[..n] + [x[n]];
      RebuildPush(a + x[..n], x[n]);
    }
  }

  lemma RebuildGrows(a: seq<Record>, x: seq<Record>)
    ensures Rebuild(a + x) == Rebuild(a) <==> x == []
  {
    if x == [] {
      assert a + x == a;
    } else {
      VersionsGrow(a, x, x[|x| - 1].key);
    }
  }

  // ----- the restart

  /** What the next replay makes of the tail and everything appended behind it. */
  ghost function Recovered(env: Env, log: seq<Byte>, recs: seq<Record>): seq<Record>
  {
    Replay(env, TornTail(env, log) + Log(env, recs))
  }

  /**
   A store start on any log, then any run of claims, deletions and reads, then a restart.
   The restart keeps what the log held and adds what replay makes of the tail and the
   appended frames. It shows the histories of before the run exactly when no frame is
   accepted at the tail; it shows those after the run if there is no tail, and does not if
   something was appended and no frame is accepted.
   */
  lemma RestartAfterAppends(env: Env, log: seq<Byte>, events: seq<Event>)
    requires Legal(env, Open(env, log), events) && OnlyAppends(events)
    ensures
      var start, recs, tail := Open(env, log), Written(env, Open(env, log), events), TornTail(env, log);
      var before, after := start.history, After(env, start, events).history;
      var restarted := Open(env, After(env, start, events).log).history;
      && restarted == Rebuild(Replay(env, log) + Recovered(env, log, recs))
      && (restarted == before <==> FirstFrame(env, tail + Log(env, recs)).None?)
      && (tail == [] ==> restarted == after)
      && (recs != [] && FirstFrame(env, tail + Log(env, recs)).None? ==> restarted != after)
  {
    var start, held := Open(env, log), Replay(env, log);
    hide Replay, TornTail, Rebuild, FirstFrame, Written, After, Legal, Log, Writable;
    var recs := Written(env, start, events);
    RunAppends(env, start, events, held);
    ReplayAppend(env, log, Log(env, recs));
    AppendsLostIff(env, log, Log(env, recs));
    RebuildGrows(held, Recovered(env, log, recs));
    RebuildGrows(held, recs);
    NothingRecovered(env, log, recs);
    if TornTail(env, log) == [] { CleanAppendsSurvive(env, log, recs); }
  }

  lemma NothingRecovered(env: Env, log: seq<Byte>, recs: seq<Record>)
    ensures Recovered(env, log, recs) == [] <==> FirstFrame(env, TornTail(env, log) + Log(env, recs)).None?
  {
    hide FirstFrame, TornTail, Log;
    ReplayStep(env, TornTail(env, log) + Log(env, recs));
  }

  /** A compaction before the restart saves the appended records: it rewrites the log without the tail. */
  lemma CompactionHeals(env: Env, log: seq<Byte>, events: seq<Event>, order: seq<Key>)
    requires Legal(env, Open(env, log), events) && OnlyAppends(events)
    requires Enabled(env, After(env, Open(env, log), events), CompactEvent(order))
    ensures
      var s := After(env, Open(env, log), events);
      var compacted := Next(env, s, CompactEvent(order));
      && TornTail(env, compacted.log) == [] && compacted.history == Kept(s.history, Watermark(s))
      && Open(env, compacted.log).history == compacted.history
  {
    var start, held := Open(env, log), Replay(env, log);
    var recs := Written(env, start, events);
    var s := After(env, start, events);
    hide Replay, TornTail, Rebuild, Written, After, Legal, Log, Writable, Kept;
    RunAppends(env, start, events, held);
    ReplayedIsWritable(env, log);
    assert AllWritable(env, held + recs);
    CompactedLogReplays(env, held + recs, Watermark(s), order);
  }

  // ----- one claim

  /** A claim on a store start over a rejected tail reports success and is gone after the restart. */
  lemma CommitBehindTornTailIsLost(env: Env, log: seq<Byte>, key: Key, oid: Oid, fence: nat)
    requires Live(Versions(Open(env, log).history, key)).None?
    requires
      var rec := Record(key, Tick(Open(env, log).clock, fence), Some(oid));
      Fits(rec) && FirstFrame(env, TornTail(env, log) + Log(env, [rec])).None?
    ensures
      var (claimed, out) := Put(env, Open(env, log), key, oid, fence);
      && out.Committed? && Live(Versions(claimed.history, key)) == Some(oid)
      && Open(env, claimed.log).history == Open(env, log).history
  {
    hide Replay, TornTail, FirstFrame, Frame, Payload, Fits, Rebuild, Log;
    var rec := Record(key, Tick(Open(env, log).clock, fence), Some(oid));
    LogOne(env, rec);
    AppendsLostIff(env, log, Log(env, [rec]));
  }

  /** The last of `recs` that is about `key`. */
  function LastOn(recs: seq<Record>, key: Key): Option<Record>
  {
    if recs == [] then None
    else if recs[|recs| - 1].key == key then Some(recs[|recs| - 1])
    else LastOn(recs[..|recs| - 1], key)
  }

  /** The last record about a key decides who holds it. */
  lemma {:induction false} LiveIsLast(a: seq<Record>, x: seq<Record>, key: Key)
    ensures Live(Versions(Rebuild(a + x), key)) ==
      if LastOn(x, key).Some? then LastOn(x, key).value.oid else Live(Versions(Rebuild(a), key))
  {
    hide Rebuild;
    if x == [] {
      assert a + x == a;
    } else {
      var n := |x| - 1;
      LiveIsLast(a, x[..n], key);
      assert a + x == a + x[..n] + [x[n]];
      RebuildPush(a + x[..n], x[n]);
    }
  }

  /**
   A claim made after opening any log survives the restart exactly when the last record about
   its key that is recovered, from the tail and the claim's own frame, names its holder. With
   no tail that is so, with a tail at which no frame is accepted it is not.
   */
  lemma CommitSurvivesIff(env: Env, log: seq<Byte>, key: Key, oid: Oid, fence: nat)
    requires Live(Versions(Open(env, log).history, key)).None? && env.utf8(oid)
    requires Tick(Open(env, log).clock, fence) < U64_LIMIT && Fits(Record(key, Tick(Open(env, log).clock, fence), Some(oid)))
    ensures
      var rec := Record(key, Tick(Open(env, log).clock, fence), Some(oid));
      var (claimed, out) := Put(env, Open(env, log), key, oid, fence);
      var survives := Live(Versions(Open(env, claimed.log).history, key)) == Some(oid);
      var last := LastOn(Recovered(env, log, [rec]), key);
      && out.Committed?
      && (survives <==> last.Some? && last.value.oid == Some(oid))
      && (TornTail(env, log) == [] ==> survives)
      && (FirstFrame(env, TornTail(env, log) + Log(env, [rec])).None? ==> !survives)
  {
    var rec := Record(key, Tick(Open(env, log).clock, fence), Some(oid));
    hide Replay, TornTail, FirstFrame, Frame, Payload, Fits, Rebuild, Log;
    LogOne(env, rec);
    ReplayAppend(env, log, Log(env, [rec]));
    LiveIsLast(Replay(env, log), Recovered(env, log, [rec]), key);
    NothingRecovered(env, log, [rec]);
    if TornTail(env, log) == [] {
      CleanAppendsSurvive(env, log, [rec]);
      RebuildPush(Replay(env, log), rec);
    }
  }

  // ----- two holders of one key

  /**
   Behind a tail at which no frame is accepted uniqueness is lost: a claim commits, the store
   restarts, and a second claim of the key commits with the very same generation.
   */
  lemma ClaimedAgain(env: Env, log: seq<Byte>, key: Key, a: Oid, b: Oid, fence: nat)
    requires Live(Versions(Open(env, log).history, key)).None?
    requires
      var g := Tick(Open(env, log).clock, fence);
      && Fits(Record(key, g, Some(a))) && Fits(Record(key, g, Some(b)))
      && FirstFrame(env, TornTail(env, log) + Log(env, [Record(key, g, Some(a))])).None?
    ensures
      var g := Tick(Open(env, log).clock, fence);
      var (claimed, out) := Put(env, Open(env, log), key, a, fence);
      out == Committed(g) && Put(env, Open(env, claimed.log), key, b, fence).1 == Committed(g)
  {
    hide Replay, TornTail, FirstFrame, Frame, Payload, Fits, Rebuild, Log, MaxGeneration;
    var rec := Record(key, Tick(Open(env, log).clock, fence), Some(a));
    LogOne(env, rec);
    AppendsLostIff(env, log, Log(env, [rec]));
  }

  /**
   Over any run of appends: if no frame is accepted at the tail, every key the run took can be
   claimed again after the restart, with the generation it would have had before the run; if
   there is no tail, every key keeps its holder.
   */
  lemma RunClaimsAgain(env: Env, log: seq<Byte>, events: seq<Event>, key: Key, oid: Oid, fence: nat)
    requires Legal(env, Open(env, log), events) && OnlyAppends(events)
    requires Live(Versions(Open(env, log).history, key)).None?
    requires Fits(Record(key, Tick(Open(env, log).clock, fence), Some(oid)))
    ensures
      var start := Open(env, log);
      var after := After(env, start, events);
      var restarted := Open(env, after.log);
      && (FirstFrame(env, TornTail(env, log) + Log(env, Written(env, start, events))).None? ==>
            Put(env, restarted, key, oid, fence).1 == Committed(Tick(start.clock, fence)))
      && (TornTail(env, log) == [] ==> Live(Versions(restarted.history, key)) == Live(Versions(after.history, key)))
  {
    hide Replay, TornTail, FirstFrame, Frame, Payload, Fits, Rebuild, Log, MaxGeneration, Legal, After, Written, Writable;
    RestartAfterAppends(env, log, events);
    RunAppends(env, Open(env, log), events, Replay(env, log));
    AppendsLostIff(env, log, Log(env, Written(env, Open(env, log), events)));
  }

  /** Who holds what by the answers given: a claim that committed, until its deletion, or a crash inside one. */
  function OwnersAfter(s: Store, e: Event, owners: map<Key, Oid>): map<Key, Oid>
  {
    var written := WrittenBy(s, e);
    if written != [] then
      if written[0].oid.Some? then owners[written[0].key := written[0].oid.value] else owners - {written[0].key}
    else if e.CrashEvent? && e.holder.None? then owners - {e.key}
    else owners
  }

  /** Every claim of an owned key is refused in favour of its owner. */
  ghost predicate Respected(env: Env, s: Store, owners: map<Key, Oid>)
  {
    forall key, oid, fence: nat :: key in owners ==>
      Put(env, s, key, oid, fence).1.Conflict? && Put(env, s, key, oid, fence).1.holder == owners[key]
  }

  ghost predicate AlwaysRespected(env: Env, s: Store, events: seq<Event>, owners: map<Key, Oid>)
    requires Legal(env, s, events)
    decreases |events|
  {
    Respected(env, s, owners)
    && (events != [] ==> AlwaysRespected(env, Next(env, s, events[0]), events[1..], OwnersAfter(s, events[0], owners)))
  }

  /** The last record about each owned key that is replayed names its owner. */
  ghost predicate Names(recs: seq<Record>, owners: map<Key, Oid>)
  {
    forall key :: key in owners ==> LastOn(recs, key).Some? && LastOn(recs, key).value.oid == Some(owners[key])
  }

  ghost predicate RestartsName(env: Env, s: Store, events: seq<Event>, owners: map<Key, Oid>)
    requires Legal(env, s, events)
    decreases |events|
  {
    events == [] ||
    (&& (Restarts(events[0]) ==> Names(Replay(env, LogRead(env, s, events[0])), OwnersAfter(s, events[0], owners)))
     && RestartsName(env, Next(env, s, events[0]), events[1..], OwnersAfter(s, events[0], owners)))
  }

  ghost predicate Agree(h: History, owners: map<Key, Oid>)
  {
    forall key :: key in owners ==> Live(Versions(h, key)) == Some(owners[key])
  }

  lemma RespectedIff(env: Env, s: Store, owners: map<Key, Oid>)
    ensures Respected(env, s, owners) <==> Agree(s.history, owners)
  {
    hide Versions, Fits;
    if Respected(env, s, owners) {
      forall key | key in owners ensures Live(Versions(s.history, key)) == Some(owners[key]) {
        assert Put(env, s, key, [], 0).1.Conflict?;
      }
    }
  }

  lemma NamesIff(recs: seq<Record>, owners: map<Key, Oid>)
    ensures Names(recs, owners) <==> Agree(Rebuild(recs), owners)
  {
    hide Rebuild, Versions, LastOn;
    forall key ensures Live(Versions(Rebuild(recs), key)) == if LastOn(recs, key).Some? then LastOn(recs, key).value.oid else None {
      assert [] + recs == recs;
      LiveIsLast([], recs, key);
      NothingHeld(key);
    }
  }

  lemma NothingHeld(key: Key)
    ensures Live(Versions(Rebuild([]), key)) == None
  {
  }

  lemma PushLive(h: History, rec: Record, key: Key)
    ensures Live(Versions(Push(h, rec), key)) == if key == rec.key then rec.oid else Live(Versions(h, key))
  {
  }

  lemma StepAgrees(env: Env, s: Store, e: Event, owners: map<Key, Oid>)
    requires Enabled(env, s, e) && !Restarts(e) && Agree(s.history, owners)
    ensures Agree(Next(env, s, e).history, OwnersAfter(s, e, owners))
  {
    hide Versions, Fits, Frame, Kept, Push;
    forall key | key in OwnersAfter(s, e, owners)
      ensures Live(Versions(Next(env, s, e).history, key)) == Some(OwnersAfter(s, e, owners)[key]) {
      if WrittenBy(s, e) != [] { PushLive(s.history, WrittenBy(s, e)[0], key); }
      if e.CompactEvent? { KeptLive(s.history, Watermark(s), key); }
    }
  }

  lemma RestartShows(env: Env, s: Store, e: Event)
    requires Enabled(env, s, e) && Restarts(e)
    ensures Next(env, s, e).history == Rebuild(Replay(env, LogRead(env, s, e)))
  {
    hide Rebuild, Replay, Frame;
  }

  lemma {:induction false} RunRespectsIff(env: Env, s: Store, events: seq<Event>, owners: map<Key, Oid>)
    requires Legal(env, s, events) && Agree(s.history, owners)
    ensures AlwaysRespected(env, s, events, owners) <==> RestartsName(env, s, events, owners)
    decreases |events|
  {
    hide Respected, Agree, Names, Enabled, Next, OwnersAfter, LogRead, Replay, Restarts, Rebuild;
    RespectedIff(env, s, owners);
    if events != [] {
      var e, next, owners' := events[0], Next(env, s, events[0]), OwnersAfter(s, events[0], owners);
      if Restarts(e) {
        RestartShows(env, s, e);
        NamesIff(Replay(env, LogRead(env, s, e)), owners');
      } else {
        StepAgrees(env, s, e, owners);
      }
      RespectedIff(env, next, owners');
      if Agree(next.history, owners') { RunRespectsIff(env, next, events[1..], owners'); }
    }
  }

  /** The holders a store starts with. */
  function Holders(h: History): map<Key, Oid>
  {
    map key | key in h && Live(h[key]).Some? :: Live(h[key]).value
  }

  /**
   When uniqueness holds. Open any log and take any run of claims, deletions, reads,
   compactions, crashes and restarts. At every point of it every claim of a held key is
   refused in favour of the owner that committed it, if and only if at every restart the last
   record about each owned key that replay accepts names its owner.
   */
  lemma UniquenessIff(env: Env, log: seq<Byte>, events: seq<Event>)
    requires Legal(env, Open(env, log), events)
    ensures
      var start := Open(env, log);
      AlwaysRespected(env, start, events, Holders(start.history)) <==> RestartsName(env, start, events, Holders(start.history))
  {
    hide Open, AlwaysRespected, RestartsName, Legal;
    RunRespectsIff(env, Open(env, log), events, Holders(Open(env, log).history));
  }

  /** A crash inside the first append, a claim of `key`, a restart, and another claim of it. */
  function TwiceRun(lost: Key, o: Oid, cut: nat, key: Key, a: Oid, b: Oid): seq<Event>
  {
    [CrashEvent(lost, Some(o), 0, cut), PutEvent(key, a, 0), ReopenEvent, PutEvent(key, b, 0)]
  }

  /**
   The same as a run from an empty log, for every crash behind the length of a frame that is
   longer than what is written behind it: both claims of the key commit, and nothing deletes it.
   */
  lemma TwoHolders(env: Env, lost: Key, o: Oid, cut: nat, key: Key, a: Oid, b: Oid)
    requires env.utf8(a) && env.utf8(b) && Writable(env, Record(lost, 1, Some(o)))
    requires Fits(Record(key, 1, Some(a))) && Fits(Record(key, 1, Some(b)))
    requires 4 <= cut && cut + |Frame(env, Record(key, 1, Some(a)))| < |Frame(env, Record(lost, 1, Some(o)))|
    ensures
      var run := TwiceRun(lost, o, cut, key, a, b);
      && Legal(env, EMPTY, run) && Claims(env, EMPTY, run, 1, key) && Claims(env, EMPTY, run, 3, key)
      && !Deletes(env, EMPTY, run, 2, key)
  {
    hide Replay, TornTail, FirstFrame, Frame, Payload, Fits, Rebuild, Log, MaxGeneration;
    var run := TwiceRun(lost, o, cut, key, a, b);
    var torn := Crashed(env, lost, o, cut);
    var first := Next(env, torn, run[1]);
    var rec := Record(key, 1, Some(a));
    CutFrameRejects(env, Record(lost, 1, Some(o)), cut, Frame(env, rec));
    AppendsLostIff(env, torn.log, Frame(env, rec));
    var second := Next(env, first, run[2]);
    assert second.history == map[] && second.clock == 0;
    assert run[1..] == [run[1], run[2], run[3]] && run[1..][1..] == [run[2], run[3]];
    assert run[1..][1..][1..] == [run[3]] && run[1..][1..][1..][1..] == [];
    assert Legal(env, second, [run[3]]);
    assert Legal(env, first, [run[2], run[3]]);
    assert Legal(env, torn, [run[1], run[2], run[3]]);
    assert StateAt(env, EMPTY, run, 1) == StateAt(env, torn, run[1..], 0) == torn;
    assert StateAt(env, EMPTY, run, 3) == StateAt(env, torn, run[1..], 2) == StateAt(env, first, [run[2], run[3]], 1);
    assert StateAt(env, first, [run[2], run[3]], 1) == StateAt(env, second, [run[3]], 0) == second;
  }

  lemma Crashed(env: Env, lost: Key, o: Oid, cut: nat) returns (torn: Store)
    requires Writable(env, Record(lost, 1, Some(o))) && cut < |Frame(env, Record(lost, 1, Some(o)))|
    ensures Enabled(env, EMPTY, CrashEvent(lost, Some(o), 0, cut)) && torn == Next(env, EMPTY, CrashEvent(lost, Some(o), 0, cut))
    ensures torn.history == map[] && torn.clock == 0 && torn.log == TornTail(env, torn.log) == Frame(env, Record(lost, 1, Some(o)))[..cut]
    ensures torn == Open(env, torn.log)
  {
    hide Replay, TornTail, Frame, Payload, Fits;
    var rec := Record(lost, 1, Some(o));
    EmptyIsValid(env);
    CrashedLog(env, [], rec, cut);
    LogUnfold(env, [], 0);
    assert [] + Frame(env, rec)[..cut] == Frame(env, rec)[..cut];
    torn := Next(env, EMPTY, CrashEvent(lost, Some(o), 0, cut));
  }

  // ----- runs with crashes in which nothing is accepted at a torn tail

  /** The bytes an event adds to the log; a compaction rewrites it instead. */
  ghost function Appended(env: Env, s: Store, e: Event): seq<Byte>
    requires Enabled(env, s, e)
  {
    if e.CrashEvent? then Frame(env, Stamp(s, e.key, e.holder, e.fence))[..e.cut] else Log(env, WrittenBy(s, e))
  }

  ghost predicate Rejected(env: Env, s: Store, e: Event)
    requires Enabled(env, s, e)
  {
    TornTail(env, s.log) != [] ==> FirstFrame(env, TornTail(env, s.log) + Appended(env, s, e)).None?
  }

  /** No append of the run makes replay accept a frame that starts at a torn tail. */
  ghost predicate Undisturbed(env: Env, s: Store, events: seq<Event>)
    requires Legal(env, s, events)
    decreases |events|
  {
    events == [] ||
    ((!events[0].CompactEvent? ==> Rejected(env, s, events[0])) && Undisturbed(env, Next(env, s, events[0]), events[1..]))
  }

  /** Memory and log are both well formed, and agree if there is no torn tail. */
  ghost predicate Settled(env: Env, s: Store)
  {
    && Sound(env, s) && AllGood(Rebuild(Replay(env, s.log)), s.clock)
    && (TornTail(env, s.log) == [] ==> Durable(env, s))
  }

  lemma OpenSettled(env: Env, log: seq<Byte>, clock: nat)
    requires AllGood(Rebuild(Replay(env, log)), clock) && clock < U64_LIMIT
    ensures Settled(env, Open(env, log))
  {
    hide Replay, TornTail, Rebuild, MaxGeneration, Recorded;
    OpenSound(env, log, clock);
  }

  lemma LaterGood(h: History, clock: nat, later: nat)
    requires AllGood(h, clock) && clock <= later
    ensures AllGood(h, later)
  {
  }

  /** Behind a tail a rejected append leaves the replayed records alone, and the tail in place. */
  lemma RejectedLog(env: Env, s: Store, e: Event)
    requires Enabled(env, s, e) && Rejected(env, s, e) && TornTail(env, s.log) != []
    ensures Replay(env, s.log + Appended(env, s, e)) == Replay(env, s.log) && TornTail(env, s.log + Appended(env, s, e)) != []
  {
    hide Replay, TornTail, FirstFrame, Appended, Enabled;
    AppendsLostIff(env, s.log, Appended(env, s, e));
  }

  lemma AppendSettled(env: Env, s: Store, e: Event)
    requires Settled(env, s) && Enabled(env, s, e) && Rejected(env, s, e) && !e.CompactEvent? && !Restarts(e)
    ensures Settled(env, Next(env, s, e))
  {
    hide Replay, TornTail, FirstFrame, Frame, Payload, Push, Rebuild, Recorded, Log, AllGood, Durable;
    var t := Next(env, s, e);
    StepSound(env, s, e);
    AppendedLog(env, s, e);
    if TornTail(env, s.log) == [] {
      StepDurable(env, s, e);
      DurableIs(env, t);
    } else {
      RejectedLog(env, s, e);
      LaterGood(Rebuild(Replay(env, s.log)), s.clock, t.clock);
    }
  }

  lemma DurableIs(env: Env, s: Store)
    requires Durable(env, s)
    ensures Rebuild(Replay(env, s.log)) == s.history
  {
  }

  lemma AppendedLog(env: Env, s: Store, e: Event)
    requires Enabled(env, s, e) && !e.CompactEvent? && !Restarts(e)
    ensures Next(env, s, e).log == s.log + Appended(env, s, e) && s.clock <= Next(env, s, e).clock
  {
    hide Frame, Payload, Versions, Log, Push;
    var written := WrittenBy(s, e);
    if written == [] {
      LogOne(env, Record([], 0, None));
      assert s.log + [] == s.log;
    } else {
      LogOne(env, written[0]);
    }
  }

  lemma RestartSettled(env: Env, s: Store, e: Event)
    requires Settled(env, s) && Enabled(env, s, e) && Rejected(env, s, e) && Restarts(e)
    ensures Settled(env, Next(env, s, e))
  {
    hide Replay, TornTail, FirstFrame, Frame, Payload, Push, Rebuild, Recorded, AllGood, Durable;
    if e.ReopenEvent? {
      OpenSettled(env, s.log, s.clock);
    } else if TornTail(env, s.log) == [] {
      CrashKeeps(env, s, e);
      var t := Next(env, s, e);
      OpenSettled(env, t.log, t.clock);
    } else {
      RejectedLog(env, s, e);
      OpenSettled(env, s.log + Appended(env, s, e), s.clock);
    }
  }

  lemma StepSettled(env: Env, s: Store, e: Event)
    requires Settled(env, s) && Enabled(env, s, e) && (!e.CompactEvent? ==> Rejected(env, s, e))
    ensures Settled(env, Next(env, s, e))
  {
    if e.CompactEvent? {
      hide Replay, TornTail, Rebuild, Recorded, Log, Kept;
      CompactValid(env, s, e.order);
    } else {
      hide Settled, Next, Rejected;
      if Restarts(e) { RestartSettled(env, s, e); } else { AppendSettled(env, s, e); }
    }
  }

  /**
   Every state of every undisturbed run, crashes and restarts on torn logs included, has well
   formed histories in memory and on the log; the two agree wherever there is no torn tail.
   */
  lemma {:induction false} RunSettled(env: Env, s: Store, events: seq<Event>)
    requires Settled(env, s) && Legal(env, s, events) && Undisturbed(env, s, events)
    ensures Settled(env, After(env, s, events))
    decreases |events|
  {
    hide Settled, Enabled, Next, Rejected;
    if events != [] {
      StepSettled(env, s, events[0]);
      RunSettled(env, Next(env, s, events[0]), events[1..]);
    }
  }

  /** In such a run every restart finds memory and log in agreement exactly when each finds no torn tail. */
  lemma {:induction false} HealedIffNoTail(env: Env, s: Store, events: seq<Event>)
    requires Settled(env, s) && Legal(env, s, events) && Undisturbed(env, s, events)
    ensures Healed(env, s, events) <==>
      forall i :: 0 <= i < |events| && Restarts(events[i]) ==> TornTail(env, StateAt(env, s, events, i).log) == []
    decreases |events|
  {
    hide Settled, Enabled, Next, Rejected, Restarts, TornTail, Durable;
    if events != [] {
      var next := Next(env, s, events[0]);
      StepSettled(env, s, events[0]);
      HealedIffNoTail(env, next, events[1..]);
      SettledDurable(env, s);
      forall i | 0 <= i < |events[1..]| ensures StateAt(env, next, events[1..], i) == StateAt(env, s, events, i + 1) { }
      if forall i :: 0 <= i < |events[1..]| && Restarts(events[1..][i]) ==> TornTail(env, StateAt(env, next, events[1..], i).log) == [] {
        forall i | 0 < i < |events| && Restarts(events[i]) ensures TornTail(env, StateAt(env, s, events, i).log) == [] {
          assert events[i] == events[1..][i - 1];
        }
      }
    }
  }

  /** From an empty log. */
  lemma ReachedIsSettled(env: Env, events: seq<Event>)
    requires Legal(env, EMPTY, events) && Undisturbed(env, EMPTY, events)
    ensures Settled(env, After(env, EMPTY, events))
  {
    EmptyIsValid(env);
    RunSettled(env, EMPTY, events);
  }

  lemma SettledDurable(env: Env, s: Store)
    requires Settled(env, s)
    ensures Durable(env, s) <==> TornTail(env, s.log) == []
  {
  }

  // ----- the three kinds of tail

  /** Behind a tail that is long enough for its length and still rejected every later append is lost, in any number. */
  lemma CorruptTailLosesAll(env: Env, log: seq<Byte>, events: seq<Event>)
    requires Legal(env, Open(env, log), events) && OnlyAppends(events)
    requires |TornTail(env, log)| >= 4 && 8 + Decode(TornTail(env, log)[..4]) <= |TornTail(env, log)|
    ensures Open(env, After(env, Open(env, log), events).log).history == Open(env, log).history
  {
    hide *;
    var recs := Written(env, Open(env, log), events);
    TailIsRejected(env, log);
    CorruptTailRejects(env, TornTail(env, log), Log(env, recs));
    RestartAfterAppends(env, log, events);
  }

  /** Behind a tail that holds a length, all is lost that stays short of that length. */
  lemma CutTailLosesUntilReached(env: Env, log: seq<Byte>, events: seq<Event>)
    requires Legal(env, Open(env, log), events) && OnlyAppends(events)
    requires |TornTail(env, log)| >= 4
    requires |TornTail(env, log)| + |Log(env, Written(env, Open(env, log), events))| < 8 + Decode(TornTail(env, log)[..4])
    ensures Open(env, After(env, Open(env, log), events).log).history == Open(env, log).history
  {
    hide *;
    var recs := Written(env, Open(env, log), events);
    CutTailRejects(env, TornTail(env, log), Log(env, recs));
    RestartAfterAppends(env, log, events);
  }

  /** Behind a tail too short for a length, all is lost that stays short of the misread length. */
  lemma ShortTailLosesUntilReached(env: Env, log: seq<Byte>, events: seq<Event>)
    requires Legal(env, Open(env, log), events) && OnlyAppends(events)
    requires 1 <= |TornTail(env, log)| <= 3
    requires
      var recs := Written(env, Open(env, log), events);
      recs != [] ==> |TornTail(env, log)| + |Log(env, recs)| < 8 + Misread(TornTail(env, log), |Payload(recs[0])|)
    ensures Open(env, After(env, Open(env, log), events).log).history == Open(env, log).history
  {
    hide *;
    var recs, tail := Written(env, Open(env, log), events), TornTail(env, log);
    if recs == [] {
      TailIsRejected(env, log);
      LogOne(env, Record([], 0, None));
      assert tail + [] == tail;
    } else {
      ShortTailRejects(env, tail, recs);
    }
    RestartAfterAppends(env, log, events);
  }

  /**
   After a crash that cuts a log inside a frame, behind the frame's length: whatever the
   reopened store writes is lost at the next restart, until the log is as long as that frame
   was to be. The restart shows the whole frames of before the crash and nothing else.
   */
  lemma CrashLosesLaterAppends(env: Env, recs: seq<Record>, n: nat, events: seq<Event>)
    requires AllWritable(env, recs) && n <= |Log(env, recs)| && WholeFrames(env, recs, n) < |recs|
    requires
      var log := Log(env, recs)[..n];
      Legal(env, Open(env, log), events) && OnlyAppends(events)
    requires
      var written := Written(env, Open(env, Log(env, recs)[..n]), events);
      && 4 <= Leftover(env, recs, n)
      && Leftover(env, recs, n) + |Log(env, written)| < |Frame(env, recs[WholeFrames(env, recs, n)])|
    ensures Open(env, After(env, Open(env, Log(env, recs)[..n]), events).log).history == Rebuild(recs[..WholeFrames(env, recs, n)])
  {
    var log, m := Log(env, recs)[..n], WholeFrames(env, recs, n);
    OpenedAt(env, log);
    hide *;
    CrashTail(env, recs, n);
    CrashKeepsPrefix(env, recs, n);
    WritableAt(env, recs, m);
    CutFrameRejects(env, recs[m], Leftover(env, recs, n), Log(env, Written(env, Open(env, log), events)));
    RestartAfterAppends(env, log, events);
  }

  lemma OpenedAt(env: Env, log: seq<Byte>)
    ensures Open(env, log).history == Rebuild(Replay(env, log))
  {
  }

  lemma WritableAt(env: Env, recs: seq<Record>, m: nat)
    requires AllWritable(env, recs) && m < |recs|
    ensures Writable(env, recs[m])
  {
  }
}
