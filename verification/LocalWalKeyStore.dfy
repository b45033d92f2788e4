/**
 The key store as the object the source has: its methods update the histories, the
 clock, the reader table and the log in place, each exactly as the state machine of
 LocalKeyStore says.
 */
module LocalWalKeyStore {
  import opened Sequences
  import opened LittleEndian
  import opened WalFrames
  import opened LocalKeyStore
  import opened LocalKeyStoreTheorems

  /** Scan the log frame by frame up to the first one that is not accepted. */
  method ReplayFile(env: Env, buf: seq<Byte>) returns (history: History, clock: nat)
    ensures history == Rebuild(Replay(env, buf)) && clock == MaxGeneration(Replay(env, buf))
  {
    hide *;
    history, clock := map[], 0;
    var pos := 0;
    ghost var seen: seq<Record> := [];
    NothingRebuilt();
    assert buf[0..] == buf && seen + Replay(env, buf) == Replay(env, buf);
    while pos + 8 <= |buf|
      invariant 0 <= pos <= |buf|
      invariant seen + Replay(env, buf[pos..]) == Replay(env, buf)
      invariant history == Rebuild(seen) && clock == MaxGeneration(seen)
      decreases |buf| - pos
    {
      var first := FirstFrame(env, buf[pos..]);
      ReplayStep(env, buf[pos..]);
      if first.None? {
        break;
      }
      var (rec, consumed) := first.value;
      RebuildPush(seen, rec);
      MaxPush(seen, rec);
      assert buf[pos..][consumed..] == buf[pos + consumed..];
      assert seen + ([rec] + Replay(env, buf[pos + consumed..])) == seen + [rec] + Replay(env, buf[pos + consumed..]);
      seen := seen + [rec];
      if rec.generation > clock {
        clock := rec.generation;
      }
      history := Push(history, rec);
      pos := pos + consumed;
    }
    ReplayStep(env, buf[pos..]);
    assert seen + [] == seen;
  }

  lemma NothingRebuilt()
    ensures Rebuild([]) == map[] && MaxGeneration([]) == 0
  {
  }

  lemma MaxPush(seen: seq<Record>, rec: Record)
    ensures MaxGeneration(seen + [rec]) == if rec.generation > MaxGeneration(seen) then rec.generation else MaxGeneration(seen)
  {
    assert (seen + [rec])[..|seen|] == seen;
  }

  class LocalWalKeyStore {
    const env: Env
    var history: History
    var clock: nat
    var readers: map<nat, nat>
    var log: seq<Byte>

    function View(): Store
      reads this
    {
      Store(history, clock, readers, log)
    }

    constructor (env: Env, file: seq<Byte>)
      ensures this.env == env && View() == Open(env, file)
    {
      var h, c := ReplayFile(env, file);
      this.env := env;
      history, clock, readers, log := h, c, map[], file;
    }

    method PutIfAbsent(key: Key, oid: Oid, fence: nat) returns (out: PutOutcome)
      modifies this
      ensures (View(), out) == Put(env, old(View()), key, oid, fence)
    {
      if key in history && history[key] != [] {
        var last := history[key][|history[key]| - 1];
        if last.oid.Some? {
          return Conflict(last.oid.value, last.generation);
        }
      }
      var stamp := NextStamp(fence);
      var ok := AppendRecord(Record(key, stamp, Some(oid)));
      return if ok then Committed(stamp) else Failed;
    }

    /** The error of a frame that could not be written is passed on; a free key is no error. */
    method Delete(key: Key, fence: nat) returns (ok: bool)
      modifies this
      ensures View() == Tombstone(env, old(View()), key, fence)
      ensures ok <==> Live(Versions(old(history), key)).None? || Fits(Record(key, Tick(old(clock), fence), None))
    {
      ok := true;
      if key in history && history[key] != [] && history[key][|history[key]| - 1].oid.Some? {
        var stamp := NextStamp(fence);
        ok := AppendRecord(Record(key, stamp, None));
      }
    }

    method NextStamp(fence: nat) returns (stamp: nat)
      modifies this`clock
      ensures stamp == clock == Tick(old(clock), fence)
    {
      clock := clock + 1;
      if fence > clock {
        clock := fence;
      }
      stamp := clock;
    }

    method AppendRecord(rec: Record) returns (ok: bool)
      requires clock == rec.generation
      modifies this`log, this`history
      ensures ok == Fits(rec) && View() == Append(env, old(View()), rec)
    {
      ok := |Payload(rec)| < U32_LIMIT;
      if ok {
        log := log + Frame(env, rec);
        history := Push(history, rec);
      }
    }

    /** Resolve `key` at `snapshot`, walking its versions from the newest back. */
    method GetAt(key: Key, snapshot: nat) returns (holder: Option<Oid>)
      ensures holder == ReadAt(View(), key, snapshot)
    {
      if key !in history {
        return None;
      }
      var vs := history[key];
      var n := |vs|;
      assert vs[..n] == vs;
      while n > 0
        invariant 0 <= n <= |vs|
        invariant ResolveAt(vs[..n], snapshot) == ResolveAt(vs, snapshot)
      {
        assert vs[..n][..n - 1] == vs[..n - 1];
        if vs[n - 1].generation <= snapshot {
          return vs[n - 1].oid;
        }
        n := n - 1;
      }
      return None;
    }

    method Pin() returns (snapshot: nat)
      modifies this`readers
      ensures snapshot == clock && View() == BeginRead(old(View()))
    {
      snapshot := clock;
      var n := if snapshot in readers then readers[snapshot] else 0;
      readers := readers[snapshot := n + 1];
    }

    method Unpin(snapshot: nat)
      modifies this`readers
      ensures View() == EndRead(old(View()), snapshot)
    {
      if snapshot in readers {
        var n := readers[snapshot];
        if n <= 1 {
          readers := readers - {snapshot};
        } else {
          readers := readers[snapshot := n - 1];
        }
      }
    }

    /** Rewrite the log with the kept versions only, keys in whatever order the map yields them. */
    method CompactLog() returns (ghost order: seq<Key>)
      modifies this`history, this`log
      ensures Enumerates(order, Kept(old(history), Watermark(old(View()))).Keys)
      ensures forall key :: key in order ==> key in Kept(old(history), Watermark(old(View())))
      ensures View() == Compact(env, old(View()), order)
    {
      history, log, order := WriteKept(env, history, Watermark(View()));
    }
  }

  /** How far the rewrite has come: `order` is out, the keys in `rest` are still to be looked at. */
  ghost predicate Written(env: Env, target: History, rest: set<Key>, kept: History, file: seq<Byte>, order: seq<Key>)
  {
    && Enumerates(order, kept.Keys)
    && (forall key :: key in order ==> key in target)
    && kept.Keys == target.Keys - rest
    && (forall key :: key in kept ==> kept[key] == target[key])
    && file == Log(env, RecordsIn(target, order))
  }

  lemma WriteOne(env: Env, target: History, rest: set<Key>, kept: History, file: seq<Byte>, order: seq<Key>, key: Key)
    requires Written(env, target, rest, kept, file, order) && key in rest && key in target
    ensures Written(env, target, rest - {key}, kept[key := target[key]], file + Log(env, RecordsOf(key, target[key])), order + [key])
  {
    hide Log, RecordsIn;
    EnumeratesOneMore(order, kept.Keys, key);
    RecordsOneMore(target, order, key);
    LogConcat(env, RecordsIn(target, order), RecordsOf(key, target[key]));
    assert kept[key := target[key]].Keys == kept.Keys + {key};
  }

  lemma EnumeratesOneMore(order: seq<Key>, keys: set<Key>, key: Key)
    requires Enumerates(order, keys) && key !in keys
    ensures Enumerates(order + [key], keys + {key})
  {
    assert key !in Elements(order);
    assert forall k :: k in order + [key] <==> k in order || k == key;
  }

  lemma RecordsOneMore(h: History, order: seq<Key>, key: Key)
    requires key in h && forall k :: k in order ==> k in h
    ensures RecordsIn(h, order + [key]) == RecordsIn(h, order) + RecordsOf(key, h[key])
  {
    assert (order + [key])[..|order|] == order;
  }

  method WriteKept(env: Env, h: History, watermark: nat) returns (kept: History, file: seq<Byte>, ghost order: seq<Key>)
    ensures kept == Kept(h, watermark) && Enumerates(order, kept.Keys)
    ensures forall key :: key in order ==> key in kept
    ensures file == Log(env, RecordsIn(kept, order))
  {
    ghost var target := Kept(h, watermark);
    kept, file, order := map[], [], [];
    var rest := h.Keys;
    while rest != {}
      invariant rest <= h.Keys
      invariant Written(env, target, rest, kept, file, order)
      decreases rest
    {
      hide Written;
      var key :| key in rest;
      var pruned := Prune(h[key], watermark);
      if pruned != [] {
        WriteOne(env, target, rest, kept, file, order, key);
        kept := kept[key := pruned];
        file := file + Log(env, RecordsOf(key, pruned));
        order := order + [key];
      } else {
        SkipOne(env, target, rest, kept, file, order, key);
      }
      rest := rest - {key};
    }
    assert kept == target;
  }

  lemma SkipOne(env: Env, target: History, rest: set<Key>, kept: History, file: seq<Byte>, order: seq<Key>, key: Key)
    requires Written(env, target, rest, kept, file, order) && key !in target
    ensures Written(env, target, rest - {key}, kept, file, order)
  {
  }
}
