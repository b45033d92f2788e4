/**
 The object-store key store: many writers, no locks. The whole claim set is one manifest;
 a call lists the newest version, reads it, and publishes its successor with a create-only
 put. A writer that finds the successor slot taken starts over from the new newest
 manifest. The model interleaves the calls of any number of clients step by step.
 */
module ObjectKeyStore {
  import opened Sequences

  type Key = string
  type Oid = string

  /** A claim; without a holder it is a tombstone. */
  datatype Entry = Entry(oid: Option<Oid>, generation: nat)
  type Entries = map<Key, Entry>
  datatype Manifest = Manifest(version: nat, entries: Entries)

  datatype Op = Put(key: Key, oid: Oid, fence: nat) | Delete(key: Key, fence: nat) | Lookup(key: Key)

  datatype Outcome =
    | Committed(generation: nat)               // the put took the key
    | Conflict(holder: Oid, generation: nat)   // the key is held
    | Deleted                                  // the tombstone was published
    | NothingToDelete                          // the key was not held
    | Resolved(found: Option<Oid>)             // the holder a lookup found
    | Exhausted                                // too many lost races
    | TransportError                           // the store's answer is unknown

  const MAX_RETRIES: nat := 32

  // ----- the sequential store

  predicate Live(m: Entries, key: Key)
  {
    key in m && m[key].oid.Some?
  }

  function HolderOf(m: Entries, key: Key): Option<Oid>
  {
    if key in m then m[key].oid else None
  }

  /** A put goes ahead on a free key, a delete on a held one; a lookup changes nothing. */
  predicate Applies(op: Op, m: Entries)
  {
    match op
    case Put(key, _, _) => !Live(m, key)
    case Delete(key, _) => Live(m, key)
    case Lookup(_) => false
  }

  /** The answer to an operation that changes nothing. */
  function Refusal(op: Op, m: Entries): Outcome
    requires !Applies(op, m)
  {
    match op
    case Put(key, _, _) => Conflict(m[key].oid.value, m[key].generation)
    case Delete(_, _) => NothingToDelete
    case Lookup(key) => Resolved(HolderOf(m, key))
  }

  function Apply(op: Op, m: Entries): Entries
  {
    match op
    case Put(key, oid, fence) => m[key := Entry(Some(oid), fence)]
    case Delete(key, fence) => m[key := Entry(None, fence)]
    case Lookup(_) => m
  }

  /** The claim set after running `ops` one after the other. */
  function StateAfter(ops: seq<Op>): Entries
  {
    if ops == [] then map[] else Apply(ops[|ops| - 1], StateAfter(ops[..|ops| - 1]))
  }

  // ----- the concurrent one

  /** A call, the version that was newest when it began and how many calls had returned by then. */
  datatype Call = Call(op: Op, tries: nat, from: nat, after: nat)

  datatype Client =
    | Idle
    | Loading(call: Call)                    // about to list
    | Listed(call: Call, version: nat)       // about to read that manifest
    | Ready(call: Call, base: Manifest)      // about to publish its successor

  /**
   A returned call: the version its answer is about, the newest one when it returned, and
   whether it published version `at`.
   */
  datatype Return = Return(call: Call, outcome: Outcome, at: nat, until: nat, published: bool)

  /** `ops` and `answers` only record what happened; no step reads them. */
  datatype System = System(slots: map<nat, Manifest>, clients: map<nat, Client>, ops: seq<Op>, answers: seq<Return>)

  const START: System := System(map[], map[], [], [])

  function Newest(slots: map<nat, Manifest>): (v: nat)
    ensures v == 0 || v in slots
    ensures forall u :: u in slots ==> u <= v
  {
    if slots == map[] then 0 else Greatest(slots.Keys)
  }

  function Greatest(s: set<nat>): (m: nat)
    requires s != {}
    ensures m in s && forall x :: x in s ==> x <= m
  {
    GreatestExists(s);
    var m :| m in s && IsGreatest(s, m);
    m
  }

  lemma {:induction false} GreatestExists(s: set<nat>)
    requires s != {}
    ensures exists m :: IsGreatest(s, m)
  {
    var y :| y in s;
    var rest := s - {y};
    forall x | x in s ensures x == y || x in rest { }
    if rest == {} {
      assert IsGreatest(s, y);
    } else {
      GreatestExists(rest);
      var m :| IsGreatest(rest, m);
      assert IsGreatest(s, if y > m then y else m);
    }
  }

  predicate IsGreatest(s: set<nat>, m: nat)
  {
    m in s && forall x :: x in s ==> x <= m
  }

  function ReadSlot(slots: map<nat, Manifest>, version: nat): Manifest
  {
    if version in slots then slots[version] else Manifest(0, map[])
  }

  function ClientOf(s: System, c: nat): Client
  {
    if c in s.clients then s.clients[c] else Idle
  }

  datatype Event =
    | Invoke(client: nat, op: Op)
    | List(client: nat)
    | Get(client: nat)
    | Commit(client: nat)
    | CommitUnanswered(client: nat, published: bool)

  predicate Enabled(s: System, e: Event)
  {
    match e
    case Invoke(c, _) => ClientOf(s, c).Idle?
    case List(c) => ClientOf(s, c).Loading?
    case Get(c) => ClientOf(s, c).Listed?
    case Commit(c) => ClientOf(s, c).Ready?
    case CommitUnanswered(c, published) =>
      ClientOf(s, c).Ready? && (published ==> ClientOf(s, c).base.version + 1 !in s.slots)
  }

  function Finish(s: System, c: nat, call: Call, outcome: Outcome, at: nat, published: bool): System
  {
    s.(clients := s.clients[c := Idle], answers := s.answers + [Return(call, outcome, at, Newest(s.slots), published)])
  }

  function Publish(s: System, op: Op, base: Manifest): System
  {
    s.(slots := s.slots[base.version + 1 := Manifest(base.version + 1, Apply(op, base.entries))], ops := s.ops + [op])
  }

  function Decide(s: System, c: nat, call: Call, m: Manifest): System
  {
    if Applies(call.op, m.entries) then s.(clients := s.clients[c := Ready(call, m)])
    else Finish(s, c, call, Refusal(call.op, m.entries), m.version, false)
  }

  /** The answer to a published operation; a lookup is never published. */
  function Success(op: Op): Outcome
  {
    match op
    case Put(_, _, fence) => Committed(fence)
    case Delete(_, _) => Deleted
    case Lookup(_) => Resolved(None)
  }

  function Next(s: System, e: Event): System
    requires Enabled(s, e)
  {
    var c := e.client;
    match e
    case Invoke(_, op) => s.(clients := s.clients[c := Loading(Call(op, 0, Newest(s.slots), |s.answers|))])
    case List(_) =>
      var call := ClientOf(s, c).call;
      if call.tries >= MAX_RETRIES then Finish(s, c, call, Exhausted, Newest(s.slots), false)
      else s.(clients := s.clients[c := Listed(call, Newest(s.slots))])
    case Get(_) =>
      var listed := ClientOf(s, c);
      Decide(s, c, listed.call, ReadSlot(s.slots, listed.version))
    case Commit(_) =>
      var ready := ClientOf(s, c);
      if ready.base.version + 1 in s.slots then
        s.(clients := s.clients[c := Loading(ready.call.(tries := ready.call.tries + 1))])
      else
        Finish(Publish(s, ready.call.op, ready.base), c, ready.call, Success(ready.call.op), ready.base.version + 1, true)
    case CommitUnanswered(_, published) =>
      var ready := ClientOf(s, c);
      var s' := if published then Publish(s, ready.call.op, ready.base) else s;
      Finish(s', c, ready.call, TransportError, Newest(s'.slots), published)
  }

  ghost predicate Legal(s: System, events: seq<Event>)
    decreases |events|
  {
    events == [] || (Enabled(s, events[0]) && Legal(Next(s, events[0]), events[1..]))
  }

  ghost function After(s: System, events: seq<Event>): System
    requires Legal(s, events)
    decreases |events|
  {
    if events == [] then s else After(Next(s, events[0]), events[1..])
  }

  // ----- the invariant

  /** The published manifests are the states of one sequential run, version by version. */
  ghost predicate Chain(s: System)
  {
    && (forall v :: v in s.slots <==> 1 <= v <= |s.ops|)
    && (forall v :: v in s.slots ==> s.slots[v] == Manifest(v, StateAfter(s.ops[..v])))
    && (forall i :: 0 <= i < |s.ops| ==> Applies(s.ops[i], StateAfter(s.ops[..i])))
  }

  /** The calls that had returned when `call` began saw no version newer than it did. */
  ghost predicate InRealTime(s: System, call: Call)
  {
    call.after <= |s.answers| && forall i :: 0 <= i < call.after ==> s.answers[i].until <= call.from
  }

  ghost predicate GoodClient(s: System, client: Client)
  {
    client.Idle? ||
    (&& InRealTime(s, client.call)
     && match client
        case Loading(call) => call.from + call.tries <= |s.ops|
        case Listed(call, version) => call.from + call.tries <= version <= |s.ops|
        case Ready(call, base) =>
          && call.from + call.tries <= base.version <= |s.ops|
          && base.entries == StateAfter(s.ops[..base.version])
          && Applies(call.op, base.entries))
  }

  ghost predicate Effective(outcome: Outcome)
  {
    outcome.Committed? || outcome.Deleted?
  }

  /** The sequential store gives the same answer to the same call at version `r.at`. */
  ghost predicate Explained(ops: seq<Op>, r: Return)
    requires r.until <= |ops|
  {
    match r.outcome
    case Committed(g) => r.call.from < r.at <= r.until && ops[r.at - 1] == r.call.op && r.call.op.Put? && g == r.call.op.fence
    case Deleted => r.call.from < r.at <= r.until && ops[r.at - 1] == r.call.op && r.call.op.Delete?
    case Conflict(holder, g) =>
      && r.call.from <= r.at <= r.until && r.call.op.Put?
      && r.call.op.key in StateAfter(ops[..r.at])
      && StateAfter(ops[..r.at])[r.call.op.key] == Entry(Some(holder), g)
    case NothingToDelete => r.call.from <= r.at <= r.until && r.call.op.Delete? && !Live(StateAfter(ops[..r.at]), r.call.op.key)
    case Resolved(found) =>
      r.call.from <= r.at <= r.until && r.call.op.Lookup? && found == HolderOf(StateAfter(ops[..r.at]), r.call.op.key)
    case Exhausted => r.call.from + MAX_RETRIES <= r.until
    case TransportError => true
  }

  /** A call publishes its own operation, between its start and its return, and only then succeeds. */
  ghost predicate PublishedRight(ops: seq<Op>, r: Return)
    requires r.until <= |ops|
  {
    && (Effective(r.outcome) ==> r.published)
    && (r.published ==> (Effective(r.outcome) || r.outcome.TransportError?)
                        && r.call.from < r.at <= r.until && ops[r.at - 1] == r.call.op)
  }

  ghost predicate GoodReturn(s: System, r: Return)
  {
    r.until <= |s.ops| && InRealTime(s, r.call) && Explained(s.ops, r) && PublishedRight(s.ops, r)
  }

  ghost predicate Sound(s: System)
  {
    && Chain(s)
    && (forall c :: c in s.clients ==> GoodClient(s, s.clients[c]))
    && (forall i :: 0 <= i < |s.answers| ==> GoodReturn(s, s.answers[i]))
    && (forall i, j :: 0 <= i < j < |s.answers| && s.answers[i].published && s.answers[j].published
                       ==> s.answers[i].at != s.answers[j].at)
  }

  /** The `i`-th returned call published version `v`, answered or not: its own operation, between its start and its return. */
  ghost predicate TookEffect(s: System, i: int, v: int)
  {
    && 0 <= i < |s.answers| && 1 <= v <= |s.ops|
    && var r := s.answers[i];
       && r.published && (Effective(r.outcome) || r.outcome.TransportError?)
       && r.at == v && r.call.op == s.ops[v - 1] && r.call.from < v <= r.until
  }

  /** Some call other than the `except`-th published version `v`. */
  ghost predicate PublishedByCall(s: System, v: int, except: int)
  {
    exists i :: i != except && TookEffect(s, i, v)
  }

  /** Every published operation is that of a call. */
  ghost predicate Witnessed(s: System)
  {
    forall v :: 1 <= v <= |s.ops| ==> PublishedByCall(s, v, -1)
  }

  ghost predicate Valid(s: System)
  {
    Sound(s) && Witnessed(s)
  }
}
