/**
 Every interleaving of the object-store key store is linearizable: the manifests form one
 sequential run of the calls that took effect, and each answer is the one that run gives
 at a version between the call and its return.
 */
module ObjectKeyStoreTheorems {
  import opened ObjectKeyStore

  lemma ChainNewest(s: System)
    requires Chain(s)
    ensures Newest(s.slots) == |s.ops|
  {
    if |s.ops| > 0 {
      assert |s.ops| in s.slots;
    }
  }

  /** Later steps only add to the record. */
  ghost predicate Extends(s: System, s': System)
  {
    s.ops <= s'.ops && s.answers <= s'.answers
  }

  lemma SamePrefix<T>(a: seq<T>, b: seq<T>, n: nat)
    requires a <= b && n <= |a|
    ensures a[..n] == b[..n]
  {
  }

  lemma ClientStaysGood(s: System, s': System, client: Client)
    requires Extends(s, s') && GoodClient(s, client)
    ensures GoodClient(s', client)
  {
    if client.Ready? {
      SamePrefix(s.ops, s'.ops, client.base.version);
    }
  }

  lemma ReturnStaysGood(s: System, s': System, r: Return)
    requires Extends(s, s') && GoodReturn(s, r)
    ensures GoodReturn(s', r)
  {
    if r.at <= r.until {
      SamePrefix(s.ops, s'.ops, r.at);
    }
  }

  ghost predicate AllGood(s: System)
  {
    && (forall c :: c in s.clients ==> GoodClient(s, s.clients[c]))
    && (forall i :: 0 <= i < |s.answers| ==> GoodReturn(s, s.answers[i]))
  }

  /** A step that extends the record keeps everything it does not touch. */
  lemma StaysGood(s: System, s': System, c: nat)
    requires Extends(s, s') && AllGood(s)
    requires forall d :: d in s'.clients && d != c ==> d in s.clients && s'.clients[d] == s.clients[d]
    requires c in s'.clients ==> GoodClient(s', s'.clients[c])
    requires forall i :: |s.answers| <= i < |s'.answers| ==> GoodReturn(s', s'.answers[i])
    ensures AllGood(s')
  {
    forall d | d in s'.clients ensures GoodClient(s', s'.clients[d]) {
      if d != c { ClientStaysGood(s, s', s.clients[d]); }
    }
    forall i | 0 <= i < |s'.answers| ensures GoodReturn(s', s'.answers[i]) {
      if i < |s.answers| { ReturnStaysGood(s, s', s.answers[i]); }
    }
  }

  lemma FinishSound(s: System, c: nat, call: Call, outcome: Outcome, at: nat, published: bool)
    requires Sound(s) && InRealTime(s, call)
    requires Explained(s.ops, Return(call, outcome, at, |s.ops|, published))
    requires PublishedRight(s.ops, Return(call, outcome, at, |s.ops|, published))
    requires published ==> forall i :: 0 <= i < |s.answers| && s.answers[i].published ==> s.answers[i].at != at
    ensures Sound(Finish(s, c, call, outcome, at, published))
  {
    hide StateAfter;
    ChainNewest(s);
    var s' := Finish(s, c, call, outcome, at, published);
    StaysGood(s, s', c);
  }

  lemma PublishChain(s: System, op: Op, base: Manifest)
    requires Chain(s) && base.version == |s.ops|
    requires base.entries == StateAfter(s.ops) && Applies(op, base.entries)
    ensures Chain(Publish(s, op, base))
  {
    hide StateAfter, Apply, Applies;
    var n, s' := |s.ops|, Publish(s, op, base);
    PrefixState(s.ops, op, n);
    forall v | v in s'.slots ensures s'.slots[v] == Manifest(v, StateAfter(s'.ops[..v])) {
      if v <= n { PrefixState(s.ops, op, v); }
    }
    forall i | 0 <= i <= n ensures Applies(s'.ops[i], StateAfter(s'.ops[..i])) { PrefixState(s.ops, op, i); }
  }

  /** One more operation leaves the earlier states alone and applies to the last one. */
  lemma PrefixState(ops: seq<Op>, op: Op, v: nat)
    requires v <= |ops|
    ensures (ops + [op])[..v] == ops[..v] && ops[..|ops|] == ops
    ensures StateAfter((ops + [op])[..|ops| + 1]) == Apply(op, StateAfter(ops))
  {
    hide Apply;
    SamePrefix(ops, ops + [op], v);
    assert (ops + [op])[..|ops|] == ops && (ops + [op])[..|ops| + 1] == ops + [op];
  }

  lemma PublishSound(s: System, op: Op, base: Manifest)
    requires Sound(s) && base.version == |s.ops|
    requires base.entries == StateAfter(s.ops) && Applies(op, base.entries)
    ensures Sound(Publish(s, op, base))
  {
    PublishChain(s, op, base);
    hide StateAfter, Chain, GoodClient, GoodReturn;
    var s' := Publish(s, op, base);
    forall c | c in s.clients ensures GoodClient(s', s.clients[c]) { ClientStaysGood(s, s', s.clients[c]); }
    forall i | 0 <= i < |s.answers| ensures GoodReturn(s', s.answers[i]) { ReturnStaysGood(s, s', s.answers[i]); }
  }

  lemma ClientMoves(s: System, c: nat, client: Client)
    requires Sound(s) && GoodClient(s, client)
    ensures Sound(s.(clients := s.clients[c := client]))
  {
    hide StateAfter;
    StaysGood(s, s.(clients := s.clients[c := client]), c);
  }

  lemma SlotIsState(s: System, v: nat)
    requires Chain(s) && v <= |s.ops|
    ensures ReadSlot(s.slots, v) == Manifest(v, StateAfter(s.ops[..v]))
  {
    if v == 0 { assert s.ops[..0] == []; }
  }

  lemma GetSound(s: System, c: nat)
    requires Sound(s) && Enabled(s, Get(c))
    ensures Sound(Next(s, Get(c)))
  {
    hide Chain, StateAfter, GoodReturn;
    var listed := ClientOf(s, c);
    var m := ReadSlot(s.slots, listed.version);
    assert GoodClient(s, listed);
    SlotIsState(s, listed.version);
    if Applies(listed.call.op, m.entries) {
      ClientMoves(s, c, Ready(listed.call, m));
    } else {
      FinishSound(s, c, listed.call, Refusal(listed.call.op, m.entries), m.version, false);
    }
  }

  /** A ready client whose successor slot is free holds the newest manifest. */
  lemma FreeSlotMeansNewest(s: System, c: nat)
    requires Sound(s) && ClientOf(s, c).Ready? && ClientOf(s, c).base.version + 1 !in s.slots
    ensures
      var base := ClientOf(s, c).base;
      base.version == |s.ops| && base.entries == StateAfter(s.ops) && Applies(ClientOf(s, c).call.op, base.entries)
  {
    assert s.ops[..|s.ops|] == s.ops;
  }

  /** A lost race: whoever took the slot also moved the newest version on. */
  lemma CommitLoses(s: System, c: nat)
    requires Sound(s) && Enabled(s, Commit(c)) && ClientOf(s, c).base.version + 1 in s.slots
    ensures Sound(Next(s, Commit(c)))
  {
    hide *;
    NextOfLoser(s, c);
    LoserRetries(s, c);
    var ready := ClientOf(s, c);
    ClientMoves(s, c, Loading(ready.call.(tries := ready.call.tries + 1)));
  }

  lemma LoserRetries(s: System, c: nat)
    requires Sound(s) && ClientOf(s, c).Ready? && ClientOf(s, c).base.version + 1 in s.slots
    ensures GoodClient(s, Loading(ClientOf(s, c).call.(tries := ClientOf(s, c).call.tries + 1)))
  {
    hide StateAfter, GoodReturn;
    assert GoodClient(s, ClientOf(s, c));
    assert ClientOf(s, c).base.version + 1 <= |s.ops|;
  }

  lemma NextOfLoser(s: System, c: nat)
    requires Enabled(s, Commit(c)) && ClientOf(s, c).base.version + 1 in s.slots
    ensures ClientOf(s, c).Ready?
    ensures
      var call := ClientOf(s, c).call;
      Next(s, Commit(c)) == s.(clients := s.clients[c := Loading(call.(tries := call.tries + 1))])
  {
  }

  lemma CommitWins(s: System, c: nat)
    requires Sound(s) && Enabled(s, Commit(c)) && ClientOf(s, c).base.version + 1 !in s.slots
    ensures Sound(Next(s, Commit(c)))
  {
    var ready := ClientOf(s, c);
    FreeSlotMeansNewest(s, c);
    hide StateAfter, Chain;
    var s' := Publish(s, ready.call.op, ready.base);
    ReadyApplies(s, c);
    WinnerExplained(s, s', ready.call);
    PublishedAreOld(s);
    hide GoodClient, GoodReturn, Explained, PublishedRight;
    PublishSound(s, ready.call.op, ready.base);
    FinishSound(s', c, ready.call, Success(ready.call.op), |s'.ops|, true);
  }

  lemma PublishedAreOld(s: System)
    requires Sound(s)
    ensures forall i :: 0 <= i < |s.answers| && s.answers[i].published ==> s.answers[i].at <= |s.ops|
  {
    hide StateAfter, Chain, GoodClient, Explained;
  }

  lemma WinnerExplained(s: System, s': System, call: Call)
    requires InRealTime(s, call) && call.from <= |s.ops| && !call.op.Lookup?
    requires s'.ops == s.ops + [call.op] && s'.answers == s.answers
    ensures InRealTime(s', call)
    ensures Explained(s'.ops, Return(call, Success(call.op), |s'.ops|, |s'.ops|, true))
    ensures PublishedRight(s'.ops, Return(call, Success(call.op), |s'.ops|, |s'.ops|, true))
  {
  }

  lemma CommitSound(s: System, c: nat)
    requires Sound(s) && Enabled(s, Commit(c))
    ensures Sound(Next(s, Commit(c)))
  {
    hide Sound, Next;
    if ClientOf(s, c).base.version + 1 in s.slots {
      CommitLoses(s, c);
    } else {
      CommitWins(s, c);
    }
  }

  lemma CommitUnansweredSound(s: System, c: nat, published: bool)
    requires Sound(s) && Enabled(s, CommitUnanswered(c, published))
    ensures Sound(Next(s, CommitUnanswered(c, published)))
  {
    var ready := ClientOf(s, c);
    var s' := if published then Publish(s, ready.call.op, ready.base) else s;
    assert Next(s, CommitUnanswered(c, published)) == Finish(s', c, ready.call, TransportError, Newest(s'.slots), published);
    if published { PublishedByReady(s, c); }
    PublishedAreOld(s);
    UnansweredExplained(s, s', c, published);
    hide *;
    FinishSound(s', c, ready.call, TransportError, Newest(s'.slots), published);
  }

  lemma PublishedByReady(s: System, c: nat)
    requires Sound(s) && ClientOf(s, c).Ready? && ClientOf(s, c).base.version + 1 !in s.slots
    ensures Sound(Publish(s, ClientOf(s, c).call.op, ClientOf(s, c).base))
  {
    FreeSlotMeansNewest(s, c);
    hide *;
    PublishSound(s, ClientOf(s, c).call.op, ClientOf(s, c).base);
  }

  /** An unknown answer claims nothing, so any version explains it; what was published is the newest one. */
  lemma UnansweredExplained(s: System, s': System, c: nat, published: bool)
    requires Sound(s) && Sound(s') && ClientOf(s, c).Ready? && s.answers == s'.answers
    requires s'.ops == if published then s.ops + [ClientOf(s, c).call.op] else s.ops
    ensures Newest(s'.slots) == |s'.ops|
    ensures
      var call := ClientOf(s, c).call;
      && InRealTime(s', call)
      && Explained(s'.ops, Return(call, TransportError, |s'.ops|, |s'.ops|, published))
      && PublishedRight(s'.ops, Return(call, TransportError, |s'.ops|, |s'.ops|, published))
  {
    hide StateAfter, GoodReturn;
    ChainNewest(s');
    assert GoodClient(s, ClientOf(s, c));
  }

  lemma InvokeSound(s: System, c: nat, op: Op)
    requires Sound(s) && Enabled(s, Invoke(c, op))
    ensures Sound(Next(s, Invoke(c, op)))
  {
    hide StateAfter, GoodReturn;
    ChainNewest(s);
    var client := Loading(Call(op, 0, Newest(s.slots), |s.answers|));
    assert GoodClient(s, client) by {
      forall i | 0 <= i < |s.answers| ensures s.answers[i].until <= |s.ops| { UntilInRange(s, i); }
    }
    assert Next(s, Invoke(c, op)) == s.(clients := s.clients[c := client]);
    hide *;
    ClientMoves(s, c, client);
  }

  lemma UntilInRange(s: System, i: nat)
    requires Sound(s) && i < |s.answers|
    ensures s.answers[i].until <= |s.ops|
  {
    hide StateAfter;
    assert GoodReturn(s, s.answers[i]);
  }

  lemma ListSound(s: System, c: nat)
    requires Sound(s) && Enabled(s, List(c))
    ensures Sound(Next(s, List(c)))
  {
    hide StateAfter, GoodReturn;
    var call := ClientOf(s, c).call;
    ChainNewest(s);
    assert GoodClient(s, ClientOf(s, c));
    if call.tries >= MAX_RETRIES {
      FinishSound(s, c, call, Exhausted, Newest(s.slots), false);
    } else {
      ClientMoves(s, c, Listed(call, Newest(s.slots)));
    }
  }

  lemma StepSound(s: System, e: Event)
    requires Sound(s) && Enabled(s, e)
    ensures Sound(Next(s, e))
  {
    hide *;
    match e
    case Invoke(c, op) => InvokeSound(s, c, op);
    case List(c) => ListSound(s, c);
    case Get(c) => GetSound(s, c);
    case Commit(c) => CommitSound(s, c);
    case CommitUnanswered(c, published) => CommitUnansweredSound(s, c, published);
  }

  // ----- every published operation is some call's

  lemma EffectStays(s: System, s': System, i: int, v: int)
    requires Extends(s, s') && TookEffect(s, i, v)
    ensures TookEffect(s', i, v)
  {
    assert s'.answers[i] == s.answers[i] && s'.ops[v - 1] == s.ops[v - 1];
  }

  lemma Carried(s: System, s': System)
    requires Witnessed(s) && s.ops == s'.ops && s.answers <= s'.answers
    ensures Witnessed(s')
  {
    forall v | 1 <= v <= |s'.ops| ensures PublishedByCall(s', v, -1) {
      assert PublishedByCall(s, v, -1);
      var i :| TookEffect(s, i, v);
      EffectStays(s, s', i, v);
    }
  }

  /** A call that publishes and returns is the witness of its own version. */
  lemma PublishedIsWitnessed(s: System, s': System, r: Return)
    requires Witnessed(s) && s'.ops == s.ops + [r.call.op] && s'.answers == s.answers + [r]
    requires r.published && (Effective(r.outcome) || r.outcome.TransportError?) && r.call.from < r.at == r.until == |s'.ops|
    ensures Witnessed(s')
  {
    forall v | 1 <= v <= |s'.ops| ensures PublishedByCall(s', v, -1) {
      if v == |s'.ops| {
        assert TookEffect(s', |s.answers|, v);
      } else {
        assert PublishedByCall(s, v, -1);
        var i :| TookEffect(s, i, v);
        EffectStays(s, s', i, v);
      }
    }
  }

  lemma PublishWitnessed(s: System, c: nat, outcome: Outcome)
    requires Valid(s) && ClientOf(s, c).Ready? && ClientOf(s, c).base.version + 1 !in s.slots
    requires Effective(outcome) || outcome.TransportError?
    ensures
      var ready := ClientOf(s, c);
      var s' := Publish(s, ready.call.op, ready.base);
      && Newest(s'.slots) == ready.base.version + 1
      && Witnessed(Finish(s', c, ready.call, outcome, ready.base.version + 1, true))
  {
    hide StateAfter, GoodReturn;
    var ready := ClientOf(s, c);
    var s' := Publish(s, ready.call.op, ready.base);
    FreeSlotMeansNewest(s, c);
    assert GoodClient(s, ready);
    PublishChain(s, ready.call.op, ready.base);
    ChainNewest(s');
    PublishedIsWitnessed(s, Finish(s', c, ready.call, outcome, |s'.ops|, true), Return(ready.call, outcome, |s'.ops|, |s'.ops|, true));
  }

  lemma StepWitnessed(s: System, e: Event)
    requires Valid(s) && Enabled(s, e)
    ensures Witnessed(Next(s, e))
  {
    hide StateAfter, Sound, Witnessed, Newest;
    if e.Commit? && ClientOf(s, e.client).base.version + 1 !in s.slots {
      ReadyApplies(s, e.client);
      PublishWitnessed(s, e.client, Success(ClientOf(s, e.client).call.op));
    } else if e.CommitUnanswered? && e.published {
      PublishWitnessed(s, e.client, TransportError);
    } else {
      Carried(s, Next(s, e));
    }
  }

  lemma ReadyApplies(s: System, c: nat)
    requires Sound(s) && ClientOf(s, c).Ready?
    ensures !ClientOf(s, c).call.op.Lookup?
  {
    hide StateAfter, GoodReturn;
    assert GoodClient(s, ClientOf(s, c));
  }

  lemma StepValid(s: System, e: Event)
    requires Valid(s) && Enabled(s, e)
    ensures Valid(Next(s, e))
  {
    hide Sound, Witnessed, Next;
    StepSound(s, e);
    StepWitnessed(s, e);
  }

  lemma {:induction false} RunValid(s: System, events: seq<Event>)
    requires Valid(s) && Legal(s, events)
    ensures Valid(After(s, events))
    decreases |events|
  {
    hide Valid;
    if events != [] {
      StepValid(s, events[0]);
      RunValid(Next(s, events[0]), events[1..]);
    }
  }

  lemma ReachedIsValid(events: seq<Event>)
    requires Legal(START, events)
    ensures Valid(After(START, events))
  {
    RunValid(START, events);
  }

  /**
   Linearizability, over every interleaving of any number of clients. Each answer is the
   sequential store's answer at its version; that version lies between the newest one at
   the call and the newest one at the return; every operation of the sequential run was
   published by a call, between its start and its return; a call publishes at most once, in
   that place, and only calls that publish succeed; and a call that returned before another
   began comes no later in the order.
   */
  lemma Linearizable(events: seq<Event>)
    requires Legal(START, events)
    ensures
      var s := After(START, events);
      && (forall i :: 0 <= i < |s.answers| ==>
            s.answers[i].until <= |s.ops| && Explained(s.ops, s.answers[i]) && PublishedRight(s.ops, s.answers[i]))
      && (forall v :: 1 <= v <= |s.ops| ==> PublishedByCall(s, v, -1))
      && (forall i, j :: 0 <= i < j < |s.answers| && s.answers[i].published && s.answers[j].published
                         ==> s.answers[i].at != s.answers[j].at)
      && (forall i, j :: 0 <= j < |s.answers| && 0 <= i < s.answers[j].call.after && i < |s.answers|
                         ==> s.answers[i].until <= s.answers[j].call.from)
      && (forall v :: v in s.slots ==> v <= |s.ops| && s.slots[v].entries == StateAfter(s.ops[..v]))
  {
    hide StateAfter;
    ReachedIsValid(events);
  }

  // ----- exclusive ownership

  lemma StateStep(ops: seq<Op>, u: nat)
    requires 1 <= u <= |ops|
    ensures StateAfter(ops[..u]) == Apply(ops[u - 1], StateAfter(ops[..u - 1]))
  {
    assert ops[..u][..u - 1] == ops[..u - 1];
  }

  ghost predicate Sequential(ops: seq<Op>)
  {
    forall i :: 0 <= i < |ops| ==> Applies(ops[i], StateAfter(ops[..i]))
  }

  ghost predicate Deletes(op: Op, key: Key)
  {
    op.Delete? && op.key == key
  }

  /** Nothing but a delete of `key` frees it. */
  lemma {:induction false} HeldUntilDeleted(ops: seq<Op>, v: nat, u: nat, key: Key)
    requires v <= u <= |ops| && Live(StateAfter(ops[..v]), key) && Sequential(ops)
    requires forall i :: v <= i < u ==> !Deletes(ops[i], key)
    ensures Live(StateAfter(ops[..u]), key)
    decreases u
  {
    if v < u {
      HeldUntilDeleted(ops, v, u - 1, key);
      StateStep(ops, u);
      hide StateAfter;
      assert Applies(ops[u - 1], StateAfter(ops[..u - 1]));
    }
  }

  lemma PutMakesLive(ops: seq<Op>, v: nat)
    requires 1 <= v <= |ops| && ops[v - 1].Put?
    ensures Live(StateAfter(ops[..v]), ops[v - 1].key)
  {
    StateStep(ops, v);
    hide StateAfter;
  }

  lemma PutNeedsFree(ops: seq<Op>, v: nat)
    requires Sequential(ops) && 1 <= v <= |ops| && ops[v - 1].Put?
    ensures !Live(StateAfter(ops[..v - 1]), ops[v - 1].key)
  {
    hide StateAfter;
    assert Applies(ops[v - 1], StateAfter(ops[..v - 1]));
  }

  lemma PutsAreSeparated(ops: seq<Op>, first: nat, second: nat, key: Key) returns (v: nat)
    requires Sequential(ops) && 1 <= first < second <= |ops|
    requires ops[first - 1].Put? && ops[first - 1].key == key
    requires ops[second - 1].Put? && ops[second - 1].key == key
    ensures first < v < second && Deletes(ops[v - 1], key)
  {
    hide *;
    PutMakesLive(ops, first);
    PutNeedsFree(ops, second);
    if forall i :: first <= i < second - 1 ==> !Deletes(ops[i], key) {
      HeldUntilDeleted(ops, first, second - 1, key);
    }
    var i :| first <= i < second - 1 && Deletes(ops[i], key);
    v := i + 1;
  }

  /** A committed put is the operation published at the version of its answer. */
  lemma WinnerPut(s: System, i: nat)
    requires Sound(s) && i < |s.answers| && s.answers[i].outcome.Committed?
    ensures Sequential(s.ops) && 1 <= s.answers[i].at <= |s.ops|
    ensures s.ops[s.answers[i].at - 1].Put? && s.ops[s.answers[i].at - 1].key == s.answers[i].call.op.key
  {
    hide StateAfter;
    assert GoodReturn(s, s.answers[i]);
  }

  /**
   No key is ever held twice: over every interleaving, between two puts of the same key
   that reported success there is a version at which its holder was deleted.
   */
  lemma WinnersAreSeparated(events: seq<Event>, i: nat, j: nat) returns (v: nat)
    requires Legal(START, events)
    requires
      var s := After(START, events);
      && i < |s.answers| && j < |s.answers| && s.answers[i].at < s.answers[j].at
      && s.answers[i].outcome.Committed? && s.answers[j].outcome.Committed?
      && s.answers[i].call.op.key == s.answers[j].call.op.key
    ensures
      var s := After(START, events);
      && s.answers[i].at < v < s.answers[j].at <= |s.ops|
      && Deletes(s.ops[v - 1], s.answers[i].call.op.key)
  {
    hide *;
    ReachedIsValid(events);
    var s := After(START, events);
    WinnerPut(s, i);
    WinnerPut(s, j);
    v := PutsAreSeparated(s.ops, s.answers[i].at, s.answers[j].at, s.answers[i].call.op.key);
  }

  /**
   A call that gives up has lost 32 races: for each of the 32 versions after the one it
   started from, another call published that version and returned.
   */
  lemma ExhaustionMeansProgress(events: seq<Event>, i: nat)
    requires Legal(START, events)
    requires i < |After(START, events).answers| && After(START, events).answers[i].outcome.Exhausted?
    ensures
      var s := After(START, events);
      var call := s.answers[i].call;
      && call.from + MAX_RETRIES <= s.answers[i].until <= |s.ops|
      && forall v :: call.from < v <= call.from + MAX_RETRIES ==> PublishedByCall(s, v, i)
  {
    hide StateAfter;
    ReachedIsValid(events);
    var s := After(START, events);
    assert GoodReturn(s, s.answers[i]);
    forall v | s.answers[i].call.from < v <= s.answers[i].call.from + MAX_RETRIES ensures PublishedByCall(s, v, i) {
      assert PublishedByCall(s, v, -1);
      var j :| TookEffect(s, j, v);
    }
  }

  // ----- generations

  ghost predicate GenerationsRise(ops: seq<Op>)
  {
    forall v, key :: 0 <= v < |ops| && key in StateAfter(ops[..v]) ==>
      key in StateAfter(ops[..v + 1])
      && StateAfter(ops[..v])[key].generation <= StateAfter(ops[..v + 1])[key].generation
  }

  /** Only puts and deletes are published. */
  ghost predicate NoLookups(ops: seq<Op>)
  {
    forall i :: 0 <= i < |ops| ==> !ops[i].Lookup?
  }

  /** For each key the published fences never fall. */
  ghost predicate FencesRise(ops: seq<Op>)
    requires NoLookups(ops)
  {
    forall i, j :: 0 <= i < j < |ops| && ops[i].key == ops[j].key ==> ops[i].fence <= ops[j].fence
  }

  lemma EntryAfter(ops: seq<Op>, v: nat, key: Key)
    requires NoLookups(ops) && v < |ops|
    ensures
      var before, after := StateAfter(ops[..v]), StateAfter(ops[..v + 1]);
      && (ops[v].key == key ==> key in after && after[key].generation == ops[v].fence)
      && (ops[v].key != key ==> (key in before <==> key in after) && (key in before ==> after[key] == before[key]))
  {
    StateStep(ops, v + 1);
    hide StateAfter;
  }

  /** A key's generation is the fence of the last operation on it. */
  lemma {:induction false} LastWriter(ops: seq<Op>, v: nat, key: Key) returns (i: nat)
    requires NoLookups(ops) && v <= |ops| && key in StateAfter(ops[..v])
    ensures i < v && ops[i].key == key && StateAfter(ops[..v])[key].generation == ops[i].fence
    decreases v
  {
    EmptyRun(ops);
    hide StateAfter;
    EntryAfter(ops, v - 1, key);
    if ops[v - 1].key == key { i := v - 1; } else { i := LastWriter(ops, v - 1, key); }
  }

  lemma EmptyRun(ops: seq<Op>)
    ensures StateAfter(ops[..0]) == map[]
  {
    assert ops[..0] == [];
  }

  lemma {:induction false} RisesBetween(ops: seq<Op>, u: nat, v: nat, key: Key)
    requires GenerationsRise(ops) && u <= v <= |ops| && key in StateAfter(ops[..u])
    ensures key in StateAfter(ops[..v]) && StateAfter(ops[..u])[key].generation <= StateAfter(ops[..v])[key].generation
    decreases v
  {
    hide StateAfter;
    if u < v { RisesBetween(ops, u, v - 1, key); }
  }

  /**
   The store writes the caller's fence as the generation and compares it with nothing: no
   key's generation ever falls exactly when the fences of the calls on each key come in
   non-decreasing order.
   */
  lemma GenerationsRiseIffFencesRise(ops: seq<Op>)
    requires NoLookups(ops)
    ensures GenerationsRise(ops) <==> FencesRise(ops)
  {
    hide StateAfter;
    if GenerationsRise(ops) {
      forall i, j | 0 <= i < j < |ops| && ops[i].key == ops[j].key ensures ops[i].fence <= ops[j].fence {
        EntryAfter(ops, i, ops[i].key);
        EntryAfter(ops, j, ops[i].key);
        RisesBetween(ops, i + 1, j + 1, ops[i].key);
      }
    }
    if FencesRise(ops) {
      forall v, key | 0 <= v < |ops| && key in StateAfter(ops[..v])
        ensures key in StateAfter(ops[..v + 1]) && StateAfter(ops[..v])[key].generation <= StateAfter(ops[..v + 1])[key].generation {
        EntryAfter(ops, v, key);
        var i := LastWriter(ops, v, key);
      }
    }
  }

  /** Over every interleaving: the published operations are puts and deletes, and their generations rise exactly when their fences do. */
  lemma RunGenerationsRiseIff(events: seq<Event>)
    requires Legal(START, events)
    ensures NoLookups(After(START, events).ops)
    ensures GenerationsRise(After(START, events).ops) <==> FencesRise(After(START, events).ops)
  {
    ReachedIsValid(events);
    var ops := After(START, events).ops;
    hide StateAfter;
    forall i | 0 <= i < |ops| ensures !ops[i].Lookup? { assert Applies(ops[i], StateAfter(ops[..i])); }
    GenerationsRiseIffFencesRise(ops);
  }

  // ----- a run in which a generation falls

  /** One call without interference. */
  function Solo(c: nat, op: Op): seq<Event>
  {
    [Invoke(c, op), List(c), Get(c), Commit(c)]
  }

  lemma RunCons(s: System, e: Event, rest: seq<Event>)
    requires Enabled(s, e) && Legal(Next(s, e), rest)
    ensures Legal(s, [e] + rest) && After(s, [e] + rest) == After(Next(s, e), rest)
  {
    hide Next, Enabled;
    assert ([e] + rest)[1..] == rest;
  }

  lemma {:induction false} RunConcat(s: System, a: seq<Event>, b: seq<Event>)
    requires Legal(s, a) && Legal(After(s, a), b)
    ensures Legal(s, a + b) && After(s, a + b) == After(After(s, a), b)
    decreases |a|
  {
    hide Next, Enabled;
    if a == [] {
      assert a + b == b;
    } else {
      assert (a + b)[1..] == a[1..] + b;
      RunConcat(Next(s, a[0]), a[1..], b);
    }
  }

  /** A call that applies and is not interfered with is published. */
  lemma SoloTakesEffect(s: System, c: nat, op: Op)
    requires Valid(s) && ClientOf(s, c).Idle? && Applies(op, StateAfter(s.ops))
    ensures Legal(s, Solo(c, op))
    ensures After(s, Solo(c, op)).ops == s.ops + [op] && ClientOf(After(s, Solo(c, op)), c).Idle?
  {
    hide StateAfter, Applies, Apply, Legal, After, Sound, Witnessed;
    var s1, call := SoloInvoked(s, c, op);
    var s2 := Next(s1, List(c));
    var s3 := SoloRead(s, c, op, s1, call);
    var s4 := Next(s3, Commit(c));
    SoloCommitted(s3, c);
    NoEvents(s4);
    assert [Commit(c)] + [] == [Commit(c)] && [Get(c)] + [Commit(c)] == [Get(c), Commit(c)];
    assert [List(c)] + [Get(c), Commit(c)] == [List(c), Get(c), Commit(c)];
    assert [Invoke(c, op)] + [List(c), Get(c), Commit(c)] == Solo(c, op);
    RunCons(s3, Commit(c), []);
    RunCons(s2, Get(c), [Commit(c)]);
    RunCons(s1, List(c), [Get(c), Commit(c)]);
    RunCons(s, Invoke(c, op), [List(c), Get(c), Commit(c)]);
  }

  lemma NoEvents(s: System)
    ensures Legal(s, []) && After(s, []) == s
  {
  }

  lemma SoloInvoked(s: System, c: nat, op: Op) returns (s1: System, call: Call)
    requires Sound(s) && ClientOf(s, c).Idle?
    ensures Enabled(s, Invoke(c, op)) && s1 == Next(s, Invoke(c, op))
    ensures call.op == op && call.tries == 0 && ClientOf(s1, c) == Loading(call)
    ensures s1.ops == s.ops && s1.slots == s.slots
  {
    hide StateAfter, Sound;
    s1, call := Next(s, Invoke(c, op)), Call(op, 0, Newest(s.slots), |s.answers|);
  }

  lemma SoloRead(s: System, c: nat, op: Op, s1: System, call: Call) returns (s3: System)
    requires Sound(s) && Applies(op, StateAfter(s.ops)) && s1.ops == s.ops && s1.slots == s.slots
    requires call.op == op && call.tries == 0 && ClientOf(s1, c) == Loading(call)
    ensures Enabled(s1, List(c)) && Enabled(Next(s1, List(c)), Get(c)) && s3 == Next(Next(s1, List(c)), Get(c))
    ensures s3.ops == s.ops && s3.slots == s.slots && ClientOf(s3, c).Ready? && ClientOf(s3, c).call.op == op
    ensures ClientOf(s3, c).base.version + 1 !in s3.slots
  {
    ChainNewest(s);
    SlotIsState(s, |s.ops|);
    assert s.ops[..|s.ops|] == s.ops;
    hide StateAfter, Applies;
    var s2 := Next(s1, List(c));
    s3 := Next(s2, Get(c));
  }

  lemma SoloCommitted(s: System, c: nat)
    requires ClientOf(s, c).Ready? && ClientOf(s, c).base.version + 1 !in s.slots
    ensures Enabled(s, Commit(c))
    ensures Next(s, Commit(c)).ops == s.ops + [ClientOf(s, c).call.op] && ClientOf(Next(s, Commit(c)), c).Idle?
  {
    hide Newest, Apply;
  }

  /** From the start, a put fenced at `high` and then a delete fenced at `low`. */
  function FallingRun(key: Key, oid: Oid, high: nat, low: nat): seq<Event>
  {
    Solo(0, Put(key, oid, high)) + Solo(0, Delete(key, low))
  }

  /** A stale fence is accepted: both calls of this run succeed, and the key's generation falls. */
  lemma GenerationCanFall(key: Key, oid: Oid, high: nat, low: nat)
    requires low < high
    ensures Legal(START, FallingRun(key, oid, high, low))
    ensures After(START, FallingRun(key, oid, high, low)).ops == [Put(key, oid, high), Delete(key, low)]
    ensures !GenerationsRise(After(START, FallingRun(key, oid, high, low)).ops)
  {
    hide StateAfter, Legal, After, Valid, Applies;
    var put, delete := Put(key, oid, high), Delete(key, low);
    StartIsFree(put);
    SoloTakesEffect(START, 0, put);
    var s := After(START, Solo(0, put));
    assert s.ops == [put];
    HeldAfterPut(key, oid, high, low);
    ReachedIsValid(Solo(0, put));
    SoloTakesEffect(s, 0, delete);
    RunConcat(START, Solo(0, put), Solo(0, delete));
    assert [put] + [delete] == [put, delete];
    var ops := After(START, FallingRun(key, oid, high, low)).ops;
    assert ops[0].key == ops[1].key && ops[0].fence > ops[1].fence;
    RunGenerationsRiseIff(FallingRun(key, oid, high, low));
  }

  lemma HeldAfterPut(key: Key, oid: Oid, high: nat, low: nat)
    ensures Applies(Delete(key, low), StateAfter([Put(key, oid, high)]))
  {
    assert [Put(key, oid, high)][..0] == [];
  }

  lemma StartIsFree(op: Op)
    ensures Valid(START) && ClientOf(START, 0).Idle? && (op.Put? ==> Applies(op, StateAfter(START.ops)))
  {
  }
}
