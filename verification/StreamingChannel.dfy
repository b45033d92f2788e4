/**
 The channel form of the search: a sender puts the batches into a bounded channel of
 capacity 4 while the caller receives, in every interleaving, and may walk away.
 */
module StreamingChannel {
  import opened Streaming

  type Batch = seq<Hit>

  const CAPACITY: nat := 4

  /** The receiver is listening, has seen the end of the stream, or was dropped. */
  datatype Receiver = Listening | AtEnd | Dropped

  /** `lost` holds the batches that were in the channel when the receiver was dropped. */
  datatype State = State(unsent: seq<Batch>, channel: seq<Batch>, received: seq<Batch>, lost: seq<Batch>, sending: bool, receiver: Receiver)

  datatype Event = Send | SendFails | Finish | Receive | ReceiveEnd | Drop

  predicate Legal(s: State, e: Event)
  {
    match e
    case Send => s.sending && s.unsent != [] && s.receiver != Dropped && |s.channel| < CAPACITY
    case SendFails => s.sending && s.unsent != [] && s.receiver == Dropped
    case Finish => s.sending && s.unsent == []
    case Receive => s.receiver == Listening && s.channel != []
    case ReceiveEnd => s.receiver == Listening && s.channel == [] && !s.sending
    case Drop => s.receiver == Listening
  }

  function Step(s: State, e: Event): State
    requires Legal(s, e)
  {
    match e
    case Send => s.(unsent := s.unsent[1..], channel := s.channel + [s.unsent[0]])
    case SendFails => s.(sending := false)
    case Finish => s.(sending := false)
    case Receive => s.(channel := s.channel[1..], received := s.received + [s.channel[0]])
    case ReceiveEnd => s.(receiver := AtEnd)
    case Drop => s.(receiver := Dropped, channel := [], lost := s.channel)
  }

  function Start(batches: seq<Batch>): State
  {
    State(batches, [], [], [], true, Listening)
  }

  ghost predicate LegalRun(s: State, run: seq<Event>)
    decreases |run|
  {
    run == [] || (Legal(s, run[0]) && LegalRun(Step(s, run[0]), run[1..]))
  }

  ghost function After(s: State, run: seq<Event>): State
    requires LegalRun(s, run)
    decreases |run|
  {
    if run == [] then s else After(Step(s, run[0]), run[1..])
  }

  /** Nothing is reordered, duplicated or dropped, and the channel is never over-full. */
  ghost predicate Conserves(batches: seq<Batch>, s: State)
  {
    && s.received + s.lost + s.channel + s.unsent == batches
    && |s.channel| <= CAPACITY
    && (s.receiver == Dropped ==> s.channel == [])
    && (s.receiver != Dropped ==> s.lost == [])
    && (s.receiver != Dropped && !s.sending ==> s.unsent == [])
    && (s.receiver == AtEnd ==> s.channel == [] && !s.sending)
  }

  lemma StepConserves(batches: seq<Batch>, s: State, e: Event)
    requires Conserves(batches, s) && Legal(s, e)
    ensures Conserves(batches, Step(s, e))
  {
    if e == Send {
      assert s.unsent == [s.unsent[0]] + s.unsent[1..];
      assert s.received + s.lost + s.channel + s.unsent == s.received + s.lost + (s.channel + [s.unsent[0]]) + s.unsent[1..];
    } else if e == Receive {
      assert s.channel == [s.channel[0]] + s.channel[1..];
      assert s.received + s.lost + s.channel == s.received + [s.channel[0]] + s.lost + s.channel[1..];
    }
  }

  lemma {:induction false} RunConserves(batches: seq<Batch>, s: State, run: seq<Event>)
    requires Conserves(batches, s) && LegalRun(s, run)
    ensures Conserves(batches, After(s, run))
    decreases |run|
  {
    hide Conserves;
    if run != [] {
      StepConserves(batches, s, run[0]);
      RunConserves(batches, Step(s, run[0]), run[1..]);
    }
  }

  /** In every reachable state: received, channel and unsent together are the batches, in order, with at most 4 buffered. */
  lemma EveryRunConserves(batches: seq<Batch>, run: seq<Event>)
    requires LegalRun(Start(batches), run)
    ensures Conserves(batches, After(Start(batches), run))
    ensures After(Start(batches), run).received <= batches
  {
    RunConserves(batches, Start(batches), run);
  }

  // ----- progress

  function Measure(s: State): nat
  {
    2 * |s.unsent| + |s.channel| + (if s.sending then 1 else 0) + (if s.receiver == Listening then 1 else 0)
  }

  /** Every run is finite: each step uses up part of a bounded amount of work. */
  lemma {:induction false} RunIsBounded(s: State, run: seq<Event>)
    requires LegalRun(s, run)
    ensures |run| + Measure(After(s, run)) <= Measure(s)
    decreases |run|
  {
    if run != [] {
      RunIsBounded(Step(s, run[0]), run[1..]);
    }
  }

  /** Some step other than walking away. */
  ghost predicate CanMove(s: State)
  {
    exists e :: e != Drop && Legal(s, e)
  }

  /** The two sides never wait for each other: a reachable state without a next step is a finished one. */
  lemma NoDeadlock(batches: seq<Batch>, s: State)
    requires Conserves(batches, s)
    ensures !CanMove(s) <==> !s.sending && s.receiver != Listening
  {
    if s.sending {
      if s.unsent == [] { assert Legal(s, Finish); }
      else if s.receiver == Dropped { assert Legal(s, SendFails); }
      else if |s.channel| < CAPACITY { assert Legal(s, Send); }
      else { assert Legal(s, Receive); }
    } else if s.receiver == Listening {
      assert if s.channel == [] then Legal(s, ReceiveEnd) else Legal(s, Receive);
    }
  }

  /**
   A run that goes on until nothing can move either reached the end of the stream and has
   delivered every batch, or was cut short by the receiver, who holds a prefix of the batches.
   No run takes more than two steps per batch and two more.
   */
  lemma FullRun(batches: seq<Batch>, run: seq<Event>)
    requires LegalRun(Start(batches), run) && !CanMove(After(Start(batches), run))
    ensures
      var s := After(Start(batches), run);
      && |run| <= 2 * |batches| + 2
      && (s.receiver == AtEnd || s.receiver == Dropped)
      && (s.receiver == AtEnd ==> s.received == batches)
      && (s.receiver == Dropped ==> s.received <= batches)
  {
    EveryRunConserves(batches, run);
    RunIsBounded(Start(batches), run);
    NoDeadlock(batches, After(Start(batches), run));
  }

  /** A full run that nobody cut short delivers the one-shot search's ids and scores in ceil(n/b) batches. */
  lemma FullRunDelivers(database: seq<Vec>, query: Vec, k: nat, b: nat, run: seq<Event>)
    requires b > 0 && LegalRun(Start(Batches(database, query, k, b)), run)
    requires !CanMove(After(Start(Batches(database, query, k, b)), run)) && Drop !in run
    ensures
      var s, hits := After(Start(Batches(database, query, k, b)), run), Strip(OneShot(database, query, k));
      Concat(s.received) == hits && |hits| <= b * |s.received| < |hits| + b
  {
    var batches := Batches(database, query, k, b);
    FullRun(batches, run);
    NotDropped(Start(batches), run);
    BatchesAreChunks(database, query, k, b);
    ChunksLaws(Hits(database, query, k), b);
    OneShotHasHits(database, query, k);
  }

  lemma {:induction false} NotDropped(s: State, run: seq<Event>)
    requires LegalRun(s, run) && Drop !in run && s.receiver != Dropped
    ensures After(s, run).receiver != Dropped
    decreases |run|
  {
    if run != [] { NotDropped(Step(s, run[0]), run[1..]); }
  }
}
