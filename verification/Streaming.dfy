/** Top-k search: all at once, in batches through a cursor, and the batches themselves. */
module Streaming {
  import opened Sequences
  import opened StableSort
  import opened Text

  type Vec = seq<real>
  datatype Scored = Scored(index: nat, score: real)
  datatype Hit = Hit(id: string, score: real)
  datatype FullHit = FullHit(id: string, score: real, vector: Vec)

  /** The dot product over the common length of the two vectors. */
  function Dot(a: Vec, b: Vec): real
  {
    if a == [] || b == [] then 0.0 else a[0] * b[0] + Dot(a[1..], b[1..])
  }

  function ScoreAll(database: seq<Vec>, query: Vec): (s: seq<Scored>)
    ensures |s| == |database| && forall i :: 0 <= i < |s| ==> s[i].index == i
  {
    seq(|database|, i requires 0 <= i < |database| => Scored(i, Dot(query, database[i])))
  }

  /** The comparator: higher scores first. */
  predicate HigherFirst(a: Scored, b: Scored)
  {
    a.score >= b.score
  }

  /** Higher score first, and among equal scores the earlier vector first. */
  predicate Before(a: Scored, b: Scored)
  {
    a.score > b.score || (a.score == b.score && a.index < b.index)
  }

  /** `sort_by` and `truncate`. */
  function Top(database: seq<Vec>, query: Vec, k: nat): (s: seq<Scored>)
  {
    var sorted := SortBy(ScoreAll(database, query), HigherFirst);
    sorted[..Min(k, |sorted|)]
  }

  function HitOf(s: Scored): Hit
  {
    Hit("vec_" + Decimal(s.index), s.score)
  }

  function HitsOf(ss: seq<Scored>): (hits: seq<Hit>)
    ensures |hits| == |ss| && forall i :: 0 <= i < |ss| ==> hits[i] == HitOf(ss[i])
  {
    seq(|ss|, i requires 0 <= i < |ss| => HitOf(ss[i]))
  }

  function Hits(database: seq<Vec>, query: Vec, k: nat): seq<Hit>
  {
    HitsOf(Top(database, query, k))
  }

  /** The non-streaming search. */
  function OneShot(database: seq<Vec>, query: Vec, k: nat): (r: seq<FullHit>)
  {
    TopIsBest(database, query, k);
    var top := Top(database, query, k);
    seq(|top|, i requires 0 <= i < |top| => FullHit(HitOf(top[i]).id, top[i].score, database[top[i].index]))
  }

  function Strip(r: seq<FullHit>): (hits: seq<Hit>)
    ensures |hits| == |r|
  {
    seq(|r|, i requires 0 <= i < |r| => Hit(r[i].id, r[i].score))
  }

  lemma FirstBefore(x: Scored, s: seq<Scored>)
    requires Sorted(s, Before) && (forall i :: 0 <= i < |s| ==> x.index < s[i].index) && (s != [] ==> HigherFirst(x, s[0]))
    ensures Sorted([x] + s, Before)
  {
    forall y | y in multiset(s) ensures Before(x, y) {
      var i :| 0 <= i < |s| && s[i] == y;
      if i > 0 { assert Before(s[0], s[i]); }
    }
    ConsSorted(x, s, Before);
  }

  lemma BehindHead(x: Scored, h: Scored, s: seq<Scored>, t: seq<Scored>)
    requires Sorted([h] + s, Before) && Sorted(t, Before) && multiset(t) == multiset(s) + multiset{x} && h.score > x.score
    ensures Sorted([h] + t, Before)
  {
    forall y | y in multiset(t) ensures Before(h, y) {
      if y != x {
        assert y in multiset(s);
        var i :| 0 <= i < |s| && s[i] == y;
        assert Before(([h] + s)[0], ([h] + s)[i + 1]);
      }
    }
    ConsSorted(h, t, Before);
  }

  /** Inserting a vector in front of later ones keeps them in order. */
  lemma {:induction false} InsertBefore(x: Scored, s: seq<Scored>)
    requires Sorted(s, Before) && forall i :: 0 <= i < |s| ==> x.index < s[i].index
    ensures Sorted(Insert(x, s, HigherFirst), Before)
    ensures multiset(Insert(x, s, HigherFirst)) == multiset(s) + multiset{x}
  {
    if s == [] || HigherFirst(x, s[0]) {
      FirstBefore(x, s);
    } else {
      hide Before;
      assert s == [s[0]] + s[1..];
      InsertBefore(x, s[1..]);
      BehindHead(x, s[0], s[1..], Insert(x, s[1..], HigherFirst));
    }
  }

  ghost predicate Rising(s: seq<Scored>)
  {
    forall i, j :: 0 <= i < j < |s| ==> s[i].index < s[j].index
  }

  lemma {:induction false} SortBefore(s: seq<Scored>)
    requires Rising(s)
    ensures Sorted(SortBy(s, HigherFirst), Before) && multiset(SortBy(s, HigherFirst)) == multiset(s)
    ensures |SortBy(s, HigherFirst)| == |s|
  {
    hide Before, Insert;
    if s != [] {
      var t := SortBy(s[1..], HigherFirst);
      SortBefore(s[1..]);
      LaterOnes(s, t);
      InsertBefore(s[0], t);
      assert s == [s[0]] + s[1..];
    }
    SameLength(SortBy(s, HigherFirst), s);
  }

  lemma LaterOnes(s: seq<Scored>, t: seq<Scored>)
    requires s != [] && Rising(s) && multiset(t) == multiset(s[1..])
    ensures forall i :: 0 <= i < |t| ==> s[0].index < t[i].index
  {
    forall i | 0 <= i < |t| ensures s[0].index < t[i].index {
      assert t[i] in multiset(s[1..]);
      var j :| 0 <= j < |s[1..]| && s[1..][j] == t[i];
    }
  }

  lemma SameLength(a: seq<Scored>, b: seq<Scored>)
    requires multiset(a) == multiset(b)
    ensures |a| == |b|
  {
    assert |multiset(a)| == |multiset(b)|;
  }

  /**
   The search returns the k best vectors in order: every returned vector comes before every
   vector left out, ties go to the earlier vector, and no vector is returned twice.
   */
  lemma TopIsBest(database: seq<Vec>, query: Vec, k: nat)
    ensures
      var top, all := Top(database, query, k), ScoreAll(database, query);
      && |top| == Min(k, |database|) && Sorted(top, Before)
      && (forall i :: 0 <= i < |top| ==> top[i].index < |database| && top[i] == all[top[i].index])
      && (forall i, j :: 0 <= i < |top| && 0 <= j < |all| && all[j] !in top ==> Before(top[i], all[j]))
  {
    var all := ScoreAll(database, query);
    SortBefore(all);
    var sorted := SortBy(all, HigherFirst);
    hide SortBy, ScoreAll, Before;
    var n := Min(k, |sorted|);
    forall i | 0 <= i < n ensures sorted[i].index < |database| && sorted[i] == all[sorted[i].index] {
      OwnIndex(all, sorted, i);
    }
    forall i, j | 0 <= i < n && 0 <= j < |all| && all[j] !in sorted[..n] ensures Before(sorted[i], all[j]) {
      assert all[j] in multiset(sorted);
      LeftOutComesAfter(sorted, n, i, all[j]);
    }
  }

  lemma OwnIndex(all: seq<Scored>, sorted: seq<Scored>, i: nat)
    requires (forall j :: 0 <= j < |all| ==> all[j].index == j) && multiset(sorted) == multiset(all) && i < |sorted|
    ensures sorted[i].index < |all| && sorted[i] == all[sorted[i].index]
  {
    assert sorted[i] in multiset(all);
  }

  lemma LeftOutComesAfter(sorted: seq<Scored>, n: nat, i: nat, x: Scored)
    requires Sorted(sorted, Before) && i < n <= |sorted| && x in sorted && x !in sorted[..n]
    ensures Before(sorted[i], x)
  {
    hide Before;
    var m :| 0 <= m < |sorted| && sorted[m] == x;
    assert forall l :: 0 <= l < n ==> sorted[..n][l] == sorted[l];
  }

  /** The one-shot search and the streamed hits agree on ids and scores. */
  lemma OneShotHasHits(database: seq<Vec>, query: Vec, k: nat)
    ensures Strip(OneShot(database, query, k)) == Hits(database, query, k)
  {
  }

  // ----- batches

  /** `chunks(b)`. */
  function Chunks<T>(s: seq<T>, b: nat): seq<seq<T>>
    requires b > 0
    decreases |s|
  {
    if s == [] then [] else [s[..Min(b, |s|)]] + Chunks(s[Min(b, |s|)..], b)
  }

  function Concat<T>(ss: seq<seq<T>>): seq<T>
  {
    if ss == [] then [] else ss[0] + Concat(ss[1..])
  }

  /** Batches hold the list in order, and there are ceil(n/b) of them. */
  lemma {:induction false} ChunksLaws<T>(s: seq<T>, b: nat)
    requires b > 0
    ensures Concat(Chunks(s, b)) == s
    ensures |s| <= b * |Chunks(s, b)| < |s| + b
    decreases |s|
  {
    if s != [] {
      var n := Min(b, |s|);
      var rest := Chunks(s[n..], b);
      ChunksLaws(s[n..], b);
      assert s == s[..n] + s[n..];
      assert ([s[..n]] + rest)[1..] == rest;
      OneMoreBatch(|s|, b, |rest|);
    }
  }

  lemma OneMoreBatch(n: nat, b: nat, rest: nat)
    requires n > 0 && b > 0 && n - Min(b, n) <= b * rest < n - Min(b, n) + b
    ensures n <= b * (1 + rest) < n + b
  {
    assert b * (1 + rest) == b + b * rest;
    assert rest >= 1 ==> b * rest >= b;
  }

  /** No batch is empty, none is over-full, and all but the last are full. */
  lemma {:induction false} ChunkSizes<T>(s: seq<T>, b: nat, i: nat)
    requires b > 0 && i < |Chunks(s, b)|
    ensures 0 < |Chunks(s, b)[i]| <= b
    ensures i < |Chunks(s, b)| - 1 ==> |Chunks(s, b)[i]| == b
    decreases |s|
  {
    if i > 0 { ChunkSizes(s[Min(b, |s|)..], b, i - 1); }
  }

  lemma {:induction false} ChunksOfHits(ss: seq<Scored>, b: nat, i: nat)
    requires b > 0 && i < |Chunks(ss, b)|
    ensures |Chunks(HitsOf(ss), b)| == |Chunks(ss, b)| && Chunks(HitsOf(ss), b)[i] == HitsOf(Chunks(ss, b)[i])
    decreases |ss|
  {
    var n := Min(b, |ss|);
    assert HitsOf(ss)[n..] == HitsOf(ss[n..]) && HitsOf(ss)[..n] == HitsOf(ss[..n]);
    if i > 0 {
      ChunksOfHits(ss[n..], b, i - 1);
    } else if ss[n..] != [] {
      ChunksOfHits(ss[n..], b, 0);
    }
  }

  /** What the sender sends: each chunk of the scored list, turned into hits. */
  function Batches(database: seq<Vec>, query: Vec, k: nat, b: nat): (bs: seq<seq<Hit>>)
    requires b > 0
  {
    var chunks := Chunks(Top(database, query, k), b);
    seq(|chunks|, i requires 0 <= i < |chunks| => HitsOf(chunks[i]))
  }

  /** Chunking the scored list and turning it into hits commute. */
  lemma BatchesAreChunks(database: seq<Vec>, query: Vec, k: nat, b: nat)
    requires b > 0
    ensures Batches(database, query, k, b) == Chunks(Hits(database, query, k), b)
  {
    var top := Top(database, query, k);
    if top != [] { ChunksOfHits(top, b, 0); }
    forall i | 0 <= i < |Chunks(top, b)| ensures Batches(database, query, k, b)[i] == Chunks(HitsOf(top), b)[i] {
      ChunksOfHits(top, b, i);
    }
  }

  // ----- the cursor

  class StreamingIterator {
    const results: seq<Hit>
    const batchSize: nat
    var position: nat

    /** The batches still to come; a batch size of 0 yields none. */
    ghost function Rest(): seq<seq<Hit>>
      reads this
    {
      if batchSize == 0 || position > |results| then [] else Chunks(results[position..], batchSize)
    }

    constructor (results: seq<Hit>, batchSize: nat)
      ensures this.results == results && this.batchSize == batchSize && position == 0
      ensures Rest() == if batchSize == 0 then [] else Chunks(results, batchSize)
    {
      this.results, this.batchSize, position := results, batchSize, 0;
      new;
      assert results[0..] == results;
    }

    /** `next`: the first of the remaining batches, or nothing when there is none. */
    method Next() returns (r: Option<seq<Hit>>)
      modifies this
      ensures old(Rest()) == [] ==> r.None? && Rest() == [] && position == old(position)
      ensures old(Rest()) != [] ==> r == Some(old(Rest())[0]) && Rest() == old(Rest())[1..]
      ensures old(position) <= |results| ==> old(position) <= position <= |results|
    {
      if position >= |results| { return None; }
      var end := Min(position + batchSize, |results|);
      var batch := results[position..end];
      assert batchSize > 0 ==> results[position..][..end - position] == batch && results[position..][end - position..] == results[end..];
      position := end;
      r := if batch == [] then None else Some(batch);
    }
  }

  /** Searching in batches: the iterator over the hits. */
  method StreamingSearch(database: seq<Vec>, query: Vec, k: nat, batchSize: nat) returns (it: StreamingIterator)
    ensures fresh(it) && it.Rest() == if batchSize == 0 then [] else Batches(database, query, k, batchSize)
  {
    it := new StreamingIterator(Hits(database, query, k), batchSize);
    if batchSize > 0 { BatchesAreChunks(database, query, k, batchSize); }
  }

  /** Drawing the iterator to its end yields every batch, in order. */
  method Drain(it: StreamingIterator) returns (batches: seq<seq<Hit>>)
    modifies it
    ensures batches == old(it.Rest()) && it.Rest() == []
  {
    hide *;
    batches := [];
    ghost var all := it.Rest();
    var batch := it.Next();
    while batch.Some?
      invariant batch.Some? ==> all == batches + [batch.value] + it.Rest()
      invariant batch.None? ==> all == batches && it.Rest() == []
      decreases |it.Rest()|, if batch.Some? then 1 else 0
    {
      batches := batches + [batch.value];
      batch := it.Next();
    }
  }
}
