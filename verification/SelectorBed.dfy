/**
 The generated inputs of the selector benchmark: ground truths, candidate pools and queries.
 Shuffles, counts and scores are drawn, so they are parameters; what the generator does with
 them makes the bed the coverage ceiling and the cascades ask for.
 */
module SelectorBed {
  import opened Sequences
  import opened Text
  import opened Ranking
  import opened Pools
  import opened Selectors
  import opened Harness

  datatype GenConfig = GenConfig(documents: nat, queries: nat, poolSize: nat, vectorRate: real, bm25Rate: real)

  /** One retriever's draws for a query: the two shuffles and the score of each candidate. */
  datatype Retrieval = Retrieval(relevant: seq<string>, others: seq<string>, score: nat -> real)

  /** The draws for a query: how many documents are relevant, out of which shuffle, and what each retriever draws. */
  datatype Draw = Draw(count: nat, order: seq<string>, vector: Retrieval, bm25: Retrieval)

  function DocId(i: nat): string { "doc" + Decimal(i) }
  function QueryId(q: nat): string { "query" + Decimal(q) }

  function Documents(c: GenConfig): (docs: seq<string>)
    ensures |docs| == AtLeastOne(c.documents)
  {
    seq(AtLeastOne(c.documents), i requires 0 <= i < AtLeastOne(c.documents) => DocId(i))
  }

  /** `sample_relevant_docs`: the first documents of a shuffle. */
  function Relevant(d: Draw): seq<string>
  {
    d.order[..Min(d.count, |d.order|)]
  }

  function NotIn(docs: seq<string>): string -> bool
  {
    (id: string) => id !in docs
  }

  function Others(c: GenConfig, d: Draw): seq<string>
  {
    Filter(Documents(c), NotIn(Relevant(d)))
  }

  /** The draws are in the ranges the generator asks for: a count of at least 1, and shuffles. */
  ghost predicate InRange(c: GenConfig, d: Draw)
  {
    && 1 <= d.count <= AtLeastOne(c.documents) && multiset(d.order) == multiset(Documents(c))
    && multiset(d.vector.relevant) == multiset(Relevant(d)) == multiset(d.bm25.relevant)
    && multiset(d.vector.others) == multiset(Others(c, d)) == multiset(d.bm25.others)
  }

  /** `round` on a number that is not negative. */
  function Rounded(x: real): nat
  {
    if x < 0.0 then 0 else (x + 0.5).Floor
  }

  /** The documents one retriever returns: some relevant ones, then distractors up to the pool size. */
  function Listed(t: Retrieval, poolSize: nat, rate: real): seq<string>
  {
    var r := Min(Rounded(poolSize as real * Clamp(rate)), |t.relevant|);
    var o := Min(if poolSize < r then 0 else poolSize - r, |t.others|);
    t.relevant[..r] + t.others[..o]
  }

  function Candidates(t: Retrieval, docs: seq<string>, source: Source): (cs: seq<Candidate>)
    ensures |cs| == |docs| && forall i :: 0 <= i < |cs| ==> cs[i] == Candidate(docs[i], t.score(i), source)
  {
    seq(|docs|, i requires 0 <= i < |docs| => Candidate(docs[i], t.score(i), source))
  }

  method BuildRanking(t: Retrieval, poolSize: nat, rate: real, source: Source) returns (cs: seq<Candidate>)
    ensures cs == SortCandidates(Candidates(t, Listed(t, AtLeastOne(poolSize), rate), source))
  {
    var docs := Listed(t, AtLeastOne(poolSize), rate);
    cs := [];
    for i := 0 to |docs|
      invariant cs == Candidates(t, docs, source)[..i]
    {
      cs := cs + [Candidate(docs[i], t.score(i), source)];
    }
    assert Candidates(t, docs, source)[..|docs|] == Candidates(t, docs, source);
    cs := SortCandidates(cs);
  }

  // ----- what is drawn does not repeat

  lemma DocumentsDistinct(c: GenConfig)
    ensures Distinct(Documents(c))
  {
    hide AtLeastOne;
    var docs := Documents(c);
    forall i, j | 0 <= i < j < |docs| ensures docs[i] != docs[j] {
      assert DocId(i)[3..] == Decimal(i) && DocId(j)[3..] == Decimal(j);
      if Decimal(i) == Decimal(j) { DecimalInjective(i, j); }
    }
  }

  lemma QueryIdInjective(p: nat, q: nat)
    ensures QueryId(p) == QueryId(q) <==> p == q
  {
    if QueryId(p) == QueryId(q) {
      assert QueryId(p)[5..] == Decimal(p) && QueryId(q)[5..] == Decimal(q);
      DecimalInjective(p, q);
    }
  }

  lemma PrefixDistinct(s: seq<string>, n: nat)
    requires Distinct(s) && n <= |s|
    ensures Distinct(s[..n])
  {
  }

  lemma {:induction false} FilterDistinct(s: seq<string>, p: string -> bool)
    requires Distinct(s)
    ensures Distinct(Filter(s, p))
  {
    if s != [] {
      FilterDistinct(s[1..], p);
      assert s[0] !in s[1..];
    }
  }

  /** The relevant documents of a query do not repeat. */
  lemma RelevantDistinct(c: GenConfig, d: Draw)
    requires InRange(c, d)
    ensures Distinct(Relevant(d))
  {
    DocumentsDistinct(c);
    DistinctPermutation(Documents(c), d.order);
    PrefixDistinct(d.order, Min(d.count, |d.order|));
  }

  lemma ListedDistinct(c: GenConfig, d: Draw, t: Retrieval, poolSize: nat, rate: real)
    requires InRange(c, d) && multiset(t.relevant) == multiset(Relevant(d)) && multiset(t.others) == multiset(Others(c, d))
    ensures Distinct(Listed(t, poolSize, rate))
  {
    RelevantDistinct(c, d);
    DocumentsDistinct(c);
    FilterDistinct(Documents(c), NotIn(Relevant(d)));
    hide Relevant, Documents, InRange, Rounded, Clamp, Filter;
    DistinctPermutation(Relevant(d), t.relevant);
    DistinctPermutation(Others(c, d), t.others);
    forall x, y | x in t.relevant && y in t.others ensures x != y {
      assert x in multiset(Relevant(d)) && y in multiset(Others(c, d));
      assert x in Relevant(d) && y in Others(c, d);
    }
    PartsDistinct(t.relevant, t.others, Min(Rounded(poolSize as real * Clamp(rate)), |t.relevant|),
                  |Listed(t, poolSize, rate)| - Min(Rounded(poolSize as real * Clamp(rate)), |t.relevant|));
  }

  lemma PartsDistinct(a: seq<string>, b: seq<string>, m: nat, n: nat)
    requires Distinct(a) && Distinct(b) && m <= |a| && n <= |b| && forall x, y :: x in a && y in b ==> x != y
    ensures Distinct(a[..m] + b[..n])
  {
    var s := a[..m] + b[..n];
    forall i, j | 0 <= i < j < |s| ensures s[i] != s[j] {
      if i < m <= j { assert a[i] in a && b[j - m] in b; }
    }
  }

  // ----- the bed

  ghost predicate IsPool(c: GenConfig, d: Draw, q: nat, pool: CandidatePool)
  {
    var n := AtLeastOne(c.poolSize);
    && pool.queryId == QueryId(q)
    && pool.vector == SortCandidates(Candidates(d.vector, Listed(d.vector, n, c.vectorRate), Vector))
    && pool.bm25 == SortCandidates(Candidates(d.bm25, Listed(d.bm25, n, c.bm25Rate), BM25))
    && IsUnion(pool.vector + pool.bm25, pool.union)
  }

  method GeneratePool(c: GenConfig, d: Draw, q: nat) returns (pool: CandidatePool)
    ensures IsPool(c, d, q, pool)
  {
    hide IsUnion, Listed, Candidates, SortCandidates;
    var vector := BuildRanking(d.vector, c.poolSize, c.vectorRate, Vector);
    var bm25 := BuildRanking(d.bm25, c.poolSize, c.bm25Rate, BM25);
    var union := UnionOf(vector, bm25);
    pool := CandidatePool(QueryId(q), vector, bm25, union);
  }

  /** Query `q` with its ground truth and pool. */
  ghost predicate HasQuery(c: GenConfig, d: Draw, q: nat, bed: Bed)
  {
    && q < |bed.queries| == |bed.truths|
    && bed.queries[q] == QueryId(q) && bed.truths[q] == GroundTruth(QueryId(q), Relevant(d))
    && QueryId(q) in bed.pools && IsPool(c, d, q, bed.pools[QueryId(q)])
  }

  ghost predicate IsQuery(n: nat, id: string)
  {
    exists q :: 0 <= q < n && id == QueryId(q)
  }

  /** The first `n` queries, and no pool for any other. */
  ghost predicate IsBed(c: GenConfig, draw: nat -> Draw, n: nat, bed: Bed)
  {
    && |bed.queries| == |bed.truths| == n
    && (forall q :: 0 <= q < n ==> HasQuery(c, draw(q), q, bed))
    && (forall id :: id in bed.pools ==> IsQuery(n, id))
  }

  function Extended(bed: Bed, n: nat, d: Draw, pool: CandidatePool): Bed
  {
    Bed(bed.queries + [QueryId(n)], bed.pools[QueryId(n) := pool], bed.truths + [GroundTruth(QueryId(n), Relevant(d))], bed.noise)
  }

  lemma BedNext(c: GenConfig, draw: nat -> Draw, n: nat, bed: Bed, pool: CandidatePool)
    requires IsBed(c, draw, n, bed) && IsPool(c, draw(n), n, pool)
    ensures IsBed(c, draw, n + 1, Extended(bed, n, draw(n), pool))
  {
    hide HasQuery, IsPool, QueryId, Relevant, IsQuery;
    var next := Extended(bed, n, draw(n), pool);
    forall q | 0 <= q < n + 1 ensures HasQuery(c, draw(q), q, next) {
      if q < n { QueryStays(c, draw(q), q, bed, n, draw(n), pool); } else { QueryAdded(c, draw(n), n, bed, pool); }
    }
    forall id | id in next.pools ensures IsQuery(n + 1, id) { QueryKnown(n, id); }
  }

  lemma QueryStays(c: GenConfig, d: Draw, q: nat, bed: Bed, n: nat, e: Draw, pool: CandidatePool)
    requires HasQuery(c, d, q, bed) && q < n
    ensures HasQuery(c, d, q, Extended(bed, n, e, pool))
  {
    hide IsPool, QueryId, Relevant;
    QueryIdInjective(q, n);
  }

  lemma QueryAdded(c: GenConfig, d: Draw, n: nat, bed: Bed, pool: CandidatePool)
    requires |bed.queries| == |bed.truths| == n && IsPool(c, d, n, pool)
    ensures HasQuery(c, d, n, Extended(bed, n, d, pool))
  {
    hide IsPool, QueryId, Relevant;
  }

  lemma QueryKnown(n: nat, id: string)
    ensures IsQuery(n, id) || id == QueryId(n) ==> IsQuery(n + 1, id)
  {
    hide QueryId;
  }

  method GenerateBenchmarkData(c: GenConfig, draw: nat -> Draw, noise: string -> nat -> real) returns (bed: Bed)
    requires forall q :: 0 <= q < c.queries ==> InRange(c, draw(q))
    ensures IsBed(c, draw, c.queries, bed) && bed.noise == noise && GoodBed(bed)
    ensures forall id :: id in bed.pools ==> Distinct(Ids(bed.pools[id].vector)) && Distinct(Ids(bed.pools[id].bm25))
  {
    hide IsPool, InRange, GoodBed, Relevant, HasQuery, IsQuery;
    bed := Bed([], map[], [], noise);
    for q := 0 to c.queries
      invariant IsBed(c, draw, q, bed) && bed.noise == noise
    {
      var pool := GeneratePool(c, draw(q), q);
      BedNext(c, draw, q, bed, pool);
      bed := Extended(bed, q, draw(q), pool);
    }
    GeneratedIsGood(c, draw, c.queries, bed);
    GeneratedRankingsDistinct(c, draw, c.queries, bed);
  }

  /** Each retriever's ranking holds a document at most once. */
  lemma GeneratedRankingsDistinct(c: GenConfig, draw: nat -> Draw, n: nat, bed: Bed)
    requires IsBed(c, draw, n, bed) && forall q :: 0 <= q < n ==> InRange(c, draw(q))
    ensures forall id :: id in bed.pools ==> Distinct(Ids(bed.pools[id].vector)) && Distinct(Ids(bed.pools[id].bm25))
  {
    hide InRange, IsPool, QueryId, Relevant, Distinct;
    forall id | id in bed.pools ensures Distinct(Ids(bed.pools[id].vector)) && Distinct(Ids(bed.pools[id].bm25)) {
      assert IsQuery(n, id);
      var q :| 0 <= q < n && id == QueryId(q);
      assert HasQuery(c, draw(q), q, bed);
      PoolDistinct(c, draw(q), q, bed.pools[id]);
    }
  }

  lemma PoolDistinct(c: GenConfig, d: Draw, q: nat, pool: CandidatePool)
    requires InRange(c, d) && IsPool(c, d, q, pool)
    ensures Distinct(Ids(pool.vector)) && Distinct(Ids(pool.bm25))
  {
    var n := AtLeastOne(c.poolSize);
    ListedDistinct(c, d, d.vector, n, c.vectorRate);
    ListedDistinct(c, d, d.bm25, n, c.bm25Rate);
    hide Listed, InRange, IsUnion, SortCandidates, Distinct;
    SortedDistinct(d.vector, Listed(d.vector, n, c.vectorRate), Vector);
    SortedDistinct(d.bm25, Listed(d.bm25, n, c.bm25Rate), BM25);
  }

  lemma SortedDistinct(t: Retrieval, docs: seq<string>, source: Source)
    requires Distinct(docs)
    ensures Distinct(Ids(SortCandidates(Candidates(t, docs, source))))
  {
    assert Ids(Candidates(t, docs, source)) == docs;
    SortDescends(Candidates(t, docs, source));
  }

  /** The generated bed is one on which the coverage ceiling holds. */
  lemma GeneratedIsGood(c: GenConfig, draw: nat -> Draw, n: nat, bed: Bed)
    requires IsBed(c, draw, n, bed) && forall q :: 0 <= q < n ==> InRange(c, draw(q))
    ensures GoodBed(bed)
  {
    hide *;
    QueriesAreTruths(c, draw, n, bed);
    RelevantsDistinct(c, draw, n, bed);
    PoolsAreUnions(c, draw, n, bed);
    GoodBedIs(bed);
  }

  lemma GoodBedIs(bed: Bed)
    requires Complete(bed, bed.queries) && Distinct(bed.queries) && TruthIds(bed.truths) == bed.queries
    requires forall i :: 0 <= i < |bed.truths| ==> Distinct(bed.truths[i].relevant)
    requires forall q :: q in bed.pools ==> IsUnion(bed.pools[q].vector + bed.pools[q].bm25, bed.pools[q].union)
    ensures GoodBed(bed)
  {
    hide Complete, IsUnion;
  }

  lemma QueriesAreTruths(c: GenConfig, draw: nat -> Draw, n: nat, bed: Bed)
    requires IsBed(c, draw, n, bed)
    ensures Complete(bed, bed.queries) && Distinct(bed.queries) && TruthIds(bed.truths) == bed.queries
  {
    hide QueryId, Relevant, IsPool, FindTruth;
    forall q | 0 <= q < n ensures bed.queries[q] == QueryId(q) == bed.truths[q].queryId && QueryId(q) in bed.pools {
      assert HasQuery(c, draw(q), q, bed);
    }
    assert TruthIds(bed.truths) == bed.queries;
    forall p, q | 0 <= p < q < n ensures bed.queries[p] != bed.queries[q] { QueryIdInjective(p, q); }
    forall id | id in bed.queries ensures id in bed.pools && FindTruth(bed.truths, id).Some? {
      assert id in TruthIds(bed.truths);
    }
  }

  lemma RelevantsDistinct(c: GenConfig, draw: nat -> Draw, n: nat, bed: Bed)
    requires IsBed(c, draw, n, bed) && forall q :: 0 <= q < n ==> InRange(c, draw(q))
    ensures forall i :: 0 <= i < |bed.truths| ==> Distinct(bed.truths[i].relevant)
  {
    hide QueryId, Relevant, IsPool, InRange, Distinct;
    forall q | 0 <= q < n ensures Distinct(bed.truths[q].relevant) {
      assert HasQuery(c, draw(q), q, bed);
      RelevantDistinct(c, draw(q));
    }
  }

  lemma PoolsAreUnions(c: GenConfig, draw: nat -> Draw, n: nat, bed: Bed)
    requires IsBed(c, draw, n, bed)
    ensures forall id :: id in bed.pools ==> IsUnion(bed.pools[id].vector + bed.pools[id].bm25, bed.pools[id].union)
  {
    hide QueryId, Relevant, IsUnion, SortCandidates, Listed, Candidates;
    forall id | id in bed.pools ensures IsUnion(bed.pools[id].vector + bed.pools[id].bm25, bed.pools[id].union) {
      assert IsQuery(n, id);
      var q :| 0 <= q < n && id == QueryId(q);
      assert HasQuery(c, draw(q), q, bed);
    }
  }
}
