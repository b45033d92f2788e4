/** The harness: run a selector on every query and measure its results against the coverage ceiling. */
module Harness {
  import opened Sequences
  import opened Ranking
  import opened Pools
  import opened Selectors
  import opened SelectorTheorems
  import opened Metrics

  datatype Outcome<T> = Done(value: T) | MissingPool(queryId: string) | MissingTruth(queryId: string)

  /** The inputs all selectors share: queries, pools, ground truth, and the seeded noise per query. */
  datatype Bed = Bed(queries: seq<string>, pools: map<string, CandidatePool>, truths: seq<GroundTruth>, noise: string -> nat -> real)

  function TruthIds(truths: seq<GroundTruth>): (ids: seq<string>)
    ensures |ids| == |truths| && forall i :: 0 <= i < |truths| ==> ids[i] == truths[i].queryId
  {
    seq(|truths|, i requires 0 <= i < |truths| => truths[i].queryId)
  }

  /** The first ground truth for the query. */
  function FindTruth(truths: seq<GroundTruth>, id: string): (r: Option<GroundTruth>)
    ensures r.Some? ==> r.value in truths && r.value.queryId == id
    ensures r.None? ==> id !in TruthIds(truths)
  {
    if truths == [] then None
    else if truths[0].queryId == id then Some(truths[0])
    else
      assert TruthIds(truths) == [truths[0].queryId] + TruthIds(truths[1..]);
      FindTruth(truths[1..], id)
  }

  lemma {:induction false} FindTruthAt(truths: seq<GroundTruth>, i: nat)
    requires Distinct(TruthIds(truths)) && i < |truths|
    ensures FindTruth(truths, truths[i].queryId) == Some(truths[i])
  {
    if i > 0 {
      assert TruthIds(truths)[0] != TruthIds(truths)[i];
      assert TruthIds(truths[1..]) == TruthIds(truths)[1..];
      assert forall j, k :: 0 <= j < k < |truths| - 1 ==> TruthIds(truths)[1..][j] != TruthIds(truths)[1..][k];
      FindTruthAt(truths[1..], i - 1);
    }
  }

  function RelevantTo(truths: seq<GroundTruth>, id: string): seq<string>
  {
    var truth := FindTruth(truths, id);
    if truth.None? then [] else truth.value.relevant
  }

  ghost predicate Complete(bed: Bed, queries: seq<string>)
  {
    forall q :: q in queries ==> q in bed.pools && FindTruth(bed.truths, q).Some?
  }

  ghost predicate RanksBed(config: Config, bed: Bed, queries: seq<string>, rankings: seq<seq<SelectorResult>>)
    requires Complete(bed, queries)
  {
    |rankings| == |queries| && forall i :: 0 <= i < |queries| ==> Selects(config, bed.pools[queries[i]], bed.noise(queries[i]), rankings[i])
  }

  /** Every query before the first occurrence of `id` has a pool and a ground truth. */
  ghost predicate IsFirstLacking(bed: Bed, id: string)
  {
    exists i :: 0 <= i < |bed.queries| && bed.queries[i] == id && Complete(bed, bed.queries[..i])
  }

  lemma FirstLackingAt(bed: Bed, i: nat)
    requires i < |bed.queries|
    requires forall j :: 0 <= j < i ==> bed.queries[j] in bed.pools && FindTruth(bed.truths, bed.queries[j]).Some?
    ensures IsFirstLacking(bed, bed.queries[i])
  {
    hide FindTruth;
    assert Complete(bed, bed.queries[..i]);
  }

  /** Run one selector on every query, stopping at the first query without a pool or ground truth. */
  method Evaluate(config: Config, bed: Bed) returns (r: Outcome<seq<seq<SelectorResult>>>)
    ensures r.Done? <==> Complete(bed, bed.queries)
    ensures r.Done? ==> RanksBed(config, bed, bed.queries, r.value)
    ensures r.MissingPool? ==> r.queryId !in bed.pools && IsFirstLacking(bed, r.queryId)
    ensures r.MissingTruth? ==> r.queryId in bed.pools && r.queryId !in TruthIds(bed.truths) && IsFirstLacking(bed, r.queryId)
  {
    var rankings: seq<seq<SelectorResult>> := [];
    for i := 0 to |bed.queries|
      invariant |rankings| == i
      invariant forall j :: 0 <= j < i ==> bed.queries[j] in bed.pools && FindTruth(bed.truths, bed.queries[j]).Some?
      invariant forall j :: 0 <= j < i ==> Selects(config, bed.pools[bed.queries[j]], bed.noise(bed.queries[j]), rankings[j])
    {
      hide Selects;
      var q := bed.queries[i];
      FirstLackingAt(bed, i);
      if q !in bed.pools {
        return MissingPool(q);
      }
      if FindTruth(bed.truths, q).None? {
        return MissingTruth(q);
      }
      var ranking := ApplySelector(config, bed.pools[q], bed.noise(q));
      rankings := rankings + [ranking];
    }
    return Done(rankings);
  }

  // ----- the coverage ceiling

  function PoolDocs(bed: Bed, id: string): seq<string>
  {
    if id in bed.pools then Ids(bed.pools[id].union) else []
  }

  /** The share of a query's relevant documents that its pool holds. */
  function CoverageOf(bed: Bed): string -> real
  {
    (id: string) => Coverage(PoolDocs(bed, id), RelevantTo(bed.truths, id))
  }

  /** `pool_coverage_ceiling`: the mean over the ground truths, 0 for a query without a pool. */
  function CoverageCeiling(bed: Bed): real
  {
    Mean(seq(|bed.truths|, i requires 0 <= i < |bed.truths| => Coverage(PoolDocs(bed, bed.truths[i].queryId), bed.truths[i].relevant)))
  }

  function Recalls(bed: Bed, rankings: seq<seq<SelectorResult>>, k: nat): (v: seq<real>)
    requires |rankings| == |bed.queries|
    ensures |v| == |rankings| && forall i :: 0 <= i < |v| ==> v[i] == RecallAt(Docs(rankings[i]), RelevantTo(bed.truths, bed.queries[i]), k)
  {
    seq(|rankings|, i requires 0 <= i < |rankings| => RecallAt(Docs(rankings[i]), RelevantTo(bed.truths, bed.queries[i]), k))
  }

  /** A bed as the data generator builds it: one ground truth per query, no repeats, pools that are unions. */
  ghost predicate GoodBed(bed: Bed)
  {
    && Complete(bed, bed.queries)
    && Distinct(TruthIds(bed.truths)) && multiset(TruthIds(bed.truths)) == multiset(bed.queries)
    && (forall i :: 0 <= i < |bed.truths| ==> Distinct(bed.truths[i].relevant))
    && (forall q :: q in bed.pools ==> IsUnion(bed.pools[q].vector + bed.pools[q].bm25, bed.pools[q].union))
  }

  lemma CeilingByQuery(bed: Bed)
    requires Distinct(TruthIds(bed.truths)) && multiset(TruthIds(bed.truths)) == multiset(bed.queries)
    ensures CoverageCeiling(bed) == Mean(MapReal(bed.queries, CoverageOf(bed)))
  {
    hide Coverage;
    var perTruth := seq(|bed.truths|, i requires 0 <= i < |bed.truths| => Coverage(PoolDocs(bed, bed.truths[i].queryId), bed.truths[i].relevant));
    forall i | 0 <= i < |bed.truths| ensures perTruth[i] == CoverageOf(bed)(TruthIds(bed.truths)[i]) {
      FindTruthAt(bed.truths, i);
    }
    assert perTruth == MapReal(TruthIds(bed.truths), CoverageOf(bed));
    MeanPermutation(TruthIds(bed.truths), bed.queries, CoverageOf(bed));
  }

  lemma QueryUnderCeiling(config: Config, bed: Bed, rankings: seq<seq<SelectorResult>>, i: nat, k: nat)
    requires GoodBed(bed) && RanksBed(config, bed, bed.queries, rankings) && i < |bed.queries|
    ensures Recalls(bed, rankings, k)[i] <= CoverageOf(bed)(bed.queries[i])
  {
    hide Selects, IsUnion, RecallAt, Coverage;
    var q := bed.queries[i];
    var pool := bed.pools[q];
    SelectorsDrawFromPool(config, pool, bed.noise(q), rankings[i]);
    UnionIsDistinct(pool);
    var truth := FindTruth(bed.truths, q).value;
    assert Distinct(truth.relevant);
    RecallUnderCoverage(Docs(rankings[i]), Ids(pool.union), truth.relevant, k);
  }

  lemma UnionIsDistinct(pool: CandidatePool)
    requires IsUnion(pool.vector + pool.bm25, pool.union)
    ensures Distinct(Ids(pool.union))
  {
  }

  /**
   The ceiling holds: for every strategy, configuration, noise and k, the mean Recall@k over
   the queries is at most the mean coverage of the pools.
   */
  lemma MeanRecallUnderCeiling(config: Config, bed: Bed, rankings: seq<seq<SelectorResult>>, k: nat)
    requires GoodBed(bed) && RanksBed(config, bed, bed.queries, rankings)
    ensures Mean(Recalls(bed, rankings, k)) <= CoverageCeiling(bed)
  {
    CeilingByQuery(bed);
    hide Mean, CoverageOf, CoverageCeiling, RanksBed;
    forall i | 0 <= i < |bed.queries| ensures Recalls(bed, rankings, k)[i] <= MapReal(bed.queries, CoverageOf(bed))[i] {
      QueryUnderCeiling(config, bed, rankings, i, k);
    }
    MeanMonotone(Recalls(bed, rankings, k), MapReal(bed.queries, CoverageOf(bed)));
  }

  // ----- the reranker's recall

  /**
   From k = window on, the modelled reranker's Recall@k is the upstream ranking's recall at
   the window, whatever its quality and noise: what it drops it cannot win back.
   */
  lemma RerankRecall(up: seq<SelectorResult>, window: nat, quality: real, noise: nat -> real, relevant: seq<string>, k: nat)
    requires Distinct(Docs(up)) && k >= window
    ensures RecallAt(Docs(Rank(Blended(up, window, quality, noise))), relevant, k) == RecallAt(Docs(up), relevant, window)
  {
    var out, n := Rank(Blended(up, window, quality, noise)), Min(window, |up|);
    RerankKeepsHead(up, window, quality, noise);
    assert Take(Docs(out), k) == Docs(out) && Take(Docs(up), window) == Docs(up)[..n];
    HitsIsIntersection(Docs(out), Elements(relevant));
    HitsIsIntersection(Docs(up)[..n], Elements(relevant));
  }
}
