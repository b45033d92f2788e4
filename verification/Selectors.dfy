/**
 The seven selector strategies. Scores are accumulated per document in a map and the map
 is ranked, so a strategy is fixed by the score table it builds.
 */
module Selectors {
  import opened Sequences
  import opened Ranking
  import opened Pools

  datatype Strategy =
    | NoOp | WeightedFusion | ReciprocalRankFusion | CascadeVectorFirst | CascadeBM25First
    | CrossEncoderRerank | HybridMultiStage

  datatype Config = Config(strategy: Strategy, vectorWeight: real, bm25Weight: real, window: nat, quality: real)

  type Scores = map<string, real>

  /** What one ranked document adds to its score. */
  datatype Share = Share(docId: string, amount: real)

  function Weighted(cs: seq<Candidate>, weight: real): (shares: seq<Share>)
    ensures |shares| == |cs| && forall i :: 0 <= i < |cs| ==> shares[i] == Share(cs[i].docId, cs[i].score * weight)
  {
    seq(|cs|, i requires 0 <= i < |cs| => Share(cs[i].docId, cs[i].score * weight))
  }

  const RRF_K: real := 60.0

  function Reciprocal(cs: seq<Candidate>): (shares: seq<Share>)
    ensures |shares| == |cs| && forall i :: 0 <= i < |cs| ==> shares[i] == Share(cs[i].docId, 1.0 / (RRF_K + i as real + 1.0))
  {
    seq(|cs|, i requires 0 <= i < |cs| => Share(cs[i].docId, 1.0 / (RRF_K + i as real + 1.0)))
  }

  function Holders(shares: seq<Share>): set<string>
  {
    set s | s in shares :: s.docId
  }

  /** The shares of `id`, added up. */
  function Total(shares: seq<Share>, id: string): real
  {
    if shares == [] then 0.0
    else Total(shares[..|shares| - 1], id) + if shares[|shares| - 1].docId == id then shares[|shares| - 1].amount else 0.0
  }

  /** The largest share of `id`. */
  function Largest(shares: seq<Share>, id: string): real
  {
    if shares == [] then 0.0
    else
      var rest, last := shares[..|shares| - 1], shares[|shares| - 1];
      if last.docId != id then Largest(rest, id)
      else if id in Holders(rest) && Largest(rest, id) > last.amount then Largest(rest, id)
      else last.amount
  }

  function Summed(shares: seq<Share>): Scores
  {
    map id | id in Holders(shares) :: Total(shares, id)
  }

  function FusionScores(config: Config, pool: CandidatePool): Scores
  {
    Summed(Weighted(pool.vector, config.vectorWeight) + Weighted(pool.bm25, config.bm25Weight))
  }

  function RrfScores(pool: CandidatePool): Scores
  {
    Summed(Reciprocal(pool.vector) + Reciprocal(pool.bm25))
  }

  /** Only the primary's window is scored; inside it the secondary adds its shares. */
  function CascadeScores(primary: seq<Candidate>, secondary: seq<Candidate>, window: nat, primaryWeight: real, secondaryWeight: real): Scores
  {
    var head := Weighted(primary[..Min(window, |primary|)], primaryWeight);
    map id | id in LargestTable(head) :: LargestTable(head)[id] + Total(Weighted(secondary, secondaryWeight), id)
  }

  function Clamp(q: real): real
  {
    if q < 0.0 then 0.0 else if q > 1.0 then 1.0 else q
  }

  /** The reranker's items: the upstream head, its order blended with noise. */
  function Blended(upstream: seq<SelectorResult>, window: nat, quality: real, noise: nat -> real): (items: seq<Candidate>)
    ensures |items| == Min(window, |upstream|)
    ensures forall i :: 0 <= i < |items| ==> items[i].docId == upstream[i].docId
  {
    var n := Min(window, |upstream|);
    seq(n, i requires 0 <= i < n => Candidate(upstream[i].docId, Blend(i, n, Clamp(quality), noise(i)), Reranked))
  }

  function Blend(i: nat, n: nat, quality: real, noise: real): real
    requires i < n
  {
    quality * (1.0 - i as real / n as real) + (1.0 - quality) * noise
  }

  /** `r` is what the strategy emits on the pool, for the noise stream of the query's seed. */
  ghost predicate Selects(config: Config, pool: CandidatePool, noise: nat -> real, r: seq<SelectorResult>)
  {
    match config.strategy
    case NoOp => r == Rank(pool.union)
    case WeightedFusion => Ranks(FusionScores(config, pool), Hybrid, r)
    case ReciprocalRankFusion => Ranks(RrfScores(pool), Hybrid, r)
    case CascadeVectorFirst =>
      Ranks(CascadeScores(pool.vector, pool.bm25, config.window, config.vectorWeight, config.bm25Weight), Hybrid, r)
    case CascadeBM25First =>
      Ranks(CascadeScores(pool.bm25, pool.vector, config.window, config.bm25Weight, config.vectorWeight), Hybrid, r)
    case CrossEncoderRerank =>
      exists up :: Ranks(FusionScores(config, pool), Hybrid, up) && r == Rank(Blended(up, config.window, config.quality, noise))
    case HybridMultiStage =>
      exists up :: Ranks(RrfScores(pool), Hybrid, up) && r == Rank(Blended(up, config.window, config.quality, noise))
  }

  // ----- the loops

  lemma SummedSnoc(shares: seq<Share>, s: Share)
    ensures Summed(shares + [s]) ==
            Summed(shares)[s.docId := (if s.docId in Summed(shares) then Summed(shares)[s.docId] else 0.0) + s.amount]
  {
    assert (shares + [s])[..|shares|] == shares;
    HoldersSnoc(shares, s);
    if s.docId !in Holders(shares) { TotalAbsent(shares, s.docId); }
    forall id ensures Total(shares + [s], id) == Total(shares, id) + if s.docId == id then s.amount else 0.0 {}
  }

  lemma {:induction false} TotalAbsent(shares: seq<Share>, id: string)
    requires id !in Holders(shares)
    ensures Total(shares, id) == 0.0
  {
    if shares != [] {
      var n := |shares| - 1;
      assert shares[n] in shares;
      forall t | t in shares[..n] ensures t.docId != id { assert t in shares; }
      TotalAbsent(shares[..n], id);
    }
  }

  /** `*entry(id).or_insert(0.0) += amount`, share by share. */
  method Accumulate(scored: Scores, ghost done: seq<Share>, shares: seq<Share>) returns (r: Scores)
    requires scored == Summed(done)
    ensures r == Summed(done + shares)
  {
    hide *;
    r := scored;
    ghost var seen := done;
    for i := 0 to |shares|
      invariant seen == done + shares[..i] && r == Summed(seen)
    {
      SummedSnoc(seen, shares[i]);
      seen := seen + [shares[i]];
      var id := shares[i].docId;
      r := r[id := (if id in r then r[id] else 0.0) + shares[i].amount];
    }
    assert seen == done + shares;
  }

  method WeightedFusionOf(config: Config, pool: CandidatePool) returns (r: seq<SelectorResult>)
    ensures Ranks(FusionScores(config, pool), Hybrid, r)
  {
    var vector, bm25 := Weighted(pool.vector, config.vectorWeight), Weighted(pool.bm25, config.bm25Weight);
    var scored := Accumulate(map[], [], vector);
    assert [] + vector == vector;
    scored := Accumulate(scored, vector, bm25);
    r := RankTable(scored, Hybrid);
  }

  method RrfFusionOf(pool: CandidatePool) returns (r: seq<SelectorResult>)
    ensures Ranks(RrfScores(pool), Hybrid, r)
  {
    var vector, bm25 := Reciprocal(pool.vector), Reciprocal(pool.bm25);
    var scored := Accumulate(map[], [], vector);
    assert [] + vector == vector;
    scored := Accumulate(scored, vector, bm25);
    r := RankTable(scored, Hybrid);
  }

  method CascadeOf(primary: seq<Candidate>, secondary: seq<Candidate>, window: nat, primaryWeight: real, secondaryWeight: real)
    returns (r: seq<SelectorResult>)
    ensures Ranks(CascadeScores(primary, secondary, window, primaryWeight, secondaryWeight), Hybrid, r)
  {
    var head := LargestPerDocument(Weighted(primary[..Min(window, |primary|)], primaryWeight));
    var scored := AddInside(head, Weighted(secondary, secondaryWeight));
    r := RankTable(scored, Hybrid);
  }

  function LargestTable(shares: seq<Share>): Scores
  {
    map id | id in Holders(shares) :: Largest(shares, id)
  }

  /** Stage one: `and_modify(max).or_insert` over the primary's window. */
  method LargestPerDocument(head: seq<Share>) returns (scored: Scores)
    ensures scored == LargestTable(head)
  {
    scored := map[];
    for i := 0 to |head|
      invariant scored == LargestTable(head[..i])
    {
      hide LargestTable;
      LargestSnoc(head[..i], head[i]);
      assert head[..i + 1] == head[..i] + [head[i]];
      var id, amount := head[i].docId, head[i].amount;
      scored := scored[id := if id in scored && scored[id] > amount then scored[id] else amount];
    }
    assert head[..|head|] == head;
  }

  /** Stage two: the secondary adds to the documents already in the table. */
  method AddInside(head: Scores, shares: seq<Share>) returns (scored: Scores)
    ensures scored == map id | id in head :: head[id] + Total(shares, id)
  {
    scored := head;
    for j := 0 to |shares|
      invariant scored == map id | id in head :: head[id] + Total(shares[..j], id)
    {
      assert shares[..j + 1][..j] == shares[..j];
      var id := shares[j].docId;
      if id in scored {
        scored := scored[id := scored[id] + shares[j].amount];
      }
    }
    assert shares[..|shares|] == shares;
  }

  lemma LargestSnoc(shares: seq<Share>, s: Share)
    ensures
      var m := LargestTable(shares);
      LargestTable(shares + [s]) == m[s.docId := if s.docId in m && m[s.docId] > s.amount then m[s.docId] else s.amount]
  {
    assert (shares + [s])[..|shares|] == shares;
    HoldersSnoc(shares, s);
  }

  lemma HoldersSnoc(shares: seq<Share>, s: Share)
    ensures Holders(shares + [s]) == Holders(shares) + {s.docId}
  {
    forall id ensures id in Holders(shares + [s]) <==> id in Holders(shares) || id == s.docId {
      if id in Holders(shares) {
        var t :| t in shares && t.docId == id;
        assert t in shares + [s];
      }
      assert s in shares + [s];
    }
  }

  method CrossEncoderOf(upstream: seq<SelectorResult>, window: nat, quality: real, noise: nat -> real) returns (r: seq<SelectorResult>)
    ensures r == Rank(Blended(upstream, window, quality, noise))
  {
    var n := Min(window, |upstream|);
    var reranked: seq<Candidate> := [];
    for i := 0 to n
      invariant reranked == Blended(upstream, window, quality, noise)[..i]
    {
      var ideal := 1.0 - i as real / n as real;
      reranked := reranked + [Candidate(upstream[i].docId, Clamp(quality) * ideal + (1.0 - Clamp(quality)) * noise(i), Reranked)];
    }
    assert Blended(upstream, window, quality, noise)[..n] == Blended(upstream, window, quality, noise);
    r := Rank(reranked);
  }

  method ApplySelector(config: Config, pool: CandidatePool, noise: nat -> real) returns (r: seq<SelectorResult>)
    ensures Selects(config, pool, noise, r)
  {
    match config.strategy
    case NoOp => r := Rank(pool.union);
    case WeightedFusion => r := WeightedFusionOf(config, pool);
    case ReciprocalRankFusion => r := RrfFusionOf(pool);
    case CascadeVectorFirst => r := CascadeOf(pool.vector, pool.bm25, config.window, config.vectorWeight, config.bm25Weight);
    case CascadeBM25First => r := CascadeOf(pool.bm25, pool.vector, config.window, config.bm25Weight, config.vectorWeight);
    case CrossEncoderRerank =>
      var up := WeightedFusionOf(config, pool);
      r := CrossEncoderOf(up, config.window, config.quality, noise);
    case HybridMultiStage =>
      var up := RrfFusionOf(pool);
      r := CrossEncoderOf(up, config.window, config.quality, noise);
  }
}
