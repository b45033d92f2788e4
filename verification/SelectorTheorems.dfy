/** How the strategies relate: to the pool, to each other, and to the reranker's window. */
module SelectorTheorems {
  import opened Sequences
  import opened StableSort
  import opened Ranking
  import opened Pools
  import opened Selectors

  /** Selection is a function of its inputs: no hash order shows in any strategy's ranking. */
  lemma SelectionIsDeterministic(config: Config, pool: CandidatePool, noise: nat -> real, r: seq<SelectorResult>, s: seq<SelectorResult>)
    requires Selects(config, pool, noise, r) && Selects(config, pool, noise, s)
    ensures r == s
  {
    hide Ranks, FusionScores, RrfScores, CascadeScores, Blended, Rank;
    match config.strategy
    case NoOp =>
    case WeightedFusion => RanksUnique(FusionScores(config, pool), Hybrid, r, s);
    case ReciprocalRankFusion => RanksUnique(RrfScores(pool), Hybrid, r, s);
    case CascadeVectorFirst =>
      RanksUnique(CascadeScores(pool.vector, pool.bm25, config.window, config.vectorWeight, config.bm25Weight), Hybrid, r, s);
    case CascadeBM25First =>
      RanksUnique(CascadeScores(pool.bm25, pool.vector, config.window, config.bm25Weight, config.vectorWeight), Hybrid, r, s);
    case CrossEncoderRerank =>
      var up :| Ranks(FusionScores(config, pool), Hybrid, up) && r == Rank(Blended(up, config.window, config.quality, noise));
      var vp :| Ranks(FusionScores(config, pool), Hybrid, vp) && s == Rank(Blended(vp, config.window, config.quality, noise));
      RanksUnique(FusionScores(config, pool), Hybrid, up, vp);
    case HybridMultiStage =>
      var up :| Ranks(RrfScores(pool), Hybrid, up) && r == Rank(Blended(up, config.window, config.quality, noise));
      var vp :| Ranks(RrfScores(pool), Hybrid, vp) && s == Rank(Blended(vp, config.window, config.quality, noise));
      RanksUnique(RrfScores(pool), Hybrid, up, vp);
  }

  // ----- shares

  lemma {:induction false} TotalConcat(a: seq<Share>, b: seq<Share>, id: string)
    ensures Total(a + b, id) == Total(a, id) + Total(b, id)
  {
    if b == [] {
      assert a + b == a;
    } else {
      var n := |b| - 1;
      assert (a + b)[..|a| + n] == a + b[..n];
      TotalConcat(a, b[..n], id);
    }
  }

  lemma HoldersConcat(a: seq<Share>, b: seq<Share>)
    ensures Holders(a + b) == Holders(a) + Holders(b)
  {
    forall id ensures id in Holders(a + b) <==> id in Holders(a) || id in Holders(b) {
      if s :| s in a && s.docId == id { assert s in a + b; }
      if s :| s in b && s.docId == id { assert s in a + b; }
      if s :| s in a + b && s.docId == id { assert s in a || s in b; }
    }
  }

  ghost predicate DistinctHolders(shares: seq<Share>)
  {
    forall i, j :: 0 <= i < j < |shares| ==> shares[i].docId != shares[j].docId
  }

  /** With one share per document, summing and taking the largest agree. */
  lemma {:induction false} SingleShare(shares: seq<Share>, k: nat)
    requires DistinctHolders(shares) && k < |shares|
    ensures Total(shares, shares[k].docId) == shares[k].amount == Largest(shares, shares[k].docId)
  {
    var n := |shares| - 1;
    var id := shares[k].docId;
    if k == n {
      forall t | t in shares[..n] ensures t.docId != id { }
      TotalAbsent(shares[..n], id);
    } else {
      SingleShare(shares[..n], k);
    }
  }

  lemma WeightedHolders(cs: seq<Candidate>, weight: real)
    ensures Holders(Weighted(cs, weight)) == Elements(Ids(cs))
  {
    var shares := Weighted(cs, weight);
    forall id ensures id in Holders(shares) <==> id in Ids(cs) {
      if s :| s in shares && s.docId == id {
        var i :| 0 <= i < |shares| && shares[i] == s;
        assert Ids(cs)[i] == id;
      }
      if id in Ids(cs) {
        var i :| 0 <= i < |cs| && Ids(cs)[i] == id;
        assert shares[i] in shares && shares[i].docId == id;
      }
    }
  }

  lemma ReciprocalHolders(cs: seq<Candidate>)
    ensures Holders(Reciprocal(cs)) == Elements(Ids(cs))
  {
    var shares := Reciprocal(cs);
    forall id ensures id in Holders(shares) <==> id in Ids(cs) {
      if s :| s in shares && s.docId == id {
        var i :| 0 <= i < |shares| && shares[i] == s;
        assert Ids(cs)[i] == id;
      }
      if id in Ids(cs) {
        var i :| 0 <= i < |cs| && Ids(cs)[i] == id;
        assert shares[i] in shares && shares[i].docId == id;
      }
    }
  }

  // ----- cascades

  /** The documents a cascade retrieves: the head of its primary ranking. */
  function WindowDocs(primary: seq<Candidate>, window: nat): set<string>
  {
    Elements(Ids(primary[..Min(window, |primary|)]))
  }

  /** Inside the window a document's cascade score is the sum of both retrievers' shares. */
  lemma CascadeScore(primary: seq<Candidate>, secondary: seq<Candidate>, window: nat, pw: real, sw: real, id: string)
    requires Distinct(Ids(primary))
    ensures
      var scores := CascadeScores(primary, secondary, window, pw, sw);
      && scores.Keys == WindowDocs(primary, window)
      && (id in scores ==> scores[id] == Total(Weighted(primary, pw), id) + Total(Weighted(secondary, sw), id))
  {
    hide Total, Largest, Holders;
    var n := Min(window, |primary|);
    WeightedHolders(primary[..n], pw);
    if id in Ids(primary[..n]) {
      var k :| 0 <= k < n && Ids(primary[..n])[k] == id;
      HeadShare(primary, n, pw, k);
    }
  }

  /** In the head of a duplicate-free ranking a document's largest share is its total in the whole ranking. */
  lemma HeadShare(primary: seq<Candidate>, n: nat, pw: real, k: nat)
    requires Distinct(Ids(primary)) && k < n <= |primary|
    ensures Largest(Weighted(primary[..n], pw), primary[k].docId) == Total(Weighted(primary, pw), primary[k].docId)
  {
    hide Total, Largest;
    var head, all := Weighted(primary[..n], pw), Weighted(primary, pw);
    forall i, j | 0 <= i < j < |all| ensures all[i].docId != all[j].docId { assert Ids(primary)[i] != Ids(primary)[j]; }
    assert forall i :: 0 <= i < n ==> head[i] == all[i];
    SingleShare(all, k);
    SingleShare(head, k);
  }

  function Strip(r: seq<SelectorResult>): (cs: seq<Candidate>)
    ensures |cs| == |r| && forall i :: 0 <= i < |r| ==> cs[i] == Candidate(r[i].docId, r[i].score, r[i].source)
  {
    seq(|r|, i requires 0 <= i < |r| => Candidate(r[i].docId, r[i].score, r[i].source))
  }

  function InDocs(docs: set<string>): Candidate -> bool
  {
    (c: Candidate) => c.docId in docs
  }

  /** Ranking a part of a score table is filtering the ranking of the whole and renumbering. */
  lemma RankingOfPart(scores: Scores, part: Scores, source: Source, r: seq<SelectorResult>, p: seq<SelectorResult>)
    requires Ranks(scores, source, r) && Ranks(part, source, p)
    requires part.Keys <= scores.Keys && forall id :: id in part ==> part[id] == scores[id]
    ensures p == Number(Filter(Strip(r), InDocs(part.Keys)))
  {
    var a :| Lists(scores, source, a) && Descending(a) && r == Number(a);
    var b :| Lists(part, source, b) && Descending(b) && p == Number(b);
    ListsElements(scores, source, a);
    ListsElements(part, source, b);
    hide Lists;
    assert Strip(r) == a;
    var kept := Filter(a, InDocs(part.Keys));
    FilterSorted(a, Ahead, InDocs(part.Keys));
    assert Elements(kept) == Elements(b);
    DescendingUnique(kept, b);
  }

  /** What a cascade is, against the fusion of the same two retrievers with the same weights. */
  lemma CascadeInFusion(primary: seq<Candidate>, secondary: seq<Candidate>, window: nat, pw: real, sw: real, fusion: Scores)
    requires Distinct(Ids(primary))
    requires fusion.Keys == Elements(Ids(primary)) + Elements(Ids(secondary))
    requires forall id :: id in fusion ==> fusion[id] == Total(Weighted(primary, pw), id) + Total(Weighted(secondary, sw), id)
    ensures
      var part := CascadeScores(primary, secondary, window, pw, sw);
      && part.Keys == WindowDocs(primary, window) && part.Keys <= fusion.Keys
      && forall id :: id in part ==> part[id] == fusion[id]
  {
    var n := Min(window, |primary|);
    forall id ensures id in WindowDocs(primary, window) ==> id in Elements(Ids(primary)) {
      if id in Ids(primary[..n]) {
        var i :| 0 <= i < n && Ids(primary[..n])[i] == id;
        assert Ids(primary)[i] == id;
      }
    }
    forall id ensures
        var part := CascadeScores(primary, secondary, window, pw, sw);
        && part.Keys == WindowDocs(primary, window)
        && (id in part ==> part[id] == Total(Weighted(primary, pw), id) + Total(Weighted(secondary, sw), id)) {
      CascadeScore(primary, secondary, window, pw, sw, id);
    }
  }

  lemma FusionScore(config: Config, pool: CandidatePool)
    ensures
      var fusion := FusionScores(config, pool);
      && fusion.Keys == Elements(Ids(pool.vector)) + Elements(Ids(pool.bm25))
      && forall id :: id in fusion ==>
           fusion[id] == Total(Weighted(pool.vector, config.vectorWeight), id) + Total(Weighted(pool.bm25, config.bm25Weight), id)
  {
    var a, b := Weighted(pool.vector, config.vectorWeight), Weighted(pool.bm25, config.bm25Weight);
    HoldersConcat(a, b);
    WeightedHolders(pool.vector, config.vectorWeight);
    WeightedHolders(pool.bm25, config.bm25Weight);
    forall id ensures Total(a + b, id) == Total(a, id) + Total(b, id) { TotalConcat(a, b, id); }
  }

  /**
   A cascade, in either direction, is the weighted-fusion ranking filtered to the primary
   retriever's window: same scores, same relative order, ranks renumbered.
   */
  lemma CascadeIsFilteredFusion(config: Config, pool: CandidatePool, fused: seq<SelectorResult>, r: seq<SelectorResult>)
    requires Ranks(FusionScores(config, pool), Hybrid, fused)
    ensures Distinct(Ids(pool.vector))
            && Ranks(CascadeScores(pool.vector, pool.bm25, config.window, config.vectorWeight, config.bm25Weight), Hybrid, r)
            ==> r == Number(Filter(Strip(fused), InDocs(WindowDocs(pool.vector, config.window))))
    ensures Distinct(Ids(pool.bm25))
            && Ranks(CascadeScores(pool.bm25, pool.vector, config.window, config.bm25Weight, config.vectorWeight), Hybrid, r)
            ==> r == Number(Filter(Strip(fused), InDocs(WindowDocs(pool.bm25, config.window))))
  {
    var fusion := FusionScores(config, pool);
    FusionScore(config, pool);
    hide FusionScores, CascadeScores, Ranks, WindowDocs, Filter;
    if Distinct(Ids(pool.vector)) {
      CascadeInFusion(pool.vector, pool.bm25, config.window, config.vectorWeight, config.bm25Weight, fusion);
      var part := CascadeScores(pool.vector, pool.bm25, config.window, config.vectorWeight, config.bm25Weight);
      if Ranks(part, Hybrid, r) { RankingOfPart(fusion, part, Hybrid, fused, r); }
    }
    if Distinct(Ids(pool.bm25)) {
      CascadeInFusion(pool.bm25, pool.vector, config.window, config.bm25Weight, config.vectorWeight, fusion);
      var part := CascadeScores(pool.bm25, pool.vector, config.window, config.bm25Weight, config.vectorWeight);
      if Ranks(part, Hybrid, r) { RankingOfPart(fusion, part, Hybrid, fused, r); }
    }
  }

  // ----- the reranker

  lemma RerankKeepsHead(up: seq<SelectorResult>, window: nat, quality: real, noise: nat -> real)
    requires Distinct(Docs(up))
    ensures
      var out := Rank(Blended(up, window, quality, noise));
      var n := Min(window, |up|);
      |out| == n && Distinct(Docs(out)) && Elements(Docs(out)) == Elements(Docs(up)[..n])
  {
    var items := Blended(up, window, quality, noise);
    var n := Min(window, |up|);
    assert Ids(items) == Docs(up)[..n];
    SortDescends(items);
    SameIds(SortCandidates(items), items);
    assert Docs(Rank(items)) == Ids(SortCandidates(items));
  }

  lemma PerfectBlendFalls(i: nat, j: nat, n: nat, x: real, y: real)
    requires i < j < n
    ensures Blend(i, n, 1.0, x) > Blend(j, n, 1.0, y)
  {
    assert i as real / n as real < j as real / n as real;
    assert (1.0 - 1.0) * x == 0.0 && (1.0 - 1.0) * y == 0.0;
  }

  /** A perfect reranker emits the upstream head in its own order. */
  lemma PerfectRerankKeepsOrder(up: seq<SelectorResult>, window: nat, quality: real, noise: nat -> real)
    requires Distinct(Docs(up)) && quality >= 1.0
    ensures Docs(Rank(Blended(up, window, quality, noise))) == Docs(up)[..Min(window, |up|)]
  {
    var items := Blended(up, window, quality, noise);
    var n := Min(window, |up|);
    assert Ids(items) == Docs(up)[..n];
    forall i, j | 0 <= i < j < n ensures Ahead(items[i], items[j]) { PerfectBlendFalls(i, j, n, noise(i), noise(j)); }
    SortDescends(items);
    DescendingUnique(items, SortCandidates(items));
  }

  // ----- the pool bounds every strategy

  lemma UnionHolds(pool: CandidatePool)
    requires IsUnion(pool.vector + pool.bm25, pool.union)
    ensures Elements(Ids(pool.union)) == Elements(Ids(pool.vector)) + Elements(Ids(pool.bm25))
  {
    assert Ids(pool.vector + pool.bm25) == Ids(pool.vector) + Ids(pool.bm25);
  }

  lemma TablesStayInPool(config: Config, pool: CandidatePool)
    requires IsUnion(pool.vector + pool.bm25, pool.union)
    ensures
      var docs := Elements(Ids(pool.union));
      && FusionScores(config, pool).Keys == docs && RrfScores(pool).Keys == docs
      && CascadeScores(pool.vector, pool.bm25, config.window, config.vectorWeight, config.bm25Weight).Keys <= docs
      && CascadeScores(pool.bm25, pool.vector, config.window, config.bm25Weight, config.vectorWeight).Keys <= docs
  {
    UnionHolds(pool);
    FusionScore(config, pool);
    HoldersConcat(Reciprocal(pool.vector), Reciprocal(pool.bm25));
    ReciprocalHolders(pool.vector);
    ReciprocalHolders(pool.bm25);
    WindowInRanking(pool.vector, config.window, config.vectorWeight);
    WindowInRanking(pool.bm25, config.window, config.bm25Weight);
  }

  lemma WindowInRanking(cs: seq<Candidate>, window: nat, weight: real)
    ensures Holders(Weighted(cs[..Min(window, |cs|)], weight)) <= Elements(Ids(cs))
  {
    var n := Min(window, |cs|);
    WeightedHolders(cs[..n], weight);
    forall id | id in Ids(cs[..n]) ensures id in Ids(cs) {
      var i :| 0 <= i < n && Ids(cs[..n])[i] == id;
      assert Ids(cs)[i] == id;
    }
  }

  /** Every strategy emits distinct documents of the union pool, whatever the configuration and noise. */
  lemma SelectorsDrawFromPool(config: Config, pool: CandidatePool, noise: nat -> real, r: seq<SelectorResult>)
    requires Selects(config, pool, noise, r) && IsUnion(pool.vector + pool.bm25, pool.union)
    ensures Distinct(Docs(r)) && Elements(Docs(r)) <= Elements(Ids(pool.union))
  {
    TablesStayInPool(config, pool);
    hide FusionScores, RrfScores, CascadeScores, IsMerged, Ranks;
    match config.strategy
    case NoOp =>
      SortDescends(pool.union);
      SameIds(SortCandidates(pool.union), pool.union);
      assert Docs(r) == Ids(SortCandidates(pool.union));
    case WeightedFusion => RanksDocs(FusionScores(config, pool), Hybrid, r);
    case ReciprocalRankFusion => RanksDocs(RrfScores(pool), Hybrid, r);
    case CascadeVectorFirst =>
      RanksDocs(CascadeScores(pool.vector, pool.bm25, config.window, config.vectorWeight, config.bm25Weight), Hybrid, r);
    case CascadeBM25First =>
      RanksDocs(CascadeScores(pool.bm25, pool.vector, config.window, config.bm25Weight, config.vectorWeight), Hybrid, r);
    case CrossEncoderRerank =>
      var up :| Ranks(FusionScores(config, pool), Hybrid, up) && r == Rank(Blended(up, config.window, config.quality, noise));
      RanksDocs(FusionScores(config, pool), Hybrid, up);
      RerankStaysIn(up, config, noise);
    case HybridMultiStage =>
      var up :| Ranks(RrfScores(pool), Hybrid, up) && r == Rank(Blended(up, config.window, config.quality, noise));
      RanksDocs(RrfScores(pool), Hybrid, up);
      RerankStaysIn(up, config, noise);
  }

  lemma RerankStaysIn(up: seq<SelectorResult>, config: Config, noise: nat -> real)
    requires Distinct(Docs(up))
    ensures
      var out := Rank(Blended(up, config.window, config.quality, noise));
      Distinct(Docs(out)) && Elements(Docs(out)) <= Elements(Docs(up))
  {
    RerankKeepsHead(up, config.window, config.quality, noise);
    assert forall id :: id in Docs(up)[..Min(config.window, |up|)] ==> id in Docs(up);
  }
}
