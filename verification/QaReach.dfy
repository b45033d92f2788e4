/** The share of questions the bed advertises as reachable at a depth, against what a cascade retrieves. */
module QaReach {
  import opened Sequences
  import opened Tokens
  import opened Ranking
  import opened Pools
  import opened Selectors
  import opened SelectorTheorems
  import opened Extraction
  import opened Answers
  import opened AnswerCeiling
  import opened QaTexts
  import opened QaBed

  /** `reachable_fraction`: the share of gold depths below `depth`. */
  function ReachableFraction(bed: Bed, depth: nat): real
  {
    if |bed.goldDepth| == 0 then 0.0
    else |set id | id in bed.goldDepth && bed.goldDepth[id] < depth| as real / |bed.goldDepth| as real
  }

  /** How many distractors stand in every ranking of the bed. */
  function PickedCount(c: BedConfig): nat
  {
    Min(AtLeastOne(c.poolSize) - 1, AtLeastOne(c.distractors))
  }

  /** `rankings` are the vector-first cascades, of the given window, over the bed's pools. */
  ghost predicate Cascades(c: BedConfig, bed: Bed, config: Config, noise: nat -> real, rankings: seq<seq<SelectorResult>>)
  {
    && config.strategy == CascadeVectorFirst && |rankings| == c.questions
    && forall q :: 0 <= q < c.questions ==> QueryId(q) in bed.pools && Selects(config, bed.pools[QueryId(q)], noise, rankings[q])
  }

  // ----- one question

  lemma OrderIsDistinct(c: BedConfig, order: seq<string>, q: nat)
    requires multiset(order) == multiset(DistractorIds(c))
    ensures Distinct(order) && GoldId(q) !in order && |order| == AtLeastOne(c.distractors)
  {
    hide GoldId, DistractorId, AtLeastOne;
    var ids := DistractorIds(c);
    forall i, j | 0 <= i < j < |ids| ensures ids[i] != ids[j] { IdsDiffer(i, j); }
    DistinctPermutation(ids, order);
    assert |multiset(order)| == |multiset(ids)|;
    if GoldId(q) in order {
      assert GoldId(q) in multiset(ids);
      var i :| 0 <= i < |ids| && ids[i] == GoldId(q);
      IdsDiffer(q, i);
    }
  }

  /** The gold document is in the window of a ranking exactly when its place is. */
  lemma InWindow(cs: seq<Candidate>, gold: string, at: nat, window: nat)
    requires at < |cs| && forall i :: 0 <= i < |cs| ==> (cs[i].docId == gold <==> i == at)
    ensures gold in WindowDocs(cs, window) <==> at < window
  {
    var n := Min(window, |cs|);
    var head := Ids(cs[..n]);
    if at < window { assert head[at] == gold; }
    if gold in head {
      var i :| 0 <= i < n && head[i] == gold;
      assert cs[i].docId == gold;
    }
  }

  /** The cascade retrieves the gold document exactly when the window reaches its place. */
  lemma CascadeRetrieves(c: BedConfig, d: Draws, q: nat, pool: CandidatePool, config: Config, noise: nat -> real, r: seq<SelectorResult>)
    requires DrawnFor(c, d, q) && IsPool(c, d, q, pool)
    requires config.strategy == CascadeVectorFirst && Selects(config, pool, noise, r)
    ensures GoldId(q) in Docs(r) <==> Min(d.depth(q), PickedCount(c)) < config.window
  {
    var size := AtLeastOne(c.poolSize);
    OrderIsDistinct(c, d.vectorOrder(q), q);
    RankingLaws(GoldId(q), d.vectorOrder(q), d.depth(q), size, Vector);
    assert |Picked(d.vectorOrder(q), size)| == PickedCount(c);
    hide MakeRanking, Picked, GoldId, Ranks, CascadeScores, WindowDocs, Descending, IsUnion;
    CascadeScore(pool.vector, pool.bm25, config.window, config.vectorWeight, config.bm25Weight, "");
    RanksDocs(CascadeScores(pool.vector, pool.bm25, config.window, config.vectorWeight, config.bm25Weight), Hybrid, r);
    InWindow(pool.vector, GoldId(q), Min(d.depth(q), PickedCount(c)), config.window);
    assert GoldId(q) in Docs(r) <==> GoldId(q) in Elements(Docs(r));
  }

  // ----- counting questions

  function Count(n: nat, p: nat -> bool): (k: nat)
    ensures k <= n
  {
    if n == 0 then 0 else Count(n - 1, p) + if p(n - 1) then 1 else 0
  }

  function Flags(n: nat, p: nat -> bool): (v: seq<real>)
    ensures |v| == n && forall i :: 0 <= i < n ==> v[i] == Flag(p(i))
  {
    seq(n, i requires 0 <= i < n => Flag(p(i)))
  }

  lemma {:induction false} SumFlags(n: nat, p: nat -> bool)
    ensures Sum(Flags(n, p)) == Count(n, p) as real
  {
    if n > 0 {
      SumFlags(n - 1, p);
      assert Flags(n, p)[..n - 1] == Flags(n - 1, p);
    }
  }

  lemma {:induction false} CountWeaker(n: nat, p: nat -> bool, r: nat -> bool)
    requires forall i :: 0 <= i < n && p(i) ==> r(i)
    ensures Count(n, p) <= Count(n, r)
    ensures Count(n, p) == Count(n, r) <==> forall i :: 0 <= i < n ==> p(i) == r(i)
  {
    if n > 0 {
      CountWeaker(n - 1, p, r);
    }
  }

  function Shallower(d: Draws, w: nat): nat -> bool
  {
    (q: nat) => d.depth(q) < w
  }

  function WithinWindow(c: BedConfig, d: Draws, w: nat): nat -> bool
  {
    (q: nat) => Min(d.depth(q), PickedCount(c)) < w
  }

  function ReachedIds(n: nat, p: nat -> bool): set<string>
  {
    if n == 0 then {} else ReachedIds(n - 1, p) + if p(n - 1) then {QueryId(n - 1)} else {}
  }

  lemma {:induction false} ReachedIdsAre(n: nat, p: nat -> bool, id: string)
    ensures id in ReachedIds(n, p) <==> exists q :: 0 <= q < n && p(q) && QueryId(q) == id
    ensures id in QueryIds(n) <==> exists q :: 0 <= q < n && QueryId(q) == id
  {
    hide QueryId;
    if n > 0 { ReachedIdsAre(n - 1, p, id); }
  }

  lemma NewId(n: nat, p: nat -> bool)
    ensures QueryId(n) !in ReachedIds(n, p) && QueryId(n) !in QueryIds(n)
  {
    hide QueryId, ReachedIds, QueryIds;
    forall q | 0 <= q < n ensures QueryId(q) != QueryId(n) { IdsDiffer(q, n); }
    ReachedIdsAre(n, p, QueryId(n));
  }

  lemma ReachedUnfold(n: nat, p: nat -> bool)
    ensures n == 0 ==> ReachedIds(n, p) == {} == QueryIds(n)
    ensures n > 0 && p(n - 1) ==> ReachedIds(n, p) == ReachedIds(n - 1, p) + {QueryId(n - 1)}
    ensures n > 0 && !p(n - 1) ==> ReachedIds(n, p) == ReachedIds(n - 1, p)
    ensures n > 0 ==> QueryIds(n) == QueryIds(n - 1) + {QueryId(n - 1)}
  {
    hide QueryId;
  }

  lemma {:induction false} ReachedCount(n: nat, p: nat -> bool)
    ensures |ReachedIds(n, p)| == Count(n, p) && |QueryIds(n)| == n
  {
    hide QueryId, ReachedIds, QueryIds;
    ReachedUnfold(n, p);
    if n > 0 {
      ReachedCount(n - 1, p);
      NewId(n - 1, p);
    }
  }

  lemma FractionIsCount(d: Draws, n: nat, bed: Bed, w: nat)
    requires DepthsUpTo(d, n, bed.goldDepth)
    ensures ReachableFraction(bed, w) == if n == 0 then 0.0 else Count(n, Shallower(d, w)) as real / n as real
  {
    hide QueryId;
    var p, m := Shallower(d, w), bed.goldDepth;
    ReachedCount(n, p);
    var reached := set id | id in m && m[id] < w;
    forall id ensures id in reached <==> id in ReachedIds(n, p) { ReachedIdsAre(n, p, id); }
    assert reached == ReachedIds(n, p);
    assert |m| == |m.Keys|;
  }

  // ----- the bed

  function RetrievedAll(questions: seq<Question>, rankings: seq<seq<SelectorResult>>): (v: seq<real>)
    requires |questions| == |rankings|
    ensures |v| == |questions| && forall i :: 0 <= i < |v| ==> v[i] == Retrieved(questions[i], rankings[i])
  {
    seq(|questions|, i requires 0 <= i < |questions| => Retrieved(questions[i], rankings[i]))
  }

  lemma RetrievedFlags(c: BedConfig, d: Draws, bed: Bed, config: Config, noise: nat -> real, rankings: seq<seq<SelectorResult>>)
    requires InRange(c, d) && IsBed(c, d, bed) && Cascades(c, bed, config, noise, rankings)
    ensures |bed.questions| == |rankings| == c.questions
    ensures RetrievedAll(bed.questions, rankings) == Flags(c.questions, WithinWindow(c, d, config.window))
  {
    hide Selects, IsPool, DrawnFor, QuestionOf, QueryId, GoldId, PickedCount, GoldTextsUpTo, DistractorsUpTo, DepthsUpTo;
    forall q | 0 <= q < c.questions ensures Retrieved(bed.questions[q], rankings[q]) == Flag(WithinWindow(c, d, config.window)(q)) {
      assert DrawnFor(c, d, q) && bed.questions[q] == QuestionOf(c, d, q);
      GoldOf(c, d, q);
      CascadeRetrieves(c, d, q, bed.pools[QueryId(q)], config, noise, rankings[q]);
    }
  }

  lemma GoldOf(c: BedConfig, d: Draws, q: nat)
    requires DrawnFor(c, d, q)
    ensures QuestionOf(c, d, q).goldDocId == GoldId(q)
  {
    hide GoldSpan, AnswerSentence, QueryText;
  }

  /** The window goes past every distractor, and yet a gold document was drawn at or beyond it. */
  ghost predicate Overshoots(c: BedConfig, d: Draws, w: nat)
  {
    exists q :: 0 <= q < c.questions && PickedCount(c) < w <= d.depth(q)
  }

  lemma CountsAgreeIff(c: BedConfig, d: Draws, w: nat)
    ensures
      var shallower, within := Count(c.questions, Shallower(d, w)), Count(c.questions, WithinWindow(c, d, w));
      shallower <= within && (shallower == within <==> !Overshoots(c, d, w))
  {
    hide PickedCount, Count;
    var within, shallower := WithinWindow(c, d, w), Shallower(d, w);
    forall q: nat ensures (shallower(q) ==> within(q)) && (shallower(q) == within(q) <==> !(PickedCount(c) < w <= d.depth(q))) {
      assert shallower(q) == (d.depth(q) < w) && within(q) == (Min(d.depth(q), PickedCount(c)) < w);
    }
    CountWeaker(c.questions, shallower, within);
  }

  /**
   The advertised share is exact at a window if and only if the window does not overshoot
   the distractors; it is never too high.
   */
  lemma ReachIsExactIff(c: BedConfig, d: Draws, bed: Bed, config: Config, noise: nat -> real, rankings: seq<seq<SelectorResult>>)
    requires InRange(c, d) && IsBed(c, d, bed) && Cascades(c, bed, config, noise, rankings)
    ensures |bed.questions| == |rankings|
    ensures Mean(RetrievedAll(bed.questions, rankings)) >= ReachableFraction(bed, config.window)
    ensures Mean(RetrievedAll(bed.questions, rankings)) == ReachableFraction(bed, config.window) <==> !Overshoots(c, d, config.window)
  {
    hide *;
    var n, w := c.questions, config.window;
    RetrievedFlags(c, d, bed, config, noise, rankings);
    DepthsOf(c, d, bed);
    FractionIsCount(d, n, bed, w);
    CountsAgreeIff(c, d, w);
    MeanFlags(n, WithinWindow(c, d, w));
    if n > 0 { CompareShares(Count(n, Shallower(d, w)), Count(n, WithinWindow(c, d, w)), n); }
    else { NoQuestions(c, d, w); }
  }

  lemma NoQuestions(c: BedConfig, d: Draws, w: nat)
    requires c.questions == 0
    ensures !Overshoots(c, d, w)
  {
  }

  lemma DepthsOf(c: BedConfig, d: Draws, bed: Bed)
    requires InRange(c, d) && IsBed(c, d, bed)
    ensures DepthsUpTo(d, c.questions, bed.goldDepth)
  {
  }

  lemma MeanFlags(n: nat, p: nat -> bool)
    ensures Mean(Flags(n, p)) == if n == 0 then 0.0 else Count(n, p) as real / n as real
  {
    SumFlags(n, p);
  }

  lemma CompareShares(a: nat, b: nat, n: nat)
    requires a <= b && n > 0
    ensures a as real / n as real <= b as real / n as real
    ensures a as real / n as real == b as real / n as real <==> a == b
  {
  }

  /** Enough distractors for the deepest draw. */
  predicate EnoughDistractors(c: BedConfig)
  {
    c.questions == 0 || DepthLimit(c) <= AtLeastOne(c.distractors) + 1
  }

  /** With enough distractors the mean retrieval of a cascade is the advertised share, at every window. */
  lemma ReachIsExact(c: BedConfig, d: Draws, bed: Bed, config: Config, noise: nat -> real, rankings: seq<seq<SelectorResult>>)
    requires InRange(c, d) && IsBed(c, d, bed) && Cascades(c, bed, config, noise, rankings) && EnoughDistractors(c)
    ensures |bed.questions| == |rankings|
    ensures Mean(RetrievedAll(bed.questions, rankings)) == ReachableFraction(bed, config.window)
  {
    hide *;
    ReachIsExactIff(c, d, bed, config, noise, rankings);
    NeverOvershoots(c, d, config.window);
  }

  lemma NeverOvershoots(c: BedConfig, d: Draws, w: nat)
    requires InRange(c, d) && EnoughDistractors(c)
    ensures !Overshoots(c, d, w)
  {
    forall q | 0 <= q < c.questions ensures d.depth(q) <= PickedCount(c) { assert DrawnFor(c, d, q); }
  }

  /** Without enough distractors some draws make the advertised share too low at some window. */
  lemma EnoughDistractorsIff(c: BedConfig)
    ensures EnoughDistractors(c)
       <==> forall d, w: nat :: InRange(c, d) ==> !Overshoots(c, d, w)
  {
    if EnoughDistractors(c) {
      forall d, w: nat | InRange(c, d) ensures !Overshoots(c, d, w) { NeverOvershoots(c, d, w); }
    } else {
      var ids, deepest := DistractorIds(c), DepthLimit(c) - 1;
      var d := Draws((i: nat, s: nat) => 0, (q: nat) => 0, (q: nat) => deepest, (q: nat) => deepest, (q: nat) => ids, (q: nat) => ids);
      assert InRange(c, d);
      assert PickedCount(c) < deepest <= d.depth(0);
      assert Overshoots(c, d, deepest);
    }
  }

  /** What an extractor can score on spans is bounded by what the bed advertises. */
  lemma SpanScoresUnderReach(c: BedConfig, d: Draws, bed: Bed, config: Config, noise: nat -> real, rankings: seq<seq<SelectorResult>>,
                             e: Extractor, alnum: CharClass, ms: seq<Metrics>)
    requires InRange(c, d) && IsBed(c, d, bed) && Cascades(c, bed, config, noise, rankings) && EnoughDistractors(c)
    requires ReportsAll(e, bed.questions, rankings, bed.corpus, alnum, ms)
    ensures Mean(RetrievedColumn(ms)) == ReachableFraction(bed, config.window)
    ensures Mean(ColumnOf(ms, SpanExact)) <= ReachableFraction(bed, config.window)
    ensures Mean(ColumnOf(ms, SpanIou)) <= ReachableFraction(bed, config.window)
  {
    ReachIsExact(c, d, bed, config, noise, rankings);
    SpansOfBed(c, d, bed);
    hide IsBed, InRange, Cascades, ReachableFraction, Reports, SpansInGold;
    forall i | 0 <= i < |ms| ensures ms[i].goldDocRetrieved == Retrieved(bed.questions[i], rankings[i]) {
      ReportRetrieved(e, bed.questions[i], rankings[i], bed.corpus, alnum, ms[i]);
    }
    assert RetrievedColumn(ms) == RetrievedAll(bed.questions, rankings);
    MeanSpanCeiling(e, bed.questions, rankings, bed.corpus, alnum, ms);
  }

  lemma SpansOfBed(c: BedConfig, d: Draws, bed: Bed)
    requires InRange(c, d) && IsBed(c, d, bed)
    ensures forall i :: 0 <= i < |bed.questions| ==> SpansInGold(bed.questions[i])
  {
    assert |bed.questions| == c.questions;
    hide SpansInGold;
    forall i | 0 <= i < |bed.questions| ensures SpansInGold(bed.questions[i]) { GoldSpanIndexesAnswer(c, d, bed, i); }
  }
}
