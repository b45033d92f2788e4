/**
 The generated question bed: one gold document per question, placed at a drawn depth of the
 vector ranking among shuffled distractors. The random draws are parameters.
 */
module QaBed {
  import opened Sequences
  import opened Sentences
  import opened Ranking
  import opened Pools
  import opened Extraction
  import opened Answers
  import opened QaTexts

  datatype BedConfig = BedConfig(questions: nat, distractors: nat, poolSize: nat, sentencesPerDoc: nat, maxGoldDepth: nat)

  /** What the generator draws for question `q`; `topic(i, s)` is for sentence `s` of distractor `i`. */
  datatype Draws = Draws(
    topic: (nat, nat) -> nat, answerIndex: nat -> nat, depth: nat -> nat, bm25Depth: nat -> nat,
    vectorOrder: nat -> seq<string>, bm25Order: nat -> seq<string>)

  datatype Query = Query(queryId: string, text: string)

  datatype Bed = Bed(
    questions: seq<Question>, corpus: Corpus, truths: seq<GroundTruth>, pools: map<string, CandidatePool>,
    queries: seq<Query>, goldDepth: map<string, nat>)

  function DistractorIds(c: BedConfig): (ids: seq<string>)
    ensures |ids| == AtLeastOne(c.distractors)
  {
    seq(AtLeastOne(c.distractors), i requires 0 <= i < AtLeastOne(c.distractors) => DistractorId(i))
  }

  /** The exclusive bound of the drawn depths. */
  function DepthLimit(c: BedConfig): (n: nat)
    ensures n > 0
  {
    Min(AtLeastOne(c.maxGoldDepth), AtLeastOne(c.poolSize))
  }

  /** Draws in the ranges the generator asks for; the orders are shuffles of the distractors. */
  ghost predicate InRange(c: BedConfig, d: Draws)
  {
    forall q :: 0 <= q < c.questions ==> DrawnFor(c, d, q)
  }

  ghost predicate DrawnFor(c: BedConfig, d: Draws, q: nat)
  {
    && d.answerIndex(q) < AtLeastOne(c.sentencesPerDoc)
    && d.depth(q) < DepthLimit(c) && d.bm25Depth(q) < DepthLimit(c)
    && multiset(d.vectorOrder(q)) == multiset(DistractorIds(c)) == multiset(d.bm25Order(q))
  }

  // ----- one retriever's ranking

  /** The distractors that fit beside the gold document. */
  function Picked(order: seq<string>, poolSize: nat): seq<string>
  {
    order[..Min(if poolSize == 0 then 0 else poolSize - 1, |order|)]
  }

  function Placed(gold: string, order: seq<string>, depth: nat, poolSize: nat): seq<string>
  {
    var docs := Picked(order, poolSize);
    var at := Min(depth, |docs|);
    docs[..at] + [gold] + docs[at..]
  }

  function MakeRanking(gold: string, order: seq<string>, depth: nat, poolSize: nat, source: Source): (cs: seq<Candidate>)
    ensures |cs| == |Placed(gold, order, depth, poolSize)|
    ensures forall i :: 0 <= i < |cs| ==>
      cs[i] == Candidate(Placed(gold, order, depth, poolSize)[i], 1.0 - i as real / (poolSize + 1) as real, source)
  {
    var docs := Placed(gold, order, depth, poolSize);
    seq(|docs|, i requires 0 <= i < |docs| => Candidate(docs[i], 1.0 - i as real / (poolSize + 1) as real, source))
  }

  lemma ScoreFalls(i: nat, j: nat, n: nat)
    requires i < j < n
    ensures 1.0 - i as real / n as real > 1.0 - j as real / n as real > 0.0
  {
  }

  /**
   The ranking is duplicate-free and strictly descending with scores in (0,1], and the gold
   document stands at the drawn depth, or last when there are not enough distractors.
   */
  lemma RankingLaws(gold: string, order: seq<string>, depth: nat, poolSize: nat, source: Source)
    requires Distinct(order) && gold !in order && poolSize > 0
    ensures
      var cs := MakeRanking(gold, order, depth, poolSize, source);
      && Distinct(Ids(cs)) && Descending(cs) && |cs| == |Picked(order, poolSize)| + 1
      && (forall i :: 0 <= i < |cs| ==> 0.0 < cs[i].score <= 1.0)
      && forall i :: 0 <= i < |cs| ==> (cs[i].docId == gold <==> i == Min(depth, |Picked(order, poolSize)|))
  {
    hide *;
    PlacedOnce(gold, order, depth, poolSize);
    RankedDocs(gold, order, depth, poolSize, source);
    RankedScores(gold, order, depth, poolSize, source);
  }

  /** The ranking lists the placed documents in their order. */
  lemma RankedDocs(gold: string, order: seq<string>, depth: nat, poolSize: nat, source: Source)
    ensures
      var cs, docs := MakeRanking(gold, order, depth, poolSize, source), Placed(gold, order, depth, poolSize);
      && Ids(cs) == docs && |cs| == |docs|
      && forall i :: 0 <= i < |cs| ==> cs[i].docId == docs[i]
  {
    hide Placed;
  }

  lemma RankedScores(gold: string, order: seq<string>, depth: nat, poolSize: nat, source: Source)
    requires |Placed(gold, order, depth, poolSize)| <= poolSize
    ensures
      var cs := MakeRanking(gold, order, depth, poolSize, source);
      Descending(cs) && forall i :: 0 <= i < |cs| ==> 0.0 < cs[i].score <= 1.0
  {
    hide Placed;
    var cs := MakeRanking(gold, order, depth, poolSize, source);
    forall i, j | 0 <= i < j < |cs| ensures Ahead(cs[i], cs[j]) { ScoreFalls(i, j, poolSize + 1); }
    forall i | 0 <= i < |cs| ensures 0.0 < cs[i].score <= 1.0 { ScoreFalls(i, poolSize, poolSize + 1); }
  }

  lemma PlacedAt(gold: string, order: seq<string>, depth: nat, poolSize: nat)
    requires poolSize > 0
    ensures
      var docs, n := Placed(gold, order, depth, poolSize), |Picked(order, poolSize)|;
      && n <= |order| && n < poolSize && |docs| == n + 1
      && forall i :: 0 <= i <= n ==> docs[i] == if i < Min(depth, n) then order[i] else if i == Min(depth, n) then gold else order[i - 1]
  {
  }

  lemma PlacedOnce(gold: string, order: seq<string>, depth: nat, poolSize: nat)
    requires Distinct(order) && gold !in order && poolSize > 0
    ensures
      var docs := Placed(gold, order, depth, poolSize);
      && Distinct(docs) && |docs| == |Picked(order, poolSize)| + 1 <= poolSize
      && forall i :: 0 <= i < |docs| ==> (docs[i] == gold <==> i == Min(depth, |Picked(order, poolSize)|))
  {
    var picked := Picked(order, poolSize);
    var at := Min(depth, |picked|);
    var docs := Placed(gold, order, depth, poolSize);
    forall i | 0 <= i < |order| ensures order[i] != gold { assert order[i] in order; }
    PlacedAt(gold, order, depth, poolSize);
    hide Placed, Picked;
    forall i, j | 0 <= i < j < |docs| ensures docs[i] != docs[j] { }
  }

  // ----- the pool of a question

  ghost predicate IsPool(c: BedConfig, d: Draws, q: nat, pool: CandidatePool)
  {
    && pool.queryId == QueryId(q)
    && pool.vector == MakeRanking(GoldId(q), d.vectorOrder(q), d.depth(q), AtLeastOne(c.poolSize), Vector)
    && pool.bm25 == MakeRanking(GoldId(q), d.bm25Order(q), d.bm25Depth(q), AtLeastOne(c.poolSize), BM25)
    && IsUnion(pool.vector + pool.bm25, pool.union)
  }

  method BuildPool(c: BedConfig, d: Draws, q: nat) returns (pool: CandidatePool)
    ensures IsPool(c, d, q, pool)
  {
    hide MakeRanking, IsUnion;
    var vector := MakeRanking(GoldId(q), d.vectorOrder(q), d.depth(q), AtLeastOne(c.poolSize), Vector);
    var bm25 := MakeRanking(GoldId(q), d.bm25Order(q), d.bm25Depth(q), AtLeastOne(c.poolSize), BM25);
    var union := UnionOf(vector, bm25);
    pool := CandidatePool(QueryId(q), vector, bm25, union);
  }

  // ----- the bed

  function QuestionOf(c: BedConfig, d: Draws, q: nat): Question
    requires DrawnFor(c, d, q)
  {
    var span := GoldSpan(AtLeastOne(c.sentencesPerDoc), d.answerIndex(q), q);
    Question(QueryId(q), QueryText(q), [GoldAnswer(AnswerSentence(q), Some(span))], GoldId(q))
  }

  function GoldText(c: BedConfig, d: Draws, q: nat): string
  {
    Join(GoldSentences(AtLeastOne(c.sentencesPerDoc), d.answerIndex(q), q))
  }

  function DistractorSentences(c: BedConfig, d: Draws, i: nat): (ss: seq<string>)
    ensures |ss| == AtLeastOne(c.sentencesPerDoc)
  {
    var n := AtLeastOne(c.sentencesPerDoc);
    seq(n, s requires 0 <= s < n =>
      if s % 3 == 0 && c.questions > 0 then NearMissSentence(d.topic(i, s), s, i) else FillerSentence(s, i))
  }

  function DistractorText(c: BedConfig, d: Draws, i: nat): string
  {
    Join(DistractorSentences(c, d, i))
  }

  ghost predicate QuestionsUpTo(c: BedConfig, d: Draws, n: nat, questions: seq<Question>)
    requires InRange(c, d) && n <= c.questions
  {
    |questions| == n && forall q :: 0 <= q < n ==> questions[q] == QuestionOf(c, d, q)
  }

  /** The selector harness's inputs: per question its id and text, and its gold document as the only relevant one. */
  ghost predicate HarnessInputs(n: nat, truths: seq<GroundTruth>, queries: seq<Query>)
  {
    && |truths| == |queries| == n
    && forall q :: 0 <= q < n ==> truths[q] == GroundTruth(QueryId(q), [GoldId(q)]) && queries[q] == Query(QueryId(q), QueryText(q))
  }

  ghost predicate PoolsUpTo(c: BedConfig, d: Draws, n: nat, pools: map<string, CandidatePool>)
  {
    forall q :: 0 <= q < n ==> QueryId(q) in pools && IsPool(c, d, q, pools[QueryId(q)])
  }

  /** The ids of the questions below `n`. */
  function QueryIds(n: nat): set<string>
  {
    if n == 0 then {} else QueryIds(n - 1) + {QueryId(n - 1)}
  }

  ghost predicate DepthsUpTo(d: Draws, n: nat, depths: map<string, nat>)
  {
    depths.Keys == QueryIds(n) && forall q :: 0 <= q < n ==> QueryId(q) in depths && depths[QueryId(q)] == d.depth(q)
  }

  ghost predicate GoldTextsUpTo(c: BedConfig, d: Draws, n: nat, corpus: Corpus)
  {
    forall q :: 0 <= q < n ==> GoldId(q) in corpus && corpus[GoldId(q)] == GoldText(c, d, q)
  }

  ghost predicate DistractorsUpTo(c: BedConfig, d: Draws, n: nat, corpus: Corpus)
  {
    forall i :: 0 <= i < n ==> DistractorId(i) in corpus && corpus[DistractorId(i)] == DistractorText(c, d, i)
  }

  ghost predicate IsGold(n: nat, id: string)
  {
    exists q :: 0 <= q < n && id == GoldId(q)
  }

  ghost predicate IsDistractor(n: nat, id: string)
  {
    exists i :: 0 <= i < n && id == DistractorId(i)
  }

  /** The corpus holds no other documents. */
  ghost predicate NothingElse(golds: nat, distractors: nat, corpus: Corpus)
  {
    forall id :: id in corpus ==> IsGold(golds, id) || IsDistractor(distractors, id)
  }

  ghost predicate IsBed(c: BedConfig, d: Draws, bed: Bed)
    requires InRange(c, d)
  {
    && QuestionsUpTo(c, d, c.questions, bed.questions) && PoolsUpTo(c, d, c.questions, bed.pools)
    && DepthsUpTo(d, c.questions, bed.goldDepth) && GoldTextsUpTo(c, d, c.questions, bed.corpus)
    && DistractorsUpTo(c, d, AtLeastOne(c.distractors), bed.corpus)
    && NothingElse(c.questions, AtLeastOne(c.distractors), bed.corpus)
    && HarnessInputs(c.questions, bed.truths, bed.queries)
  }

  method GenerateQaBed(c: BedConfig, d: Draws) returns (bed: Bed)
    requires InRange(c, d)
    ensures IsBed(c, d, bed)
  {
    hide *;
    var corpus := Distractors(c, d);
    var questions: seq<Question>, pools: map<string, CandidatePool>, depths: map<string, nat> := [], map[], map[];
    var truths: seq<GroundTruth>, queries: seq<Query> := [], [];
    NothingYet(c, d, corpus);
    for q := 0 to c.questions
      invariant QuestionsUpTo(c, d, q, questions) && PoolsUpTo(c, d, q, pools) && DepthsUpTo(d, q, depths)
      invariant HarnessInputs(q, truths, queries)
      invariant GoldTextsUpTo(c, d, q, corpus) && DistractorsUpTo(c, d, AtLeastOne(c.distractors), corpus)
      invariant NothingElse(q, AtLeastOne(c.distractors), corpus)
    {
      AnswerInRange(c, d, q);
      var text := GoldText(c, d, q);
      GoldTextIs(c, d, q);
      var span := LocateGold(AtLeastOne(c.sentencesPerDoc), d.answerIndex(q), q, text);
      var question := Question(QueryId(q), QueryText(q), [GoldAnswer(AnswerSentence(q), span)], GoldId(q));
      QuestionNext(c, d, q, questions, question);
      questions := questions + [question];
      CorpusNext(c, d, q, AtLeastOne(c.distractors), corpus);
      GoldAdded(q, AtLeastOne(c.distractors), corpus, text);
      corpus := corpus[GoldId(q) := text];
      DepthNext(d, q, depths);
      depths := depths[QueryId(q) := d.depth(q)];
      var pool := BuildPool(c, d, q);
      PoolNext(c, d, q, pools, pool);
      pools := pools[QueryId(q) := pool];
      InputsNext(q, truths, queries);
      truths, queries := truths + [GroundTruth(QueryId(q), [GoldId(q)])], queries + [Query(QueryId(q), QueryText(q))];
    }
    bed := Bed(questions, corpus, truths, pools, queries, depths);
    BedIs(c, d, bed);
  }

  lemma BedIs(c: BedConfig, d: Draws, bed: Bed)
    requires InRange(c, d)
    requires QuestionsUpTo(c, d, c.questions, bed.questions) && PoolsUpTo(c, d, c.questions, bed.pools)
    requires DepthsUpTo(d, c.questions, bed.goldDepth) && GoldTextsUpTo(c, d, c.questions, bed.corpus)
    requires DistractorsUpTo(c, d, AtLeastOne(c.distractors), bed.corpus) && HarnessInputs(c.questions, bed.truths, bed.queries)
    requires NothingElse(c.questions, AtLeastOne(c.distractors), bed.corpus)
    ensures IsBed(c, d, bed)
  {
  }

  method Distractors(c: BedConfig, d: Draws) returns (corpus: Corpus)
    ensures DistractorsUpTo(c, d, AtLeastOne(c.distractors), corpus)
    ensures NothingElse(0, AtLeastOne(c.distractors), corpus)
  {
    hide DistractorText, DistractorId;
    corpus := map[];
    for i := 0 to AtLeastOne(c.distractors)
      invariant DistractorsUpTo(c, d, i, corpus) && NothingElse(0, i, corpus)
    {
      DistractorAdded(i, corpus, DistractorText(c, d, i));
      forall k | 0 <= k < i ensures DistractorId(k) != DistractorId(i) { IdsDiffer(k, i); }
      corpus := corpus[DistractorId(i) := DistractorText(c, d, i)];
    }
  }

  lemma DistractorAdded(i: nat, corpus: Corpus, text: string)
    requires NothingElse(0, i, corpus)
    ensures NothingElse(0, i + 1, corpus[DistractorId(i) := text])
  {
    hide DistractorId, GoldId;
    forall id | id in corpus[DistractorId(i) := text] ensures IsGold(0, id) || IsDistractor(i + 1, id) {
      assert id == DistractorId(i) || IsGold(0, id) || IsDistractor(i, id);
    }
  }

  lemma GoldAdded(q: nat, n: nat, corpus: Corpus, text: string)
    requires NothingElse(q, n, corpus)
    ensures NothingElse(q + 1, n, corpus[GoldId(q) := text])
  {
    hide DistractorId, GoldId;
    forall id | id in corpus[GoldId(q) := text] ensures IsGold(q + 1, id) || IsDistractor(n, id) {
      assert id == GoldId(q) || IsGold(q, id) || IsDistractor(n, id);
    }
  }

  lemma NothingYet(c: BedConfig, d: Draws, corpus: Corpus)
    requires InRange(c, d)
    ensures QuestionsUpTo(c, d, 0, []) && PoolsUpTo(c, d, 0, map[]) && DepthsUpTo(d, 0, map[]) && GoldTextsUpTo(c, d, 0, corpus)
    ensures HarnessInputs(0, [], [])
  {
  }

  lemma InputsNext(q: nat, truths: seq<GroundTruth>, queries: seq<Query>)
    requires HarnessInputs(q, truths, queries)
    ensures HarnessInputs(q + 1, truths + [GroundTruth(QueryId(q), [GoldId(q)])], queries + [Query(QueryId(q), QueryText(q))])
  {
    hide QueryId, GoldId, QueryText;
  }

  lemma AnswerInRange(c: BedConfig, d: Draws, q: nat)
    requires InRange(c, d) && q < c.questions
    ensures DrawnFor(c, d, q) && d.answerIndex(q) < AtLeastOne(c.sentencesPerDoc)
  {
  }

  lemma GoldTextIs(c: BedConfig, d: Draws, q: nat)
    ensures GoldText(c, d, q) == Join(GoldSentences(AtLeastOne(c.sentencesPerDoc), d.answerIndex(q), q))
  {
  }

  lemma QuestionNext(c: BedConfig, d: Draws, q: nat, questions: seq<Question>, question: Question)
    requires InRange(c, d) && q < c.questions && QuestionsUpTo(c, d, q, questions)
    requires DrawnFor(c, d, q) && d.answerIndex(q) < AtLeastOne(c.sentencesPerDoc)
    requires question == Question(QueryId(q), QueryText(q),
                                  [GoldAnswer(AnswerSentence(q), Some(GoldSpan(AtLeastOne(c.sentencesPerDoc), d.answerIndex(q), q)))], GoldId(q))
    ensures QuestionsUpTo(c, d, q + 1, questions + [question])
  {
    hide QueryText, AnswerSentence, GoldSpan, QueryId, GoldId, GoldSentences, DrawnFor, Join;
  }

  lemma CorpusNext(c: BedConfig, d: Draws, q: nat, n: nat, corpus: Corpus)
    requires GoldTextsUpTo(c, d, q, corpus) && DistractorsUpTo(c, d, n, corpus)
    ensures GoldTextsUpTo(c, d, q + 1, corpus[GoldId(q) := GoldText(c, d, q)])
    ensures DistractorsUpTo(c, d, n, corpus[GoldId(q) := GoldText(c, d, q)])
  {
    hide GoldText, DistractorText, GoldId, DistractorId;
    forall k | 0 <= k < q ensures GoldId(k) != GoldId(q) { IdsDiffer(k, q); }
    forall i | 0 <= i < n ensures DistractorId(i) != GoldId(q) { IdsDiffer(q, i); }
  }

  lemma DepthNext(d: Draws, q: nat, depths: map<string, nat>)
    requires DepthsUpTo(d, q, depths)
    ensures DepthsUpTo(d, q + 1, depths[QueryId(q) := d.depth(q)])
  {
    hide QueryId;
    forall k | 0 <= k < q ensures QueryId(k) != QueryId(q) { IdsDiffer(k, q); }
  }

  lemma PoolNext(c: BedConfig, d: Draws, q: nat, pools: map<string, CandidatePool>, pool: CandidatePool)
    requires PoolsUpTo(c, d, q, pools) && IsPool(c, d, q, pool)
    ensures PoolsUpTo(c, d, q + 1, pools[QueryId(q) := pool])
  {
    hide QueryId, IsPool;
    forall k | 0 <= k < q ensures QueryId(k) != QueryId(q) { IdsDiffer(k, q); }
  }

  /** Every question's gold span lies in the gold document and indexes the answer there. */
  lemma GoldSpanIndexesAnswer(c: BedConfig, d: Draws, bed: Bed, q: nat)
    requires InRange(c, d) && IsBed(c, d, bed) && q < c.questions
    ensures
      var question := bed.questions[q];
      && question.goldDocId in bed.corpus && SpansInGold(question) && |question.answers| == 1
      && question.answers[0].span.Some?
      && var span := question.answers[0].span.value;
         span.end <= |bed.corpus[question.goldDocId]| && bed.corpus[question.goldDocId][span.start..span.end] == question.answers[0].text
  {
    hide Join, AnswerSentence, QueryText, GoldSentences;
    assert bed.questions[q] == QuestionOf(c, d, q);
  }
}
