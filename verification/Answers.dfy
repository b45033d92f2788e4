/** Scoring an extracted answer against the gold answers, and the retrieval ceiling on answers. */
module Answers {
  import opened Sequences
  import opened Tokens
  import opened Ranking
  import opened Extraction

  datatype GoldAnswer = GoldAnswer(text: string, span: Option<Span>)
  datatype Question = Question(queryId: string, text: string, answers: seq<GoldAnswer>, goldDocId: string)
  datatype Quality = Quality(exactMatch: real, precision: real, f1: real, recall: real, spanExact: real, spanIou: real)
  datatype Metrics = Metrics(quality: Quality, goldDocRetrieved: real)

  const ZERO := Quality(0.0, 0.0, 0.0, 0.0, 0.0, 0.0)

  function Flag(b: bool): real { if b then 1.0 else 0.0 }

  /** The scores of an answer against one gold answer. */
  function Against(a: Extracted, g: GoldAnswer, alnum: CharClass): Quality
  {
    var prf := PrfOf(NormalizedTokens(a.text, alnum), NormalizedTokens(g.text, alnum));
    Quality(Flag(Normalize(a.text, alnum) == Normalize(g.text, alnum)), prf.precision, prf.f1, prf.recall,
            Flag(g.span.Some? && a.span == g.span.value), if g.span.Some? then Iou(a.span, g.span.value) else 0.0)
  }

  predicate Beats(q: Quality, best: Quality)
  {
    q.f1 > best.f1 || (q.f1 == best.f1 && q.exactMatch > best.exactMatch)
  }

  /** The best-F1 fold over the gold answers. */
  function BestOf(a: Extracted, answers: seq<GoldAnswer>, alnum: CharClass): Quality
  {
    if answers == [] then ZERO
    else
      var best, next := BestOf(a, answers[..|answers| - 1], alnum), Against(a, answers[|answers| - 1], alnum);
      if Beats(next, best) then next else best
  }

  function Retrieved(q: Question, ranking: seq<SelectorResult>): real
  {
    Flag(q.goldDocId in Docs(ranking))
  }

  function MetricsOf(q: Question, ranking: seq<SelectorResult>, r: Option<Extracted>, alnum: CharClass): Metrics
  {
    Metrics(if r.None? then ZERO else BestOf(r.value, q.answers, alnum), Retrieved(q, ranking))
  }

  /** `m` is what scoring the question on the ranking reports. */
  ghost predicate Reports(e: Extractor, q: Question, ranking: seq<SelectorResult>, corpus: Corpus, alnum: CharClass, m: Metrics)
  {
    exists r :: Extracts(e, q.text, ranking, corpus, alnum, r) && m == MetricsOf(q, ranking, r, alnum)
  }

  method ScoreOne(e: Extractor, q: Question, ranking: seq<SelectorResult>, corpus: Corpus, alnum: CharClass) returns (m: Metrics)
    ensures Reports(e, q, ranking, corpus, alnum, m)
  {
    var extracted := Extract(e, q.text, ranking, corpus, alnum);
    var retrieved := false;
    for i := 0 to |ranking|
      invariant retrieved == (q.goldDocId in Docs(ranking)[..i])
    {
      retrieved := retrieved || ranking[i].docId == q.goldDocId;
    }
    assert Docs(ranking)[..|ranking|] == Docs(ranking);
    hide Extracts, BestOf;
    if extracted.None? {
      m := Metrics(ZERO, Flag(retrieved));
    } else {
      var best := FoldAnswers(extracted.value, q.answers, alnum);
      m := Metrics(best, Flag(retrieved));
    }
    assert m == MetricsOf(q, ranking, extracted, alnum);
  }

  method FoldAnswers(a: Extracted, answers: seq<GoldAnswer>, alnum: CharClass) returns (best: Quality)
    ensures best == BestOf(a, answers, alnum)
  {
    hide Against, Beats;
    best := ZERO;
    for i := 0 to |answers|
      invariant best == BestOf(a, answers[..i], alnum)
    {
      assert answers[..i + 1][..i] == answers[..i];
      var next := ScoreAgainst(a, answers[i], alnum);
      if Beats(next, best) { best := next; }
    }
    assert answers[..|answers|] == answers;
  }

  method ScoreAgainst(a: Extracted, g: GoldAnswer, alnum: CharClass) returns (q: Quality)
    ensures q == Against(a, g, alnum)
  {
    hide Normalize, NormalizedTokens, Iou, PrfOf;
    var prf := TokenPrf(NormalizedTokens(a.text, alnum), NormalizedTokens(g.text, alnum));
    q := Quality(Flag(Normalize(a.text, alnum) == Normalize(g.text, alnum)), prf.precision, prf.f1, prf.recall, 0.0, 0.0);
    if g.span.Some? {
      q := q.(spanExact := Flag(a.span == g.span.value), spanIou := Iou(a.span, g.span.value));
    }
  }

  // ----- what the fold reports

  ghost predicate InUnit(q: Quality)
  {
    && 0.0 <= q.exactMatch <= 1.0 && 0.0 <= q.precision <= 1.0 && 0.0 <= q.f1 <= 1.0
    && 0.0 <= q.recall <= 1.0 && 0.0 <= q.spanExact <= 1.0 && 0.0 <= q.spanIou <= 1.0
  }

  ghost predicate Matches(a: Extracted, g: GoldAnswer, alnum: CharClass)
  {
    Normalize(a.text, alnum) == Normalize(g.text, alnum)
  }

  /** Scores lie in [0,1], and an exact match has F1 1. */
  lemma AgainstLaws(a: Extracted, g: GoldAnswer, alnum: CharClass)
    ensures InUnit(Against(a, g, alnum))
    ensures Against(a, g, alnum).exactMatch == if Matches(a, g, alnum) then 1.0 else 0.0
    ensures Matches(a, g, alnum) ==> Against(a, g, alnum).f1 == 1.0
  {
    F1Laws(NormalizedTokens(a.text, alnum), NormalizedTokens(g.text, alnum));
    if g.span.Some? { IouLaws(a.span, g.span.value); }
    hide Normalize, NormalizedTokens, PrfOf, Iou;
    if Matches(a, g, alnum) { SameNormalFormSameTokens(a.text, g.text, alnum); }
  }

  lemma SameNormalFormSameTokens(a: string, b: string, alnum: CharClass)
    requires Normalize(a, alnum) == Normalize(b, alnum)
    ensures NormalizedTokens(a, alnum) == NormalizedTokens(b, alnum)
  {
  }

  /**
   Multi-reference scoring: exact match is 1 exactly when some gold answer normalises to the
   prediction; F1 is the largest F1 over the gold answers; the scores are those of one gold
   answer, or zero.
   */
  lemma {:induction false} BestOfLaws(a: Extracted, answers: seq<GoldAnswer>, alnum: CharClass)
    ensures
      var best := BestOf(a, answers, alnum);
      && InUnit(best)
      && best.exactMatch == (if exists i :: 0 <= i < |answers| && Matches(a, answers[i], alnum) then 1.0 else 0.0)
      && (best.exactMatch == 1.0 ==> best.f1 == 1.0)
      && (forall i :: 0 <= i < |answers| ==> Against(a, answers[i], alnum).f1 <= best.f1)
      && (best == ZERO || exists i :: 0 <= i < |answers| && best == Against(a, answers[i], alnum))
  {
    hide Against, Matches;
    if answers != [] {
      var n := |answers| - 1;
      BestOfLaws(a, answers[..n], alnum);
      AgainstLaws(a, answers[n], alnum);
      assert answers == answers[..n] + [answers[n]];
    }
  }

  // ----- the retrieval ceiling

  lemma PassagesUnfold(ranking: seq<SelectorResult>, corpus: Corpus)
    ensures ranking == [] ==> Passages(ranking, corpus) == []
    ensures ranking != [] ==>
      Passages(ranking, corpus) == Passages(ranking[..|ranking| - 1], corpus) + PassagesIn(ranking[|ranking| - 1].docId, corpus)
  {
    hide PassagesIn;
  }

  lemma {:induction false} PassageSource(ranking: seq<SelectorResult>, corpus: Corpus, k: nat)
    requires k < |Passages(ranking, corpus)|
    ensures Passages(ranking, corpus)[k].span.docId in Docs(ranking) && Passages(ranking, corpus)[k].span.docId in corpus
  {
    hide PassagesIn;
    PassagesUnfold(ranking, corpus);
    hide Passages;
    var n := |ranking| - 1;
    var before := Passages(ranking[..n], corpus);
    if k < |before| {
      PassageSource(ranking[..n], corpus, k);
      assert Docs(ranking) == Docs(ranking[..n]) + [ranking[n].docId];
    } else {
      assert Passages(ranking, corpus)[k] == PassagesIn(ranking[n].docId, corpus)[k - |before|];
      PassagesCount(ranking[n].docId, corpus);
      assert Docs(ranking)[n] == ranking[n].docId;
    }
  }

  /** Both extractors answer out of a document of the ranking that the corpus holds. */
  lemma ExtractedFromRanking(e: Extractor, query: string, ranking: seq<SelectorResult>, corpus: Corpus, alnum: CharClass, r: Option<Extracted>)
    requires Extracts(e, query, ranking, corpus, alnum, r) && r.Some?
    ensures r.value.span.docId in Docs(ranking) && r.value.span.docId in corpus
  {
    hide Passages, NormalizedTokens, Score;
    match e
    case WholeTopDocument =>
      assert Docs(ranking)[0] == ranking[0].docId;
    case BestSentence(depth) =>
      var ps, tokens := Passages(Head(ranking, depth), corpus), NormalizedTokens(query, alnum);
      var p :| Chooses(ps, tokens, alnum, p) && r == AnswerOf(p);
      var k :| FirstBest(ps, k, tokens, alnum) && p.value == ps[k];
      PassageSource(Head(ranking, depth), corpus, k);
      assert Docs(Head(ranking, depth)) == Docs(ranking)[..Min(depth, |ranking|)];
  }

  ghost predicate SpansInGold(q: Question)
  {
    forall i :: 0 <= i < |q.answers| && q.answers[i].span.Some? ==> q.answers[i].span.value.docId == q.goldDocId
  }

  /** No span score beats the retrieval of the gold document, whatever the ranking and the extractor. */
  lemma SpanCeiling(e: Extractor, q: Question, ranking: seq<SelectorResult>, corpus: Corpus, alnum: CharClass, m: Metrics)
    requires SpansInGold(q) && Reports(e, q, ranking, corpus, alnum, m)
    ensures m.quality.spanExact <= m.goldDocRetrieved && m.quality.spanIou <= m.goldDocRetrieved
  {
    hide Extracts, BestOf;
    var r :| Extracts(e, q.text, ranking, corpus, alnum, r) && m == MetricsOf(q, ranking, r, alnum);
    if r.Some? {
      ExtractedFromRanking(e, q.text, ranking, corpus, alnum, r);
      BestOfLaws(r.value, q.answers, alnum);
      forall i | 0 <= i < |q.answers| && m.quality == Against(r.value, q.answers[i], alnum)
        ensures m.quality.spanExact <= m.goldDocRetrieved && m.quality.spanIou <= m.goldDocRetrieved {
        SpanAgainst(r.value, q.answers[i], alnum);
      }
    }
  }

  /** A span score above 0 means the answer stands in the gold answer's document. */
  lemma SpanAgainst(a: Extracted, g: GoldAnswer, alnum: CharClass)
    ensures
      var q := Against(a, g, alnum);
      q.spanExact > 0.0 || q.spanIou > 0.0 ==> g.span.Some? && a.span.docId == g.span.value.docId
  {
    if g.span.Some? { IouLaws(a.span, g.span.value); }
    hide Normalize, NormalizedTokens, PrfOf, Iou;
  }

  datatype Column = ExactMatch | Precision | F1 | Recall | SpanExact | SpanIou

  function Value(c: Column, q: Quality): real
  {
    match c
    case ExactMatch => q.exactMatch
    case Precision => q.precision
    case F1 => q.f1
    case Recall => q.recall
    case SpanExact => q.spanExact
    case SpanIou => q.spanIou
  }

  function ColumnOf(ms: seq<Metrics>, c: Column): (v: seq<real>)
    ensures |v| == |ms| && forall i :: 0 <= i < |ms| ==> v[i] == Value(c, ms[i].quality)
  {
    seq(|ms|, i requires 0 <= i < |ms| => Value(c, ms[i].quality))
  }

  function RetrievedColumn(ms: seq<Metrics>): (v: seq<real>)
    ensures |v| == |ms| && forall i :: 0 <= i < |ms| ==> v[i] == ms[i].goldDocRetrieved
  {
    seq(|ms|, i requires 0 <= i < |ms| => ms[i].goldDocRetrieved)
  }

  /** `ms` are the reports for every question on its ranking. */
  ghost predicate ReportsAll(e: Extractor, qs: seq<Question>, rankings: seq<seq<SelectorResult>>, corpus: Corpus, alnum: CharClass, ms: seq<Metrics>)
  {
    |qs| == |rankings| == |ms| && forall i :: 0 <= i < |qs| ==> Reports(e, qs[i], rankings[i], corpus, alnum, ms[i])
  }

  /** The aggregated span scores stay under the aggregated retrieval ceiling. */
  lemma MeanSpanCeiling(e: Extractor, qs: seq<Question>, rankings: seq<seq<SelectorResult>>, corpus: Corpus, alnum: CharClass, ms: seq<Metrics>)
    requires ReportsAll(e, qs, rankings, corpus, alnum, ms)
    requires forall i :: 0 <= i < |qs| ==> SpansInGold(qs[i])
    ensures Mean(ColumnOf(ms, SpanExact)) <= Mean(RetrievedColumn(ms))
    ensures Mean(ColumnOf(ms, SpanIou)) <= Mean(RetrievedColumn(ms))
  {
    hide Reports, SpansInGold;
    forall i | 0 <= i < |ms|
      ensures ms[i].quality.spanExact <= ms[i].goldDocRetrieved && ms[i].quality.spanIou <= ms[i].goldDocRetrieved {
      SpanCeiling(e, qs[i], rankings[i], corpus, alnum, ms[i]);
    }
    MeanMonotone(ColumnOf(ms, SpanExact), RetrievedColumn(ms));
    MeanMonotone(ColumnOf(ms, SpanIou), RetrievedColumn(ms));
  }
}
