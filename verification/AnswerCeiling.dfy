/**
 The program calls the retrieval of the gold document a ceiling no extractor can beat. For
 span scores that is so. For text scores it fails when another document happens to hold the
 answer, and this module says exactly when.
 */
module AnswerCeiling {
  import opened Sequences
  import opened Sentences
  import opened Tokens
  import opened Ranking
  import opened Extraction
  import opened Answers

  /** A ranking of one document. */
  function Alone(docId: string): seq<SelectorResult>
  {
    [SelectorResult(docId, 0.0, 0, Hybrid)]
  }

  /** The column never beats the retrieval of the gold document, on any ranking. */
  ghost predicate CeilingHolds(e: Extractor, q: Question, corpus: Corpus, alnum: CharClass, c: Column)
  {
    forall ranking, m :: Reports(e, q, ranking, corpus, alnum, m) ==> Value(c, m.quality) <= m.goldDocRetrieved
  }

  /** Read alone, the document scores nothing. */
  ghost predicate ScoresNothing(e: Extractor, q: Question, corpus: Corpus, alnum: CharClass, c: Column, docId: string)
  {
    forall m :: Reports(e, q, Alone(docId), corpus, alnum, m) ==> Value(c, m.quality) == 0.0
  }

  // ----- an answer from a ranking is the answer from its own document alone

  /** The first best passage of a ranking is the first best passage of its own document. */
  lemma {:induction false} BestInOwnDocument(ranking: seq<SelectorResult>, corpus: Corpus, query: seq<string>, alnum: CharClass, k: int)
    requires FirstBest(Passages(ranking, corpus), k, query, alnum)
    ensures
      var p := Passages(ranking, corpus)[k];
      exists j :: FirstBest(PassagesIn(p.span.docId, corpus), j, query, alnum) && p == PassagesIn(p.span.docId, corpus)[j]
  {
    hide Score, PassagesIn, Passages, FirstBest;
    PassagesUnfold(ranking, corpus);
    NoneIsBest(query, alnum);
    var n := |ranking| - 1;
    var before, last := Passages(ranking[..n], corpus), PassagesIn(ranking[n].docId, corpus);
    BestOfParts(before, last, k, query, alnum);
    if k < |before| {
      assert Passages(ranking, corpus)[k] == before[k];
      BestInOwnDocument(ranking[..n], corpus, query, alnum, k);
    } else {
      var j := k - |before|;
      assert Passages(ranking, corpus)[k] == last[j];
      assert last[j].span.docId == ranking[n].docId;
    }
  }

  /** The first best of two lists together is the first best of the list it stands in. */
  lemma BestOfParts(a: seq<Passage>, b: seq<Passage>, k: int, query: seq<string>, alnum: CharClass)
    requires FirstBest(a + b, k, query, alnum)
    ensures 0 <= k < |a + b|
    ensures k < |a| ==> FirstBest(a, k, query, alnum)
    ensures k >= |a| ==> FirstBest(b, k - |a|, query, alnum)
  {
    hide Score;
    if k < |a| {
      forall i | 0 <= i < |a| ensures a[i] == (a + b)[i] { }
    } else {
      forall i | 0 <= i < |b| ensures b[i] == (a + b)[|a| + i] { }
    }
  }

  lemma PassagesAlone(docId: string, corpus: Corpus)
    ensures Passages(Alone(docId), corpus) == PassagesIn(docId, corpus)
  {
    var r := Alone(docId);
    assert r[..0] == [];
    assert Passages(r[..0], corpus) == [];
  }

  lemma ExtractsFromOne(e: Extractor, query: string, ranking: seq<SelectorResult>, corpus: Corpus, alnum: CharClass, r: Option<Extracted>)
    requires Extracts(e, query, ranking, corpus, alnum, r) && r.Some?
    ensures Extracts(e, query, Alone(r.value.span.docId), corpus, alnum, r)
  {
    if e.BestSentence? {
      hide Passages, NormalizedTokens, Chooses;
      var tokens := NormalizedTokens(query, alnum);
      var p :| Chooses(Passages(Head(ranking, e.readDepth), corpus), tokens, alnum, p) && r == AnswerOf(p);
      ChoosesFromOne(ranking, e.readDepth, corpus, tokens, alnum, p.value);
    }
  }

  lemma ChoosesFromOne(ranking: seq<SelectorResult>, depth: nat, corpus: Corpus, tokens: seq<string>, alnum: CharClass, p: Passage)
    requires Chooses(Passages(Head(ranking, depth), corpus), tokens, alnum, Some(p))
    ensures Chooses(Passages(Head(Alone(p.span.docId), depth), corpus), tokens, alnum, Some(p))
  {
    hide Passages, PassagesIn, Score;
    var ps := Passages(Head(ranking, depth), corpus);
    var k :| FirstBest(ps, k, tokens, alnum) && p == ps[k];
    BestInOwnDocument(Head(ranking, depth), corpus, tokens, alnum, k);
    DepthOne(ranking, depth, corpus, p.span.docId, k);
    PassagesAlone(p.span.docId, corpus);
  }

  lemma DepthOne(ranking: seq<SelectorResult>, depth: nat, corpus: Corpus, docId: string, k: int)
    requires 0 <= k < |Passages(Head(ranking, depth), corpus)|
    ensures Head(Alone(docId), depth) == Alone(docId)
  {
  }

  /**
   Rankings reduce to single documents: the ceiling holds for a column on every ranking
   exactly when it holds on the rankings of one document.
   */
  lemma CeilingReduces(e: Extractor, q: Question, corpus: Corpus, alnum: CharClass, c: Column)
    ensures CeilingHolds(e, q, corpus, alnum, c)
       <==> forall d :: d in corpus && d != q.goldDocId ==> ScoresNothing(e, q, corpus, alnum, c, d)
  {
    hide Extracts, BestOf;
    if CeilingHolds(e, q, corpus, alnum, c) {
      forall d, m | d in corpus && d != q.goldDocId && Reports(e, q, Alone(d), corpus, alnum, m) ensures Value(c, m.quality) == 0.0 {
        ReportInUnit(e, q, Alone(d), corpus, alnum, m, c);
        AloneMissesGold(q, d);
        ReportRetrieved(e, q, Alone(d), corpus, alnum, m);
      }
    }
    if forall d :: d in corpus && d != q.goldDocId ==> ScoresNothing(e, q, corpus, alnum, c, d) {
      forall ranking, m | Reports(e, q, ranking, corpus, alnum, m) ensures Value(c, m.quality) <= m.goldDocRetrieved {
        UnderCeiling(e, q, ranking, corpus, alnum, m, c);
      }
    }
  }

  lemma AloneMissesGold(q: Question, d: string)
    requires d != q.goldDocId
    ensures Retrieved(q, Alone(d)) == 0.0
  {
  }

  lemma ReportRetrieved(e: Extractor, q: Question, ranking: seq<SelectorResult>, corpus: Corpus, alnum: CharClass, m: Metrics)
    requires Reports(e, q, ranking, corpus, alnum, m)
    ensures m.goldDocRetrieved == Retrieved(q, ranking)
  {
    hide Extracts, BestOf;
  }

  lemma ReportInUnit(e: Extractor, q: Question, ranking: seq<SelectorResult>, corpus: Corpus, alnum: CharClass, m: Metrics, c: Column)
    requires Reports(e, q, ranking, corpus, alnum, m)
    ensures 0.0 <= Value(c, m.quality) <= 1.0
  {
    hide Extracts, BestOf;
    var r :| Extracts(e, q.text, ranking, corpus, alnum, r) && m == MetricsOf(q, ranking, r, alnum);
    if r.Some? { BestOfLaws(r.value, q.answers, alnum); }
  }

  lemma UnderCeiling(e: Extractor, q: Question, ranking: seq<SelectorResult>, corpus: Corpus, alnum: CharClass, m: Metrics, c: Column)
    requires Reports(e, q, ranking, corpus, alnum, m)
    requires forall d :: d in corpus && d != q.goldDocId ==> ScoresNothing(e, q, corpus, alnum, c, d)
    ensures Value(c, m.quality) <= m.goldDocRetrieved
  {
    hide Extracts, BestOf;
    ReportInUnit(e, q, ranking, corpus, alnum, m, c);
    var r :| Extracts(e, q.text, ranking, corpus, alnum, r) && m == MetricsOf(q, ranking, r, alnum);
    if q.goldDocId !in Docs(ranking) && r.Some? {
      var d := r.value.span.docId;
      ExtractedFromRanking(e, q.text, ranking, corpus, alnum, r);
      ExtractsFromOne(e, q.text, ranking, corpus, alnum, r);
      assert ScoresNothing(e, q, corpus, alnum, c, d);
      assert Reports(e, q, Alone(d), corpus, alnum, MetricsOf(q, Alone(d), r, alnum));
    }
  }

  // ----- what the texts must not do

  /** The passage an extractor reads out of one document. */
  ghost predicate Reads(e: Extractor, query: string, corpus: Corpus, alnum: CharClass, d: string, a: Extracted)
  {
    match e
    case WholeTopDocument => d in corpus && a == Extracted(corpus[d], TextSpan(d, 0, |corpus[d]|))
    case BestSentence(depth) =>
      depth > 0 && exists k ::
        FirstBest(PassagesIn(d, corpus), k, NormalizedTokens(query, alnum), alnum) && 0 <= k < |PassagesIn(d, corpus)|
        && a == Extracted(PassagesIn(d, corpus)[k].text, PassagesIn(d, corpus)[k].span)
  }

  /** The two texts have a token in common, or neither has any. */
  ghost predicate SharesToken(a: string, b: string, alnum: CharClass)
  {
    var p, g := NormalizedTokens(a, alnum), NormalizedTokens(b, alnum);
    (p == [] && g == []) || exists t :: t in p && t in g
  }

  lemma ReadsAlone(e: Extractor, query: string, corpus: Corpus, alnum: CharClass, d: string, a: Extracted)
    ensures Extracts(e, query, Alone(d), corpus, alnum, Some(a)) <==> Reads(e, query, corpus, alnum, d, a)
  {
    hide Passages, PassagesIn, NormalizedTokens, Chooses, FirstBest;
    if e.BestSentence? {
      PassagesAlone(d, corpus);
      HeadOfOne(d, e.readDepth, corpus);
      ChoosesAnswer(PassagesIn(d, corpus), NormalizedTokens(query, alnum), alnum, a);
      ChoosesAnswer([], NormalizedTokens(query, alnum), alnum, a);
      NoneIsBest(NormalizedTokens(query, alnum), alnum);
    }
  }

  lemma NoneIsBest(query: seq<string>, alnum: CharClass)
    ensures forall k :: !FirstBest([], k, query, alnum)
  {
  }

  /** An answer is chosen exactly when it is the first best passage. */
  lemma ChoosesAnswer(ps: seq<Passage>, query: seq<string>, alnum: CharClass, a: Extracted)
    ensures (exists p :: Chooses(ps, query, alnum, p) && Some(a) == AnswerOf(p))
       <==> exists k :: FirstBest(ps, k, query, alnum) && 0 <= k < |ps| && a == Extracted(ps[k].text, ps[k].span)
  {
    hide Score;
    if p :| Chooses(ps, query, alnum, p) && Some(a) == AnswerOf(p) {
      var k :| FirstBest(ps, k, query, alnum) && p.value == ps[k];
      assert FirstBest(ps, k, query, alnum) && a == Extracted(ps[k].text, ps[k].span);
    }
    if k :| FirstBest(ps, k, query, alnum) && a == Extracted(ps[k].text, ps[k].span) {
      assert Chooses(ps, query, alnum, Some(ps[k])) && Some(a) == AnswerOf(Some(ps[k]));
    }
  }

  lemma HeadOfOne(d: string, depth: nat, corpus: Corpus)
    ensures depth > 0 ==> Head(Alone(d), depth) == Alone(d)
    ensures depth == 0 ==> Passages(Head(Alone(d), depth), corpus) == []
  {
  }

  /** A document scores nothing exactly when no passage read from it does. */
  lemma ScoresNothingIff(e: Extractor, q: Question, corpus: Corpus, alnum: CharClass, c: Column, d: string)
    ensures ScoresNothing(e, q, corpus, alnum, c, d)
       <==> forall a :: Reads(e, q.text, corpus, alnum, d, a) ==> Value(c, BestOf(a, q.answers, alnum)) == 0.0
  {
    hide Extracts, BestOf, Reads;
    if ScoresNothing(e, q, corpus, alnum, c, d) {
      forall a | Reads(e, q.text, corpus, alnum, d, a) ensures Value(c, BestOf(a, q.answers, alnum)) == 0.0 {
        ReadsAlone(e, q.text, corpus, alnum, d, a);
        assert Reports(e, q, Alone(d), corpus, alnum, MetricsOf(q, Alone(d), Some(a), alnum));
      }
    }
    if forall a :: Reads(e, q.text, corpus, alnum, d, a) ==> Value(c, BestOf(a, q.answers, alnum)) == 0.0 {
      forall m | Reports(e, q, Alone(d), corpus, alnum, m) ensures Value(c, m.quality) == 0.0 {
        var r :| Extracts(e, q.text, Alone(d), corpus, alnum, r) && m == MetricsOf(q, Alone(d), r, alnum);
        if r.Some? { ReadsAlone(e, q.text, corpus, alnum, d, r.value); }
      }
    }
  }

  /** Some other document yields a passage that normalises to a gold answer. */
  ghost predicate AnsweredElsewhere(e: Extractor, q: Question, corpus: Corpus, alnum: CharClass)
  {
    exists d, a, i :: d in corpus && d != q.goldDocId && Reads(e, q.text, corpus, alnum, d, a)
      && 0 <= i < |q.answers| && Normalize(a.text, alnum) == Normalize(q.answers[i].text, alnum)
  }

  /** Some other document yields a passage that shares a token with a gold answer, or has none like it. */
  ghost predicate TouchedElsewhere(e: Extractor, q: Question, corpus: Corpus, alnum: CharClass)
  {
    exists d, a, i :: d in corpus && d != q.goldDocId && Reads(e, q.text, corpus, alnum, d, a)
      && 0 <= i < |q.answers| && SharesToken(a.text, q.answers[i].text, alnum)
  }

  /** Exact match stays under the ceiling on every ranking exactly when no other document yields a gold answer. */
  lemma ExactMatchCeilingIff(e: Extractor, q: Question, corpus: Corpus, alnum: CharClass)
    ensures CeilingHolds(e, q, corpus, alnum, ExactMatch) <==> !AnsweredElsewhere(e, q, corpus, alnum)
  {
    CeilingReduces(e, q, corpus, alnum, ExactMatch);
    hide CeilingHolds, ScoresNothing, Reads, BestOf, Normalize;
    forall d | d in corpus && d != q.goldDocId
      ensures ScoresNothing(e, q, corpus, alnum, ExactMatch, d) <==> forall a :: Reads(e, q.text, corpus, alnum, d, a) ==> NoneMatches(a, q, alnum) {
      ScoresNothingIff(e, q, corpus, alnum, ExactMatch, d);
      forall a ensures Value(ExactMatch, BestOf(a, q.answers, alnum)) == 0.0 <==> NoneMatches(a, q, alnum) { BestOfLaws(a, q.answers, alnum); }
    }
  }

  ghost predicate NoneMatches(a: Extracted, q: Question, alnum: CharClass)
  {
    forall i :: 0 <= i < |q.answers| ==> !Matches(a, q.answers[i], alnum)
  }

  ghost predicate NoneShares(a: Extracted, q: Question, alnum: CharClass)
  {
    forall i :: 0 <= i < |q.answers| ==> !SharesToken(a.text, q.answers[i].text, alnum)
  }

  ghost predicate IsTokenColumn(c: Column)
  {
    c == F1 || c == Precision || c == Recall
  }

  lemma AgainstPositive(a: Extracted, g: GoldAnswer, alnum: CharClass)
    ensures
      var q := Against(a, g, alnum);
      && (q.f1 > 0.0 <==> SharesToken(a.text, g.text, alnum))
      && (q.precision == 0.0 <==> q.f1 == 0.0) && (q.recall == 0.0 <==> q.f1 == 0.0)
  {
    var p, t := NormalizedTokens(a.text, alnum), NormalizedTokens(g.text, alnum);
    F1Laws(p, t);
    PrfTogether(p, t);
    hide Normalize, NormalizedTokens, PrfOf, Iou;
  }

  lemma PrfTogether(p: seq<string>, g: seq<string>)
    ensures
      var r := PrfOf(p, g);
      (r.precision == 0.0 <==> r.f1 == 0.0) && (r.recall == 0.0 <==> r.f1 == 0.0)
  {
    if p != [] && g != [] {
      F1Formula(p, g);
      if Overlap(p, g) > 0 {
        Positive(2.0 * Overlap(p, g) as real, (|p| + |g|) as real);
        Positive(Overlap(p, g) as real, |p| as real);
        Positive(Overlap(p, g) as real, |g| as real);
      }
    }
  }

  lemma TokenScoreZero(a: Extracted, q: Question, alnum: CharClass, c: Column)
    requires IsTokenColumn(c)
    ensures Value(c, BestOf(a, q.answers, alnum)) == 0.0 <==> NoneShares(a, q, alnum)
  {
    hide BestOf, Against, SharesToken;
    BestOfLaws(a, q.answers, alnum);
    forall i | 0 <= i < |q.answers| ensures
        var x := Against(a, q.answers[i], alnum);
        && (x.f1 > 0.0 <==> SharesToken(a.text, q.answers[i].text, alnum)) && x.f1 >= 0.0
        && (x.precision == 0.0 <==> x.f1 == 0.0) && (x.recall == 0.0 <==> x.f1 == 0.0) {
      AgainstPositive(a, q.answers[i], alnum);
      AgainstLaws(a, q.answers[i], alnum);
    }
  }

  /**
   F1, precision and recall stay under the ceiling on every ranking exactly when no other
   document yields a passage that shares a token with a gold answer, or is as empty as one.
   */
  lemma TokenCeilingIff(e: Extractor, q: Question, corpus: Corpus, alnum: CharClass, c: Column)
    requires IsTokenColumn(c)
    ensures CeilingHolds(e, q, corpus, alnum, c) <==> !TouchedElsewhere(e, q, corpus, alnum)
  {
    CeilingReduces(e, q, corpus, alnum, c);
    hide CeilingHolds, ScoresNothing, Reads, BestOf, SharesToken;
    forall d | d in corpus && d != q.goldDocId
      ensures ScoresNothing(e, q, corpus, alnum, c, d) <==> forall a :: Reads(e, q.text, corpus, alnum, d, a) ==> NoneShares(a, q, alnum) {
      ScoresNothingIff(e, q, corpus, alnum, c, d);
      forall a ensures Value(c, BestOf(a, q.answers, alnum)) == 0.0 <==> NoneShares(a, q, alnum) { TokenScoreZero(a, q, alnum, c); }
    }
  }

  // ----- the ceiling fails

  /** A question whose answer is `s`, on a corpus that holds `s` in a document other than the gold one. */
  ghost predicate HeldElsewhere(q: Question, corpus: Corpus, s: string, d: string)
  {
    q.answers == [GoldAnswer(s, None)] && d != q.goldDocId && d in corpus && corpus[d] == s && IsSentence(s)
  }

  lemma SentenceIsPassage(d: string, corpus: Corpus, s: string)
    requires d in corpus && corpus[d] == s && IsSentence(s)
    ensures PassagesIn(d, corpus) == [Passage(TextSpan(d, 0, |s|), s)]
  {
    hide IsSentence, SplitFrom;
    assert Join([s]) == s && [s][0] == s;
    assert s[0..] == s;
    SplitJoined(s, 0, 0, [s]);
    assert JoinBounds([s], 0) == [Bound(0, |s|)];
    assert Split(s) == [Bound(0, |s|)];
    PassagesCount(d, corpus);
    PassageIs(d, corpus, 0);
    assert s[0..|s|] == s;
  }

  /**
   The ceiling fails: if one sentence is the answer and also the text of another document,
   both extractors match exactly on a ranking that never retrieves the gold document.
   */
  lemma ExactMatchBeatsCeiling(e: Extractor, q: Question, corpus: Corpus, alnum: CharClass, s: string, d: string)
    requires HeldElsewhere(q, corpus, s, d) && (e.BestSentence? ==> e.readDepth > 0)
    ensures exists m :: Reports(e, q, Alone(d), corpus, alnum, m) && m.quality.exactMatch == 1.0 && m.goldDocRetrieved == 0.0
    ensures !CeilingHolds(e, q, corpus, alnum, ExactMatch)
  {
    var a := Extracted(s, TextSpan(d, 0, |s|));
    ExtractsSentence(e, q.text, corpus, alnum, s, d);
    hide Extracts, BestOf;
    BestOfLaws(a, q.answers, alnum);
    assert Matches(a, q.answers[0], alnum);
    AloneMissesGold(q, d);
    var m := MetricsOf(q, Alone(d), Some(a), alnum);
    assert Reports(e, q, Alone(d), corpus, alnum, m);
    assert Value(ExactMatch, m.quality) == 1.0;
  }

  lemma ExtractsSentence(e: Extractor, query: string, corpus: Corpus, alnum: CharClass, s: string, d: string)
    requires d in corpus && corpus[d] == s && IsSentence(s) && (e.BestSentence? ==> e.readDepth > 0)
    ensures Extracts(e, query, Alone(d), corpus, alnum, Some(Extracted(s, TextSpan(d, 0, |s|))))
  {
    hide IsSentence, Passages, PassagesIn, NormalizedTokens, Score;
    if e.BestSentence? {
      PassagesAlone(d, corpus);
      SentenceIsPassage(d, corpus, s);
      var p, tokens := Passage(TextSpan(d, 0, |s|), s), NormalizedTokens(query, alnum);
      assert FirstBest([p], 0, tokens, alnum);
      assert Chooses([p], tokens, alnum, Some(p));
      assert Head(Alone(d), e.readDepth) == Alone(d);
      assert AnswerOf(Some(p)) == Some(Extracted(s, TextSpan(d, 0, |s|)));
    }
  }
}
