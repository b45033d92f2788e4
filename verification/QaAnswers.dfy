/**
 The best-sentence extractor on the generated bed. No other sentence of the corpus comes near
 the answer's score, so the extractor answers a question exactly when it reads the question's
 gold document, and then finds the very span.
 */
module QaAnswers {
  import opened Sequences
  import opened Sentences
  import opened Tokens
  import opened Ranking
  import opened Pools
  import opened Selectors
  import opened SelectorTheorems
  import opened Extraction
  import opened Answers
  import opened AnswerCeiling
  import opened QaTexts
  import opened QaWords
  import opened QaBed
  import opened QaReach

  // ----- the query's tokens

  function QueryTokens(q: nat, alnum: CharClass): seq<string>
  {
    NormalizedTokens(QueryText(q), alnum)
  }

  ghost predicate IsQueryToken(q: nat, t: string)
  {
    t == "what" || t == "is" || t == Topic(q) || t == Attribute(q)
  }

  lemma QueryLowered(q: nat)
    ensures LowerWords(QueryWords(q)) == ["what", "is", "the", Topic(q), Attribute(q)]
    ensures AllLexical(QueryWords(q)) && Distinct(LowerWords(QueryWords(q)))
  {
    NumberedWords(q);
    QueryLexical();
    hide Lexical, Other, Topic, Attribute;
    assert LowerWord("What") == "what" && LowerWord("is") == "is" && LowerWord("the") == "the";
  }

  lemma NotArticles(q: nat)
    ensures forall t :: IsQueryToken(q, t) ==> !IsArticle(t)
  {
    NumberedWords(q);
    hide Lexical, Other, Topic, Attribute;
  }

  lemma DistinctCounts<T>(s: seq<T>, x: T)
    requires Distinct(s)
    ensures multiset(s)[x] <= 1
  {
    if x in s {
      var k, rest := RemoveOne(s, x);
      assert x !in multiset(rest);
    }
  }

  /** What, is, the topic and the attribute, each once. */
  lemma QueryTokensAre(q: nat, alnum: CharClass)
    requires Ordinary(alnum)
    ensures forall t :: t in QueryTokens(q, alnum) <==> IsQueryToken(q, t)
    ensures forall t :: multiset(QueryTokens(q, alnum))[t] <= 1
  {
    hide *;
    QueryFiltered(q, alnum);
    QueryMembers(q);
    QueryCounts(q);
  }

  lemma QueryFiltered(q: nat, alnum: CharClass)
    requires Ordinary(alnum)
    ensures QueryTokens(q, alnum) == Filter(LowerWords(QueryWords(q)), NotArticle())
  {
    QueryLowered(q);
    QueryIs(q);
    hide Lexical, Join, NormalizedTokens, Ordinary, QueryText, QueryWords;
    TokensOfSentence(QueryWords(q), "?", alnum);
  }

  lemma QueryMembers(q: nat)
    ensures forall t :: t in Filter(LowerWords(QueryWords(q)), NotArticle()) <==> IsQueryToken(q, t)
  {
    QueryLowered(q);
    NotArticles(q);
    hide Topic, Attribute, QueryWords, Distinct, Lexical;
    forall t ensures t in Filter(LowerWords(QueryWords(q)), NotArticle()) <==> IsQueryToken(q, t) { assert NotArticle()(t) == !IsArticle(t); }
  }

  lemma QueryCounts(q: nat)
    ensures forall t :: multiset(Filter(LowerWords(QueryWords(q)), NotArticle()))[t] <= 1
  {
    hide *;
    QueryLowered(q);
    var low := LowerWords(QueryWords(q));
    forall t ensures multiset(Filter(low, NotArticle()))[t] <= 1 {
      FilterMultiset(low, NotArticle(), t);
      DistinctCounts(low, t);
    }
  }

  // ----- how much of the query a sentence has

  lemma AtMostOne(p: seq<string>, g: seq<string>, t0: string)
    requires forall t :: multiset(g)[t] <= 1
    requires forall t :: t in p && t in g ==> t == t0
    ensures Overlap(p, g) <= 1
  {
    var both := multiset(p) * multiset(g);
    forall t ensures both[t] <= multiset{t0}[t] {
      if t in both { assert t in p && t in g; }
    }
    if both[t0] == 0 { assert both == multiset{}; } else { assert both == multiset{t0}; }
  }

  lemma AtLeastThree(p: seq<string>, g: seq<string>, a: string, b: string, c: string)
    requires a != b && b != c && a != c && a in p && b in p && c in p && a in g && b in g && c in g
    ensures Overlap(p, g) >= 3
  {
    var both := multiset(p) * multiset(g);
    assert a in multiset(p) && b in multiset(p) && c in multiset(p);
    assert a in multiset(g) && b in multiset(g) && c in multiset(g);
    assert both == multiset{a, b, c} + (both - multiset{a, b, c});
  }

  ghost predicate Weak(text: string, q: nat, alnum: CharClass)
  {
    Overlap(NormalizedTokens(text, alnum), QueryTokens(q, alnum)) <= 1 && Attribute(q) !in NormalizedTokens(text, alnum)
  }

  /** The answer has three of the query's tokens. */
  lemma AnswerIsStrong(q: nat, alnum: CharClass)
    requires Ordinary(alnum)
    ensures Overlap(NormalizedTokens(AnswerSentence(q), alnum), QueryTokens(q, alnum)) >= 3
    ensures Attribute(q) in NormalizedTokens(AnswerSentence(q), alnum)
  {
    AnswerIs(q);
    AnswerLexical(q);
    NumberedWords(q);
    NotArticles(q);
    QueryTokensAre(q, alnum);
    hide Lexical, Join, NormalizedTokens, Ordinary, AnswerSentence, QueryTokens, Topic, Attribute, Overlap, Other;
    var ws := AnswerWords(q);
    assert LowerWord(ws[3]) == "is" && LowerWord(ws[1]) == Topic(q) && LowerWord(ws[2]) == Attribute(q);
    TokenIff(ws, ".", alnum, "is");
    TokenIff(ws, ".", alnum, Topic(q));
    TokenIff(ws, ".", alnum, Attribute(q));
    AtLeastThree(NormalizedTokens(AnswerSentence(q), alnum), QueryTokens(q, alnum), "is", Topic(q), Attribute(q));
  }

  /** A lowered word that differs from the query's in its first two letters is none of them. */
  lemma UnlikeIsNoToken(w: string, q: nat)
    requires Unlike(w)
    ensures !IsQueryToken(q, LowerWord(w))
  {
    NumberedWords(q);
    hide Topic, Attribute;
  }

  /** Sentences whose words at most name a topic have at most one token of the query. */
  lemma MildIsWeak(ws: seq<string>, q: nat, alnum: CharClass)
    requires Ordinary(alnum) && AllMild(ws)
    ensures Weak(Join(ws) + ".", q, alnum)
  {
    var p, g := NormalizedTokens(Join(ws) + ".", alnum), QueryTokens(q, alnum);
    QueryTokensAre(q, alnum);
    hide Lexical, Unlike, Join, NormalizedTokens, Ordinary, QueryTokens, Topic, Attribute, Overlap;
    forall t | t in p && IsQueryToken(q, t) ensures t == Topic(q) {
      TokenIff(ws, ".", alnum, t);
      var i :| 0 <= i < |ws| && t == LowerWord(ws[i]);
      MildToken(ws[i], q);
    }
    AtMostOne(p, g, Topic(q));
    TopicIsNoAttribute(q);
  }

  lemma MildToken(w: string, q: nat)
    requires Mild(w) && IsQueryToken(q, LowerWord(w))
    ensures LowerWord(w) == Topic(q)
  {
    if Unlike(w) {
      UnlikeIsNoToken(w, q);
    } else {
      var r :| w == Topic(r);
      NumberedWords(r);
      NumberedWords(q);
      hide Topic, Attribute;
    }
  }

  lemma TopicIsNoAttribute(q: nat)
    ensures Topic(q) != Attribute(q)
  {
  }

  /** The answer to another question shares only the word is. */
  lemma OtherAnswerIsWeak(r: nat, q: nat, alnum: CharClass)
    requires Ordinary(alnum) && r != q
    ensures Weak(AnswerSentence(r), q, alnum)
  {
    var p, g := NormalizedTokens(AnswerSentence(r), alnum), QueryTokens(q, alnum);
    AnswerIs(r);
    AnswerLexical(r);
    QueryTokensAre(q, alnum);
    IsNoAttribute(q);
    hide Lexical, Join, NormalizedTokens, Ordinary, QueryTokens, Topic, Attribute, Overlap, AnswerSentence, AnswerWords;
    forall t | t in p && IsQueryToken(q, t) ensures t == "is" {
      TokenIff(AnswerWords(r), ".", alnum, t);
      var i :| 0 <= i < |AnswerWords(r)| && t == LowerWord(AnswerWords(r)[i]);
      OtherAnswerToken(r, q, i);
    }
    AtMostOne(p, g, "is");
  }

  lemma IsNoAttribute(q: nat)
    ensures "is" != Attribute(q)
  {
  }

  lemma OtherAnswerToken(r: nat, q: nat, i: nat)
    requires r != q && i < |AnswerWords(r)| && IsQueryToken(q, LowerWord(AnswerWords(r)[i]))
    ensures LowerWord(AnswerWords(r)[i]) == "is"
  {
    NumberedWords(r);
    NumbersTell(r, q);
    NumberedWords(q);
    Articles();
    RecordedOther();
    hide Topic, Attribute, Datum, Lexical, Unlike;
    var w := AnswerWords(r)[i];
    if Unlike(w) { UnlikeIsNoToken(w, q); }
    else if i == 3 { assert LowerWord("is") == "is"; }
    else { TokensTell(r, q); }
  }

  lemma TokensTell(r: nat, q: nat)
    ensures r != q ==> !IsQueryToken(q, Topic(r)) && !IsQueryToken(q, Attribute(r))
  {
    NumberedWords(r);
    NumberedWords(q);
    NumbersTell(r, q);
    hide Topic, Attribute;
  }

  // ----- what the documents of the bed hold

  lemma SectionIsWeak(s: nat, r: nat, q: nat, alnum: CharClass)
    requires Ordinary(alnum)
    ensures Weak(SectionSentence(s, r), q, alnum)
  {
    hide *;
    SectionIs(s, r);
    SectionLexical(s, r);
    MildIsWeak(SectionWords(s, r), q, alnum);
  }

  lemma NearMissIsWeak(topic: nat, s: nat, i: nat, q: nat, alnum: CharClass)
    requires Ordinary(alnum)
    ensures Weak(NearMissSentence(topic, s, i), q, alnum) && IsSentence(NearMissSentence(topic, s, i))
  {
    hide Weak, IsSentence, Ordinary, Join, AllMild, NearMissSentence;
    NearMissIs(topic, s, i);
    NearMissLexical(topic, s, i);
    MildIsWeak(NearMissWords(topic, s, i), q, alnum);
    MildMakesSentence(NearMissWords(topic, s, i));
  }

  lemma FillerIsWeak(s: nat, i: nat, q: nat, alnum: CharClass)
    requires Ordinary(alnum)
    ensures Weak(FillerSentence(s, i), q, alnum) && IsSentence(FillerSentence(s, i))
  {
    hide Weak, IsSentence, Ordinary, Join, AllMild, FillerSentence;
    FillerIs(s, i);
    FillerLexical(s, i);
    MildIsWeak(FillerWords(s, i), q, alnum);
    MildMakesSentence(FillerWords(s, i));
  }

  lemma MildMakesSentence(ws: seq<string>)
    requires AllMild(ws)
    ensures ws != [] ==> IsSentence(Join(ws) + ".")
  {
    hide Lexical, Unlike, IsSentence, Join;
    if ws != [] { WordsMakeSentence(ws); }
  }

  ghost predicate AllSentences(ss: seq<string>)
  {
    forall i :: 0 <= i < |ss| ==> IsSentence(ss[i])
  }

  /** The passages of a document are the sentences it was joined from. */
  lemma PassageTexts(docId: string, corpus: Corpus, ss: seq<string>)
    requires docId in corpus && corpus[docId] == Join(ss) && AllSentences(ss)
    ensures |PassagesIn(docId, corpus)| == |ss|
    ensures forall j :: 0 <= j < |ss| ==> PassagesIn(docId, corpus)[j].text == ss[j]
  {
    hide IsSentence, Split, Join, PassagesIn;
    SplitInvertsJoin(ss);
    PassagesCount(docId, corpus);
    forall j | 0 <= j < |ss| ensures PassagesIn(docId, corpus)[j].text == ss[j] {
      PassageIs(docId, corpus, j);
      assert Slices(Join(ss), Split(Join(ss)))[j] == ss[j];
    }
  }

  /** All its sentences have at most one token of the query. */
  ghost predicate AllWeak(ss: seq<string>, q: nat, alnum: CharClass)
  {
    forall i :: 0 <= i < |ss| ==> Weak(ss[i], q, alnum)
  }

  lemma DistractorIsWeak(c: BedConfig, d: Draws, i: nat, q: nat, alnum: CharClass)
    requires Ordinary(alnum)
    ensures AllSentences(DistractorSentences(c, d, i)) && AllWeak(DistractorSentences(c, d, i), q, alnum)
  {
    hide Weak, IsSentence, Ordinary, NearMissSentence, FillerSentence;
    var ss := DistractorSentences(c, d, i);
    forall s | 0 <= s < |ss| ensures IsSentence(ss[s]) && Weak(ss[s], q, alnum) {
      if s % 3 == 0 && c.questions > 0 { NearMissIsWeak(d.topic(i, s), s, i, q, alnum); } else { FillerIsWeak(s, i, q, alnum); }
    }
  }

  /** In a gold document only the answer, and only for its own question, is not weak. */
  lemma GoldWeakness(n: nat, at: nat, r: nat, q: nat, alnum: CharClass)
    requires Ordinary(alnum) && at < n
    ensures AllSentences(GoldSentences(n, at, r))
    ensures forall i :: 0 <= i < n && (i != at || r != q) ==> Weak(GoldSentences(n, at, r)[i], q, alnum)
  {
    hide Weak, IsSentence, Ordinary, AnswerSentence, SectionSentence;
    GoldSentencesAre(n, at, r);
    forall i | 0 <= i < n && (i != at || r != q) ensures Weak(GoldSentences(n, at, r)[i], q, alnum) {
      if i == at { OtherAnswerIsWeak(r, q, alnum); } else { SectionIsWeak(i, r, q, alnum); }
    }
  }

  /** Every document but the question's own is joined from weak sentences. */
  lemma OtherDocument(c: BedConfig, d: Draws, bed: Bed, q: nat, id: string, alnum: CharClass) returns (ss: seq<string>)
    requires InRange(c, d) && IsBed(c, d, bed) && q < c.questions && Ordinary(alnum)
    requires id in bed.corpus && id != GoldId(q)
    ensures bed.corpus[id] == Join(ss) && AllSentences(ss) && AllWeak(ss, q, alnum)
  {
    hide Weak, IsSentence, Ordinary, GoldId, DistractorId, Join, DistractorSentences, GoldSentences, QuestionsUpTo, PoolsUpTo, DepthsUpTo, HarnessInputs;
    if IsGold(c.questions, id) {
      var r :| 0 <= r < c.questions && id == GoldId(r);
      assert DrawnFor(c, d, r);
      var n := AtLeastOne(c.sentencesPerDoc);
      GoldWeakness(n, d.answerIndex(r), r, q, alnum);
      ss := GoldSentences(n, d.answerIndex(r), r);
    } else {
      assert IsDistractor(AtLeastOne(c.distractors), id);
      var i :| 0 <= i < AtLeastOne(c.distractors) && id == DistractorId(i);
      DistractorIsWeak(c, d, i, q, alnum);
      ss := DistractorSentences(c, d, i);
    }
  }

  lemma OtherPassagesAreWeak(c: BedConfig, d: Draws, bed: Bed, q: nat, id: string, alnum: CharClass)
    requires InRange(c, d) && IsBed(c, d, bed) && q < c.questions && Ordinary(alnum) && id != GoldId(q)
    ensures forall j :: 0 <= j < |PassagesIn(id, bed.corpus)| ==> Weak(PassagesIn(id, bed.corpus)[j].text, q, alnum)
  {
    hide Weak, Ordinary, GoldId, Join, IsBed, InRange, PassagesIn, IsSentence;
    PassagesCount(id, bed.corpus);
    if id in bed.corpus {
      var ss := OtherDocument(c, d, bed, q, id, alnum);
      PassageTexts(id, bed.corpus, ss);
    }
  }

  /** The gold document's passages: the answer at its span, and weak ones. */
  lemma GoldPassages(c: BedConfig, d: Draws, bed: Bed, q: nat, alnum: CharClass)
    requires InRange(c, d) && IsBed(c, d, bed) && q < c.questions && Ordinary(alnum)
    ensures DrawnFor(c, d, q)
    ensures
      var ps, at := PassagesIn(GoldId(q), bed.corpus), d.answerIndex(q);
      && at < |ps| && ps[at] == Passage(GoldSpan(AtLeastOne(c.sentencesPerDoc), at, q), AnswerSentence(q))
      && forall j :: 0 <= j < |ps| && j != at ==> Weak(ps[j].text, q, alnum)
  {
    hide *;
    GoldDocument(c, d, bed, q);
    var n, at, id := AtLeastOne(c.sentencesPerDoc), d.answerIndex(q), GoldId(q);
    GoldWeakness(n, at, q, q, alnum);
    PassageTexts(id, bed.corpus, GoldSentences(n, at, q));
    AnswerPassage(n, at, q, bed.corpus);
  }

  lemma GoldDocument(c: BedConfig, d: Draws, bed: Bed, q: nat)
    requires InRange(c, d) && IsBed(c, d, bed) && q < c.questions
    ensures DrawnFor(c, d, q) && d.answerIndex(q) < AtLeastOne(c.sentencesPerDoc)
    ensures GoldId(q) in bed.corpus && bed.corpus[GoldId(q)] == Join(GoldSentences(AtLeastOne(c.sentencesPerDoc), d.answerIndex(q), q))
  {
    assert DrawnFor(c, d, q);
    hide Join, GoldSentences, GoldId;
  }

  lemma AnswerPassage(n: nat, at: nat, q: nat, corpus: Corpus)
    requires at < n && GoldId(q) in corpus && corpus[GoldId(q)] == Join(GoldSentences(n, at, q))
    ensures |PassagesIn(GoldId(q), corpus)| == n && PassagesIn(GoldId(q), corpus)[at] == Passage(GoldSpan(n, at, q), AnswerSentence(q))
  {
    hide PassagesIn, Split, Join, AnswerSentence, GoldSentences;
    AnswerStandsAt(n, at, q);
    PassagesCount(GoldId(q), corpus);
    PassageIs(GoldId(q), corpus, at);
  }

  // ----- what the extractor picks

  lemma WeakScoresLess(strong: string, weak: string, q: nat, alnum: CharClass)
    requires Overlap(NormalizedTokens(strong, alnum), QueryTokens(q, alnum)) >= 3 && Weak(weak, q, alnum)
    ensures Score(QueryTokens(q, alnum), weak, alnum) < Score(QueryTokens(q, alnum), strong, alnum)
  {
    var p, w, g := NormalizedTokens(strong, alnum), NormalizedTokens(weak, alnum), QueryTokens(q, alnum);
    hide NormalizedTokens, QueryTokens, Attribute;
    OverlapBounds(p, g);
    hide Overlap;
    LargerShare(Overlap(w, g), Overlap(p, g), |g|);
  }

  lemma LargerShare(a: nat, b: nat, n: nat)
    requires a < b && n > 0
    ensures 0.0 <= a as real / n as real < b as real / n as real
  {
  }

  /** The passages of a ranked document are among those of the ranking. */
  lemma {:induction false} PassagesHold(ranking: seq<SelectorResult>, corpus: Corpus, id: string, j: nat) returns (k: nat)
    requires id in Docs(ranking) && j < |PassagesIn(id, corpus)|
    ensures k < |Passages(ranking, corpus)| && Passages(ranking, corpus)[k] == PassagesIn(id, corpus)[j]
  {
    hide PassagesIn, Passages;
    PassagesUnfold(ranking, corpus);
    var n := |ranking| - 1;
    var before := Passages(ranking[..n], corpus);
    if ranking[n].docId == id {
      k := |before| + j;
    } else {
      assert Docs(ranking) == Docs(ranking[..n]) + [ranking[n].docId];
      k := PassagesHold(ranking[..n], corpus, id, j);
    }
  }

  /** With the gold document among those read, the first best passage is the answer at its span. */
  lemma PicksAnswer(c: BedConfig, d: Draws, bed: Bed, q: nat, read: seq<SelectorResult>, alnum: CharClass, k: int)
    requires InRange(c, d) && IsBed(c, d, bed) && q < c.questions && Ordinary(alnum)
    requires GoldId(q) in Docs(read) && FirstBest(Passages(read, bed.corpus), k, QueryTokens(q, alnum), alnum)
    ensures DrawnFor(c, d, q)
    ensures Passages(read, bed.corpus)[k] == Passage(GoldSpan(AtLeastOne(c.sentencesPerDoc), d.answerIndex(q), q), AnswerSentence(q))
  {
    hide *;
    GoldPassages(c, d, bed, q, alnum);
    AnswerIsStrong(q, alnum);
    var g := PassagesHold(read, bed.corpus, GoldId(q), d.answerIndex(q));
    var i := OwnPassage(read, bed.corpus, QueryTokens(q, alnum), alnum, k);
    BestIsNotWeak(Passages(read, bed.corpus), k, g, q, alnum);
    var own := Passages(read, bed.corpus)[k].span.docId;
    if own != GoldId(q) { OtherPassagesAreWeak(c, d, bed, q, own, alnum); }
  }

  lemma BestIsNotWeak(ps: seq<Passage>, k: int, g: nat, q: nat, alnum: CharClass)
    requires FirstBest(ps, k, QueryTokens(q, alnum), alnum) && g < |ps|
    requires Overlap(NormalizedTokens(ps[g].text, alnum), QueryTokens(q, alnum)) >= 3
    ensures 0 <= k < |ps| && !Weak(ps[k].text, q, alnum)
  {
    hide Weak, Score, QueryTokens, NormalizedTokens, Overlap;
    if Weak(ps[k].text, q, alnum) { WeakScoresLess(ps[g].text, ps[k].text, q, alnum); }
  }

  /** The first best passage is one of its own document's. */
  lemma OwnPassage(read: seq<SelectorResult>, corpus: Corpus, query: seq<string>, alnum: CharClass, k: int) returns (i: nat)
    requires FirstBest(Passages(read, corpus), k, query, alnum)
    ensures 0 <= k < |Passages(read, corpus)|
    ensures
      var p := Passages(read, corpus)[k];
      i < |PassagesIn(p.span.docId, corpus)| && p == PassagesIn(p.span.docId, corpus)[i] && p.span.docId in Docs(read)
  {
    hide Score, PassagesIn, Passages;
    BestInOwnDocument(read, corpus, query, alnum, k);
    PassageSource(read, corpus, k);
    var p := Passages(read, corpus)[k];
    i :| FirstBest(PassagesIn(p.span.docId, corpus), i, query, alnum) && p == PassagesIn(p.span.docId, corpus)[i];
  }

  /** Without it, the first best passage stands elsewhere and is weak. */
  lemma PicksOther(c: BedConfig, d: Draws, bed: Bed, q: nat, read: seq<SelectorResult>, alnum: CharClass, k: int)
    requires InRange(c, d) && IsBed(c, d, bed) && q < c.questions && Ordinary(alnum)
    requires GoldId(q) !in Docs(read) && FirstBest(Passages(read, bed.corpus), k, QueryTokens(q, alnum), alnum)
    ensures
      var p := Passages(read, bed.corpus)[k];
      p.span.docId != GoldId(q) && Weak(p.text, q, alnum)
  {
    hide *;
    var i := OwnPassage(read, bed.corpus, QueryTokens(q, alnum), alnum, k);
    OtherPassagesAreWeak(c, d, bed, q, Passages(read, bed.corpus)[k].span.docId, alnum);
  }

  // ----- what it scores

  lemma OneAnswer(a: Extracted, g: GoldAnswer, alnum: CharClass)
    ensures
      var best, x := BestOf(a, [g], alnum), Against(a, g, alnum);
      (best == x || best == ZERO) && (Beats(x, ZERO) ==> best == x)
  {
    hide Against;
    assert [g][..0] == [];
  }

  lemma AnswerScores(span: Span, text: string, alnum: CharClass)
    requires span.start < span.end
    ensures
      var best := BestOf(Extracted(text, span), [GoldAnswer(text, Some(span))], alnum);
      best.exactMatch == 1.0 && best.f1 == 1.0 && best.spanExact == 1.0 && best.spanIou == 1.0
  {
    var a, g := Extracted(text, span), GoldAnswer(text, Some(span));
    hide BestOf, Normalize, NormalizedTokens, Iou, PrfOf;
    OneAnswer(a, g, alnum);
    AgainstLaws(a, g, alnum);
    IouLaws(span, span);
  }

  lemma WeakScores(a: Extracted, span: Span, q: nat, alnum: CharClass)
    requires Ordinary(alnum) && Weak(a.text, q, alnum) && a.span.docId != span.docId
    ensures
      var best := BestOf(a, [GoldAnswer(AnswerSentence(q), Some(span))], alnum);
      best.exactMatch == 0.0 && best.spanExact == 0.0 && best.spanIou == 0.0
  {
    var g := GoldAnswer(AnswerSentence(q), Some(span));
    AnswerIsStrong(q, alnum);
    hide BestOf, Normalize, NormalizedTokens, Iou, PrfOf, AnswerSentence, Overlap, QueryTokens, Attribute;
    OneAnswer(a, g, alnum);
    IouLaws(a.span, span);
    if Normalize(a.text, alnum) == Normalize(AnswerSentence(q), alnum) { SameNormalFormSameTokens(a.text, AnswerSentence(q), alnum); }
  }

  lemma QuestionIs(c: BedConfig, d: Draws, bed: Bed, q: nat)
    requires InRange(c, d) && IsBed(c, d, bed) && q < c.questions
    ensures DrawnFor(c, d, q) && q < |bed.questions|
    ensures
      var span := GoldSpan(AtLeastOne(c.sentencesPerDoc), d.answerIndex(q), q);
      && bed.questions[q] == Question(QueryId(q), QueryText(q), [GoldAnswer(AnswerSentence(q), Some(span))], GoldId(q))
      && span.docId == GoldId(q)
  {
    hide AnswerSentence, QueryText, GoldSentences, Join;
    assert bed.questions[q] == QuestionOf(c, d, q);
  }

  /**
   On every ranking of the bed's documents and at every read depth, the best-sentence
   extractor matches exactly, and with the exact span, if the gold document is among those it
   reads, and otherwise neither.
   */
  lemma BestSentenceAnswersIff(c: BedConfig, d: Draws, bed: Bed, q: nat, depth: nat, ranking: seq<SelectorResult>, alnum: CharClass, m: Metrics)
    requires InRange(c, d) && IsBed(c, d, bed) && q < c.questions && Ordinary(alnum) && q < |bed.questions|
    requires Reports(BestSentence(depth), bed.questions[q], ranking, bed.corpus, alnum, m)
    ensures
      var read := Flag(GoldId(q) in Docs(Head(ranking, depth)));
      m.quality.exactMatch == read && m.quality.spanExact == read && m.quality.spanIou == read && m.quality.f1 >= read
  {
    QuestionIs(c, d, bed, q);
    var question, read := bed.questions[q], Head(ranking, depth);
    var ps, tokens := Passages(read, bed.corpus), QueryTokens(q, alnum);
    var r :| Extracts(BestSentence(depth), question.text, ranking, bed.corpus, alnum, r) && m == MetricsOf(question, ranking, r, alnum);
    var p :| Chooses(ps, tokens, alnum, p) && r == AnswerOf(p);
    hide Weak, Ordinary, IsBed, InRange, Passages, QueryTokens, QueryText, GoldId, QueryId, AnswerSentence, GoldSpan, BestOf, DrawnFor, FirstBest;
    if p.None? {
      GoldIsReadable(c, d, bed, q, read, alnum);
    } else {
      var k :| FirstBest(ps, k, tokens, alnum) && p.value == ps[k];
      var span := question.answers[0].span.value;
      if GoldId(q) in Docs(read) {
        PicksAnswer(c, d, bed, q, read, alnum, k);
        GoldSpanIsNotEmpty(c, d, bed, q, alnum);
        AnswerScores(span, AnswerSentence(q), alnum);
      } else {
        PicksOther(c, d, bed, q, read, alnum, k);
        WeakScores(r.value, span, q, alnum);
        ScoresInUnit(r.value, question, alnum);
      }
    }
  }

  lemma ScoresInUnit(a: Extracted, question: Question, alnum: CharClass)
    ensures BestOf(a, question.answers, alnum).f1 >= 0.0
  {
    hide BestOf;
    BestOfLaws(a, question.answers, alnum);
  }

  lemma GoldIsReadable(c: BedConfig, d: Draws, bed: Bed, q: nat, read: seq<SelectorResult>, alnum: CharClass)
    requires InRange(c, d) && IsBed(c, d, bed) && q < c.questions && Ordinary(alnum)
    ensures GoldId(q) in Docs(read) ==> Passages(read, bed.corpus) != []
  {
    hide Weak, Ordinary, IsBed, InRange, PassagesIn, Passages, GoldId, AnswerSentence, GoldSpan, DrawnFor;
    GoldPassages(c, d, bed, q, alnum);
    if GoldId(q) in Docs(read) { var k := PassagesHold(read, bed.corpus, GoldId(q), d.answerIndex(q)); }
  }

  lemma GoldSpanIsNotEmpty(c: BedConfig, d: Draws, bed: Bed, q: nat, alnum: CharClass)
    requires InRange(c, d) && IsBed(c, d, bed) && q < c.questions && Ordinary(alnum)
    ensures DrawnFor(c, d, q)
    ensures var span := GoldSpan(AtLeastOne(c.sentencesPerDoc), d.answerIndex(q), q); span.start < span.end
  {
    hide Weak, Ordinary, IsBed, InRange, PassagesIn, GoldId, AnswerSentence, GoldSpan, DrawnFor;
    GoldPassages(c, d, bed, q, alnum);
  }

  // ----- no other document answers

  lemma NormalizedWords(text: string, alnum: CharClass)
    ensures NormalizedTokens(text, alnum) == Filter(Words(Lowered(text, alnum)), NotArticle())
  {
    NormalizedTokensAreTokens(text, alnum);
  }

  lemma TokensConcat(a: string, b: string, alnum: CharClass)
    requires Ordinary(alnum)
    ensures NormalizedTokens(a + " " + b, alnum) == NormalizedTokens(a, alnum) + NormalizedTokens(b, alnum)
  {
    hide NormalizedTokens, Words, Lowered, Ordinary;
    NormalizedWords(a, alnum);
    NormalizedWords(b, alnum);
    NormalizedWords(a + " " + b, alnum);
    LoweredConcat(a + " ", b, alnum);
    LoweredConcat(a, " ", alnum);
    BlankFolds(alnum);
    WordsConcat(Lowered(a, alnum), Lowered(b, alnum));
    FilterConcat(Words(Lowered(a, alnum)), Words(Lowered(b, alnum)), NotArticle());
  }

  /** A token of a document is a token of one of its sentences. */
  lemma {:induction false} TokenOfJoin(ss: seq<string>, t: string, alnum: CharClass)
    requires Ordinary(alnum) && forall i :: 0 <= i < |ss| ==> t !in NormalizedTokens(ss[i], alnum)
    ensures t !in NormalizedTokens(Join(ss), alnum)
  {
    if ss == [] {
      NormalizedWords("", alnum);
    } else if |ss| > 1 {
      hide NormalizedTokens, Ordinary;
      TokensConcat(ss[0], Join(ss[1..]), alnum);
      TokenOfJoin(ss[1..], t, alnum);
    }
  }

  lemma OtherTextLacks(c: BedConfig, d: Draws, bed: Bed, q: nat, id: string, alnum: CharClass)
    requires InRange(c, d) && IsBed(c, d, bed) && q < c.questions && Ordinary(alnum)
    requires id in bed.corpus && id != GoldId(q)
    ensures Attribute(q) !in NormalizedTokens(bed.corpus[id], alnum)
  {
    hide IsBed, InRange, Ordinary, GoldId, Join, IsSentence, NormalizedTokens, QueryTokens, Overlap, Attribute;
    var ss := OtherDocument(c, d, bed, q, id, alnum);
    forall i | 0 <= i < |ss| ensures Attribute(q) !in NormalizedTokens(ss[i], alnum) { assert Weak(ss[i], q, alnum); }
    TokenOfJoin(ss, Attribute(q), alnum);
  }

  /** What either extractor reads from another document lacks the attribute. */
  lemma ReadsLack(c: BedConfig, d: Draws, bed: Bed, q: nat, e: Extractor, id: string, a: Extracted, query: string, alnum: CharClass)
    requires InRange(c, d) && IsBed(c, d, bed) && q < c.questions && Ordinary(alnum)
    requires id in bed.corpus && id != GoldId(q) && Reads(e, query, bed.corpus, alnum, id, a)
    ensures Attribute(q) !in NormalizedTokens(a.text, alnum)
  {
    hide IsBed, InRange, Ordinary, GoldId, PassagesIn, NormalizedTokens, QueryTokens, Overlap, Attribute, FirstBest;
    OtherTextLacks(c, d, bed, q, id, alnum);
    OtherPassagesAreWeak(c, d, bed, q, id, alnum);
  }

  /**
   On the generated bed no document but the gold one yields an answer, for either extractor,
   so there the retrieval of the gold document is a ceiling on exact match too.
   */
  lemma NotAnsweredElsewhere(c: BedConfig, d: Draws, bed: Bed, q: nat, e: Extractor, alnum: CharClass)
    requires InRange(c, d) && IsBed(c, d, bed) && q < c.questions && Ordinary(alnum) && q < |bed.questions|
    ensures !AnsweredElsewhere(e, bed.questions[q], bed.corpus, alnum)
    ensures CeilingHolds(e, bed.questions[q], bed.corpus, alnum, ExactMatch)
  {
    hide IsBed, InRange, Ordinary, Reads, Normalize, GoldSpan, AnswerSentence, QueryText, QueryId, GoldId, CeilingHolds, DrawnFor;
    QuestionIs(c, d, bed, q);
    var question := bed.questions[q];
    if AnsweredElsewhere(e, question, bed.corpus, alnum) {
      var id, a, i :| id in bed.corpus && id != question.goldDocId && Reads(e, question.text, bed.corpus, alnum, id, a)
        && 0 <= i < |question.answers| && Normalize(a.text, alnum) == Normalize(question.answers[i].text, alnum);
      ReadsDiffer(c, d, bed, q, e, id, a, question.text, alnum);
    }
    ExactMatchCeilingIff(e, question, bed.corpus, alnum);
  }

  lemma ReadsDiffer(c: BedConfig, d: Draws, bed: Bed, q: nat, e: Extractor, id: string, a: Extracted, query: string, alnum: CharClass)
    requires InRange(c, d) && IsBed(c, d, bed) && q < c.questions && Ordinary(alnum)
    requires id in bed.corpus && id != GoldId(q) && Reads(e, query, bed.corpus, alnum, id, a)
    ensures Normalize(a.text, alnum) != Normalize(AnswerSentence(q), alnum)
  {
    hide *;
    AnswerIsStrong(q, alnum);
    ReadsLack(c, d, bed, q, e, id, a, query, alnum);
    if Normalize(a.text, alnum) == Normalize(AnswerSentence(q), alnum) { SameNormalFormSameTokens(a.text, AnswerSentence(q), alnum); }
  }

  // ----- the means over the bed

  lemma CascadeLength(c: BedConfig, d: Draws, q: nat, pool: CandidatePool, config: Config, noise: nat -> real, r: seq<SelectorResult>)
    requires DrawnFor(c, d, q) && IsPool(c, d, q, pool)
    requires config.strategy == CascadeVectorFirst && Selects(config, pool, noise, r)
    ensures |r| <= config.window
  {
    hide IsPool, DrawnFor, Ranks, CascadeScores, Distinct, FusionScores, RrfScores, Blended;
    var n := Min(config.window, |pool.vector|);
    VectorIsDistinct(c, d, q, pool);
    CascadeScore(pool.vector, pool.bm25, config.window, config.vectorWeight, config.bm25Weight, "");
    RanksDocs(CascadeScores(pool.vector, pool.bm25, config.window, config.vectorWeight, config.bm25Weight), Hybrid, r);
    DistinctCardinality(Docs(r));
    HeadIsDistinct(pool.vector, n);
    DistinctCardinality(Ids(pool.vector[..n]));
  }

  lemma VectorIsDistinct(c: BedConfig, d: Draws, q: nat, pool: CandidatePool)
    requires DrawnFor(c, d, q) && IsPool(c, d, q, pool)
    ensures Distinct(Ids(pool.vector))
  {
    hide MakeRanking, Picked, GoldId, Descending, IsUnion, Distinct;
    OrderIsDistinct(c, d.vectorOrder(q), q);
    RankingLaws(GoldId(q), d.vectorOrder(q), d.depth(q), AtLeastOne(c.poolSize), Vector);
  }

  lemma HeadIsDistinct(cs: seq<Candidate>, n: nat)
    requires Distinct(Ids(cs)) && n <= |cs|
    ensures Distinct(Ids(cs[..n])) && |Ids(cs[..n])| == n
  {
    assert Ids(cs[..n]) == Ids(cs)[..n];
  }

  /** One question: a cascade read to its end is answered exactly when it retrieves the gold document. */
  lemma AnsweredIsRetrieved(c: BedConfig, d: Draws, bed: Bed, q: nat, config: Config, noise: nat -> real, r: seq<SelectorResult>,
                            depth: nat, alnum: CharClass, m: Metrics)
    requires InRange(c, d) && IsBed(c, d, bed) && q < c.questions && Ordinary(alnum) && q < |bed.questions|
    requires config.strategy == CascadeVectorFirst && QueryId(q) in bed.pools && Selects(config, bed.pools[QueryId(q)], noise, r)
    requires depth >= config.window && Reports(BestSentence(depth), bed.questions[q], r, bed.corpus, alnum, m)
    ensures
      var retrieved := Retrieved(bed.questions[q], r);
      m.quality.exactMatch == retrieved && m.quality.spanExact == retrieved && m.quality.spanIou == retrieved
  {
    hide *;
    QuestionIs(c, d, bed, q);
    PoolIs(c, d, bed, q);
    CascadeLength(c, d, q, bed.pools[QueryId(q)], config, noise, r);
    ReadToTheEnd(r, depth);
    RetrievedIs(bed.questions[q], r);
    BestSentenceAnswersIff(c, d, bed, q, depth, r, alnum, m);
  }

  lemma PoolIs(c: BedConfig, d: Draws, bed: Bed, q: nat)
    requires InRange(c, d) && IsBed(c, d, bed) && q < c.questions
    ensures QueryId(q) in bed.pools && IsPool(c, d, q, bed.pools[QueryId(q)])
  {
    hide IsPool, QueryId;
  }

  lemma ReadToTheEnd(r: seq<SelectorResult>, depth: nat)
    requires |r| <= depth
    ensures Head(r, depth) == r
  {
  }

  lemma RetrievedIs(q: Question, r: seq<SelectorResult>)
    ensures Retrieved(q, r) == Flag(q.goldDocId in Docs(r))
  {
  }

  /**
   End to end: generate the bed, run the cascade, read its results to the end. The mean exact
   match, the mean exact span and the mean overlap all equal the share of the questions the
   bed advertises as reachable at the cascade's window.
   */
  lemma MeanAnswersAreReach(c: BedConfig, d: Draws, bed: Bed, config: Config, noise: nat -> real, rankings: seq<seq<SelectorResult>>,
                            depth: nat, alnum: CharClass, ms: seq<Metrics>)
    requires InRange(c, d) && IsBed(c, d, bed) && Cascades(c, bed, config, noise, rankings) && EnoughDistractors(c)
    requires Ordinary(alnum) && depth >= config.window
    requires ReportsAll(BestSentence(depth), bed.questions, rankings, bed.corpus, alnum, ms)
    ensures Mean(ColumnOf(ms, ExactMatch)) == ReachableFraction(bed, config.window)
    ensures Mean(ColumnOf(ms, SpanExact)) == ReachableFraction(bed, config.window)
    ensures Mean(ColumnOf(ms, SpanIou)) == ReachableFraction(bed, config.window)
  {
    hide *;
    ReachIsExact(c, d, bed, config, noise, rankings);
    ReportsLength(BestSentence(depth), bed.questions, rankings, bed.corpus, alnum, ms);
    forall q | 0 <= q < |ms| ensures AllAre(ms[q].quality, Retrieved(bed.questions[q], rankings[q])) {
      RowOf(c, d, bed, config, noise, rankings, BestSentence(depth), alnum, ms, q);
      AnsweredIsRetrieved(c, d, bed, q, config, noise, rankings[q], depth, alnum, ms[q]);
      AllAreIs(ms[q].quality, Retrieved(bed.questions[q], rankings[q]));
    }
    ColumnsAre(ms, RetrievedAll(bed.questions, rankings));
  }

  ghost predicate AllAre(x: Quality, y: real)
  {
    x.exactMatch == y && x.spanExact == y && x.spanIou == y
  }

  lemma AllAreIs(x: Quality, y: real)
    ensures AllAre(x, y) <==> x.exactMatch == y && x.spanExact == y && x.spanIou == y
  {
  }

  lemma ColumnsAre(ms: seq<Metrics>, v: seq<real>)
    requires |ms| == |v| && forall q :: 0 <= q < |ms| ==> AllAre(ms[q].quality, v[q])
    ensures ColumnOf(ms, ExactMatch) == v && ColumnOf(ms, SpanExact) == v && ColumnOf(ms, SpanIou) == v
  {
  }

  lemma ReportsLength(e: Extractor, qs: seq<Question>, rankings: seq<seq<SelectorResult>>, corpus: Corpus, alnum: CharClass, ms: seq<Metrics>)
    requires ReportsAll(e, qs, rankings, corpus, alnum, ms)
    ensures |qs| == |rankings| == |ms|
  {
  }

  lemma RowOf(c: BedConfig, d: Draws, bed: Bed, config: Config, noise: nat -> real, rankings: seq<seq<SelectorResult>>,
              e: Extractor, alnum: CharClass, ms: seq<Metrics>, q: nat)
    requires InRange(c, d) && IsBed(c, d, bed) && Cascades(c, bed, config, noise, rankings)
    requires ReportsAll(e, bed.questions, rankings, bed.corpus, alnum, ms) && q < |ms|
    ensures q < |bed.questions| == |rankings| == |ms| == c.questions
    ensures config.strategy == CascadeVectorFirst && QueryId(q) in bed.pools && Selects(config, bed.pools[QueryId(q)], noise, rankings[q])
    ensures Reports(e, bed.questions[q], rankings[q], bed.corpus, alnum, ms[q])
  {
    assert |bed.questions| == c.questions;
    hide IsBed, InRange, Selects, Reports, QueryId;
  }
}
