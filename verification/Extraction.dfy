/** Spans of text, and the two extractors that read an answer out of a ranking. */
module Extraction {
  import opened Sequences
  import opened Sentences
  import opened Tokens
  import opened Ranking

  datatype TextSpan = TextSpan(docId: string, start: nat, end: nat)

  /** A span that does not end before it starts, the only kind the program builds. */
  type Span = s: TextSpan | s.start <= s.end witness TextSpan("", 0, 0)

  function Larger(a: nat, b: nat): nat { if a < b then b else a }

  function Intersection(a: Span, b: Span): nat
  {
    var lo, hi := Larger(a.start, b.start), Min(a.end, b.end);
    if hi > lo then hi - lo else 0
  }

  /** Intersection over union; spans in different documents do not overlap. */
  function Iou(a: Span, b: Span): real
  {
    if a.docId != b.docId then 0.0
    else
      var union := Larger(a.end, b.end) - Min(a.start, b.start);
      if union == 0 then 0.0 else Intersection(a, b) as real / union as real
  }

  /** IoU is symmetric, in [0,1], and 1 exactly for the same non-empty span. */
  lemma IouLaws(a: Span, b: Span)
    ensures Iou(a, b) == Iou(b, a) && 0.0 <= Iou(a, b) <= 1.0
    ensures Iou(a, b) == 1.0 <==> a == b && a.start < a.end
    ensures Iou(a, b) > 0.0 ==> a.docId == b.docId
  {
    if a.docId == b.docId {
      var union := Larger(a.end, b.end) - Min(a.start, b.start);
      if union > 0 { Share(Intersection(a, b), union); }
    }
  }

  ghost function Range(lo: int, hi: int): (r: set<int>)
    ensures forall p :: p in r <==> lo <= p < hi
    ensures |r| == if lo < hi then hi - lo else 0
    decreases hi - lo
  {
    if lo < hi then Range(lo, hi - 1) + {hi - 1} else {}
  }

  /** The positions a span covers. */
  ghost function Positions(s: Span): set<int>
  {
    Range(s.start, s.end)
  }

  /**
   Within a document IoU is the share of the positions covered by either span that both
   cover, although the program measures the union from the first start to the last end.
   */
  lemma IouIsJaccard(a: Span, b: Span)
    requires a.docId == b.docId
    ensures
      var either, both := Positions(a) + Positions(b), Positions(a) * Positions(b);
      Iou(a, b) == if either == {} then 0.0 else |both| as real / |either| as real
  {
    hide Range, Positions;
    BothCovered(a, b);
    if Larger(a.start, b.start) < Min(a.end, b.end) {
      EitherCovered(a, b);
    } else {
      NothingShared(|Positions(a) + Positions(b)|);
    }
  }

  lemma BothCovered(a: Span, b: Span)
    ensures |Positions(a) * Positions(b)| == Intersection(a, b)
  {
    assert Positions(a) * Positions(b) == Range(Larger(a.start, b.start), Min(a.end, b.end));
  }

  lemma EitherCovered(a: Span, b: Span)
    requires Larger(a.start, b.start) < Min(a.end, b.end)
    ensures |Positions(a) + Positions(b)| == Larger(a.end, b.end) - Min(a.start, b.start) > 0
  {
    assert Positions(a) + Positions(b) == Range(Min(a.start, b.start), Larger(a.end, b.end));
  }

  lemma NothingShared(n: nat)
    ensures n > 0 ==> 0 as real / n as real == 0.0
  {
  }

  // ----- extractors

  type Corpus = map<string, string>

  datatype Extractor = WholeTopDocument | BestSentence(readDepth: nat)
  datatype Extracted = Extracted(text: string, span: Span)

  /** A sentence the extractor may choose, with the document it stands in. */
  datatype Passage = Passage(span: Span, text: string)

  function PassageAt(docId: string, text: string, b: Bound): Passage
    requires b.start <= b.end <= |text|
  {
    Passage(TextSpan(docId, b.start, b.end), text[b.start..b.end])
  }

  lemma BoundsInText(text: string)
    ensures forall i :: 0 <= i < |Split(text)| ==> Split(text)[i].start < Split(text)[i].end <= |text|
  {
    SplitIsRight(text, 0);
    forall i | 0 <= i < |Split(text)| ensures Split(text)[i].start < Split(text)[i].end <= |text| {
      assert GoodBound(text, 0, Split(text)[i]);
    }
  }

  /** The sentences of one document, in order; none when the corpus does not hold it. */
  function PassagesIn(docId: string, corpus: Corpus): (ps: seq<Passage>)
    ensures forall i :: 0 <= i < |ps| ==> ps[i].span.docId == docId && ps[i].span.start < ps[i].span.end
  {
    if docId !in corpus then []
    else
      var text := corpus[docId];
      BoundsInText(text);
      seq(|Split(text)|, i requires 0 <= i < |Split(text)| => PassageAt(docId, text, Split(text)[i]))
  }

  /** The sentences of the ranked documents, in reading order. */
  function Passages(ranking: seq<SelectorResult>, corpus: Corpus): seq<Passage>
  {
    if ranking == [] then []
    else Passages(ranking[..|ranking| - 1], corpus) + PassagesIn(ranking[|ranking| - 1].docId, corpus)
  }

  /** `token_overlap`: the share of the query's tokens the sentence has. */
  function Score(query: seq<string>, text: string, alnum: CharClass): real
  {
    PrfOf(NormalizedTokens(text, alnum), query).recall
  }

  /** The earliest passage with the highest score. */
  ghost predicate FirstBest(ps: seq<Passage>, k: int, query: seq<string>, alnum: CharClass)
  {
    && 0 <= k < |ps|
    && (forall i :: 0 <= i < |ps| ==> Score(query, ps[i].text, alnum) <= Score(query, ps[k].text, alnum))
    && (forall i :: 0 <= i < k ==> Score(query, ps[i].text, alnum) < Score(query, ps[k].text, alnum))
  }

  ghost predicate Chooses(ps: seq<Passage>, query: seq<string>, alnum: CharClass, r: Option<Passage>)
  {
    if ps == [] then r.None? else r.Some? && exists k :: FirstBest(ps, k, query, alnum) && r.value == ps[k]
  }

  function Head(ranking: seq<SelectorResult>, n: nat): seq<SelectorResult>
  {
    ranking[..Min(n, |ranking|)]
  }

  /** What `extract` returns on a ranking. */
  ghost predicate Extracts(e: Extractor, query: string, ranking: seq<SelectorResult>, corpus: Corpus, alnum: CharClass, r: Option<Extracted>)
  {
    match e
    case WholeTopDocument =>
      if ranking == [] || ranking[0].docId !in corpus then r.None?
      else r == Some(Extracted(corpus[ranking[0].docId], TextSpan(ranking[0].docId, 0, |corpus[ranking[0].docId]|)))
    case BestSentence(depth) =>
      exists p :: Chooses(Passages(Head(ranking, depth), corpus), NormalizedTokens(query, alnum), alnum, p) && r == AnswerOf(p)
  }

  function AnswerOf(p: Option<Passage>): Option<Extracted>
  {
    if p.None? then None else Some(Extracted(p.value.text, p.value.span))
  }

  lemma ChooseNext(ps: seq<Passage>, p: Passage, query: seq<string>, alnum: CharClass, r: Option<Passage>)
    requires Chooses(ps, query, alnum, r)
    ensures
      var better := r.None? || Score(query, p.text, alnum) > Score(query, r.value.text, alnum);
      Chooses(ps + [p], query, alnum, if better then Some(p) else r)
  {
    hide Score;
    if ps == [] {
      assert FirstBest([p], 0, query, alnum) && ps + [p] == [p];
    } else {
      var k :| FirstBest(ps, k, query, alnum) && r.value == ps[k];
      var j := if Score(query, p.text, alnum) > Score(query, r.value.text, alnum) then |ps| else k;
      assert FirstBest(ps + [p], j, query, alnum);
    }
  }

  method ExtractBestSentence(depth: nat, query: string, ranking: seq<SelectorResult>, corpus: Corpus, alnum: CharClass)
    returns (best: Option<Passage>)
    ensures Chooses(Passages(Head(ranking, depth), corpus), NormalizedTokens(query, alnum), alnum, best)
  {
    hide Chooses, Score, NormalizedTokens, PassagesIn;
    var tokens := NormalizedTokens(query, alnum);
    var head := Head(ranking, depth);
    best := None;
    var score := 0.0;
    NothingToChoose(tokens, alnum);
    for i := 0 to |head|
      invariant Chooses(Passages(head[..i], corpus), tokens, alnum, best)
      invariant best.Some? ==> score == Score(tokens, best.value.text, alnum)
    {
      ghost var before := Passages(head[..i], corpus);
      assert head[..i + 1][..i] == head[..i];
      best, score := ScanDocument(head[i].docId, corpus, tokens, alnum, before, best, score);
    }
    assert head[..|head|] == head;
  }

  lemma NothingToChoose(query: seq<string>, alnum: CharClass)
    ensures Chooses([], query, alnum, None)
  {
  }

  method ScanDocument(docId: string, corpus: Corpus, query: seq<string>, alnum: CharClass, ghost before: seq<Passage>, sofar: Option<Passage>, sofarScore: real)
    returns (best: Option<Passage>, score: real)
    requires Chooses(before, query, alnum, sofar)
    requires sofar.Some? ==> sofarScore == Score(query, sofar.value.text, alnum)
    ensures Chooses(before + PassagesIn(docId, corpus), query, alnum, best)
    ensures best.Some? ==> score == Score(query, best.value.text, alnum)
  {
    hide *;
    best, score := sofar, sofarScore;
    ghost var ps := PassagesIn(docId, corpus);
    PassagesCount(docId, corpus);
    if docId !in corpus {
      assert before + ps == before;
      return;
    }
    var text := corpus[docId];
    var bounds := SentenceBounds(text);
    ghost var seen := before;
    for j := 0 to |bounds|
      invariant seen == before + ps[..j] && Chooses(seen, query, alnum, best)
      invariant best.Some? ==> score == Score(query, best.value.text, alnum)
    {
      PassageIs(docId, corpus, j);
      var p := PassageAt(docId, text, bounds[j]);
      ChooseNext(seen, p, query, alnum, best);
      seen := seen + [p];
      var overlap := OverlapWith(query, p.text, alnum);
      if best.None? || overlap > score {
        best, score := Some(p), overlap;
      }
    }
    assert seen == before + ps;
  }

  lemma PassagesCount(docId: string, corpus: Corpus)
    ensures |PassagesIn(docId, corpus)| == if docId in corpus then |Split(corpus[docId])| else 0
  {
  }

  lemma PassageIs(docId: string, corpus: Corpus, j: nat)
    requires docId in corpus && j < |Split(corpus[docId])|
    ensures j < |PassagesIn(docId, corpus)|
    ensures Split(corpus[docId])[j].start < Split(corpus[docId])[j].end <= |corpus[docId]|
    ensures PassagesIn(docId, corpus)[j] == PassageAt(docId, corpus[docId], Split(corpus[docId])[j])
  {
    BoundsInText(corpus[docId]);
  }

  method OverlapWith(query: seq<string>, text: string, alnum: CharClass) returns (s: real)
    ensures s == Score(query, text, alnum)
  {
    var r := TokenPrf(NormalizedTokens(text, alnum), query);
    s := r.recall;
  }

  method Extract(e: Extractor, query: string, ranking: seq<SelectorResult>, corpus: Corpus, alnum: CharClass)
    returns (r: Option<Extracted>)
    ensures Extracts(e, query, ranking, corpus, alnum, r)
  {
    match e
    case WholeTopDocument =>
      if ranking == [] { return None; }
      var id := ranking[0].docId;
      if id !in corpus { return None; }
      r := Some(Extracted(corpus[id], TextSpan(id, 0, |corpus[id]|)));
    case BestSentence(depth) =>
      var best := ExtractBestSentence(depth, query, ranking, corpus, alnum);
      hide Chooses, Passages;
      r := AnswerOf(best);
  }
}
