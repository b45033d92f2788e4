/** The texts of the generated question bed: document sentences, ids, and where the answer stands. */
module QaTexts {
  import opened Sequences
  import opened Text
  import opened Sentences
  import opened Extraction

  function QueryId(q: nat): string { "qa" + Decimal(q) }
  function GoldId(q: nat): string { "gold" + Decimal(q) }
  function DistractorId(i: nat): string { "distractor" + Decimal(i) }

  function AnswerSentence(q: nat): string
  {
    "The topic" + Decimal(q) + " attribute" + Decimal(q) + " is recorded as value" + Decimal(q) + " in the register."
  }

  function SectionSentence(s: nat, q: nat): string
  {
    "Section " + Decimal(s) + " of the topic" + Decimal(q) + " dossier lists procedural detail."
  }

  function QueryText(q: nat): string
  {
    "What is the topic" + Decimal(q) + " attribute" + Decimal(q) + "?"
  }

  function NearMissSentence(topic: nat, s: nat, i: nat): string
  {
    "Background remarks about topic" + Decimal(topic) + " appear in section " + Decimal(s) + " of note " + Decimal(i) + "."
  }

  function FillerSentence(s: nat, i: nat): string
  {
    "Filler statement " + Decimal(s) + " in note " + Decimal(i) + " covers unrelated material."
  }

  /** The gold document's sentences: the answer at `at`, procedural sections elsewhere. */
  function GoldSentences(n: nat, at: nat, q: nat): (ss: seq<string>)
    ensures |ss| == n
  {
    seq(n, s requires 0 <= s < n => if s == at then AnswerSentence(q) else SectionSentence(s, q))
  }

  // ----- ids

  lemma IdsDiffer(a: nat, b: nat)
    ensures GoldId(a) != DistractorId(b)
    ensures QueryId(a) == QueryId(b) <==> a == b
    ensures GoldId(a) == GoldId(b) <==> a == b
    ensures DistractorId(a) == DistractorId(b) <==> a == b
  {
    assert GoldId(a)[0] == 'g' && DistractorId(b)[0] == 'd';
    if QueryId(a) == QueryId(b) {
      assert QueryId(a)[2..] == Decimal(a) && QueryId(b)[2..] == Decimal(b);
      DecimalInjective(a, b);
    }
    if GoldId(a) == GoldId(b) {
      assert GoldId(a)[4..] == Decimal(a) && GoldId(b)[4..] == Decimal(b);
      DecimalInjective(a, b);
    }
    if DistractorId(a) == DistractorId(b) {
      assert DistractorId(a)[10..] == Decimal(a) && DistractorId(b)[10..] == Decimal(b);
      DecimalInjective(a, b);
    }
  }

  // ----- the sentences are sentences

  ghost predicate Plain(s: string)
  {
    '.' !in s && '!' !in s && '?' !in s
  }

  lemma SentenceOf(body: string)
    requires Plain(body) && body != [] && !IsSpace(body[0])
    ensures IsSentence(body + ".")
  {
    hide IsSpace;
    var s := body + ".";
    forall p | 0 <= p < |s| - 1 ensures !IsTerminator(s[p]) { assert s[p] in body; }
  }

  lemma PlainDecimal(n: nat)
    ensures Plain(Decimal(n))
  {
    hide Decimal;
  }

  lemma PlainAnswer()
    ensures Plain("The topic") && Plain(" attribute")
  {
  }

  lemma PlainRecorded()
    ensures Plain(" is recorded as value")
  {
  }

  lemma PlainRegister()
    ensures Plain(" in the register")
  {
  }

  lemma PlainSection()
    ensures Plain("Section ") && Plain(" of the topic")
  {
  }

  lemma PlainDossier()
    ensures Plain(" dossier lists procedural detail")
  {
  }

  lemma PlainConcat(a: string, b: string)
    requires Plain(a) && Plain(b)
    ensures Plain(a + b)
  {
  }

  lemma AnswerIsSentence(q: nat)
    ensures IsSentence(AnswerSentence(q)) && AnswerSentence(q)[0] == 'T'
  {
    var d := Decimal(q);
    var body := "The topic" + d + " attribute" + d + " is recorded as value" + d + " in the register";
    assert AnswerSentence(q) == body + ".";
    assert body[0] == 'T';
    PlainDecimal(q);
    PlainAnswer();
    PlainRecorded();
    PlainRegister();
    hide Decimal, Plain;
    PlainConcat("The topic", d);
    PlainConcat("The topic" + d, " attribute");
    PlainConcat("The topic" + d + " attribute", d);
    PlainConcat("The topic" + d + " attribute" + d, " is recorded as value");
    PlainConcat("The topic" + d + " attribute" + d + " is recorded as value", d);
    PlainConcat("The topic" + d + " attribute" + d + " is recorded as value" + d, " in the register");
    SentenceOf(body);
  }

  lemma SectionIsSentence(s: nat, q: nat)
    ensures IsSentence(SectionSentence(s, q)) && SectionSentence(s, q)[0] == 'S'
  {
    var d, e := Decimal(s), Decimal(q);
    var body := "Section " + d + " of the topic" + e + " dossier lists procedural detail";
    assert SectionSentence(s, q) == body + ".";
    assert body[0] == 'S';
    PlainDecimal(s);
    PlainDecimal(q);
    PlainSection();
    PlainDossier();
    hide Decimal, Plain;
    PlainConcat("Section ", d);
    PlainConcat("Section " + d, " of the topic");
    PlainConcat("Section " + d + " of the topic", e);
    PlainConcat("Section " + d + " of the topic" + e, " dossier lists procedural detail");
    SentenceOf(body);
  }

  // ----- where the answer stands

  /** `into_iter().find(..)`: the first sentence equal to the answer. */
  method FindSentence(text: string, answer: string) returns (b: Option<Bound>)
    ensures b.None? <==> forall i :: 0 <= i < |Split(text)| ==> !IsAnswer(text, Split(text)[i], answer)
    ensures b.Some? ==> exists i :: 0 <= i < |Split(text)| && b.value == Split(text)[i] && IsAnswer(text, b.value, answer)
                                    && forall j :: 0 <= j < i ==> !IsAnswer(text, Split(text)[j], answer)
  {
    var bounds := SentenceBounds(text);
    BoundsInText(text);
    hide Split;
    for i := 0 to |bounds|
      invariant forall j :: 0 <= j < i ==> !IsAnswer(text, bounds[j], answer)
    {
      if text[bounds[i].start..bounds[i].end] == answer { return Some(bounds[i]); }
    }
    b := None;
  }

  predicate IsAnswer(text: string, b: Bound, answer: string)
  {
    b.start <= b.end <= |text| && text[b.start..b.end] == answer
  }

  lemma GoldSentencesAre(n: nat, at: nat, q: nat)
    requires at < n
    ensures
      var ss := GoldSentences(n, at, q);
      && (forall i :: 0 <= i < n ==> IsSentence(ss[i]))
      && (forall i :: 0 <= i < n ==> (ss[i] == AnswerSentence(q) <==> i == at))
  {
    hide IsSentence;
    AnswerIsSentence(q);
    forall i | 0 <= i < n ensures IsSentence(GoldSentences(n, at, q)[i]) && (GoldSentences(n, at, q)[i] == AnswerSentence(q) <==> i == at) {
      SectionIsSentence(i, q);
      hide AnswerSentence, SectionSentence;
    }
  }

  /**
   The generated gold document has one sentence equal to the answer, the one at the drawn
   index, and the splitter finds it.
   */
  lemma AnswerStandsAt(n: nat, at: nat, q: nat)
    requires at < n
    ensures
      var text := Join(GoldSentences(n, at, q));
      && |Split(text)| == n
      && forall i :: 0 <= i < n ==> (IsAnswer(text, Split(text)[i], AnswerSentence(q)) <==> i == at)
  {
    var ss := GoldSentences(n, at, q);
    GoldSentencesAre(n, at, q);
    hide IsSentence, GoldSentences, AnswerSentence, Split, Join;
    SplitInvertsJoin(ss);
    forall i | 0 <= i < n ensures IsAnswer(Join(ss), Split(Join(ss))[i], AnswerSentence(q)) <==> i == at {
      assert Slices(Join(ss), Split(Join(ss)))[i] == ss[i];
    }
  }

  /** The gold span: the bounds of the answer, in the gold document. */
  function GoldSpan(n: nat, at: nat, q: nat): (span: Span)
    requires at < n
    ensures span.docId == GoldId(q) && IsAnswer(Join(GoldSentences(n, at, q)), Bound(span.start, span.end), AnswerSentence(q))
  {
    AnswerStandsAt(n, at, q);
    var b := Split(Join(GoldSentences(n, at, q)))[at];
    TextSpan(GoldId(q), b.start, b.end)
  }

  method LocateGold(n: nat, at: nat, q: nat, text: string) returns (span: Option<Span>)
    requires at < n && text == Join(GoldSentences(n, at, q))
    ensures span == Some(GoldSpan(n, at, q))
  {
    hide Split, Join, AnswerSentence, GoldSentences;
    var b := FindSentence(text, AnswerSentence(q));
    span := None;
    if b.Some? { span := Some(TextSpan(GoldId(q), b.value.start, b.value.end)); }
    AnswerStandsAt(n, at, q);
  }
}
