/**
 The generated sentences word by word, and the tokens they normalise to under any character
 class that takes letters and digits for words and full stops and question marks for gaps.
 */
module QaWords {
  import opened Sequences
  import opened Text
  import opened Sentences
  import opened Tokens
  import opened QaTexts

  predicate IsLetterOrDigit(c: char)
  {
    'a' <= c <= 'z' || 'A' <= c <= 'Z' || '0' <= c <= '9'
  }

  ghost predicate Ordinary(alnum: CharClass)
  {
    (forall c :: IsLetterOrDigit(c) ==> alnum(c)) && !alnum('.') && !alnum('?')
  }

  ghost predicate Lexical(w: string)
  {
    w != [] && forall i :: 0 <= i < |w| ==> IsLetterOrDigit(w[i])
  }

  ghost predicate AllLexical(ws: seq<string>)
  {
    forall i :: 0 <= i < |ws| ==> Lexical(ws[i])
  }

  function LowerWord(w: string): (r: string)
    ensures |r| == |w| && forall i :: 0 <= i < |w| ==> r[i] == Lower(w[i])
  {
    seq(|w|, i requires 0 <= i < |w| => Lower(w[i]))
  }

  function LowerWords(ws: seq<string>): (r: seq<string>)
    ensures |r| == |ws| && forall i :: 0 <= i < |ws| ==> r[i] == LowerWord(ws[i])
  {
    seq(|ws|, i requires 0 <= i < |ws| => LowerWord(ws[i]))
  }

  // ----- the tokens of a sentence are its lowered words

  lemma LoweredConcat(a: string, b: string, alnum: CharClass)
    ensures Lowered(a + b, alnum) == Lowered(a, alnum) + Lowered(b, alnum)
  {
    hide Fold;
  }

  lemma LetterFolds(c: char, alnum: CharClass)
    requires Ordinary(alnum) && IsLetterOrDigit(c)
    ensures Fold(c, alnum) == Lower(c) && !IsSpace(Lower(c))
  {
  }

  lemma LoweredWord(w: string, alnum: CharClass)
    requires Ordinary(alnum) && Lexical(w)
    ensures Lowered(w, alnum) == LowerWord(w) && IsWord(LowerWord(w))
  {
    hide Fold, IsSpace, Lower, IsLetterOrDigit, Ordinary;
    forall i | 0 <= i < |w| ensures Fold(w[i], alnum) == Lower(w[i]) && !IsSpace(Lower(w[i])) { LetterFolds(w[i], alnum); }
  }

  lemma BlankFolds(alnum: CharClass)
    requires Ordinary(alnum)
    ensures Lowered(" ", alnum) == " " && Lowered(".", alnum) == " " && Lowered("?", alnum) == " "
  {
  }

  lemma {:induction false} LoweredJoin(ws: seq<string>, alnum: CharClass)
    requires Ordinary(alnum) && AllLexical(ws)
    ensures Lowered(Join(ws), alnum) == Join(LowerWords(ws))
  {
    hide Ordinary, Lexical;
    if |ws| == 1 {
      LoweredWord(ws[0], alnum);
    } else if |ws| > 1 {
      LoweredJoin(ws[1..], alnum);
      LoweredWord(ws[0], alnum);
      BlankFolds(alnum);
      LoweredConcat(ws[0] + " ", Join(ws[1..]), alnum);
      LoweredConcat(ws[0], " ", alnum);
      assert LowerWords(ws)[1..] == LowerWords(ws[1..]);
    }
  }

  /** White space separates: the words of two texts with a blank between them are the words of each. */
  lemma {:induction false} WordsConcat(a: string, b: string)
    ensures Words(a + " " + b) == Words(a) + Words(b)
    decreases |a|
  {
    hide Words, IsSpace;
    var s := a + " " + b;
    BlankIsSpace();
    SkipBlank(s);
    SkipBlank(a);
    if a == [] {
      assert s[1..] == b && [] + Words(b) == Words(b);
    } else if IsSpace(a[0]) {
      assert s[1..] == a[1..] + " " + b;
      WordsConcat(a[1..], b);
    } else {
      WordsConcat(a[WordLength(a)..], b);
      WordBefore(a, b);
    }
  }

  lemma WordBefore(a: string, b: string)
    requires a != [] && !IsSpace(a[0])
    ensures
      var n := WordLength(a);
      n > 0 && Words(a) == [a[..n]] + Words(a[n..]) && Words(a + " " + b) == [a[..n]] + Words(a[n..] + " " + b)
  {
    hide Words, IsSpace;
    var n := WordLength(a);
    var rest := a[n..] + " " + b;
    BlankIsSpace();
    assert a == a[..n] + a[n..] && a + " " + b == a[..n] + rest;
    FirstWord(a[..n], a[n..]);
    FirstWord(a[..n], rest);
  }

  lemma SkipBlank(s: string)
    ensures s == [] ==> Words(s) == []
    ensures s != [] && IsSpace(s[0]) ==> Words(s) == Words(s[1..])
  {
    hide IsSpace;
  }

  lemma BlankIsSpace()
    ensures IsSpace(' ')
  {
  }

  lemma TokensOfSentence(ws: seq<string>, end: string, alnum: CharClass)
    requires Ordinary(alnum) && AllLexical(ws) && (end == "." || end == "?")
    ensures NormalizedTokens(Join(ws) + end, alnum) == Filter(LowerWords(ws), NotArticle())
  {
    NormalizedTokensAreTokens(Join(ws) + end, alnum);
    var low := LowerWords(ws);
    forall i | 0 <= i < |low| ensures IsWord(low[i]) { LoweredWord(ws[i], alnum); }
    hide Words, Ordinary, Lexical, Join, NormalizedTokens;
    LoweredConcat(Join(ws), end, alnum);
    BlankFolds(alnum);
    LoweredJoin(ws, alnum);
    WordsConcat(Join(low), "");
    assert Join(low) + " " + "" == Join(low) + " ";
    SkipBlank("");
    WordsInvertJoin(low);
    assert low + [] == low;
  }

  /** A token of a sentence is one of its words, lowered, and no article. */
  lemma TokenIff(ws: seq<string>, end: string, alnum: CharClass, t: string)
    requires Ordinary(alnum) && AllLexical(ws) && (end == "." || end == "?")
    ensures t in NormalizedTokens(Join(ws) + end, alnum) <==> !IsArticle(t) && exists i :: 0 <= i < |ws| && t == LowerWord(ws[i])
  {
    hide Ordinary, Lexical, NormalizedTokens, Join;
    TokensOfSentence(ws, end, alnum);
    assert NotArticle()(t) == !IsArticle(t);
    assert t in LowerWords(ws) <==> exists i :: 0 <= i < |ws| && t == LowerWord(ws[i]);
  }

  /** A sentence of words is a sentence. */
  lemma WordsMakeSentence(ws: seq<string>)
    requires AllLexical(ws) && ws != []
    ensures IsSentence(Join(ws) + ".")
  {
    JoinIsPlain(ws);
    SentenceOf(Join(ws));
  }

  lemma {:induction false} JoinIsPlain(ws: seq<string>)
    requires AllLexical(ws) && ws != []
    ensures Plain(Join(ws)) && Join(ws) != [] && !IsSpace(Join(ws)[0])
  {
    LexicalIsPlain(ws[0]);
    if |ws| > 1 {
      JoinIsPlain(ws[1..]);
      hide Plain, Lexical, IsSpace;
      BlankIsPlain();
      PlainConcat(ws[0], " ");
      PlainConcat(ws[0] + " ", Join(ws[1..]));
    }
  }

  lemma LexicalIsPlain(w: string)
    requires Lexical(w)
    ensures Plain(w) && w != [] && !IsSpace(w[0])
  {
    hide IsSpace;
    LetterIsNotSpace(w[0]);
  }

  lemma LetterIsNotSpace(c: char)
    requires IsLetterOrDigit(c)
    ensures !IsSpace(c)
  {
  }

  lemma BlankIsPlain()
    ensures Plain(" ")
  {
  }

  // ----- the sentences, word by word

  function Topic(q: nat): string { "topic" + Decimal(q) }
  function Attribute(q: nat): string { "attribute" + Decimal(q) }
  function Datum(q: nat): string { "value" + Decimal(q) }

  function QueryWords(q: nat): seq<string>
  {
    ["What", "is", "the", Topic(q), Attribute(q)]
  }

  function AnswerWords(q: nat): seq<string>
  {
    ["The", Topic(q), Attribute(q), "is", "recorded", "as", Datum(q), "in", "the", "register"]
  }

  function SectionWords(s: nat, q: nat): seq<string>
  {
    ["Section", Decimal(s), "of", "the", Topic(q), "dossier", "lists", "procedural", "detail"]
  }

  function NearMissWords(topic: nat, s: nat, i: nat): seq<string>
  {
    ["Background", "remarks", "about", Topic(topic), "appear", "in", "section", Decimal(s), "of", "note", Decimal(i)]
  }

  function FillerWords(s: nat, i: nat): seq<string>
  {
    ["Filler", "statement", Decimal(s), "in", "note", Decimal(i), "covers", "unrelated", "material"]
  }

  lemma {:induction false} JoinSnoc(ws: seq<string>, w: string)
    requires ws != []
    ensures Join(ws + [w]) == Join(ws) + " " + w
  {
    if |ws| == 1 {
      assert (ws + [w])[1..] == [w];
    } else {
      assert (ws + [w])[1..] == ws[1..] + [w];
      JoinSnoc(ws[1..], w);
    }
  }

  /** One more word, written with the blank before it. */
  lemma Word(t: string, ws: seq<string>, w: string)
    requires t == Join(ws) && ws != []
    ensures t + (" " + w) == Join(ws + [w])
  {
    hide Join;
    JoinSnoc(ws, w);
  }

  /** One more word that ends in a number. */
  lemma Numbered(t: string, ws: seq<string>, w: string, d: string)
    requires t == Join(ws) && ws != []
    ensures t + (" " + w) + d == Join(ws + [w + d])
  {
    hide Join;
    JoinSnoc(ws, w + d);
    assert t + (" " + w) + d == t + " " + (w + d);
  }

  lemma First(w: string, v: string)
    ensures Join([w]) == w && Join([w, v]) == w + " " + v
  {
    assert [w, v][1..] == [v];
  }

  lemma QueryIs(q: nat)
    ensures QueryText(q) == Join(QueryWords(q)) + "?"
  {
    var d := Decimal(q);
    hide Decimal, Join;
    First("What", "is");
    var t1 := "What is";
    assert t1 == "What" + " " + "is";
    var w1 := ["What", "is"];
    Word(t1, w1, "the");
    var w2 := w1 + ["the"];
    Numbered(t1 + " the", w2, "topic", d);
    var w3 := w2 + [Topic(q)];
    Numbered(t1 + " the" + " topic" + d, w3, "attribute", d);
    assert w3 + [Attribute(q)] == QueryWords(q);
    assert "What is the topic" == t1 + " the" + " topic";
  }

  lemma Regroup(t: string, a: string, b: string, c: string, d: string)
    ensures t + (a + b + c + d) == t + a + b + c + d
  {
  }

  lemma AnswerIs(q: nat)
    ensures AnswerSentence(q) == Join(AnswerWords(q)) + "."
  {
    var d := Decimal(q);
    hide Decimal, Join;
    var t1, w1 := AnswerStart(q);
    var t2, w2 := AnswerMiddle(t1, w1, d);
    var t3, w3 := t2 + " in", w2 + ["in"];
    Word(t2, w2, "in");
    Word(t3, w3, "the");
    Word(t3 + " the", w3 + ["the"], "register");
    assert w3 + ["the"] + ["register"] == AnswerWords(q);
    assert " in the register." == " in" + " the" + " register" + ".";
    Regroup(t2, " in", " the", " register", ".");
  }

  lemma AnswerStart(q: nat) returns (t: string, ws: seq<string>)
    ensures t == "The topic" + Decimal(q) + " attribute" + Decimal(q) && ws == ["The", Topic(q), Attribute(q)] && t == Join(ws)
  {
    var d := Decimal(q);
    hide Decimal, Join;
    First("The", Topic(q));
    assert "The topic" + d == "The" + " " + ("topic" + d);
    Numbered("The topic" + d, ["The", Topic(q)], "attribute", d);
    t, ws := "The topic" + d + " attribute" + d, ["The", Topic(q)] + [Attribute(q)];
  }

  lemma AnswerMiddle(t1: string, w1: seq<string>, d: string) returns (t: string, ws: seq<string>)
    requires t1 == Join(w1) && w1 != []
    ensures t == t1 + " is recorded as value" + d && ws == w1 + ["is", "recorded", "as", "value" + d] && t == Join(ws)
  {
    hide Join;
    Word(t1, w1, "is");
    Word(t1 + " is", w1 + ["is"], "recorded");
    Word(t1 + " is" + " recorded", w1 + ["is"] + ["recorded"], "as");
    Numbered(t1 + " is" + " recorded" + " as", w1 + ["is"] + ["recorded"] + ["as"], "value", d);
    Regroup(t1, " is", " recorded", " as", " value");
    assert " is recorded as value" == " is" + " recorded" + " as" + " value";
    t, ws := t1 + " is recorded as value" + d, w1 + ["is"] + ["recorded"] + ["as"] + ["value" + d];
  }

  lemma SectionIs(s: nat, q: nat)
    ensures SectionSentence(s, q) == Join(SectionWords(s, q)) + "."
  {
    var d, e := Decimal(s), Decimal(q);
    hide Decimal, Join;
    First("Section", d);
    var t1, w1 := "Section " + d, ["Section", d];
    assert t1 == "Section" + " " + d;
    Word(t1, w1, "of");
    Word(t1 + " of", w1 + ["of"], "the");
    Numbered(t1 + " of" + " the", w1 + ["of"] + ["the"], "topic", e);
    Regroup(t1, " of", " the", " topic", "");
    assert " of the topic" == " of" + " the" + " topic" + "";
    var t2, w2 := t1 + " of the topic" + e, w1 + ["of"] + ["the"] + [Topic(q)];
    assert t2 == Join(w2);
    SectionEnd(t2, w2);
    assert w2 + ["dossier", "lists", "procedural", "detail"] == SectionWords(s, q);
  }

  lemma SectionEnd(t: string, ws: seq<string>)
    requires t == Join(ws) && ws != []
    ensures t + " dossier lists procedural detail." == Join(ws + ["dossier", "lists", "procedural", "detail"]) + "."
  {
    hide Join;
    SectionTail();
    SectionPairs();
    Ending(t, ws, ["dossier", "lists"], " dossier lists", ["procedural", "detail"], " procedural detail");
    assert ["dossier", "lists"] + ["procedural", "detail"] == ["dossier", "lists", "procedural", "detail"];
  }

  lemma SectionTail()
    ensures " dossier lists procedural detail." == " dossier lists" + " procedural detail" + "."
  {
  }

  lemma SectionPairs()
    ensures " dossier lists" == (" " + "dossier") + (" " + "lists") && " procedural detail" == (" " + "procedural") + (" " + "detail")
  {
  }

  /** Two pairs of words and a full stop. */
  lemma Ending(t: string, ws: seq<string>, x: seq<string>, a: string, y: seq<string>, b: string)
    requires t == Join(ws) && ws != [] && |x| == |y| == 2
    requires a == (" " + x[0]) + (" " + x[1]) && b == (" " + y[0]) + (" " + y[1])
    ensures t + (a + b + ".") == Join(ws + (x + y)) + "."
  {
    hide Join;
    Pair(t, ws, x, a);
    Pair(t + a, ws + x, y, b);
    assert ws + x + y == ws + (x + y);
  }

  lemma Pair(t: string, ws: seq<string>, x: seq<string>, a: string)
    requires t == Join(ws) && ws != [] && |x| == 2 && a == (" " + x[0]) + (" " + x[1])
    ensures t + a == Join(ws + x)
  {
    hide Join;
    Word(t, ws, x[0]);
    Word(t + (" " + x[0]), ws + [x[0]], x[1]);
    assert ws + [x[0]] + [x[1]] == ws + x;
  }

  lemma NearMissIs(topic: nat, s: nat, i: nat)
    ensures NearMissSentence(topic, s, i) == Join(NearMissWords(topic, s, i)) + "."
  {
    var d, e, f := Decimal(topic), Decimal(s), Decimal(i);
    hide Decimal, Join;
    var t1, w1 := NearMissStart(topic);
    Word(t1, w1, "appear");
    Word(t1 + " appear", w1 + ["appear"], "in");
    Word(t1 + " appear" + " in", w1 + ["appear"] + ["in"], "section");
    Word(t1 + " appear" + " in" + " section", w1 + ["appear"] + ["in"] + ["section"], e);
    Regroup(t1, " appear", " in", " section", " ");
    assert " appear in section " == " appear" + " in" + " section" + " ";
    var t2, w2 := t1 + " appear in section " + e, w1 + ["appear"] + ["in"] + ["section"] + [e];
    assert t2 == t1 + " appear" + " in" + " section" + (" " + e);
    NearMissEnd(t2, w2, f);
    assert w2 + ["of", "note", f] == NearMissWords(topic, s, i);
  }

  lemma NearMissStart(topic: nat) returns (t: string, ws: seq<string>)
    ensures t == "Background remarks about topic" + Decimal(topic) && ws == ["Background", "remarks", "about", Topic(topic)] && t == Join(ws)
  {
    var d := Decimal(topic);
    hide Decimal, Join;
    First("Background", "remarks");
    var t1, w1 := "Background remarks", ["Background", "remarks"];
    assert t1 == "Background" + " " + "remarks";
    Word(t1, w1, "about");
    Numbered(t1 + " about", w1 + ["about"], "topic", d);
    assert "Background remarks about topic" == t1 + " about" + " topic";
    t, ws := "Background remarks about topic" + d, w1 + ["about"] + [Topic(topic)];
  }

  lemma NearMissEnd(t: string, ws: seq<string>, f: string)
    requires t == Join(ws) && ws != []
    ensures t + " of note " + f + "." == Join(ws + ["of", "note", f]) + "."
  {
    hide Join;
    Word(t, ws, "of");
    Word(t + " of", ws + ["of"], "note");
    Word(t + " of" + " note", ws + ["of"] + ["note"], f);
    assert ws + ["of"] + ["note"] + [f] == ws + ["of", "note", f];
    Regroup(t, " of", " note", " ", "");
    assert " of note " == " of" + " note" + " " + "";
    assert t + " of note " + f == t + " of" + " note" + (" " + f);
  }

  lemma FillerIs(s: nat, i: nat)
    ensures FillerSentence(s, i) == Join(FillerWords(s, i)) + "."
  {
    var d, e := Decimal(s), Decimal(i);
    hide Decimal, Join;
    First("Filler", "statement");
    var t1, w1 := "Filler statement", ["Filler", "statement"];
    assert t1 == "Filler" + " " + "statement";
    Word(t1, w1, d);
    var t2, w2 := t1 + (" " + d), w1 + [d];
    assert "Filler statement " == t1 + " ";
    assert "Filler statement " + d == t2;
    FillerEnd(t2, w2, e);
    assert w2 + ["in", "note", e, "covers", "unrelated", "material"] == FillerWords(s, i);
  }

  lemma FillerEnd(t: string, ws: seq<string>, e: string)
    requires t == Join(ws) && ws != []
    ensures t + " in note " + e + " covers unrelated material." == Join(ws + ["in", "note", e, "covers", "unrelated", "material"]) + "."
  {
    hide Join;
    FillerTail();
    FillerStop();
    Pair(t, ws, ["in", "note"], " in note");
    assert t + " in note " + e == t + " in note" + (" " + e);
    var u, v := t + " in note " + e, ws + ["in", "note"];
    Ending(t + " in note", v, [e, "covers"], (" " + e) + " covers", ["unrelated", "material"], " unrelated material");
    assert u + " covers unrelated material." == t + " in note" + ((" " + e) + " covers" + " unrelated material" + ".");
    assert v + ([e, "covers"] + ["unrelated", "material"]) == ws + ["in", "note", e, "covers", "unrelated", "material"];
  }

  lemma FillerTail()
    ensures " in note" == (" " + "in") + (" " + "note") && " in note " == " in note" + " "
    ensures " covers" == " " + "covers" && " unrelated material" == (" " + "unrelated") + (" " + "material")
  {
  }

  lemma FillerStop()
    ensures " covers unrelated material." == " covers" + " unrelated material" + "."
  {
  }

  // ----- telling words apart by their first two letters

  ghost predicate Starts(w: string, a: char, b: char)
  {
    |w| >= 2 && Lower(w[0]) == a && Lower(w[1]) == b
  }

  /** A word that is none of the query's words. */
  ghost predicate Unlike(w: string)
  {
    !Starts(w, 'w', 'h') && !Starts(w, 'i', 's') && !Starts(w, 't', 'o') && !Starts(w, 'a', 't')
  }

  ghost predicate Other(w: string)
  {
    Lexical(w) && Unlike(w)
  }

  lemma QueryLexical()
    ensures Lexical("What") && Lexical("is") && Lexical("the") && Lexical("The")
  {
  }

  lemma Articles()
    ensures Other("The") && Other("the") && Other("in") && Other("of") && Other("as")
  {
  }

  lemma RecordedOther()
    ensures Other("recorded") && Other("register")
  {
  }

  lemma SectionOther()
    ensures Other("Section") && Other("section") && Other("dossier")
  {
  }

  lemma ListsOther()
    ensures Other("lists") && Other("procedural") && Other("detail")
  {
  }

  lemma BackgroundOther()
    ensures Other("Background") && Other("remarks") && Other("about")
  {
  }

  lemma AppearOther()
    ensures Other("appear") && Other("note") && Other("Filler")
  {
  }

  lemma StatementOther()
    ensures Other("statement") && Other("covers")
  {
  }

  lemma UnrelatedOther()
    ensures Other("unrelated") && Other("material")
  {
  }

  lemma DigitsOther(n: nat)
    ensures Other(Decimal(n))
  {
    hide Decimal;
  }

  lemma NumberedLexical(w: string, n: nat)
    requires Lexical(w)
    ensures Lexical(w + Decimal(n))
  {
    hide Decimal;
  }

  lemma {:induction false} LowerDigits(w: string, n: nat)
    requires LowerWord(w) == w
    ensures LowerWord(w + Decimal(n)) == w + Decimal(n)
  {
    hide Decimal;
    forall i | 0 <= i < |w| ensures Lower(w[i]) == w[i] { assert LowerWord(w)[i] == w[i]; }
  }

  /** The numbered words: their letters, their lowered form, and that the number tells them apart. */
  lemma NumberedWords(q: nat)
    ensures Lexical(Topic(q)) && LowerWord(Topic(q)) == Topic(q) && Starts(Topic(q), 't', 'o')
    ensures Lexical(Attribute(q)) && LowerWord(Attribute(q)) == Attribute(q) && Starts(Attribute(q), 'a', 't')
    ensures Other(Datum(q))
  {
    hide Decimal;
    TopicLetters();
    NumberedLexical("topic", q);
    NumberedLexical("attribute", q);
    NumberedLexical("value", q);
    LowerDigits("topic", q);
    LowerDigits("attribute", q);
  }

  lemma TopicLetters()
    ensures Lexical("topic") && LowerWord("topic") == "topic"
    ensures Lexical("attribute") && LowerWord("attribute") == "attribute"
    ensures Lexical("value")
  {
  }

  lemma NumbersTell(a: nat, b: nat)
    ensures Topic(a) == Topic(b) <==> a == b
    ensures Attribute(a) == Attribute(b) <==> a == b
  {
    hide Decimal;
    if Topic(a) == Topic(b) {
      assert Topic(a)[5..] == Decimal(a) && Topic(b)[5..] == Decimal(b);
      DecimalInjective(a, b);
    }
    if Attribute(a) == Attribute(b) {
      assert Attribute(a)[9..] == Decimal(a) && Attribute(b)[9..] == Decimal(b);
      DecimalInjective(a, b);
    }
  }

  lemma AnswerLexical(q: nat)
    ensures AllLexical(AnswerWords(q))
  {
    NumberedWords(q);
    Articles();
    QueryLexical();
    RecordedOther();
    hide Lexical, Unlike, Topic, Attribute, Datum;
  }

  lemma SectionLexical(s: nat, q: nat)
    ensures AllMild(SectionWords(s, q))
  {
    NumberedWords(q);
    DigitsOther(s);
    Articles();
    SectionOther();
    ListsOther();
    hide Lexical, Unlike, Topic, Decimal;
  }

  lemma NearMissLexical(topic: nat, s: nat, i: nat)
    ensures AllMild(NearMissWords(topic, s, i))
  {
    NumberedWords(topic);
    DigitsOther(s);
    DigitsOther(i);
    Articles();
    BackgroundOther();
    AppearOther();
    SectionOther();
    hide Lexical, Unlike, Topic, Decimal;
  }

  lemma FillerLexical(s: nat, i: nat)
    ensures AllMild(FillerWords(s, i))
  {
    DigitsOther(s);
    DigitsOther(i);
    Articles();
    AppearOther();
    StatementOther();
    UnrelatedOther();
    hide Lexical, Unlike, Topic, Decimal;
  }

  /** A word that may at most name a topic. */
  ghost predicate Mild(w: string)
  {
    Lexical(w) && (Unlike(w) || exists r :: w == Topic(r))
  }

  ghost predicate AllMild(ws: seq<string>)
  {
    forall i :: 0 <= i < |ws| ==> Mild(ws[i])
  }
}
