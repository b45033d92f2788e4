/**
 Answer normalisation and token scores. Which characters are alphanumeric is a parameter:
 the laws hold for every such class.
 */
module Tokens {
  import opened Sequences
  import opened Text
  import opened Sentences

  type CharClass = char -> bool

  // ----- words

  /** `to_ascii_lowercase`. */
  function Lower(c: char): char
  {
    if 'A' <= c <= 'Z' then 'a' + (c - 'A') else c
  }

  /** One character of the lowered text: anything but a letter, a digit or white space is blanked. */
  function Fold(c: char, alnum: CharClass): char
  {
    if alnum(c) || IsSpace(c) then Lower(c) else ' '
  }

  function Lowered(text: string, alnum: CharClass): (r: string)
    ensures |r| == |text| && forall i :: 0 <= i < |text| ==> r[i] == Fold(text[i], alnum)
  {
    seq(|text|, i requires 0 <= i < |text| => Fold(text[i], alnum))
  }

  predicate IsWord(w: string)
  {
    w != [] && forall i :: 0 <= i < |w| ==> !IsSpace(w[i])
  }

  /** The length of the word at the start of `s`. */
  function WordLength(s: string): (n: nat)
    ensures n <= |s| && (forall i :: 0 <= i < n ==> !IsSpace(s[i])) && (n < |s| ==> IsSpace(s[n]))
    ensures s != [] && !IsSpace(s[0]) ==> n > 0
  {
    if s == [] || IsSpace(s[0]) then 0 else 1 + WordLength(s[1..])
  }

  /** `split_whitespace`. */
  function Words(s: string): (ws: seq<string>)
    ensures forall i :: 0 <= i < |ws| ==> IsWord(ws[i])
    decreases |s|
  {
    if s == [] then []
    else if IsSpace(s[0]) then Words(s[1..])
    else var n := WordLength(s); [s[..n]] + Words(s[n..])
  }

  predicate IsArticle(w: string)
  {
    w == "a" || w == "an" || w == "the"
  }

  function NotArticle(): string -> bool
  {
    w => !IsArticle(w)
  }

  /** The tokens of a text: its lowered words without the articles. */
  function Tokens(text: string, alnum: CharClass): (ws: seq<string>)
    ensures forall w :: w in ws ==> IsWord(w) && !IsArticle(w)
  {
    Filter(Words(Lowered(text, alnum)), NotArticle())
  }

  /** `normalize_answer`. */
  function Normalize(text: string, alnum: CharClass): string
  {
    Join(Tokens(text, alnum))
  }

  /** `normalized_tokens`. */
  function NormalizedTokens(text: string, alnum: CharClass): seq<string>
  {
    Words(Normalize(text, alnum))
  }

  lemma WordLengthIs(s: string, n: nat)
    requires n <= |s| && (forall i :: 0 <= i < n ==> !IsSpace(s[i])) && (n < |s| ==> IsSpace(s[n]))
    ensures WordLength(s) == n
  {
    hide IsSpace;
  }

  lemma FirstWord(w: string, rest: string)
    requires IsWord(w) && (rest != [] ==> IsSpace(rest[0]))
    ensures Words(w + rest) == [w] + Words(rest)
  {
    hide IsSpace;
    var s := w + rest;
    assert s[0] == w[0];
    WordLengthIs(s, |w|);
    assert s[..|w|] == w && s[|w|..] == rest;
  }

  /** Splitting at white space inverts joining words with single spaces. */
  lemma {:induction false} WordsInvertJoin(ws: seq<string>)
    requires forall i :: 0 <= i < |ws| ==> IsWord(ws[i])
    ensures Words(Join(ws)) == ws
  {
    if |ws| == 1 {
      FirstWord(ws[0], "");
      assert ws[0] + "" == ws[0];
    } else if |ws| > 1 {
      WordsInvertJoin(ws[1..]);
      var rest := " " + Join(ws[1..]);
      assert rest[1..] == Join(ws[1..]);
      FirstWord(ws[0], rest);
      assert ws[0] + rest == ws[0] + " " + Join(ws[1..]);
    }
  }

  /** Normalising and splitting again loses nothing: the tokens come back as they were. */
  lemma NormalizedTokensAreTokens(text: string, alnum: CharClass)
    ensures NormalizedTokens(text, alnum) == Tokens(text, alnum)
  {
    var ws := Tokens(text, alnum);
    forall i | 0 <= i < |ws| ensures IsWord(ws[i]) { assert ws[i] in ws; }
    hide Tokens;
    WordsInvertJoin(ws);
  }

  /** Two texts normalise to the same string exactly when their tokens are the same in the same order. */
  lemma NormalizeIsInjectiveOnTokens(a: string, b: string, alnum: CharClass)
    ensures Normalize(a, alnum) == Normalize(b, alnum) <==> Tokens(a, alnum) == Tokens(b, alnum)
  {
    NormalizedTokensAreTokens(a, alnum);
    NormalizedTokensAreTokens(b, alnum);
  }

  // ----- normalising twice

  ghost predicate Folded(s: string, alnum: CharClass)
  {
    forall i :: 0 <= i < |s| ==> Fold(s[i], alnum) == s[i]
  }

  ghost predicate KnowsLetters(alnum: CharClass)
  {
    forall c :: 'a' <= c <= 'z' ==> alnum(c)
  }

  lemma {:induction false} WordsFolded(s: string, alnum: CharClass)
    requires Folded(s, alnum)
    ensures forall w :: w in Words(s) ==> Folded(w, alnum)
    decreases |s|
  {
    hide Fold, IsSpace;
    if s != [] {
      if IsSpace(s[0]) {
        WordsFolded(s[1..], alnum);
      } else {
        WordsFolded(s[WordLength(s)..], alnum);
      }
    }
  }

  lemma {:induction false} JoinFolded(ws: seq<string>, alnum: CharClass)
    requires forall w :: w in ws ==> Folded(w, alnum)
    ensures Folded(Join(ws), alnum)
  {
    if |ws| == 1 {
      assert ws[0] in ws;
    } else if |ws| > 1 {
      assert ws[0] in ws;
      JoinFolded(ws[1..], alnum);
      assert Fold(' ', alnum) == ' ';
    }
  }

  lemma FoldTwice(c: char, alnum: CharClass)
    requires KnowsLetters(alnum)
    ensures Fold(Fold(c, alnum), alnum) == Fold(c, alnum)
  {
  }

  /** Normalising a normalised answer changes nothing, for every class that has the letters a to z. */
  lemma NormalizeTwice(text: string, alnum: CharClass)
    requires KnowsLetters(alnum)
    ensures Normalize(Normalize(text, alnum), alnum) == Normalize(text, alnum)
  {
    var low, ws := Lowered(text, alnum), Tokens(text, alnum);
    forall i | 0 <= i < |low| ensures Fold(low[i], alnum) == low[i] { FoldTwice(text[i], alnum); }
    WordsFolded(low, alnum);
    JoinFolded(ws, alnum);
    var n := Normalize(text, alnum);
    assert Lowered(n, alnum) == n;
    NormalizedTokensAreTokens(text, alnum);
    FilterAll(ws, NotArticle());
  }

  // ----- token bags

  datatype Prf = Prf(precision: real, recall: real, f1: real)

  /** Tokens in common, counted with multiplicity. */
  function Overlap(p: seq<string>, g: seq<string>): nat
  {
    |multiset(p) * multiset(g)|
  }

  function PrfOf(p: seq<string>, g: seq<string>): Prf
  {
    if p == [] && g == [] then Prf(1.0, 1.0, 1.0)
    else if p == [] || g == [] || Overlap(p, g) == 0 then Prf(0.0, 0.0, 0.0)
    else
      var precision, recall := Overlap(p, g) as real / |p| as real, Overlap(p, g) as real / |g| as real;
      Prf(precision, recall, 2.0 * precision * recall / (precision + recall))
  }

  ghost predicate CountsOf(counts: map<string, nat>, bag: multiset<string>)
  {
    forall t :: (if t in counts then counts[t] else 0) == bag[t]
  }

  lemma IntersectOneMore<T>(m: multiset<T>, g: multiset<T>, t: T)
    ensures |(m + multiset{t}) * g| == |m * g| + if m[t] < g[t] then 1 else 0
  {
    if m[t] < g[t] {
      assert (m + multiset{t}) * g == m * g + multiset{t};
    } else {
      assert (m + multiset{t}) * g == m * g;
    }
  }

  method TokenPrf(predicted: seq<string>, gold: seq<string>) returns (r: Prf)
    ensures r == PrfOf(predicted, gold)
  {
    if predicted == [] && gold == [] { return Prf(1.0, 1.0, 1.0); }
    if predicted == [] || gold == [] { return Prf(0.0, 0.0, 0.0); }
    var counts := CountTokens(gold);
    var overlap := Consume(predicted, gold, counts);
    if overlap == 0 { return Prf(0.0, 0.0, 0.0); }
    var precision, recall := overlap as real / |predicted| as real, overlap as real / |gold| as real;
    r := Prf(precision, recall, 2.0 * precision * recall / (precision + recall));
  }

  method CountTokens(gold: seq<string>) returns (counts: map<string, nat>)
    ensures CountsOf(counts, multiset(gold))
  {
    counts := map[];
    for i := 0 to |gold|
      invariant CountsOf(counts, multiset(gold[..i]))
    {
      var t := gold[i];
      assert gold[..i + 1] == gold[..i] + [t];
      counts := counts[t := (if t in counts then counts[t] else 0) + 1];
    }
    assert gold[..|gold|] == gold;
  }

  /** Taking one more token uses up one of the remaining ones, if there is one. */
  lemma SubtractOneMore(remaining: map<string, nat>, m: multiset<string>, g: multiset<string>, t: string)
    requires CountsOf(remaining, g - m)
    ensures t in remaining && remaining[t] > 0 <==> m[t] < g[t]
    ensures m[t] < g[t] ==> CountsOf(remaining[t := remaining[t] - 1], g - (m + multiset{t}))
    ensures m[t] >= g[t] ==> CountsOf(remaining, g - (m + multiset{t}))
  {
  }

  /** The decrementing loop counts the multiset intersection. */
  method Consume(predicted: seq<string>, gold: seq<string>, counts: map<string, nat>) returns (overlap: nat)
    requires CountsOf(counts, multiset(gold))
    ensures overlap == Overlap(predicted, gold)
  {
    hide *;
    var remaining := counts;
    overlap := 0;
    NothingUsed(counts, multiset(gold));
    for i := 0 to |predicted|
      invariant Used(remaining, overlap, multiset(predicted[..i]), multiset(gold))
    {
      var t := predicted[i];
      assert predicted[..i + 1] == predicted[..i] + [t];
      UseOne(remaining, overlap, multiset(predicted[..i]), multiset(gold), t);
      if t in remaining && remaining[t] > 0 {
        remaining := remaining[t := remaining[t] - 1];
        overlap := overlap + 1;
      }
    }
    assert predicted[..|predicted|] == predicted;
    AllUsed(remaining, overlap, predicted, gold);
  }

  /** After the predicted tokens `m`: what is left of the gold tokens, and how many were used up. */
  ghost predicate Used(remaining: map<string, nat>, overlap: nat, m: multiset<string>, g: multiset<string>)
  {
    CountsOf(remaining, g - m) && overlap == |m * g|
  }

  lemma NothingUsed(counts: map<string, nat>, g: multiset<string>)
    requires CountsOf(counts, g)
    ensures Used(counts, 0, multiset([]), g)
  {
    assert g - multiset([]) == g && multiset([]) * g == multiset{};
  }

  lemma UseOne(remaining: map<string, nat>, overlap: nat, m: multiset<string>, g: multiset<string>, t: string)
    requires Used(remaining, overlap, m, g)
    ensures
      if t in remaining && remaining[t] > 0 then Used(remaining[t := remaining[t] - 1], overlap + 1, m + multiset{t}, g)
      else Used(remaining, overlap, m + multiset{t}, g)
  {
    hide CountsOf;
    IntersectOneMore(m, g, t);
    SubtractOneMore(remaining, m, g, t);
  }

  lemma AllUsed(remaining: map<string, nat>, overlap: nat, predicted: seq<string>, gold: seq<string>)
    requires Used(remaining, overlap, multiset(predicted), multiset(gold))
    ensures overlap == Overlap(predicted, gold)
  {
  }

  lemma OverlapBounds(p: seq<string>, g: seq<string>)
    ensures Overlap(p, g) <= |p| && Overlap(p, g) <= |g| && Overlap(p, g) == Overlap(g, p)
    ensures Overlap(p, g) == |p| == |g| <==> multiset(p) == multiset(g)
  {
    var m, n := multiset(p), multiset(g);
    assert m * n == n * m;
    assert m == m * n + (m - n) && n == m * n + (n - m);
    if Overlap(p, g) == |p| == |g| {
      assert |m - n| == 0 && |n - m| == 0;
      assert m == m * n == n;
    }
    if m == n { assert m * n == m; }
  }

  lemma HarmonicMean(o: real, a: real, b: real, p: real, r: real, f: real)
    requires o > 0.0 && a > 0.0 && b > 0.0 && p == o / a && r == o / b
    requires p + r > 0.0 && f == 2.0 * p * r / (p + r)
    ensures f == 2.0 * o / (a + b)
  {
    assert p * a == o && r * b == o;
    assert f * (p + r) == 2.0 * p * r;
    assert (p + r) * (a * b) == (p * a) * b + (r * b) * a == o * (a + b);
    assert (2.0 * p * r) * (a * b) == 2.0 * (p * a) * (r * b) == 2.0 * o * o;
    assert f * (o * (a + b)) == f * (p + r) * (a * b) == 2.0 * o * o;
    assert o * (f * (a + b)) == o * (2.0 * o);
    assert f * (a + b) == 2.0 * o;
  }

  /**
   Precision is the overlap's share of the prediction, recall its share of the gold answer,
   and F1 twice the overlap over the two lengths.
   */
  lemma F1Formula(p: seq<string>, g: seq<string>)
    requires p != [] && g != []
    ensures PrfOf(p, g).f1 == 2.0 * Overlap(p, g) as real / (|p| + |g|) as real
    ensures PrfOf(p, g).precision * |p| as real == Overlap(p, g) as real == PrfOf(p, g).recall * |g| as real
  {
    var o := Overlap(p, g);
    Quotient(o as real, |p| as real);
    Quotient(o as real, |g| as real);
    if o > 0 {
      var r := PrfOf(p, g);
      Positive(o as real, |p| as real);
      Positive(o as real, |g| as real);
      HarmonicMean(o as real, |p| as real, |g| as real, r.precision, r.recall, r.f1);
    }
  }

  lemma Quotient(x: real, d: real)
    requires d != 0.0
    ensures x / d * d == x
  {
  }

  lemma Positive(x: real, d: real)
    requires x > 0.0 && d > 0.0
    ensures x / d > 0.0
  {
  }

  lemma Share(x: nat, d: nat)
    requires x <= d && d > 0
    ensures 0.0 <= x as real / d as real <= 1.0
    ensures x as real / d as real == 1.0 <==> x == d
  {
  }

  /**
   F1 is symmetric, lies in [0,1], and is 1 exactly when the two token bags are equal;
   precision and recall change places when the two sides do.
   */
  lemma F1Laws(p: seq<string>, g: seq<string>)
    ensures
      var r, s := PrfOf(p, g), PrfOf(g, p);
      && r.f1 == s.f1 && r.precision == s.recall && r.recall == s.precision
      && 0.0 <= r.f1 <= 1.0 && 0.0 <= r.precision <= 1.0 && 0.0 <= r.recall <= 1.0
      && (r.f1 == 1.0 <==> multiset(p) == multiset(g))
      && (r.f1 > 0.0 <==> (p == [] && g == []) || exists t :: t in p && t in g)
  {
    OverlapBounds(p, g);
    if p != [] && g != [] {
      F1Formula(p, g);
      F1Formula(g, p);
      CommonToken(p, g);
      Share(2 * Overlap(p, g), |p| + |g|);
      Share(Overlap(p, g), |p|);
      Share(Overlap(p, g), |g|);
    } else {
      assert |multiset(p)| == |p| && |multiset(g)| == |g|;
    }
  }

  lemma CommonToken(p: seq<string>, g: seq<string>)
    ensures Overlap(p, g) > 0 <==> exists t :: t in p && t in g
  {
    var both := multiset(p) * multiset(g);
    if |both| > 0 {
      var t :| t in both;
      assert t in multiset(p) && t in multiset(g);
      assert t in p && t in g;
    }
    if t :| t in p && t in g {
      assert t in multiset(p) && t in multiset(g);
      assert t in both;
    }
  }
}
