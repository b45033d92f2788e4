/**
 The sentence splitter: cut after every terminator, trim white space, keep what is left.
 Offsets count characters of the text.
 */
module Sentences {
  import opened Text

  datatype Bound = Bound(start: nat, end: nat)

  predicate IsTerminator(c: char)
  {
    c == '.' || c == '!' || c == '?'
  }

  /** The first position in `[from, upTo)` that is not white space, or `upTo`: where `trim_start` begins. */
  function SkipForward(text: string, from: nat, upTo: nat): (s: nat)
    requires from <= upTo <= |text|
    ensures from <= s <= upTo && (forall i :: from <= i < s ==> IsSpace(text[i])) && (s < upTo ==> !IsSpace(text[s]))
    decreases upTo - from
  {
    if from == upTo || !IsSpace(text[from]) then from else SkipForward(text, from + 1, upTo)
  }

  /** One past the last position in `[from, upTo)` that is not white space, or `from`: where `trim_end` ends. */
  function SkipBack(text: string, from: nat, upTo: nat): (e: nat)
    requires from <= upTo <= |text|
    ensures from <= e <= upTo && (forall i :: e <= i < upTo ==> IsSpace(text[i])) && (e > from ==> !IsSpace(text[e - 1]))
    decreases upTo
  {
    if from == upTo || !IsSpace(text[upTo - 1]) then upTo else SkipBack(text, from, upTo - 1)
  }

  /** The first terminator at or after `from`, or the end of the text. */
  function NextTerminator(text: string, from: nat): (n: nat)
    requires from <= |text|
    ensures from <= n <= |text| && (forall i :: from <= i < n ==> !IsTerminator(text[i])) && (n < |text| ==> IsTerminator(text[n]))
    decreases |text| - from
  {
    if from == |text| || IsTerminator(text[from]) then from else NextTerminator(text, from + 1)
  }

  /** `push_trimmed`. */
  function Trimmed(text: string, from: nat, upTo: nat): seq<Bound>
    requires from <= upTo <= |text|
  {
    var s, e := SkipForward(text, from, upTo), SkipBack(text, from, upTo);
    if e > s then [Bound(s, e)] else []
  }

  /** The sentences of `text` from position `from` on. */
  function SplitFrom(text: string, from: nat): seq<Bound>
    requires from <= |text|
    decreases |text| - from
  {
    var n := NextTerminator(text, from);
    if n == |text| then Trimmed(text, from, n) else Trimmed(text, from, n + 1) + SplitFrom(text, n + 1)
  }

  function Split(text: string): seq<Bound>
  {
    SplitFrom(text, 0)
  }

  method SentenceBounds(text: string) returns (bounds: seq<Bound>)
    ensures bounds == Split(text)
  {
    hide *;
    bounds := [];
    var start := 0;
    StartSplit(text);
    for i := 0 to |text|
      invariant 0 <= start <= i
      invariant forall k :: start <= k < i ==> !IsTerminator(text[k])
      invariant bounds + SplitFrom(text, start) == Split(text)
    {
      if IsTerminator(text[i]) {
        CutAt(text, start, i);
        bounds := bounds + Trimmed(text, start, i + 1);
        start := i + 1;
      }
    }
    NoMoreCuts(text, start);
    if start < |text| {
      bounds := bounds + Trimmed(text, start, |text|);
    }
  }

  lemma StartSplit(text: string)
    ensures [] + SplitFrom(text, 0) == Split(text)
  {
  }

  lemma TerminatorAt(text: string, from: nat, n: nat)
    requires from <= n <= |text| && (forall i :: from <= i < n ==> !IsTerminator(text[i])) && (n < |text| ==> IsTerminator(text[n]))
    ensures NextTerminator(text, from) == n
  {
  }

  lemma CutAt(text: string, from: nat, n: nat)
    requires from <= n < |text| && (forall i :: from <= i < n ==> !IsTerminator(text[i])) && IsTerminator(text[n])
    ensures SplitFrom(text, from) == Trimmed(text, from, n + 1) + SplitFrom(text, n + 1)
  {
    hide IsTerminator, Trimmed;
    TerminatorAt(text, from, n);
  }

  lemma NoMoreCuts(text: string, from: nat)
    requires from <= |text| && forall i :: from <= i < |text| ==> !IsTerminator(text[i])
    ensures SplitFrom(text, from) == Trimmed(text, from, |text|)
    ensures from == |text| ==> SplitFrom(text, from) == []
  {
    hide IsTerminator, IsSpace;
    TerminatorAt(text, from, |text|);
  }

  // ----- what a split is

  /** A bound in `[from, |text|)`, trimmed, with no terminator before its last character. */
  ghost predicate GoodBound(text: string, from: nat, b: Bound)
  {
    && from <= b.start < b.end <= |text|
    && !IsSpace(text[b.start]) && !IsSpace(text[b.end - 1])
    && forall p :: b.start <= p < b.end - 1 ==> !IsTerminator(text[p])
  }

  ghost predicate Covers(bs: seq<Bound>, p: int)
  {
    exists i :: 0 <= i < |bs| && bs[i].start <= p < bs[i].end
  }

  ghost predicate AllGood(text: string, from: nat, bs: seq<Bound>)
  {
    forall i :: 0 <= i < |bs| ==> GoodBound(text, from, bs[i])
  }

  ghost predicate Ordered(bs: seq<Bound>)
  {
    forall i, j :: 0 <= i < j < |bs| ==> bs[i].end <= bs[j].start
  }

  ghost predicate EndsSentence(text: string, b: Bound)
  {
    0 < b.end <= |text| && IsTerminator(text[b.end - 1])
  }

  ghost predicate Ended(text: string, bs: seq<Bound>)
  {
    forall i :: 0 <= i < |bs| - 1 ==> EndsSentence(text, bs[i])
  }

  ghost predicate CoversAll(text: string, from: nat, bs: seq<Bound>)
  {
    forall p :: from <= p < |text| && !IsSpace(text[p]) ==> Covers(bs, p)
  }

  /**
   The bounds of the sentences from `from` on: in order, disjoint, all but the last ended by
   a terminator, and no character but white space left out.
   */
  ghost predicate Splits(text: string, from: nat, bs: seq<Bound>)
  {
    AllGood(text, from, bs) && Ordered(bs) && Ended(text, bs) && CoversAll(text, from, bs)
  }

  lemma TerminatorIsNotSpace(c: char)
    requires IsTerminator(c)
    ensures !IsSpace(c)
  {
  }

  lemma CoversFirst(b: Bound, rest: seq<Bound>, p: int)
    ensures Covers([b] + rest, p) <==> b.start <= p < b.end || Covers(rest, p)
  {
    var all := [b] + rest;
    if b.start <= p < b.end { assert all[0] == b; }
    if i :| 0 <= i < |rest| && rest[i].start <= p < rest[i].end { assert all[i + 1] == rest[i]; }
  }

  lemma LastSentence(text: string, from: nat)
    requires from <= |text| && NextTerminator(text, from) == |text|
    ensures Splits(text, from, Trimmed(text, from, |text|))
  {
    hide IsSpace, IsTerminator;
    var bs := Trimmed(text, from, |text|);
    forall p | from <= p < |text| && !IsSpace(text[p]) ensures Covers(bs, p) {
      assert bs[0].start <= p < bs[0].end;
    }
  }

  /** The sentence that ends at the next terminator, in front of the sentences after it. */
  lemma FirstSentence(text: string, from: nat, rest: seq<Bound>)
    requires from <= |text| && NextTerminator(text, from) < |text|
    requires Splits(text, NextTerminator(text, from) + 1, rest)
    ensures Splits(text, from, Trimmed(text, from, NextTerminator(text, from) + 1) + rest)
  {
    var n := NextTerminator(text, from);
    var b := HeadIsGood(text, from);
    hide Trimmed, IsSpace, IsTerminator;
    SplitsCons(text, from, b, rest);
  }

  lemma HeadIsGood(text: string, from: nat) returns (b: Bound)
    requires from <= |text| && NextTerminator(text, from) < |text|
    ensures
      var n := NextTerminator(text, from);
      && Trimmed(text, from, n + 1) == [b] && b.end == n + 1 && GoodBound(text, from, b)
      && (forall p :: from <= p < b.start ==> IsSpace(text[p])) && EndsSentence(text, b)
  {
    var n := NextTerminator(text, from);
    TerminatorIsNotSpace(text[n]);
    hide IsSpace, IsTerminator;
    b := Bound(SkipForward(text, from, n + 1), n + 1);
  }

  lemma SplitsCons(text: string, from: nat, b: Bound, rest: seq<Bound>)
    requires GoodBound(text, from, b) && EndsSentence(text, b)
    requires forall p :: from <= p < b.start ==> IsSpace(text[p])
    requires Splits(text, b.end, rest)
    ensures Splits(text, from, [b] + rest)
  {
    GoodCons(text, from, b, rest);
    CoversCons(text, from, b, rest);
    EndedCons(text, b, rest);
    hide AllGood, Ordered, Ended, CoversAll;
  }

  lemma CoversCons(text: string, from: nat, b: Bound, rest: seq<Bound>)
    requires b.start <= b.end <= |text| && CoversAll(text, b.end, rest)
    requires forall p :: from <= p < b.start ==> IsSpace(text[p])
    ensures CoversAll(text, from, [b] + rest)
  {
    hide IsSpace;
    forall p | from <= p < |text| && !IsSpace(text[p]) ensures Covers([b] + rest, p) {
      CoversFirst(b, rest, p);
      if p >= b.end { assert Covers(rest, p); }
    }
    hide Covers;
  }

  lemma EndedCons(text: string, b: Bound, rest: seq<Bound>)
    requires EndsSentence(text, b) && Ended(text, rest)
    ensures Ended(text, [b] + rest)
  {
    hide EndsSentence;
  }

  lemma GoodCons(text: string, from: nat, b: Bound, rest: seq<Bound>)
    requires GoodBound(text, from, b) && AllGood(text, b.end, rest)
    ensures AllGood(text, from, [b] + rest)
    ensures Ordered(rest) ==> Ordered([b] + rest)
  {
    hide IsSpace, IsTerminator;
    var all := [b] + rest;
    forall i | 1 <= i < |all| ensures GoodBound(text, from, all[i]) && b.end <= all[i].start {
      assert GoodBound(text, b.end, rest[i - 1]);
    }
  }

  /**
   For every text the bounds are in range, non-empty, trimmed, ordered and disjoint, and
   every character that is not white space lies in one of them.
   */
  lemma {:induction false} SplitIsRight(text: string, from: nat)
    requires from <= |text|
    ensures Splits(text, from, SplitFrom(text, from))
    decreases |text| - from
  {
    hide *;
    var n := NextTerminator(text, from);
    if n == |text| {
      LastSentence(text, from);
      NoMoreCuts(text, from);
    } else {
      SplitIsRight(text, n + 1);
      FirstSentence(text, from, SplitFrom(text, n + 1));
      CutAt(text, from, n);
    }
  }

  // ----- the split is the only one

  lemma SkipForwardIs(text: string, from: nat, upTo: nat, s: nat)
    requires from <= s <= upTo <= |text| && (forall i :: from <= i < s ==> IsSpace(text[i])) && (s < upTo ==> !IsSpace(text[s]))
    ensures SkipForward(text, from, upTo) == s
  {
    hide IsSpace;
  }

  lemma SkipBackIs(text: string, from: nat, upTo: nat, e: nat)
    requires from <= e <= upTo <= |text| && (forall i :: e <= i < upTo ==> IsSpace(text[i])) && (e > from ==> !IsSpace(text[e - 1]))
    ensures SkipBack(text, from, upTo) == e
  {
    hide IsSpace;
  }

  ghost predicate AllSpace(text: string, from: int, upTo: int)
    requires 0 <= from && upTo <= |text|
  {
    forall i :: from <= i < upTo ==> IsSpace(text[i])
  }

  lemma SpaceHasNoTerminator(text: string, from: int, upTo: int)
    requires 0 <= from && upTo <= |text| && AllSpace(text, from, upTo)
    ensures forall i :: from <= i < upTo ==> !IsTerminator(text[i])
  {
    forall i | from <= i < upTo ensures !IsTerminator(text[i]) {
      if IsTerminator(text[i]) { TerminatorIsNotSpace(text[i]); }
    }
  }

  /** Before the first bound there is only white space; if there is none, there is only white space. */
  lemma SpaceBeforeFirst(text: string, from: nat, bs: seq<Bound>)
    requires from <= |text| && Splits(text, from, bs)
    ensures bs == [] ==> AllSpace(text, from, |text|)
    ensures bs != [] ==> bs[0].start <= |text| && AllSpace(text, from, bs[0].start)
  {
    hide IsSpace, IsTerminator;
    if bs != [] {
      assert GoodBound(text, from, bs[0]);
      forall p | from <= p < bs[0].start ensures !Covers(bs, p) { }
    }
  }

  /** A terminator after the first bound starts belongs to the first bound, at its end. */
  lemma FirstEndsAtTerminator(text: string, from: nat, bs: seq<Bound>, n: nat)
    requires from <= |text| && Splits(text, from, bs) && bs != []
    requires from <= bs[0].start <= n < |text| && IsTerminator(text[n]) && forall i :: bs[0].start <= i < n ==> !IsTerminator(text[i])
    ensures bs[0].end == n + 1
  {
    hide IsSpace, IsTerminator, CoversAll;
    TerminatorIsNotSpace(text[n]);
    CoversAt(text, from, bs, n);
    var i :| 0 <= i < |bs| && bs[i].start <= n < bs[i].end;
    assert GoodBound(text, from, bs[0]) && GoodBound(text, from, bs[i]);
  }

  lemma CoversAt(text: string, from: nat, bs: seq<Bound>, p: nat)
    requires CoversAll(text, from, bs) && from <= p < |text| && !IsSpace(text[p])
    ensures Covers(bs, p)
  {
    hide IsSpace;
  }

  /** Without a terminator there is one bound, and only white space after it. */
  lemma LoneBound(text: string, from: nat, bs: seq<Bound>)
    requires from <= |text| && Splits(text, from, bs) && bs != []
    requires forall i :: bs[0].start <= i < |text| ==> !IsTerminator(text[i])
    ensures |bs| == 1 && bs[0].end <= |text| && AllSpace(text, bs[0].end, |text|)
  {
    hide IsSpace, IsTerminator;
    assert GoodBound(text, from, bs[0]);
    forall p | bs[0].end <= p < |text| ensures IsSpace(text[p]) { }
  }

  lemma SplitsTail(text: string, from: nat, bs: seq<Bound>)
    requires from <= |text| && Splits(text, from, bs) && bs != []
    ensures bs[0].end <= |text| && Splits(text, bs[0].end, bs[1..])
  {
    GoodTail(text, from, bs);
    CoversTail(text, from, bs);
    EndedTail(text, bs);
    hide AllGood, Ended, CoversAll;
  }

  lemma GoodTail(text: string, from: nat, bs: seq<Bound>)
    requires AllGood(text, from, bs) && Ordered(bs) && bs != []
    ensures bs[0].end <= |text| && AllGood(text, bs[0].end, bs[1..])
  {
    hide IsSpace, IsTerminator;
    assert GoodBound(text, from, bs[0]);
    forall i | 0 <= i < |bs[1..]| ensures GoodBound(text, bs[0].end, bs[1..][i]) {
      assert GoodBound(text, from, bs[i + 1]) && bs[0].end <= bs[i + 1].start;
    }
  }

  lemma CoversTail(text: string, from: nat, bs: seq<Bound>)
    requires CoversAll(text, from, bs) && bs != [] && GoodBound(text, from, bs[0])
    ensures CoversAll(text, bs[0].end, bs[1..])
  {
    hide IsSpace, IsTerminator;
    assert bs == [bs[0]] + bs[1..];
    forall p | bs[0].end <= p < |text| && !IsSpace(text[p]) ensures Covers(bs[1..], p) { CoversFirst(bs[0], bs[1..], p); }
    hide Covers;
  }

  lemma EndedTail(text: string, bs: seq<Bound>)
    requires Ended(text, bs) && bs != []
    ensures Ended(text, bs[1..])
  {
    hide EndsSentence;
    forall i | 0 <= i < |bs[1..]| - 1 ensures EndsSentence(text, bs[1..][i]) { assert bs[1..][i] == bs[i + 1]; }
  }

  /** The characterisation is exact: the splitter's result is the only split of a text. */
  lemma {:induction false} SplitIsUnique(text: string, from: nat, bs: seq<Bound>)
    requires from <= |text| && Splits(text, from, bs)
    ensures bs == SplitFrom(text, from)
    decreases |text| - from
  {
    hide *;
    SpaceBeforeFirst(text, from, bs);
    if bs == [] {
      SpaceHasNoTerminator(text, from, |text|);
      EmptySplit(text, from);
    } else {
      var b := bs[0];
      SpaceHasNoTerminator(text, from, b.start);
      BoundInRange(text, from, bs);
      var n := NextTerminator(text, b.start);
      if n < |text| {
        FirstEndsAtTerminator(text, from, bs, n);
        FirstBoundIsTrimmed(text, from, b);
        CutAt(text, from, n);
        SplitsTail(text, from, bs);
        SplitIsUnique(text, n + 1, bs[1..]);
      } else {
        LoneBound(text, from, bs);
        LastBoundIsTrimmed(text, from, b);
        NoMoreCuts(text, from);
      }
      assert bs == [b] + bs[1..];
    }
  }

  lemma BoundInRange(text: string, from: nat, bs: seq<Bound>)
    requires Splits(text, from, bs) && bs != []
    ensures GoodBound(text, from, bs[0]) && from <= bs[0].start < bs[0].end <= |text|
  {
  }

  lemma EmptySplit(text: string, from: nat)
    requires from <= |text| && AllSpace(text, from, |text|) && forall i :: from <= i < |text| ==> !IsTerminator(text[i])
    ensures SplitFrom(text, from) == []
  {
    hide IsSpace, IsTerminator;
    NoMoreCuts(text, from);
    SkipForwardIs(text, from, |text|, |text|);
  }

  lemma FirstBoundIsTrimmed(text: string, from: nat, b: Bound)
    requires GoodBound(text, from, b) && AllSpace(text, from, b.start)
    ensures Trimmed(text, from, b.end) == [b]
  {
    hide IsSpace, IsTerminator;
    SkipForwardIs(text, from, b.end, b.start);
    SkipBackIs(text, from, b.end, b.end);
  }

  lemma LastBoundIsTrimmed(text: string, from: nat, b: Bound)
    requires GoodBound(text, from, b) && AllSpace(text, from, b.start) && AllSpace(text, b.end, |text|)
    ensures Trimmed(text, from, |text|) == [b]
  {
    hide IsSpace, IsTerminator;
    SkipForwardIs(text, from, |text|, b.start);
    SkipBackIs(text, from, |text|, b.end);
  }

  // ----- splitting a sentence, and splitting what was joined

  /** Splitting a returned sentence yields that sentence alone. */
  lemma SentenceSplitsAlone(text: string, i: nat)
    requires i < |Split(text)|
    ensures
      var b := Split(text)[i];
      b.start < b.end <= |text| && Split(text[b.start..b.end]) == [Bound(0, b.end - b.start)]
  {
    hide *;
    var b := Split(text)[i];
    SplitIsGood(text, i);
    LoneSplit(text, b);
    SplitIsUnique(text[b.start..b.end], 0, [Bound(0, b.end - b.start)]);
    SplitStarts(text[b.start..b.end]);
  }

  lemma SplitIsGood(text: string, i: nat)
    requires i < |Split(text)|
    ensures GoodBound(text, 0, Split(text)[i]) && Split(text)[i].start < Split(text)[i].end <= |text|
  {
    hide SplitFrom, IsSpace, IsTerminator;
    SplitIsRight(text, 0);
  }

  lemma SplitStarts(text: string)
    ensures Split(text) == SplitFrom(text, 0)
  {
  }

  lemma LoneSplit(text: string, b: Bound)
    requires GoodBound(text, 0, b)
    ensures Splits(text[b.start..b.end], 0, [Bound(0, b.end - b.start)])
  {
    hide IsSpace, IsTerminator;
    var t, alone := text[b.start..b.end], [Bound(0, b.end - b.start)];
    assert GoodBound(t, 0, alone[0]);
    forall p | 0 <= p < |t| ensures Covers(alone, p) { assert alone[0].start <= p < alone[0].end; }
  }

  /** A text with one terminator, at its end, that starts with a character other than white space. */
  predicate IsSentence(s: string)
  {
    s != [] && !IsSpace(s[0]) && IsTerminator(s[|s| - 1]) && forall p :: 0 <= p < |s| - 1 ==> !IsTerminator(s[p])
  }

  /** `join(" ")`. */
  function Join(ss: seq<string>): string
  {
    if ss == [] then "" else if |ss| == 1 then ss[0] else ss[0] + " " + Join(ss[1..])
  }

  /** Where the joined sentences lie when the first starts at `at`. */
  function JoinBounds(ss: seq<string>, at: nat): (bs: seq<Bound>)
    ensures |bs| == |ss|
  {
    if ss == [] then [] else [Bound(at, at + |ss[0]|)] + JoinBounds(ss[1..], at + |ss[0]| + 1)
  }

  /** The sentence texts the bounds stand for. */
  function Slices(text: string, bs: seq<Bound>): (ss: seq<string>)
    requires forall i :: 0 <= i < |bs| ==> bs[i].start <= bs[i].end <= |text|
    ensures |ss| == |bs|
  {
    seq(|bs|, i requires 0 <= i < |bs| => text[bs[i].start..bs[i].end])
  }

  lemma FirstSentenceAt(text: string, from: nat, b: Bound, s: string)
    requires from <= b.start && b.end == b.start + |s| <= |text| && text[b.start..b.end] == s && IsSentence(s)
    requires AllSpace(text, from, b.start)
    ensures SplitFrom(text, from) == [b] + SplitFrom(text, b.end)
  {
    hide *;
    SpaceHasNoTerminator(text, from, b.start);
    SentenceIsGood(text, from, b, s);
    FirstBoundIsTrimmed(text, from, b);
    CutAt(text, from, b.end - 1);
  }

  lemma SentenceIsGood(text: string, from: nat, b: Bound, s: string)
    requires from <= b.start && b.end == b.start + |s| <= |text| && text[b.start..b.end] == s && IsSentence(s)
    ensures GoodBound(text, from, b) && b.start < b.end && IsTerminator(text[b.end - 1])
    ensures forall p :: b.start <= p < b.end - 1 ==> !IsTerminator(text[p])
  {
    TerminatorIsNotSpace(s[|s| - 1]);
    hide IsSpace, IsTerminator;
    forall p | b.start <= p < b.end ensures text[p] == s[p - b.start] { }
  }

  /** What follows the first joined sentence: nothing, or a space and the other sentences. */
  lemma JoinUnfolds(text: string, at: nat, ss: seq<string>)
    requires at <= |text| && ss != [] && text[at..] == Join(ss)
    ensures at + |ss[0]| <= |text| && text[at..at + |ss[0]|] == ss[0]
    ensures |ss| == 1 ==> at + |ss[0]| == |text|
    ensures |ss| > 1 ==> at + |ss[0]| < |text| && text[at + |ss[0]|] == ' ' && text[at + |ss[0]| + 1..] == Join(ss[1..])
  {
    var n := |ss[0]|;
    var t := text[at..];
    assert |ss| > 1 ==> t == ss[0] + [' '] + Join(ss[1..]);
    assert text[at..at + n] == t[..n];
    if |ss| > 1 {
      assert t[n] == ' ';
      assert text[at + n + 1..] == t[n + 1..];
    }
  }

  lemma JoinBoundsUnfold(ss: seq<string>, at: nat)
    ensures ss == [] ==> JoinBounds(ss, at) == []
    ensures ss != [] ==> JoinBounds(ss, at) == [Bound(at, at + |ss[0]|)] + JoinBounds(ss[1..], at + |ss[0]| + 1)
  {
  }

  lemma EmptyJoin()
    ensures Join([]) == ""
  {
  }

  lemma SpaceAt(text: string, p: nat)
    requires p < |text| && text[p] == ' '
    ensures AllSpace(text, p, p + 1)
  {
  }

  lemma NoSpace(text: string, p: nat)
    requires p <= |text|
    ensures AllSpace(text, p, p)
  {
  }

  lemma {:induction false} SplitJoined(text: string, from: nat, at: nat, ss: seq<string>)
    requires from <= at <= |text| && AllSpace(text, from, at) && text[at..] == Join(ss)
    requires forall i :: 0 <= i < |ss| ==> IsSentence(ss[i])
    ensures SplitFrom(text, from) == JoinBounds(ss, at)
    decreases |ss|
  {
    hide *;
    JoinBoundsUnfold(ss, at);
    if ss == [] {
      EmptyJoin();
      SpaceHasNoTerminator(text, from, |text|);
      EmptySplit(text, from);
    } else {
      JoinUnfolds(text, at, ss);
      var b := Bound(at, at + |ss[0]|);
      FirstSentenceAt(text, from, b, ss[0]);
      SplitRest(text, b.end, ss);
    }
  }

  /** The sentences after the first, from the end of the first. */
  lemma {:induction false} SplitRest(text: string, end: nat, ss: seq<string>)
    requires ss != [] && (forall i :: 0 <= i < |ss| ==> IsSentence(ss[i]))
    requires |ss| == 1 ==> end == |text|
    requires |ss| > 1 ==> end < |text| && text[end] == ' ' && text[end + 1..] == Join(ss[1..])
    ensures end <= |text| && SplitFrom(text, end) == JoinBounds(ss[1..], end + 1)
    decreases |ss|, 0
  {
    hide *;
    if |ss| == 1 {
      NoSpace(text, end);
      EmptySplit(text, end);
      JoinBoundsUnfold(ss[1..], end + 1);
    } else {
      SpaceAt(text, end);
      SplitJoined(text, end, end + 1, ss[1..]);
    }
  }

  lemma {:induction false} JoinBoundsSlice(text: string, at: nat, ss: seq<string>, i: nat)
    requires at <= |text| && text[at..] == Join(ss) && i < |ss|
    ensures
      var b := JoinBounds(ss, at)[i];
      b.start <= b.end <= |text| && text[b.start..b.end] == ss[i]
    decreases |ss|
  {
    hide *;
    JoinUnfolds(text, at, ss);
    JoinBoundsUnfold(ss, at);
    if i > 0 {
      JoinBoundsSlice(text, at + |ss[0]| + 1, ss[1..], i - 1);
    }
  }

  /**
   The splitter inverts the printer: sentences joined by single spaces are split back in order.
   */
  lemma SplitInvertsJoin(ss: seq<string>)
    requires forall i :: 0 <= i < |ss| ==> IsSentence(ss[i])
    ensures
      var bs := Split(Join(ss));
      && |bs| == |ss|
      && (forall i :: 0 <= i < |bs| ==> bs[i].start <= bs[i].end <= |Join(ss)|)
      && Slices(Join(ss), bs) == ss
  {
    hide IsSentence, SplitFrom;
    var text := Join(ss);
    assert text[0..] == text;
    SplitJoined(text, 0, 0, ss);
    forall i | 0 <= i < |ss| ensures var b := Split(text)[i]; b.start <= b.end <= |text| && text[b.start..b.end] == ss[i] {
      JoinBoundsSlice(text, 0, ss, i);
    }
  }
}
