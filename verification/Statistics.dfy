/**
 Paired resampling statistics: percentile bootstrap of the mean and the sign-flip test.
 The seeded generators are arbitrary streams: `draw(n, r, j)` is the j-th index drawn below
 n in resample r, `bit(r, i)` the i-th coin of resample r.
 */
module Statistics {
  import opened Sequences
  import opened StableSort

  datatype Streams = Streams(draw: (nat, nat, nat) -> nat, bit: (nat, nat) -> bool)

  ghost predicate InRange(streams: Streams)
  {
    forall n, r, j :: n > 0 ==> streams.draw(n, r, j) < n
  }

  function Negate(s: seq<real>): (t: seq<real>)
    ensures |t| == |s| && forall i :: 0 <= i < |s| ==> t[i] == -s[i]
  {
    seq(|s|, i requires 0 <= i < |s| => -s[i])
  }

  function Reverse(s: seq<real>): (t: seq<real>)
    ensures |t| == |s| && forall i :: 0 <= i < |s| ==> t[i] == s[|s| - 1 - i]
  {
    seq(|s|, i requires 0 <= i < |s| => s[|s| - 1 - i])
  }

  predicate Leq(a: real, b: real)
  {
    a <= b
  }

  function Ascending(s: seq<real>): seq<real>
  {
    SortBy(s, Leq)
  }

  function Ceil(x: real): int
  {
    -((-x).Floor)
  }

  /** Linear interpolation between the two neighbours of position `pos`. */
  function ValueAt(sorted: seq<real>, pos: real): real
    requires 0.0 <= pos <= (|sorted| - 1) as real
  {
    var lo, hi := pos.Floor, Ceil(pos);
    if lo == hi then sorted[lo] else Between(sorted[lo], sorted[hi], pos - lo as real)
  }

  function Between(x: real, y: real, t: real): real
  {
    x + (y - x) * t
  }

  function Percentile(sorted: seq<real>, q: real): real
    requires 0.0 <= q <= 1.0
  {
    if sorted == [] then 0.0
    else
      ValueAt(sorted, Position(q, |sorted| - 1))
  }

  function Position(q: real, n: nat): (pos: real)
    requires 0.0 <= q <= 1.0
    ensures 0.0 <= pos <= n as real
  {
    q * n as real
  }

  lemma PositionMirror(q: real, n: nat)
    requires 0.0 <= q <= 1.0
    ensures Position(1.0 - q, n) == n as real - Position(q, n)
  {
  }

  // ----- bootstrap

  /** The values one resample draws. */
  function Drawn(values: seq<real>, r: nat, streams: Streams): (d: seq<real>)
    requires InRange(streams)
    ensures |d| == |values| && forall j :: 0 <= j < |values| ==> d[j] == values[streams.draw(|values|, r, j)]
  {
    seq(|values|, j requires 0 <= j < |values| => values[streams.draw(|values|, r, j)])
  }

  function ResampledMeans(values: seq<real>, resamples: nat, streams: Streams): (m: seq<real>)
    requires InRange(streams)
    ensures |m| == resamples && forall r :: 0 <= r < resamples ==> m[r] == Mean(Drawn(values, r, streams))
  {
    seq(resamples, r requires 0 <= r < resamples => Mean(Drawn(values, r, streams)))
  }

  datatype Interval = Interval(lo: real, hi: real)

  function BootstrapCi(values: seq<real>, resamples: nat, streams: Streams): Interval
    requires InRange(streams)
  {
    if values == [] then Interval(0.0, 0.0)
    else if |values| == 1 then Interval(values[0], values[0])
    else
      var means := Ascending(ResampledMeans(values, resamples, streams));
      Interval(Percentile(means, 0.025), Percentile(means, 0.975))
  }

  method BootstrapCiOf(values: seq<real>, resamples: nat, streams: Streams) returns (ci: Interval)
    requires InRange(streams)
    ensures ci == BootstrapCi(values, resamples, streams)
  {
    if values == [] {
      return Interval(0.0, 0.0);
    }
    if |values| == 1 {
      return Interval(values[0], values[0]);
    }
    var means: seq<real> := [];
    for r := 0 to resamples
      invariant means == ResampledMeans(values, resamples, streams)[..r]
    {
      var acc := 0.0;
      ghost var drawn := Drawn(values, r, streams);
      for j := 0 to |values|
        invariant acc == Sum(drawn[..j])
      {
        assert drawn[..j + 1][..j] == drawn[..j];
        acc := acc + values[streams.draw(|values|, r, j)];
      }
      assert drawn[..|values|] == drawn;
      means := means + [acc / |values| as real];
    }
    assert ResampledMeans(values, resamples, streams)[..resamples] == ResampledMeans(values, resamples, streams);
    var sorted := Ascending(means);
    ci := Interval(Percentile(sorted, 0.025), Percentile(sorted, 0.975));
  }

  // ----- sign flips

  function Flipped(diffs: seq<real>, r: nat, streams: Streams): (f: seq<real>)
    ensures |f| == |diffs| && forall i :: 0 <= i < |diffs| ==> f[i] == if streams.bit(r, i) then diffs[i] else -diffs[i]
  {
    seq(|diffs|, i requires 0 <= i < |diffs| => if streams.bit(r, i) then diffs[i] else -diffs[i])
  }

  function Abs(x: real): real
  {
    if x < 0.0 then -x else x
  }

  /** How many of the first `resamples` sign patterns reach the observed mean. */
  function Extremes(diffs: seq<real>, resamples: nat, streams: Streams): (n: nat)
    ensures n <= resamples
  {
    if resamples == 0 then 0
    else
      Extremes(diffs, resamples - 1, streams)
      + if Abs(Mean(Flipped(diffs, resamples - 1, streams))) >= Abs(Mean(diffs)) then 1 else 0
  }

  function SignFlipP(diffs: seq<real>, resamples: nat, streams: Streams): real
  {
    if diffs == [] || Mean(diffs) == 0.0 then 1.0
    else (Extremes(diffs, resamples, streams) as real + 1.0) / (resamples as real + 1.0)
  }

  method SignFlipPOf(diffs: seq<real>, resamples: nat, streams: Streams) returns (p: real)
    ensures p == SignFlipP(diffs, resamples, streams)
  {
    if diffs == [] {
      return 1.0;
    }
    var observed := Abs(Mean(diffs));
    if observed == 0.0 {
      return 1.0;
    }
    var count := 0;
    for r := 0 to resamples
      invariant count == Extremes(diffs, r, streams)
    {
      var acc := 0.0;
      ghost var flipped := Flipped(diffs, r, streams);
      for i := 0 to |diffs|
        invariant acc == Sum(flipped[..i])
      {
        assert flipped[..i + 1][..i] == flipped[..i];
        acc := acc + if streams.bit(r, i) then diffs[i] else -diffs[i];
      }
      assert flipped[..|diffs|] == flipped;
      if Abs(acc / |diffs| as real) >= observed {
        count := count + 1;
      }
    }
    p := (count as real + 1.0) / (resamples as real + 1.0);
  }

  /** The p-value is a probability and is never 0: finite resampling cannot support that. */
  lemma PValueRange(diffs: seq<real>, resamples: nat, streams: Streams)
    ensures 1.0 / (resamples as real + 1.0) <= SignFlipP(diffs, resamples, streams) <= 1.0
  {
    var d, x := resamples as real + 1.0, Extremes(diffs, resamples, streams) as real + 1.0;
    DivideLeq(1.0, x, d);
    DivideLeq(x, d, d);
    DivideLeq(1.0, d, d);
  }

  // ----- negation

  lemma {:induction false} SumNegate(s: seq<real>)
    ensures Sum(Negate(s)) == -Sum(s)
  {
    if s != [] {
      var n := |s| - 1;
      SumNegate(s[..n]);
      assert Negate(s)[..n] == Negate(s[..n]);
    }
  }

  lemma MeanNegate(s: seq<real>)
    ensures Mean(Negate(s)) == -Mean(s)
  {
    SumNegate(s);
  }

  lemma SortNegate(s: seq<real>)
    ensures Ascending(Negate(s)) == Reverse(Negate(Ascending(s)))
  {
    SortCorrect(s, Leq);
    SortCorrect(Negate(s), Leq);
    var a, b := Ascending(Negate(s)), Reverse(Negate(Ascending(s)));
    NegatePermutes(s, Ascending(s));
    ReversePermutes(Negate(Ascending(s)));
    SortedUnique(a, b, Leq);
  }

  lemma {:induction false} NegatePermutes(s: seq<real>, t: seq<real>)
    requires multiset(s) == multiset(t)
    ensures multiset(Negate(s)) == multiset(Negate(t))
  {
    forall x ensures multiset(Negate(s))[x] == multiset(Negate(t))[x] {
      NegateCount(s, x);
      NegateCount(t, x);
    }
  }

  lemma {:induction false} NegateCount(s: seq<real>, x: real)
    ensures multiset(Negate(s))[x] == multiset(s)[-x]
  {
    if s != [] {
      var n := |s| - 1;
      NegateCount(s[..n], x);
      assert s == s[..n] + [s[n]] && Negate(s) == Negate(s[..n]) + [-s[n]];
      hide Negate;
    }
  }

  lemma {:induction false} ReversePermutes(s: seq<real>)
    ensures multiset(Reverse(s)) == multiset(s)
  {
    if s != [] {
      var n := |s| - 1;
      ReversePermutes(s[..n]);
      assert s == s[..n] + [s[n]] && Reverse(s) == [s[n]] + Reverse(s[..n]);
    }
  }

  lemma FloorMirror(pos: real, n: nat)
    ensures (n as real - pos).Floor == n - Ceil(pos) && Ceil(n as real - pos) == n - pos.Floor
  {
    assert n as real - pos == -pos + n as real;
    assert -(n as real - pos) == pos - n as real;
  }

  lemma BetweenMirror(x: real, y: real, t: real)
    ensures Between(-y, -x, 1.0 - t) == -Between(x, y, t)
  {
    assert (y - x) * (1.0 - t) == (y - x) - (y - x) * t;
  }

  lemma CeilRange(pos: real, n: nat)
    requires 0.0 <= pos <= n as real
    ensures 0 <= pos.Floor <= Ceil(pos) <= n && (pos.Floor != Ceil(pos) ==> Ceil(pos) == pos.Floor + 1)
  {
  }

  lemma ValueMirror(s: seq<real>, pos: real)
    requires 0.0 <= pos <= (|s| - 1) as real
    ensures ValueAt(Reverse(Negate(s)), (|s| - 1) as real - pos) == -ValueAt(s, pos)
  {
    hide Between, Ceil;
    var n := |s| - 1;
    FloorMirror(pos, n);
    CeilRange(pos, n);
    var lo, hi := pos.Floor, Ceil(pos);
    var t := Reverse(Negate(s));
    assert t[n - hi] == -s[hi] && t[n - lo] == -s[lo];
    if lo != hi {
      BetweenMirror(s[lo], s[hi], pos - lo as real);
      assert (n as real - pos) - (n - hi) as real == 1.0 - (pos - lo as real);
    }
  }

  /** The mirror law of the interpolated percentile. */
  lemma PercentileMirror(s: seq<real>, q: real)
    requires 0.0 <= q <= 1.0
    ensures Percentile(Reverse(Negate(s)), 1.0 - q) == -Percentile(s, q)
  {
    if s != [] {
      hide ValueAt, Position;
      PositionMirror(q, |s| - 1);
      ValueMirror(s, Position(q, |s| - 1));
    }
  }

  /** Negating the values mirrors the interval, for every stream. */
  lemma BootstrapNegate(values: seq<real>, resamples: nat, streams: Streams)
    requires InRange(streams)
    ensures
      var ci := BootstrapCi(values, resamples, streams);
      BootstrapCi(Negate(values), resamples, streams) == Interval(-ci.hi, -ci.lo)
  {
    var means := ResampledMeans(values, resamples, streams);
    forall r | 0 <= r < resamples ensures ResampledMeans(Negate(values), resamples, streams)[r] == -means[r] {
      MeanNegate(Drawn(values, r, streams));
      assert Drawn(Negate(values), r, streams) == Negate(Drawn(values, r, streams));
    }
    assert ResampledMeans(Negate(values), resamples, streams) == Negate(means);
    hide Percentile, Ascending, Sum;
    SortNegate(means);
    PercentileMirror(Ascending(means), 0.025);
    PercentileMirror(Ascending(means), 0.975);
  }

  lemma {:induction false} ExtremesNegate(diffs: seq<real>, resamples: nat, streams: Streams)
    ensures Extremes(Negate(diffs), resamples, streams) == Extremes(diffs, resamples, streams)
  {
    if resamples > 0 {
      hide Mean;
      ExtremesNegate(diffs, resamples - 1, streams);
      MeanNegate(diffs);
      MeanNegate(Flipped(diffs, resamples - 1, streams));
      assert Flipped(Negate(diffs), resamples - 1, streams) == Negate(Flipped(diffs, resamples - 1, streams));
    }
  }

  /** The two-sided p-value does not see the sign of the differences. */
  lemma SignFlipNegate(diffs: seq<real>, resamples: nat, streams: Streams)
    ensures SignFlipP(Negate(diffs), resamples, streams) == SignFlipP(diffs, resamples, streams)
  {
    MeanNegate(diffs);
    ExtremesNegate(diffs, resamples, streams);
  }
}
