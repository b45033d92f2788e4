/** Paired comparison of selectors, query by query. */
module Comparisons {
  import opened Sequences
  import opened Statistics

  /** One selector's measurements on one query. */
  datatype Row = Row(queryId: string, recall100: real, mrr: real, ndcg10: real)
  datatype Metric = Recall100 | Mrr | Ndcg10

  const METRICS: seq<Metric> := [Recall100, Mrr, Ndcg10]

  function Extract(metric: Metric, row: Row): real
  {
    match metric
    case Recall100 => row.recall100
    case Mrr => row.mrr
    case Ndcg10 => row.ndcg10
  }

  function Column(rows: seq<Row>, metric: Metric): (v: seq<real>)
    ensures |v| == |rows| && forall i :: 0 <= i < |rows| ==> v[i] == Extract(metric, rows[i])
  {
    seq(|rows|, i requires 0 <= i < |rows| => Extract(metric, rows[i]))
  }

  function QueryIds(rows: seq<Row>): (ids: seq<string>)
    ensures |ids| == |rows| && forall i :: 0 <= i < |rows| ==> ids[i] == rows[i].queryId
  {
    seq(|rows|, i requires 0 <= i < |rows| => rows[i].queryId)
  }

  /** The lookup table of one side; a repeated query id keeps its last row. */
  function ById(rows: seq<Row>, metric: Metric): map<string, real>
  {
    if rows == [] then map[]
    else ById(rows[..|rows| - 1], metric)[rows[|rows| - 1].queryId := Extract(metric, rows[|rows| - 1])]
  }

  /** Differences on the queries both sides have, in the first side's order. */
  function PairWith(a: seq<Row>, index: map<string, real>, metric: Metric): seq<real>
  {
    if a == [] then []
    else
      var rest, last := PairWith(a[..|a| - 1], index, metric), a[|a| - 1];
      if last.queryId in index then rest + [Extract(metric, last) - index[last.queryId]] else rest
  }

  function Diffs(a: seq<Row>, b: seq<Row>, metric: Metric): seq<real>
  {
    PairWith(a, ById(b, metric), metric)
  }

  datatype Comparison = Comparison(a: string, b: string, metric: Metric, meanDifference: real, ci: Interval, p: real, significant: bool, winner: Option<string>)

  const SIGNIFICANCE: real := 0.05

  function Judge(a: string, b: string, metric: Metric, diffs: seq<real>, resamples: nat, streams: Streams): Comparison
    requires InRange(streams)
  {
    var mean, p := Mean(diffs), SignFlipP(diffs, resamples, streams);
    var significant := p < SIGNIFICANCE;
    Comparison(a, b, metric, mean, BootstrapCi(diffs, resamples, streams), p, significant,
               if !significant || mean == 0.0 then None else if mean > 0.0 then Some(a) else Some(b))
  }

  /** No comparison is reported where the two sides share no query. */
  function Compare(a: string, b: string, rowsA: seq<Row>, rowsB: seq<Row>, metric: Metric, resamples: nat, streams: Streams): Option<Comparison>
    requires InRange(streams)
  {
    var diffs := Diffs(rowsA, rowsB, metric);
    if diffs == [] then None else Some(Judge(a, b, metric, diffs, resamples, streams))
  }

  // ----- pairing

  /** A query that was measured twice has the same row both times. */
  ghost predicate Consistent(rows: seq<Row>)
  {
    forall i, j :: 0 <= i < |rows| && 0 <= j < |rows| && rows[i].queryId == rows[j].queryId ==> rows[i] == rows[j]
  }

  /** Both sides measured the same queries in the same order, as one harness run does. */
  ghost predicate Paired(a: seq<Row>, b: seq<Row>)
  {
    QueryIds(a) == QueryIds(b) && Consistent(a) && Consistent(b)
  }

  lemma {:induction false} ByIdAt(rows: seq<Row>, metric: Metric, i: nat)
    requires Consistent(rows) && i < |rows|
    ensures rows[i].queryId in ById(rows, metric) && ById(rows, metric)[rows[i].queryId] == Extract(metric, rows[i])
  {
    var n := |rows| - 1;
    if i < n { ByIdAt(rows[..n], metric, i); }
  }

  lemma {:induction false} PairWithAll(a: seq<Row>, index: map<string, real>, metric: Metric)
    requires forall i :: 0 <= i < |a| ==> a[i].queryId in index
    ensures |PairWith(a, index, metric)| == |a|
    ensures forall i :: 0 <= i < |a| ==> PairWith(a, index, metric)[i] == Extract(metric, a[i]) - index[a[i].queryId]
  {
    if a != [] {
      PairWithAll(a[..|a| - 1], index, metric);
    }
  }

  lemma PairedDiffs(a: seq<Row>, b: seq<Row>, metric: Metric)
    requires Paired(a, b)
    ensures |a| == |b| == |Diffs(a, b, metric)|
    ensures forall i :: 0 <= i < |a| ==> Diffs(a, b, metric)[i] == Extract(metric, a[i]) - Extract(metric, b[i])
  {
    assert |QueryIds(a)| == |QueryIds(b)|;
    forall i | 0 <= i < |a| ensures a[i].queryId in ById(b, metric) && ById(b, metric)[a[i].queryId] == Extract(metric, b[i]) {
      assert QueryIds(a)[i] == QueryIds(b)[i];
      ByIdAt(b, metric, i);
    }
    PairWithAll(a, ById(b, metric), metric);
  }

  lemma DiffsSwap(a: seq<Row>, b: seq<Row>, metric: Metric)
    requires Paired(a, b)
    ensures Diffs(b, a, metric) == Negate(Diffs(a, b, metric))
  {
    PairedDiffs(a, b, metric);
    PairedDiffs(b, a, metric);
  }

  /** The mean difference is the difference of the means. */
  lemma MeanDifference(a: seq<Row>, b: seq<Row>, metric: Metric)
    requires Paired(a, b)
    ensures Mean(Diffs(a, b, metric)) == Mean(Column(a, metric)) - Mean(Column(b, metric))
  {
    PairedDiffs(a, b, metric);
    MeanSubtract(Column(a, metric), Column(b, metric), Diffs(a, b, metric));
  }

  /**
   A comparison does not depend on which selector is called A: swapping them negates the
   mean difference, mirrors the interval and keeps the p-value, the verdict and the winner,
   for every stream of random numbers.
   */
  lemma CompareSwap(a: string, b: string, rowsA: seq<Row>, rowsB: seq<Row>, metric: Metric, resamples: nat, streams: Streams)
    requires InRange(streams) && Paired(rowsA, rowsB)
    ensures
      var ab, ba := Compare(a, b, rowsA, rowsB, metric, resamples, streams), Compare(b, a, rowsB, rowsA, metric, resamples, streams);
      && ab.Some? == ba.Some?
      && (ab.Some? ==>
            && ba.value.meanDifference == -ab.value.meanDifference
            && ba.value.ci == Interval(-ab.value.ci.hi, -ab.value.ci.lo)
            && ba.value.p == ab.value.p && ba.value.significant == ab.value.significant
            && ba.value.winner == ab.value.winner)
  {
    var diffs := Diffs(rowsA, rowsB, metric);
    DiffsSwap(rowsA, rowsB, metric);
    hide Diffs, BootstrapCi, SignFlipP, Mean;
    MeanNegate(diffs);
    BootstrapNegate(diffs, resamples, streams);
    SignFlipNegate(diffs, resamples, streams);
  }

  // ----- all pairs

  type Runs = map<string, seq<Row>>

  /** A harness run: the selectors in configuration order, their rows, and the resampling. */
  datatype Run = Run(names: seq<string>, runs: Runs, resamples: nat, streams: Streams)

  ghost predicate GoodRun(run: Run)
  {
    InRange(run.streams) && forall name :: name in run.names ==> name in run.runs
  }

  function At(run: Run, i: nat, j: nat, metric: Metric): Option<Comparison>
    requires GoodRun(run) && i < |run.names| && j < |run.names|
  {
    var a, b := run.names[i], run.names[j];
    Compare(a, b, run.runs[a], run.runs[b], metric, run.resamples, run.streams)
  }

  function AsList(c: Option<Comparison>): seq<Comparison>
  {
    if c.None? then [] else [c.value]
  }

  function OfPair(run: Run, i: nat, j: nat): seq<Comparison>
    requires GoodRun(run) && i < |run.names| && j < |run.names|
  {
    AsList(At(run, i, j, Recall100)) + AsList(At(run, i, j, Mrr)) + AsList(At(run, i, j, Ndcg10))
  }

  function OfRow(run: Run, i: nat, j: nat): seq<Comparison>
    requires GoodRun(run) && i < |run.names|
    decreases |run.names| - j
  {
    if j >= |run.names| then [] else OfPair(run, i, j) + OfRow(run, i, j + 1)
  }

  function FromRow(run: Run, i: nat): seq<Comparison>
    requires GoodRun(run)
    decreases |run.names| - i
  {
    if i >= |run.names| then [] else OfRow(run, i, i + 1) + FromRow(run, i + 1)
  }

  /** Every earlier-later pair, three metrics each. */
  method ComparePairwise(run: Run) returns (cs: seq<Comparison>)
    requires GoodRun(run)
    ensures cs == FromRow(run, 0)
  {
    hide *;
    cs := [];
    NextRow(run, |run.names|);
    for i := 0 to |run.names|
      invariant cs + FromRow(run, i) == FromRow(run, 0)
    {
      NextRow(run, i);
      var row := CompareRow(run, i);
      assert cs + (row + FromRow(run, i + 1)) == cs + row + FromRow(run, i + 1);
      cs := cs + row;
    }
  }

  lemma NextOfRow(run: Run, i: nat, j: nat)
    requires GoodRun(run) && i < |run.names| && j < |run.names|
    ensures OfRow(run, i, j) == OfPair(run, i, j) + OfRow(run, i, j + 1)
  {
    hide OfPair;
  }

  lemma EndOfRow(run: Run, i: nat)
    requires GoodRun(run) && i < |run.names|
    ensures OfRow(run, i, |run.names|) == []
  {
  }

  lemma NextRow(run: Run, i: nat)
    requires GoodRun(run)
    ensures i < |run.names| ==> FromRow(run, i) == OfRow(run, i, i + 1) + FromRow(run, i + 1)
    ensures i >= |run.names| ==> FromRow(run, i) == []
  {
    hide OfRow;
  }

  method CompareRow(run: Run, i: nat) returns (cs: seq<Comparison>)
    requires GoodRun(run) && i < |run.names|
    ensures cs == OfRow(run, i, i + 1)
  {
    hide *;
    cs := [];
    EndOfRow(run, i);
    for j := i + 1 to |run.names|
      invariant cs + OfRow(run, i, j) == OfRow(run, i, i + 1)
    {
      var pair := ComparePair(run, i, j);
      NextOfRow(run, i, j);
      assert cs + (pair + OfRow(run, i, j + 1)) == cs + pair + OfRow(run, i, j + 1);
      cs := cs + pair;
    }
  }

  method ComparePair(run: Run, i: nat, j: nat) returns (cs: seq<Comparison>)
    requires GoodRun(run) && i < |run.names| && j < |run.names|
    ensures cs == OfPair(run, i, j)
  {
    var a, b := run.names[i], run.names[j];
    cs := [];
    for m := 0 to |METRICS|
      invariant m == 0 ==> cs == []
      invariant m == 1 ==> cs == AsList(At(run, i, j, Recall100))
      invariant m == 2 ==> cs == AsList(At(run, i, j, Recall100)) + AsList(At(run, i, j, Mrr))
      invariant m == 3 ==> cs == OfPair(run, i, j)
    {
      var c := CompareRows(a, b, run.runs[a], run.runs[b], METRICS[m], run.resamples, run.streams);
      cs := cs + AsList(c);
    }
  }

  method CompareRows(a: string, b: string, rowsA: seq<Row>, rowsB: seq<Row>, metric: Metric, resamples: nat, streams: Streams)
    returns (c: Option<Comparison>)
    requires InRange(streams)
    ensures c == Compare(a, b, rowsA, rowsB, metric, resamples, streams)
  {
    var index: map<string, real> := map[];
    for i := 0 to |rowsB|
      invariant index == ById(rowsB[..i], metric)
    {
      assert rowsB[..i + 1][..i] == rowsB[..i];
      index := index[rowsB[i].queryId := Extract(metric, rowsB[i])];
    }
    assert rowsB[..|rowsB|] == rowsB;
    var diffs: seq<real> := [];
    for i := 0 to |rowsA|
      invariant diffs == PairWith(rowsA[..i], index, metric)
    {
      assert rowsA[..i + 1][..i] == rowsA[..i];
      if rowsA[i].queryId in index {
        diffs := diffs + [Extract(metric, rowsA[i]) - index[rowsA[i].queryId]];
      }
    }
    assert rowsA[..|rowsA|] == rowsA;
    if diffs == [] {
      return None;
    }
    var mean := Mean(diffs);
    var p := SignFlipPOf(diffs, resamples, streams);
    var ci := BootstrapCiOf(diffs, resamples, streams);
    var significant := p < SIGNIFICANCE;
    var winner := if !significant || mean == 0.0 then None else if mean > 0.0 then Some(a) else Some(b);
    return Some(Comparison(a, b, metric, mean, ci, p, significant, winner));
  }

  // ----- which comparisons are in the list

  /** `c` compares selectors `i` and `j` on one of the metrics. */
  ghost predicate InPair(run: Run, i: int, j: int, c: Comparison)
  {
    GoodRun(run) && 0 <= i < |run.names| && 0 <= j < |run.names| &&
    (At(run, i, j, Recall100) == Some(c) || At(run, i, j, Mrr) == Some(c) || At(run, i, j, Ndcg10) == Some(c))
  }

  lemma PairHolds(run: Run, i: nat, j: nat, c: Comparison)
    requires GoodRun(run) && i < |run.names| && j < |run.names|
    ensures c in OfPair(run, i, j) <==> InPair(run, i, j, c)
  {
    hide At;
    var r, s, t := At(run, i, j, Recall100), At(run, i, j, Mrr), At(run, i, j, Ndcg10);
    assert c in OfPair(run, i, j) <==> c in AsList(r) || c in AsList(s) || c in AsList(t);
  }

  lemma RowUnfolds(run: Run, i: nat, j: nat, c: Comparison)
    requires GoodRun(run) && i < |run.names|
    ensures c in OfRow(run, i, j) <==> j < |run.names| && (c in OfPair(run, i, j) || c in OfRow(run, i, j + 1))
  {
    hide OfPair;
  }

  lemma ListUnfolds(run: Run, i: nat, c: Comparison)
    requires GoodRun(run)
    ensures c in FromRow(run, i) <==> i < |run.names| && (c in OfRow(run, i, i + 1) || c in FromRow(run, i + 1))
  {
    hide OfRow;
  }

  lemma {:induction false} RowHolds(run: Run, i: nat, from: nat, c: Comparison)
    requires GoodRun(run) && i < |run.names|
    ensures c in OfRow(run, i, from) <==> exists j :: from <= j < |run.names| && InPair(run, i, j, c)
    decreases |run.names| - from
  {
    hide *;
    RowUnfolds(run, i, from, c);
    if from < |run.names| {
      RowHolds(run, i, from + 1, c);
      PairHolds(run, i, from, c);
    }
  }

  /** The list holds the comparisons of all earlier-later pairs and nothing else. */
  lemma {:induction false} ListHolds(run: Run, from: nat, c: Comparison)
    requires GoodRun(run)
    ensures c in FromRow(run, from) <==> exists i, j :: from <= i < j < |run.names| && InPair(run, i, j, c)
    decreases |run.names| - from
  {
    hide *;
    ListUnfolds(run, from, c);
    if from < |run.names| {
      ListHolds(run, from + 1, c);
      RowHolds(run, from, from + 1, c);
    }
  }
}
