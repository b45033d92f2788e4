/** The whole benchmark run: measure every configuration, compare all pairs, apply the gate. */
module Benchmark {
  import opened Sequences
  import opened Rearrangement
  import opened Ranking
  import opened Selectors
  import opened SelectorTheorems
  import opened Metrics
  import opened Statistics
  import opened Comparisons
  import opened Promotion
  import opened Harness

  datatype Named = Named(name: string, config: Config)

  datatype Report =
    | NoQueries
    | DuplicateName(name: string)
    | Incomplete(queryId: string)
    | Report(run: Run, comparisons: seq<Comparison>, recommendation: Option<Recommendation>)

  /** 1 over the place of the first relevant document, 0 if there is none. */
  function ReciprocalRank(docs: seq<string>, relevant: set<string>, place: nat): real
  {
    if docs == [] then 0.0
    else if docs[0] in relevant then 1.0 / (place + 1) as real
    else ReciprocalRank(docs[1..], relevant, place + 1)
  }

  function RowOf(bed: Bed, query: string, ranking: seq<SelectorResult>, disc: nat -> real): Row
    requires IsDiscount(disc)
  {
    var docs, relevant := Docs(ranking), RelevantTo(bed.truths, query);
    Row(query, RecallAt(docs, relevant, 100), ReciprocalRank(docs, Elements(relevant), 0), Ndcg(docs, relevant, 10, disc))
  }

  /** Rows that measure the selector's own rankings, one per query, in query order. */
  ghost predicate Measures(config: Config, bed: Bed, disc: nat -> real, rows: seq<Row>)
    requires IsDiscount(disc) && Complete(bed, bed.queries)
  {
    exists rankings :: RanksBed(config, bed, bed.queries, rankings) && |rows| == |rankings|
      && forall i :: 0 <= i < |rows| ==> rows[i] == RowOf(bed, bed.queries[i], rankings[i], disc)
  }

  method Measure(config: Config, bed: Bed, disc: nat -> real) returns (r: Outcome<seq<Row>>)
    requires IsDiscount(disc)
    ensures r.Done? <==> Complete(bed, bed.queries)
    ensures r.Done? ==> Measures(config, bed, disc, r.value) && QueryIds(r.value) == bed.queries
  {
    var evaluated := Evaluate(config, bed);
    match evaluated
    case MissingPool(q) => r := MissingPool(q);
    case MissingTruth(q) => r := MissingTruth(q);
    case Done(rankings) =>
      hide RanksBed, RecallAt, Ndcg, ReciprocalRank;
      RankingsLength(config, bed, rankings);
      var rows := seq(|rankings|, i requires 0 <= i < |rankings| => RowOf(bed, bed.queries[i], rankings[i], disc));
      r := Done(rows);
  }

  lemma RankingsLength(config: Config, bed: Bed, rankings: seq<seq<SelectorResult>>)
    requires Complete(bed, bed.queries) && RanksBed(config, bed, bed.queries, rankings)
    ensures |rankings| == |bed.queries|
  {
  }

  function NamesOf(configs: seq<Named>): (names: seq<string>)
    ensures |names| == |configs| && forall i :: 0 <= i < |configs| ==> names[i] == configs[i].name
  {
    seq(|configs|, i requires 0 <= i < |configs| => configs[i].name)
  }

  ghost predicate Measured(configs: seq<Named>, bed: Bed, disc: nat -> real, runs: Runs)
    requires IsDiscount(disc)
  {
    forall i :: 0 <= i < |configs| ==>
      && configs[i].name in runs && Complete(bed, bed.queries)
      && Measures(configs[i].config, bed, disc, runs[configs[i].name]) && QueryIds(runs[configs[i].name]) == bed.queries
  }

  /** Evaluate the configurations in order; a repeated name or an incomplete bed stops the run. */
  method MeasureAll(configs: seq<Named>, bed: Bed, disc: nat -> real) returns (runs: Runs, problem: Option<Report>)
    requires IsDiscount(disc)
    ensures problem.None? ==> Progress(configs, bed, disc, runs)
    ensures problem.Some? ==> !Distinct(NamesOf(configs)) || (configs != [] && !Complete(bed, bed.queries))
    ensures problem.Some? ==> problem.value.DuplicateName? || problem.value.Incomplete?
  {
    hide *;
    runs, problem := map[], None;
    ProgressStart(bed, disc);
    assert configs[..0] == [];
    for i := 0 to |configs|
      invariant problem.None? && Progress(configs[..i], bed, disc, runs)
    {
      if configs[i].name in runs {
        RepeatedName(configs, i, bed, disc, runs);
        return runs, Some(DuplicateName(configs[i].name));
      }
      var rows := Measure(configs[i].config, bed, disc);
      if !rows.Done? {
        return runs, Some(Incomplete(rows.queryId));
      }
      MeasuredOneMore(configs[..i], configs[i], bed, disc, runs, rows.value);
      assert configs[..i + 1] == configs[..i] + [configs[i]];
      runs := runs[configs[i].name := rows.value];
    }
    assert configs[..|configs|] == configs;
  }

  ghost predicate Progress(configs: seq<Named>, bed: Bed, disc: nat -> real, runs: Runs)
    requires IsDiscount(disc)
  {
    && Distinct(NamesOf(configs)) && (configs != [] ==> Complete(bed, bed.queries))
    && Measured(configs, bed, disc, runs) && runs.Keys == Elements(NamesOf(configs))
  }

  lemma ProgressStart(bed: Bed, disc: nat -> real)
    requires IsDiscount(disc)
    ensures Progress([], bed, disc, map[])
  {
  }

  lemma RepeatedName(configs: seq<Named>, i: nat, bed: Bed, disc: nat -> real, runs: Runs)
    requires IsDiscount(disc) && i < |configs| && Progress(configs[..i], bed, disc, runs) && configs[i].name in runs
    ensures !Distinct(NamesOf(configs))
  {
    hide Measured, Complete;
    assert configs[i].name in Elements(NamesOf(configs[..i]));
    var j :| 0 <= j < i && NamesOf(configs[..i])[j] == configs[i].name;
    assert NamesOf(configs)[j] == NamesOf(configs)[i];
  }

  lemma MeasuredOneMore(configs: seq<Named>, next: Named, bed: Bed, disc: nat -> real, runs: Runs, rows: seq<Row>)
    requires IsDiscount(disc) && Progress(configs, bed, disc, runs) && next.name !in runs
    requires Complete(bed, bed.queries) && Measures(next.config, bed, disc, rows) && QueryIds(rows) == bed.queries
    ensures Progress(configs + [next], bed, disc, runs[next.name := rows])
  {
    hide Measures, Complete;
    var names := NamesOf(configs);
    assert next.name !in Elements(names);
    assert NamesOf(configs + [next]) == names + [next.name];
    assert Elements(names + [next.name]) == Elements(names) + {next.name};
  }

  /** A repeated query is ranked alike both times, so its rows are the same. */
  lemma MeasuresConsistently(config: Config, bed: Bed, disc: nat -> real, rows: seq<Row>)
    requires IsDiscount(disc) && Complete(bed, bed.queries) && Measures(config, bed, disc, rows)
    ensures Consistent(rows)
  {
    hide Selects, RowOf;
    var rankings :| RanksBed(config, bed, bed.queries, rankings) && |rows| == |rankings|
      && forall i :: 0 <= i < |rows| ==> rows[i] == RowOf(bed, bed.queries[i], rankings[i], disc);
    forall i, j | 0 <= i < |rows| && 0 <= j < |rows| && rows[i].queryId == rows[j].queryId ensures rows[i] == rows[j] {
      RowIsOf(bed, bed.queries[i], rankings[i], disc);
      RowIsOf(bed, bed.queries[j], rankings[j], disc);
      SelectionIsDeterministic(config, bed.pools[bed.queries[i]], bed.noise(bed.queries[i]), rankings[i], rankings[j]);
    }
  }

  lemma RowIsOf(bed: Bed, query: string, ranking: seq<SelectorResult>, disc: nat -> real)
    requires IsDiscount(disc)
    ensures RowOf(bed, query, ranking, disc).queryId == query
  {
  }

  /** One run over all queries meets every demand of the gate. */
  lemma RunIsHarnessRun(configs: seq<Named>, bed: Bed, disc: nat -> real, runs: Runs, run: Run)
    requires IsDiscount(disc) && Measured(configs, bed, disc, runs) && configs != [] && Distinct(NamesOf(configs))
    requires bed.queries != [] && InRange(run.streams)
    requires run.names == NamesOf(configs) && run.runs == runs
    ensures HarnessRun(run)
  {
    hide Measures, Complete;
    forall name | name in run.names ensures name in runs && QueryIds(runs[name]) == bed.queries && runs[name] != [] {
      var i :| 0 <= i < |configs| && NamesOf(configs)[i] == name;
      assert configs[i].name in runs;
    }
    forall name | name in run.names ensures Consistent(runs[name]) {
      var i :| 0 <= i < |configs| && NamesOf(configs)[i] == name;
      MeasuresConsistently(configs[i].config, bed, disc, runs[configs[i].name]);
    }
    hide Consistent;
  }

  /**
   `SelectorBenchmark::run`. It fails on no queries, a repeated selector name or a query
   without a pool or ground truth; otherwise it reports all comparisons and, if there is any
   selector, one recommendation that passed the gate of module Promotion.
   */
  method RunBenchmark(configs: seq<Named>, bed: Bed, resamples: nat, streams: Streams, disc: nat -> real) returns (report: Report)
    requires IsDiscount(disc) && InRange(streams)
    ensures report.Report? <==> bed.queries != [] && Distinct(NamesOf(configs)) && (configs == [] || Complete(bed, bed.queries))
    ensures report.Report? ==>
      && report.run.names == NamesOf(configs)
      && (report.recommendation.Some? <==> configs != [])
      && Measured(configs, bed, disc, report.run.runs)
    ensures report.Report? && configs != [] ==>
      && HarnessRun(report.run) && report.comparisons == FromRow(report.run, 0)
      && IsLeader(report.run, report.recommendation.value.selector) && IsFirst(report.run, report.recommendation.value.selector)
      && (report.recommendation.value.confidence > 0.0 <==> AllSupported(report.run, report.recommendation.value.selector, report.run.names))
  {
    if bed.queries == [] {
      return NoQueries;
    }
    var runs, problem := MeasureAll(configs, bed, disc);
    if problem.Some? {
      return problem.value;
    }
    var run := Run(NamesOf(configs), runs, resamples, streams);
    hide Measured, FromRow, MeanRecall, PairP;
    if configs == [] {
      return Report(run, [], None);
    }
    RunIsHarnessRun(configs, bed, disc, runs, run);
    var cs := ComparePairwise(run);
    var rec := Recommend(run, cs);
    return Report(run, cs, Some(rec));
  }
}
