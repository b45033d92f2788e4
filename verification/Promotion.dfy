/**
 The promotion gate: the selector with the highest mean Recall@100 is recommended, with a
 confidence that is positive only if it beats every rival significantly.
 */
module Promotion {
  import opened Sequences
  import opened Statistics
  import opened Comparisons

  datatype Recommendation = Recommendation(selector: string, expectedRecall: real, confidence: real, unsupported: seq<string>)

  /** A harness run: distinct selector names, all measured on the same queries. */
  ghost predicate HarnessRun(run: Run)
  {
    && GoodRun(run) && run.names != [] && Distinct(run.names)
    && (forall a, b :: a in run.names && b in run.names ==> Paired(run.runs[a], run.runs[b]))
    && (forall a :: a in run.names ==> run.runs[a] != [])
  }

  function MeanRecall(run: Run, name: string): real
    requires name in run.runs
  {
    Mean(Column(run.runs[name], Recall100))
  }

  /** The p-value of the Recall@100 comparison between two selectors. */
  function PairP(run: Run, a: string, b: string): real
    requires a in run.runs && b in run.runs
  {
    SignFlipP(Diffs(run.runs[a], run.runs[b], Recall100), run.resamples, run.streams)
  }

  predicate About(c: Comparison, leader: string, rival: string)
  {
    c.metric == Recall100 && ((c.a == leader && c.b == rival) || (c.b == leader && c.a == rival))
  }

  // ----- the loops

  ghost predicate IsLeader(run: Run, leader: string)
    requires GoodRun(run)
  {
    leader in run.names && forall name :: name in run.names ==> MeanRecall(run, name) <= MeanRecall(run, leader)
  }

  /** Every selector configured before the leader has a lower mean recall. */
  ghost predicate IsFirst(run: Run, leader: string)
    requires GoodRun(run) && leader in run.runs
  {
    exists i :: 0 <= i < |run.names| && run.names[i] == leader
      && forall j :: 0 <= j < i ==> MeanRecall(run, run.names[j]) < MeanRecall(run, leader)
  }

  /** The first selector with the highest mean recall. */
  method FindLeader(run: Run) returns (leader: string)
    requires GoodRun(run) && run.names != []
    ensures IsLeader(run, leader) && IsFirst(run, leader)
  {
    hide MeanRecall;
    leader := run.names[0];
    ghost var at := 0;
    for i := 1 to |run.names|
      invariant 0 <= at < i && run.names[at] == leader
      invariant forall j :: 0 <= j < at ==> MeanRecall(run, run.names[j]) < MeanRecall(run, leader)
      invariant forall j :: 0 <= j < i ==> MeanRecall(run, run.names[j]) <= MeanRecall(run, leader)
    {
      if MeanRecall(run, run.names[i]) > MeanRecall(run, leader) {
        leader, at := run.names[i], i;
      }
    }
  }

  method FindComparison(cs: seq<Comparison>, leader: string, rival: string) returns (c: Option<Comparison>)
    ensures c.Some? ==> c.value in cs && About(c.value, leader, rival)
    ensures c.None? ==> forall d :: d in cs ==> !About(d, leader, rival)
  {
    for i := 0 to |cs|
      invariant forall j :: 0 <= j < i ==> !About(cs[j], leader, rival)
    {
      if About(cs[i], leader, rival) {
        return Some(cs[i]);
      }
    }
    return None;
  }

  // ----- what the comparisons say about the leader

  lemma IndexOfName(run: Run, name: string) returns (i: nat)
    requires name in run.names
    ensures i < |run.names| && run.names[i] == name
  {
    i :| 0 <= i < |run.names| && run.names[i] == name;
  }

  lemma DiffsExist(run: Run, a: string, b: string)
    requires HarnessRun(run) && a in run.names && b in run.names
    ensures Diffs(run.runs[a], run.runs[b], Recall100) != []
    ensures Mean(Diffs(run.runs[a], run.runs[b], Recall100)) == MeanRecall(run, a) - MeanRecall(run, b)
    ensures PairP(run, a, b) == PairP(run, b, a)
  {
    PairedDiffs(run.runs[a], run.runs[b], Recall100);
    MeanDifference(run.runs[a], run.runs[b], Recall100);
    DiffsSwap(run.runs[a], run.runs[b], Recall100);
    SignFlipNegate(Diffs(run.runs[a], run.runs[b], Recall100), run.resamples, run.streams);
  }

  /** What the comparison of two selectors reports, with `a` listed first. */
  lemma PairReports(run: Run, i: nat, j: nat)
    requires HarnessRun(run) && i < |run.names| && j < |run.names|
    ensures
      var a, b := run.names[i], run.names[j];
      var c := At(run, i, j, Recall100);
      && c.Some? && c.value.a == a && c.value.b == b && c.value.metric == Recall100
      && c.value.p == PairP(run, a, b) && c.value.significant == (PairP(run, a, b) < SIGNIFICANCE)
      && c.value.winner == if PairP(run, a, b) >= SIGNIFICANCE || MeanRecall(run, a) == MeanRecall(run, b) then None
                           else if MeanRecall(run, a) > MeanRecall(run, b) then Some(a) else Some(b)
  {
    DiffsExist(run, run.names[i], run.names[j]);
  }

  lemma TieIsInsignificant(run: Run, a: string, b: string)
    requires HarnessRun(run) && a in run.names && b in run.names && MeanRecall(run, a) == MeanRecall(run, b)
    ensures PairP(run, a, b) == 1.0
  {
    DiffsExist(run, a, b);
  }

  /** Any Recall@100 comparison that involves the leader is won by the leader if it is significant. */
  lemma LeaderWins(run: Run, cs: seq<Comparison>, leader: string, rival: string, c: Comparison)
    requires HarnessRun(run) && cs == FromRow(run, 0) && IsLeader(run, leader) && rival in run.names && rival != leader
    requires c in cs && About(c, leader, rival)
    ensures c.p == PairP(run, leader, rival)
    ensures c.significant == (PairP(run, leader, rival) < SIGNIFICANCE)
    ensures c.winner == if PairP(run, leader, rival) < SIGNIFICANCE then Some(leader) else None
  {
    hide PairP, MeanRecall, FromRow;
    ListHolds(run, 0, c);
    var i, j :| 0 <= i < j < |run.names| && InPair(run, i, j, c);
    NamesOf(run, i, j, c);
    PairReports(run, i, j);
    DiffsExist(run, leader, rival);
    if MeanRecall(run, leader) == MeanRecall(run, rival) { TieIsInsignificant(run, leader, rival); }
  }

  lemma NamesOf(run: Run, i: nat, j: nat, c: Comparison)
    requires GoodRun(run) && i < |run.names| && j < |run.names| && InPair(run, i, j, c)
    ensures c.a == run.names[i] && c.b == run.names[j]
    ensures c.metric == Recall100 ==> At(run, i, j, Recall100) == Some(c)
  {
    hide BootstrapCi, SignFlipP, Diffs;
  }

  lemma LeaderIsCompared(run: Run, cs: seq<Comparison>, leader: string, rival: string)
    requires HarnessRun(run) && cs == FromRow(run, 0)
    requires leader in run.names && rival in run.names && rival != leader
    ensures exists c :: c in cs && About(c, leader, rival)
  {
    hide PairP, MeanRecall, FromRow;
    var i := IndexOfName(run, leader);
    var j := IndexOfName(run, rival);
    var lo, hi := if i < j then i else j, if i < j then j else i;
    PairReports(run, lo, hi);
    var c := At(run, lo, hi, Recall100).value;
    assert InPair(run, lo, hi, c);
    ListHolds(run, 0, c);
    assert c in cs && About(c, leader, rival);
  }

  // ----- the gate

  /** Every rival's comparison with the leader is significant. */
  ghost predicate AllSupported(run: Run, leader: string, rivals: seq<string>)
    requires GoodRun(run) && leader in run.runs
    requires forall name :: name in rivals ==> name in run.runs
  {
    forall name :: name in rivals && name != leader ==> PairP(run, leader, name) < SIGNIFICANCE
  }

  /** `worst` is the largest p-value among the rivals, 0 if there are none. */
  ghost predicate IsWorst(run: Run, leader: string, rivals: seq<string>, worst: real)
    requires GoodRun(run) && leader in run.runs
    requires forall name :: name in rivals ==> name in run.runs
  {
    && (forall name :: name in rivals && name != leader ==> PairP(run, leader, name) <= worst)
    && (worst == 0.0 || exists name :: name in rivals && name != leader && PairP(run, leader, name) == worst)
  }

  /**
   The gate is sound and complete. The recommendation is the first selector with the highest
   mean Recall@100; its
   confidence is positive exactly when every rival's p-value against it is below 0.05, and
   then it is 1 minus the largest of them; no significant comparison is won against it.
   */
  method Recommend(run: Run, cs: seq<Comparison>) returns (rec: Recommendation)
    requires HarnessRun(run) && cs == FromRow(run, 0)
    ensures IsLeader(run, rec.selector) && IsFirst(run, rec.selector) && rec.expectedRecall == MeanRecall(run, rec.selector)
    ensures rec.confidence > 0.0 <==> AllSupported(run, rec.selector, run.names)
    ensures rec.confidence > 0.0 ==> IsWorst(run, rec.selector, run.names, 1.0 - rec.confidence)
    ensures rec.confidence >= 0.0
    ensures forall c :: c in cs && c.metric == Recall100 && c.significant && rec.selector in {c.a, c.b} ==> c.winner == Some(rec.selector)
  {
    var leader := FindLeader(run);
    var worst, unsupported := JudgeRivals(run, cs, leader);
    rec := Recommendation(leader, MeanRecall(run, leader), if unsupported == [] then 1.0 - worst else 0.0, unsupported);
    hide PairP, MeanRecall, FromRow;
    forall c | c in cs && c.metric == Recall100 && c.significant && leader in {c.a, c.b} ensures c.winner == Some(leader) {
      LeaderKeepsWinning(run, cs, leader, c);
    }
  }

  /** The state of the gate after looking at `seen`. */
  ghost predicate Gate(run: Run, leader: string, seen: seq<string>, worst: real, unsupported: seq<string>)
  {
    && GoodRun(run) && leader in run.runs && (forall name :: name in seen ==> name in run.runs)
    && (unsupported == [] <==> AllSupported(run, leader, seen))
    && (unsupported == [] ==> IsWorst(run, leader, seen, worst) && 0.0 <= worst < SIGNIFICANCE)
  }

  lemma GateStep(run: Run, leader: string, seen: seq<string>, worst: real, unsupported: seq<string>, rival: string, supported: bool, p: real)
    requires Gate(run, leader, seen, worst, unsupported) && rival in run.runs
    requires rival != leader && supported == (PairP(run, leader, rival) < SIGNIFICANCE) && p == PairP(run, leader, rival) > 0.0
    ensures Gate(run, leader, seen + [rival], if supported && p > worst then p else worst, if supported then unsupported else unsupported + [rival])
  {
    hide PairP;
    var more := seen + [rival];
    assert forall name :: name in more <==> name in seen || name == rival;
    if unsupported == [] && supported && worst > 0.0 {
      var name :| name in seen && name != leader && PairP(run, leader, name) == worst;
      assert name in more;
    }
    assert rival in more;
  }

  method RivalVerdict(run: Run, cs: seq<Comparison>, leader: string, rival: string) returns (supported: bool, p: real)
    requires HarnessRun(run) && cs == FromRow(run, 0) && IsLeader(run, leader) && rival in run.names && rival != leader
    ensures supported == (PairP(run, leader, rival) < SIGNIFICANCE) && p == PairP(run, leader, rival) > 0.0
  {
    hide PairP, MeanRecall, FromRow;
    var found := FindComparison(cs, leader, rival);
    LeaderIsCompared(run, cs, leader, rival);
    LeaderWins(run, cs, leader, rival, found.value);
    PValuePositive(run, leader, rival);
    supported := found.Some? && found.value.significant && found.value.winner == Some(leader);
    p := found.value.p;
  }

  method JudgeRivals(run: Run, cs: seq<Comparison>, leader: string) returns (worst: real, unsupported: seq<string>)
    requires HarnessRun(run) && cs == FromRow(run, 0) && IsLeader(run, leader)
    ensures Gate(run, leader, run.names, worst, unsupported)
  {
    hide PairP, MeanRecall, FromRow;
    worst, unsupported := 0.0, [];
    for i := 0 to |run.names|
      invariant Gate(run, leader, run.names[..i], worst, unsupported)
    {
      var rival := run.names[i];
      assert run.names[..i + 1] == run.names[..i] + [rival];
      if rival == leader {
        GateSkip(run, leader, run.names[..i], worst, unsupported);
      } else {
        var supported, p := RivalVerdict(run, cs, leader, rival);
        GateStep(run, leader, run.names[..i], worst, unsupported, rival, supported, p);
        if supported {
          worst := if p > worst then p else worst;
        } else {
          unsupported := unsupported + [rival];
        }
      }
    }
    assert run.names[..|run.names|] == run.names;
  }

  lemma GateSkip(run: Run, leader: string, seen: seq<string>, worst: real, unsupported: seq<string>)
    requires Gate(run, leader, seen, worst, unsupported)
    ensures Gate(run, leader, seen + [leader], worst, unsupported)
  {
    hide PairP;
    assert forall name :: name in seen + [leader] <==> name in seen || name == leader;
    if unsupported == [] && worst > 0.0 {
      var name :| name in seen && name != leader && PairP(run, leader, name) == worst;
      assert name in seen + [leader];
    }
  }

  lemma PValuePositive(run: Run, a: string, b: string)
    requires HarnessRun(run) && a in run.names && b in run.names
    ensures PairP(run, a, b) > 0.0
  {
    PValueRange(Diffs(run.runs[a], run.runs[b], Recall100), run.resamples, run.streams);
    assert 1.0 / (run.resamples as real + 1.0) > 0.0;
  }

  lemma LeaderKeepsWinning(run: Run, cs: seq<Comparison>, leader: string, c: Comparison)
    requires HarnessRun(run) && cs == FromRow(run, 0) && IsLeader(run, leader)
    requires c in cs && c.metric == Recall100 && c.significant && leader in {c.a, c.b}
    ensures c.winner == Some(leader)
  {
    hide PairP, MeanRecall, FromRow;
    ListHolds(run, 0, c);
    var i, j :| 0 <= i < j < |run.names| && InPair(run, i, j, c);
    NamesOf(run, i, j, c);
    var rival := if c.a == leader then c.b else c.a;
    assert run.names[i] != run.names[j];
    LeaderWins(run, cs, leader, rival, c);
  }
}
