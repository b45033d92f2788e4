/**
 The compaction sort is unstable and the output is called deterministic by object id. It is
 deterministic exactly when no two different records that tie in the sort can both show.
 */
module MvccDeterminism {
  import opened Sequences
  import opened StableSort
  import opened Text
  import opened MvccResolution
  import opened MvccBatches

  /** Every order the unstable sort may leave equal records in gives the same output. */
  ghost predicate Deterministic(records: seq<Rec>, now: int)
  {
    forall a, b :: SortedCopy(records, a) && SortedCopy(records, b) ==> Scan(a, now) == Scan(b, now)
  }

  /** A record that can win for its versioned object: in the winner's slot, with the earliest update time there. */
  ghost predicate Contends(records: seq<Rec>, r: Rec, now: int)
  {
    && QueryResult(records, r.oid, now) != []
    && SameSlot(QueryResult(records, r.oid, now)[0])(r)
    && forall x :: x in Group(records, r.oid) && SameSlot(QueryResult(records, r.oid, now)[0])(x) ==> r.updatedAt <= x.updatedAt
  }

  /** A record that some order lets through: a live append-only one, or one that can win. */
  ghost predicate CanShow(records: seq<Rec>, r: Rec, now: int)
  {
    if AppendOnly(r.oid) then !Expired(r, now) else Contends(records, r, now)
  }

  /** Two different records the sort does not separate, both of which can show. */
  ghost predicate VisibleTie(records: seq<Rec>, now: int, x: Rec, y: Rec)
  {
    && x in records && y in records && x != y && SameStamp(x)(y)
    && CanShow(records, x, now) && CanShow(records, y, now)
  }

  // ----- without a visible tie

  lemma {:induction false} ScanSorted(s: seq<Rec>, now: int)
    requires Sorted(s, FullLeq)
    ensures Sorted(Scan(s, now), FullLeq) && forall r :: r in Scan(s, now) ==> r in s
    decreases |s|
  {
    hide *;
    ScanUnfold(s, now);
    if s == [] {
      EmptySorted();
    } else {
      var n := Lead(s, s[0].oid);
      ScanSorted(s[n..], now);
      KeptSorted(s[..n], now);
      SortedParts(s, n, KeepGroup(s[..n], now), Scan(s[n..], now));
    }
  }

  lemma EmptySorted()
    ensures Sorted<Rec>([], FullLeq)
  {
  }

  lemma SortedParts(s: seq<Rec>, n: nat, a: seq<Rec>, b: seq<Rec>)
    requires Sorted(s, FullLeq) && n <= |s| && (Sorted(s[..n], FullLeq) ==> Sorted(a, FullLeq)) && Sorted(b, FullLeq)
    requires (forall r :: r in a ==> r in s[..n]) && (forall r :: r in b ==> r in s[n..])
    ensures Sorted(a + b, FullLeq) && forall r :: r in a + b ==> r in s
  {
    hide FullLeq;
    forall i, j | 0 <= i < |a| && 0 <= j < |b| ensures FullLeq(a[i], b[j]) {
      assert a[i] in s[..n] && b[j] in s[n..];
      var k :| 0 <= k < n && s[..n][k] == a[i];
      var l :| 0 <= l < |s[n..]| && s[n..][l] == b[j];
      assert FullLeq(s[k], s[n + l]);
    }
    assert Sorted(s[..n], FullLeq);
  }

  lemma KeptSorted(g: seq<Rec>, now: int)
    requires g != []
    ensures Sorted(g, FullLeq) ==> Sorted(KeepGroup(g, now), FullLeq)
    ensures forall r :: r in KeepGroup(g, now) ==> r in g
  {
    WinnerFromGroup(g, now);
    hide Winner, FullLeq;
    if Sorted(g, FullLeq) { FilterSorted(g, FullLeq, IsLive(now)); }
  }

  /** The sort does not separate two records exactly when they have the same stamp. */
  lemma TiesAreStamps(x: Rec, y: Rec)
    ensures FullLeq(x, y) && FullLeq(y, x) <==> SameStamp(x)(y)
  {
    if FullLeq(x, y) && FullLeq(y, x) { IdAntisymmetric(x.oid, y.oid); }
    IdTotal(x.oid, x.oid);
  }

  lemma InRecords(records: seq<Rec>, sorted: seq<Rec>, r: Rec)
    requires SortedCopy(records, sorted) && r in sorted
    ensures r in records
  {
    assert r in multiset(sorted);
  }

  /** The record compaction keeps for a versioned object can win. */
  lemma KeptContends(records: seq<Rec>, sorted: seq<Rec>, oid: string, now: int)
    requires SortedCopy(records, sorted) && !AppendOnly(oid) && CompactionResult(sorted, oid, now) != []
    ensures
      var w := CompactionResult(sorted, oid, now)[0];
      w.oid == oid && w in records && Contends(records, w, now)
  {
    PathsAgree(records, sorted, oid, now);
    CompactionTakesEarliest(records, sorted, oid, now);
    QueryFromGroup(records, oid, now);
    hide SortedCopy, QueryResult, CompactionResult, Filter;
  }

  lemma SameWinner(records: seq<Rec>, now: int, a: seq<Rec>, b: seq<Rec>, oid: string)
    requires SortedCopy(records, a) && SortedCopy(records, b) && !AppendOnly(oid)
    requires forall x, y :: !VisibleTie(records, now, x, y)
    ensures CompactionResult(a, oid, now) == CompactionResult(b, oid, now)
  {
    hide SortedCopy, QueryResult, CompactionResult, Group, Eff;
    PathsAgree(records, a, oid, now);
    PathsAgree(records, b, oid, now);
    if CompactionResult(a, oid, now) != [] {
      KeptContends(records, a, oid, now);
      KeptContends(records, b, oid, now);
      var x, y := CompactionResult(a, oid, now)[0], CompactionResult(b, oid, now)[0];
      ContendersTie(records, now, x, y);
      assert !VisibleTie(records, now, x, y);
    }
  }

  /** Two records of one object that can both win tie in the sort. */
  lemma ContendersTie(records: seq<Rec>, now: int, x: Rec, y: Rec)
    requires x in records && y in records && x.oid == y.oid && Contends(records, x, now) && Contends(records, y, now)
    ensures SameStamp(x)(y)
  {
    hide QueryResult;
    assert x in Group(records, x.oid) && y in Group(records, x.oid);
  }

  lemma SameCount(records: seq<Rec>, now: int, a: seq<Rec>, b: seq<Rec>, r: Rec)
    requires SortedCopy(records, a) && SortedCopy(records, b)
    requires forall x, y :: !VisibleTie(records, now, x, y)
    ensures multiset(Scan(a, now))[r] == multiset(Scan(b, now))[r]
  {
    hide Scan, Filter, FullLeq, VisibleTie;
    if AppendOnly(r.oid) {
      FilterMultiset(Scan(a, now), IsAppendOnly(), r);
      FilterMultiset(Scan(b, now), IsAppendOnly(), r);
      ScanKeepsAppendOnly(a, now);
      ScanKeepsAppendOnly(b, now);
      FilterPermutation(a, b, IsLiveAppendOnly(now));
    } else {
      FilterMultiset(Scan(a, now), HasOid(r.oid), r);
      FilterMultiset(Scan(b, now), HasOid(r.oid), r);
      SameWinner(records, now, a, b, r.oid);
    }
  }

  /** What the scan lets through can show. */
  lemma ShownCanShow(records: seq<Rec>, sorted: seq<Rec>, now: int, r: Rec)
    requires SortedCopy(records, sorted) && r in Scan(sorted, now)
    ensures r in records && CanShow(records, r, now)
  {
    hide Scan, FullLeq, Contends, Filter, AppendOnly, Expired, CompactionResult;
    ScanSorted(sorted, now);
    InRecords(records, sorted, r);
    if AppendOnly(r.oid) {
      ScanKeepsAppendOnly(sorted, now);
      assert r in Filter(Scan(sorted, now), IsAppendOnly());
    } else {
      ShownIsResult(sorted, now, r);
      PathsAgree(records, sorted, r.oid, now);
      KeptContends(records, sorted, r.oid, now);
    }
  }

  lemma ShownIsResult(sorted: seq<Rec>, now: int, r: Rec)
    requires r in Scan(sorted, now)
    ensures r in CompactionResult(sorted, r.oid, now)
  {
    hide Scan;
  }

  lemma NoTieMeansSame(records: seq<Rec>, now: int, a: seq<Rec>, b: seq<Rec>)
    requires SortedCopy(records, a) && SortedCopy(records, b)
    requires forall x, y :: !VisibleTie(records, now, x, y)
    ensures Scan(a, now) == Scan(b, now)
  {
    ScanSorted(a, now);
    ScanSorted(b, now);
    hide Scan, FullLeq, CanShow, SortedCopy;
    forall r ensures multiset(Scan(a, now))[r] == multiset(Scan(b, now))[r] { SameCount(records, now, a, b, r); }
    assert multiset(Scan(a, now)) == multiset(Scan(b, now));
    forall x, y | x in Scan(a, now) && y in Scan(a, now) && FullLeq(x, y) && FullLeq(y, x) ensures x == y {
      TiesAreStamps(x, y);
      ShownCanShow(records, a, now, x);
      ShownCanShow(records, a, now, y);
      assert !VisibleTie(records, now, x, y);
    }
    SortedUnique(Scan(a, now), Scan(b, now), FullLeq);
  }

  // ----- with a visible tie

  lemma {:induction false} FilterCommute(s: seq<Rec>, p: Rec -> bool, q: Rec -> bool)
    ensures Filter(Filter(s, p), q) == Filter(Filter(s, q), p)
  {
    if s != [] {
      FilterCommute(s[1..], p, q);
      var t, u := Filter(s[1..], p), Filter(s[1..], q);
      assert ([s[0]] + t)[1..] == t && ([s[0]] + u)[1..] == u;
    }
  }

  /** A live append-only record in front of its ties is the first of them in the output. */
  lemma FirstAppendOnlyShows(sorted: seq<Rec>, now: int, r: Rec)
    requires Sorted(sorted, FullLeq) && AppendOnly(r.oid) && !Expired(r, now)
    requires Filter(sorted, SameStamp(r)) != [] && Filter(sorted, SameStamp(r))[0] == r
    ensures
      var out := Filter(Filter(Scan(sorted, now), IsAppendOnly()), SameStamp(r));
      out != [] && out[0] == r
  {
    hide Scan, Filter, FullLeq;
    ScanKeepsAppendOnly(sorted, now);
    FilterCommute(sorted, IsLiveAppendOnly(now), SameStamp(r));
    FilterFirst(Filter(sorted, SameStamp(r)), IsLiveAppendOnly(now), 0);
  }

  /** A contender in front of its ties wins. */
  lemma FirstContenderWins(records: seq<Rec>, sorted: seq<Rec>, now: int, r: Rec)
    requires SortedCopy(records, sorted) && r in records && !AppendOnly(r.oid) && Contends(records, r, now)
    requires Filter(sorted, SameStamp(r)) != [] && Filter(sorted, SameStamp(r))[0] == r
    ensures CompactionResult(sorted, r.oid, now) == [r]
  {
    hide SortedCopy, QueryResult, CompactionResult, Filter, Contends, Eff;
    ContenderMeansResult(records, r, now);
    PathsAgree(records, sorted, r.oid, now);
    var w := CompactionResult(sorted, r.oid, now)[0];
    KeptContends(records, sorted, r.oid, now);
    CompactionTakesEarliest(records, sorted, r.oid, now);
    ContendersTie(records, now, r, w);
    HeadOfStamp(sorted, r.oid, w, r);
    assert CompactionResult(sorted, r.oid, now) == [w];
  }

  lemma ContenderMeansResult(records: seq<Rec>, r: Rec, now: int)
    requires Contends(records, r, now)
    ensures QueryResult(records, r.oid, now) != []
  {
  }

  lemma TieShows(records: seq<Rec>, now: int, x: Rec, y: Rec)
    requires VisibleTie(records, now, x, y)
    ensures !Deterministic(records, now)
  {
    var a := RivalFirst(records, x);
    var b := RivalFirst(records, y);
    hide Scan, Filter, Contends, FullLeq, Eff;
    if AppendOnly(x.oid) {
      FirstAppendOnlyShows(a, now, x);
      FirstAppendOnlyShows(b, now, y);
      FilterSame(Filter(Scan(b, now), IsAppendOnly()), SameStamp(x), SameStamp(y));
    } else {
      FirstContenderWins(records, a, now, x);
      FirstContenderWins(records, b, now, y);
    }
    assert Scan(a, now) != Scan(b, now);
  }

  /**
   The output does not depend on how the unstable sort orders equal records if and only if
   no two different records tie in the sort and can both show.
   */
  lemma DeterministicIff(records: seq<Rec>, now: int)
    ensures Deterministic(records, now) <==> forall x, y :: !VisibleTie(records, now, x, y)
  {
    hide SortedCopy, Scan, VisibleTie;
    if forall x, y :: !VisibleTie(records, now, x, y) {
      forall a, b | SortedCopy(records, a) && SortedCopy(records, b) ensures Scan(a, now) == Scan(b, now) {
        NoTieMeansSame(records, now, a, b);
      }
    } else {
      var x, y :| VisibleTie(records, now, x, y);
      TieShows(records, now, x, y);
    }
  }
}
