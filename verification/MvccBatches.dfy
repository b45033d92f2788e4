/**
 Whole batches: the query path and the compaction path, their agreement, the ties on
 which they can differ, and what a second pass does to the result of a first.
 */
module MvccBatches {
  import opened Sequences
  import opened StableSort
  import opened Text
  import opened MvccResolution

  function HasOid(oid: string): Rec -> bool
  {
    (r: Rec) => r.oid == oid
  }

  function IsAppendOnly(): Rec -> bool
  {
    (r: Rec) => AppendOnly(r.oid)
  }

  function IsLiveAppendOnly(now: int): Rec -> bool
  {
    (r: Rec) => AppendOnly(r.oid) && !Expired(r, now)
  }

  function IsLive(now: int): Rec -> bool
  {
    (r: Rec) => !Expired(r, now)
  }

  function Group(records: seq<Rec>, oid: string): seq<Rec>
  {
    Filter(records, HasOid(oid))
  }

  function AsSeq(w: Option<Rec>): seq<Rec>
  {
    if w.None? then [] else [w.value]
  }

  // ----- the query path

  /** What the query path returns for one versioned object id: its winner, or nothing. */
  function QueryResult(records: seq<Rec>, oid: string, now: int): seq<Rec>
  {
    var group := SortBy(Group(records, oid), VersionLeq);
    if group == [] then [] else AsSeq(Winner(group, now))
  }

  // ----- the compaction path

  /** How many leading records share the first one's object id. */
  function Lead(s: seq<Rec>, oid: string): (n: nat)
    ensures n <= |s|
    ensures forall i :: 0 <= i < n ==> s[i].oid == oid
    ensures n < |s| ==> s[n].oid != oid
  {
    if s == [] || s[0].oid != oid then 0 else 1 + Lead(s[1..], oid)
  }

  function KeepGroup(g: seq<Rec>, now: int): seq<Rec>
    requires g != []
  {
    if AppendOnly(g[0].oid) then Filter(g, IsLive(now)) else AsSeq(Winner(g, now))
  }

  /** One scan over a batch sorted by object id. */
  function Scan(s: seq<Rec>, now: int): seq<Rec>
    decreases |s|
  {
    if s == [] then []
    else
      var n := Lead(s, s[0].oid);
      KeepGroup(s[..n], now) + Scan(s[n..], now)
  }

  lemma {:induction false} ScanSelects(s: seq<Rec>, now: int, r: Rec)
    requires r in Scan(s, now)
    ensures r in s
    decreases |s|
  {
    var n := Lead(s, s[0].oid);
    if r in KeepGroup(s[..n], now) {
      if !AppendOnly(s[0].oid) { WinnerFromGroup(s[..n], now); }
      assert r in s[..n];
    } else {
      ScanSelects(s[n..], now, r);
    }
  }

  lemma WinnerFromGroup(g: seq<Rec>, now: int)
    requires g != []
    ensures Winner(g, now).Some? ==> Winner(g, now).value in g
  {
    WalkFromGroup(g, Eff(g[0]), None);
  }

  lemma {:induction false} WalkFromGroup(g: seq<Rec>, expected: nat, last: Option<Rec>)
    ensures Walk(g, expected, last) == last || (Walk(g, expected, last).Some? && Walk(g, expected, last).value in g)
  {
    if g != [] {
      WalkFromGroup(g[1..], expected + 1, Some(g[0]));
      WalkFromGroup(g[1..], expected, last);
    }
  }

  /** In a sorted batch an object's records stand together. */
  lemma LeadIsWholeRun(s: seq<Rec>)
    requires s != [] && Sorted(s, FullLeq)
    ensures
      var n := Lead(s, s[0].oid);
      n > 0 && forall i :: n <= i < |s| ==> s[i].oid != s[0].oid
  {
    var n := Lead(s, s[0].oid);
    forall i | n <= i < |s| ensures s[i].oid != s[0].oid {
      if s[i].oid == s[0].oid {
        assert FullLeq(s[n], s[i]) || n == i;
        assert FullLeq(s[0], s[n]);
        IdAntisymmetric(s[0].oid, s[n].oid);
      }
    }
  }

  /** Records sorted by object id: a group is one contiguous run. */
  lemma GroupIsRun(s: seq<Rec>, oid: string)
    requires s != [] && Sorted(s, FullLeq)
    ensures
      var n := Lead(s, s[0].oid);
      && n > 0
      && (forall i :: n <= i < |s| ==> s[i].oid != s[0].oid)
      && Group(s, oid) == if oid == s[0].oid then s[..n] else Group(s[n..], oid)
  {
    hide FullLeq, Group, Lead;
    LeadIsWholeRun(s);
    SplitGroup(s, Lead(s, s[0].oid), oid);
  }

  lemma SplitGroup(s: seq<Rec>, n: nat, oid: string)
    requires 0 < n <= |s| && (forall i :: 0 <= i < n ==> s[i].oid == s[0].oid) && (forall i :: n <= i < |s| ==> s[i].oid != s[0].oid)
    ensures Group(s, oid) == if oid == s[0].oid then s[..n] else Group(s[n..], oid)
  {
    hide Filter;
    assert s == s[..n] + s[n..];
    FilterConcat(s[..n], s[n..], HasOid(oid));
    forall r | r in s[..n] ensures r.oid == s[0].oid { }
    if oid == s[0].oid {
      FilterAll(s[..n], HasOid(oid));
      forall r | r in s[n..] ensures r.oid != oid { }
      FilterNone(s[n..], HasOid(oid));
    } else {
      FilterNone(s[..n], HasOid(oid));
    }
  }

  /** The scan treats every group as if it were alone. */
  lemma {:induction false} ScanByGroup(s: seq<Rec>, oid: string, now: int)
    requires Sorted(s, FullLeq)
    ensures Group(Scan(s, now), oid) == if Group(s, oid) == [] then [] else KeepGroup(Group(s, oid), now)
    decreases |s|
  {
    if s != [] {
      var n := Lead(s, s[0].oid);
      var kept, rest := KeepGroup(s[..n], now), Scan(s[n..], now);
      GroupIsRun(s, oid);
      FilterConcat(kept, rest, HasOid(oid));
      ScanByGroup(s[n..], oid, now);
      forall r | r in kept ensures r.oid == s[0].oid {
        WinnerFromGroup(s[..n], now);
        assert r in s[..n];
      }
      if oid == s[0].oid {
        FilterAll(kept, HasOid(oid));
        forall r | r in rest ensures r.oid != oid { ScanSelects(s[n..], now, r); }
        FilterNone(rest, HasOid(oid));
        assert kept + [] == kept;
      } else {
        FilterNone(kept, HasOid(oid));
      }
    }
  }

  // ----- the two paths agree

  ghost predicate SortedCopy(records: seq<Rec>, sorted: seq<Rec>)
  {
    multiset(sorted) == multiset(records) && Sorted(sorted, FullLeq)
  }

  lemma GroupsAreSorted(records: seq<Rec>, sorted: seq<Rec>, oid: string)
    requires SortedCopy(records, sorted)
    ensures
      var g := Group(sorted, oid);
      && multiset(g) == multiset(Group(records, oid)) && |g| == |Group(records, oid)|
      && Sorted(g, FullLeq) && Sorted(g, VersionLeq)
  {
    FilterPermutation(sorted, records, HasOid(oid));
    FilterSorted(sorted, FullLeq, HasOid(oid));
    var g := Group(sorted, oid);
    assert |multiset(g)| == |multiset(Group(records, oid))|;
    forall i, j | 0 <= i < j < |g| ensures VersionLeq(g[i], g[j]) {
      assert g[i] in g && g[j] in g && FullLeq(g[i], g[j]);
    }
  }

  /** The winner of a versioned object on the compaction path. */
  function CompactionResult(sorted: seq<Rec>, oid: string, now: int): seq<Rec>
  {
    Group(Scan(sorted, now), oid)
  }

  lemma CompactionIsWinner(records: seq<Rec>, sorted: seq<Rec>, oid: string, now: int)
    requires SortedCopy(records, sorted) && !AppendOnly(oid)
    ensures
      var g := Group(sorted, oid);
      CompactionResult(sorted, oid, now) == if g == [] then [] else AsSeq(Winner(g, now))
  {
    ScanByGroup(sorted, oid, now);
    assert forall r :: r in Group(sorted, oid) ==> r.oid == oid;
  }

  /**
   However the unstable sort orders equal records, compaction keeps a version of an object
   exactly when a query returns one, and the two agree on the version and creation time.
   */
  lemma PathsAgree(records: seq<Rec>, sorted: seq<Rec>, oid: string, now: int)
    requires SortedCopy(records, sorted) && !AppendOnly(oid)
    ensures
      var q, c := QueryResult(records, oid, now), CompactionResult(sorted, oid, now);
      && |q| == |c| <= 1
      && (|q| == 1 ==> Eff(q[0]) == Eff(c[0]) && q[0].createdAt == c[0].createdAt && q[0].oid == c[0].oid)
  {
    var group := SortedGroup(records, oid);
    GroupsAreSorted(records, sorted, oid);
    CompactionIsWinner(records, sorted, oid, now);
    var g := Group(sorted, oid);
    assert forall r :: r in g ==> r.oid == oid;
    QueryFromGroup(records, oid, now);
    hide Group, Scan, SortBy, Winner, Filter, Sorted;
    if group != [] {
      WinnersAgree(group, g, now);
      WinnerFromGroup(g, now);
    }
  }

  lemma SortedGroup(records: seq<Rec>, oid: string) returns (group: seq<Rec>)
    ensures group == SortBy(Group(records, oid), VersionLeq)
    ensures multiset(group) == multiset(Group(records, oid)) && |group| == |Group(records, oid)|
    ensures Sorted(group, VersionLeq)
    ensures forall r :: r in group <==> r in Group(records, oid)
    ensures forall r :: r in group ==> r.oid == oid
  {
    OrdersAreTotal();
    group := SortBy(Group(records, oid), VersionLeq);
    SortCorrect(Group(records, oid), VersionLeq);
    forall r ensures r in group <==> r in Group(records, oid) {
      assert r in multiset(group) <==> r in multiset(Group(records, oid));
    }
  }

  lemma QueryFromGroup(records: seq<Rec>, oid: string, now: int)
    ensures forall r :: r in QueryResult(records, oid, now) ==> r in Group(records, oid) && r.oid == oid
  {
    var group := SortedGroup(records, oid);
    if group != [] {
      WinnerFromGroup(group, now);
    }
  }

  /** Append-only records: both paths keep exactly the live ones. */
  lemma {:induction false} ScanKeepsAppendOnly(s: seq<Rec>, now: int)
    requires Sorted(s, FullLeq)
    ensures Filter(Scan(s, now), IsAppendOnly()) == Filter(s, IsLiveAppendOnly(now))
    decreases |s|
  {
    hide *;
    ScanUnfold(s, now);
    if s != [] {
      var n := Lead(s, s[0].oid);
      var g := s[..n];
      ScanKeepsAppendOnly(s[n..], now);
      FilterConcat(KeepGroup(g, now), Scan(s[n..], now), IsAppendOnly());
      FilterConcat(g, s[n..], IsLiveAppendOnly(now));
      assert s == g + s[n..];
      KeepGroupAppendOnly(g, now);
    } else {
      NothingFiltered(now);
    }
  }

  lemma ScanUnfold(s: seq<Rec>, now: int)
    requires Sorted(s, FullLeq)
    ensures s == [] ==> Scan(s, now) == []
    ensures s != [] ==>
      var n := Lead(s, s[0].oid);
      && 0 < n <= |s| && (forall r :: r in s[..n] ==> r.oid == s[..n][0].oid) && Sorted(s[n..], FullLeq)
      && Scan(s, now) == KeepGroup(s[..n], now) + Scan(s[n..], now)
  {
    hide KeepGroup;
  }

  lemma NothingFiltered(now: int)
    ensures Filter([], IsAppendOnly()) == Filter([], IsLiveAppendOnly(now)) == []
  {
  }

  /** Of one object's records, an append-only object keeps all that are live and any other object none. */
  lemma KeepGroupAppendOnly(g: seq<Rec>, now: int)
    requires g != [] && forall r :: r in g ==> r.oid == g[0].oid
    ensures Filter(KeepGroup(g, now), IsAppendOnly()) == Filter(g, IsLiveAppendOnly(now))
  {
    var kept := KeepGroup(g, now);
    if AppendOnly(g[0].oid) {
      FilterAll(kept, IsAppendOnly());
      FilterSame(g, IsLive(now), IsLiveAppendOnly(now));
    } else {
      WinnerFromGroup(g, now);
      hide Filter, Winner;
      FilterNone(kept, IsAppendOnly());
      FilterNone(g, IsLiveAppendOnly(now));
    }
  }

  lemma {:induction false} FilterSame(s: seq<Rec>, p: Rec -> bool, q: Rec -> bool)
    requires forall r :: r in s ==> p(r) == q(r)
    ensures Filter(s, p) == Filter(s, q)
  {
    if s != [] {
      FilterSame(s[1..], p, q);
    }
  }

  // ----- ties

  /** The records of `w`'s object, version and creation time. */
  function SameSlot(w: Rec): Rec -> bool
  {
    (r: Rec) => r.oid == w.oid && Eff(r) == Eff(w) && r.createdAt == w.createdAt
  }

  function SameStamp(w: Rec): Rec -> bool
  {
    (r: Rec) => r.oid == w.oid && Eff(r) == Eff(w) && r.createdAt == w.createdAt && r.updatedAt == w.updatedAt
  }

  /** The winner of a sorted group is the first of its slot in the group. */
  lemma WinnerHeadsSlot(g: seq<Rec>, now: int)
    requires g != [] && Sorted(g, VersionLeq) && Winner(g, now).Some?
    requires forall r :: r in g ==> r.oid == g[0].oid
    ensures
      var w := Winner(g, now).value;
      Filter(g, SameSlot(w)) != [] && Filter(g, SameSlot(w))[0] == w
  {
    WinnerIsRight(g, now);
    var w := Winner(g, now).value;
    var i :| 0 <= i < |g| && g[i] == w && forall j :: 0 <= j < i ==> Eff(g[j]) < Eff(w);
    FilterFirst(g, SameSlot(w), i);
  }

  /** A query answers ties with the record that came first in the input. */
  lemma QueryTakesFirst(records: seq<Rec>, oid: string, now: int)
    requires QueryResult(records, oid, now) != []
    ensures
      var w := QueryResult(records, oid, now)[0];
      w.oid == oid && Filter(Group(records, oid), SameSlot(w)) != [] && Filter(Group(records, oid), SameSlot(w))[0] == w
  {
    var group := SortedGroup(records, oid);
    WinnerHeadsSlot(group, now);
    SortStable(Group(records, oid), VersionLeq, SameSlot(Winner(group, now).value));
  }

  /** Compaction answers ties with a record of the earliest update time. */
  lemma CompactionTakesEarliest(records: seq<Rec>, sorted: seq<Rec>, oid: string, now: int)
    requires SortedCopy(records, sorted) && !AppendOnly(oid) && CompactionResult(sorted, oid, now) != []
    ensures
      var w := CompactionResult(sorted, oid, now)[0];
      && w in Group(records, oid)
      && Filter(Group(sorted, oid), SameSlot(w)) != [] && Filter(Group(sorted, oid), SameSlot(w))[0] == w
      && forall r :: r in Group(records, oid) && SameSlot(w)(r) ==> w.updatedAt <= r.updatedAt
  {
    GroupsAreSorted(records, sorted, oid);
    CompactionIsWinner(records, sorted, oid, now);
    var g := Group(sorted, oid);
    assert forall r :: r in g ==> r.oid == oid;
    WinnerHeadsSlot(g, now);
    WinnerFromGroup(g, now);
    var w := Winner(g, now).value;
    var slot := Filter(g, SameSlot(w));
    FilterSorted(g, FullLeq, SameSlot(w));
    forall r ensures r in g <==> r in Group(records, oid) { assert r in multiset(g) <==> r in multiset(Group(records, oid)); }
    forall r | r in g && SameSlot(w)(r) ensures w.updatedAt <= r.updatedAt {
      var k :| 0 <= k < |slot| && slot[k] == r;
      assert k == 0 || FullLeq(slot[0], slot[k]);
    }
  }

  /** Every other record of the query winner's slot was updated strictly later. */
  ghost predicate NoRival(records: seq<Rec>, oid: string, w: Rec)
  {
    forall r :: r in Group(records, oid) && SameSlot(w)(r) && r != w ==> w.updatedAt < r.updatedAt
  }

  lemma NoRivalMeansSame(records: seq<Rec>, sorted: seq<Rec>, oid: string, now: int)
    requires SortedCopy(records, sorted) && !AppendOnly(oid) && QueryResult(records, oid, now) != []
    requires NoRival(records, oid, QueryResult(records, oid, now)[0])
    ensures CompactionResult(sorted, oid, now) == QueryResult(records, oid, now)
  {
    PathsAgree(records, sorted, oid, now);
    CompactionTakesEarliest(records, sorted, oid, now);
    QueryFromGroup(records, oid, now);
    var q, c := QueryResult(records, oid, now)[0], CompactionResult(sorted, oid, now)[0];
    hide Group, Scan, QueryResult, CompactionResult;
    assert SameSlot(q)(c) && SameSlot(c)(q);
    assert c == q;
    assert QueryResult(records, oid, now) == [q] && CompactionResult(sorted, oid, now) == [c];
  }

  /** Given a rival, some order of equal records lets it win the compaction. */
  lemma RivalWins(records: seq<Rec>, oid: string, now: int, rival: Rec) returns (sorted: seq<Rec>)
    requires !AppendOnly(oid) && QueryResult(records, oid, now) != [] && rival in Group(records, oid)
    requires
      var q := QueryResult(records, oid, now)[0];
      SameSlot(q)(rival) && rival != q && rival.updatedAt <= q.updatedAt
    ensures SortedCopy(records, sorted) && CompactionResult(sorted, oid, now) != QueryResult(records, oid, now)
  {
    sorted := RivalFirst(records, rival);
    hide Winner, SortBy, Scan, FullLeq, VersionLeq, SortedCopy, QueryResult, CompactionResult, Filter, Eff;
    if CompactionResult(sorted, oid, now) == QueryResult(records, oid, now) {
      CompactionTakesEarliest(records, sorted, oid, now);
      HeadOfStamp(sorted, oid, QueryResult(records, oid, now)[0], rival);
    }
  }

  /** Some sorted copy has the rival in front of every record it ties with. */
  lemma RivalFirst(records: seq<Rec>, rival: Rec) returns (sorted: seq<Rec>)
    requires rival in records
    ensures SortedCopy(records, sorted) && Filter(sorted, SameStamp(rival)) != [] && Filter(sorted, SameStamp(rival))[0] == rival
  {
    var k, rest := RemoveOne(records, rival);
    var front := [rival] + rest;
    OrdersAreTotal();
    sorted := SortBy(front, FullLeq);
    SortCorrect(front, FullLeq);
    SortStable(front, FullLeq, SameStamp(rival));
  }

  lemma HeadOfStamp(sorted: seq<Rec>, oid: string, w: Rec, r: Rec)
    requires r.oid == oid && SameStamp(r)(w)
    requires Filter(Group(sorted, oid), SameSlot(w)) != [] && Filter(Group(sorted, oid), SameSlot(w))[0] == w
    ensures Filter(sorted, SameStamp(r)) != [] && Filter(sorted, SameStamp(r))[0] == w
  {
    FilterFilter(sorted, SameStamp(r), HasOid(oid));
    FilterFilter(Group(sorted, oid), SameStamp(r), SameSlot(w));
    FilterFirst(Filter(Group(sorted, oid), SameSlot(w)), SameStamp(r), 0);
  }

  /**
   Compaction keeps the very record a query returns, for every order the unstable sort may
   leave equal records in, exactly when no record tied with it on version and creation time
   was updated as early.
   */
  lemma SameRecordIffNoRival(records: seq<Rec>, oid: string, now: int)
    requires !AppendOnly(oid) && QueryResult(records, oid, now) != []
    ensures (forall sorted :: SortedCopy(records, sorted) ==> CompactionResult(sorted, oid, now) == QueryResult(records, oid, now))
            <==> NoRival(records, oid, QueryResult(records, oid, now)[0])
  {
    var q := QueryResult(records, oid, now)[0];
    if NoRival(records, oid, q) {
      forall sorted | SortedCopy(records, sorted) ensures CompactionResult(sorted, oid, now) == QueryResult(records, oid, now) {
        NoRivalMeansSame(records, sorted, oid, now);
      }
    } else {
      var rival :| rival in Group(records, oid) && SameSlot(q)(rival) && rival != q && q.updatedAt >= rival.updatedAt;
      var sorted := RivalWins(records, oid, now, rival);
    }
  }

  // ----- a second pass

  /**
   Resolution is not idempotent. A second compaction, or a query over compacted records,
   keeps an object exactly when its surviving version is 1: the lower versions are gone, so
   any later version now looks like a history with a gap at the start.
   */
  lemma SecondPass(records: seq<Rec>, sorted: seq<Rec>, again: seq<Rec>, oid: string, now: int)
    requires SortedCopy(records, sorted) && SortedCopy(Scan(sorted, now), again) && !AppendOnly(oid)
    ensures
      var first := CompactionResult(sorted, oid, now);
      var expected := if first != [] && Eff(first[0]) > 1 then [] else first;
      && CompactionResult(again, oid, now) == expected
      && QueryResult(Scan(sorted, now), oid, now) == expected
  {
    hide Scan, Group, Winner, SortedCopy, Eff, VersionLeq, FullLeq, AppendOnly, Filter;
    var out := Scan(sorted, now);
    CompactionIsWinner(records, sorted, oid, now);
    CompactionIsWinner(out, again, oid, now);
    GroupsAreSorted(out, again, oid);
    var first := Group(out, oid);
    if first != [] {
      LiveWinner(Group(sorted, oid), now);
      SingletonPass(first[0], now);
      OneElement(first, Group(again, oid));
      SortOne(first);
    }
  }

  lemma SortOne(a: seq<Rec>)
    requires |a| == 1
    ensures SortBy(a, VersionLeq) == a
  {
    assert a[1..] == [];
  }

  lemma OneElement(a: seq<Rec>, b: seq<Rec>)
    requires |a| == 1 && multiset(a) == multiset(b)
    ensures b == a
  {
    assert |multiset(b)| == 1;
    assert a[0] in multiset(b);
  }

  lemma LiveWinner(g: seq<Rec>, now: int)
    requires g != [] && Winner(g, now).Some?
    ensures !Expired(Winner(g, now).value, now)
  {
    WinnerFromGroup(g, now);
  }

  lemma SingletonPass(w: Rec, now: int)
    requires !Expired(w, now)
    ensures Winner([w], now) == if Eff(w) > 1 then None else Some(w)
  {
    assert [w][1..] == [];
    assert Walk([w], Eff(w), None) == Walk([], Eff(w) + 1, Some(w));
    assert !AnyExpired([w], now);
  }
}
