/** The two resolvers as the loops the source runs, each tied to its path in MvccBatches. */
module MvccResolver {
  import opened Sequences
  import opened StableSort
  import opened MvccResolution
  import opened MvccBatches

  /** The walk over a sorted group, as a loop; also where in the group it stopped last. */
  method WalkGroup(g: seq<Rec>, start: nat) returns (last: Option<Rec>, index: nat)
    ensures last == Walk(g, start, None)
    ensures last.Some? ==> index < |g| && g[index] == last.value
  {
    var expected := start;
    last, index := None, 0;
    var i := 0;
    while i < |g|
      invariant 0 <= i <= |g|
      invariant last.Some? ==> index < |g| && g[index] == last.value
      invariant Walk(g[i..], expected, last) == Walk(g, start, None)
    {
      assert g[i..][1..] == g[i + 1..];
      var version := Eff(g[i]);
      if version == expected {
        last, index := Some(g[i]), i;
        expected := expected + 1;
      } else if version > expected {
        return;
      }
      i := i + 1;
    }
  }

  method WinnerOf(g: seq<Rec>, now: int) returns (w: Option<Rec>, index: nat)
    requires g != []
    ensures w == Winner(g, now)
    ensures w.Some? ==> index < |g| && g[index] == w.value
  {
    for i := 0 to |g|
      invariant forall j :: 0 <= j < i ==> !Expired(g[j], now)
    {
      if Expired(g[i], now) {
        return None, 0;
      }
    }
    if Eff(g[0]) > 1 {
      return None, 0;
    }
    w, index := WalkGroup(g, Eff(g[0]));
  }

  // ----- the query path

  lemma GroupSnoc(s: seq<Rec>, r: Rec, oid: string)
    ensures Group(s + [r], oid) == if r.oid == oid then Group(s, oid) + [r] else Group(s, oid)
    ensures Filter(s + [r], IsAppendOnly()) == if AppendOnly(r.oid) then Filter(s, IsAppendOnly()) + [r] else Filter(s, IsAppendOnly())
  {
    FilterConcat(s, [r], HasOid(oid));
    FilterConcat(s, [r], IsAppendOnly());
    assert [r][1..] == [];
  }

  ghost predicate Grouped(s: seq<Rec>, groups: map<string, seq<Rec>>)
  {
    forall oid :: if oid in groups then !AppendOnly(oid) && groups[oid] == Group(s, oid) && groups[oid] != []
                  else AppendOnly(oid) || Group(s, oid) == []
  }

  lemma NothingGrouped()
    ensures Grouped([], map[]) && Filter([], IsAppendOnly()) == []
  {
  }

  /** One more record joins the group of its object, unless it is append-only. */
  lemma GroupedSnoc(s: seq<Rec>, groups: map<string, seq<Rec>>, r: Rec)
    requires Grouped(s, groups)
    ensures AppendOnly(r.oid) ==> Grouped(s + [r], groups)
    ensures !AppendOnly(r.oid) ==> Grouped(s + [r], groups[r.oid := (if r.oid in groups then groups[r.oid] else []) + [r]])
  {
    hide Group, AppendOnly;
    forall oid ensures Group(s + [r], oid) == if r.oid == oid then Group(s, oid) + [r] else Group(s, oid) { GroupSnoc(s, r, oid); }
  }

  method GroupByOid(records: seq<Rec>) returns (groups: map<string, seq<Rec>>, appendOnly: seq<Rec>)
    ensures Grouped(records, groups)
    ensures appendOnly == Filter(records, IsAppendOnly())
  {
    hide Grouped, Filter, Group;
    groups, appendOnly := map[], [];
    NothingGrouped();
    for i := 0 to |records|
      invariant Grouped(records[..i], groups)
      invariant appendOnly == Filter(records[..i], IsAppendOnly())
    {
      var r := records[i];
      assert records[..i + 1] == records[..i] + [r];
      GroupedSnoc(records[..i], groups, r);
      GroupSnoc(records[..i], r, r.oid);
      if AppendOnly(r.oid) {
        appendOnly := appendOnly + [r];
      } else {
        groups := groups[r.oid := (if r.oid in groups then groups[r.oid] else []) + [r]];
      }
    }
    assert records[..|records|] == records;
  }

  /** Which object ids have been answered: those grouped and no longer in `rest`. */
  ghost predicate Answered(records: seq<Rec>, now: int, oids: set<string>, resolved: seq<Rec>)
  {
    forall oid :: Group(resolved, oid) == if oid in oids then QueryResult(records, oid, now) else []
  }

  lemma AnswerOne(records: seq<Rec>, now: int, oids: set<string>, resolved: seq<Rec>, oid: string, w: Option<Rec>)
    requires Answered(records, now, oids, resolved) && oid !in oids
    requires AsSeq(w) == QueryResult(records, oid, now)
    ensures Answered(records, now, oids + {oid}, resolved + AsSeq(w))
  {
    QueryFromGroup(records, oid, now);
    hide QueryResult;
    forall other ensures Group(resolved + AsSeq(w), other) == if other in oids + {oid} then QueryResult(records, other, now) else [] {
      FilterConcat(resolved, AsSeq(w), HasOid(other));
      if other == oid {
        FilterAll(AsSeq(w), HasOid(oid));
      } else {
        FilterNone(AsSeq(w), HasOid(other));
      }
    }
  }

  /** The query path: every group's winner, in hash order, then the live append-only records. */
  method ResolveBatch(records: seq<Rec>, now: int) returns (out: seq<Rec>)
    ensures forall oid :: !AppendOnly(oid) ==> Group(out, oid) == QueryResult(records, oid, now)
    ensures Filter(out, IsAppendOnly()) == Filter(records, IsLiveAppendOnly(now))
  {
    var groups, appendOnly := GroupByOid(records);
    var resolved: seq<Rec> := [];
    var rest := groups.Keys;
    while rest != {}
      invariant rest <= groups.Keys
      invariant Answered(records, now, groups.Keys - rest, resolved)
      invariant forall r :: r in resolved ==> !AppendOnly(r.oid)
      decreases rest
    {
      var oid :| oid in rest;
      var group := SortedGroup(records, oid);
      var versions := SortBy(groups[oid], VersionLeq);
      var w, _ := WinnerOf(versions, now);
      WinnerFromGroup(versions, now);
      AnswerOne(records, now, groups.Keys - rest, resolved, oid, w);
      resolved := resolved + AsSeq(w);
      assert groups.Keys - (rest - {oid}) == groups.Keys - rest + {oid};
      rest := rest - {oid};
    }
    assert groups.Keys - rest == groups.Keys;
    out := resolved + Filter(appendOnly, IsLive(now));
    AllAnswered(records, now, groups, resolved);
  }

  lemma AllAnswered(records: seq<Rec>, now: int, groups: map<string, seq<Rec>>, resolved: seq<Rec>)
    requires Grouped(records, groups) && Answered(records, now, groups.Keys, resolved)
    requires forall r :: r in resolved ==> !AppendOnly(r.oid)
    ensures
      var out := resolved + Filter(Filter(records, IsAppendOnly()), IsLive(now));
      && (forall oid :: !AppendOnly(oid) ==> Group(out, oid) == QueryResult(records, oid, now))
      && Filter(out, IsAppendOnly()) == Filter(records, IsLiveAppendOnly(now))
  {
    var live := Filter(Filter(records, IsAppendOnly()), IsLive(now));
    forall oid | !AppendOnly(oid) ensures Group(resolved + live, oid) == QueryResult(records, oid, now) {
      FilterConcat(resolved, live, HasOid(oid));
      FilterNone(live, HasOid(oid));
      if oid !in groups { assert SortBy(Group(records, oid), VersionLeq) == []; }
    }
    FilterConcat(resolved, live, IsAppendOnly());
    FilterNone(resolved, IsAppendOnly());
    FilterAll(live, IsAppendOnly());
    FilterTwice(records, now);
    hide Filter;
  }

  lemma {:induction false} FilterTwice(s: seq<Rec>, now: int)
    ensures Filter(Filter(s, IsAppendOnly()), IsLive(now)) == Filter(s, IsLiveAppendOnly(now))
  {
    if s != [] {
      FilterTwice(s[1..], now);
      var t := Filter(s[1..], IsAppendOnly());
      assert ([s[0]] + t)[1..] == t;
    }
  }

  // ----- the compaction path

  /** An unstable sort: callers know only that the result is a sorted permutation. */
  method SortUnstable(records: seq<Rec>) returns (sorted: seq<Rec>)
    ensures SortedCopy(records, sorted)
  {
    OrdersAreTotal();
    sorted := SortBy(records, FullLeq);
    SortCorrect(records, FullLeq);
  }

  /** `Vec::retain` under a mask. */
  function Retain(s: seq<Rec>, keep: seq<bool>): seq<Rec>
    requires |s| == |keep|
  {
    if s == [] then [] else (if keep[0] then [s[0]] else []) + Retain(s[1..], keep[1..])
  }

  lemma RetainUnfold(s: seq<Rec>, keep: seq<bool>)
    requires |s| == |keep| && s != []
    ensures Retain(s, keep) == (if keep[0] then [s[0]] else []) + Retain(s[1..], keep[1..])
  {
  }

  lemma {:induction false} RetainConcat(s: seq<Rec>, t: seq<Rec>, keepS: seq<bool>, keepT: seq<bool>)
    requires |s| == |keepS| && |t| == |keepT|
    ensures Retain(s + t, keepS + keepT) == Retain(s, keepS) + Retain(t, keepT)
  {
    if s == [] {
      assert s + t == t && keepS + keepT == keepT;
    } else {
      assert (s + t)[1..] == s[1..] + t && (keepS + keepT)[1..] == keepS[1..] + keepT;
      RetainConcat(s[1..], t, keepS[1..], keepT);
      RetainUnfold(s, keepS);
      RetainUnfold(s + t, keepS + keepT);
      hide Retain;
    }
  }

  lemma {:induction false} RetainNone(s: seq<Rec>, keep: seq<bool>)
    requires |s| == |keep| && forall i :: 0 <= i < |keep| ==> !keep[i]
    ensures Retain(s, keep) == []
  {
    if s != [] {
      RetainNone(s[1..], keep[1..]);
    }
  }

  lemma {:induction false} RetainOne(s: seq<Rec>, keep: seq<bool>, k: nat)
    requires |s| == |keep| && k < |s| && forall i :: 0 <= i < |keep| ==> keep[i] == (i == k)
    ensures Retain(s, keep) == [s[k]]
  {
    if k == 0 {
      RetainNone(s[1..], keep[1..]);
    } else {
      RetainOne(s[1..], keep[1..], k - 1);
    }
  }

  lemma {:induction false} RetainLive(s: seq<Rec>, keep: seq<bool>, now: int)
    requires |s| == |keep| && forall i :: 0 <= i < |keep| ==> keep[i] == !Expired(s[i], now)
    ensures Retain(s, keep) == Filter(s, IsLive(now))
  {
    if s != [] {
      RetainLive(s[1..], keep[1..], now);
    }
  }

  method GroupMask(g: seq<Rec>, now: int) returns (keep: seq<bool>)
    requires g != []
    ensures |keep| == |g| && Retain(g, keep) == KeepGroup(g, now)
  {
    if AppendOnly(g[0].oid) {
      keep := seq(|g|, i requires 0 <= i < |g| => !Expired(g[i], now));
      RetainLive(g, keep, now);
    } else {
      var w, index := WinnerOf(g, now);
      keep := seq(|g|, i => w.Some? && i == index);
      if w.Some? {
        RetainOne(g, keep, index);
      } else {
        RetainNone(g, keep);
      }
    }
  }

  /** The mask decides the first `|keep|` records as the scan does; the rest is still to come. */
  ghost predicate Marked(s: seq<Rec>, keep: seq<bool>, now: int)
  {
    |keep| <= |s| && Retain(s[..|keep|], keep) + Scan(s[|keep|..], now) == Scan(s, now)
  }

  /** Mark at most one winner per versioned object, group by group. */
  method MarkKept(s: seq<Rec>, now: int) returns (keep: seq<bool>)
    ensures |keep| == |s| && Retain(s, keep) == Scan(s, now)
  {
    keep := [];
    assert s[0..] == s && s[..0] == [];
    while |keep| < |s|
      invariant Marked(s, keep, now)
      decreases |s| - |keep|
    {
      hide *;
      var start := |keep|;
      var n := GroupEnd(s, start);
      var mask := GroupMask(s[start..n], now);
      MarkStep(s, n, keep, mask, now);
      keep := keep + mask;
    }
    assert s[..|s|] == s && s[|s|..] == [];
  }

  /** The compaction path: sort, mark, retain. */
  method ResolveSortedBatch(records: seq<Rec>, now: int) returns (out: seq<Rec>)
    ensures exists sorted :: SortedCopy(records, sorted) && out == Scan(sorted, now)
  {
    var sorted := SortUnstable(records);
    var keep := MarkKept(sorted, now);
    out := Retain(sorted, keep);
  }

  lemma MarkStep(s: seq<Rec>, n: nat, keep: seq<bool>, mask: seq<bool>, now: int)
    requires |keep| < n <= |s| && Marked(s, keep, now) && |mask| == n - |keep|
    requires n == |keep| + Lead(s[|keep|..], s[|keep|].oid)
    requires Retain(s[|keep|..n], mask) == KeepGroup(s[|keep|..n], now)
    ensures Marked(s, keep + mask, now)
  {
    hide Retain, Scan, KeepGroup, Lead;
    var done, g := s[..|keep|], s[|keep|..n];
    assert g + s[n..] == s[|keep|..];
    assert done + g == s[..n];
    ScanStep(done, g, s[n..], keep, mask, now);
  }

  lemma ScanStep(done: seq<Rec>, g: seq<Rec>, rest: seq<Rec>, keep: seq<bool>, mask: seq<bool>, now: int)
    requires g != [] && |g| == Lead(g + rest, g[0].oid)
    requires |keep| == |done| && |mask| == |g| && Retain(g, mask) == KeepGroup(g, now)
    ensures Retain(done + g, keep + mask) + Scan(rest, now) == Retain(done, keep) + Scan(g + rest, now)
  {
    hide *;
    RetainConcat(done, g, keep, mask);
    ScanHead(g, rest, now);
  }

  lemma ScanHead(g: seq<Rec>, rest: seq<Rec>, now: int)
    requires g != [] && |g| == Lead(g + rest, g[0].oid)
    ensures Scan(g + rest, now) == KeepGroup(g, now) + Scan(rest, now)
  {
    hide KeepGroup, Lead;
    assert (g + rest)[0] == g[0];
    assert (g + rest)[..|g|] == g && (g + rest)[|g|..] == rest;
  }

  method GroupEnd(s: seq<Rec>, start: nat) returns (end: nat)
    requires start < |s|
    ensures start < end <= |s| && end == start + Lead(s[start..], s[start].oid)
  {
    end := start + 1;
    ghost var suffix := s[start..];
    while end < |s| && s[end].oid == s[start].oid
      invariant start < end <= |s|
      invariant forall i :: start <= i < end ==> s[i].oid == s[start].oid
    {
      end := end + 1;
    }
    LeadIs(suffix, s[start].oid, end - start);
  }

  lemma {:induction false} LeadIs(s: seq<Rec>, oid: string, n: nat)
    requires n <= |s| && (forall i :: 0 <= i < n ==> s[i].oid == oid) && (n < |s| ==> s[n].oid != oid)
    ensures Lead(s, oid) == n
  {
  }
}
