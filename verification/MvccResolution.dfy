/**
 Version resolution: which record of each object id a read sees. The query path groups
 records by hash map and sorts each group; the compaction path sorts the whole batch
 with an unstable sort and scans it once. Both walk a group from version 1 upwards and
 stop at the first gap; an expired version deletes its whole object.
 */
module MvccResolution {
  import opened Sequences
  import opened StableSort
  import opened Text

  /** The fields resolution looks at; `body` stands for all others. */
  datatype Rec = Rec(oid: string, version: nat, createdAt: int, updatedAt: int, validTo: Option<int>, body: int)

  /** Version 0 is read as version 1. */
  function Eff(r: Rec): nat
  {
    if r.version == 0 then 1 else r.version
  }

  predicate AppendOnly(oid: string)
  {
    oid == "null" || oid == "none" || forall i :: 0 <= i < |oid| ==> IsSpace(oid[i])
  }

  predicate Expired(r: Rec, now: int)
  {
    r.validTo.Some? && r.validTo.value < now
  }

  predicate AnyExpired(s: seq<Rec>, now: int)
  {
    exists i :: 0 <= i < |s| && Expired(s[i], now)
  }

  // ----- the two orders

  predicate VersionLeq(a: Rec, b: Rec)
  {
    Eff(a) < Eff(b) || (Eff(a) == Eff(b) && a.createdAt <= b.createdAt)
  }

  predicate TimeLeq(a: Rec, b: Rec)
  {
    Eff(a) < Eff(b) || (Eff(a) == Eff(b) && (a.createdAt < b.createdAt || (a.createdAt == b.createdAt && a.updatedAt <= b.updatedAt)))
  }

  predicate FullLeq(a: Rec, b: Rec)
  {
    IdLeq(a.oid, b.oid) && (a.oid == b.oid ==> TimeLeq(a, b))
  }

  lemma OrdersAreTotal()
    ensures TotalPreorder(VersionLeq) && TotalPreorder(FullLeq)
  {
    forall a, b ensures FullLeq(a, b) || FullLeq(b, a) {
      IdTotal(a.oid, b.oid);
      if a.oid != b.oid && IdLeq(a.oid, b.oid) && IdLeq(b.oid, a.oid) { IdAntisymmetric(a.oid, b.oid); }
    }
    forall a, b, c | FullLeq(a, b) && FullLeq(b, c) ensures FullLeq(a, c) {
      IdTransitive(a.oid, b.oid, c.oid);
      if a.oid == c.oid { IdAntisymmetric(a.oid, b.oid); }
    }
  }

  // ----- one group

  /** Walk a group sorted by version: take the next expected version, skip repeats, stop at a gap. */
  function Walk(vs: seq<Rec>, expected: nat, last: Option<Rec>): Option<Rec>
  {
    if vs == [] then last
    else if Eff(vs[0]) == expected then Walk(vs[1..], expected + 1, Some(vs[0]))
    else if Eff(vs[0]) > expected then last
    else Walk(vs[1..], expected, last)
  }

  /** The winner of a non-empty group sorted by version. */
  function Winner(vs: seq<Rec>, now: int): Option<Rec>
    requires vs != []
  {
    if AnyExpired(vs, now) || Eff(vs[0]) > 1 then None else Walk(vs, Eff(vs[0]), None)
  }

  ghost predicate Present(vs: seq<Rec>, v: nat)
  {
    exists r :: r in vs && Eff(r) == v
  }

  /** `top` is the last version of the gap-free stretch that starts at `from`. */
  ghost predicate GapFreeTop(vs: seq<Rec>, from: nat, top: nat)
  {
    from <= top && (forall v :: from <= v <= top ==> Present(vs, v)) && !Present(vs, top + 1)
  }

  ghost predicate ByVersion(vs: seq<Rec>)
  {
    forall i, j :: 0 <= i < j < |vs| ==> Eff(vs[i]) <= Eff(vs[j])
  }

  lemma {:induction false} WalkMisses(vs: seq<Rec>, expected: nat, last: Option<Rec>)
    requires ByVersion(vs) && !Present(vs, expected)
    ensures Walk(vs, expected, last) == last
  {
    if vs != [] {
      assert Eff(vs[0]) != expected;
      if Eff(vs[0]) < expected {
        assert !Present(vs[1..], expected);
        WalkMisses(vs[1..], expected, last);
      }
    }
  }

  lemma GapFreeCons(vs: seq<Rec>, from: nat, top: nat)
    requires vs != [] && Eff(vs[0]) <= from <= top
    requires GapFreeTop(vs[1..], if Eff(vs[0]) == from then from + 1 else from, top)
    ensures GapFreeTop(vs, from, top)
  {
    PresentSplit(vs);
    hide Present;
  }

  lemma GapFreeHere(vs: seq<Rec>, from: nat)
    requires vs != [] && Eff(vs[0]) == from && !Present(vs[1..], from + 1)
    ensures GapFreeTop(vs, from, from)
  {
    PresentSplit(vs);
    hide Present;
  }

  /** The walk ends on the first record of the last version before a gap. */
  lemma {:induction false} WalkFinds(vs: seq<Rec>, expected: nat, last: Option<Rec>) returns (i: nat)
    requires ByVersion(vs) && Present(vs, expected)
    ensures i < |vs| && Walk(vs, expected, last) == Some(vs[i])
    ensures Eff(vs[i]) >= expected && GapFreeTop(vs, expected, Eff(vs[i]))
    ensures forall j :: 0 <= j < i ==> Eff(vs[j]) < Eff(vs[i])
  {
    FirstIsLowest(vs, expected);
    PresentSplit(vs);
    hide Present, GapFreeTop;
    var rest := vs[1..];
    if Eff(vs[0]) == expected && !Present(rest, expected + 1) {
      WalkMisses(rest, expected + 1, Some(vs[0]));
      GapFreeHere(vs, expected);
      i := 0;
    } else {
      var found := Eff(vs[0]) == expected;
      var k := WalkFinds(rest, if found then expected + 1 else expected, if found then Some(vs[0]) else last);
      i := k + 1;
      GapFreeCons(vs, expected, Eff(vs[i]));
    }
  }

  lemma FirstIsLowest(vs: seq<Rec>, v: nat)
    requires ByVersion(vs) && Present(vs, v)
    ensures vs != [] && Eff(vs[0]) <= v
  {
    var r :| r in vs && Eff(r) == v;
    var k :| 0 <= k < |vs| && vs[k] == r;
  }

  lemma PresentSplit(vs: seq<Rec>)
    requires vs != []
    ensures forall v :: Present(vs, v) <==> v == Eff(vs[0]) || Present(vs[1..], v)
  {
    assert vs == [vs[0]] + vs[1..];
  }

  // ----- what the winner is, without the walk

  /** `w` is of the last version before a gap, and no record of that version is older. */
  ghost predicate IsWinner(group: seq<Rec>, w: Rec)
  {
    && w in group
    && GapFreeTop(group, 1, Eff(w))
    && forall r :: r in group && Eff(r) == Eff(w) ==> w.createdAt <= r.createdAt
  }

  /**
   The winner is exactly what the rules say: none if some version has expired or version 1
   is missing, otherwise the earliest record of the last version before a gap.
   */
  lemma WinnerIsRight(vs: seq<Rec>, now: int)
    requires vs != [] && Sorted(vs, VersionLeq)
    ensures Winner(vs, now).None? <==> AnyExpired(vs, now) || !Present(vs, 1)
    ensures Winner(vs, now).Some? ==> IsWinner(vs, Winner(vs, now).value)
    ensures Winner(vs, now).Some? ==>
      var w := Winner(vs, now).value;
      exists i :: 0 <= i < |vs| && vs[i] == w && forall j :: 0 <= j < i ==> Eff(vs[j]) < Eff(w)
  {
    assert Eff(vs[0]) >= 1 && vs[0] in vs;
    if Eff(vs[0]) > 1 {
      assert !Present(vs, 1);
    } else if !AnyExpired(vs, now) {
      assert Present(vs, 1);
      var i := WalkFinds(vs, 1, None);
      forall r | r in vs && Eff(r) == Eff(vs[i]) ensures vs[i].createdAt <= r.createdAt {
        var j :| 0 <= j < |vs| && vs[j] == r;
        assert j >= i;
      }
    }
  }

  /** The version that wins, and the creation time it wins with, do not depend on the order of the group. */
  lemma WinnersAgree(a: seq<Rec>, b: seq<Rec>, now: int)
    requires a != [] && multiset(a) == multiset(b)
    requires Sorted(a, VersionLeq) && Sorted(b, VersionLeq)
    ensures b != [] && Winner(a, now).Some? == Winner(b, now).Some?
    ensures Winner(a, now).Some? ==>
      Eff(Winner(a, now).value) == Eff(Winner(b, now).value) && Winner(a, now).value.createdAt == Winner(b, now).value.createdAt
  {
    assert |multiset(a)| == |multiset(b)|;
    forall r ensures r in a <==> r in b { assert r in multiset(a) <==> r in multiset(b); }
    SameExpiry(a, b, now);
    SamePresent(a, b);
    WinnerIsRight(a, now);
    WinnerIsRight(b, now);
    if Winner(a, now).Some? {
      TopsAgree(a, b, Eff(Winner(a, now).value), Eff(Winner(b, now).value));
    }
  }

  lemma SameExpiry(a: seq<Rec>, b: seq<Rec>, now: int)
    requires forall r :: r in a <==> r in b
    ensures AnyExpired(a, now) <==> AnyExpired(b, now)
  {
    if AnyExpired(a, now) {
      var i :| 0 <= i < |a| && Expired(a[i], now);
      assert a[i] in b;
    }
    if AnyExpired(b, now) {
      var i :| 0 <= i < |b| && Expired(b[i], now);
      assert b[i] in a;
    }
  }

  lemma SamePresent(a: seq<Rec>, b: seq<Rec>)
    requires forall r :: r in a <==> r in b
    ensures forall v :: Present(a, v) <==> Present(b, v)
  {
  }

  lemma TopsAgree(a: seq<Rec>, b: seq<Rec>, s: nat, t: nat)
    requires forall v :: Present(a, v) <==> Present(b, v)
    requires GapFreeTop(a, 1, s) && GapFreeTop(b, 1, t)
    ensures s == t
  {
  }
}
