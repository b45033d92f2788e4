/** The preserved candidate pool: two retrievers' rankings and their union. */
module Pools {
  import opened Sequences
  import opened Ranking

  datatype GroundTruth = GroundTruth(queryId: string, relevant: seq<string>)

  datatype CandidatePool = CandidatePool(queryId: string, vector: seq<Candidate>, bm25: seq<Candidate>, union: seq<Candidate>)

  function WithId(id: string): Candidate -> bool
  {
    (c: Candidate) => c.docId == id
  }

  /** The fold of `union_of`: keep the higher score, mark a repeated document Hybrid. */
  function Merge(cs: seq<Candidate>): map<string, Candidate>
  {
    if cs == [] then map[]
    else
      var m, c := Merge(cs[..|cs| - 1]), cs[|cs| - 1];
      m[c.docId := MergeOne(m, c)]
  }

  function MergeOne(m: map<string, Candidate>, c: Candidate): Candidate
  {
    if c.docId !in m then c
    else Candidate(m[c.docId].docId, if c.score > m[c.docId].score then c.score else m[c.docId].score, Hybrid)
  }

  /** What the union should hold for a document: its best score, Hybrid if it was listed twice. */
  ghost predicate IsMerged(cs: seq<Candidate>, c: Candidate)
  {
    var same := Filter(cs, WithId(c.docId));
    && same != []
    && (exists d :: d in same && d.score == c.score)
    && (forall d :: d in same ==> d.score <= c.score)
    && c.source == if |same| >= 2 then Hybrid else same[0].source
  }

  /** The union of the listed candidates: every document once, merged, best first. */
  ghost predicate IsUnion(cs: seq<Candidate>, u: seq<Candidate>)
  {
    && Descending(u) && Distinct(Ids(u))
    && Elements(Ids(u)) == Elements(Ids(cs))
    && forall c :: c in u ==> IsMerged(cs, c)
  }

  lemma SnocSame(cs: seq<Candidate>, c: Candidate, id: string)
    ensures Filter(cs + [c], WithId(id)) == if c.docId == id then Filter(cs, WithId(id)) + [c] else Filter(cs, WithId(id))
  {
    FilterConcat(cs, [c], WithId(id));
    assert [c][1..] == [];
  }

  lemma MergeOneIsMerged(cs: seq<Candidate>, m: map<string, Candidate>, c: Candidate)
    requires c.docId in m <==> c.docId in Ids(cs)
    requires c.docId in m ==> m[c.docId].docId == c.docId && IsMerged(cs, m[c.docId])
    ensures MergeOne(m, c).docId == c.docId && IsMerged(cs + [c], MergeOne(m, c))
  {
    var id := c.docId;
    SnocSame(cs, c, id);
    var same := Filter(cs, WithId(id));
    if id in m {
      var d :| d in same && d.score == m[id].score;
      assert d in same + [c] && c in same + [c];
    } else {
      FilterNone(cs, WithId(id));
      assert same + [c] == [c] && c in [c];
    }
  }

  lemma {:induction false} MergeIsRight(cs: seq<Candidate>)
    ensures Merge(cs).Keys == Elements(Ids(cs))
    ensures forall id :: id in Merge(cs) ==> Merge(cs)[id].docId == id && IsMerged(cs, Merge(cs)[id])
  {
    if cs != [] {
      var n := |cs| - 1;
      MergeIsRight(cs[..n]);
      assert cs == cs[..n] + [cs[n]];
      MergeNext(cs[..n], Merge(cs[..n]), cs[n]);
    }
  }

  /** Merging one more candidate into a map that is right for the earlier ones. */
  lemma MergeNext(init: seq<Candidate>, m: map<string, Candidate>, c: Candidate)
    requires m.Keys == Elements(Ids(init)) && forall id :: id in m ==> m[id].docId == id && IsMerged(init, m[id])
    ensures
      var next := m[c.docId := MergeOne(m, c)];
      && next.Keys == Elements(Ids(init + [c]))
      && forall id :: id in next ==> next[id].docId == id && IsMerged(init + [c], next[id])
  {
    hide MergeOne, IsMerged;
    assert Ids(init + [c]) == Ids(init) + [c.docId];
    assert Elements(Ids(init) + [c.docId]) == Elements(Ids(init)) + {c.docId};
    assert c.docId in m <==> c.docId in Ids(init);
    MergeOneIsMerged(init, m, c);
    forall id | id in m && id != c.docId ensures IsMerged(init + [c], m[id]) { MergedStays(init, c, m[id]); }
  }

  lemma MergedStays(init: seq<Candidate>, c: Candidate, d: Candidate)
    requires IsMerged(init, d) && d.docId != c.docId
    ensures IsMerged(init + [c], d)
  {
    SnocSame(init, c, d.docId);
  }

  /** The values of the map, in whatever order it yields them, sorted. */
  method UnionOf(vector: seq<Candidate>, bm25: seq<Candidate>) returns (union: seq<Candidate>)
    ensures IsUnion(vector + bm25, union)
  {
    var all := vector + bm25;
    var merged: map<string, Candidate> := map[];
    for i := 0 to |all|
      invariant merged == Merge(all[..i])
    {
      assert all[..i + 1][..i] == all[..i];
      merged := merged[all[i].docId := MergeOne(merged, all[i])];
    }
    assert all[..|all|] == all;
    MergeIsRight(all);
    var values := ValuesOf(merged);
    SortDescends(values);
    union := SortCandidates(values);
    ValuesAreUnion(all, merged, values, union);
  }

  method ValuesOf(m: map<string, Candidate>) returns (values: seq<Candidate>)
    requires forall id :: id in m ==> m[id].docId == id
    ensures Distinct(Ids(values)) && Elements(Ids(values)) == m.Keys
    ensures forall c :: c in values ==> c.docId in m && c == m[c.docId]
  {
    values := [];
    var rest := m.Keys;
    while rest != {}
      invariant rest <= m.Keys
      invariant Distinct(Ids(values)) && Elements(Ids(values)) == m.Keys - rest
      invariant forall c :: c in values ==> c.docId in m && c == m[c.docId]
      decreases rest
    {
      var id :| id in rest;
      assert id !in Elements(Ids(values));
      assert Ids(values + [m[id]]) == Ids(values) + [id];
      assert Elements(Ids(values) + [id]) == Elements(Ids(values)) + {id};
      values := values + [m[id]];
      rest := rest - {id};
    }
  }

  lemma ValuesAreUnion(all: seq<Candidate>, m: map<string, Candidate>, values: seq<Candidate>, union: seq<Candidate>)
    requires m.Keys == Elements(Ids(all)) && forall id :: id in m ==> IsMerged(all, m[id])
    requires Elements(Ids(values)) == m.Keys && forall c :: c in values ==> c.docId in m && c == m[c.docId]
    requires Descending(union) && Distinct(Ids(union)) && Elements(union) == Elements(values)
    ensures IsUnion(all, union)
  {
    SameIds(union, values);
    forall c | c in union ensures IsMerged(all, c) { assert c in Elements(union) && c in Elements(values); }
  }

  lemma SameIds(a: seq<Candidate>, b: seq<Candidate>)
    requires Elements(a) == Elements(b)
    ensures Elements(Ids(a)) == Elements(Ids(b))
  {
    forall id ensures id in Ids(a) <==> id in Ids(b) {
      if id in Ids(a) {
        var i :| 0 <= i < |a| && Ids(a)[i] == id;
        assert a[i] in Elements(b);
        var j :| 0 <= j < |b| && b[j] == a[i];
        assert Ids(b)[j] == id;
      }
      if id in Ids(b) {
        var i :| 0 <= i < |b| && Ids(b)[i] == id;
        assert b[i] in Elements(a);
        var j :| 0 <= j < |a| && a[j] == b[i];
        assert Ids(a)[j] == id;
      }
    }
  }

  lemma MergedIsUnique(cs: seq<Candidate>, ds: seq<Candidate>, c: Candidate, d: Candidate)
    requires multiset(cs) == multiset(ds) && IsMerged(cs, c) && IsMerged(ds, d) && c.docId == d.docId
    ensures c == d
  {
    FilterPermutation(cs, ds, WithId(c.docId));
    hide Filter;
    SameListings(Filter(cs, WithId(c.docId)), Filter(ds, WithId(c.docId)));
  }

  lemma SameListings(a: seq<Candidate>, b: seq<Candidate>)
    requires multiset(a) == multiset(b)
    ensures |a| == |b| && (forall x :: x in a <==> x in b) && (|a| == 1 ==> a[0] == b[0])
  {
    forall x ensures x in a <==> x in b { assert x in multiset(a) <==> x in multiset(b); }
    assert |multiset(a)| == |multiset(b)|;
    if |a| == 1 { assert b[0] in a; }
  }

  /** The union depends on the set of listings only, not on their order or on any hash order. */
  lemma UnionIsCanonical(cs: seq<Candidate>, ds: seq<Candidate>, u: seq<Candidate>, w: seq<Candidate>)
    requires multiset(cs) == multiset(ds) && IsUnion(cs, u) && IsUnion(ds, w)
    ensures u == w
  {
    SameMultisetIds(cs, ds);
    forall c ensures c in u ==> c in w { if c in u { UnionHas(cs, ds, u, w, c); } }
    forall c ensures c in w ==> c in u { if c in w { UnionHas(ds, cs, w, u, c); } }
    hide IsMerged;
    assert Elements(u) == Elements(w);
    DescendingUnique(u, w);
  }

  lemma SameMultisetIds(cs: seq<Candidate>, ds: seq<Candidate>)
    requires multiset(cs) == multiset(ds)
    ensures Elements(Ids(cs)) == Elements(Ids(ds))
  {
    forall c ensures c in cs <==> c in ds { assert c in multiset(cs) <==> c in multiset(ds); }
    assert Elements(cs) == Elements(ds);
    SameIds(cs, ds);
  }

  lemma UnionHas(cs: seq<Candidate>, ds: seq<Candidate>, u: seq<Candidate>, w: seq<Candidate>, c: Candidate)
    requires multiset(cs) == multiset(ds) && IsUnion(cs, u) && IsUnion(ds, w) && c in u
    ensures c in w
  {
    SameMultisetIds(cs, ds);
    var i :| 0 <= i < |u| && u[i] == c;
    assert Ids(u)[i] == c.docId && c.docId in Elements(Ids(u));
    assert c.docId in Elements(Ids(w));
    var j :| 0 <= j < |w| && Ids(w)[j] == c.docId;
    MergedIsUnique(cs, ds, c, w[j]);
  }

  /** Swapping the two retrievers changes nothing. */
  lemma UnionIsSymmetric(vector: seq<Candidate>, bm25: seq<Candidate>, u: seq<Candidate>, w: seq<Candidate>)
    requires IsUnion(vector + bm25, u) && IsUnion(bm25 + vector, w)
    ensures u == w
  {
    UnionIsCanonical(vector + bm25, bm25 + vector, u, w);
  }

  /** With distinct ids in each ranking, Hybrid marks exactly the documents both retrievers found. */
  lemma HybridMeansBoth(vector: seq<Candidate>, bm25: seq<Candidate>, u: seq<Candidate>, c: Candidate)
    requires IsUnion(vector + bm25, u) && c in u
    requires Distinct(Ids(vector)) && Distinct(Ids(bm25))
    requires forall d :: d in vector + bm25 ==> d.source != Hybrid
    ensures c.source == Hybrid <==> c.docId in Ids(vector) && c.docId in Ids(bm25)
  {
    FilterConcat(vector, bm25, WithId(c.docId));
    AtMostOne(vector, c.docId);
    AtMostOne(bm25, c.docId);
    var same := Filter(vector + bm25, WithId(c.docId));
    assert same[0] in same;
  }

  lemma {:induction false} AtMostOne(cs: seq<Candidate>, id: string)
    requires Distinct(Ids(cs))
    ensures |Filter(cs, WithId(id))| == if id in Ids(cs) then 1 else 0
  {
    if cs != [] {
      assert Ids(cs)[1..] == Ids(cs[1..]);
      assert forall i, j :: 0 <= i < j < |cs| - 1 ==> Ids(cs[1..])[i] != Ids(cs[1..])[j];
      AtMostOne(cs[1..], id);
      assert Ids(cs) == [cs[0].docId] + Ids(cs[1..]);
    }
  }
}
