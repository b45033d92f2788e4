/**
 Rankings: `rank` sorts by score, highest first, with the document id as tie-break, and
 numbers the result.
 */
module Ranking {
  import opened Sequences
  import opened StableSort
  import opened Text

  datatype Source = Vector | BM25 | Hybrid | Reranked
  datatype Candidate = Candidate(docId: string, score: real, source: Source)
  datatype SelectorResult = SelectorResult(docId: string, score: real, rank: nat, source: Source)

  function Ids(cs: seq<Candidate>): (ids: seq<string>)
    ensures |ids| == |cs| && forall i :: 0 <= i < |cs| ==> ids[i] == cs[i].docId
  {
    seq(|cs|, i requires 0 <= i < |cs| => cs[i].docId)
  }

  function Docs(r: seq<SelectorResult>): (docs: seq<string>)
    ensures |docs| == |r| && forall i :: 0 <= i < |r| ==> docs[i] == r[i].docId
  {
    seq(|r|, i requires 0 <= i < |r| => r[i].docId)
  }

  function Number(cs: seq<Candidate>): (r: seq<SelectorResult>)
    ensures |r| == |cs|
    ensures forall i :: 0 <= i < |cs| ==> r[i] == SelectorResult(cs[i].docId, cs[i].score, i, cs[i].source)
  {
    seq(|cs|, i requires 0 <= i < |cs| => SelectorResult(cs[i].docId, cs[i].score, i, cs[i].source))
  }

  /** The comparator of `rank` and `sort_by_score_desc`. */
  predicate RankLeq(a: Candidate, b: Candidate)
  {
    a.score > b.score || (a.score == b.score && IdLeq(a.docId, b.docId))
  }

  /** Strictly ahead: a higher score, or the same score and a smaller id. */
  predicate Ahead(a: Candidate, b: Candidate)
  {
    a.score > b.score || (a.score == b.score && a.docId != b.docId && IdLeq(a.docId, b.docId))
  }

  ghost predicate Descending(cs: seq<Candidate>)
  {
    Sorted(cs, Ahead)
  }

  function SortCandidates(cs: seq<Candidate>): seq<Candidate>
  {
    SortBy(cs, RankLeq)
  }

  function Rank(items: seq<Candidate>): seq<SelectorResult>
  {
    Number(SortCandidates(items))
  }

  lemma RankOrderIsTotal()
    ensures TotalPreorder(RankLeq)
  {
    forall a, b ensures RankLeq(a, b) || RankLeq(b, a) { IdTotal(a.docId, b.docId); }
    forall a, b, c | RankLeq(a, b) && RankLeq(b, c) ensures RankLeq(a, c) {
      if a.score == b.score == c.score { IdTransitive(a.docId, b.docId, c.docId); }
    }
  }

  lemma AheadIsIrreflexive(a: Candidate, b: Candidate)
    requires Ahead(a, b)
    ensures a.docId != b.docId || a.score != b.score
    ensures !Ahead(b, a)
  {
    if a.score == b.score && IdLeq(b.docId, a.docId) { IdAntisymmetric(a.docId, b.docId); }
  }

  /** Sorting candidates with distinct ids orders them strictly. */
  lemma SortDescends(cs: seq<Candidate>)
    requires Distinct(Ids(cs))
    ensures Descending(SortCandidates(cs)) && multiset(SortCandidates(cs)) == multiset(cs)
    ensures |SortCandidates(cs)| == |cs| && Distinct(Ids(SortCandidates(cs)))
    ensures Elements(SortCandidates(cs)) == Elements(cs)
  {
    RankOrderIsTotal();
    var sorted := SortCandidates(cs);
    SortCorrect(cs, RankLeq);
    forall c ensures c in sorted <==> c in cs { assert c in multiset(sorted) <==> c in multiset(cs); }
    DistinctIdsPermute(cs, sorted);
    forall i, j | 0 <= i < j < |sorted| ensures Ahead(sorted[i], sorted[j]) {
      assert Ids(sorted)[i] != Ids(sorted)[j];
    }
  }

  lemma DistinctIdsPermute(a: seq<Candidate>, b: seq<Candidate>)
    requires Distinct(Ids(a)) && multiset(a) == multiset(b)
    ensures Distinct(Ids(b))
  {
    forall i, j | 0 <= i < j < |a| ensures a[i] != a[j] { assert Ids(a)[i] != Ids(a)[j]; }
    DistinctPermutation(a, b);
    forall i, j | 0 <= i < j < |b| ensures Ids(b)[i] != Ids(b)[j] {
      assert b[i] in multiset(a) && b[j] in multiset(a);
      var k, l :| 0 <= k < |a| && 0 <= l < |a| && a[k] == b[i] && a[l] == b[j];
      assert k != l && Ids(a)[k] != Ids(a)[l];
    }
  }

  /** A set of candidates has one strict order. */
  lemma DescendingUnique(a: seq<Candidate>, b: seq<Candidate>)
    requires Descending(a) && Descending(b) && Elements(a) == Elements(b)
    ensures a == b
  {
    DescendingDistinct(a);
    DescendingDistinct(b);
    SameElements(a, b);
    forall x, y | Ahead(x, y) ensures !Ahead(y, x) { AheadIsIrreflexive(x, y); }
    SortedUnique(a, b, Ahead);
  }

  lemma DescendingDistinct(a: seq<Candidate>)
    requires Descending(a)
    ensures Distinct(a)
  {
    forall i, j | 0 <= i < j < |a| ensures a[i] != a[j] { AheadIsIrreflexive(a[i], a[j]); }
  }

  /**
   `rank` is canonical: whatever order items with distinct ids arrive in, such as the order
   of a hash map, the ranking is the same.
   */
  lemma RankIsCanonical(a: seq<Candidate>, b: seq<Candidate>)
    requires multiset(a) == multiset(b) && Distinct(Ids(a))
    ensures Rank(a) == Rank(b)
  {
    DistinctIdsPermute(a, b);
    SortDescends(a);
    SortDescends(b);
    forall c ensures c in a <==> c in b { assert c in multiset(a) <==> c in multiset(b); }
    assert Elements(a) == Elements(b);
    DescendingUnique(SortCandidates(a), SortCandidates(b));
  }

  // ----- rankings of a score table

  /** `cs` lists the score table, once per document. */
  ghost predicate Lists(scores: map<string, real>, source: Source, cs: seq<Candidate>)
  {
    && Distinct(Ids(cs))
    && Elements(Ids(cs)) == scores.Keys
    && forall c :: c in cs ==> c.docId in scores && c == Candidate(c.docId, scores[c.docId], source)
  }

  /** `r` ranks the score table: every document once, best first, numbered from 0. */
  ghost predicate Ranks(scores: map<string, real>, source: Source, r: seq<SelectorResult>)
  {
    exists cs :: Lists(scores, source, cs) && Descending(cs) && r == Number(cs)
  }

  lemma ListsElements(scores: map<string, real>, source: Source, cs: seq<Candidate>)
    requires Lists(scores, source, cs)
    ensures forall c :: c in cs <==> c.docId in scores && c == Candidate(c.docId, scores[c.docId], source)
  {
    forall c: Candidate | c.docId in scores && c == Candidate(c.docId, scores[c.docId], source) ensures c in cs {
      assert c.docId in Elements(Ids(cs));
      var i :| 0 <= i < |cs| && Ids(cs)[i] == c.docId;
      assert cs[i] in cs;
    }
  }

  /** The ranking of a score table is unique. */
  lemma RanksUnique(scores: map<string, real>, source: Source, r: seq<SelectorResult>, s: seq<SelectorResult>)
    requires Ranks(scores, source, r) && Ranks(scores, source, s)
    ensures r == s
  {
    var a :| Lists(scores, source, a) && Descending(a) && r == Number(a);
    var b :| Lists(scores, source, b) && Descending(b) && s == Number(b);
    ListsElements(scores, source, a);
    ListsElements(scores, source, b);
    hide Lists;
    DescendingUnique(a, b);
  }

  /** The ranked documents are the keys of the table, each once. */
  lemma RanksDocs(scores: map<string, real>, source: Source, r: seq<SelectorResult>)
    requires Ranks(scores, source, r)
    ensures Distinct(Docs(r)) && Elements(Docs(r)) == scores.Keys
  {
    var cs :| Lists(scores, source, cs) && Descending(cs) && r == Number(cs);
    assert Docs(r) == Ids(cs);
  }

  /** Turn a score table into items in whatever order its keys come, then rank them. */
  method RankTable(scores: map<string, real>, source: Source) returns (r: seq<SelectorResult>)
    ensures Ranks(scores, source, r)
  {
    var items: seq<Candidate> := [];
    var rest := scores.Keys;
    while rest != {}
      invariant rest <= scores.Keys
      invariant Lists(map id | id in scores && id !in rest :: scores[id], source, items)
      decreases rest
    {
      var id :| id in rest;
      ListOneMore(scores, rest, source, items, id);
      items := items + [Candidate(id, scores[id], source)];
      rest := rest - {id};
    }
    assert (map id | id in scores && id !in rest :: scores[id]) == scores;
    RankLists(scores, source, items);
    r := Rank(items);
  }

  lemma ListOneMore(scores: map<string, real>, rest: set<string>, source: Source, items: seq<Candidate>, id: string)
    requires rest <= scores.Keys && id in rest
    requires Lists(map k | k in scores && k !in rest :: scores[k], source, items)
    ensures Lists(map k | k in scores && k !in rest - {id} :: scores[k], source, items + [Candidate(id, scores[id], source)])
  {
    var more := items + [Candidate(id, scores[id], source)];
    assert id !in Elements(Ids(items));
    assert Ids(more) == Ids(items) + [id];
    assert Elements(Ids(more)) == Elements(Ids(items)) + {id};
  }

  lemma RankLists(scores: map<string, real>, source: Source, items: seq<Candidate>)
    requires Lists(scores, source, items)
    ensures Ranks(scores, source, Rank(items))
  {
    SortDescends(items);
    var cs := SortCandidates(items);
    ListsElements(scores, source, items);
    forall c ensures c in cs <==> c in items { assert c in Elements(cs) <==> c in Elements(items); }
    assert Elements(Ids(cs)) == scores.Keys by {
      forall id ensures id in Elements(Ids(cs)) <==> id in scores.Keys {
        if id in scores.Keys {
          var c := Candidate(id, scores[id], source);
          var i :| 0 <= i < |cs| && cs[i] == c;
          assert Ids(cs)[i] == id;
        }
      }
    }
    assert Lists(scores, source, cs);
  }
}
