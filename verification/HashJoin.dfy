/** The cross-model join: a hash join against the nested-loop join it stands in for. */
module HashJoin {
  import opened Sequences
  import opened Text

  /** A unified record; `body` stands for its model, data, score and metadata. */
  datatype Unified = Unified(id: string, body: int)

  type Pair = (Unified, Unified)

  /** Collecting into a map keeps the last row of each id. */
  function Table(left: seq<Unified>): map<string, Unified>
  {
    if left == [] then map[] else Table(left[..|left| - 1])[left[|left| - 1].id := left[|left| - 1]]
  }

  /** Probe the table with every right row. */
  function HashJoined(left: seq<Unified>, right: seq<Unified>): seq<Pair>
  {
    if right == [] then []
    else
      var r := right[|right| - 1];
      HashJoined(left, right[..|right| - 1]) + if r.id in Table(left) then [(Table(left)[r.id], r)] else []
  }

  function MatchesOf(l: Unified, right: seq<Unified>): seq<Pair>
  {
    if right == [] then []
    else
      var r := right[|right| - 1];
      MatchesOf(l, right[..|right| - 1]) + if l.id == r.id then [(l, r)] else []
  }

  function NestedLoopJoined(left: seq<Unified>, right: seq<Unified>): seq<Pair>
  {
    if left == [] then []
    else NestedLoopJoined(left[..|left| - 1], right) + MatchesOf(left[|left| - 1], right)
  }

  // ----- how often each pair occurs

  lemma {:induction false} MatchCount(l: Unified, right: seq<Unified>, x: Unified, y: Unified)
    ensures multiset(MatchesOf(l, right))[(x, y)] == if x == l && l.id == y.id then multiset(right)[y] else 0
  {
    if right != [] {
      var n := |right| - 1;
      MatchCount(l, right[..n], x, y);
      CountSnoc(right, y);
    }
  }

  /** A pair of rows with the same id occurs once per left row and right row. */
  lemma {:induction false} NestedCount(left: seq<Unified>, right: seq<Unified>, x: Unified, y: Unified)
    ensures multiset(NestedLoopJoined(left, right))[(x, y)] == if x.id == y.id then multiset(left)[x] * multiset(right)[y] else 0
  {
    if left != [] {
      hide MatchesOf;
      var n := |left| - 1;
      NestedCount(left[..n], right, x, y);
      MatchCount(left[n], right, x, y);
      CountSnoc(left, x);
      OneMore(multiset(left[..n])[x], multiset(right)[y]);
      ConcatCount(NestedLoopJoined(left[..n], right), MatchesOf(left[n], right), (x, y));
    }
  }

  lemma CountSnoc(s: seq<Unified>, x: Unified)
    requires s != []
    ensures multiset(s)[x] == multiset(s[..|s| - 1])[x] + if s[|s| - 1] == x then 1 else 0
  {
    assert s == s[..|s| - 1] + [s[|s| - 1]];
  }

  lemma ConcatCount(a: seq<Pair>, b: seq<Pair>, p: Pair)
    ensures multiset(a + b)[p] == multiset(a)[p] + multiset(b)[p]
  {
  }

  lemma OneMore(a: nat, b: nat)
    ensures (a + 1) * b == a * b + b
  {
  }

  /** A pair occurs once per right row, if its left row is the one the table holds for the id. */
  lemma {:induction false} HashCount(left: seq<Unified>, right: seq<Unified>, x: Unified, y: Unified)
    ensures multiset(HashJoined(left, right))[(x, y)] == if y.id in Table(left) && Table(left)[y.id] == x then multiset(right)[y] else 0
  {
    hide Table;
    if right != [] {
      var n := |right| - 1;
      HashCount(left, right[..n], x, y);
      CountSnoc(right, y);
    }
  }

  /** The table holds exactly the left ids, each with the last left row of that id. */
  lemma {:induction false} TableIsLast(left: seq<Unified>, id: string)
    ensures id in Table(left) <==> exists i :: 0 <= i < |left| && left[i].id == id
    ensures id in Table(left) ==>
      exists i :: 0 <= i < |left| && left[i].id == id && Table(left)[id] == left[i] && forall j :: i < j < |left| ==> left[j].id != id
  {
    if left != [] {
      var n := |left| - 1;
      TableIsLast(left[..n], id);
      assert forall i :: 0 <= i < n ==> left[..n][i] == left[i];
      if left[n].id != id && id in Table(left[..n]) {
        var i :| 0 <= i < n && left[i].id == id && Table(left[..n])[id] == left[i] && forall j :: i < j < n ==> left[j].id != id;
        assert Table(left)[id] == left[i];
      }
    }
  }

  lemma TableRow(left: seq<Unified>, id: string)
    ensures id in Table(left) ==> Table(left)[id].id == id && Table(left)[id] in left
  {
    TableIsLast(left, id);
  }

  // ----- the two joins

  /** The hash join never invents a pair and never repeats one more often than the nested loop does. */
  lemma HashJoinIsPart(left: seq<Unified>, right: seq<Unified>)
    ensures multiset(HashJoined(left, right)) <= multiset(NestedLoopJoined(left, right))
  {
    hide *;
    forall p: Pair ensures multiset(HashJoined(left, right))[p] <= multiset(NestedLoopJoined(left, right))[p] {
      NestedCount(left, right, p.0, p.1);
      HashCount(left, right, p.0, p.1);
      TableRow(left, p.1.id);
      assert p == (p.0, p.1);
      if p.0 in left { AtLeast(multiset(left)[p.0], multiset(right)[p.1]); }
    }
  }

  lemma AtLeast(a: nat, b: nat)
    requires a >= 1
    ensures b <= a * b
    ensures a >= 2 && b >= 1 ==> b < a * b
  {
  }

  /** No id that occurs twice on the left occurs on the right. */
  ghost predicate NoRepeatedMatch(left: seq<Unified>, right: seq<Unified>)
  {
    forall i, j, k :: 0 <= i < j < |left| && 0 <= k < |right| && left[i].id == left[j].id ==> right[k].id != left[i].id
  }

  lemma SingleRow(left: seq<Unified>, right: seq<Unified>, x: Unified, y: Unified)
    requires NoRepeatedMatch(left, right) && x in left && y in right && x.id == y.id
    ensures multiset(left)[x] == 1 && y.id in Table(left) && Table(left)[y.id] == x
  {
    TableIsLast(left, y.id);
    hide Table;
    var k, rest := RemoveOne(left, x);
    var m :| 0 <= m < |right| && right[m] == y;
    forall i | 0 <= i < |left| && i != k ensures left[i].id != x.id { assert right[m].id == left[k].id; }
    assert x !in rest;
  }

  lemma JoinsAgree(left: seq<Unified>, right: seq<Unified>)
    requires NoRepeatedMatch(left, right)
    ensures multiset(HashJoined(left, right)) == multiset(NestedLoopJoined(left, right))
  {
    hide *;
    forall p: Pair ensures multiset(HashJoined(left, right))[p] == multiset(NestedLoopJoined(left, right))[p] {
      NestedCount(left, right, p.0, p.1);
      HashCount(left, right, p.0, p.1);
      TableRow(left, p.1.id);
      assert p == (p.0, p.1);
      Absent(left, p.0);
      Absent(right, p.1);
      if p.0 in left && p.1 in right && p.0.id == p.1.id { SingleRow(left, right, p.0, p.1); }
    }
  }

  lemma Absent(s: seq<Unified>, x: Unified)
    ensures x !in s <==> multiset(s)[x] == 0
  {
    assert x in s <==> x in multiset(s);
  }

  lemma JoinsDiffer(left: seq<Unified>, right: seq<Unified>, i: nat, j: nat, k: nat)
    requires i < j < |left| && k < |right| && left[i].id == left[j].id == right[k].id
    ensures multiset(HashJoined(left, right)) != multiset(NestedLoopJoined(left, right))
  {
    hide *;
    var y := right[k];
    Absent(right, y);
    Absent(left, left[i]);
    Absent(left, left[j]);
    // the row the table does not hold, or the row that occurs twice
    var x := if y.id in Table(left) && Table(left)[y.id] == left[i] then left[j] else left[i];
    NestedCount(left, right, x, y);
    HashCount(left, right, x, y);
    if left[i] == left[j] { Twice(left, i, j); }
    AtLeast(multiset(left)[x], multiset(right)[y]);
  }

  lemma Twice(s: seq<Unified>, i: nat, j: nat)
    requires i < j < |s| && s[i] == s[j]
    ensures multiset(s)[s[i]] >= 2
  {
    assert s == s[..j] + [s[j]] + s[j + 1..];
    assert s[i] in s[..j];
    assert s[i] in multiset(s[..j]);
  }

  /**
   The hash join returns the nested-loop join's pairs, with the same multiplicities, if and
   only if no id that repeats on the left occurs on the right.
   */
  lemma JoinsAgreeIff(left: seq<Unified>, right: seq<Unified>)
    ensures multiset(HashJoined(left, right)) == multiset(NestedLoopJoined(left, right)) <==> NoRepeatedMatch(left, right)
  {
    if NoRepeatedMatch(left, right) {
      JoinsAgree(left, right);
    } else {
      var i, j, k :| 0 <= i < j < |left| && 0 <= k < |right| && left[i].id == left[j].id && right[k].id == left[i].id;
      hide HashJoined, NestedLoopJoined;
      JoinsDiffer(left, right, i, j, k);
    }
  }

  // ----- the generator

  function RecordId(i: nat): string { "record_" + Decimal(i) }

  /** `generate_unified_records`, with the body of each record as a parameter. */
  function Generate(count: nat, body: nat -> int): (rs: seq<Unified>)
    ensures |rs| == count && forall i :: 0 <= i < count ==> rs[i] == Unified(RecordId(i), body(i))
  {
    seq(count, i requires 0 <= i < count => Unified(RecordId(i), body(i)))
  }

  /** On generated records the two joins agree. */
  lemma GeneratedJoinsAgree(m: nat, n: nat, leftBody: nat -> int, rightBody: nat -> int)
    ensures
      var left, right := Generate(m, leftBody), Generate(n, rightBody);
      multiset(HashJoined(left, right)) == multiset(NestedLoopJoined(left, right))
  {
    var left, right := Generate(m, leftBody), Generate(n, rightBody);
    forall i, j | 0 <= i < j < |left| ensures left[i].id != left[j].id {
      assert RecordId(i)[7..] == Decimal(i) && RecordId(j)[7..] == Decimal(j);
      if Decimal(i) == Decimal(j) { DecimalInjective(i, j); }
    }
    hide Generate, RecordId;
    JoinsAgreeIff(left, right);
  }
}
