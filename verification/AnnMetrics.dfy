/** NDCG for nearest-neighbour ground truth: relevance falls with distance, the ideal order is found by sorting. */
module AnnMetrics {
  import opened Sequences
  import opened StableSort
  import opened Rearrangement
  import opened Metrics

  datatype Neighbour = Neighbour(id: string, distance: real)

  ghost predicate NonNegativeDistances(truth: seq<Neighbour>)
  {
    forall i :: 0 <= i < |truth| ==> truth[i].distance >= 0.0
  }

  /** No distance is -1, where the relevance has no value. */
  ghost predicate HaveRelevance(truth: seq<Neighbour>)
  {
    forall i :: 0 <= i < |truth| ==> truth[i].distance != -1.0
  }

  /** Relevance falls with distance; a repeated id keeps its last one. */
  function Relevance(truth: seq<Neighbour>): (rel: Gains)
    requires HaveRelevance(truth)
    ensures NonNegativeDistances(truth) ==> forall id :: id in rel ==> rel[id] > 0.0
  {
    if truth == [] then map[]
    else
      var last := truth[|truth| - 1];
      assert last.distance >= 0.0 ==> 1.0 / (1.0 + last.distance) > 0.0;
      Relevance(truth[..|truth| - 1])[last.id := 1.0 / (1.0 + last.distance)]
  }

  predicate Geq(a: real, b: real)
  {
    a >= b
  }

  /** The hash map's values, highest first. `order` is the order the map yields its keys in. */
  function IdealOrder(rel: Gains, order: seq<string>): seq<real>
  {
    SortBy(GainsOf(rel, order), Geq)
  }

  ghost predicate KeyOrder(rel: Gains, order: seq<string>)
  {
    Distinct(order) && Elements(order) == rel.Keys
  }

  function SortNdcg(results: seq<string>, rel: Gains, order: seq<string>, k: nat, disc: nat -> real): real
    requires IsDiscount(disc)
  {
    if results == [] || order == [] then 0.0
    else
      var ideal := IdealOrder(rel, order);
      var dcg := Discounted(GainsOf(rel, Take(results, k)), disc);
      var idcg := Discounted(ideal[..Min(k, |ideal|)], disc);
      if idcg > 0.0 then dcg / idcg else 0.0
  }

  lemma IdealIsSorted(rel: Gains, order: seq<string>)
    ensures
      var ideal := IdealOrder(rel, order);
      |ideal| == |order| && NonIncreasing(ideal) && multiset(ideal) == multiset(GainsOf(rel, order))
  {
    SortCorrect(GainsOf(rel, order), Geq);
  }

  /** Hash order never shows: any two key orders give the same ideal list. */
  lemma IdealIsCanonical(rel: Gains, a: seq<string>, b: seq<string>)
    requires KeyOrder(rel, a) && KeyOrder(rel, b)
    ensures IdealOrder(rel, a) == IdealOrder(rel, b)
  {
    SameElements(a, b);
    GainsPermute(rel, a, b);
    SortCorrect(GainsOf(rel, a), Geq);
    SortCorrect(GainsOf(rel, b), Geq);
    SortedUnique(IdealOrder(rel, a), IdealOrder(rel, b), Geq);
  }

  lemma {:induction false} GainsPermute(rel: Gains, a: seq<string>, b: seq<string>)
    requires multiset(a) == multiset(b)
    ensures multiset(GainsOf(rel, a)) == multiset(GainsOf(rel, b))
    decreases |a|
  {
    if a == [] {
      assert |multiset(b)| == 0;
    } else {
      hide GainOf;
      var j, fewer := RemoveOne(a, a[0]);
      assert a[0] in multiset(b);
      var k, rest := RemoveOne(b, a[0]);
      assert multiset(rest) == multiset(b) - multiset{a[0]} == multiset(fewer);
      GainsPermute(rel, fewer, rest);
      GainsWithout(rel, a, j);
      GainsWithout(rel, b, k);
    }
  }

  /**
   The sort-based NDCG lies between 0 and 1 for every result list without repeats, and is 1
   exactly when the results start with the highest relevances in order.
   */
  lemma SortNdcgBounds(results: seq<string>, rel: Gains, order: seq<string>, k: nat, disc: nat -> real)
    requires IsDiscount(disc) && Distinct(results) && KeyOrder(rel, order)
    requires forall id :: id in rel ==> rel[id] > 0.0
    ensures 0.0 <= SortNdcg(results, rel, order, k, disc) <= 1.0
    ensures results != [] && order != [] && k >= 1 ==>
      var ideal := IdealOrder(rel, order);
      SortNdcg(results, rel, order, k, disc) == 1.0 <==> StartsWith(GainsOf(rel, Take(results, k)), ideal[..Min(k, |ideal|)])
  {
    if results != [] && order != [] {
      var ideal, a := IdealOrder(rel, order), GainsOf(rel, Take(results, k));
      IdealIsSorted(rel, order);
      IdealIsPositive(rel, order);
      PlacedFromIdeal(results, rel, order, k);
      GainsNonNegative(rel, Take(results, k));
      hide Discounted, StartsWith, IdealOrder;
      DiscountedNonNegative(a, disc);
      BestPlacement(a, ideal, k, disc);
      var top := ideal[..Min(k, |ideal|)];
      DiscountedGrows(top, |top|, disc);
      if Discounted(top, disc) > 0.0 { RatioBounds(Discounted(a, disc), Discounted(top, disc)); }
    }
  }

  lemma IdealIsPositive(rel: Gains, order: seq<string>)
    requires KeyOrder(rel, order) && forall id :: id in rel ==> rel[id] > 0.0
    ensures var ideal := IdealOrder(rel, order); forall i :: 0 <= i < |ideal| ==> ideal[i] > 0.0
  {
    IdealIsSorted(rel, order);
    var ideal, g := IdealOrder(rel, order), GainsOf(rel, order);
    forall i | 0 <= i < |ideal| ensures ideal[i] > 0.0 {
      assert ideal[i] in multiset(g);
      var j :| 0 <= j < |g| && g[j] == ideal[i];
      assert order[j] in Elements(order);
    }
  }

  lemma PlacedFromIdeal(results: seq<string>, rel: Gains, order: seq<string>, k: nat)
    requires Distinct(results) && KeyOrder(rel, order)
    ensures
      var a := GainsOf(rel, Take(results, k));
      |a| <= k && multiset(a) <= multiset(IdealOrder(rel, order) + Zeros(|a|))
  {
    forall id | id in rel ensures id in order { assert id in Elements(order); }
    GainsArePart(rel, Take(results, k), order);
    IdealIsSorted(rel, order);
  }

  lemma NdcgIsCanonical(results: seq<string>, rel: Gains, a: seq<string>, b: seq<string>, k: nat, disc: nat -> real)
    requires IsDiscount(disc) && KeyOrder(rel, a) && KeyOrder(rel, b)
    ensures SortNdcg(results, rel, a, k, disc) == SortNdcg(results, rel, b, k, disc)
  {
    IdealIsCanonical(rel, a, b);
    SameElements(a, b);
    assert |multiset(a)| == |multiset(b)|;
  }

  /** The loops of the source: the relevance map, the two discounted sums, the sorted values. */
  method ComputeNdcg(results: seq<string>, truth: seq<Neighbour>, k: nat, disc: nat -> real) returns (ndcg: real)
    requires IsDiscount(disc) && HaveRelevance(truth)
    ensures forall order :: KeyOrder(Relevance(truth), order) ==> ndcg == SortNdcg(results, Relevance(truth), order, k, disc)
  {
    var rel: Gains := map[];
    for i := 0 to |truth|
      invariant rel == Relevance(truth[..i])
    {
      assert truth[..i + 1][..i] == truth[..i];
      rel := rel[truth[i].id := 1.0 / (1.0 + truth[i].distance)];
    }
    assert truth[..|truth|] == truth;
    var keys := KeysOf(rel);
    forall order | KeyOrder(rel, order) ensures SortNdcg(results, rel, order, k, disc) == SortNdcg(results, rel, keys, k, disc) {
      NdcgIsCanonical(results, rel, order, keys, k, disc);
    }
    if results == [] || keys == [] {
      return 0.0;
    }
    var dcg := SumDiscounted(GainsOf(rel, Take(results, k)), disc);
    var ideal := SortBy(GainsOf(rel, keys), Geq);
    var idcg := SumDiscounted(ideal[..Min(k, |ideal|)], disc);
    ndcg := if idcg > 0.0 then dcg / idcg else 0.0;
  }

  method SumDiscounted(gains: seq<real>, disc: nat -> real) returns (sum: real)
    requires IsDiscount(disc)
    ensures sum == Discounted(gains, disc)
  {
    sum := 0.0;
    for i := 0 to |gains|
      invariant sum == Discounted(gains[..i], disc)
    {
      assert gains[..i + 1][..i] == gains[..i];
      sum := sum + gains[i] / disc(i);
    }
    assert gains[..|gains|] == gains;
  }

  method KeysOf(rel: Gains) returns (order: seq<string>)
    ensures KeyOrder(rel, order)
  {
    order := [];
    var rest := rel.Keys;
    while rest != {}
      invariant rest <= rel.Keys && Distinct(order) && Elements(order) == rel.Keys - rest
      decreases rest
    {
      var id :| id in rest;
      assert id !in Elements(order);
      assert Elements(order + [id]) == Elements(order) + {id};
      order := order + [id];
      rest := rest - {id};
    }
  }
}
