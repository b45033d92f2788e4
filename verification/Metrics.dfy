/** Recall and NDCG of a ranking against a query's relevant documents. */
module Metrics {
  import opened Sequences
  import opened Rearrangement

  // ----- recall

  function In(docs: set<string>): string -> bool
  {
    (id: string) => id in docs
  }

  function Hits(docs: seq<string>, relevant: set<string>): nat
  {
    |Filter(docs, In(relevant))|
  }

  function Take(docs: seq<string>, k: nat): seq<string>
  {
    docs[..Min(k, |docs|)]
  }

  /** Recall@k divides by the number of different relevant documents. */
  function RecallAt(docs: seq<string>, relevant: seq<string>, k: nat): real
  {
    if relevant == [] then 0.0
    else
      SomeElement(relevant);
      Hits(Take(docs, k), Elements(relevant)) as real / |Elements(relevant)| as real
  }

  /** The pool's recall divides by the length of the relevant list. */
  function PoolRecallAt(pool: seq<string>, relevant: seq<string>, k: nat): real
  {
    if relevant == [] then 0.0
    else Hits(Take(pool, k), Elements(relevant)) as real / |relevant| as real
  }

  /** The share of the relevant list that the whole pool holds. */
  function Coverage(pool: seq<string>, relevant: seq<string>): real
  {
    PoolRecallAt(pool, relevant, |pool|)
  }

  lemma SomeElement(s: seq<string>)
    requires s != []
    ensures |Elements(s)| > 0
  {
    assert s[0] in Elements(s);
  }

  lemma {:induction false} HitsIsIntersection(docs: seq<string>, relevant: set<string>)
    requires Distinct(docs)
    ensures Hits(docs, relevant) == |Elements(docs) * relevant|
  {
    if docs != [] {
      var x, rest := docs[0], docs[1..];
      HitsIsIntersection(rest, relevant);
      FirstElement(docs);
      hide Elements;
      IntersectOne(x, Elements(rest), relevant);
    }
  }

  lemma FirstElement(docs: seq<string>)
    requires Distinct(docs) && docs != []
    ensures Elements(docs) == {docs[0]} + Elements(docs[1..]) && docs[0] !in Elements(docs[1..])
  {
    forall x ensures x in docs <==> x == docs[0] || x in docs[1..] { }
    assert docs[0] !in docs[1..];
  }

  lemma IntersectOne(x: string, s: set<string>, relevant: set<string>)
    requires x !in s
    ensures |({x} + s) * relevant| == |s * relevant| + if x in relevant then 1 else 0
  {
    if x in relevant {
      assert ({x} + s) * relevant == s * relevant + {x};
    } else {
      assert ({x} + s) * relevant == s * relevant;
    }
  }

  lemma HitsMonotone(docs: seq<string>, pool: seq<string>, relevant: set<string>)
    requires Distinct(docs) && Distinct(pool) && Elements(docs) <= Elements(pool)
    ensures Hits(docs, relevant) <= Hits(pool, relevant)
  {
    HitsIsIntersection(docs, relevant);
    HitsIsIntersection(pool, relevant);
    SubsetSize(Elements(docs) * relevant, Elements(pool) * relevant);
  }

  lemma TakeHits(docs: seq<string>, pool: seq<string>, relevant: set<string>, k: nat)
    requires Distinct(docs) && Distinct(pool) && Elements(docs) <= Elements(pool)
    ensures Hits(Take(docs, k), relevant) <= Hits(pool, relevant)
  {
    var head := Take(docs, k);
    forall id | id in head ensures id in pool { assert id in Elements(docs) && id in Elements(pool); }
    HitsMonotone(head, pool, relevant);
  }

  lemma {:induction false} SetNoLarger(s: seq<string>)
    ensures |Elements(s)| <= |s|
    ensures |Elements(s)| == |s| ==> Distinct(s)
  {
    if s != [] {
      var n := |s| - 1;
      SetNoLarger(s[..n]);
      assert Elements(s) == Elements(s[..n]) + {s[n]};
      assert s[n] in s[..n] ==> s[n] in Elements(s[..n]);
      assert s == s[..n] + [s[n]];
      hide Elements;
    }
  }

  /** A selection of distinct pool documents has no more recall than the pool has coverage. */
  lemma RecallUnderCoverage(docs: seq<string>, pool: seq<string>, relevant: seq<string>, k: nat)
    requires Distinct(docs) && Distinct(pool) && Elements(docs) <= Elements(pool) && Distinct(relevant)
    ensures RecallAt(docs, relevant, k) <= Coverage(pool, relevant)
  {
    if relevant != [] {
      SomeElement(relevant);
      DistinctCardinality(relevant);
      TakeHits(docs, pool, Elements(relevant), k);
      assert Take(pool, |pool|) == pool;
      DivideMonotone(Hits(Take(docs, k), Elements(relevant)), Hits(pool, Elements(relevant)), |relevant|);
    }
  }

  lemma DivideMonotone(a: nat, b: nat, n: nat)
    requires a <= b && n > 0
    ensures a as real / n as real <= b as real / n as real
  {
  }

  /**
   The bound holds for every selection exactly when the relevant list repeats nothing, or
   the pool holds nothing relevant: recall divides by the size of the set, coverage by the
   length of the list.
   */
  lemma CeilingHoldsIff(pool: seq<string>, relevant: seq<string>)
    requires Distinct(pool)
    ensures (forall docs, k :: Distinct(docs) && Elements(docs) <= Elements(pool) ==> RecallAt(docs, relevant, k) <= Coverage(pool, relevant))
            <==> Distinct(relevant) || Hits(pool, Elements(relevant)) == 0
  {
    var hits := Hits(pool, Elements(relevant));
    assert Take(pool, |pool|) == pool;
    if Distinct(relevant) {
      forall docs, k | Distinct(docs) && Elements(docs) <= Elements(pool)
        ensures RecallAt(docs, relevant, k) <= Coverage(pool, relevant)
      {
        RecallUnderCoverage(docs, pool, relevant, k);
      }
    } else if hits == 0 {
      forall docs, k | Distinct(docs) && Elements(docs) <= Elements(pool)
        ensures RecallAt(docs, relevant, k) <= Coverage(pool, relevant)
      {
        TakeHits(docs, pool, Elements(relevant), k);
        SomeElement(relevant);
      }
    } else {
      SomeElement(relevant);
      SetNoLarger(relevant);
      StrictDivide(hits, |Elements(relevant)|, |relevant|);
      assert RecallAt(pool, relevant, |pool|) > Coverage(pool, relevant);
    }
  }

  lemma StrictDivide(h: nat, m: nat, n: nat)
    requires h > 0 && 0 < m < n
    ensures h as real / m as real > h as real / n as real
  {
    SmallerDivisor(h as real, m as real, n as real);
  }

  // ----- NDCG with rank-graded gains

  type Gains = map<string, real>

  function GainOf(gains: Gains, id: string): real
  {
    if id in gains then gains[id] else 0.0
  }

  function GainsOf(gains: Gains, docs: seq<string>): (g: seq<real>)
    ensures |g| == |docs| && forall i :: 0 <= i < |docs| ==> g[i] == GainOf(gains, docs[i])
  {
    seq(|docs|, i requires 0 <= i < |docs| => GainOf(gains, docs[i]))
  }

  function PlaceGain(i: nat): (g: real)
    ensures g > 0.0
  {
    1.0 / (i + 1) as real
  }

  lemma PlaceGainFalls(i: nat, j: nat)
    requires i < j
    ensures PlaceGain(i) > PlaceGain(j)
  {
    SmallerDivisor(1.0, (i + 1) as real, (j + 1) as real);
  }

  /** The document at place `i` of the ground truth gains `1 / (i + 1)`; a repeated one keeps its last place. */
  function RankGains(relevant: seq<string>): Gains
  {
    if relevant == [] then map[]
    else RankGains(relevant[..|relevant| - 1])[relevant[|relevant| - 1] := PlaceGain(|relevant| - 1)]
  }

  function IdealGains(n: nat): (g: seq<real>)
    ensures |g| == n && forall i :: 0 <= i < n ==> g[i] == PlaceGain(i)
  {
    seq(n, i requires 0 <= i < n => PlaceGain(i))
  }

  function Ndcg(docs: seq<string>, relevant: seq<string>, k: nat, disc: nat -> real): real
    requires IsDiscount(disc)
  {
    if relevant == [] then 0.0
    else
      var dcg := Discounted(GainsOf(RankGains(relevant), Take(docs, k)), disc);
      var idcg := Discounted(IdealGains(Min(|relevant|, k)), disc);
      if idcg > 0.0 then dcg / idcg else 0.0
  }

  lemma {:induction false} RankGainsAt(relevant: seq<string>, i: nat)
    requires Distinct(relevant) && i < |relevant|
    ensures relevant[i] in RankGains(relevant) && RankGains(relevant)[relevant[i]] == PlaceGain(i)
  {
    var n := |relevant| - 1;
    if i < n {
      RankGainsAt(relevant[..n], i);
    }
  }

  lemma {:induction false} RankGainsKeys(relevant: seq<string>)
    ensures RankGains(relevant).Keys == Elements(relevant)
  {
    if relevant != [] {
      var n := |relevant| - 1;
      RankGainsKeys(relevant[..n]);
      assert Elements(relevant) == Elements(relevant[..n]) + {relevant[n]};
    }
  }

  /** Distinct documents take each available gain at most once, and zeros. */
  lemma {:induction false} GainsArePart(gains: Gains, docs: seq<string>, listed: seq<string>)
    requires Distinct(docs) && Distinct(listed)
    requires forall id :: id in docs && id in gains ==> id in listed
    ensures multiset(GainsOf(gains, docs)) <= multiset(GainsOf(gains, listed) + Zeros(|docs|))
  {
    if docs != [] {
      var n := |docs| - 1;
      var x, init := docs[n], docs[..n];
      assert GainsOf(gains, docs) == GainsOf(gains, init) + [GainOf(gains, x)];
      assert Zeros(n + 1) == Zeros(n) + [0.0];
      if x in gains {
        var k, rest := RemoveOne(listed, x);
        GainsArePart(gains, init, rest);
        GainsWithout(gains, listed, k);
      } else {
        GainsArePart(gains, init, listed);
      }
    }
  }

  lemma GainsWithout(gains: Gains, listed: seq<string>, k: nat)
    requires k < |listed|
    ensures multiset(GainsOf(gains, listed)) ==
            multiset(GainsOf(gains, listed[..k] + listed[k + 1..])) + multiset{GainOf(gains, listed[k])}
  {
    var g := GainsOf(gains, listed);
    assert GainsOf(gains, listed[..k] + listed[k + 1..]) == g[..k] + g[k + 1..];
    assert g == g[..k] + [g[k]] + g[k + 1..];
  }

  lemma IdealGainsFall(n: nat)
    ensures NonIncreasing(IdealGains(n)) && forall i :: 0 <= i < n ==> IdealGains(n)[i] > 0.0
  {
    forall i, j | 0 <= i < j < n ensures IdealGains(n)[i] >= IdealGains(n)[j] {
      PlaceGainFalls(i, j);
    }
  }

  lemma GroundTruthIsIdeal(relevant: seq<string>)
    requires Distinct(relevant)
    ensures GainsOf(RankGains(relevant), relevant) == IdealGains(|relevant|)
  {
    forall i | 0 <= i < |relevant| ensures GainOf(RankGains(relevant), relevant[i]) == PlaceGain(i) {
      RankGainsAt(relevant, i);
    }
  }

  lemma {:induction false} DiscountedNonNegative(g: seq<real>, disc: nat -> real)
    requires IsDiscount(disc) && NonNegative(g)
    ensures 0.0 <= Discounted(g, disc)
  {
    if g != [] {
      DiscountedNonNegative(g[..|g| - 1], disc);
      assert g[|g| - 1] / disc(|g| - 1) >= 0.0;
    }
  }

  lemma GainsNonNegative(gains: Gains, docs: seq<string>)
    requires forall id :: id in gains ==> gains[id] >= 0.0
    ensures NonNegative(GainsOf(gains, docs))
  {
  }

  lemma RankGainsPositive(relevant: seq<string>)
    requires Distinct(relevant)
    ensures forall id :: id in RankGains(relevant) ==> RankGains(relevant)[id] > 0.0
  {
    RankGainsKeys(relevant);
    forall id | id in RankGains(relevant) ensures RankGains(relevant)[id] > 0.0 {
      assert id in Elements(relevant);
      var i :| 0 <= i < |relevant| && relevant[i] == id;
      RankGainsAt(relevant, i);
    }
  }

  /** The two sums of NDCG: the ranking's never exceeds the ideal one. */
  lemma NdcgSums(docs: seq<string>, relevant: seq<string>, k: nat, disc: nat -> real)
    requires IsDiscount(disc) && Distinct(docs) && Distinct(relevant)
    ensures
      var a, n := GainsOf(RankGains(relevant), Take(docs, k)), Min(|relevant|, k);
      && 0.0 <= Discounted(a, disc) <= Discounted(IdealGains(n), disc)
      && (n > 0 ==> Discounted(IdealGains(n), disc) > 0.0)
      && (Discounted(a, disc) == Discounted(IdealGains(n), disc) <==> StartsWith(a, IdealGains(n)))
  {
    hide RankGains, Discounted, StartsWith;
    TakenGainsArePart(docs, relevant, k);
    RankGainsPositive(relevant);
    GainsNonNegative(RankGains(relevant), Take(docs, k));
    PlacementBounds(GainsOf(RankGains(relevant), Take(docs, k)), |relevant|, k, disc);
  }

  lemma PlacementBounds(a: seq<real>, available: nat, k: nat, disc: nat -> real)
    requires IsDiscount(disc) && NonNegative(a) && |a| <= k
    requires multiset(a) <= multiset(IdealGains(available) + Zeros(|a|))
    ensures
      var n := Min(available, k);
      && 0.0 <= Discounted(a, disc) <= Discounted(IdealGains(n), disc)
      && (n > 0 ==> Discounted(IdealGains(n), disc) > 0.0)
      && (Discounted(a, disc) == Discounted(IdealGains(n), disc) <==> StartsWith(a, IdealGains(n)))
  {
    hide Discounted, StartsWith, PlaceGain, NonIncreasing;
    var b, n := IdealGains(available), Min(available, k);
    DiscountedNonNegative(a, disc);
    IdealSum(n, disc);
    IdealGainsFall(available);
    IdealPrefix(available, n);
    assert Min(k, |b|) == n;
    BestPlacement(a, b, k, disc);
  }

  lemma IdealPrefix(available: nat, n: nat)
    requires n <= available
    ensures IdealGains(available)[..n] == IdealGains(n)
  {
  }

  lemma IdealSum(n: nat, disc: nat -> real)
    requires IsDiscount(disc)
    ensures n > 0 ==> Discounted(IdealGains(n), disc) > 0.0
  {
    IdealGainsFall(n);
    DiscountedGrows(IdealGains(n), n, disc);
  }

  lemma TakenGainsArePart(docs: seq<string>, relevant: seq<string>, k: nat)
    requires Distinct(docs) && Distinct(relevant)
    ensures
      var a := GainsOf(RankGains(relevant), Take(docs, k));
      |a| <= k && multiset(a) <= multiset(IdealGains(|relevant|) + Zeros(|a|))
  {
    var gains, head := RankGains(relevant), Take(docs, k);
    RankGainsKeys(relevant);
    forall id | id in head && id in gains ensures id in relevant { assert id in Elements(relevant); }
    GainsArePart(gains, head, relevant);
    GroundTruthIsIdeal(relevant);
  }

  /** The gains are the ideal ones exactly when the documents are the ground truth's own prefix. */
  lemma IdealMeansPrefix(docs: seq<string>, relevant: seq<string>, k: nat)
    requires Distinct(docs) && Distinct(relevant)
    ensures
      var a, n := GainsOf(RankGains(relevant), Take(docs, k)), Min(|relevant|, k);
      StartsWith(a, IdealGains(n)) <==> (n <= |docs| && docs[..n] == relevant[..n])
  {
    var n := Min(|relevant|, k);
    if StartsWith(GainsOf(RankGains(relevant), Take(docs, k)), IdealGains(n)) {
      PrefixOfIdeal(docs, relevant, k);
    }
    hide RankGains, GainsOf, StartsWith, IdealGains;
    if n <= |docs| && docs[..n] == relevant[..n] {
      IdealOfPrefix(docs, relevant, k);
    }
  }

  lemma PrefixOfIdeal(docs: seq<string>, relevant: seq<string>, k: nat)
    requires Distinct(docs) && Distinct(relevant)
    requires StartsWith(GainsOf(RankGains(relevant), Take(docs, k)), IdealGains(Min(|relevant|, k)))
    ensures
      var n := Min(|relevant|, k);
      n <= |docs| && docs[..n] == relevant[..n]
  {
    hide RankGains, PlaceGain, GainOf, GainsOf, IdealGains, StartsWith, Distinct;
    var n := Min(|relevant|, k);
    var a := GainsOf(RankGains(relevant), Take(docs, k));
    StartsAt(a, IdealGains(n));
    forall i | 0 <= i < n ensures docs[i] == relevant[i] {
      assert a[i] == IdealGains(n)[i];
      GainFixesPlace(relevant, docs[i], i);
    }
  }

  lemma StartsAt(a: seq<real>, ideal: seq<real>)
    requires StartsWith(a, ideal)
    ensures |ideal| <= |a| && forall i :: 0 <= i < |ideal| ==> a[i] == ideal[i]
  {
    forall i | 0 <= i < |ideal| ensures a[i] == ideal[i] { assert (ideal + Zeros(|a| - |ideal|))[i] == ideal[i]; }
  }

  lemma GainIs(gains: Gains, id: string)
    requires id in gains
    ensures GainOf(gains, id) == gains[id]
  {
  }

  lemma IdealOfPrefix(docs: seq<string>, relevant: seq<string>, k: nat)
    requires Distinct(docs) && Distinct(relevant)
    requires Min(|relevant|, k) <= |docs| && docs[..Min(|relevant|, k)] == relevant[..Min(|relevant|, k)]
    ensures StartsWith(GainsOf(RankGains(relevant), Take(docs, k)), IdealGains(Min(|relevant|, k)))
  {
    hide RankGains, PlaceGain, GainOf, GainsOf, IdealGains, Distinct;
    var n := Min(|relevant|, k);
    var a := GainsOf(RankGains(relevant), Take(docs, k));
    forall i | 0 <= i < |a| ensures a[i] == (IdealGains(n) + Zeros(|a| - n))[i] {
      if i < n {
        assert docs[..n][i] == relevant[..n][i];
        RankGainsAt(relevant, i);
        GainIs(RankGains(relevant), relevant[i]);
      } else {
        OutsidePrefix(docs, relevant, i);
      }
    }
  }

  lemma GainFixesPlace(relevant: seq<string>, id: string, i: nat)
    requires Distinct(relevant) && i < |relevant|
    requires GainOf(RankGains(relevant), id) == PlaceGain(i)
    ensures id == relevant[i]
  {
    hide RankGains, PlaceGain;
    RankGainsKeys(relevant);
    assert id in Elements(relevant);
    var j :| 0 <= j < |relevant| && relevant[j] == id;
    RankGainsAt(relevant, j);
    if i < j { PlaceGainFalls(i, j); }
    if j < i { PlaceGainFalls(j, i); }
  }

  lemma OutsidePrefix(docs: seq<string>, relevant: seq<string>, i: nat)
    requires Distinct(docs) && |relevant| <= i < |docs| && docs[..|relevant|] == relevant
    ensures GainOf(RankGains(relevant), docs[i]) == 0.0
  {
    RankGainsKeys(relevant);
    assert forall j :: 0 <= j < |relevant| ==> relevant[j] == docs[j];
  }

  /**
   NDCG@k lies between 0 and 1, and for k >= 1 it is 1 exactly when the ranking starts with
   the ground truth's own first min(n, k) documents in order.
   */
  lemma NdcgBounds(docs: seq<string>, relevant: seq<string>, k: nat, disc: nat -> real)
    requires IsDiscount(disc) && Distinct(docs) && Distinct(relevant)
    ensures 0.0 <= Ndcg(docs, relevant, k, disc) <= 1.0
    ensures relevant != [] && k >= 1 ==>
      var n := Min(|relevant|, k);
      Ndcg(docs, relevant, k, disc) == 1.0 <==> n <= |docs| && docs[..n] == relevant[..n]
  {
    if relevant != [] {
      NdcgSums(docs, relevant, k, disc);
      IdealMeansPrefix(docs, relevant, k);
      var dcg := Discounted(GainsOf(RankGains(relevant), Take(docs, k)), disc);
      var idcg := Discounted(IdealGains(Min(|relevant|, k)), disc);
      if idcg > 0.0 { RatioBounds(dcg, idcg); }
    }
  }

  lemma RatioBounds(x: real, y: real)
    requires 0.0 <= x <= y && y > 0.0
    ensures 0.0 <= x / y <= 1.0 && (x / y == 1.0 <==> x == y)
  {
  }
}
