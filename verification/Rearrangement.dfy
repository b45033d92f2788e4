/**
 The strict rearrangement inequality behind NDCG: discounted by strictly growing weights,
 no placement of distinct gains beats the descending one, and only it reaches the maximum.
 */
module Rearrangement {
  import opened Sequences

  /** What is used of `log2(i + 2)`: positive and strictly increasing. */
  ghost predicate IsDiscount(disc: nat -> real)
  {
    (forall i :: disc(i) > 0.0) && (forall i, j :: i < j ==> disc(i) < disc(j))
  }

  function Discounted(gains: seq<real>, disc: nat -> real): real
    requires forall i :: 0 <= i < |gains| ==> disc(i) != 0.0
  {
    if gains == [] then 0.0
    else Discounted(gains[..|gains| - 1], disc) + gains[|gains| - 1] / disc(|gains| - 1)
  }

  ghost predicate NonIncreasing(b: seq<real>)
  {
    forall i, j :: 0 <= i < j < |b| ==> b[i] >= b[j]
  }

  ghost predicate NonNegative(b: seq<real>)
  {
    forall i :: 0 <= i < |b| ==> b[i] >= 0.0
  }

  // ----- summation by parts

  lemma SmallerDivisor(x: real, c: real, d: real)
    requires x >= 0.0 && 0.0 < c < d
    ensures x / c >= x / d && (x > 0.0 ==> x / c > x / d)
  {
    if x > 0.0 {
      assert x / c == (x / c / d) * d && x / d == (x / c / d) * c;
      assert x / c / d > 0.0;
    }
  }

  /**
   One more position: `D` and `P` are the differences of the discounted and the plain sums
   so far, `x` and `y` the next entries, `c` and `d` the discounts before and at them.
   */
  lemma AbelStep(D: real, P: real, x: real, y: real, c: real, d: real)
    requires 0.0 < c < d && P >= 0.0 && P + y - x >= 0.0 && D >= 0.0 && D >= P / c
    ensures D + y / d - x / d >= (P + y - x) / d >= 0.0
    ensures D + y / d - x / d == 0.0 && P == 0.0 ==> D == 0.0 && x == y
    ensures D + y / d - x / d == 0.0 ==> D == 0.0
  {
    SmallerDivisor(P, c, d);
    assert y / d - x / d == (P + y - x) / d - P / d;
    assert (P + y - x) / d >= 0.0;
    if P == 0.0 && D == 0.0 && y / d - x / d == 0.0 {
      assert (y - x) / d == 0.0;
    }
  }

  /** `b` is ahead of `a` in every prefix sum. */
  ghost predicate Dominates(b: seq<real>, a: seq<real>)
  {
    |a| == |b| && forall t :: 0 <= t <= |a| ==> Sum(a[..t]) <= Sum(b[..t])
  }

  lemma DominatesPrefix(b: seq<real>, a: seq<real>)
    requires Dominates(b, a) && a != []
    ensures Dominates(b[..|b| - 1], a[..|a| - 1])
    ensures Sum(a) <= Sum(b) && Sum(a[..|a| - 1]) <= Sum(b[..|b| - 1])
  {
    hide Sum;
    var n := |a| - 1;
    assert a[..n + 1] == a && b[..n + 1] == b;
    forall t | 0 <= t <= n ensures Sum(a[..n][..t]) <= Sum(b[..n][..t]) {
      assert a[..n][..t] == a[..t] && b[..n][..t] == b[..t];
    }
  }

  /** A list ahead in every prefix sum has the larger discounted sum, strictly unless they are equal. */
  lemma {:induction false} Abel(a: seq<real>, b: seq<real>, disc: nat -> real)
    requires IsDiscount(disc) && Dominates(b, a)
    ensures Discounted(a, disc) <= Discounted(b, disc)
    ensures Discounted(a, disc) == Discounted(b, disc) ==> a == b
    ensures a != [] ==> Discounted(b, disc) - Discounted(a, disc) >= (Sum(b) - Sum(a)) / disc(|a| - 1)
  {
    if a != [] {
      var n := |a| - 1;
      var a', b' := a[..n], b[..n];
      DominatesPrefix(b, a);
      Abel(a', b', disc);
      var D, P := Discounted(b', disc) - Discounted(a', disc), Sum(b') - Sum(a');
      var c := if n == 0 then disc(0) / 2.0 else disc(n - 1);
      assert Sum(a) == Sum(a') + a[n] && Sum(b) == Sum(b') + b[n];
      assert Discounted(a, disc) == Discounted(a', disc) + a[n] / disc(n);
      assert Discounted(b, disc) == Discounted(b', disc) + b[n] / disc(n);
      assert a' == b' ==> P == 0.0;
      assert n == 0 ==> a' == [] && b' == [] && P == 0.0;
      hide Sum, Discounted, Dominates;
      AbelStep(D, P, a[n], b[n], c, disc(n));
      assert a == a' + [a[n]] && b == b' + [b[n]];
    }
  }

  // ----- the best choice of t gains

  lemma {:induction false} ShiftedPrefix(b: seq<real>, t: nat)
    requires NonIncreasing(b) && t < |b|
    ensures Sum(b[1..][..t]) <= Sum(b[..t])
  {
    if t > 0 {
      ShiftedPrefix(b, t - 1);
      assert b[1..][..t][..t - 1] == b[1..][..t - 1] && b[..t][..t - 1] == b[..t - 1];
    }
  }

  /** Among the gains `b`, no choice of `|a|` of them sums to more than the first ones. */
  lemma {:induction false} BestChoice(a: seq<real>, b: seq<real>)
    requires NonIncreasing(b) && multiset(a) <= multiset(b)
    ensures |a| <= |b| && Sum(a) <= Sum(b[..|a|])
    decreases |b|
  {
    SizeOfPart(a, b);
    if a != [] {
      assert b == [b[0]] + b[1..];
      assert NonIncreasing(b[1..]);
      if b[0] in a {
        var k, rest := RemoveOne(a, b[0]);
        PartWithoutHead(rest, a, b);
        BestChoice(rest, b[1..]);
        SumWithout(a, k);
        SumHead(b[..|a|]);
        assert b[..|a|][1..] == b[1..][..|rest|];
      } else {
        PartOfTail(a, b);
        BestChoice(a, b[1..]);
        ShiftedPrefix(b, |a|);
      }
    }
  }

  lemma PartWithoutHead(rest: seq<real>, a: seq<real>, b: seq<real>)
    requires b != [] && multiset(a) <= multiset(b) && multiset(a) == multiset(rest) + multiset{b[0]}
    ensures multiset(rest) <= multiset(b[1..])
  {
    assert b == [b[0]] + b[1..];
    forall x ensures multiset(rest)[x] <= multiset(b[1..])[x] {
      assert multiset(a)[x] <= multiset(b)[x];
      assert multiset(b)[x] == multiset(b[1..])[x] + if x == b[0] then 1 else 0;
    }
  }

  lemma SizeOfPart(a: seq<real>, b: seq<real>)
    requires multiset(a) <= multiset(b)
    ensures |a| <= |b|
  {
    assert multiset(b) == multiset(a) + (multiset(b) - multiset(a));
    assert |multiset(b)| == |multiset(a)| + |multiset(b) - multiset(a)|;
  }

  lemma PartOfTail(a: seq<real>, b: seq<real>)
    requires b != [] && multiset(a) <= multiset(b) && b[0] !in a
    ensures multiset(a) <= multiset(b[1..])
  {
    assert b == [b[0]] + b[1..];
    assert b[0] !in multiset(a);
    forall x ensures multiset(a)[x] <= multiset(b[1..])[x] {
      assert multiset(b)[x] == multiset(b[1..])[x] + if x == b[0] then 1 else 0;
    }
  }

  lemma SumWithout(a: seq<real>, k: nat)
    requires k < |a|
    ensures Sum(a) == Sum(a[..k] + a[k + 1..]) + a[k]
  {
    hide Sum;
    assert a == a[..k] + [a[k]] + a[k + 1..];
    SumConcat(a[..k] + [a[k]], a[k + 1..]);
    SumAppend(a[..k], a[k]);
    SumConcat(a[..k], a[k + 1..]);
  }

  /** The placement inequality: any arrangement of part of `b` is dominated by `b`'s own prefix. */
  lemma PlacementDominated(a: seq<real>, b: seq<real>)
    requires NonIncreasing(b) && multiset(a) <= multiset(b)
    ensures |a| <= |b| && Dominates(b[..|a|], a)
  {
    BestChoice(a, b);
    forall t | 0 <= t <= |a| ensures Sum(a[..t]) <= Sum(b[..|a|][..t]) {
      assert a == a[..t] + a[t..];
      assert multiset(a[..t]) <= multiset(a);
      BestChoice(a[..t], b);
      assert b[..|a|][..t] == b[..t];
    }
  }

  function Zeros(n: nat): seq<real>
  {
    seq(n, _ => 0.0)
  }

  /** `a` is `ideal`, padded with zeros. */
  ghost predicate StartsWith(a: seq<real>, ideal: seq<real>)
  {
    |ideal| <= |a| && a == ideal + Zeros(|a| - |ideal|)
  }

  lemma DiscountedSnoc(g: seq<real>, x: real, disc: nat -> real)
    requires IsDiscount(disc)
    ensures Discounted(g + [x], disc) == Discounted(g, disc) + x / disc(|g|)
  {
    assert (g + [x])[..|g|] == g;
  }

  lemma {:induction false} DiscountedZeros(b: seq<real>, n: nat, disc: nat -> real)
    requires IsDiscount(disc)
    ensures Discounted(b + Zeros(n), disc) == Discounted(b, disc)
  {
    hide Discounted;
    if n == 0 {
      assert b + Zeros(0) == b;
    } else {
      DiscountedZeros(b, n - 1, disc);
      assert b + Zeros(n) == b + Zeros(n - 1) + [0.0];
      DiscountedSnoc(b + Zeros(n - 1), 0.0, disc);
    }
  }

  lemma {:induction false} DiscountedGrows(b: seq<real>, m: nat, disc: nat -> real)
    requires IsDiscount(disc) && m <= |b| && forall i :: 0 <= i < |b| ==> b[i] > 0.0
    ensures Discounted(b[..m], disc) <= Discounted(b, disc)
    ensures m < |b| ==> Discounted(b[..m], disc) < Discounted(b, disc)
    ensures 0.0 <= Discounted(b, disc) && (b != [] ==> 0.0 < Discounted(b, disc))
  {
    if b != [] {
      var n := |b| - 1;
      assert b[n] / disc(n) > 0.0;
      if m <= n {
        DiscountedGrows(b[..n], m, disc);
        assert b[..n][..m] == b[..m];
      } else {
        DiscountedGrows(b[..n], n, disc);
        assert b[..m] == b;
      }
    }
  }

  /**
   The strict rearrangement inequality. `b` holds the available gains, highest first; `a`
   places some of them, each at most once, and zeros, at no more than `k` positions. Its
   discounted sum is at most that of the first `min(k, |b|)` gains in order, and reaches it
   only by starting with exactly those.
   */
  lemma BestPlacement(a: seq<real>, b: seq<real>, k: nat, disc: nat -> real)
    requires IsDiscount(disc) && NonIncreasing(b) && (forall i :: 0 <= i < |b| ==> b[i] > 0.0)
    requires |a| <= k && multiset(a) <= multiset(b + Zeros(|a|))
    ensures Discounted(a, disc) <= Discounted(b[..Min(k, |b|)], disc)
    ensures Discounted(a, disc) == Discounted(b[..Min(k, |b|)], disc) <==> StartsWith(a, b[..Min(k, |b|)])
  {
    hide Discounted, Dominates;
    var padded := b + Zeros(|a|);
    var ideal := b[..Min(k, |b|)];
    PaddedFalls(b, |a|);
    PlacementDominated(a, padded);
    Abel(a, padded[..|a|], disc);
    PaddedPrefix(b, |a|, k);
    if |ideal| <= |a| {
      DiscountedZeros(ideal, |a| - |ideal|, disc);
    } else {
      DiscountedGrows(ideal, |a|, disc);
    }
  }

  lemma PaddedFalls(b: seq<real>, n: nat)
    requires NonIncreasing(b) && forall i :: 0 <= i < |b| ==> b[i] > 0.0
    ensures NonIncreasing(b + Zeros(n))
  {
  }

  lemma PaddedPrefix(b: seq<real>, m: nat, k: nat)
    requires m <= k
    ensures
      var ideal, padded := b[..Min(k, |b|)], b + Zeros(m);
      padded[..m] == if |ideal| <= m then ideal + Zeros(m - |ideal|) else ideal[..m]
  {
  }
}
