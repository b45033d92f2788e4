/**
 The reranker's seed: FNV-1a, section 2 of draft-eastlake-fnv, over the bytes of the query
 id, mixed with a constant.
 */
module Fnv {

  const OFFSET_BASIS: bv64 := 0xcbf29ce484222325

  const STATS_SEED: bv64 := 0x5E1EC70400000001

  /** `wrapping_mul` by the FNV prime. */
  function TimesPrime(hash: bv64): bv64
  {
    hash * 0x100000001b3
  }

  /** Multiplication by the inverse of the prime modulo 2^64. */
  function TimesInverse(hash: bv64): bv64
  {
    hash * 0xce965057aff6957b
  }

  function Mask(hash: bv64, byte: bv8): bv64
  {
    hash ^ (byte as bv64)
  }

  function Absorb(hash: bv64, byte: bv8): bv64
  {
    TimesPrime(Mask(hash, byte))
  }

  function HashFrom(hash: bv64, bytes: seq<bv8>): bv64
  {
    if bytes == [] then hash else Absorb(HashFrom(hash, bytes[..|bytes| - 1]), bytes[|bytes| - 1])
  }

  function Hash(bytes: seq<bv8>): bv64
  {
    HashFrom(OFFSET_BASIS, bytes)
  }

  method Fnv1a(bytes: seq<bv8>) returns (hash: bv64)
    ensures hash == Hash(bytes)
  {
    hide Absorb;
    hash := OFFSET_BASIS;
    for i := 0 to |bytes|
      invariant hash == HashFrom(OFFSET_BASIS, bytes[..i])
    {
      assert bytes[..i + 1][..i] == bytes[..i];
      hash := Absorb(hash, bytes[i]);
    }
    assert bytes[..|bytes|] == bytes;
  }

  function Seed(queryId: seq<bv8>): bv64
  {
    STATS_SEED ^ Hash(queryId)
  }

  // ----- one step is a bijection

  lemma InverseOfProduct(h: bv64)
    ensures TimesInverse(h * 0x100000001b3) == h
  {
  }

  lemma PrimeOfProduct(h: bv64)
    ensures TimesPrime(h * 0xce965057aff6957b) == h
  {
  }

  lemma InverseAfterPrime(h: bv64)
    ensures TimesInverse(TimesPrime(h)) == h
  {
    hide TimesInverse;
    InverseOfProduct(h);
  }

  lemma PrimeAfterInverse(h: bv64)
    ensures TimesPrime(TimesInverse(h)) == h
  {
    hide TimesPrime;
    PrimeOfProduct(h);
  }

  lemma MaskTwice(h: bv64, byte: bv8)
    ensures Mask(Mask(h, byte), byte) == h
  {
  }

  lemma MasksDiffer(h: bv64, x: bv8, y: bv8)
    ensures Mask(h, x) == Mask(h, y) ==> x == y
  {
    assert (x as bv64) as bv8 == x && (y as bv64) as bv8 == y;
  }

  function Unabsorb(hash: bv64, byte: bv8): bv64
  {
    Mask(TimesInverse(hash), byte)
  }

  /** For a fixed byte a step is a bijection on 64-bit states, with an explicit inverse. */
  lemma AbsorbIsBijective(h: bv64, byte: bv8)
    ensures Unabsorb(Absorb(h, byte), byte) == h && Absorb(Unabsorb(h, byte), byte) == h
  {
    hide TimesPrime, TimesInverse, Mask;
    InverseAfterPrime(Mask(h, byte));
    MaskTwice(h, byte);
    MaskTwice(TimesInverse(h), byte);
    PrimeAfterInverse(h);
  }

  lemma BytesStayApart(h: bv64, x: bv8, y: bv8)
    requires x != y
    ensures Absorb(h, x) != Absorb(h, y)
  {
    hide TimesPrime, TimesInverse, Mask;
    MasksDiffer(h, x, y);
    InverseAfterPrime(Mask(h, x));
    InverseAfterPrime(Mask(h, y));
  }

  lemma HashConcat(h: bv64, a: seq<bv8>, x: bv8)
    ensures HashFrom(h, a + [x]) == Absorb(HashFrom(h, a), x)
  {
    hide Absorb;
    assert (a + [x])[..|a|] == a;
  }

  /** Different states stay different through any common suffix. */
  lemma {:induction false} StatesStayApart(a: seq<bv8>, b: seq<bv8>, suffix: seq<bv8>)
    requires Hash(a) != Hash(b)
    ensures Hash(a + suffix) != Hash(b + suffix)
  {
    hide Absorb, HashFrom, Unabsorb;
    if suffix == [] {
      assert a + suffix == a && b + suffix == b;
    } else {
      var n := |suffix| - 1;
      var x := suffix[n];
      StatesStayApart(a, b, suffix[..n]);
      assert suffix == suffix[..n] + [x];
      assert a + suffix == (a + suffix[..n]) + [x] && b + suffix == (b + suffix[..n]) + [x];
      HashConcat(OFFSET_BASIS, a + suffix[..n], x);
      HashConcat(OFFSET_BASIS, b + suffix[..n], x);
      AbsorbIsBijective(Hash(a + suffix[..n]), x);
      AbsorbIsBijective(Hash(b + suffix[..n]), x);
    }
  }

  /** Two query ids that differ in exactly one byte never get the same reranker seed. */
  lemma OneByteApart(a: seq<bv8>, b: seq<bv8>, k: nat)
    requires |a| == |b| && k < |a| && a[k] != b[k] && forall i :: 0 <= i < |a| && i != k ==> a[i] == b[i]
    ensures Seed(a) != Seed(b)
  {
    hide Absorb, HashFrom;
    assert a[..k] == b[..k] && a[k + 1..] == b[k + 1..];
    HashConcat(OFFSET_BASIS, a[..k], a[k]);
    HashConcat(OFFSET_BASIS, b[..k], b[k]);
    BytesStayApart(Hash(a[..k]), a[k], b[k]);
    StatesStayApart(a[..k] + [a[k]], b[..k] + [b[k]], a[k + 1..]);
    assert a == a[..k] + [a[k]] + a[k + 1..] && b == b[..k] + [b[k]] + b[k + 1..];
    MaskedApart(Hash(a), Hash(b));
  }

  lemma MaskedApart(x: bv64, y: bv64)
    requires x != y
    ensures STATS_SEED ^ x != STATS_SEED ^ y
  {
  }
}
