/** Little-endian fixed-width integers, as `to_le_bytes` and `from_le_bytes` lay them out. */
module LittleEndian {

  type Byte = b: int | 0 <= b < 256

  const U32_LIMIT: nat := 0x1_0000_0000
  const U64_LIMIT: nat := 0x1_0000_0000_0000_0000

  /** The number of values that fit in `width` bytes. */
  function Limit(width: nat): (r: nat)
    ensures r >= 1
  {
    if width == 0 then 1 else 256 * Limit(width - 1)
  }

  function Encode(n: nat, width: nat): (bytes: seq<Byte>)
    ensures |bytes| == width
    decreases width
  {
    if width == 0 then [] else [n % 256] + Encode(n / 256, width - 1)
  }

  function Decode(bytes: seq<Byte>): (n: nat)
    ensures n < Limit(|bytes|)
  {
    if bytes == [] then 0 else bytes[0] + 256 * Decode(bytes[1..])
  }

  lemma Widths()
    ensures Limit(4) == U32_LIMIT && Limit(8) == U64_LIMIT
  {
    assert Limit(1) == 256 && Limit(2) == 0x1_0000 && Limit(3) == 0x100_0000;
    assert Limit(5) == 256 * Limit(4) && Limit(6) == 256 * Limit(5) && Limit(7) == 256 * Limit(6);
  }

  lemma HighPart(n: nat, limit: nat)
    requires n < 256 * limit
    ensures n / 256 < limit && n == n % 256 + 256 * (n / 256)
  {
  }

  lemma {:induction false} DecodeEncode(n: nat, width: nat)
    requires n < Limit(width)
    ensures Decode(Encode(n, width)) == n
    decreases width
  {
    if width > 0 {
      HighPart(n, Limit(width - 1));
      DecodeEncode(n / 256, width - 1);
      assert Encode(n, width)[1..] == Encode(n / 256, width - 1);
    }
  }

  lemma {:induction false} EncodeDecode(bytes: seq<Byte>)
    ensures Encode(Decode(bytes), |bytes|) == bytes
  {
    if bytes != [] {
      EncodeDecode(bytes[1..]);
      Digits(bytes[0], Decode(bytes[1..]));
      assert bytes == [bytes[0]] + bytes[1..];
    }
  }

  lemma Digits(low: Byte, high: nat)
    ensures (low + 256 * high) % 256 == low && (low + 256 * high) / 256 == high
  {
  }

  /** A value whose low bytes are `a` and whose high bytes are `b`. */
  lemma {:induction false} DecodeConcat(a: seq<Byte>, b: seq<Byte>)
    ensures Decode(a + b) == Decode(a) + Limit(|a|) * Decode(b)
  {
    if a == [] {
      assert a + b == b;
    } else {
      DecodeConcat(a[1..], b);
      assert (a + b)[1..] == a[1..] + b;
      assert Limit(|a|) == 256 * Limit(|a| - 1);
      Shifted(a[0], Decode(a[1..]), Limit(|a| - 1), Decode(b));
    }
  }

  lemma Shifted(low: int, x: int, y: int, z: int)
    ensures low + 256 * (x + y * z) == (low + 256 * x) + (256 * y) * z
  {
    assert 256 * (y * z) == (256 * y) * z;
  }

  /** The first bytes of an encoding hold the value modulo their range. */
  lemma {:induction false} DecodePrefix(n: nat, width: nat, k: nat)
    requires k <= width
    ensures Decode(Encode(n, width)[..k]) == n % Limit(k)
    decreases k
  {
    if k > 0 {
      DecodePrefix(n / 256, width - 1, k - 1);
      var rest := Encode(n / 256, width - 1)[..k - 1];
      assert Encode(n, width)[..k] == [n % 256] + rest && ([n % 256] + rest)[1..] == rest;
      LowDigits(n, Limit(k - 1));
    }
  }

  lemma LowDigits(n: nat, m: nat)
    requires m > 0
    ensures n % 256 + 256 * ((n / 256) % m) == n % (256 * m)
  {
    var a, b := n / 256, n % 256;
    var q, r := a / m, a % m;
    assert a == m * q + r;
    assert n == 256 * a + b;
    assert 256 * (m * q) == (256 * m) * q;
    Remainder(n, 256 * m, q, 256 * r + b);
  }

  lemma Remainder(n: nat, d: nat, q: nat, r: nat)
    requires d > 0 && n == d * q + r && r < d
    ensures n % d == r
  {
    var k := n / d - q;
    assert d * k == r - n % d;
    assert k >= 1 ==> d * k >= d;
    assert k <= -1 ==> d * k <= 0 - d;
  }
}
