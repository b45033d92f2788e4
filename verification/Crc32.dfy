/**
 The checksum of the log's frames: the IEEE CRC-32 in its reflected form. Every step is
 injective on the 32-bit state, so a change of one byte always shows, and `replay` stops at
 a frame that has one byte changed behind its length.
 */
module Crc32 {
  import opened LittleEndian
  import opened WalFrames

  // ----- one byte

  /** One bit: shift right, and subtract the polynomial if a one fell out. */
  function Shift(crc: bv32): bv32
  {
    (crc >> 1) ^ (0xEDB88320 & (0 - (crc & 1)))
  }

  function Shifts(crc: bv32, n: nat): bv32
  {
    if n == 0 then crc else Shift(Shifts(crc, n - 1))
  }

  function Mask(crc: bv32, byte: bv8): bv32
  {
    crc ^ (byte as bv32)
  }

  function Absorb(crc: bv32, byte: Byte): bv32
  {
    Shifts(Mask(crc, byte as bv8), 8)
  }

  // ----- the checksum

  function AbsorbAll(crc: bv32, data: seq<Byte>): bv32
  {
    if data == [] then crc else Absorb(AbsorbAll(crc, data[..|data| - 1]), data[|data| - 1])
  }

  const INITIAL: bv32 := 0xFFFFFFFF

  function Complement(crc: bv32): bv32
  {
    !crc
  }

  function Number(crc: bv32): U32
  {
    crc as int
  }

  function Checksum(data: seq<Byte>): U32
  {
    Number(Complement(AbsorbAll(INITIAL, data)))
  }

  method ComputeCrc32(data: seq<Byte>) returns (result: U32)
    ensures result == Checksum(data)
  {
    hide Shift, Mask, Number, Complement;
    var crc := INITIAL;
    for i := 0 to |data|
      invariant crc == AbsorbAll(INITIAL, data[..i])
    {
      assert data[..i + 1][..i] == data[..i];
      crc := Mask(crc, data[i] as bv8);
      ghost var masked := crc;
      for bit := 0 to 8
        invariant crc == Shifts(masked, bit)
      {
        crc := Shift(crc);
      }
    }
    assert data[..|data|] == data;
    result := Number(Complement(crc));
  }

  // ----- no step loses anything

  function Unshift(crc: bv32): bv32
  {
    if crc & 0x80000000 != 0 then ((crc ^ 0xEDB88320) << 1) | 1 else crc << 1
  }

  /** The polynomial's top bit tells whether it was subtracted, so a shift can be undone. */
  lemma UnshiftInverts(crc: bv32)
    ensures Unshift(Shift(crc)) == crc
  {
  }

  lemma {:induction false} ShiftsStayApart(a: bv32, b: bv32, n: nat)
    requires Shifts(a, n) == Shifts(b, n)
    ensures a == b
  {
    hide Shift, Unshift;
    if n > 0 {
      UnshiftInverts(Shifts(a, n - 1));
      UnshiftInverts(Shifts(b, n - 1));
      ShiftsStayApart(a, b, n - 1);
    }
  }

  lemma MaskTwice(crc: bv32, byte: bv8)
    ensures Mask(Mask(crc, byte), byte) == crc
  {
  }

  lemma MasksDiffer(crc: bv32, x: bv8, y: bv8)
    requires Mask(crc, x) == Mask(crc, y)
    ensures x == y
  {
    assert (x as bv32) as bv8 == x && (y as bv32) as bv8 == y;
  }

  lemma Successor(x: bv8)
    requires x != 255
    ensures (x + 1) as int == x as int + 1
  {
  }

  lemma BitsAndBack(x: bv8)
    ensures (x as int) as bv8 == x
    ensures x as int < 255 ==> x != 255
  {
  }

  lemma {:induction false} BitsOf(n: int) returns (x: bv8)
    requires 0 <= n < 256
    ensures x as int == n
  {
    if n == 0 {
      x := 0;
    } else {
      var y := BitsOf(n - 1);
      BitsAndBack(y);
      Successor(y);
      x := y + 1;
    }
  }

  /** A byte is told by its bits. */
  lemma ByteAndBack(n: int)
    requires 0 <= n < 256
    ensures (n as bv8) as int == n
  {
    var x := BitsOf(n);
    BitsAndBack(x);
  }

  lemma BytesStayApart(crc: bv32, x: Byte, y: Byte)
    requires Absorb(crc, x) == Absorb(crc, y)
    ensures x == y
  {
    hide Shifts, Mask;
    ShiftsStayApart(Mask(crc, x as bv8), Mask(crc, y as bv8), 8);
    MasksDiffer(crc, x as bv8, y as bv8);
    ByteAndBack(x);
    ByteAndBack(y);
  }

  lemma StatesStayApart(a: bv32, b: bv32, byte: Byte)
    requires Absorb(a, byte) == Absorb(b, byte)
    ensures a == b
  {
    hide Shifts, Mask;
    ShiftsStayApart(Mask(a, byte as bv8), Mask(b, byte as bv8), 8);
    MaskTwice(a, byte as bv8);
    MaskTwice(b, byte as bv8);
  }

  lemma {:induction false} OneByteApart(crc: bv32, data: seq<Byte>, k: nat, byte: Byte)
    requires k < |data| && byte != data[k]
    ensures AbsorbAll(crc, data[k := byte]) != AbsorbAll(crc, data)
  {
    hide Absorb;
    var n := |data| - 1;
    var changed := data[k := byte];
    if k == n {
      assert changed[..n] == data[..n];
      if Absorb(AbsorbAll(crc, data[..n]), byte) == Absorb(AbsorbAll(crc, data[..n]), data[n]) {
        BytesStayApart(AbsorbAll(crc, data[..n]), byte, data[n]);
      }
    } else {
      assert changed[..n] == data[..n][k := byte];
      OneByteApart(crc, data[..n], k, byte);
      if AbsorbAll(crc, changed) == AbsorbAll(crc, data) {
        StatesStayApart(AbsorbAll(crc, changed[..n]), AbsorbAll(crc, data[..n]), data[n]);
      }
    }
  }

  lemma NumbersDiffer(a: bv32, b: bv32)
    requires Number(a) == Number(b)
    ensures a == b
  {
    assert (a as int) as bv32 == a && (b as int) as bv32 == b;
  }

  lemma ComplementsDiffer(a: bv32, b: bv32)
    requires Complement(a) == Complement(b)
    ensures a == b
  {
    assert !(!a) == a && !(!b) == b;
  }

  /** Data with one byte changed never has the same checksum. */
  lemma OneByteShows(data: seq<Byte>, k: nat, byte: Byte)
    requires k < |data| && byte != data[k]
    ensures Checksum(data[k := byte]) != Checksum(data)
  {
    hide AbsorbAll, Number, Complement;
    OneByteApart(INITIAL, data, k, byte);
    if Checksum(data[k := byte]) == Checksum(data) {
      var a, b := AbsorbAll(INITIAL, data[k := byte]), AbsorbAll(INITIAL, data);
      NumbersDiffer(Complement(a), Complement(b));
      ComplementsDiffer(a, b);
    }
  }

  // ----- the log

  /** The store's own checksum, with any UTF-8 test. */
  function Checked(utf8: seq<Byte> -> bool): Env
  {
    Env(Checksum, utf8)
  }

  lemma DecodeIsInjective(a: seq<Byte>, b: seq<Byte>)
    requires |a| == |b| && Decode(a) == Decode(b)
    ensures a == b
  {
    EncodeDecode(a);
    EncodeDecode(b);
  }

  /** A frame with one byte changed behind its length is rejected, whatever follows it. */
  lemma OneByteRejected(utf8: seq<Byte> -> bool, rec: Record, k: nat, byte: Byte, rest: seq<Byte>)
    requires Writable(Checked(utf8), rec)
    requires 4 <= k < |Frame(Checked(utf8), rec)| && byte != Frame(Checked(utf8), rec)[k]
    ensures FirstFrame(Checked(utf8), Frame(Checked(utf8), rec)[k := byte] + rest).None?
  {
    var env, p := Checked(utf8), Payload(rec);
    hide Payload, Checksum, Decode, Encode, ReadPayload;
    var f := Frame(env, rec);
    var buf, bad := f + rest, f[k := byte] + rest;
    FramedInverts(env, p, rest);
    assert bad[..4] == buf[..4];
    if k < 8 {
      assert bad[8..8 + |p|] == buf[8..8 + |p|];
      assert bad[4..8][k - 4] != buf[4..8][k - 4];
      if Decode(bad[4..8]) == Decode(buf[4..8]) { DecodeIsInjective(bad[4..8], buf[4..8]); }
    } else {
      assert bad[4..8] == buf[4..8];
      assert p[k - 8] == f[k];
      assert bad[8..8 + |p|] == p[k - 8 := byte];
      OneByteShows(p, k - 8, byte);
    }
  }

  /**
   A log with one byte changed behind the length of a frame: `replay` recovers exactly the
   records before that frame, and never the changed one.
   */
  lemma OneByteStopsReplay(utf8: seq<Byte> -> bool, recs: seq<Record>, rec: Record, k: nat, byte: Byte, rest: seq<Byte>)
    requires AllWritable(Checked(utf8), recs) && Writable(Checked(utf8), rec)
    requires 4 <= k < |Frame(Checked(utf8), rec)| && byte != Frame(Checked(utf8), rec)[k]
    ensures Replay(Checked(utf8), Log(Checked(utf8), recs) + (Frame(Checked(utf8), rec)[k := byte] + rest)) == recs
  {
    var env := Checked(utf8);
    hide *;
    var bad := Frame(env, rec)[k := byte] + rest;
    OneByteRejected(utf8, rec, k, byte, rest);
    ReplayInverts(env, recs);
    assert TornTail(env, Log(env, recs)) + bad == bad;
    AppendsLostIff(env, Log(env, recs), bad);
  }
}
