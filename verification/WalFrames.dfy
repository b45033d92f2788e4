/**
 The log of the local key store: frames `[len u32][crc u32][payload]` written by
 `write_frame` and read back by `replay`, which stops at the first frame that is
 short, fails its checksum or does not decode. The checksum and the UTF-8 test are
 parameters: every result holds for any such pair of functions.
 */
module WalFrames {
  import opened Sequences
  import opened LittleEndian

  type Key = seq<Byte>
  type Oid = seq<Byte>
  type U32 = n: int | 0 <= n < U32_LIMIT

  datatype Env = Env(crc: seq<Byte> -> U32, utf8: seq<Byte> -> bool)

  /** One logged mutation: a claim of `key`, or its tombstone. */
  datatype Record = Record(key: Key, generation: nat, oid: Option<Oid>)

  const OP_PUT: Byte := 0
  const OP_TOMBSTONE: Byte := 1

  function Payload(rec: Record): (p: seq<Byte>)
    ensures |p| >= 17
  {
    var op := if rec.oid.Some? then OP_PUT else OP_TOMBSTONE;
    var oid := if rec.oid.Some? then rec.oid.value else [];
    [op] + Encode(rec.generation, 8) + Encode(|rec.key|, 4) + rec.key + Encode(|oid|, 4) + oid
  }

  /** What `write_frame` can write: the payload length must fit in 32 bits. */
  predicate Fits(rec: Record)
  {
    |Payload(rec)| < U32_LIMIT
  }

  /** Records the store produces: 64-bit generations and UTF-8 holders. */
  predicate Writable(env: Env, rec: Record)
  {
    Fits(rec) && rec.generation < U64_LIMIT && (rec.oid.Some? ==> env.utf8(rec.oid.value))
  }

  /** The frame around a payload. */
  function Framed(env: Env, p: seq<Byte>): (f: seq<Byte>)
    ensures |f| == 8 + |p|
  {
    Encode(|p|, 4) + Encode(env.crc(p), 4) + p
  }

  function Frame(env: Env, rec: Record): seq<Byte>
  {
    Framed(env, Payload(rec))
  }

  function Log(env: Env, recs: seq<Record>): seq<Byte>
  {
    if recs == [] then [] else Frame(env, recs[0]) + Log(env, recs[1..])
  }

  /** `decode` followed by the interpretation of the operation byte. */
  function ReadPayload(env: Env, p: seq<Byte>): Option<Record>
  {
    if |p| < 13 then None else
    var generation := Decode(p[1..9]);
    var keyLen := Decode(p[9..13]);
    if |p| < 13 + keyLen + 4 then None else
    var key := p[13..13 + keyLen];
    var oidLen := Decode(p[13 + keyLen..17 + keyLen]);
    if |p| != 17 + keyLen + oidLen then None else
    var oid := p[17 + keyLen..];
    if p[0] == OP_PUT then
      if env.utf8(oid) then Some(Record(key, generation, Some(oid))) else None
    else if p[0] == OP_TOMBSTONE then Some(Record(key, generation, None))
    else None
  }

  /** The frame at the start of `buf`, if `replay` accepts one there. */
  function FirstFrame(env: Env, buf: seq<Byte>): (r: Option<(Record, nat)>)
    ensures r.Some? ==> 8 <= r.value.1 <= |buf|
  {
    if |buf| < 8 then None else
    var len := Decode(buf[..4]);
    if 8 + len > |buf| then None else
    if env.crc(buf[8..8 + len]) != Decode(buf[4..8]) then None else
    var rec := ReadPayload(env, buf[8..8 + len]);
    if rec.None? then None else Some((rec.value, 8 + len))
  }

  /** The records `replay` accepts, in log order. */
  function Replay(env: Env, buf: seq<Byte>): seq<Record>
    decreases |buf|
  {
    var first := FirstFrame(env, buf);
    if first.None? then [] else [first.value.0] + Replay(env, buf[first.value.1..])
  }

  /** The bytes left over where `replay` stops. */
  function TornTail(env: Env, buf: seq<Byte>): seq<Byte>
    decreases |buf|
  {
    var first := FirstFrame(env, buf);
    if first.None? then buf else TornTail(env, buf[first.value.1..])
  }

  // ----- what a frame reads back as

  /** Decoding a payload inverts encoding it. */
  lemma ReadPayloadInverts(env: Env, rec: Record)
    requires Writable(env, rec)
    ensures ReadPayload(env, Payload(rec)) == Some(rec)
  {
    Widths();
    hide Encode, Decode, Limit;
    var op := if rec.oid.Some? then OP_PUT else OP_TOMBSTONE;
    var oid := if rec.oid.Some? then rec.oid.value else [];
    DecodeEncode(rec.generation, 8);
    DecodeEncode(|rec.key|, 4);
    DecodeEncode(|oid|, 4);
    PayloadSlices(op, Encode(rec.generation, 8), Encode(|rec.key|, 4), rec.key, Encode(|oid|, 4), oid);
  }

  lemma PayloadSlices(op: Byte, g: seq<Byte>, kl: seq<Byte>, key: seq<Byte>, ol: seq<Byte>, oid: seq<Byte>)
    requires |g| == 8 && |kl| == |ol| == 4
    ensures
      var p, k := [op] + g + kl + key + ol + oid, |key|;
      && |p| == 17 + k + |oid| && p[0] == op && p[1..9] == g && p[9..13] == kl && p[13..13 + k] == key
      && p[13 + k..17 + k] == ol && p[17 + k..] == oid
  {
  }

  lemma FramedInverts(env: Env, p: seq<Byte>, rest: seq<Byte>)
    requires |p| < U32_LIMIT
    ensures
      var buf := Framed(env, p) + rest;
      && Decode(buf[..4]) == |p|
      && Decode(buf[4..8]) == env.crc(p)
      && buf[8..8 + |p|] == p
  {
    Widths();
    var buf := Framed(env, p) + rest;
    DecodeEncode(|p|, 4);
    DecodeEncode(env.crc(p), 4);
    assert buf[..4] == Encode(|p|, 4);
    assert buf[4..8] == Encode(env.crc(p), 4);
  }

  lemma FirstFrameInverts(env: Env, rec: Record, rest: seq<Byte>)
    requires Writable(env, rec)
    ensures FirstFrame(env, Frame(env, rec) + rest) == Some((rec, |Frame(env, rec)|))
  {
    hide Encode, Decode, ReadPayload, Payload, Framed;
    FramedInverts(env, Payload(rec), rest);
    ReadPayloadInverts(env, rec);
  }

  /** A frame cut short is not accepted: the length field alone rejects it. */
  lemma CutFrameRejected(env: Env, rec: Record, n: nat)
    requires Writable(env, rec) && n < |Frame(env, rec)|
    ensures FirstFrame(env, Frame(env, rec)[..n]) == None
  {
    if n >= 8 {
      FramedInverts(env, Payload(rec), []);
      assert Frame(env, rec)[..n][..4] == (Frame(env, rec) + [])[..4];
    }
  }

  /** Whatever replay accepts could have been written by the store. */
  lemma AcceptedIsWritable(env: Env, buf: seq<Byte>)
    requires FirstFrame(env, buf).Some?
    ensures Writable(env, FirstFrame(env, buf).value.0)
  {
    Widths();
    var p := buf[8..FirstFrame(env, buf).value.1];
    var rec := ReadPayload(env, p).value;
    assert |p[1..9]| == 8 && |buf[..4]| == 4;
    assert |Payload(rec)| <= |p|;
  }

  /** One turn of the scan: stop, or accept a frame and go on behind it. */
  lemma ReplayStep(env: Env, buf: seq<Byte>)
    ensures |buf| < 8 ==> FirstFrame(env, buf).None?
    ensures FirstFrame(env, buf).None? ==> Replay(env, buf) == []
    ensures FirstFrame(env, buf).Some? ==> Replay(env, buf) == [FirstFrame(env, buf).value.0] + Replay(env, buf[FirstFrame(env, buf).value.1..])
  {
    hide ReadPayload;
  }

  lemma {:induction false} ReplayedIsWritable(env: Env, buf: seq<Byte>)
    ensures AllWritable(env, Replay(env, buf))
    decreases |buf|
  {
    hide FirstFrame, Replay, Writable;
    ReplayStep(env, buf);
    var first := FirstFrame(env, buf);
    if first.Some? {
      AcceptedIsWritable(env, buf);
      ReplayedIsWritable(env, buf[first.value.1..]);
    }
  }

  // ----- whole logs

  ghost predicate AllWritable(env: Env, recs: seq<Record>)
  {
    forall i :: 0 <= i < |recs| ==> Writable(env, recs[i])
  }

  /** How many whole frames the first `n` bytes of the log of `recs` hold. */
  ghost function WholeFrames(env: Env, recs: seq<Record>, n: nat): (m: nat)
    ensures m <= |recs|
  {
    if recs == [] || n < |Frame(env, recs[0])| then 0
    else 1 + WholeFrames(env, recs[1..], n - |Frame(env, recs[0])|)
  }

  lemma ReplayFrame(env: Env, rec: Record, rest: seq<Byte>)
    requires Writable(env, rec)
    ensures Replay(env, Frame(env, rec) + rest) == [rec] + Replay(env, rest)
    ensures TornTail(env, Frame(env, rec) + rest) == TornTail(env, rest)
  {
    FirstFrameInverts(env, rec, rest);
    assert (Frame(env, rec) + rest)[|Frame(env, rec)|..] == rest;
  }

  lemma CutInFirstFrame(env: Env, rec: Record, tail: seq<Byte>, n: nat)
    requires Writable(env, rec) && n < |Frame(env, rec)|
    ensures Replay(env, (Frame(env, rec) + tail)[..n]) == []
  {
    TakeConcat(Frame(env, rec), tail, n);
    CutFrameRejected(env, rec, n);
  }

  lemma CutAfterFirstFrame(env: Env, rec: Record, tail: seq<Byte>, m: nat)
    requires Writable(env, rec) && m <= |tail|
    ensures Replay(env, (Frame(env, rec) + tail)[..|Frame(env, rec)| + m]) == [rec] + Replay(env, tail[..m])
  {
    hide FirstFrame, Framed;
    TakeConcat(Frame(env, rec), tail, |Frame(env, rec)| + m);
    ReplayFrame(env, rec, tail[..m]);
  }

  /**
   Crash atomicity. Whatever byte the log is cut at, replay recovers exactly the
   mutations whose frames are whole: a prefix of the history, never a part of one
   mutation and never a later one without an earlier one.
   */
  lemma {:induction false} CrashKeepsPrefix(env: Env, recs: seq<Record>, n: nat)
    requires AllWritable(env, recs) && n <= |Log(env, recs)|
    ensures Replay(env, Log(env, recs)[..n]) == recs[..WholeFrames(env, recs, n)]
  {
    hide *;
    LogUnfold(env, recs, n);
    if recs != [] {
      WritableUnfold(env, recs);
      var m := n - |Frame(env, recs[0])|;
      if m < 0 {
        CutInFirstFrame(env, recs[0], Log(env, recs[1..]), n);
      } else {
        CutAfterFirstFrame(env, recs[0], Log(env, recs[1..]), m);
        CrashKeepsPrefix(env, recs[1..], m);
        TakeConcat([recs[0]], recs[1..], 1 + WholeFrames(env, recs[1..], m));
        assert recs == [recs[0]] + recs[1..];
      }
    }
  }

  lemma LogUnfold(env: Env, recs: seq<Record>, n: nat)
    ensures recs == [] ==> Log(env, recs) == [] && Replay(env, []) == [] && TornTail(env, []) == [] && WholeFrames(env, recs, n) == 0
    ensures recs != [] ==> Log(env, recs) == Frame(env, recs[0]) + Log(env, recs[1..])
    ensures recs != [] && n < |Frame(env, recs[0])| ==> WholeFrames(env, recs, n) == 0
    ensures recs != [] && n >= |Frame(env, recs[0])| ==>
      WholeFrames(env, recs, n) == 1 + WholeFrames(env, recs[1..], n - |Frame(env, recs[0])|)
  {
    hide Frame;
  }

  lemma WritableUnfold(env: Env, recs: seq<Record>)
    requires AllWritable(env, recs) && recs != []
    ensures Writable(env, recs[0]) && AllWritable(env, recs[1..])
  {
    hide Writable;
  }

  /** An uncut log replays to the records it was written from, with nothing left over. */
  lemma {:induction false} ReplayInverts(env: Env, recs: seq<Record>)
    requires AllWritable(env, recs)
    ensures Replay(env, Log(env, recs)) == recs && TornTail(env, Log(env, recs)) == []
  {
    hide *;
    LogUnfold(env, recs, 0);
    if recs != [] {
      WritableUnfold(env, recs);
      ReplayFrame(env, recs[0], Log(env, recs[1..]));
      ReplayInverts(env, recs[1..]);
    }
  }

  lemma FirstFrameExtends(env: Env, buf: seq<Byte>, more: seq<Byte>)
    requires FirstFrame(env, buf).Some?
    ensures FirstFrame(env, buf + more) == FirstFrame(env, buf)
  {
    var len := Decode(buf[..4]);
    assert (buf + more)[..4] == buf[..4] && (buf + more)[4..8] == buf[4..8];
    assert (buf + more)[8..8 + len] == buf[8..8 + len];
  }

  /**
   What appending to an existing log does: the old records stay, and replay goes on
   from the old torn tail joined to the new bytes.
   */
  lemma {:induction false} ReplayAppend(env: Env, buf: seq<Byte>, more: seq<Byte>)
    ensures Replay(env, buf + more) == Replay(env, buf) + Replay(env, TornTail(env, buf) + more)
    ensures TornTail(env, buf + more) == TornTail(env, TornTail(env, buf) + more)
    decreases |buf|
  {
    var first := FirstFrame(env, buf);
    if first.Some? {
      FirstFrameExtends(env, buf, more);
      var n := first.value.1;
      assert (buf + more)[n..] == buf[n..] + more;
      ReplayAppend(env, buf[n..], more);
    }
  }

  /** A frame appended to a log without a torn tail is recovered. */
  lemma CleanAppendSurvives(env: Env, buf: seq<Byte>, rec: Record)
    requires TornTail(env, buf) == [] && Writable(env, rec)
    ensures Replay(env, buf + Frame(env, rec)) == Replay(env, buf) + [rec]
    ensures TornTail(env, buf + Frame(env, rec)) == []
  {
    var frame := Frame(env, rec);
    ReplayAppend(env, buf, frame);
    assert TornTail(env, buf) + frame == frame + [];
    ReplayFrame(env, rec, []);
  }

  lemma {:induction false} LogConcat(env: Env, a: seq<Record>, b: seq<Record>)
    ensures Log(env, a + b) == Log(env, a) + Log(env, b)
  {
    hide Frame;
    if a == [] {
      assert a + b == b;
    } else {
      assert (a + b)[1..] == a[1..] + b;
      LogConcat(env, a[1..], b);
    }
  }

  /** Records appended to a log without a torn tail are recovered. */
  lemma {:induction false} CleanAppendsSurvive(env: Env, buf: seq<Byte>, recs: seq<Record>)
    requires TornTail(env, buf) == [] && AllWritable(env, recs)
    ensures Replay(env, buf + Log(env, recs)) == Replay(env, buf) + recs
    ensures TornTail(env, buf + Log(env, recs)) == []
  {
    hide *;
    ReplayAppend(env, buf, Log(env, recs));
    assert TornTail(env, buf) + Log(env, recs) == Log(env, recs);
    ReplayInverts(env, recs);
  }

  /**
   Bytes appended behind a torn tail are lost as a whole exactly when replay accepts no
   frame that starts at the tail; the tail has then only grown.
   */
  lemma AppendsLostIff(env: Env, buf: seq<Byte>, more: seq<Byte>)
    ensures Replay(env, buf + more) == Replay(env, buf) <==> FirstFrame(env, TornTail(env, buf) + more).None?
    ensures FirstFrame(env, TornTail(env, buf) + more).None? ==> TornTail(env, buf + more) == TornTail(env, buf) + more
  {
    hide FirstFrame, Replay, TornTail;
    ReplayAppend(env, buf, more);
    ReplayStep(env, TornTail(env, buf) + more);
    TornStep(env, TornTail(env, buf) + more);
  }

  lemma TornStep(env: Env, buf: seq<Byte>)
    ensures FirstFrame(env, buf).None? ==> TornTail(env, buf) == buf
  {
  }

  /** A torn tail accepts no frame. */
  lemma {:induction false} TailIsRejected(env: Env, buf: seq<Byte>)
    ensures FirstFrame(env, TornTail(env, buf)).None?
    decreases |buf|
  {
    hide FirstFrame;
    var first := FirstFrame(env, buf);
    if first.Some? { TailIsRejected(env, buf[first.value.1..]); }
  }

  // ----- the three kinds of torn tail: too short for a length, shorter than its length, and corrupt

  /** A tail that holds a length loses everything appended until that length is reached. */
  lemma CutTailRejects(env: Env, torn: seq<Byte>, more: seq<Byte>)
    requires |torn| >= 4 && |torn| + |more| < 8 + Decode(torn[..4])
    ensures FirstFrame(env, torn + more).None?
  {
    assert (torn + more)[..4] == torn[..4];
  }

  /** A tail that is long enough for its length and still rejected loses everything appended, for good. */
  lemma CorruptTailRejects(env: Env, torn: seq<Byte>, more: seq<Byte>)
    requires |torn| >= 4 && 8 + Decode(torn[..4]) <= |torn| && FirstFrame(env, torn).None?
    ensures FirstFrame(env, torn + more).None?
  {
    hide ReadPayload, Decode;
    var len := Decode(torn[..4]);
    assert (torn + more)[..4] == torn[..4] && (torn + more)[4..8] == torn[4..8];
    assert (torn + more)[8..8 + len] == torn[8..8 + len];
  }

  /** The length a tail of one to three bytes makes of the next payload's length. */
  function Misread(torn: seq<Byte>, length: nat): nat
    requires 1 <= |torn| <= 3
  {
    Decode(torn) + Limit(|torn|) * (length % Limit(4 - |torn|))
  }

  /** A tail too short for a length loses everything appended until the misread length is reached. */
  lemma ShortTailRejects(env: Env, torn: seq<Byte>, recs: seq<Record>)
    requires 1 <= |torn| <= 3 && recs != []
    requires |torn| + |Log(env, recs)| < 8 + Misread(torn, |Payload(recs[0])|)
    ensures FirstFrame(env, torn + Log(env, recs)).None?
  {
    MisreadIs(torn, |Payload(recs[0])|);
    hide *;
    var p := Payload(recs[0]);
    var rest := LogStarts(env, recs);
    MisreadField(torn, Encode(|p|, 4), rest);
    DecodePrefix(|p|, 4, 4 - |torn|);
    RunsPast(env, torn + Log(env, recs));
  }

  lemma MisreadIs(torn: seq<Byte>, length: nat)
    requires 1 <= |torn| <= 3
    ensures Misread(torn, length) == Decode(torn) + Limit(|torn|) * (length % Limit(4 - |torn|))
  {
  }

  /** A log starts with the length of its first payload. */
  lemma LogStarts(env: Env, recs: seq<Record>) returns (rest: seq<Byte>)
    requires recs != []
    ensures Log(env, recs) == Encode(|Payload(recs[0])|, 4) + rest
  {
    hide Payload, Encode;
    var p := Payload(recs[0]);
    rest := Encode(env.crc(p), 4) + p + Log(env, recs[1..]);
  }

  lemma RunsPast(env: Env, buf: seq<Byte>)
    requires |buf| >= 4 && 8 + Decode(buf[..4]) > |buf|
    ensures FirstFrame(env, buf).None?
  {
    hide Decode;
  }

  lemma MisreadField(torn: seq<Byte>, len: seq<Byte>, rest: seq<Byte>)
    requires 1 <= |torn| <= 3 && |len| == 4
    ensures Decode((torn + (len + rest))[..4]) == Decode(torn) + Limit(|torn|) * Decode(len[..4 - |torn|])
  {
    var k := 4 - |torn|;
    assert (torn + (len + rest))[..4] == torn + len[..k];
    DecodeConcat(torn, len[..k]);
  }

  /** One frame behind a short tail is always lost if its length ends inside the misread field. */
  lemma ShortTailMisreads(env: Env, torn: seq<Byte>, rec: Record)
    requires 1 <= |torn| <= 3 && |Payload(rec)| < Limit(4 - |torn|)
    ensures FirstFrame(env, torn + Log(env, [rec])).None?
  {
    hide Payload, FirstFrame;
    var n := |Payload(rec)|;
    assert [rec][1..] == [] && Log(env, []) == [];
    assert |Log(env, [rec])| == 8 + n;
    SmallModulo(n, Limit(4 - |torn|));
    HighBytes(|torn|, n);
    ShortTailRejects(env, torn, [rec]);
  }

  lemma SmallModulo(n: nat, m: nat)
    requires n < m
    ensures n % m == n
  {
  }

  lemma HighBytes(width: nat, n: nat)
    requires width >= 1
    ensures Limit(width) * n >= 256 * n
  {
    assert Limit(width) >= 256;
  }

  // ----- what a crash leaves

  /** How many bytes of the next frame a log cut at byte `n` still holds. */
  ghost function Leftover(env: Env, recs: seq<Record>, n: nat): nat
  {
    if recs == [] || n < |Frame(env, recs[0])| then n
    else Leftover(env, recs[1..], n - |Frame(env, recs[0])|)
  }

  /** The torn tail of a cut log is the cut part of the first frame that is not whole. */
  lemma {:induction false} CrashTail(env: Env, recs: seq<Record>, n: nat)
    requires AllWritable(env, recs) && n <= |Log(env, recs)|
    ensures
      var m, r := WholeFrames(env, recs, n), Leftover(env, recs, n);
      && (m == |recs| ==> r == 0 && TornTail(env, Log(env, recs)[..n]) == [])
      && (m < |recs| ==> r < |Frame(env, recs[m])| && TornTail(env, Log(env, recs)[..n]) == Frame(env, recs[m])[..r])
  {
    hide *;
    LogUnfold(env, recs, n);
    LeftoverUnfold(env, recs, n);
    if recs != [] {
      WritableUnfold(env, recs);
      var m := n - |Frame(env, recs[0])|;
      TakeConcat(Frame(env, recs[0]), Log(env, recs[1..]), n);
      if m < 0 {
        CutFrameRejected(env, recs[0], n);
        TornStep(env, Frame(env, recs[0])[..n]);
      } else {
        ReplayFrame(env, recs[0], Log(env, recs[1..])[..m]);
        CrashTail(env, recs[1..], m);
      }
    }
  }

  lemma LeftoverUnfold(env: Env, recs: seq<Record>, n: nat)
    ensures recs == [] || n < |Frame(env, recs[0])| ==> Leftover(env, recs, n) == n
    ensures recs != [] && n >= |Frame(env, recs[0])| ==> Leftover(env, recs, n) == Leftover(env, recs[1..], n - |Frame(env, recs[0])|)
  {
    hide Frame;
  }

  /** Behind a frame cut after its length, everything is lost until the log is as long as the frame was to be. */
  lemma CutFrameRejects(env: Env, rec: Record, n: nat, more: seq<Byte>)
    requires Writable(env, rec) && 4 <= n && n + |more| < |Frame(env, rec)|
    ensures FirstFrame(env, Frame(env, rec)[..n] + more).None?
  {
    hide FirstFrame, Payload, Decode;
    FramedInverts(env, Payload(rec), []);
    assert Frame(env, rec)[..n][..4] == (Frame(env, rec) + [])[..4];
    CutTailRejects(env, Frame(env, rec)[..n], more);
  }
}
