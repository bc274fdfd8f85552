/**
 The ZKTeco wire codec: TCP framing, the one's complement checksum of every packet
 (section 1 of RFC 1071), the packed clock and the 40-byte attendance record.
 */
module ZkProtocol {
  import opened Bytes
  import opened Text
  import opened Arith

  const PREPARE_DATA: u16 := 1500
  const DATA: u16 := 1501
  const ACK_OK: u16 := 2000
  const ACK_ERROR: u16 := 2001

  const TCP_MAGIC: u32 := 0x7d828050
  const TCP_HEADER_SIZE := 8
  const PACKET_HEADER_SIZE := 8
  const ATTENDANCE_RECORD_SIZE := 40

  // ---------------------------------------------------------------- checksum

  /** Sum of the little-endian 16-bit words, an odd last byte counting as a word of its own. */
  function WordSum(b: seq<byte>): nat {
    if |b| == 0 then 0
    else if |b| == 1 then b[0]
    else ReadU16LE(b, 0) + WordSum(b[2..])
  }

  /** The carry fold. `&` and `>>>` see the sum modulo 2^32; the loop guard sees all of it. */
  function Fold(sum: nat): nat
    decreases sum
  {
    if sum <= 0xffff then sum
    else
      FoldDecreases(sum);
      Fold(FoldOnce(sum))
  }

  function FoldOnce(sum: nat): nat {
    sum % 0x1_0000 + sum % 0x1_0000_0000 / 0x1_0000
  }

  lemma FoldDecreases(sum: nat)
    requires sum > 0xffff
    ensures FoldOnce(sum) < sum
  {
    assert sum == sum / 0x1_0000 * 0x1_0000 + sum % 0x1_0000;
    assert sum % 0x1_0000_0000 <= sum;
  }

  /** What the fold computes: 0 for 0, otherwise the representative in 1..65535 modulo 65535. */
  function Canonical(word: nat): nat {
    if word == 0 then 0 else (word - 1) % 0xffff + 1
  }

  lemma FoldOnceCanonical(sum: nat)
    ensures FoldOnce(sum) < 0x1_0000_0000
    ensures Canonical(FoldOnce(sum)) == Canonical(sum % 0x1_0000_0000)
  {
    var word := sum % 0x1_0000_0000;
    var q := word / 0x1_0000;
    LowHalf(sum);
    assert word - FoldOnce(sum) == 0xffff * q;
    if word != 0 {
      var n := FoldOnce(sum) - 1;
      DivModUnique(word - 1, 0xffff, n / 0xffff + q, n % 0xffff);
    }
  }

  lemma LowHalf(sum: nat)
    ensures sum % 0x1_0000_0000 % 0x1_0000 == sum % 0x1_0000
  {
    var word := sum % 0x1_0000_0000;
    DivModUnique(sum, 0x1_0000, sum / 0x1_0000_0000 * 0x1_0000 + word / 0x1_0000, word % 0x1_0000);
  }

  lemma SmallIsCanonical(sum: nat)
    requires sum <= 0xffff
    ensures Canonical(sum) == sum
  {
  }

  lemma {:induction false} FoldIsCanonical(sum: nat)
    ensures Fold(sum) == Canonical(sum % 0x1_0000_0000)
    decreases sum
  {
    if sum <= 0xffff {
      SmallIsCanonical(sum);
    } else {
      var next := FoldOnce(sum);
      FoldDecreases(sum);
      FoldOnceCanonical(sum);
      FoldIsCanonical(next);
      DivModUnique(next, 0x1_0000_0000, 0, next);
    }
  }

  function Checksum(b: seq<byte>): u16 {
    FoldIsCanonical(WordSum(b));
    0xffff - Fold(WordSum(b))
  }

  lemma WordSumStep(b: seq<byte>, i: nat)
    requires i + 1 < |b|
    ensures WordSum(b[i..]) == ReadU16LE(b, i) + WordSum(b[i + 2..])
  {
    assert b[i..][2..] == b[i + 2..];
  }

  lemma WordTail(b: seq<byte>, i: nat)
    requires i % 2 == 0 && i <= |b| <= i + 1
    ensures WordSum(b[i..]) == if |b| % 2 == 1 then b[|b| - 1] else 0
  {
  }

  method Checksum16(buffer: seq<byte>) returns (checksum: u16)
    ensures checksum == Checksum(buffer)
  {
    var sum: nat := 0;
    var i := 0;
    while i + 1 < |buffer|
      invariant i % 2 == 0 && i <= |buffer|
      invariant sum + WordSum(buffer[i..]) == WordSum(buffer)
    {
      WordSumStep(buffer, i);
      sum := sum + ReadU16LE(buffer, i);
      i := i + 2;
    }
    WordTail(buffer, i);
    if |buffer| % 2 == 1 {
      sum := sum + buffer[|buffer| - 1];
    }
    assert sum == WordSum(buffer);
    while sum > 0xffff
      invariant Fold(sum) == Fold(WordSum(buffer))
      decreases sum
    {
      FoldDecreases(sum);
      sum := FoldOnce(sum);
    }
    checksum := 0xffff - sum;
  }

  // ---------------------------------------------------------------- packets

  datatype ZkPacket = ZkPacket(command: u16, sessionId: u16, replyId: u16, data: seq<byte>)

  /** The packet with the given value in its checksum field. */
  function Body(p: ZkPacket, checksum: u16): (b: seq<byte>)
    ensures |b| == PACKET_HEADER_SIZE + |p.data|
  {
    U16LE(p.command) + U16LE(checksum) + U16LE(p.sessionId) + U16LE(p.replyId) + p.data
  }

  function Envelope(body: seq<byte>): (e: seq<byte>)
    requires |body| < 0x1_0000_0000
    ensures |e| == TCP_HEADER_SIZE + |body|
  {
    U32LE(TCP_MAGIC) + U32LE(|body|) + body
  }

  /** A length field holds the whole packet: 32 bits. */
  predicate Sendable(p: ZkPacket) {
    PACKET_HEADER_SIZE + |p.data| < 0x1_0000_0000
  }

  function Encode(p: ZkPacket): (e: seq<byte>)
    requires Sendable(p)
    ensures |e| == TCP_HEADER_SIZE + PACKET_HEADER_SIZE + |p.data|
  {
    Envelope(Body(p, Checksum(Body(p, 0))))
  }

  /** A field written where the part filled so far ends. */
  method WriteNext(buffer: array<byte>, v: u16, ghost done: seq<byte>, at: nat)
    requires |done| == at && at + 2 <= buffer.Length && buffer[..] == done + Zeros(buffer.Length - at)
    modifies buffer
    ensures buffer[..] == (done + U16LE(v)) + Zeros(buffer.Length - at - 2)
  {
    WriteU16LE(buffer, v, at);
  }

  /** The body with its checksum field still zero. */
  method BuildUnsigned(p: ZkPacket) returns (body: array<byte>)
    ensures fresh(body) && body[..] == Body(p, 0)
  {
    SplitBody(p, 0);
    hide Body;
    ghost var n := |p.data|;
    ghost var a, b, c, d := U16LE(p.command), U16LE(0), U16LE(p.sessionId), U16LE(p.replyId);
    body := new byte[PACKET_HEADER_SIZE + |p.data|](i => 0);
    assert body[..] == [] + Zeros(8 + n);
    WriteNext(body, p.command, [], 0);
    assert [] + a == a;
    WriteNext(body, 0, a, 2);
    WriteNext(body, p.sessionId, a + b, 4);
    WriteNext(body, p.replyId, a + b + c, 6);
    CopyInto(p.data, body, PACKET_HEADER_SIZE);
    Joined(a, b, c, d, p.data);
  }

  lemma Joined(a: seq<byte>, b: seq<byte>, c: seq<byte>, d: seq<byte>, data: seq<byte>)
    requires |a| == |b| == |c| == |d| == 2
    ensures var filled := (a + b + c + d) + Zeros(|data|);
            filled[..8] + data + filled[8 + |data|..] == a + b + (c + d) + data
  {
  }

  method BuildBody(p: ZkPacket) returns (body: array<byte>)
    ensures fresh(body) && body[..] == Body(p, Checksum(Body(p, 0)))
  {
    body := BuildUnsigned(p);
    hide Checksum;
    var checksum := Checksum16(body[..]);
    SplitBody(p, 0);
    SplitBody(p, checksum);
    ghost var after := U16LE(p.sessionId) + U16LE(p.replyId) + p.data;
    assert body[..2] == U16LE(p.command) && body[4..] == after;
    WriteU16LE(body, checksum, 2);
  }

  lemma SplitBody(p: ZkPacket, checksum: u16)
    ensures Body(p, checksum) == U16LE(p.command) + U16LE(checksum) + (U16LE(p.sessionId) + U16LE(p.replyId)) + p.data
    ensures Body(p, checksum) == U16LE(p.command) + U16LE(checksum) + (U16LE(p.sessionId) + U16LE(p.replyId) + p.data)
  {
  }

  method BuildPacket(p: ZkPacket) returns (envelope: array<byte>)
    requires Sendable(p)
    ensures fresh(envelope) && envelope[..] == Encode(p)
  {
    var body := BuildBody(p);
    envelope := new byte[TCP_HEADER_SIZE + body.Length](i => 0);
    WriteU32LE(envelope, TCP_MAGIC, 0);
    WriteU32LE(envelope, body.Length, 4);
    CopyInto(body[..], envelope, TCP_HEADER_SIZE);
  }

  /** Null while the stream is partial; the two failures are the two errors thrown. */
  datatype Decoded =
    | Partial
    | Complete(packet: ZkPacket, consumed: nat)
    | BadHeader
    | BadChecksum

  function ZeroChecksum(body: seq<byte>): (b: seq<byte>)
    requires |body| >= PACKET_HEADER_SIZE
    ensures |b| == |body|
  {
    body[2 := 0][3 := 0]
  }

  function DecodePacket(stream: seq<byte>): (d: Decoded)
    ensures d.Complete? ==> TCP_HEADER_SIZE + PACKET_HEADER_SIZE <= d.consumed <= |stream|
  {
    if |stream| < TCP_HEADER_SIZE then Partial
    else if ReadU32LE(stream, 0) != TCP_MAGIC then BadHeader
    else
      var bodyLength := ReadU32LE(stream, 4);
      var total := TCP_HEADER_SIZE + bodyLength;
      if |stream| < total || bodyLength < PACKET_HEADER_SIZE then Partial
      else
        var body := stream[TCP_HEADER_SIZE..total];
        if Checksum(ZeroChecksum(body)) != ReadU16LE(body, 2) then BadChecksum
        else
          Complete(ZkPacket(ReadU16LE(body, 0), ReadU16LE(body, 4), ReadU16LE(body, 6), body[PACKET_HEADER_SIZE..]),
                   total)
  }

  /** Header of an envelope, wherever the stream goes on after it. */
  lemma EnvelopeHeader(body: seq<byte>, rest: seq<byte>)
    requires |body| < 0x1_0000_0000
    ensures var s := Envelope(body) + rest;
            && ReadU32LE(s, 0) == TCP_MAGIC
            && ReadU32LE(s, 4) == |body|
            && s[TCP_HEADER_SIZE..TCP_HEADER_SIZE + |body|] == body
  {
    var s := Envelope(body) + rest;
    assert s[0..4] == U32LE(TCP_MAGIC);
    assert s[4..8] == U32LE(|body|);
    ReadBackU32(s, 0, TCP_MAGIC);
    ReadBackU32(s, 4, |body|);
  }

  lemma BodyFields(p: ZkPacket, checksum: u16)
    ensures var b := Body(p, checksum);
            && ReadU16LE(b, 0) == p.command
            && ReadU16LE(b, 2) == checksum
            && ReadU16LE(b, 4) == p.sessionId
            && ReadU16LE(b, 6) == p.replyId
            && b[PACKET_HEADER_SIZE..] == p.data
            && ZeroChecksum(b) == Body(p, 0)
  {
    var b := Body(p, checksum);
    assert b[0..2] == U16LE(p.command) && b[2..4] == U16LE(checksum);
    assert b[4..6] == U16LE(p.sessionId) && b[6..8] == U16LE(p.replyId);
    ReadBackU16(b, 0, p.command);
    ReadBackU16(b, 2, checksum);
    ReadBackU16(b, 4, p.sessionId);
    ReadBackU16(b, 6, p.replyId);
  }

  /** Decoding undoes building, whatever follows on the stream. */
  lemma DecodeEncode(p: ZkPacket, rest: seq<byte>)
    requires Sendable(p)
    ensures DecodePacket(Encode(p) + rest) == Complete(p, |Encode(p)|)
  {
    var checksum := Checksum(Body(p, 0));
    EnvelopeHeader(Body(p, checksum), rest);
    BodyFields(p, checksum);
  }

  /** More bytes never change a decision already taken. */
  lemma DecodeStable(stream: seq<byte>, more: seq<byte>)
    requires DecodePacket(stream) != Partial
    ensures DecodePacket(stream + more) == DecodePacket(stream)
  {
    var s := stream + more;
    assert forall i :: 0 <= i < |stream| ==> s[i] == stream[i];
    if ReadU32LE(stream, 0) == TCP_MAGIC {
      var total := TCP_HEADER_SIZE + ReadU32LE(stream, 4);
      assert s[TCP_HEADER_SIZE..total] == stream[TCP_HEADER_SIZE..total];
    }
  }

  // ---------------------------------------------------------------- checksum: error detection

  lemma {:induction false} WordSumUpdate(b: seq<byte>, i: nat, v: byte)
    requires i < |b|
    ensures WordSum(b[i := v]) == WordSum(b) + (v - b[i]) * (if i % 2 == 0 then 1 else 256)
  {
    var c := b[i := v];
    if |b| >= 2 {
      if i < 2 {
        assert c[2..] == b[2..];
      } else {
        assert c[2..] == b[2..][i - 2 := v];
        WordSumUpdate(b[2..], i - 2, v);
      }
    }
  }

  /** Two words fold alike only when equal, or both non-zero and congruent modulo 65535. */
  lemma CanonicalCollision(a: nat, b: nat)
    requires Canonical(a) == Canonical(b) && a < b
    ensures a != 0 && (b - a) % 0xffff == 0
  {
    var q := (b - 1) / 0xffff - (a - 1) / 0xffff;
    assert a != 0;
    DivModUnique(b - a, 0xffff, q, 0);
  }

  /** Sums closer than 65535 and different never fold to the same word, even across 2^32. */
  lemma FoldSeparates(s: nat, t: nat)
    requires s < t < s + 0xffff
    ensures Fold(s) != Fold(t)
  {
    FoldIsCanonical(s);
    FoldIsCanonical(t);
    ModularStep(s, t - s);
    WordsSeparate(s % 0x1_0000_0000, t % 0x1_0000_0000, t - s);
  }

  lemma WordsSeparate(a: nat, b: nat, d: nat)
    requires 0 < d < 0xffff && a < 0x1_0000_0000
    requires b == a + d || b == a + d - 0x1_0000_0000
    ensures Canonical(a) != Canonical(b)
  {
    if Canonical(a) == Canonical(b) {
      if b == a + d {
        CanonicalCollision(a, b);
      } else {
        // 2^32 - 1 is a multiple of 65535: across 2^32 only d = 1 could collide, and then b is 0.
        CanonicalCollision(b, a);
      }
      assert false;
    }
  }

  lemma ModularStep(s: nat, d: nat)
    requires d < 0x1_0000_0000
    ensures (s + d) % 0x1_0000_0000 == s % 0x1_0000_0000 + d
            || (s + d) % 0x1_0000_0000 == s % 0x1_0000_0000 + d - 0x1_0000_0000
  {
    var m := s % 0x1_0000_0000 + d;
    if m < 0x1_0000_0000 {
      DivModUnique(s + d, 0x1_0000_0000, s / 0x1_0000_0000, m);
    } else {
      DivModUnique(s + d, 0x1_0000_0000, s / 0x1_0000_0000 + 1, m - 0x1_0000_0000);
    }
  }

  lemma ChecksumSeparates(b: seq<byte>, i: nat, v: byte)
    requires i < |b| && b[i] != v
    ensures Checksum(b[i := v]) != Checksum(b)
  {
    WordSumUpdate(b, i, v);
    if WordSum(b) < WordSum(b[i := v]) {
      FoldSeparates(WordSum(b), WordSum(b[i := v]));
    } else {
      FoldSeparates(WordSum(b[i := v]), WordSum(b));
    }
  }

  /**
   Any single wrong byte in the body of a built packet is refused. No bound on the length is
   needed: the 32-bit truncation inside the fold never hides a one-byte change.
   */
  lemma OneByteErrorDetected(p: ZkPacket, i: nat, v: byte, rest: seq<byte>)
    requires Sendable(p)
    requires TCP_HEADER_SIZE <= i < |Encode(p)| && Encode(p)[i] != v
    ensures DecodePacket(Encode(p)[i := v] + rest) == BadChecksum
  {
    var checksum := Checksum(Body(p, 0));
    var body := Body(p, checksum);
    var k := i - TCP_HEADER_SIZE;
    var damaged := body[k := v];
    BodyFields(p, checksum);
    assert Encode(p)[i := v] == Envelope(damaged);
    EnvelopeHeader(damaged, rest);
    if k == 2 || k == 3 {
      assert ZeroChecksum(damaged) == Body(p, 0);
      assert ReadU16LE(damaged, 2) != ReadU16LE(body, 2);
    } else {
      assert ZeroChecksum(damaged) == Body(p, 0)[k := v];
      assert Body(p, 0)[k] == body[k];
      ChecksumSeparates(Body(p, 0), k, v);
    }
  }

  // ---------------------------------------------------------------- clock

  datatype DeviceLocalTime = DeviceLocalTime(year: int, month: int, day: int, hour: int, minute: int, second: int)
  {
    /** A wall-clock reading: every field within its digits. */
    predicate Valid() {
      && 0 <= year && 1 <= month <= 12 && 1 <= day <= 31
      && 0 <= hour < 24 && 0 <= minute < 60 && 0 <= second < 60
    }
  }

  function EncodeTime(t: DeviceLocalTime): (v: u32)
    requires t.Valid()
  {
    (t.year % 100 * 12 * 31 + (t.month - 1) * 31 + (t.day - 1)) * (24 * 60 * 60)
    + t.hour * 3600 + t.minute * 60 + t.second
  }

  function DecodeTime(value: u32): DeviceLocalTime {
    var minutes := value / 60;
    var hours := minutes / 60;
    var days := hours / 24;
    var months := days / 31;
    DeviceLocalTime(months / 12 + 2000, months % 12 + 1, days % 31 + 1, hours % 24, minutes % 60, value % 60)
  }

  /** The packed clock keeps two digits of the year: it is exact in this century only. */
  lemma DecodeEncodeTime(t: DeviceLocalTime)
    requires t.Valid()
    ensures DecodeTime(EncodeTime(t)) == t.(year := t.year % 100 + 2000)
    ensures DecodeTime(EncodeTime(t)) == t <==> 2000 <= t.year <= 2099
  {
    var months := t.year % 100 * 12 + (t.month - 1);
    var days := months * 31 + (t.day - 1);
    var hours := days * 24 + t.hour;
    var minutes := hours * 60 + t.minute;
    assert EncodeTime(t) == minutes * 60 + t.second;
    assert EncodeTime(t) / 60 == minutes && EncodeTime(t) % 60 == t.second;
    assert minutes / 60 == hours && minutes % 60 == t.minute;
    assert hours / 24 == days && hours % 24 == t.hour;
    assert days / 31 == months && days % 31 == t.day - 1;
    assert months / 12 == t.year % 100 && months % 12 == t.month - 1;
  }
}
