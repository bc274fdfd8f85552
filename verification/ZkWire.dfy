/**
 The bytes of a packet, position by position, and the law its checksum obeys: the words of a
 finished body, the checksum's own included, add up to nothing in one's complement arithmetic
 (section 1 of RFC 1071).
 */
module ZkWire {
  import opened Arith
  import opened Bytes
  import opened ZkProtocol

  // ---------------------------------------------------------------- the sum of the words

  /** The words added byte by byte: those at even positions count once, the others 256 times. */
  function ByteSum(b: seq<byte>): nat {
    if b == [] then 0
    else
      var n := |b| - 1;
      ByteSum(b[..n]) + (b[n] as int) * (if n % 2 == 0 then 1 else 256)
  }

  lemma {:induction false} ByteSumFromFront(b: seq<byte>)
    requires |b| >= 2
    ensures ByteSum(b) == (b[0] as int) + 256 * (b[1] as int) + ByteSum(b[2..])
  {
    var n := |b| - 1;
    if n == 1 {
      assert b[..1] == [b[0]] && b[..1][..0] == [];
    } else {
      ByteSumFromFront(b[..n]);
      assert b[..n][2..] == b[2..][..n - 2];
    }
  }

  lemma {:induction false} WordSumIsByteSum(b: seq<byte>)
    ensures WordSum(b) == ByteSum(b)
  {
    if |b| == 1 {
      assert b[..0] == [];
    } else if |b| >= 2 {
      WordSumIsByteSum(b[2..]);
      ByteSumFromFront(b);
    }
  }

  lemma ByteSumUpdate(b: seq<byte>, i: nat, v: byte)
    requires i < |b|
    ensures ByteSum(b[i := v]) == ByteSum(b) + (v - b[i]) * (if i % 2 == 0 then 1 else 256)
  {
    WordSumIsByteSum(b);
    WordSumIsByteSum(b[i := v]);
    WordSumUpdate(b, i, v);
  }

  // ---------------------------------------------------------------- the law

  /**
   The sum of the words as 32 bits keep it and the checksum add up to a multiple of 65535; of the
   two ways to write nothing, 0xffff is for an empty sum only.
   */
  predicate Complements(sum: int, checksum: int) {
    && (sum % 0x1_0000_0000 + checksum) % 0xffff == 0
    && (checksum == 0xffff <==> sum % 0x1_0000_0000 == 0)
  }

  lemma FoldComplements(sum: nat)
    requires sum % 0x1_0000_0000 != 0
    ensures (sum % 0x1_0000_0000 + (0xffff - Fold(sum))) % 0xffff == 0 && Fold(sum) != 0
  {
    FoldIsCanonical(sum);
    hide Fold;
    var word := sum % 0x1_0000_0000;
    DivModUnique(word + (0xffff - Fold(sum)), 0xffff, (word - 1) / 0xffff + 1, 0);
  }

  lemma ChecksumComplements(b: seq<byte>)
    ensures Complements(ByteSum(b), Checksum(b))
  {
    WordSumIsByteSum(b);
    FoldIsCanonical(WordSum(b));
    hide WordSum, ByteSum, Fold;
    if WordSum(b) % 0x1_0000_0000 != 0 {
      FoldComplements(WordSum(b));
    }
  }

  /** No other value does. */
  lemma ComplementUnique(sum: int, x: u16, y: u16)
    requires Complements(sum, x) && Complements(sum, y)
    ensures x == y
  {
    var word := sum % 0x1_0000_0000;
    if word != 0 {
      var p, q := (word + x) / 0xffff, (word + y) / 0xffff;
      ZeroMultiple(p - q, 0xffff);
    }
  }

  /** A little-endian word, from its bytes. */
  function WordAt(b: seq<byte>, i: nat): int
    requires i + 1 < |b|
  {
    (b[i] as int) + 256 * (b[i + 1] as int)
  }

  function LongAt(b: seq<byte>, i: nat): int
    requires i + 3 < |b|
  {
    WordAt(b, i) + 65536 * WordAt(b, i + 2)
  }

  /** A body whose checksum word is what the rest of it calls for. */
  predicate Balanced(body: seq<byte>)
    requires |body| >= 8
  {
    Complements(ByteSum(body) - WordAt(body, 2), WordAt(body, 2))
  }

  lemma WithoutChecksum(body: seq<byte>)
    requires |body| >= 8
    ensures ByteSum(ZeroChecksum(body)) == ByteSum(body) - WordAt(body, 2)
    ensures WordAt(body, 2) == ReadU16LE(body, 2)
  {
    ByteSumUpdate(body, 2, 0);
    ByteSumUpdate(body[2 := 0], 3, 0);
  }

  /**
   One's complement, read off the bytes: while the words add up to less than 2^32, those of a
   balanced body, its checksum included, add up to a multiple of 65535.
   */
  lemma BalancedSumsToNothing(body: seq<byte>)
    requires |body| >= 8 && Balanced(body) && ByteSum(body) < 0x1_0000_0000
    ensures ByteSum(body) % 0xffff == 0
  {
    WithoutChecksum(body);
  }

  /** Where everything is in a built packet; the checksum balances it. */
  lemma PacketLayout(p: ZkPacket)
    requires Sendable(p)
    ensures var e := Encode(p);
            && e[..4] == [0x50, 0x80, 0x82, 0x7d]
            && LongAt(e, 4) == |e| - 8 == 8 + |p.data|
            && WordAt(e, 8) == p.command && WordAt(e, 12) == p.sessionId && WordAt(e, 14) == p.replyId
            && e[16..] == p.data
            && Balanced(e[8..])
  {
    LayoutOf(p, Checksum(Body(p, 0)));
    BodyBalances(p);
    hide Checksum, Body, Envelope, Balanced;
  }

  lemma BodyBalances(p: ZkPacket)
    requires Sendable(p)
    ensures Balanced(Body(p, Checksum(Body(p, 0))))
  {
    var checksum := Checksum(Body(p, 0));
    BodyFields(p, checksum);
    ChecksumComplements(Body(p, 0));
    hide Checksum, ByteSum, Complements;
    WithoutChecksum(Body(p, checksum));
  }

  lemma LayoutOf(p: ZkPacket, checksum: u16)
    requires Sendable(p)
    ensures var e := Envelope(Body(p, checksum));
            && e[..4] == [0x50, 0x80, 0x82, 0x7d]
            && LongAt(e, 4) == |e| - 8 == 8 + |p.data|
            && WordAt(e, 8) == p.command && WordAt(e, 12) == p.sessionId && WordAt(e, 14) == p.replyId
            && e[16..] == p.data && e[8..] == Body(p, checksum)
  {
    var body := Body(p, checksum);
    var e := Envelope(body);
    EnvelopeHeader(body, []);
    BodyFields(p, checksum);
    assert e + [] == e;
    assert e[8..] == body && e[16..] == body[8..];
    assert e[..4] == U32LE(TCP_MAGIC);
  }

  /**
   What is accepted: with the magic and a length of at least a header, once the stream holds that
   much, exactly the balanced bodies; the fields are read from their places.
   */
  lemma AcceptedExactly(stream: seq<byte>)
    requires |stream| >= 16 && stream[..4] == [0x50, 0x80, 0x82, 0x7d]
    requires 8 <= LongAt(stream, 4) <= |stream| - 8
    ensures var body, d := stream[8..8 + LongAt(stream, 4)], DecodePacket(stream);
            && (d.Complete? <==> Balanced(body)) && (d.BadChecksum? <==> !Balanced(body))
            && (d.Complete? ==>
                  && d.consumed == 8 + |body|
                  && d.packet.command == WordAt(body, 0) && d.packet.sessionId == WordAt(body, 4)
                  && d.packet.replyId == WordAt(body, 6) && d.packet.data == body[8..])
  {
    var body := stream[8..8 + LongAt(stream, 4)];
    assert ReadU32LE(stream, 0) == TCP_MAGIC by {
      assert stream[0] == 0x50 && stream[1] == 0x80 && stream[2] == 0x82 && stream[3] == 0x7d;
    }
    assert ReadU32LE(stream, 4) == LongAt(stream, 4);
    WithoutChecksum(body);
    ChecksumComplements(ZeroChecksum(body));
    hide Checksum, ByteSum, Complements;
    if Balanced(body) {
      ComplementUnique(ByteSum(ZeroChecksum(body)), Checksum(ZeroChecksum(body)), WordAt(body, 2));
    }
  }

  // ---------------------------------------------------------------- known values

  /** The acknowledgement of a terminal, as it travels. */
  lemma AckOkBytes()
    ensures Encode(ZkPacket(ACK_OK, 0, 0, []))
         == [0x50, 0x80, 0x82, 0x7d, 8, 0, 0, 0, 0xd0, 0x07, 0x2f, 0xf8, 0, 0, 0, 0]
  {
    var p := ZkPacket(2000, 0, 0, []);
    var e := Encode(p);
    var zero := Body(p, 0);
    assert zero == [0xd0, 0x07, 0, 0, 0, 0, 0, 0];
    assert zero[2..] == [0, 0, 0, 0, 0, 0] && zero[2..][2..] == [0, 0, 0, 0] && zero[4..][2..] == [0, 0];
    assert WordSum([0, 0]) == 0 && WordSum([0, 0, 0, 0]) == 0 && WordSum(zero) == 2000;
    assert Checksum(zero) == 0xf82f;
  }

  /** 21 September 2026, 08:02:35, as a terminal packs it. */
  lemma KnownTime()
    ensures EncodeTime(DeviceLocalTime(2026, 9, 21, 8, 2, 35)) == 858_844_955
    ensures DecodeTime(858_844_955) == DeviceLocalTime(2026, 9, 21, 8, 2, 35)
  {
    DecodeEncodeTime(DeviceLocalTime(2026, 9, 21, 8, 2, 35));
  }

  /** Whole months of 31 days: each field of a reading moves the packed clock by what it lasts. */
  lemma PackedSteps(t: DeviceLocalTime, u: DeviceLocalTime)
    requires t.Valid() && u.Valid() && t.year / 100 == u.year / 100
    ensures EncodeTime(u) - EncodeTime(t) ==
            (u.second - t.second) + 60 * (u.minute - t.minute) + 3_600 * (u.hour - t.hour)
            + 86_400 * ((u.day - t.day) + 31 * (u.month - t.month) + 372 * (u.year - t.year))
  {
    assert u.year % 100 - t.year % 100 == u.year - t.year;
  }
}
