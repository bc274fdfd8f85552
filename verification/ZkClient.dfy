/**
 The stream side of the ZKTeco protocol: a terminal that sends a bulk payload in packets, a TCP
 connection that cuts those bytes into arbitrary segments, and the client that puts them back.
 */
module ZkClient {
  import opened Bytes
  import opened ZkProtocol
  import opened ZkRecords

  // ---------------------------------------------------------------- the sending side

  datatype ChunkSize = Whole | Of(size: nat)

  // `(chunkSize ?? payload.length) || 1`
  function PieceSize(chunkSize: ChunkSize, length: nat): (size: nat)
    ensures size > 0
  {
    var n := if chunkSize.Of? then chunkSize.size else length;
    if n == 0 then 1 else n
  }

  function Min(a: nat, b: nat): nat {
    if a < b then a else b
  }

  /** Every DATA packet of the payload fits the 32-bit length of its envelope. */
  predicate Sliceable(payload: seq<byte>, size: nat) {
    size > 0 && PACKET_HEADER_SIZE + Min(size, |payload|) < 0x1_0000_0000
  }

  function DataPacket(payload: seq<byte>, size: nat, session: u16, replyId: u16): (p: ZkPacket)
    requires Sliceable(payload, size)
    ensures Sendable(p)
  {
    ZkPacket(DATA, session, replyId, payload[..Min(size, |payload|)])
  }

  /** The DATA packets of a payload, on the wire. */
  function DataStream(payload: seq<byte>, size: nat, session: u16, replyId: u16): seq<byte>
    requires Sliceable(payload, size)
  {
    if payload == [] then []
    else
      Encode(DataPacket(payload, size, session, replyId)) + DataStream(payload[Min(size, |payload|)..], size, session,
                                                                       replyId)
  }

  function PreparePacket(length: u32, session: u16, replyId: u16): (p: ZkPacket)
    ensures Sendable(p)
  {
    ZkPacket(PREPARE_DATA, session, replyId, U32LE(length))
  }

  function AckPacket(session: u16, replyId: u16): (p: ZkPacket)
    ensures Sendable(p)
  {
    ZkPacket(ACK_OK, session, replyId, [])
  }

  predicate Announceable(payload: seq<byte>, chunkSize: ChunkSize) {
    |payload| < 0x1_0000_0000 && Sliceable(payload, PieceSize(chunkSize, |payload|))
  }

  /** PREPARE_DATA with the total, the DATA packets, then ACK_OK. */
  function BulkStream(payload: seq<byte>, chunkSize: ChunkSize, session: u16, replyId: u16): seq<byte>
    requires Announceable(payload, chunkSize)
  {
    Encode(PreparePacket(|payload|, session, replyId))
    + DataStream(payload, PieceSize(chunkSize, |payload|), session, replyId)
    + Encode(AckPacket(session, replyId))
  }

  /** One pass of the sending loop: what is still to send gives up its first packet. */
  lemma SendStep(wire: seq<byte>, payload: seq<byte>, offset: nat, size: nat, session: u16, replyId: u16)
    requires Sliceable(payload, size) && offset < |payload|
    ensures var end := offset + Min(size, |payload| - offset);
            var p := ZkPacket(DATA, session, replyId, payload[offset..end]);
            && Sendable(p)
            && wire + DataStream(payload[offset..], size, session, replyId)
               == (wire + Encode(p)) + DataStream(payload[end..], size, session, replyId)
  {
    hide Encode;
    var end := offset + Min(size, |payload| - offset);
    assert payload[offset..][..end - offset] == payload[offset..end];
    assert payload[offset..][end - offset..] == payload[end..];
    var p := ZkPacket(DATA, session, replyId, payload[offset..end]);
    var rest := DataStream(payload[end..], size, session, replyId);
    assert DataStream(payload[offset..], size, session, replyId) == Encode(p) + rest;
    assert wire + (Encode(p) + rest) == (wire + Encode(p)) + rest;
  }

  method Bulk(payload: seq<byte>, chunkSize: ChunkSize, session: u16, replyId: u16) returns (wire: seq<byte>)
    requires Announceable(payload, chunkSize)
    ensures wire == BulkStream(payload, chunkSize, session, replyId)
  {
    hide Encode;
    var packet := BuildPacket(PreparePacket(|payload|, session, replyId));
    wire := packet[..];
    var size := PieceSize(chunkSize, |payload|);
    ghost var out := wire + DataStream(payload, size, session, replyId);
    assert payload[0..] == payload;
    var offset := 0;
    while offset < |payload|
      invariant offset <= |payload|
      invariant wire + DataStream(payload[offset..], size, session, replyId) == out
    {
      SendStep(wire, payload, offset, size, session, replyId);
      var end := offset + Min(size, |payload| - offset);
      packet := BuildPacket(ZkPacket(DATA, session, replyId, payload[offset..end]));
      wire := wire + packet[..];
      offset := end;
    }
    packet := BuildPacket(AckPacket(session, replyId));
    wire := wire + packet[..];
  }

  // ---------------------------------------------------------------- the reading side, on a stream

  datatype ZkError =
    | NotConnected
    | Rejected(command: u16)
    | Unexpected(command: u16)
    | BadPacket
    | ConcurrentRead
    | Timeout
  datatype Reply = Got(packet: ZkPacket) | Failed(error: ZkError)
  datatype ReadResult = Ok(payload: seq<byte>) | Err(error: ZkError)

  /** What one `receive` answers when `stream` is all that will ever arrive, and what it leaves. */
  function NextReply(stream: seq<byte>): (r: (Reply, seq<byte>))
    ensures r.0.Got? ==> |r.1| < |stream|
  {
    match DecodePacket(stream)
    case Partial => (Failed(Timeout), stream)
    case Complete(packet, consumed) => (Got(packet), stream[consumed..])
    case BadHeader => (Failed(BadPacket), stream)
    case BadChecksum => (Failed(BadPacket), stream)
  }

  /** The DATA loop of a bulk read, and the trailing ACK_OK whose failure is ignored. */
  function ReadData(stream: seq<byte>, expected: nat, received: nat, chunks: seq<seq<byte>>): (ReadResult, seq<byte>)
    decreases |stream|
  {
    if received < expected then
      var (reply, rest) := NextReply(stream);
      match reply
      case Failed(e) => (Err(e), rest)
      case Got(p) =>
        if p.command == ACK_OK then (Ok(Concat(chunks)), rest)
        else if p.command != DATA then (Err(Unexpected(p.command)), rest)
        else ReadData(rest, expected, received + |p.data|, chunks + [p.data])
    else
      (Ok(Concat(chunks)), NextReply(stream).1)
  }

  function Expected(data: seq<byte>): nat {
    if |data| >= 4 then ReadU32LE(data, 0) else 0
  }

  /** A whole bulk read of `command`, as a function of the bytes the device answers with. */
  function ReadStream(command: u16, stream: seq<byte>): (ReadResult, seq<byte>) {
    var (reply, rest) := NextReply(stream);
    match reply
    case Failed(e) => (Err(e), rest)
    case Got(p) =>
      if p.command == ACK_ERROR then (Err(Rejected(command)), rest)
      else if p.command == DATA then (Ok(p.data), rest)
      else if p.command != PREPARE_DATA then
        if p.command == ACK_OK then (Ok(p.data), rest) else (Err(Unexpected(p.command)), rest)
      else
        ReadData(rest, Expected(p.data), 0, [])
  }

  lemma NextReplyEncoded(p: ZkPacket, rest: seq<byte>)
    requires Sendable(p)
    ensures NextReply(Encode(p) + rest) == (Got(p), rest)
  {
    DecodeEncode(p, rest);
    assert (Encode(p) + rest)[|Encode(p)|..] == rest;
  }

  lemma ChunkCollected(chunks: seq<seq<byte>>, payload: seq<byte>, n: nat)
    requires n <= |payload|
    ensures Concat(chunks + [payload[..n]]) + payload[n..] == Concat(chunks) + payload
  {
    ConcatAppend(chunks, [payload[..n]]);
    assert Concat([payload[..n]]) == payload[..n] + Concat([]);
    assert payload[..n] + payload[n..] == payload;
    assert Concat(chunks) + payload[..n] + payload[n..] == Concat(chunks) + (payload[..n] + payload[n..]);
  }

  lemma NextData(payload: seq<byte>, size: nat, session: u16, replyId: u16, rest: seq<byte>)
    requires Sliceable(payload, size) && payload != []
    ensures NextReply(DataStream(payload, size, session, replyId) + rest)
         == (Got(DataPacket(payload, size, session, replyId)),
             DataStream(payload[Min(size, |payload|)..], size, session, replyId) + rest)
  {
    var p := DataPacket(payload, size, session, replyId);
    var more := DataStream(payload[Min(size, |payload|)..], size, session, replyId);
    assert (Encode(p) + more) + rest == Encode(p) + (more + rest);
    NextReplyEncoded(p, more + rest);
  }

  /** What a reader of DATA packets makes of the reply after those it was still missing. */
  ghost predicate EndsAs(r: (ReadResult, seq<byte>), payload: seq<byte>, missing: int, rest: seq<byte>) {
    var (reply, left) := NextReply(rest);
    if missing <= 0 then r == (Ok(payload), left)
    else if reply.Failed? then r == (Err(reply.error), left)
    else if reply.packet.command == ACK_OK then r == (Ok(payload), left)
    else reply.packet.command != DATA ==> r == (Err(Unexpected(reply.packet.command)), left)
  }

  /** A reader of DATA packets, of which `expected` bytes are announced and these come. */
  lemma {:induction false} ReadDataEnds(payload: seq<byte>, size: nat, session: u16, replyId: u16, expected: nat,
                                        received: nat, chunks: seq<seq<byte>>, rest: seq<byte>)
    requires Sliceable(payload, size) && received + |payload| <= expected
    ensures EndsAs(ReadData(DataStream(payload, size, session, replyId) + rest, expected, received, chunks),
                   Concat(chunks) + payload, expected - received - |payload|, rest)
    decreases |payload|
  {
    hide Encode, DecodePacket, NextReply;
    if payload == [] {
      assert Concat(chunks) + payload == Concat(chunks);
      assert DataStream(payload, size, session, replyId) + rest == rest;
    } else {
      var n := Min(size, |payload|);
      ChunkCollected(chunks, payload, n);
      NextData(payload, size, session, replyId, rest);
      ReadDataEnds(payload[n..], size, session, replyId, expected, received + n, chunks + [payload[..n]], rest);
    }
  }

  /**
   A bulk read of `expected` bytes of which these come in DATA packets. Once all are there the
   next reply is dropped whatever it is; before that an acknowledgement ends the read early, with
   what there is, and anything but DATA is an error.
   */
  lemma BulkEnds(command: u16, expected: u32, payload: seq<byte>, size: nat, session: u16, replyId: u16,
                 rest: seq<byte>)
    requires Sliceable(payload, size) && |payload| <= expected
    ensures EndsAs(ReadStream(command, Encode(PreparePacket(expected, session, replyId))
                              + (DataStream(payload, size, session, replyId) + rest)),
                   payload, expected - |payload|, rest)
  {
    hide Encode, DecodePacket, NextReply, DataStream, EndsAs, ReadData;
    var p := PreparePacket(expected, session, replyId);
    NextReplyEncoded(p, DataStream(payload, size, session, replyId) + rest);
    assert p.data[0..4] == U32LE(expected);
    ReadBackU32(p.data, 0, expected);
    ReadDataEnds(payload, size, session, replyId, expected, 0, [], rest);
    assert Concat([]) + payload == payload;
  }

  /** Without PREPARE_DATA the first reply is the whole answer; one too short to hold a total announces nothing. */
  lemma FirstReply(command: u16, p: ZkPacket, rest: seq<byte>)
    requires Sendable(p)
    ensures var r := ReadStream(command, Encode(p) + rest);
            && (p.command == ACK_OK || p.command == DATA ==> r == (Ok(p.data), rest))
            && (p.command == ACK_ERROR ==> r == (Err(Rejected(command)), rest))
            && (p.command !in {ACK_OK, DATA, ACK_ERROR, PREPARE_DATA} ==> r == (Err(Unexpected(p.command)), rest))
            && (p.command == PREPARE_DATA && |p.data| < 4 ==> r == (Ok([]), NextReply(rest).1))
  {
    NextReplyEncoded(p, rest);
    hide Encode, DecodePacket, NextReply;
  }

  /** Without a chunk size everything travels in one packet, and no chunk is smaller than a byte. */
  lemma PiecesSent(payload: seq<byte>, n: nat, session: u16, replyId: u16)
    requires Announceable(payload, Whole) && payload != []
    ensures BulkStream(payload, Whole, session, replyId)
         == Encode(ZkPacket(PREPARE_DATA, session, replyId, U32LE(|payload|)))
            + Encode(ZkPacket(DATA, session, replyId, payload))
            + Encode(ZkPacket(ACK_OK, session, replyId, []))
    ensures PieceSize(Of(0), |payload|) == 1 && (n > 0 ==> PieceSize(Of(n), |payload|) == n)
  {
    hide Encode;
    assert payload[..|payload|] == payload;
    assert DataStream(payload[|payload|..], |payload|, session, replyId) == [];
    assert DataStream(payload, |payload|, session, replyId) == Encode(ZkPacket(DATA, session, replyId, payload)) + [];
  }

  /** A bulk exchange delivers exactly its payload and consumes exactly its own packets. */
  lemma ReadBulkStream(command: u16, payload: seq<byte>, chunkSize: ChunkSize, session: u16, replyId: u16,
                       rest: seq<byte>)
    requires Announceable(payload, chunkSize)
    ensures ReadStream(command, BulkStream(payload, chunkSize, session, replyId) + rest) == (Ok(payload), rest)
  {
    hide Encode, DecodePacket, NextReply, DataStream, ReadStream;
    var size := PieceSize(chunkSize, |payload|);
    var ack := Encode(AckPacket(session, replyId));
    var prepared := Encode(PreparePacket(|payload|, session, replyId));
    var data := DataStream(payload, size, session, replyId);
    assert BulkStream(payload, chunkSize, session, replyId) + rest == prepared + (data + (ack + rest));
    NextReplyEncoded(AckPacket(session, replyId), rest);
    BulkEnds(command, |payload|, payload, size, session, replyId, ack + rest);
  }

  // ---------------------------------------------------------------- the client

  /** The connection: the device's bytes, cut into segments that arrive one after another. */
  class Network {
    const segments: seq<seq<byte>>
    var next: nat

    constructor (segments: seq<seq<byte>>)
      ensures Valid() && this.segments == segments && Undelivered() == Concat(segments)
    {
      this.segments := segments;
      next := 0;
    }

    ghost predicate Valid()
      reads this
    {
      next <= |segments|
    }

    ghost function Undelivered(): seq<byte>
      requires Valid()
      reads this
    {
      Concat(segments[next..])
    }

    method Deliver() returns (chunk: seq<byte>)
      requires Valid() && next < |segments|
      modifies this
      ensures Valid() && next == old(next) + 1
      ensures old(Undelivered()) == chunk + Undelivered()
    {
      chunk := segments[next];
      next := next + 1;
      assert segments[old(next)..][1..] == segments[next..];
    }
  }

  datatype Promise = Unsettled | Settled(reply: Reply)

  class ZkTcpClient {
    var open: bool
    var buffer: seq<byte>
    /** A waiter is registered; `promise` is what it was handed. */
    var pending: bool
    var promise: Promise
    var sessionId: u16
    var replyId: u16
    /** Bytes written to the socket. */
    var sent: seq<byte>

    constructor ()
      ensures open && buffer == [] && !pending
    {
      open, buffer, pending, promise := true, [], false, Unsettled;
      sessionId, replyId, sent := 0, 0, [];
    }

    method Drain()
      modifies this`buffer, this`pending, this`promise
      ensures !old(pending) ==> buffer == old(buffer) && promise == old(promise) && !pending
      ensures old(pending) && DecodePacket(old(buffer)) == Partial ==>
                buffer == old(buffer) && promise == old(promise) && pending
      ensures old(pending) && DecodePacket(old(buffer)) != Partial ==>
                !pending && (promise, buffer) == (Settled(NextReply(old(buffer)).0), NextReply(old(buffer)).1)
    {
      while pending
        invariant pending ==> buffer == old(buffer) && promise == old(promise)
        invariant !old(pending) ==> buffer == old(buffer) && promise == old(promise)
        invariant old(pending) && !pending ==>
                    && DecodePacket(old(buffer)) != Partial
                    && (promise, buffer) == (Settled(NextReply(old(buffer)).0), NextReply(old(buffer)).1)
        decreases pending
      {
        match DecodePacket(buffer)
        case BadHeader =>
          FailPending(BadPacket);
          return;
        case BadChecksum =>
          FailPending(BadPacket);
          return;
        case Partial =>
          return;
        case Complete(packet, consumed) =>
          buffer := buffer[consumed..];
          pending := false;
          promise := Settled(Got(packet));
      }
    }

    method FailPending(error: ZkError)
      modifies this`pending, this`promise
      ensures !pending && promise == if old(pending) then Settled(Failed(error)) else old(promise)
    {
      if pending {
        pending := false;
        promise := Settled(Failed(error));
      }
    }

    method OnData(chunk: seq<byte>)
      modifies this`buffer, this`pending, this`promise
      ensures !old(pending) ==> buffer == old(buffer) + chunk && promise == old(promise) && !pending
      ensures var b := old(buffer) + chunk;
              old(pending) ==>
                if DecodePacket(b) == Partial then buffer == b && promise == old(promise) && pending
                else !pending && (promise, buffer) == (Settled(NextReply(b).0), NextReply(b).1)
    {
      buffer := buffer + chunk;
      Drain();
    }

    /**
     Waits for one packet while segments keep arriving. Any number of further segments may come
     in after the packet is decoded and before whoever waited for it goes on.
     */
    method Receive(net: Network) returns (reply: Reply)
      requires net.Valid()
      modifies this`buffer, this`pending, this`promise, net
      ensures net.Valid()
      ensures old(pending) ==> reply == Failed(ConcurrentRead) && buffer == old(buffer) && net.next == old(net.next)
      ensures !old(pending) ==>
                !pending && (reply, buffer + net.Undelivered()) == NextReply(old(buffer + net.Undelivered()))
    {
      if pending {
        return Failed(ConcurrentRead);
      }
      ghost var stream := buffer + net.Undelivered();
      assert DecodePacket(stream) == Partial ==> NextReply(stream) == (Failed(Timeout), stream);
      hide DecodePacket, NextReply;
      promise := Unsettled;
      pending := true;
      SplitStream(buffer, net.Undelivered());
      Drain();
      while pending && net.next < |net.segments|
        invariant net.Valid()
        invariant pending ==>
                    promise == Unsettled && DecodePacket(buffer) == Partial && buffer + net.Undelivered() == stream
        invariant !pending ==>
                    (promise, buffer + net.Undelivered()) == (Settled(NextReply(stream).0), NextReply(stream).1)
        decreases |net.segments| - net.next
      {
        ghost var before := buffer;
        var chunk := net.Deliver();
        assert before + (chunk + net.Undelivered()) == (before + chunk) + net.Undelivered();
        SplitStream(before + chunk, net.Undelivered());
        OnData(chunk);
      }
      if pending {
        assert buffer + net.Undelivered() == buffer;
        FailPending(Timeout);
      }
      label settled:
      while net.next < |net.segments|
        invariant net.Valid() && !pending && promise == old@settled(promise)
        invariant buffer + net.Undelivered() == old@settled(buffer + net.Undelivered())
        decreases |net.segments| - net.next
      {
        if * {
          break;
        }
        ghost var before := buffer;
        var chunk := net.Deliver();
        assert before + (chunk + net.Undelivered()) == (before + chunk) + net.Undelivered();
        OnData(chunk);
      }
      reply := promise.reply;
    }

    /** Sends a request and waits for its first reply. */
    method Transmit(command: u16, data: seq<byte>, net: Network) returns (reply: Reply)
      requires net.Valid() && PACKET_HEADER_SIZE + |data| < 0x1_0000_0000
      modifies this, net
      ensures net.Valid() && sessionId == old(sessionId) && open == old(open)
      ensures !open ==>
                reply == Failed(NotConnected) && buffer == old(buffer) && net.next == old(net.next) && sent == old(sent)
      ensures open ==> replyId == (old(replyId) + 1) % 0x1_0000
      ensures open ==> sent == old(sent) + Encode(ZkPacket(command, sessionId, replyId, data))
      ensures open && !old(pending) ==>
                var (first, rest) := NextReply(old(buffer + net.Undelivered()));
                && !pending
                && buffer + net.Undelivered() == rest
                && reply == if first.Got? && first.packet.command == ACK_ERROR then Failed(Rejected(command)) else first
    {
      if !open {
        return Failed(NotConnected);
      }
      replyId := (replyId + 1) % 0x1_0000;
      var packet := BuildPacket(ZkPacket(command, sessionId, replyId, data));
      sent := sent + packet[..];
      reply := Receive(net);
      if reply.Got? && reply.packet.command == ACK_ERROR {
        reply := Failed(Rejected(command));
      }
    }

    /** The DATA loop of `Read`, up to the trailing ACK_OK. */
    method ReadChunks(expected: nat, net: Network) returns (result: ReadResult)
      requires net.Valid() && !pending
      modifies this`buffer, this`pending, this`promise, net
      ensures net.Valid() && !pending
      ensures (result, buffer + net.Undelivered()) == ReadData(old(buffer + net.Undelivered()), expected, 0, [])
    {
      ghost var whole := ReadData(buffer + net.Undelivered(), expected, 0, []);
      var chunks := [];
      var received: nat := 0;
      while received < expected
        invariant net.Valid() && !pending
        invariant ReadData(buffer + net.Undelivered(), expected, received, chunks) == whole
        decreases |buffer + net.Undelivered()|
      {
        var reply := Receive(net);
        if reply.Failed? {
          return Err(reply.error);
        }
        if reply.packet.command == ACK_OK {
          return Ok(Concat(chunks));
        }
        if reply.packet.command != DATA {
          return Err(Unexpected(reply.packet.command));
        }
        chunks := chunks + [reply.packet.data];
        received := received + |reply.packet.data|;
      }
      var trailing := Receive(net);
      return Ok(Concat(chunks));
    }

    /**
     Bulk read. Its result depends only on the bytes the device answers with: not on how they
     were cut into segments, nor on when those segments arrived.
     */
    method Read(command: u16, data: seq<byte>, net: Network) returns (result: ReadResult)
      requires net.Valid() && open && !pending && PACKET_HEADER_SIZE + |data| < 0x1_0000_0000
      modifies this, net
      ensures net.Valid() && open && !pending
      ensures sent == old(sent) + Encode(ZkPacket(command, old(sessionId), (old(replyId) + 1) % 0x1_0000, data))
      ensures (result, buffer + net.Undelivered()) == ReadStream(command, old(buffer + net.Undelivered()))
    {
      var first := Transmit(command, data, net);
      if first.Failed? {
        return Err(first.error);
      }
      if first.packet.command == DATA {
        return Ok(first.packet.data);
      }
      if first.packet.command != PREPARE_DATA {
        if first.packet.command == ACK_OK {
          return Ok(first.packet.data);
        }
        return Err(Unexpected(first.packet.command));
      }
      result := ReadChunks(Expected(first.packet.data), net);
    }
  }

  /** A prefix of the stream that already decides the next reply decides it as the stream does. */
  lemma SplitStream(buffer: seq<byte>, undelivered: seq<byte>)
    ensures DecodePacket(buffer) != Partial ==>
              var (reply, rest) := NextReply(buffer);
              NextReply(buffer + undelivered) == (reply, rest + undelivered)
  {
    hide DecodePacket;
    if DecodePacket(buffer) != Partial {
      DecodeStable(buffer, undelivered);
      if DecodePacket(buffer).Complete? {
        var n := DecodePacket(buffer).consumed;
        assert (buffer + undelivered)[n..] == buffer[n..] + undelivered;
      }
    }
  }

  // ---------------------------------------------------------------- end to end

  /**
   Records in, records out: whatever the chunk size, however the stream was cut and however the
   segments interleaved with the reader, the download is the terminal's memory, in order, and
   nothing of the exchange is left behind.
   */
  method DownloadRecords(client: ZkTcpClient, net: Network, command: u16, ghost records: seq<AttendanceRecord>,
                         ghost chunkSize: ChunkSize, ghost session: u16, ghost replyId: u16)
    returns (result: ReadResult, parsed: seq<AttendanceRecord>)
    requires TimesValid(records)
    requires Announceable(Dump(records), chunkSize)
    requires net.Valid() && client.open && !client.pending
    requires client.buffer + net.Undelivered() == BulkStream(Dump(records), chunkSize, session, replyId)
    modifies client, net
    ensures net.Valid() && result == Ok(Dump(records))
    ensures parsed == ParseRecords(Dump(records))
    ensures parsed == records <==> forall i :: 0 <= i < |records| ==> Faithful(records[i])
    ensures client.buffer == [] && net.Undelivered() == []
  {
    ghost var stream := client.buffer + net.Undelivered();
    result := client.Read(command, [], net);
    ReadBulkStream(command, Dump(records), chunkSize, session, replyId, []);
    assert stream + [] == stream;
    parsed := ParseAttendanceRecords(result.payload);
    DumpRoundTrip(records);
  }
}
