/** Packets on the wire: `[id][size][payload]`, both header fields 16 bits little endian, the
    size counting the header (ServerCore/Network/Session.h, GameServer/Packet/PacketHandler.h). */
module Framing {
  import opened ByteBuffer

  const HEADER_SIZE: nat := 4

  function HeaderId(s: seq<Byte>): nat
    requires |s| >= HEADER_SIZE
  {
    s[0] as int + 256 * s[1] as int
  }

  function HeaderSize(s: seq<Byte>): nat
    requires |s| >= HEADER_SIZE
  {
    s[2] as int + 256 * s[3] as int
  }

  /** What the receiver makes of a byte stream: the packets delivered, the bytes left over, and
      whether it stopped at a header with an impossible size. */
  datatype Parsed = Parsed(packets: seq<seq<Byte>>, rest: seq<Byte>, bad: bool)

  function Parse(s: seq<Byte>): Parsed {
    if |s| < HEADER_SIZE then Parsed([], s, false)
    else
      var size := HeaderSize(s);
      if size > MAX_PACKET_SIZE || HEADER_SIZE > size then Parsed([], s, true)
      else if size > |s| then Parsed([], s, false)
      else
        var p := Parse(s[size..]);
        Parsed([s[..size]] + p.packets, p.rest, p.bad)
  }

  function Concat(parts: seq<seq<Byte>>): seq<Byte> {
    if parts == [] then [] else parts[0] + Concat(parts[1..])
  }

  // ---- what a parse means, without the recursion ----

  /** A complete packet: its header gives its own length, within the limits. */
  predicate IsPacket(p: seq<Byte>) {
    HEADER_SIZE <= |p| <= MAX_PACKET_SIZE && HeaderSize(p) == |p|
  }

  predicate BadHeader(s: seq<Byte>) {
    |s| >= HEADER_SIZE && (HeaderSize(s) > MAX_PACKET_SIZE || HeaderSize(s) < HEADER_SIZE)
  }

  /** The start of a packet of which at least one byte is missing. */
  predicate Incomplete(s: seq<Byte>) {
    |s| < HEADER_SIZE || (!BadHeader(s) && HeaderSize(s) > |s|)
  }

  ghost predicate IsParseOf(p: Parsed, s: seq<Byte>) {
    && s == Concat(p.packets) + p.rest
    && (forall i :: 0 <= i < |p.packets| ==> IsPacket(p.packets[i]))
    && if p.bad then BadHeader(p.rest) else Incomplete(p.rest)
  }

  lemma {:induction false} ParseIsParse(s: seq<Byte>)
    ensures IsParseOf(Parse(s), s)
    ensures !Parse(s).bad ==> |Parse(s).rest| < MAX_PACKET_SIZE
    decreases |s|
  {
    if |s| >= HEADER_SIZE {
      var size := HeaderSize(s);
      if HEADER_SIZE <= size <= MAX_PACKET_SIZE && size <= |s| {
        ParseIsParse(s[size..]);
        ConsParse(s[..size], Parse(s[size..]), s[size..]);
        assert s == s[..size] + s[size..];
      }
    }
  }

  lemma ConsParse(packet: seq<Byte>, p: Parsed, s: seq<Byte>)
    requires IsPacket(packet) && IsParseOf(p, s)
    ensures IsParseOf(Parsed([packet] + p.packets, p.rest, p.bad), packet + s)
  {
    assert ([packet] + p.packets)[1..] == p.packets;
  }

  /** There is only one way to cut a stream into packets and an undeliverable rest. */
  lemma {:induction false} ParseIsUnique(p: Parsed, s: seq<Byte>)
    requires IsParseOf(p, s)
    ensures p == Parse(s)
    decreases |p.packets|
  {
    if p.packets == [] {
      assert s == p.rest;
    } else {
      var first := p.packets[0];
      var tail := Parsed(p.packets[1..], p.rest, p.bad);
      assert s == first + (Concat(p.packets[1..]) + p.rest);
      assert s[..|first|] == first && s[|first|..] == Concat(p.packets[1..]) + p.rest;
      assert HeaderSize(s) == HeaderSize(first);
      ParseIsUnique(tail, s[|first|..]);
      assert [first] + p.packets[1..] == p.packets;
    }
  }

  lemma {:induction false} ConcatAppend(a: seq<seq<Byte>>, b: seq<seq<Byte>>)
    ensures Concat(a + b) == Concat(a) + Concat(b)
    decreases |a|
  {
    if a == [] {
      assert a + b == b;
    } else {
      assert (a + b)[1..] == a[1..] + b;
      ConcatAppend(a[1..], b);
    }
  }

  lemma JoinParses(pa: Parsed, a: seq<Byte>, pb: Parsed, b: seq<Byte>)
    requires IsParseOf(pa, a) && !pa.bad && IsParseOf(pb, pa.rest + b)
    ensures IsParseOf(Parsed(pa.packets + pb.packets, pb.rest, pb.bad), a + b)
  {
    ConcatAppend(pa.packets, pb.packets);
    calc {
      a + b;
      Concat(pa.packets) + pa.rest + b;
      { assert Concat(pa.packets) + pa.rest + b == Concat(pa.packets) + (pa.rest + b); }
      Concat(pa.packets) + (Concat(pb.packets) + pb.rest);
      { assert Concat(pa.packets) + (Concat(pb.packets) + pb.rest)
            == Concat(pa.packets) + Concat(pb.packets) + pb.rest; }
      Concat(pa.packets + pb.packets) + pb.rest;
    }
  }

  /** After a bad header more bytes change nothing that was delivered. */
  lemma ParseAppendBad(a: seq<Byte>, b: seq<Byte>)
    requires Parse(a).bad
    ensures Parse(a + b) == Parsed(Parse(a).packets, Parse(a).rest + b, true)
  {
    var pa := Parse(a);
    ParseIsParse(a);
    assert a + b == Concat(pa.packets) + (pa.rest + b);
    assert HeaderSize(pa.rest + b) == HeaderSize(pa.rest);
    ParseIsUnique(Parsed(pa.packets, pa.rest + b, true), a + b);
  }

  /** Otherwise parsing may stop and go on from its rest when more bytes come. */
  lemma ParseAppendGood(a: seq<Byte>, b: seq<Byte>)
    requires !Parse(a).bad
    ensures var pa, pb := Parse(a), Parse(Parse(a).rest + b);
            Parse(a + b) == Parsed(pa.packets + pb.packets, pb.rest, pb.bad)
  {
    var pa := Parse(a);
    var pb := Parse(pa.rest + b);
    ParseIsParse(a);
    ParseIsParse(pa.rest + b);
    JoinParses(pa, a, pb, b);
    ParseIsUnique(Parsed(pa.packets + pb.packets, pb.rest, pb.bad), a + b);
  }

  /** A rest that is not bad is stuck: parsing it again delivers nothing. */
  lemma ParseRest(s: seq<Byte>)
    ensures Parse(Parse(s).rest) == Parsed([], Parse(s).rest, Parse(s).bad)
  {
    ParseIsParse(s);
  }

  // ---- the sender's side ----

  type PacketId = id: nat | id < 0x1_0000

  const MAX_PAYLOAD: nat := MAX_PACKET_SIZE - HEADER_SIZE

  function Frame(id: PacketId, payload: seq<Byte>): (frame: seq<Byte>)
    requires |payload| <= MAX_PAYLOAD
    ensures IsPacket(frame) && HeaderId(frame) == id && frame[HEADER_SIZE..] == payload
  {
    var size := HEADER_SIZE + |payload|;
    [id % 256, id / 256, size % 256, size / 256] + payload
  }

  /** On the wire: the id, then the size with the header, both low byte first, then the payload. */
  lemma FrameBytes(id: PacketId, payload: seq<Byte>)
    requires |payload| <= MAX_PAYLOAD
    ensures var frame := Frame(id, payload);
            && frame[0] as int + frame[1] as int * 256 == id
            && frame[2] as int + frame[3] as int * 256 == 4 + |payload|
            && frame[4..] == payload
  {
  }

  /** The total size the sender computes, with both its truncations to 16 bits. */
  function SenderTotalSize(payloadSize: nat): nat {
    (HEADER_SIZE + payloadSize % 0x1_0000) % 0x1_0000
  }

  predicate SenderAccepts(payloadSize: nat) {
    SenderTotalSize(payloadSize) <= MAX_PACKET_SIZE
  }

  /** The size check looks at the truncated size, so it answers the real question exactly for
      the payloads whose total does not wrap back into the accepted range. */
  lemma SizeCheckExactIff(payloadSize: nat)
    ensures (SenderAccepts(payloadSize) <==> payloadSize <= MAX_PAYLOAD)
            <==> payloadSize <= MAX_PAYLOAD || (HEADER_SIZE + payloadSize) % 0x1_0000 > MAX_PACKET_SIZE
  {
    TruncatedTwice(payloadSize);
  }

  lemma TruncatedTwice(n: nat)
    ensures SenderTotalSize(n) == (HEADER_SIZE + n) % 0x1_0000
  {
    var q, r := n / 0x1_0000, n % 0x1_0000;
    assert HEADER_SIZE + n == 0x1_0000 * q + (HEADER_SIZE + r);
    if HEADER_SIZE + r < 0x1_0000 {
      assert (HEADER_SIZE + n) / 0x1_0000 == q;
    } else {
      assert (HEADER_SIZE + n) / 0x1_0000 == q + 1;
    }
  }

  /** A 64 KiB payload is let through as if it were empty. */
  lemma SizeCheckAcceptsHugePayload()
    ensures SenderAccepts(0x1_0000) && SenderTotalSize(0x1_0000) == HEADER_SIZE && 0x1_0000 > MAX_PAYLOAD
  {
  }

  /** The header and the payload lie inside the buffer made for them exactly when the size is
      rejected or its low 16 bits leave room for the header. */
  lemma HeaderFitsIff(payloadSize: nat)
    ensures (SenderAccepts(payloadSize) ==> HEADER_SIZE <= SenderTotalSize(payloadSize))
            <==> payloadSize % 0x1_0000 < 0xFFFC
    ensures payloadSize % 0x1_0000 < 0xFFFC <==> SenderTotalSize(payloadSize) == HEADER_SIZE + payloadSize % 0x1_0000
  {
  }

  /** A payload of 65532 bytes is let through with a buffer of no bytes at all. */
  lemma HeaderMissesBuffer()
    ensures SenderAccepts(65532) && SenderTotalSize(65532) == 0
  {
  }

  /** Nothing is sent; the header is written outside the buffer; or the buffer goes to the session. */
  datatype SendOutcome = TooLong | Overrun | Sent(sendBuffer: BaseBuffer)

  /** SendPacket, for a message of any size. `serialized` is what the serializer leaves in the bytes
      it is told of: the payload when the size it is told is right, and foreign otherwise. */
  method SendPacket(id: PacketId, payload: seq<Byte>, serialized: seq<Byte>) returns (outcome: SendOutcome)
    requires |serialized| == |payload| % 0x1_0000 && (|payload| < 0x1_0000 ==> serialized == payload)
    ensures outcome.TooLong? <==> MAX_PAYLOAD < |payload| % 0x1_0000 < 0xFFFC
    ensures outcome.Overrun? <==> |payload| % 0x1_0000 >= 0xFFFC
    ensures outcome.Sent? ==> fresh(outcome.sendBuffer) && outcome.sendBuffer.Valid()
    ensures outcome.Sent? ==> |serialized| <= MAX_PAYLOAD && outcome.sendBuffer.Data() == Frame(id, serialized)
  {
    var payloadSize := |payload| % 0x1_0000;
    var totalSize := (HEADER_SIZE + payloadSize) % 0x1_0000;
    if totalSize > MAX_PACKET_SIZE {
      return TooLong;
    }
    var sendBuffer := new BaseBuffer(totalSize);
    if sendBuffer.writePos + HEADER_SIZE > sendBuffer.buffer.Length {
      return Overrun;
    }
    WriteFrame(sendBuffer.buffer, sendBuffer.writePos, id, serialized, totalSize);
    sendBuffer.MoveWritePos(totalSize);
    return Sent(sendBuffer);
  }

  /** Writes the header fields and the payload at the write position. */
  method WriteFrame(buffer: array<Byte>, start: nat, id: PacketId, payload: seq<Byte>, totalSize: nat)
    requires totalSize == HEADER_SIZE + |payload| <= MAX_PACKET_SIZE && start + totalSize <= buffer.Length
    modifies buffer
    ensures buffer[start..start + totalSize] == Frame(id, payload)
    ensures forall k :: 0 <= k < start || start + totalSize <= k < buffer.Length ==> buffer[k] == old(buffer[k])
  {
    buffer[start + 2] := totalSize % 256;
    buffer[start + 3] := totalSize / 256;
    buffer[start] := id % 256;
    buffer[start + 1] := id / 256;
    forall i | 0 <= i < |payload| {
      buffer[start + HEADER_SIZE + i] := payload[i];
    }
  }

  datatype Message = Message(id: PacketId, payload: seq<Byte>)

  /** What a handler is given for a delivered packet: its id and the bytes after the header. */
  function HandlePacket(packet: seq<Byte>): Message
    requires IsPacket(packet)
  {
    Message(HeaderId(packet), packet[HEADER_SIZE..])
  }

  function FrameAll(msgs: seq<Message>): (frames: seq<seq<Byte>>)
    requires forall m :: m in msgs ==> |m.payload| <= MAX_PAYLOAD
    ensures |frames| == |msgs|
    ensures forall i :: 0 <= i < |msgs| ==> IsPacket(frames[i]) && HandlePacket(frames[i]) == msgs[i]
  {
    if msgs == [] then [] else [Frame(msgs[0].id, msgs[0].payload)] + FrameAll(msgs[1..])
  }

  function HandleAll(packets: seq<seq<Byte>>): (msgs: seq<Message>)
    requires forall i :: 0 <= i < |packets| ==> IsPacket(packets[i])
  {
    seq(|packets|, i requires 0 <= i < |packets| => HandlePacket(packets[i]))
  }

  /** Framing then parsing gives the messages back and leaves nothing over. */
  lemma ParseFrames(msgs: seq<Message>)
    requires forall m :: m in msgs ==> |m.payload| <= MAX_PAYLOAD
    ensures Parse(Concat(FrameAll(msgs))) == Parsed(FrameAll(msgs), [], false)
    ensures HandleAll(FrameAll(msgs)) == msgs
  {
    assert Concat(FrameAll(msgs)) + [] == Concat(FrameAll(msgs));
    ParseIsUnique(Parsed(FrameAll(msgs), [], false), Concat(FrameAll(msgs)));
  }
}
