/** From SendPacket on one side, through the send protocol and any fragmentation, to the
    handlers on the other side. */
module RoundTrip {
  import opened ByteBuffer
  import opened Framing
  import opened RecvSession
  import opened SendQueue
  import opened SendProtocol

  function AsBuffers(frames: seq<seq<Byte>>): (q: seq<SendBuffer>)
    ensures |q| == |frames| && forall i :: 0 <= i < |q| ==> q[i] == Buffer(frames[i])
  {
    if frames == [] then [] else [Buffer(frames[0])] + AsBuffers(frames[1..])
  }

  lemma {:induction false} BytesOfFrames(frames: seq<seq<Byte>>)
    ensures BytesOf(AsBuffers(frames)) == Concat(frames)
    decreases |frames|
  {
    if frames != [] {
      BytesOfFrames(frames[1..]);
    }
  }

  ghost predicate Sendable(msgs: seq<Message>) {
    forall m :: m in msgs ==> |m.payload| <= MAX_PAYLOAD
  }

  /** The buffers accepted by the session are the frames of `msgs`. */
  ghost predicate Accepted(s: State, msgs: seq<Message>) {
    Sendable(msgs) && s.log == AsBuffers(FrameAll(msgs))
  }

  /** A stream that is cut short delivers whole messages only, and never closes the session. */
  lemma PrefixDelivers(msgs: seq<Message>, arrived: seq<Byte>, missing: seq<Byte>)
    requires Sendable(msgs) && arrived + missing == Concat(FrameAll(msgs))
    ensures !Parse(arrived).bad && Parse(arrived).packets <= FrameAll(msgs)
  {
    ParseFrames(msgs);
    if Parse(arrived).bad {
      ParseAppendBad(arrived, missing);
    } else {
      ParseAppendGood(arrived, missing);
    }
  }

  lemma HandlePrefix(msgs: seq<Message>, packets: seq<seq<Byte>>)
    requires Sendable(msgs) && packets <= FrameAll(msgs)
    ensures forall i :: 0 <= i < |packets| ==> IsPacket(packets[i])
    ensures HandleAll(packets) <= msgs
  {
    forall i | 0 <= i < |packets|
      ensures packets[i] == FrameAll(msgs)[i] && IsPacket(packets[i])
    {
      assert packets[i] == FrameAll(msgs)[i];
    }
  }

  /** The receiver is open and has handled the first of `msgs`. */
  ghost predicate HandledPrefix(end: RecvState, msgs: seq<Message>) {
    && !end.closed
    && (forall k :: 0 <= k < |end.delivered| ==> IsPacket(end.delivered[k]))
    && HandleAll(end.delivered) <= msgs
  }

  lemma ReceivePrefix(msgs: seq<Message>, chunks: seq<seq<Byte>>, missing: seq<Byte>)
    requires Sendable(msgs) && AllNonEmpty(chunks) && Concat(chunks) + missing == Concat(FrameAll(msgs))
    ensures HandledPrefix(RecvAll(RecvState([], [], false), chunks), msgs)
  {
    var arrived := Concat(chunks);
    PrefixDelivers(msgs, arrived, missing);
    NonEmptyChunks(chunks);
    var end := RecvAll(RecvState([], [], false), chunks);
    assert end.delivered == Parse(arrived).packets;
    HandlePrefix(msgs, end.delivered);
  }

  /** At any moment of any orderly run, whatever part of the wire has arrived and however it was cut:
      the handlers were given a prefix of the messages, and the session is open. */
  lemma DeliveredIsPrefix(run: seq<State>, acts: seq<Act>, i: nat, msgs: seq<Message>, chunks: seq<seq<Byte>>)
    requires IsOrderly(run, acts) && i < |run| && Accepted(run[i], msgs)
    requires AllNonEmpty(chunks) && Concat(chunks) <= run[i].wire
    ensures HandledPrefix(RecvAll(RecvState([], [], false), chunks), msgs)
  {
    var s, arrived := run[i], Concat(chunks);
    BytesConserved(run, acts, i);
    var h :| HeldBy(s, h) && BytesOf(s.log) == s.wire + InHand(s, h) + BytesOf(s.sendDeque);
    BytesOfFrames(FrameAll(msgs));
    Reassemble(s.wire, InHand(s, h), BytesOf(s.sendDeque), arrived);
    ReceivePrefix(msgs, chunks, s.wire[|arrived|..] + (InHand(s, h) + BytesOf(s.sendDeque)));
  }

  lemma Reassemble(wire: seq<Byte>, hand: seq<Byte>, queued: seq<Byte>, arrived: seq<Byte>)
    requires arrived <= wire
    ensures arrived + (wire[|arrived|..] + (hand + queued)) == wire + hand + queued
  {
  }

  lemma FramesCarry(msgs: seq<Message>)
    requires Sendable(msgs)
    ensures forall b :: b in AsBuffers(FrameAll(msgs)) ==> Carries(b)
  {
    forall b | b in AsBuffers(FrameAll(msgs))
      ensures Carries(b)
    {
      var k :| 0 <= k < |AsBuffers(FrameAll(msgs))| && AsBuffers(FrameAll(msgs))[k] == b;
      assert b == Buffer(FrameAll(msgs)[k]) && IsPacket(FrameAll(msgs)[k]);
    }
  }

  /** The receiver handled exactly `msgs` and holds nothing back. */
  ghost predicate HandledExactly(end: RecvState, msgs: seq<Message>) {
    && !end.closed && end.pending == []
    && (forall k :: 0 <= k < |end.delivered| ==> IsPacket(end.delivered[k]))
    && HandleAll(end.delivered) == msgs
  }

  lemma ReceiveFrames(msgs: seq<Message>, chunks: seq<seq<Byte>>)
    requires Sendable(msgs) && AllNonEmpty(chunks) && Concat(chunks) == Concat(FrameAll(msgs))
    ensures HandledExactly(RecvAll(RecvState([], [], false), chunks), msgs)
  {
    NonEmptyChunks(chunks);
    ParseFrames(msgs);
    var end := RecvAll(RecvState([], [], false), chunks);
    assert end.delivered == FrameAll(msgs);
  }

  /** Once the sender of an orderly run is quiet and the whole wire has arrived, in chunks of any size, the
      handlers were given exactly the messages sent, in order, and nothing is left over. */
  lemma SendReceiveRoundTrip(run: seq<State>, acts: seq<Act>, i: nat, msgs: seq<Message>, chunks: seq<seq<Byte>>)
    requires IsOrderly(run, acts) && i < |run| && Accepted(run[i], msgs) && !run[i].sending
    requires AllNonEmpty(chunks) && Concat(chunks) == run[i].wire
    ensures HandledExactly(RecvAll(RecvState([], [], false), chunks), msgs)
  {
    FramesCarry(msgs);
    QuietMeansSent(run, acts, i);
    BytesOfFrames(FrameAll(msgs));
    ReceiveFrames(msgs, chunks);
  }
}
