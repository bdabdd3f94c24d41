/** The queue of outgoing buffers of a session and what its critical sections do to it
    (ServerCore/Network/Session.cpp, ServerCore/Network/SendBuffer.cpp). */
module SendQueue {
  import opened ByteBuffer

  const MAX_SEND_BUFFER_COUNT: nat := 10

  /** A reference in the queue: null, or a buffer with the bytes between its cursors. */
  datatype SendBuffer = Null | Buffer(unsent: seq<Byte>)

  /** Whether the buffer is neither null nor completed. */
  predicate Carries(b: SendBuffer) {
    b.Buffer? && b.unsent != []
  }

  function Bytes(b: SendBuffer): seq<Byte> {
    if b.Null? then [] else b.unsent
  }

  function BytesOf(q: seq<SendBuffer>): seq<Byte> {
    if q == [] then [] else Bytes(q[0]) + BytesOf(q[1..])
  }

  lemma {:induction false} BytesOfAppend(a: seq<SendBuffer>, b: seq<SendBuffer>)
    ensures BytesOf(a + b) == BytesOf(a) + BytesOf(b)
    decreases |a|
  {
    if a == [] {
      assert a + b == b;
    } else {
      assert (a + b)[1..] == a[1..] + b;
      BytesOfAppend(a[1..], b);
    }
  }

  lemma BytesOfOne(b: SendBuffer)
    ensures BytesOf([b]) == Bytes(b)
  {
    assert [b][1..] == [];
  }

  // ---- taking a batch ----

  /** The buffers that go into one send, at most `room` of them, and the queue that stays. */
  function TakeBatch(q: seq<SendBuffer>, room: nat): (seq<SendBuffer>, seq<SendBuffer>) {
    if q == [] || room == 0 then ([], q)
    else if !Carries(q[0]) then TakeBatch(q[1..], room)
    else
      var (batch, rest) := TakeBatch(q[1..], room - 1);
      ([q[0]] + batch, rest)
  }

  /** A batch is the front of the queue without the buffers that carry nothing. */
  lemma {:induction false} TakeBatchKeepsBytes(q: seq<SendBuffer>, room: nat)
    ensures BytesOf(TakeBatch(q, room).0) + BytesOf(TakeBatch(q, room).1) == BytesOf(q)
    decreases |q|
  {
    if q != [] && room > 0 {
      if !Carries(q[0]) {
        TakeBatchKeepsBytes(q[1..], room);
      } else {
        var (batch, rest) := TakeBatch(q[1..], room - 1);
        TakeBatchKeepsBytes(q[1..], room - 1);
        assert ([q[0]] + batch)[1..] == batch;
        assert q[0].unsent + (BytesOf(batch) + BytesOf(rest)) == (q[0].unsent + BytesOf(batch)) + BytesOf(rest);
      }
    }
  }

  /** It has at most `room` buffers, and is empty only when the whole queue carries nothing
      and is used up. */
  lemma {:induction false} TakeBatchSplits(q: seq<SendBuffer>, room: nat)
    ensures var (batch, rest) := TakeBatch(q, room);
            && |batch| <= room
            && (forall b :: b in batch ==> Carries(b) && b in q)
            && (forall b :: b in rest ==> b in q)
            && (batch == [] && room > 0 ==> rest == [] && forall b :: b in q ==> !Carries(b))
            && (|batch| < room ==> rest == [])
    decreases |q|
  {
    if q != [] && room > 0 {
      assert q == [q[0]] + q[1..];
      TakeBatchSplits(q[1..], if Carries(q[0]) then room - 1 else room);
    }
  }

  // ---- after a completion ----

  /** The buffers put back after `transferred` bytes of the batch went out. */
  function Requeued(batch: seq<SendBuffer>, transferred: nat): seq<SendBuffer> {
    if batch == [] || transferred == 0 then []
    else if batch[0].Null? then Requeued(batch[1..], transferred)
    else if transferred >= |batch[0].unsent| then Requeued(batch[1..], transferred - |batch[0].unsent|)
    else [batch[0]]
  }

  lemma {:induction false} WholeBatchRequeuesNothing(batch: seq<SendBuffer>)
    ensures Requeued(batch, |BytesOf(batch)|) == []
    decreases |batch|
  {
    if batch != [] && BytesOf(batch) != [] {
      WholeBatchRequeuesNothing(batch[1..]);
    }
  }

  /** What goes back is exactly what did not go out. */
  predicate KeepsUnsent(batch: seq<SendBuffer>, transferred: nat) {
    transferred <= |BytesOf(batch)| && BytesOf(Requeued(batch, transferred)) == BytesOf(batch)[transferred..]
  }

  /** The transfer ends strictly inside a buffer of the batch. */
  ghost predicate EndsInside(batch: seq<SendBuffer>, transferred: nat, i: nat) {
    i < |batch| && |BytesOf(batch[..i])| < transferred < |BytesOf(batch[..i + 1])|
  }

  lemma EndsInsideRest(batch: seq<SendBuffer>, transferred: nat, i: nat)
    requires batch != [] && transferred >= |Bytes(batch[0])|
    ensures EndsInside(batch, transferred, i + 1) <==> EndsInside(batch[1..], transferred - |Bytes(batch[0])|, i)
  {
    if i + 1 < |batch| {
      FrontBytes(batch, i);
      FrontBytes(batch, i + 1);
    }
  }

  lemma FrontBytes(batch: seq<SendBuffer>, i: nat)
    requires i < |batch|
    ensures |BytesOf(batch[..i + 1])| == |Bytes(batch[0])| + |BytesOf(batch[1..][..i])|
  {
    assert batch[..i + 1][1..] == batch[1..][..i];
  }

  /** A transfer that ends strictly inside a buffer puts exactly that buffer back, whole. */
  lemma {:induction false} RequeuesOneWhole(batch: seq<SendBuffer>, transferred: nat, i: nat)
    requires EndsInside(batch, transferred, i)
    ensures Requeued(batch, transferred) == [batch[i]]
    decreases |batch|
  {
    var size := |Bytes(batch[0])|;
    FrontBytes(batch, 0);
    if i > 0 {
      FrontBytes(batch, i - 1);
      EndsInsideRest(batch, transferred, i - 1);
      RequeuesOneWhole(batch[1..], transferred - size, i - 1);
    }
  }

  /** Any other transfer puts nothing back: one that ends between two buffers loses all after it. */
  lemma {:induction false} RequeuesOnlyInside(batch: seq<SendBuffer>, transferred: nat) returns (i: nat)
    requires Requeued(batch, transferred) != []
    ensures EndsInside(batch, transferred, i)
    decreases |batch|
  {
    var size := |Bytes(batch[0])|;
    if transferred < size {
      FrontBytes(batch, 0);
      i := 0;
    } else {
      i := RequeuesOnlyInside(batch[1..], transferred - size);
      EndsInsideRest(batch, transferred, i);
      i := i + 1;
    }
  }

  function Sum(sizes: seq<nat>): nat {
    if sizes == [] then 0 else sizes[0] + Sum(sizes[1..])
  }

  predicate HasSizes(batch: seq<SendBuffer>, sizes: seq<nat>) {
    |batch| == |sizes| && forall i :: 0 <= i < |sizes| ==> batch[i].Buffer? && |batch[i].unsent| == sizes[i]
  }

  lemma {:induction false} SizesSum(batch: seq<SendBuffer>, sizes: seq<nat>)
    requires HasSizes(batch, sizes)
    ensures |BytesOf(batch)| == Sum(sizes)
    decreases |batch|
  {
    if batch != [] {
      SizesSum(batch[1..], sizes[1..]);
    }
  }

  /** Buffers of the given sizes, each starting with a byte it does not repeat. */
  function Marked(sizes: seq<nat>): (batch: seq<SendBuffer>)
    requires forall i :: 0 <= i < |sizes| ==> sizes[i] > 0
    ensures HasSizes(batch, sizes)
  {
    if sizes == [] then []
    else [Buffer([1 as Byte] + seq(sizes[0] - 1, _ => 0))] + Marked(sizes[1..])
  }

  lemma {:induction false} PartialLosesMarked(sizes: seq<nat>, transferred: nat)
    requires forall i :: 0 <= i < |sizes| ==> sizes[i] > 0
    requires 0 < transferred < Sum(sizes)
    ensures !KeepsUnsent(Marked(sizes), transferred)
    decreases |sizes|
  {
    var batch := Marked(sizes);
    SizesSum(batch, sizes);
    SizesSum(batch[1..], sizes[1..]);
    var first := batch[0].unsent;
    var all, rest := BytesOf(batch), BytesOf(batch[1..]);
    assert all == first + rest;
    if transferred > sizes[0] {
      PartialLosesMarked(sizes[1..], transferred - sizes[0]);
      assert batch[1..] == Marked(sizes[1..]);
      assert all[transferred..] == rest[transferred - sizes[0]..];
    } else if transferred == sizes[0] {
      assert |all[transferred..]| > 0;
    } else {
      BytesOfOne(batch[0]);
      assert Requeued(batch, transferred) == [batch[0]];
      assert all[transferred..][0] == first[transferred];
    }
  }

  /** A completion is handled without losing or repeating bytes, whatever they are, exactly
      when it covers the whole batch. */
  lemma CompletionKeepsUnsentIff(sizes: seq<nat>, transferred: nat)
    requires forall i :: 0 <= i < |sizes| ==> sizes[i] > 0
    requires 0 < transferred <= Sum(sizes)
    ensures (forall batch :: HasSizes(batch, sizes) ==> KeepsUnsent(batch, transferred)) <==> transferred == Sum(sizes)
  {
    if transferred == Sum(sizes) {
      forall batch | HasSizes(batch, sizes)
        ensures KeepsUnsent(batch, transferred)
      {
        SizesSum(batch, sizes);
        WholeBatchRequeuesNothing(batch);
      }
    } else {
      PartialLosesMarked(sizes, transferred);
    }
  }

  // ---- the session's fields and the critical sections that change them ----

  class Session {
    var sendDeque: seq<SendBuffer>
    var sending: bool
    /** The buffers of the send request now outstanding. */
    var buffers: seq<SendBuffer>

    constructor ()
      ensures sendDeque == [] && !sending && buffers == []
    {
      sendDeque, sending, buffers := [], false, [];
    }

    /** The critical section of Send; the caller starts a send when told to. */
    method Enqueue(sendBuffer: SendBuffer) returns (processSend: bool)
      modifies this`sendDeque, this`sending
      ensures sendDeque == old(sendDeque) + [sendBuffer] && sending
      ensures processSend <==> !old(sending)
    {
      sendDeque := sendDeque + [sendBuffer];
      processSend := !sending;
      sending := true;
    }

    /** The critical section of ProcessSend. */
    method PopBatch() returns (sendBuffers: seq<SendBuffer>)
      modifies this`sendDeque
      ensures (sendBuffers, sendDeque) == TakeBatch(old(sendDeque), MAX_SEND_BUFFER_COUNT)
    {
      sendBuffers := [];
      var sendCount := 0;
      assert forall b: seq<SendBuffer> :: sendBuffers + b == b;
      while sendDeque != [] && MAX_SEND_BUFFER_COUNT > sendCount
        invariant sendCount == |sendBuffers| <= MAX_SEND_BUFFER_COUNT
        invariant var (batch, rest) := TakeBatch(sendDeque, MAX_SEND_BUFFER_COUNT - sendCount);
                  (sendBuffers + batch, rest) == TakeBatch(old(sendDeque), MAX_SEND_BUFFER_COUNT)
        decreases |sendDeque|
      {
        var buffer := sendDeque[0];
        ghost var batch := TakeBatch(sendDeque, MAX_SEND_BUFFER_COUNT - sendCount).0;
        sendDeque := sendDeque[1..];
        if !Carries(buffer) {
          continue;
        }
        assert sendBuffers + batch == sendBuffers + [buffer] + batch[1..];
        sendBuffers := sendBuffers + [buffer];
        sendCount := sendCount + 1;
      }
      assert sendBuffers + [] == sendBuffers;
    }

    /** A send of `transferred` bytes completed: takes the batch, works out what goes back to
        the front of the queue, and keeps the right to send only if something is queued. */
    method OnSendCompleted(transferred: nat) returns (processSend: bool)
      requires transferred > 0
      modifies this
      ensures buffers == []
      ensures sendDeque == Requeued(old(buffers), transferred) + old(sendDeque)
      ensures processSend <==> sendDeque != []
      ensures sending == (old(sending) && processSend)
    {
      var sendBuffers := buffers;
      buffers := [];
      var remainBytes := transferred;
      var remainSendBuffer: seq<SendBuffer> := [];
      var i := 0;
      while i < |sendBuffers|
        invariant 0 <= i <= |sendBuffers| && remainBytes >= 0 && remainSendBuffer == []
        invariant Requeued(sendBuffers[i..], remainBytes) == Requeued(sendBuffers, transferred)
        invariant sendDeque == old(sendDeque) && sending == old(sending) && buffers == []
      {
        assert sendBuffers[i..][1..] == sendBuffers[i + 1..];
        var buffer := sendBuffers[i];
        if remainBytes <= 0 {
          break;
        }
        i := i + 1;
        if buffer.Null? {
          continue;
        }
        var useSize := |buffer.unsent|;
        if remainBytes >= useSize {
          remainBytes := remainBytes - useSize;
        } else {
          remainSendBuffer := [buffer];
          break;
        }
      }
      processSend := false;
      sendDeque := remainSendBuffer + sendDeque;
      if sendDeque != [] {
        processSend := true;
      } else {
        sending := false;
      }
    }
  }
}
