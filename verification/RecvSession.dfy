/** The receiving half of a session (ServerCore/Network/Session.cpp). */
module RecvSession {
  import opened ByteBuffer
  import opened Framing

  const BUFFER_SIZE: nat := 8196

  /** Sizes that leave room for a packet after every completion, the server's own among them. */
  type BufferSize = n: nat | n >= 2 * MAX_PACKET_SIZE - 1 witness BUFFER_SIZE

  /** What the receiving half amounts to between two completions. */
  datatype RecvState = RecvState(pending: seq<Byte>, delivered: seq<seq<Byte>>, closed: bool)

  /** One receive completion of `chunk`, seen from outside. */
  function RecvStep(st: RecvState, chunk: seq<Byte>): RecvState {
    if st.closed then st
    else if chunk == [] then st.(closed := true)
    else
      var p := Parse(st.pending + chunk);
      RecvState(p.rest, st.delivered + p.packets, p.bad)
  }

  class Session {
    const recvBuffer: BaseBuffer
    var isClosed: bool
    /** The packets handed to the service, in order. */
    var delivered: seq<seq<Byte>>
    /** The free space offered by the receive request now outstanding. */
    var offered: nat

    ghost predicate Valid()
      reads this, recvBuffer
    {
      && recvBuffer.Valid()
      && recvBuffer.buffer.Length >= 2 * MAX_PACKET_SIZE - 1
      && (!isClosed ==> recvBuffer.GetFreeSize() == offered >= MAX_PACKET_SIZE)
    }

    ghost function View(): RecvState
      requires recvBuffer.Valid()
      reads this, recvBuffer, recvBuffer.buffer
    {
      RecvState(recvBuffer.Data(), delivered, isClosed)
    }

    /** A connected session with its first receive request made. */
    constructor (bufferSize: BufferSize)
      ensures Valid() && fresh(recvBuffer) && fresh(recvBuffer.buffer)
      ensures View() == RecvState([], [], false)
    {
      recvBuffer := new BaseBuffer(bufferSize);
      isClosed := false;
      delivered := [];
      new;
      offered := recvBuffer.GetFreeSize();
    }

    method Close()
      modifies this`isClosed
      ensures isClosed
    {
      isClosed := true;
    }

    /** Offers the free space to the next receive. Only a failing request or a full buffer
        closes the session. */
    method ProcessRecv(recvOk: bool)
      requires recvBuffer.Valid()
      modifies this`isClosed, this`offered, recvBuffer, recvBuffer.buffer
      ensures recvBuffer.Valid() && recvBuffer.Data() == old(recvBuffer.Data())
      ensures old(recvBuffer.GetFreeSize()) > 0 ==>
                recvBuffer.GetFreeSize() == old(recvBuffer.GetFreeSize())
      ensures old(recvBuffer.GetDataSize()) == recvBuffer.buffer.Length ==> isClosed
      ensures old(recvBuffer.GetDataSize()) < recvBuffer.buffer.Length ==>
                offered == recvBuffer.GetFreeSize() > 0 && isClosed == (old(isClosed) || !recvOk)
    {
      offered := recvBuffer.GetFreeSize();
      if offered == 0 {
        recvBuffer.Compact();
        offered := recvBuffer.GetFreeSize();
        if offered == 0 {
          Close();
          return;
        }
      }
      if !recvOk {
        Close();
      }
    }

    /** Delivers the complete packets at the front of the buffer, and closes the session at a
        header with an impossible size. */
    method DeliverPackets()
      requires recvBuffer.Valid() && !isClosed
      modifies this`isClosed, this`delivered, recvBuffer`readPos
      ensures recvBuffer.Valid()
      ensures var p := Parse(old(recvBuffer.Data()));
              recvBuffer.Data() == p.rest && isClosed == p.bad && delivered == old(delivered) + p.packets
    {
      ghost var all := Parse(recvBuffer.Data());
      while true
        invariant recvBuffer.Valid() && !isClosed
        invariant var p := Parse(recvBuffer.Data());
                  p.rest == all.rest && p.bad == all.bad && delivered + p.packets == old(delivered) + all.packets
        decreases |recvBuffer.Data()|
      {
        ghost var data := recvBuffer.Data();
        var packetSize := recvBuffer.GetDataSize();
        if HEADER_SIZE > packetSize {
          break;
        }
        var dataSize := HeaderSize(recvBuffer.Front(HEADER_SIZE));
        assert dataSize == HeaderSize(data);
        if dataSize > MAX_PACKET_SIZE || HEADER_SIZE > dataSize {
          Close();
          return;
        }
        if dataSize > packetSize {
          break;
        }
        var packet := recvBuffer.Front(dataSize);
        ghost var later := Parse(data[dataSize..]);
        assert delivered + ([packet] + later.packets) == delivered + [packet] + later.packets;
        delivered := delivered + [packet];
        recvBuffer.MoveReadPos(dataSize);
      }
    }

    /** A receive completes with `chunk` at the write position. The receiver delivers every
        complete packet, keeps the rest, and asks for more. With `recvOk` the session closes
        only on an empty chunk or a bad header: the full-buffer close is never taken. */
    method OnRecvCompleted(chunk: seq<Byte>, recvOk: bool)
      requires Valid() && !isClosed && |chunk| <= offered
      modifies this, recvBuffer, recvBuffer.buffer
      ensures Valid()
      ensures View() == RecvStep(old(View()), chunk).(closed := isClosed)
      ensures isClosed <==> RecvStep(old(View()), chunk).closed || (chunk != [] && !recvOk)
      ensures chunk == [] ==> isClosed && delivered == old(delivered) && recvBuffer.Data() == old(recvBuffer.Data())
      ensures !isClosed ==> |recvBuffer.Data()| < MAX_PACKET_SIZE
    {
      ghost var stream := recvBuffer.Data() + chunk;
      KernelWrites(chunk);
      var bytesTransferred := |chunk|;
      if bytesTransferred == 0 {
        Close();
        return;
      }
      recvBuffer.MoveWritePos(bytesTransferred);
      assert recvBuffer.Data() == stream;
      DeliverPackets();
      assert View() == RecvStep(old(View()), chunk);
      assert !isClosed ==> |recvBuffer.Data()| < MAX_PACKET_SIZE by { ParseIsParse(stream); }
      if isClosed {
        return;
      }
      recvBuffer.Compact();
      CompactionLeavesRoomIff(recvBuffer.buffer.Length);
      ProcessRecv(recvOk);
    }

    /** The environment's part of a receive: the bytes land in the offered space. */
    method KernelWrites(chunk: seq<Byte>)
      requires recvBuffer.Valid() && |chunk| <= recvBuffer.GetFreeSize()
      modifies recvBuffer.buffer
      ensures recvBuffer.Data() == old(recvBuffer.Data())
      ensures recvBuffer.buffer[recvBuffer.writePos..recvBuffer.writePos + |chunk|] == chunk
    {
      forall i | 0 <= i < |chunk| {
        recvBuffer.buffer[recvBuffer.writePos + i] := chunk[i];
      }
    }
  }

  // ---- all the completions of a connection ----

  function RecvAll(st: RecvState, chunks: seq<seq<Byte>>): RecvState
    decreases |chunks|
  {
    if chunks == [] then st else RecvAll(RecvStep(st, chunks[0]), chunks[1..])
  }

  ghost predicate AllNonEmpty(chunks: seq<seq<Byte>>) {
    forall i :: 0 <= i < |chunks| ==> chunks[i] != []
  }

  /** `end` is what `st` becomes when the parse of everything that was pending or arrived is `whole`. */
  ghost predicate Accounts(st: RecvState, whole: Parsed, end: RecvState) {
    && end.delivered == st.delivered + whole.packets
    && end.closed == whole.bad
    && (!whole.bad ==> end.pending == whole.rest)
  }

  lemma AccountsChain(st: RecvState, p: Parsed, next: RecvState, q: Parsed, end: RecvState)
    requires Accounts(st, p, next) && !p.bad && Accounts(next, q, end)
    ensures Accounts(st, Parsed(p.packets + q.packets, q.rest, q.bad), end)
  {
  }

  lemma {:induction false} RecvAllFrom(st: RecvState, chunks: seq<seq<Byte>>)
    requires AllNonEmpty(chunks) && !st.closed && Parse(st.pending) == Parsed([], st.pending, false)
    ensures Accounts(st, Parse(st.pending + Concat(chunks)), RecvAll(st, chunks))
    decreases |chunks|
  {
    if chunks == [] {
      assert st.pending + Concat(chunks) == st.pending;
    } else {
      var now, more := st.pending + chunks[0], Concat(chunks[1..]);
      var next, p := RecvStep(st, chunks[0]), Parse(now);
      assert st.pending + Concat(chunks) == now + more;
      assert RecvAll(st, chunks) == RecvAll(next, chunks[1..]);
      if p.bad {
        ParseAppendBad(now, more);
        ClosedStays(next, chunks[1..]);
      } else {
        ParseAppendGood(now, more);
        ParseRest(now);
        RecvAllFrom(next, chunks[1..]);
        AccountsChain(st, p, next, Parse(p.rest + more), RecvAll(next, chunks[1..]));
      }
    }
  }

  lemma ClosedStays(st: RecvState, chunks: seq<seq<Byte>>)
    requires st.closed
    ensures RecvAll(st, chunks) == st
    decreases |chunks|
  {
  }

  /** However the stream is cut into non-empty chunks, the packets delivered, and whether and
      at which packet the session closes, are those of one parse of the whole stream. */
  lemma NonEmptyChunks(chunks: seq<seq<Byte>>)
    requires AllNonEmpty(chunks)
    ensures Accounts(RecvState([], [], false), Parse(Concat(chunks)), RecvAll(RecvState([], [], false), chunks))
  {
    assert [] + Concat(chunks) == Concat(chunks);
    RecvAllFrom(RecvState([], [], false), chunks);
  }

  /** The chunks before the first empty one. */
  function FirstEmpty(chunks: seq<seq<Byte>>): (n: nat)
    ensures n <= |chunks| && AllNonEmpty(chunks[..n]) && (n < |chunks| ==> chunks[n] == [])
  {
    if chunks == [] || chunks[0] == [] then 0
    else
      var n := 1 + FirstEmpty(chunks[1..]);
      assert chunks[..n] == [chunks[0]] + chunks[1..][..n - 1];
      n
  }

  lemma {:induction false} RecvAllAppend(st: RecvState, a: seq<seq<Byte>>, b: seq<seq<Byte>>)
    ensures RecvAll(st, a + b) == RecvAll(RecvAll(st, a), b)
    decreases |a|
  {
    if a == [] {
      assert a + b == b;
    } else {
      assert (a + b)[1..] == a[1..] + b;
      RecvAllAppend(RecvStep(st, a[0]), a[1..], b);
    }
  }

  /** For any chunks at all: what is delivered and kept is what one parse of the chunks before the
      first empty one gives, and the session closes exactly at a bad header or an empty chunk. */
  lemma ChunkIndependence(chunks: seq<seq<Byte>>)
    ensures var n := FirstEmpty(chunks);
            var whole, end := Parse(Concat(chunks[..n])), RecvAll(RecvState([], [], false), chunks);
            && end.delivered == whole.packets
            && (end.closed <==> whole.bad || exists i :: 0 <= i < |chunks| && chunks[i] == [])
            && (!whole.bad ==> end.pending == whole.rest)
  {
    var n := FirstEmpty(chunks);
    var live, late := chunks[..n], chunks[n..];
    NonEmptyChunks(live);
    assert chunks == live + late;
    RecvAllAppend(RecvState([], [], false), live, late);
    EmptyCloses(RecvAll(RecvState([], [], false), live), late);
    assert n == |chunks| ==> live == chunks;
  }

  /** A receive that completes with nothing closes the session, and nothing after it counts. */
  lemma EmptyCloses(st: RecvState, late: seq<seq<Byte>>)
    requires late != [] ==> late[0] == []
    ensures RecvAll(st, late) == st.(closed := st.closed || late != [])
  {
    if st.closed {
      ClosedStays(st, late);
    } else if late != [] {
      ClosedStays(RecvStep(st, []), late[1..]);
    }
  }
}
