/** The cursor buffer under both directions of a session (ServerCore/Container/BaseBuffer.cpp). */
module ByteBuffer {

  type Byte = b: int | 0 <= b < 256

  const MAX_PACKET_SIZE: nat := 2048

  /** Where compaction leaves the read and write cursors. */
  function CompactedCursors(bufferSize: nat, readPos: nat, writePos: nat): (nat, nat)
    requires readPos <= writePos <= bufferSize
  {
    if readPos == 0 then (readPos, writePos)
    else if readPos == writePos then (0, 0)
    else if bufferSize - writePos < MAX_PACKET_SIZE then (0, writePos - readPos)
    else (readPos, writePos)
  }

  /** Room for a whole packet after every compaction of less than one packet of data: this
      needs a buffer of 2 * MAX_PACKET_SIZE - 1 bytes, and no smaller one will do. */
  lemma CompactionLeavesRoomIff(bufferSize: nat)
    ensures (forall r: nat, w: nat :: r <= w <= bufferSize && w - r < MAX_PACKET_SIZE ==>
               bufferSize - CompactedCursors(bufferSize, r, w).1 >= MAX_PACKET_SIZE)
            <==> bufferSize >= 2 * MAX_PACKET_SIZE - 1
  {
    if bufferSize < 2 * MAX_PACKET_SIZE - 1 {
      var w: nat := if bufferSize < MAX_PACKET_SIZE then bufferSize else MAX_PACKET_SIZE - 1;
      assert bufferSize - CompactedCursors(bufferSize, 0, w).1 < MAX_PACKET_SIZE;
    }
  }

  /** Compaction keeps the amount of data, never moves the cursors without need, and leaves less
      than a packet of room only behind data that starts at the front; with no data all is free. */
  lemma CompactionMeans(bufferSize: nat, readPos: nat, writePos: nat)
    requires readPos <= writePos <= bufferSize
    ensures var (r, w) := CompactedCursors(bufferSize, readPos, writePos);
            && w - r == writePos - readPos && r <= readPos
            && (r != readPos ==> readPos == writePos || bufferSize - writePos < MAX_PACKET_SIZE)
            && (bufferSize - w < MAX_PACKET_SIZE ==> r == 0)
            && (readPos == writePos ==> w == 0)
  {
  }

  class BaseBuffer {
    const buffer: array<Byte>
    var readPos: nat
    var writePos: nat

    ghost predicate Valid()
      reads this
    {
      readPos <= writePos <= buffer.Length
    }

    /** The bytes written and not yet read. */
    ghost function Data(): seq<Byte>
      requires Valid()
      reads this, buffer
    {
      buffer[readPos..writePos]
    }

    constructor (bufferSize: nat)
      ensures Valid() && fresh(buffer) && buffer.Length == bufferSize
      ensures readPos == writePos == 0 && Data() == []
    {
      buffer := new Byte[bufferSize](_ => 0);
      readPos, writePos := 0, 0;
    }

    function GetDataSize(): (n: nat)
      requires Valid()
      reads this, buffer
      ensures n == |Data()|
    {
      writePos - readPos
    }

    function GetFreeSize(): nat
      requires Valid()
      reads this
    {
      buffer.Length - writePos
    }

    /** What GetReadPtr gives access to: the first `size` unread bytes. */
    function Front(size: nat): (bytes: seq<Byte>)
      requires Valid() && size <= writePos - readPos
      reads this, buffer
      ensures bytes == Data()[..size]
    {
      buffer[readPos..readPos + size]
    }

    method MoveReadPos(size: nat)
      requires Valid() && readPos + size <= writePos
      modifies this`readPos
      ensures Valid() && Data() == old(Data())[size..] && readPos == old(readPos) + size
    {
      readPos := readPos + size;
    }

    method MoveWritePos(size: nat)
      requires Valid() && writePos + size <= buffer.Length
      modifies this`writePos
      ensures Valid() && readPos == old(readPos) && writePos == old(writePos) + size
      ensures Data() == old(Data()) + buffer[old(writePos)..old(writePos) + size]
    {
      writePos := writePos + size;
    }

    /** Drops the bytes already read, by moving the rest to the front only when less than one
        packet of free space is left. */
    method Compact()
      requires Valid()
      modifies this, buffer
      ensures Valid() && Data() == old(Data())
      ensures (readPos, writePos) == CompactedCursors(buffer.Length, old(readPos), old(writePos))
    {
      if readPos == 0 {
        return;
      }
      var dataSize := GetDataSize();
      if dataSize == 0 {
        readPos := 0;
        writePos := 0;
      } else {
        if GetFreeSize() < MAX_PACKET_SIZE {
          // memmove: all bytes are read before any is written
          forall i | 0 <= i < dataSize {
            buffer[i] := buffer[readPos + i];
          }
          writePos := dataSize;
          readPos := 0;
        }
      }
    }
  }
}
