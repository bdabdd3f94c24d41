/** The header in front of every block, and the guard bytes around its data in debug builds
    (ServerCore/Memory/MemoryHeader.cpp). */
module MemoryHeader {
  import opened ByteBuffer

  /** The size of the header: 32 bits of size, 8 bits of type, and padding. */
  const HEADER_SIZE: nat := 8
  const GUARD_PATTERN: Byte := 0xDF

  datatype AllocType = Pool | Malloc | Virtual

  function TypeByte(t: AllocType): Byte {
    match t
    case Pool => 0
    case Malloc => 1
    case Virtual => 2
  }

  type UInt32 = n: nat | n < 0x1_0000_0000

  function SizeBytes(n: UInt32): (bytes: seq<Byte>)
    ensures |bytes| == 4
  {
    [n % 256, n / 0x100 % 256, n / 0x1_0000 % 256, n / 0x100_0000]
  }

  function ReadSize(bytes: seq<Byte>): UInt32
    requires |bytes| == 4
  {
    bytes[0] as int + 0x100 * bytes[1] as int + 0x1_0000 * bytes[2] as int + 0x100_0000 * bytes[3] as int
  }

  lemma SizeRoundTrip(n: UInt32)
    ensures ReadSize(SizeBytes(n)) == n
  {
    assert n / 0x1_0000 == n / 0x100 / 0x100 && n / 0x100_0000 == n / 0x1_0000 / 0x100;
  }

  /** A block at `base` whose data area has `size` bytes. `guard` is the number of guard bytes
      on each side of the data: 8 in debug builds, none otherwise. */
  datatype Block = Block(base: nat, size: UInt32, kind: AllocType)

  function RealSize(size: nat, guard: nat): nat {
    HEADER_SIZE + size + guard * 2
  }

  function DataPtr(b: Block, guard: nat): nat {
    b.base + HEADER_SIZE + guard
  }

  function End(b: Block, guard: nat): nat {
    b.base + RealSize(b.size, guard)
  }

  predicate HeaderOk(mem: seq<Byte>, b: Block, guard: nat) {
    && End(b, guard) <= |mem|
    && mem[b.base..b.base + 4] == SizeBytes(b.size)
    && mem[b.base + 4] == TypeByte(b.kind)
  }

  predicate GuardsOk(mem: seq<Byte>, b: Block, guard: nat)
    requires End(b, guard) <= |mem|
  {
    && (forall k :: b.base + HEADER_SIZE <= k < DataPtr(b, guard) ==> mem[k] == GUARD_PATTERN)
    && (forall k :: DataPtr(b, guard) + b.size <= k < End(b, guard) ==> mem[k] == GUARD_PATTERN)
  }

  predicate Sealed(mem: seq<Byte>, b: Block, guard: nat) {
    HeaderOk(mem, b, guard) && GuardsOk(mem, b, guard)
  }

  /** Whether an address belongs to the block but not to its data. */
  predicate Reserved(b: Block, guard: nat, k: nat) {
    b.base <= k < DataPtr(b, guard) || DataPtr(b, guard) + b.size <= k < End(b, guard)
  }

  /** Only writes to its reserved bytes can break the seal of a block. */
  lemma SealedFrame(mem: seq<Byte>, mem': seq<Byte>, b: Block, guard: nat)
    requires Sealed(mem, b, guard) && |mem'| == |mem|
    requires forall k :: 0 <= k < |mem| && Reserved(b, guard, k) ==> mem'[k] == mem[k]
    ensures Sealed(mem', b, guard)
  {
    forall k | b.base <= k <= b.base + 4
      ensures mem'[k] == mem[k]
    {
      assert Reserved(b, guard, k);
    }
    assert mem'[b.base..b.base + 4] == mem[b.base..b.base + 4];
    forall k | b.base + HEADER_SIZE <= k < DataPtr(b, guard) || DataPtr(b, guard) + b.size <= k < End(b, guard)
      ensures mem'[k] == GUARD_PATTERN
    {
      assert Reserved(b, guard, k);
    }
  }

  /** A write within the guard bytes on either side of the data is noticed, whatever it writes but
      the pattern itself. */
  lemma OverrunIsNoticed(mem: seq<Byte>, b: Block, guard: nat, k: nat, v: Byte)
    requires Sealed(mem, b, guard) && v != GUARD_PATTERN
    requires var ptr := DataPtr(b, guard); ptr - guard <= k < ptr || ptr + b.size <= k < ptr + b.size + guard
    ensures k < |mem| && HeaderOk(mem[k := v], b, guard) && !GuardsOk(mem[k := v], b, guard)
  {
    var mem' := mem[k := v];
    assert mem'[b.base..b.base + 4] == mem[b.base..b.base + 4];
    assert mem'[k] != GUARD_PATTERN;
  }

  method AttachHeader(mem: array<Byte>, b: Block, guard: nat) returns (ptr: nat)
    requires End(b, guard) <= mem.Length
    modifies mem
    ensures ptr == DataPtr(b, guard)
    ensures Sealed(mem[..], b, guard)
    ensures forall k :: 0 <= k < mem.Length && !Reserved(b, guard, k) ==> mem[k] == old(mem[k])
  {
    var size := SizeBytes(b.size);
    forall k | 0 <= k < 4 {
      mem[b.base + k] := size[k];
    }
    mem[b.base + 4] := TypeByte(b.kind);
    var next := b.base + HEADER_SIZE;
    forall k | next <= k < next + guard {
      mem[k] := GUARD_PATTERN;
    }
    ptr := next + guard;
    forall k | ptr + b.size <= k < ptr + b.size + guard {
      mem[k] := GUARD_PATTERN;
    }
    assert mem[..][b.base..b.base + 4] == size;
  }

  /** Reads back the header in front of a data pointer. Whatever happened to its guards, a
      block with its header intact is recovered, and the guard check fails exactly when some
      guard byte was changed. */
  method DetachHeader(mem: array<Byte>, ptr: nat, guard: nat, ghost b: Block) returns (base: nat, size: UInt32,
                      kind: Byte, intact: bool)
    requires HeaderOk(mem[..], b, guard) && ptr == DataPtr(b, guard)
    ensures base == b.base && size == b.size && kind == TypeByte(b.kind)
    ensures intact <==> GuardsOk(mem[..], b, guard)
  {
    base := ptr - guard - HEADER_SIZE;
    SizeRoundTrip(b.size);
    assert mem[base..base + 4] == mem[..][base..base + 4];
    size := ReadSize(mem[base..base + 4]);
    kind := mem[base + 4];
    var under := base + HEADER_SIZE;
    var over := ptr + size;
    intact := true;
    for k := 0 to guard
      invariant intact
      invariant forall a :: under <= a < under + k ==> mem[a] == GUARD_PATTERN
      invariant forall a :: over <= a < over + k ==> mem[a] == GUARD_PATTERN
    {
      if mem[under + k] != GUARD_PATTERN || mem[over + k] != GUARD_PATTERN {
        assert mem[..][under + k] != GUARD_PATTERN || mem[..][over + k] != GUARD_PATTERN;
        return base, size, kind, false;
      }
    }
  }
}
