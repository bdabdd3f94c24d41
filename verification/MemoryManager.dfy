/** The pool allocator on a byte-addressed memory (ServerCore/Memory/MemoryManger.cpp,
    ServerCore/Memory/MemoryPool.cpp, ServerCore/Memory/MemoryLockStack.h). */
module MemoryManager {
  import opened ByteBuffer
  import opened MemoryHeader
  import opened Blocks
  import opened Carving

  const NULL_PTR: int := -1

  /** One free list with its counters. */
  class MemoryPool {
    var useCount: int
    var remainCount: int
    var poolList: seq<nat>

    constructor ()
      ensures useCount == 0 && remainCount == 0 && poolList == []
    {
      useCount, remainCount, poolList := 0, 0, [];
    }

    method Pop() returns (ptr: int)
      modifies this
      ensures old(poolList) == [] ==>
                ptr == NULL_PTR && poolList == [] && useCount == old(useCount) && remainCount == old(remainCount)
      ensures old(poolList) != [] ==>
                && ptr == Top(old(poolList)) && poolList == old(poolList)[..|old(poolList)| - 1]
                && useCount == old(useCount) + 1 && remainCount == old(remainCount) - 1
    {
      if poolList == [] {
        return NULL_PTR;
      }
      useCount := useCount + 1;
      remainCount := remainCount - 1;
      ptr := poolList[|poolList| - 1];
      poolList := poolList[..|poolList| - 1];
    }

    method Push(ptr: nat, counting: bool)
      modifies this
      ensures poolList == old(poolList) + [ptr] && remainCount == old(remainCount) + 1
      ensures useCount == if counting then old(useCount) - 1 else old(useCount)
    {
      if counting {
        useCount := useCount - 1;
      }
      remainCount := remainCount + 1;
      poolList := poolList + [ptr];
    }
  }

  class MemoryManager {
    const mem: array<Byte>
    const cfg: Config
    const poolTable: seq<MemoryPool>
    /** The memory, the free lists and counters, and every block in existence, as one value. */
    ghost var heap: Heap

    /** `heap` says what the memory and the pools hold. */
    ghost predicate Linked()
      reads this, mem, poolTable
    {
      && |poolTable| == |cfg.sizes| == |heap.free| == |heap.use| == |heap.remain|
      && (forall i, j :: 0 <= i < j < |poolTable| ==> poolTable[i] != poolTable[j])
      && heap.mem == mem[..]
      && forall i :: 0 <= i < |poolTable| ==>
           && poolTable[i].poolList == heap.free[i]
           && poolTable[i].useCount == heap.use[i]
           && poolTable[i].remainCount == heap.remain[i]
    }

    ghost predicate Valid()
      reads this, mem, poolTable
    {
      Linked() && HeapOk(cfg, heap)
    }

    method SizeToIndex(size: nat) returns (index: nat)
      requires ConfigOk(cfg) && size <= MaxBlockSize(cfg)
      ensures FitsBest(cfg, size, index) && index == BestFit(cfg, size)
    {
      index := 0;
      while true
        invariant index < |cfg.sizes| && forall j :: 0 <= j < index ==> cfg.sizes[j] < size
        decreases |cfg.sizes| - index
      {
        if size <= cfg.sizes[index] {
          BestFitUnique(cfg, size, index);
          return;
        }
        index := index + 1;
      }
    }

    constructor (cfg: Config, mem: array<Byte>, chunk: nat, chunkSize: nat)
      requires Carvable(cfg, chunkSize) && chunk + chunkSize <= mem.Length
      modifies mem
      ensures Valid() && this.cfg == cfg && this.mem == mem && heap.live == {}
      ensures WithinChunk(cfg, heap, chunk, chunk + Carved(chunkSize, Shares(cfg), TotalWeight(Shares(cfg))))
      ensures CarvedCounts(cfg, heap, chunkSize, |cfg.sizes|)
    {
      this.cfg, this.mem := cfg, mem;
      var pools: seq<MemoryPool> := [];
      for i := 0 to |cfg.sizes|
        invariant |pools| == i && forall k :: 0 <= k < i ==> fresh(pools[k])
        invariant forall k :: 0 <= k < i ==> pools[k].poolList == [] && pools[k].useCount == pools[k].remainCount == 0
        invariant forall j, k :: 0 <= j < k < i ==> pools[j] != pools[k]
      {
        var pool := new MemoryPool();
        pools := pools + [pool];
      }
      poolTable := pools;
      heap := EmptyHeap(cfg, mem[..]);
      new;
      EmptyHeapOk(cfg, mem[..]);
      PushChunk(chunk, chunkSize);
    }

    /** Carves one chunk into blocks, a share of it for every size. There is always room. */
    method PushChunk(chunk: nat, chunkSize: nat)
      requires Valid() && Carvable(cfg, chunkSize) && chunk + chunkSize <= mem.Length
      requires heap == EmptyHeap(cfg, mem[..])
      modifies this`heap, mem, poolTable
      ensures Valid() && heap.live == {}
      ensures WithinChunk(cfg, heap, chunk, chunk + Carved(chunkSize, Shares(cfg), TotalWeight(Shares(cfg))))
      ensures CarvedCounts(cfg, heap, chunkSize, |cfg.sizes|)
    {
      var totalWeight := WeightOfRatios();
      var cursor, remaining := chunk, chunkSize;
      for div := 0 to |cfg.sizes|
        invariant CarvedTo(chunk, chunkSize, div, cursor) && cursor == chunk + chunkSize - remaining
      {
        var realAllocBytes := CarveShare(div, cursor, remaining, totalWeight, chunk, chunkSize);
        cursor := cursor + realAllocBytes;
        remaining := remaining - realAllocBytes;
      }
      assert Shares(cfg)[..|cfg.sizes|] == Shares(cfg);
    }

    /** The first n sizes have been carved, up to `end`. */
    ghost predicate CarvedTo(chunk: nat, chunkSize: nat, n: nat, end: nat)
      requires Carvable(cfg, chunkSize) && n <= |cfg.sizes|
      reads this, mem, poolTable
    {
      && Valid() && heap.live == {}
      && end == chunk + Carved(chunkSize, Shares(cfg)[..n], TotalWeight(Shares(cfg)))
      && WithinChunk(cfg, heap, chunk, end) && CarvedCounts(cfg, heap, chunkSize, n)
    }

    /** One round of carving: the out-of-memory exit is never taken. */
    method CarveShare(div: nat, cursor: nat, remaining: nat, totalWeight: nat, ghost chunk: nat,
                      chunkSize: nat) returns (realAllocBytes: nat)
      requires Carvable(cfg, chunkSize) && chunk + chunkSize <= mem.Length
      requires div < |cfg.sizes| && totalWeight == TotalWeight(Shares(cfg))
      requires CarvedTo(chunk, chunkSize, div, cursor) && cursor == chunk + chunkSize - remaining
      modifies this`heap, mem, poolTable
      ensures realAllocBytes <= remaining && CarvedTo(chunk, chunkSize, div + 1, cursor + realAllocBytes)
    {
      ghost var h := heap;
      var realBlockSize := RealSize(cfg.sizes[div], cfg.guard);
      var blockCount := ShareCount(div, totalWeight, chunkSize);
      realAllocBytes := UsedBytes(chunkSize, Share(cfg.ratios[div], realBlockSize), totalWeight);
      ShareFits(cfg, chunkSize, div);
      if realAllocBytes > remaining {
        assert false;
      }
      CarveBlocks(div, cursor, blockCount, chunk);
      CountsStep(cfg, h, heap, chunkSize, div);
    }

    /** The number of blocks in one size's share of the chunk. */
    method ShareCount(div: nat, totalWeight: nat, chunkSize: nat) returns (blockCount: nat)
      requires ConfigOk(cfg) && div < |cfg.sizes| && totalWeight == TotalWeight(Shares(cfg)) > 0
      ensures blockCount == BlockCount(chunkSize, Shares(cfg)[div], totalWeight)
    {
      var share := Share(cfg.ratios[div], RealSize(cfg.sizes[div], cfg.guard));
      blockCount := BlockCount(chunkSize, share, totalWeight);
    }

    method WeightOfRatios() returns (totalWeight: nat)
      requires ConfigOk(cfg)
      ensures totalWeight == TotalWeight(Shares(cfg))
    {
      ghost var shares := Shares(cfg);
      totalWeight := 0;
      for i := 0 to |cfg.ratios|
        invariant totalWeight == TotalWeight(shares[..i])
      {
        assert shares[..i + 1][..i] == shares[..i];
        totalWeight := totalWeight + cfg.ratios[i];
      }
      assert shares[..|cfg.ratios|] == shares;
    }

    /** Carves `blockCount` blocks of one size at `cursor`. The counter has 16 bits. */
    method CarveBlocks(div: nat, cursor: nat, blockCount: nat, ghost chunk: nat)
      requires Valid() && heap.live == {} && div < |cfg.sizes| && heap.free[div] == [] && blockCount < 0x1_0000
      requires chunk <= cursor && cursor + blockCount * RealSize(cfg.sizes[div], cfg.guard) <= mem.Length
      requires WithinChunk(cfg, heap, chunk, cursor)
      modifies this`heap, mem, poolTable
      ensures Valid() && heap.live == {}
      ensures WithinChunk(cfg, heap, chunk, cursor + blockCount * RealSize(cfg.sizes[div], cfg.guard))
      ensures |heap.free[div]| == blockCount
      ensures forall i :: 0 <= i < |heap.free| && i != div ==> heap.free[i] == old(heap).free[i]
    {
      var at := cursor;
      var realBlockSize := RealSize(cfg.sizes[div], cfg.guard);
      for cnt := 0 to blockCount
        invariant Valid() && heap.live == {} && |heap.free[div]| == cnt
        invariant at == cursor + cnt * realBlockSize
        invariant WithinChunk(cfg, heap, chunk, at)
        invariant forall i :: 0 <= i < |heap.free| && i != div ==> heap.free[i] == old(heap).free[i]
      {
        StepFits(cnt, blockCount, realBlockSize);
        CarveOne(at, div, chunk);
        at := at + realBlockSize;
      }
    }

    method CarveOne(at: nat, div: nat, ghost chunk: nat)
      requires Valid() && div < |cfg.sizes| && chunk <= at && at + RealSize(cfg.sizes[div], cfg.guard) <= mem.Length
      requires WithinChunk(cfg, heap, chunk, at)
      modifies this`heap, mem, poolTable
      ensures Valid() && heap.live == old(heap).live
      ensures WithinChunk(cfg, heap, chunk, at + RealSize(cfg.sizes[div], cfg.guard))
      ensures |heap.free[div]| == |old(heap).free[div]| + 1
      ensures forall i :: 0 <= i < |heap.free| && i != div ==> heap.free[i] == old(heap).free[i]
    {
      ghost var h := heap;
      var b := Block(at, cfg.sizes[div], Pool);
      AttachFree(b, div);
      AddCarvedKeepsHeap(cfg, h, heap.mem, b, div);
    }

    method AttachFree(b: Block, div: nat)
      requires Linked() && div < |cfg.sizes| && End(b, cfg.guard) <= mem.Length
      modifies this`heap, mem, poolTable
      ensures Linked() && SealedInto(cfg, old(heap).mem, heap.mem, b)
      ensures heap == AddCarved(cfg, old(heap), heap.mem, b, div)
    {
      var dataPtr := AttachHeader(mem, b, cfg.guard);
      poolTable[div].Push(dataPtr, false);
      heap := AddCarved(cfg, heap, mem[..], b, div);
    }

    /** The pool part of an allocation. */
    method PopFrom(idx: nat) returns (popped: int)
      requires Linked() && idx < |poolTable|
      modifies this`heap, poolTable
      ensures Linked()
      ensures old(heap).free[idx] == [] ==> popped == NULL_PTR && heap == old(heap)
      ensures old(heap).free[idx] != [] ==> popped == Top(old(heap).free[idx]) && heap == TakeFree(old(heap), idx)
    {
      popped := poolTable[idx].Pop();
      if popped != NULL_PTR {
        heap := TakeFree(heap, idx);
      }
    }

    /** The part of an allocation that gets its memory from outside. */
    method AttachOutside(b: Block) returns (ptr: nat)
      requires Linked() && End(b, cfg.guard) <= mem.Length
      modifies this`heap, mem
      ensures Linked()
      ensures ptr == DataPtr(b, cfg.guard)
      ensures SealedInto(cfg, old(heap).mem, heap.mem, b) && heap == AddOutside(cfg, old(heap), heap.mem, b)
    {
      ptr := AttachHeader(mem, b, cfg.guard);
      heap := AddOutside(cfg, heap, mem[..], b);
    }

    /** Hands out a block of at least the requested size. A request larger than every pooled
        size is served by VirtualAlloc, one whose free list is empty by malloc; either returns
        memory (here at `newPtr`) that shares no byte with any block in existence. */
    method Allocate(size: UInt32, newPtr: nat) returns (ptr: nat)
      requires Valid()
      requires End(OutsideBlock(cfg, newPtr, size), cfg.guard) <= mem.Length
      requires ApartFromAll(cfg, heap.blocks, OutsideBlock(cfg, newPtr, size))
      modifies this`heap, mem, poolTable
      ensures Valid()
      ensures Allocated(cfg, old(heap), size, newPtr, ptr, heap)
      ensures GoodAllocation(old(heap), size, ptr, heap) && SameData(old(heap), heap.mem)
    {
      ghost var h := heap;
      if size > MaxBlockSize(cfg) {
        ptr := AttachOutside(Block(newPtr, size, Virtual));
      } else {
        var idx := SizeToIndex(size);
        var popped := PopFrom(idx);
        if popped == NULL_PTR {
          ptr := AttachOutside(Block(newPtr, size, Malloc));
        } else {
          ptr := popped;
        }
      }
      AllocatedMeans(cfg, h, size, newPtr, ptr, heap);
    }

    method PushTo(idx: nat, ptr: nat)
      requires Linked() && idx < |poolTable|
      modifies this`heap, poolTable
      ensures Linked() && heap == GiveBack(old(heap), ptr, idx)
    {
      poolTable[idx].Push(ptr, true);
      heap := GiveBack(heap, ptr, idx);
    }

    /** Takes a block back. The guard check never fires. `freed` says what VirtualFree does with
        the data pointer of a block larger than every pooled size. */
    method Release(ptr: nat, freed: bool)
      requires Valid() && ptr in heap.live
      modifies this`heap, poolTable
      ensures Valid()
      ensures Released(cfg, old(heap), ptr, freed, heap)
    {
      ghost var b := heap.blocks[ptr];
      LiveIsSealed(cfg, heap, ptr);
      var size, kind := CheckHeader(ptr, b);
      if size > MaxBlockSize(cfg) {
        ReleaseLarge(ptr, freed);
      } else if kind == TypeByte(Pool) {
        ReleaseToPool(ptr, size, freed);
      } else {
        ReleaseToMalloc(ptr, freed);
      }
    }

    /** VirtualFree is given the data pointer, not the base. */
    method ReleaseLarge(ptr: nat, freed: bool)
      requires Valid() && ptr in heap.live && heap.blocks[ptr].kind.Virtual?
      modifies this`heap
      ensures Valid() && Released(cfg, old(heap), ptr, freed, heap)
    {
      LiveIsSealed(cfg, heap, ptr);
      if freed {
        DropOutsideKeepsHeap(cfg, heap, ptr);
        heap := DropOutside(heap, ptr);
      } else {
        AbandonKeepsHeap(cfg, heap, ptr);
        heap := Abandon(heap, ptr);
      }
    }

    method ReleaseToPool(ptr: nat, size: UInt32, ghost freed: bool)
      requires Valid() && ptr in heap.live && heap.blocks[ptr].kind.Pool? && heap.blocks[ptr].size == size
      modifies this`heap, poolTable
      ensures Valid() && Released(cfg, old(heap), ptr, freed, heap)
    {
      LiveIsSealed(cfg, heap, ptr);
      var idx := SizeToIndex(size);
      BestFitOfTableSize(cfg, size);
      GiveBackKeepsHeap(cfg, heap, ptr, idx);
      PushTo(idx, ptr);
    }

    /** The block's memory goes back to malloc. */
    method ReleaseToMalloc(ptr: nat, ghost freed: bool)
      requires Valid() && ptr in heap.live && heap.blocks[ptr].kind.Malloc?
      modifies this`heap
      ensures Valid() && Released(cfg, old(heap), ptr, freed, heap)
    {
      LiveIsSealed(cfg, heap, ptr);
      DropOutsideKeepsHeap(cfg, heap, ptr);
      heap := DropOutside(heap, ptr);
    }

    /** The header of a sealed block is read back as written, and its guards are intact. */
    method CheckHeader(ptr: nat, ghost b: Block) returns (size: UInt32, kind: Byte)
      requires mem[..] == heap.mem && Sealed(heap.mem, b, cfg.guard) && DataPtr(b, cfg.guard) == ptr
      ensures size == b.size && kind == TypeByte(b.kind)
    {
      var base, intact;
      base, size, kind, intact := DetachHeader(mem, ptr, cfg.guard, b);
      assert intact;
    }

    /** What a holder may do with its block: write inside its data. */
    method WriteData(ptr: nat, offset: nat, v: Byte)
      requires Valid() && ptr in heap.live && offset < heap.blocks[ptr].size
      modifies this`heap, mem
      ensures ptr + offset < mem.Length && Valid() && heap == old(heap).(mem := old(heap).mem[ptr + offset := v])
    {
      LiveIsSealed(cfg, heap, ptr);
      WriteKeepsHeap(cfg, heap, ptr, offset, v);
      mem[ptr + offset] := v;
      heap := heap.(mem := heap.mem[ptr + offset := v]);
    }
  }

  // ---- carving ----

  function Shares(cfg: Config): (shares: seq<Share>)
    requires ConfigOk(cfg)
    ensures |shares| == |cfg.sizes| && RealPositive(shares)
    ensures forall i :: 0 <= i < |shares| ==> shares[i] == Share(cfg.ratios[i], RealSize(cfg.sizes[i], cfg.guard))
  {
    seq(|cfg.sizes|, i requires 0 <= i < |cfg.sizes| => Share(cfg.ratios[i], RealSize(cfg.sizes[i], cfg.guard)))
  }

  /** The ratios have a positive sum, which the source adds up in 16 bits, and no block count
      outgrows the 16-bit loop counter. */
  ghost predicate Carvable(cfg: Config, chunkSize: nat) {
    && ConfigOk(cfg)
    && 0 < TotalWeight(Shares(cfg)) < 0x1_0000
    && forall i :: 0 <= i < |cfg.sizes| ==> BlockCount(chunkSize, Shares(cfg)[i], TotalWeight(Shares(cfg))) < 0x1_0000
  }

  /** The share of one more size still fits into the chunk. */
  lemma ShareFits(cfg: Config, chunkSize: nat, div: nat)
    requires ConfigOk(cfg) && TotalWeight(Shares(cfg)) > 0 && div < |cfg.sizes|
    ensures var shares, w := Shares(cfg), TotalWeight(Shares(cfg));
            Carved(chunkSize, shares[..div + 1], w)
            == Carved(chunkSize, shares[..div], w) + UsedBytes(chunkSize, shares[div], w) <= chunkSize
  {
    var shares := Shares(cfg);
    assert shares[..div + 1][..div] == shares[..div];
    CarvingFits(chunkSize, shares, div + 1);
  }

  // ---- the server's own table ----

  const CHUNK_SIZE: nat := 4096 * 128
  const SIZES: seq<nat> := [32, 64, 128, 256, 512, 1024, 2048]
  const RATIOS: seq<nat> := [8, 10, 14, 14, 18, 12, 8]

  lemma ServerTableWeight(guard: nat)
    ensures ConfigOk(Config(SIZES, RATIOS, guard)) && TotalWeight(Shares(Config(SIZES, RATIOS, guard))) == 84
  {
    var shares := Shares(Config(SIZES, RATIOS, guard));
    assert TotalWeight(shares[..1]) == 8;
    assert shares[..2][..1] == shares[..1] && shares[..3][..2] == shares[..2] && shares[..4][..3] == shares[..3];
    assert shares[..5][..4] == shares[..4] && shares[..6][..5] == shares[..5] && shares[..7] == shares;
    assert TotalWeight(shares[..3]) == 32;
    assert TotalWeight(shares[..5]) == 64;
  }

  lemma FewBlocks(share: Share)
    requires share.ratio <= 18 && share.realSize >= 2
    ensures BlockCount(CHUNK_SIZE, share, 84) < 0x1_0000
  {
    var bytes := AllocBytes(CHUNK_SIZE, share, 84);
    assert bytes < 0x2_0000;
    DivBounds(bytes, share.realSize);
    MulMonotone(bytes / share.realSize, 2, share.realSize);
  }

  /** The server's own table can be carved, whatever the guard size. */
  lemma ServerTableIsCarvable(guard: nat)
    ensures Carvable(Config(SIZES, RATIOS, guard), CHUNK_SIZE)
  {
    ServerTableWeight(guard);
    var shares := Shares(Config(SIZES, RATIOS, guard));
    forall i | 0 <= i < |shares|
      ensures BlockCount(CHUNK_SIZE, shares[i], 84) < 0x1_0000
    {
      FewBlocks(shares[i]);
    }
  }

  ghost predicate WithinChunk(cfg: Config, h: Heap, chunk: nat, end: nat) {
    forall p :: p in h.blocks ==> chunk <= h.blocks[p].base && End(h.blocks[p], cfg.guard) <= end
  }

  /** The first n free lists hold their full share, the others nothing. */
  ghost predicate CarvedCounts(cfg: Config, h: Heap, chunkSize: nat, n: nat)
    requires Carvable(cfg, chunkSize)
  {
    && |h.free| == |cfg.sizes|
    && forall i :: 0 <= i < |h.free| ==>
         |h.free[i]| == if i < n then BlockCount(chunkSize, Shares(cfg)[i], TotalWeight(Shares(cfg))) else 0
  }

  lemma CountsStep(cfg: Config, h: Heap, h': Heap, chunkSize: nat, div: nat)
    requires Carvable(cfg, chunkSize) && div < |cfg.sizes| == |h'.free| && CarvedCounts(cfg, h, chunkSize, div)
    requires |h'.free[div]| == BlockCount(chunkSize, Shares(cfg)[div], TotalWeight(Shares(cfg)))
    requires forall i :: 0 <= i < |h'.free| && i != div ==> h'.free[i] == h.free[i]
    ensures CarvedCounts(cfg, h', chunkSize, div + 1)
  {
  }

  ghost function EmptyHeap(cfg: Config, mem: seq<Byte>): Heap {
    var zeros: seq<int> := seq(|cfg.sizes|, _ => 0);
    Heap(mem, seq(|cfg.sizes|, _ => []), zeros, zeros, map[], {})
  }

  lemma EmptyHeapOk(cfg: Config, mem: seq<Byte>)
    requires ConfigOk(cfg)
    ensures HeapOk(cfg, EmptyHeap(cfg, mem))
  {
    assert forall size :: InUse(map[], {}, size) == {};
  }

  lemma StepFits(cnt: nat, blockCount: nat, realSize: nat)
    requires cnt < blockCount
    ensures cnt * realSize + realSize == (cnt + 1) * realSize <= blockCount * realSize
  {
    Distribute(realSize, cnt, 1);
    Distribute(realSize, cnt + 1, blockCount - cnt - 1);
  }

  lemma LiveIsSealed(cfg: Config, h: Heap, p: nat)
    requires HeapOk(cfg, h) && p in h.live
    ensures p in h.blocks && Sealed(h.mem, h.blocks[p], cfg.guard) && DataPtr(h.blocks[p], cfg.guard) == p
    ensures h.blocks[p].size > MaxBlockSize(cfg) <==> h.blocks[p].kind.Virtual?
    ensures h.blocks[p].kind.Pool? ==> h.blocks[p].size in cfg.sizes
  {
    if h.blocks[p].kind.Pool? {
      assert h.blocks[p].size in cfg.sizes;
      BestFitOfTableSize(cfg, h.blocks[p].size);
    }
  }
}
