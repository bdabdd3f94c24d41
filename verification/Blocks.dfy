/** The blocks an allocator owns and its free lists, as values: what every operation keeps
    (ServerCore/Memory/MemoryManger.cpp, ServerCore/Memory/MemoryPool.cpp). */
module Blocks {
  import opened ByteBuffer
  import opened MemoryHeader
  import opened Sequences

  /** The table of block sizes with their ratios, and the guard size of the build. */
  datatype Config = Config(sizes: seq<nat>, ratios: seq<nat>, guard: nat)

  /** The sizes grow and have 16 bits. */
  predicate ConfigOk(cfg: Config) {
    && 0 < |cfg.sizes| == |cfg.ratios|
    && (forall i :: 0 <= i < |cfg.sizes| ==> 0 < cfg.sizes[i] < 0x1_0000)
    && forall i, j :: 0 <= i < j < |cfg.sizes| ==> cfg.sizes[i] < cfg.sizes[j]
  }

  function MaxBlockSize(cfg: Config): nat
    requires ConfigOk(cfg)
  {
    cfg.sizes[|cfg.sizes| - 1]
  }

  /** The index of the smallest block size that fits. */
  ghost predicate FitsBest(cfg: Config, size: nat, i: nat) {
    i < |cfg.sizes| && size <= cfg.sizes[i] && forall j :: 0 <= j < i ==> cfg.sizes[j] < size
  }

  /** The index the allocator finds for a size. */
  function BestFit(cfg: Config, size: nat): (index: nat)
    requires ConfigOk(cfg) && size <= MaxBlockSize(cfg)
    ensures FitsBest(cfg, size, index)
  {
    BestFitFrom(cfg, size, 0)
  }

  function BestFitFrom(cfg: Config, size: nat, i: nat): (index: nat)
    requires ConfigOk(cfg) && size <= MaxBlockSize(cfg)
    requires i < |cfg.sizes| && forall j :: 0 <= j < i ==> cfg.sizes[j] < size
    ensures FitsBest(cfg, size, index)
    decreases |cfg.sizes| - i
  {
    if size <= cfg.sizes[i] then i else BestFitFrom(cfg, size, i + 1)
  }

  lemma BestFitUnique(cfg: Config, size: nat, i: nat)
    requires ConfigOk(cfg) && size <= MaxBlockSize(cfg) && FitsBest(cfg, size, i)
    ensures i == BestFit(cfg, size)
  {
  }

  /** A size of the table is its own best fit. */
  lemma BestFitOfTableSize(cfg: Config, size: nat)
    requires ConfigOk(cfg) && size in cfg.sizes
    ensures size <= MaxBlockSize(cfg) && cfg.sizes[BestFit(cfg, size)] == size
  {
    var i :| 0 <= i < |cfg.sizes| && cfg.sizes[i] == size;
    assert i < |cfg.sizes| - 1 ==> cfg.sizes[i] < cfg.sizes[|cfg.sizes| - 1];
    assert BestFit(cfg, size) <= i;
  }

  predicate Apart(a: Block, b: Block, guard: nat) {
    End(a, guard) <= b.base || End(b, guard) <= a.base
  }

  ghost predicate AllApart(cfg: Config, blocks: map<nat, Block>) {
    forall p, q {:trigger Apart(blocks[p], blocks[q], cfg.guard)} ::
      p in blocks && q in blocks && p != q ==> Apart(blocks[p], blocks[q], cfg.guard)
  }

  /** Every block has its pointer as key, is sealed, and shares no byte with another. */
  ghost predicate BlocksOk(cfg: Config, mem: seq<Byte>, blocks: map<nat, Block>) {
    && (forall p {:trigger Sealed(mem, blocks[p], cfg.guard)} {:trigger DataPtr(blocks[p], cfg.guard)} ::
          p in blocks ==> DataPtr(blocks[p], cfg.guard) == p && Sealed(mem, blocks[p], cfg.guard))
    && AllApart(cfg, blocks)
  }

  ghost predicate IsFree(blocks: map<nat, Block>, live: set<nat>, size: nat, p: nat) {
    p in blocks && blocks[p].kind.Pool? && p !in live && blocks[p].size == size
  }

  /** What a block that is not from a pool is made with: malloc, or VirtualAlloc when it is
      larger than every pooled size. */
  function OutsideKind(cfg: Config, size: nat): AllocType
    requires ConfigOk(cfg)
  {
    if size > MaxBlockSize(cfg) then Virtual else Malloc
  }

  function OutsideBlock(cfg: Config, newPtr: nat, size: UInt32): Block
    requires ConfigOk(cfg)
  {
    Block(newPtr, size, OutsideKind(cfg, size))
  }

  /** Each free list holds exactly the pool blocks of its size that are not handed out. */
  ghost predicate FreeOk(cfg: Config, free: seq<seq<nat>>, blocks: map<nat, Block>, live: set<nat>)
    requires ConfigOk(cfg)
  {
    && |free| == |cfg.sizes|
    && live <= blocks.Keys
    && (forall p :: p in blocks && !blocks[p].kind.Pool? ==>
          blocks[p].kind == OutsideKind(cfg, blocks[p].size) && (p in live || blocks[p].kind.Virtual?))
    && (forall p {:trigger blocks[p].size in cfg.sizes} ::
          p in blocks && blocks[p].kind.Pool? ==> blocks[p].size in cfg.sizes)
    && (forall i, p :: 0 <= i < |free| ==> (p in free[i] <==> IsFree(blocks, live, cfg.sizes[i], p)))
    && forall i :: 0 <= i < |free| ==> Distinct(free[i])
  }

  /** The pool blocks of a size that are handed out. */
  ghost function InUse(blocks: map<nat, Block>, live: set<nat>, size: nat): set<nat> {
    set p | p in live && p in blocks && blocks[p].kind.Pool? && blocks[p].size == size
  }

  /** The counters tell the truth. */
  ghost predicate CountsOk(cfg: Config, use: seq<int>, remain: seq<int>, free: seq<seq<nat>>,
                           blocks: map<nat, Block>, live: set<nat>) {
    && |use| == |remain| == |free| == |cfg.sizes|
    && forall i :: 0 <= i < |free| ==> remain[i] == |free[i]| && use[i] == |InUse(blocks, live, cfg.sizes[i])|
  }

  function Top(s: seq<nat>): nat
    requires s != []
  {
    s[|s| - 1]
  }

  lemma PopKeepsFree(cfg: Config, free: seq<seq<nat>>, blocks: map<nat, Block>, live: set<nat>, i: nat)
    requires ConfigOk(cfg) && FreeOk(cfg, free, blocks, live) && i < |free| && free[i] != []
    ensures var p := Top(free[i]);
            && IsFree(blocks, live, cfg.sizes[i], p)
            && FreeOk(cfg, free[i := free[i][..|free[i]| - 1]], blocks, live + {p})
  {
    var p, was, now := Top(free[i]), free[i], free[i][..|free[i]| - 1];
    assert p in was;
    var free', live' := free[i := now], live + {p};
    forall j, q | 0 <= j < |free'|
      ensures q in free'[j] <==> IsFree(blocks, live', cfg.sizes[j], q)
    {
      assert q in free[j] <==> IsFree(blocks, live, cfg.sizes[j], q);
      if j == i {
        assert was == now + [p];
        assert p !in now;
      }
    }
  }

  lemma PushKeepsFree(cfg: Config, free: seq<seq<nat>>, blocks: map<nat, Block>, live: set<nat>, p: nat, i: nat)
    requires ConfigOk(cfg) && FreeOk(cfg, free, blocks, live) && i < |free|
    requires p in live && blocks[p].kind.Pool? && blocks[p].size == cfg.sizes[i]
    ensures FreeOk(cfg, free[i := free[i] + [p]], blocks, live - {p})
  {
    assert p !in free[i];
    var free', live' := free[i := free[i] + [p]], live - {p};
    forall j, q | 0 <= j < |free'|
      ensures q in free'[j] <==> IsFree(blocks, live', cfg.sizes[j], q)
    {
      assert q in free[j] <==> IsFree(blocks, live, cfg.sizes[j], q);
    }
  }

  /** Writing a block's reserved bytes leaves a block apart from it sealed. */
  lemma SealedApart(cfg: Config, mem: seq<Byte>, mem': seq<Byte>, a: Block, b: Block)
    requires Sealed(mem, a, cfg.guard) && |mem'| == |mem| && Apart(a, b, cfg.guard)
    requires forall k :: 0 <= k < |mem| && !Reserved(b, cfg.guard, k) ==> mem'[k] == mem[k]
    ensures Sealed(mem', a, cfg.guard)
  {
    SealedFrame(mem, mem', a, cfg.guard);
  }

  lemma NewBlockStaysApart(cfg: Config, blocks: map<nat, Block>, b: Block)
    requires AllApart(cfg, blocks)
    requires forall p :: p in blocks ==> Apart(blocks[p], b, cfg.guard)
    ensures AllApart(cfg, blocks[DataPtr(b, cfg.guard) := b])
  {
  }

  /** A new block that shares no byte with the others leaves them sealed when its own reserved
      bytes are written. */
  lemma NewBlockKeepsBlocks(cfg: Config, mem: seq<Byte>, mem': seq<Byte>, blocks: map<nat, Block>, b: Block)
    requires BlocksOk(cfg, mem, blocks) && |mem'| == |mem| && Sealed(mem', b, cfg.guard)
    requires forall k :: 0 <= k < |mem| && !Reserved(b, cfg.guard, k) ==> mem'[k] == mem[k]
    requires forall p :: p in blocks ==> Apart(blocks[p], b, cfg.guard)
    ensures DataPtr(b, cfg.guard) !in blocks && BlocksOk(cfg, mem', blocks[DataPtr(b, cfg.guard) := b])
  {
    var ptr := DataPtr(b, cfg.guard);
    var blocks' := blocks[ptr := b];
    if ptr in blocks {
      SharedPtrIsNotApart(cfg, blocks[ptr], b);
    }
    NewBlockStaysApart(cfg, blocks, b);
    forall p | p in blocks'
      ensures DataPtr(blocks'[p], cfg.guard) == p && Sealed(mem', blocks'[p], cfg.guard)
    {
      if p != ptr {
        SealedApart(cfg, mem, mem', blocks[p], b);
      }
    }
  }

  lemma SharedPtrIsNotApart(cfg: Config, a: Block, b: Block)
    requires DataPtr(a, cfg.guard) == DataPtr(b, cfg.guard)
    ensures !Apart(a, b, cfg.guard)
  {
  }

  /** A write inside the data of a block breaks no seal. */
  lemma DataWriteKeepsBlocks(cfg: Config, mem: seq<Byte>, blocks: map<nat, Block>, p: nat, offset: nat, v: Byte)
    requires BlocksOk(cfg, mem, blocks) && p in blocks && offset < blocks[p].size
    ensures p + offset < |mem| && BlocksOk(cfg, mem[p + offset := v], blocks)
  {
    assert Sealed(mem, blocks[p], cfg.guard);
    var mem' := mem[p + offset := v];
    forall q | q in blocks
      ensures DataPtr(blocks[q], cfg.guard) == q && Sealed(mem', blocks[q], cfg.guard)
    {
      assert Sealed(mem, blocks[q], cfg.guard);
      assert q != p ==> Apart(blocks[p], blocks[q], cfg.guard);
      SealedFrame(mem, mem', blocks[q], cfg.guard);
    }
  }

  lemma CarvedBlockKeepsFree(cfg: Config, free: seq<seq<nat>>, blocks: map<nat, Block>, live: set<nat>, b: Block,
                             i: nat)
    requires ConfigOk(cfg) && FreeOk(cfg, free, blocks, live) && i < |free|
    requires DataPtr(b, cfg.guard) !in blocks && b.kind.Pool? && b.size == cfg.sizes[i]
    ensures FreeOk(cfg, free[i := free[i] + [DataPtr(b, cfg.guard)]], blocks[DataPtr(b, cfg.guard) := b], live)
  {
    var p := DataPtr(b, cfg.guard);
    assert p !in free[i] && p !in live;
    var free', blocks' := free[i := free[i] + [p]], blocks[p := b];
    forall j, q | 0 <= j < |free'|
      ensures q in free'[j] <==> IsFree(blocks', live, cfg.sizes[j], q)
    {
      assert q in free[j] <==> IsFree(blocks, live, cfg.sizes[j], q);
    }
  }

  lemma OutsideKeepsFree(cfg: Config, free: seq<seq<nat>>, blocks: map<nat, Block>, live: set<nat>, b: Block)
    requires ConfigOk(cfg) && FreeOk(cfg, free, blocks, live)
    requires DataPtr(b, cfg.guard) !in blocks && b.kind == OutsideKind(cfg, b.size)
    ensures FreeOk(cfg, free, blocks[DataPtr(b, cfg.guard) := b], live + {DataPtr(b, cfg.guard)})
  {
    var p := DataPtr(b, cfg.guard);
    forall j, q | 0 <= j < |free|
      ensures q in free[j] <==> IsFree(blocks[p := b], live + {p}, cfg.sizes[j], q)
    {
      assert q in free[j] <==> IsFree(blocks, live, cfg.sizes[j], q);
    }
  }

  lemma FreeingKeepsFree(cfg: Config, free: seq<seq<nat>>, blocks: map<nat, Block>, live: set<nat>, p: nat)
    requires ConfigOk(cfg) && FreeOk(cfg, free, blocks, live) && p in live && !blocks[p].kind.Pool?
    ensures FreeOk(cfg, free, blocks - {p}, live - {p})
  {
    forall j, q | 0 <= j < |free|
      ensures q in free[j] <==> IsFree(blocks - {p}, live - {p}, cfg.sizes[j], q)
    {
      assert q in free[j] <==> IsFree(blocks, live, cfg.sizes[j], q);
    }
  }

  // ---- the counters ----

  /** Two indices never have the same size. */
  lemma SizesDiffer(cfg: Config, i: nat, j: nat)
    requires ConfigOk(cfg) && i < |cfg.sizes| && j < |cfg.sizes| && i != j
    ensures cfg.sizes[i] != cfg.sizes[j]
  {
  }

  lemma InUseAfterTaking(cfg: Config, blocks: map<nat, Block>, live: set<nat>, p: nat, i: nat, j: nat)
    requires ConfigOk(cfg) && i < |cfg.sizes| && j < |cfg.sizes| && IsFree(blocks, live, cfg.sizes[i], p)
    ensures |InUse(blocks, live + {p}, cfg.sizes[j])| == |InUse(blocks, live, cfg.sizes[j])| + (if j == i then 1 else 0)
  {
    var was, now := InUse(blocks, live, cfg.sizes[j]), InUse(blocks, live + {p}, cfg.sizes[j]);
    if j == i {
      assert now == was + {p} && p !in was;
    } else {
      SizesDiffer(cfg, i, j);
      assert now == was;
    }
  }

  lemma PopKeepsCounts(cfg: Config, use: seq<int>, remain: seq<int>, free: seq<seq<nat>>, blocks: map<nat, Block>,
                       live: set<nat>, i: nat)
    requires ConfigOk(cfg) && FreeOk(cfg, free, blocks, live) && CountsOk(cfg, use, remain, free, blocks, live)
    requires i < |free| && free[i] != []
    ensures CountsOk(cfg, use[i := use[i] + 1], remain[i := remain[i] - 1], free[i := free[i][..|free[i]| - 1]], blocks,
                     live + {Top(free[i])})
  {
    var p := Top(free[i]);
    assert p in free[i];
    forall j | 0 <= j < |free|
      ensures |InUse(blocks, live + {p}, cfg.sizes[j])|
           == |InUse(blocks, live, cfg.sizes[j])| + (if j == i then 1 else 0)
    {
      InUseAfterTaking(cfg, blocks, live, p, i, j);
    }
  }

  lemma PushKeepsCounts(cfg: Config, use: seq<int>, remain: seq<int>, free: seq<seq<nat>>, blocks: map<nat, Block>,
                        live: set<nat>, p: nat, i: nat)
    requires ConfigOk(cfg) && FreeOk(cfg, free, blocks, live) && CountsOk(cfg, use, remain, free, blocks, live)
    requires i < |free| && p in live && blocks[p].kind.Pool? && blocks[p].size == cfg.sizes[i]
    ensures CountsOk(cfg, use[i := use[i] - 1], remain[i := remain[i] + 1], free[i := free[i] + [p]], blocks,
                     live - {p})
  {
    forall j | 0 <= j < |free|
      ensures InUse(blocks, live - {p}, cfg.sizes[j])
           == InUse(blocks, live, cfg.sizes[j]) - (if j == i then {p} else {})
    {
      if j != i {
        SizesDiffer(cfg, i, j);
      }
    }
    assert p in InUse(blocks, live, cfg.sizes[i]);
  }

  lemma CarvedBlockKeepsCounts(cfg: Config, use: seq<int>, remain: seq<int>, free: seq<seq<nat>>,
                               blocks: map<nat, Block>, live: set<nat>, b: Block, i: nat)
    requires ConfigOk(cfg) && FreeOk(cfg, free, blocks, live) && CountsOk(cfg, use, remain, free, blocks, live)
    requires i < |free| && DataPtr(b, cfg.guard) !in blocks
    ensures CountsOk(cfg, use, remain[i := remain[i] + 1], free[i := free[i] + [DataPtr(b, cfg.guard)]],
                     blocks[DataPtr(b, cfg.guard) := b], live)
  {
    var p := DataPtr(b, cfg.guard);
    assert forall size :: InUse(blocks[p := b], live, size) == InUse(blocks, live, size);
  }

  lemma OutsideKeepsCounts(cfg: Config, use: seq<int>, remain: seq<int>, free: seq<seq<nat>>,
                           blocks: map<nat, Block>, live: set<nat>, b: Block)
    requires ConfigOk(cfg) && FreeOk(cfg, free, blocks, live) && CountsOk(cfg, use, remain, free, blocks, live)
    requires DataPtr(b, cfg.guard) !in blocks && !b.kind.Pool?
    ensures CountsOk(cfg, use, remain, free, blocks[DataPtr(b, cfg.guard) := b], live + {DataPtr(b, cfg.guard)})
  {
    var p := DataPtr(b, cfg.guard);
    assert forall size :: InUse(blocks[p := b], live + {p}, size) == InUse(blocks, live, size);
  }

  lemma FreeingKeepsCounts(cfg: Config, use: seq<int>, remain: seq<int>, free: seq<seq<nat>>,
                           blocks: map<nat, Block>, live: set<nat>, p: nat)
    requires ConfigOk(cfg) && FreeOk(cfg, free, blocks, live) && CountsOk(cfg, use, remain, free, blocks, live)
    requires p in live && !blocks[p].kind.Pool?
    ensures CountsOk(cfg, use, remain, free, blocks - {p}, live - {p})
  {
    assert forall size :: InUse(blocks - {p}, live - {p}, size) == InUse(blocks, live, size);
  }

  // ---- the whole heap, and what each operation does to it ----

  datatype Heap = Heap(
    mem: seq<Byte>,
    free: seq<seq<nat>>,
    use: seq<int>,
    remain: seq<int>,
    blocks: map<nat, Block>,
    live: set<nat>)

  ghost predicate HeapOk(cfg: Config, h: Heap) {
    && ConfigOk(cfg)
    && BlocksOk(cfg, h.mem, h.blocks)
    && FreeOk(cfg, h.free, h.blocks, h.live)
    && CountsOk(cfg, h.use, h.remain, h.free, h.blocks, h.live)
  }

  /** The tables have the right lengths; nothing is said about what is in them. */
  ghost predicate Shaped(cfg: Config, h: Heap) {
    ConfigOk(cfg) && |h.free| == |h.use| == |h.remain| == |cfg.sizes| && h.live <= h.blocks.Keys
  }

  /** Handing out the top of a free list. */
  ghost function TakeFree(h: Heap, i: nat): Heap
    requires i < |h.free| == |h.use| == |h.remain| && h.free[i] != []
  {
    h.(free := h.free[i := h.free[i][..|h.free[i]| - 1]], use := h.use[i := h.use[i] + 1],
       remain := h.remain[i := h.remain[i] - 1], live := h.live + {Top(h.free[i])})
  }

  /** Putting a pool block back on a free list. */
  ghost function GiveBack(h: Heap, p: nat, i: nat): Heap
    requires i < |h.free| == |h.use| == |h.remain|
  {
    h.(free := h.free[i := h.free[i] + [p]], use := h.use[i := h.use[i] - 1],
       remain := h.remain[i := h.remain[i] + 1], live := h.live - {p})
  }

  /** Handing out a new block from outside the pools, whose reserved bytes were written in `mem`. */
  ghost function AddOutside(cfg: Config, h: Heap, mem: seq<Byte>, b: Block): Heap {
    h.(mem := mem, blocks := h.blocks[DataPtr(b, cfg.guard) := b], live := h.live + {DataPtr(b, cfg.guard)})
  }

  ghost function DropOutside(h: Heap, p: nat): Heap {
    h.(blocks := h.blocks - {p}, live := h.live - {p})
  }

  /** Giving up a block whose memory is not returned. */
  ghost function Abandon(h: Heap, p: nat): Heap {
    h.(live := h.live - {p})
  }

  /** Putting a newly carved block on a free list. */
  ghost function AddCarved(cfg: Config, h: Heap, mem: seq<Byte>, b: Block, i: nat): Heap
    requires i < |h.free| == |h.remain|
  {
    h.(mem := mem, free := h.free[i := h.free[i] + [DataPtr(b, cfg.guard)]], remain := h.remain[i := h.remain[i] + 1],
       blocks := h.blocks[DataPtr(b, cfg.guard) := b])
  }

  /** Memory in which a block was sealed and nothing but its reserved bytes was written. */
  ghost predicate SealedInto(cfg: Config, mem: seq<Byte>, mem': seq<Byte>, b: Block) {
    && |mem'| == |mem| && Sealed(mem', b, cfg.guard)
    && forall k :: 0 <= k < |mem| && !Reserved(b, cfg.guard, k) ==> mem'[k] == mem[k]
  }

  ghost predicate ApartFromAll(cfg: Config, blocks: map<nat, Block>, b: Block) {
    forall p :: p in blocks ==> Apart(blocks[p], b, cfg.guard)
  }

  /** The heap after handing out `ptr` for a request: from the free list of the best size, or
      from outside when there is no such size or its list is empty. */
  ghost predicate Allocated(cfg: Config, h: Heap, size: UInt32, newPtr: nat, ptr: nat, h': Heap)
    requires Shaped(cfg, h)
  {
    if size <= MaxBlockSize(cfg) && h.free[BestFit(cfg, size)] != []
    then ptr == Top(h.free[BestFit(cfg, size)]) && h' == TakeFree(h, BestFit(cfg, size))
    else
      var b := OutsideBlock(cfg, newPtr, size);
      ptr == DataPtr(b, cfg.guard) && SealedInto(cfg, h.mem, h'.mem, b) && h' == AddOutside(cfg, h, h'.mem, b)
  }

  /** The heap after taking `ptr` back: a pool block goes on the list of its size, a malloc
      block is freed. For a larger block the code hands VirtualFree the data pointer and not the
      base; `freed` says whether VirtualFree frees the block all the same. */
  ghost predicate Released(cfg: Config, h: Heap, ptr: nat, freed: bool, h': Heap)
    requires Shaped(cfg, h) && ptr in h.live
  {
    var b := h.blocks[ptr];
    if b.size > MaxBlockSize(cfg) then h' == if freed then DropOutside(h, ptr) else Abandon(h, ptr)
    else if b.kind.Pool? then h' == GiveBack(h, ptr, BestFit(cfg, b.size))
    else h' == DropOutside(h, ptr)
  }

  lemma AbandonKeepsHeap(cfg: Config, h: Heap, p: nat)
    requires HeapOk(cfg, h) && p in h.live && h.blocks[p].kind.Virtual?
    ensures HeapOk(cfg, Abandon(h, p))
  {
    var h' := Abandon(h, p);
    forall j, q | 0 <= j < |h.free|
      ensures q in h.free[j] <==> IsFree(h.blocks, h'.live, cfg.sizes[j], q)
    {
      assert q in h.free[j] <==> IsFree(h.blocks, h.live, cfg.sizes[j], q);
    }
    assert forall size :: InUse(h.blocks, h'.live, size) == InUse(h.blocks, h.live, size);
  }

  lemma TakeFreeKeepsHeap(cfg: Config, h: Heap, i: nat)
    requires HeapOk(cfg, h) && i < |h.free| && h.free[i] != []
    ensures HeapOk(cfg, TakeFree(h, i))
  {
    PopKeepsFree(cfg, h.free, h.blocks, h.live, i);
    PopKeepsCounts(cfg, h.use, h.remain, h.free, h.blocks, h.live, i);
  }

  lemma GiveBackKeepsHeap(cfg: Config, h: Heap, p: nat, i: nat)
    requires HeapOk(cfg, h) && i < |h.free| && p in h.live && h.blocks[p].kind.Pool? && h.blocks[p].size == cfg.sizes[i]
    ensures HeapOk(cfg, GiveBack(h, p, i))
  {
    PushKeepsFree(cfg, h.free, h.blocks, h.live, p, i);
    PushKeepsCounts(cfg, h.use, h.remain, h.free, h.blocks, h.live, p, i);
  }

  lemma AddOutsideKeepsHeap(cfg: Config, h: Heap, mem: seq<Byte>, b: Block)
    requires HeapOk(cfg, h) && b.kind == OutsideKind(cfg, b.size)
    requires SealedInto(cfg, h.mem, mem, b) && ApartFromAll(cfg, h.blocks, b)
    ensures HeapOk(cfg, AddOutside(cfg, h, mem, b)) && DataPtr(b, cfg.guard) !in h.blocks
  {
    NewBlockKeepsBlocks(cfg, h.mem, mem, h.blocks, b);
    OutsideKeepsFree(cfg, h.free, h.blocks, h.live, b);
    OutsideKeepsCounts(cfg, h.use, h.remain, h.free, h.blocks, h.live, b);
  }

  lemma DropOutsideKeepsHeap(cfg: Config, h: Heap, p: nat)
    requires HeapOk(cfg, h) && p in h.live && !h.blocks[p].kind.Pool?
    ensures HeapOk(cfg, DropOutside(h, p))
  {
    FreeingKeepsFree(cfg, h.free, h.blocks, h.live, p);
    FreeingKeepsCounts(cfg, h.use, h.remain, h.free, h.blocks, h.live, p);
  }

  lemma AddCarvedKeepsHeap(cfg: Config, h: Heap, mem: seq<Byte>, b: Block, i: nat)
    requires HeapOk(cfg, h) && i < |h.free| && b.kind.Pool? && b.size == cfg.sizes[i]
    requires SealedInto(cfg, h.mem, mem, b) && ApartFromAll(cfg, h.blocks, b)
    ensures HeapOk(cfg, AddCarved(cfg, h, mem, b, i)) && DataPtr(b, cfg.guard) !in h.blocks
  {
    NewBlockKeepsBlocks(cfg, h.mem, mem, h.blocks, b);
    CarvedBlockKeepsFree(cfg, h.free, h.blocks, h.live, b, i);
    CarvedBlockKeepsCounts(cfg, h.use, h.remain, h.free, h.blocks, h.live, b, i);
  }

  /** What an allocation gives: a pointer not in use, to a block of at least the requested
      size; every other block stays as it was, and so does the number of pool blocks. */
  ghost predicate GoodAllocation(h: Heap, size: nat, ptr: nat, h': Heap) {
    && ptr !in h.live && h'.live == h.live + {ptr} && ptr in h'.blocks && h'.blocks[ptr].size >= size
    && (forall p :: p in h.blocks ==> p in h'.blocks && h'.blocks[p] == h.blocks[p])
    && |h.use| == |h.remain| == |h'.use| == |h'.remain|
    && forall i :: 0 <= i < |h.use| ==> h'.use[i] + h'.remain[i] == h.use[i] + h.remain[i]
  }

  ghost predicate SameData(h: Heap, mem: seq<Byte>) {
    && |mem| == |h.mem|
    && forall p, k :: p in h.blocks && p <= k < p + h.blocks[p].size && k < |mem| ==> mem[k] == h.mem[k]
  }

  lemma TakeFreeIsGood(cfg: Config, h: Heap, size: nat, i: nat)
    requires HeapOk(cfg, h) && i < |h.free| && h.free[i] != [] && size <= cfg.sizes[i]
    ensures GoodAllocation(h, size, Top(h.free[i]), TakeFree(h, i))
  {
    var p := Top(h.free[i]);
    assert p in h.free[i];
    assert IsFree(h.blocks, h.live, cfg.sizes[i], p);
  }

  lemma AddOutsideIsGood(cfg: Config, h: Heap, mem: seq<Byte>, b: Block)
    requires HeapOk(cfg, h) && DataPtr(b, cfg.guard) !in h.blocks
    ensures GoodAllocation(h, b.size, DataPtr(b, cfg.guard), AddOutside(cfg, h, mem, b))
  {
  }

  lemma SealingKeepsData(cfg: Config, h: Heap, mem: seq<Byte>, b: Block)
    requires BlocksOk(cfg, h.mem, h.blocks) && SealedInto(cfg, h.mem, mem, b) && ApartFromAll(cfg, h.blocks, b)
    ensures SameData(h, mem)
  {
    forall p, k | p in h.blocks && p <= k < p + h.blocks[p].size && k < |mem|
      ensures mem[k] == h.mem[k]
    {
      DataIsNotReserved(cfg, h.blocks[p], b, k);
    }
  }

  lemma DataIsNotReserved(cfg: Config, a: Block, b: Block, k: nat)
    requires Apart(a, b, cfg.guard) && DataPtr(a, cfg.guard) <= k < DataPtr(a, cfg.guard) + a.size
    ensures !Reserved(b, cfg.guard, k)
  {
  }

  /** Every allocation, of any size, is good, keeps the heap in order, and touches nobody's data. */
  lemma AllocatedMeans(cfg: Config, h: Heap, size: UInt32, newPtr: nat, ptr: nat, h': Heap)
    requires HeapOk(cfg, h) && Allocated(cfg, h, size, newPtr, ptr, h')
    requires ApartFromAll(cfg, h.blocks, OutsideBlock(cfg, newPtr, size))
    ensures HeapOk(cfg, h') && GoodAllocation(h, size, ptr, h') && SameData(h, h'.mem)
  {
    if size <= MaxBlockSize(cfg) && h.free[BestFit(cfg, size)] != [] {
      var i := BestFit(cfg, size);
      TakeFreeKeepsHeap(cfg, h, i);
      TakeFreeIsGood(cfg, h, size, i);
    } else {
      var b := OutsideBlock(cfg, newPtr, size);
      AddOutsideKeepsHeap(cfg, h, h'.mem, b);
      AddOutsideIsGood(cfg, h, h'.mem, b);
      SealingKeepsData(cfg, h, h'.mem, b);
    }
  }

  ghost predicate FreeOfBestSize(cfg: Config, h: Heap, size: nat, p: nat) {
    exists i: nat :: FitsBest(cfg, size, i) && IsFree(h.blocks, h.live, cfg.sizes[i], p)
  }

  lemma BestListIsFree(cfg: Config, h: Heap, size: nat)
    requires HeapOk(cfg, h)
    ensures forall p :: FreeOfBestSize(cfg, h, size, p) <==>
                          size <= MaxBlockSize(cfg) && p in h.free[BestFit(cfg, size)]
  {
    forall p: nat, i: nat | FitsBest(cfg, size, i) && IsFree(h.blocks, h.live, cfg.sizes[i], p)
      ensures size <= MaxBlockSize(cfg) && p in h.free[BestFit(cfg, size)]
    {
      assert i < |cfg.sizes| - 1 ==> cfg.sizes[i] < cfg.sizes[|cfg.sizes| - 1];
      BestFitUnique(cfg, size, i);
    }
    if size <= MaxBlockSize(cfg) {
      var i := BestFit(cfg, size);
      forall p: nat | p in h.free[i]
        ensures FreeOfBestSize(cfg, h, size, p)
      {
        assert FitsBest(cfg, size, i) && IsFree(h.blocks, h.live, cfg.sizes[i], p);
      }
    }
  }

  /** The pools are used whenever they can be: a free block of the best size is handed out if there
      is one, and nothing but the lists and counters changes; otherwise the block is new, from malloc
      or, above the largest pooled size, from VirtualAlloc. */
  lemma AllocationUsesPool(cfg: Config, h: Heap, size: UInt32, newPtr: nat, ptr: nat, h': Heap)
    requires HeapOk(cfg, h) && Allocated(cfg, h, size, newPtr, ptr, h')
    requires ApartFromAll(cfg, h.blocks, OutsideBlock(cfg, newPtr, size))
    ensures (exists p :: FreeOfBestSize(cfg, h, size, p)) ==>
              FreeOfBestSize(cfg, h, size, ptr) && h'.mem == h.mem && h'.blocks == h.blocks
    ensures !(exists p :: FreeOfBestSize(cfg, h, size, p)) ==>
              && ptr !in h.blocks && ptr in h'.blocks && h'.free == h.free && h'.use == h.use
              && h'.blocks[ptr] == Block(newPtr, size, if size > MaxBlockSize(cfg) then Virtual else Malloc)
  {
    BestListIsFree(cfg, h, size);
    if size <= MaxBlockSize(cfg) && h.free[BestFit(cfg, size)] != [] {
      assert FreeOfBestSize(cfg, h, size, Top(h.free[BestFit(cfg, size)]));
    } else {
      AddOutsideKeepsHeap(cfg, h, h'.mem, OutsideBlock(cfg, newPtr, size));
    }
  }

  /** Two live blocks never share a byte, and neither does a live block with a free one. */
  lemma BlocksNeverOverlap(cfg: Config, h: Heap, p: nat, q: nat)
    requires HeapOk(cfg, h) && p in h.blocks && q in h.blocks && p != q
    ensures p + h.blocks[p].size <= q || q + h.blocks[q].size <= p
  {
    assert Sealed(h.mem, h.blocks[p], cfg.guard) && Sealed(h.mem, h.blocks[q], cfg.guard);
    assert Apart(h.blocks[p], h.blocks[q], cfg.guard);
  }

  /** What a release gives: the pointer is no longer in use, every other block stays as it was,
      and the number of pool blocks too; the pointer is on the free list of its block's size,
      if it is a pool block, and on no other. Other memory is returned exactly when the block
      is no larger than the largest pooled size, or VirtualFree takes the data pointer. */
  ghost predicate GoodRelease(cfg: Config, h: Heap, ptr: nat, freed: bool, h': Heap)
    requires ConfigOk(cfg) && ptr in h.blocks
  {
    && h'.live == h.live - {ptr} && h'.mem == h.mem
    && (forall p :: p in h.blocks && p != ptr ==> p in h'.blocks && h'.blocks[p] == h.blocks[p])
    && (ptr !in h'.blocks <==> !h.blocks[ptr].kind.Pool? && (h.blocks[ptr].size <= MaxBlockSize(cfg) || freed))
    && |h.use| == |h.remain| == |h'.use| == |h'.remain| && |h'.free| == |cfg.sizes|
    && (forall i :: 0 <= i < |h.use| ==> h'.use[i] + h'.remain[i] == h.use[i] + h.remain[i])
    && forall i :: 0 <= i < |h'.free| ==>
         (ptr in h'.free[i] <==> h.blocks[ptr].kind.Pool? && h.blocks[ptr].size == cfg.sizes[i])
  }

  lemma GiveBackIsGood(cfg: Config, h: Heap, p: nat, i: nat, freed: bool)
    requires HeapOk(cfg, h) && i < |h.free| && p in h.live && h.blocks[p].kind.Pool? && h.blocks[p].size == cfg.sizes[i]
    ensures GoodRelease(cfg, h, p, freed, GiveBack(h, p, i))
  {
    var h' := GiveBack(h, p, i);
    forall j | 0 <= j < |h.free|
      ensures p in h'.free[j] <==> h.blocks[p].size == cfg.sizes[j]
    {
      assert p in h.free[j] <==> IsFree(h.blocks, h.live, cfg.sizes[j], p);
      if j != i {
        SizesDiffer(cfg, i, j);
      }
    }
  }

  lemma AbandonIsGood(cfg: Config, h: Heap, p: nat)
    requires HeapOk(cfg, h) && p in h.live && h.blocks[p].kind.Virtual?
    ensures GoodRelease(cfg, h, p, false, Abandon(h, p))
  {
    assert forall i :: 0 <= i < |h.free| ==> (p in h.free[i] <==> IsFree(h.blocks, h.live, cfg.sizes[i], p));
  }

  lemma DropOutsideIsGood(cfg: Config, h: Heap, p: nat, freed: bool)
    requires HeapOk(cfg, h) && p in h.live && (h.blocks[p].kind.Malloc? || (h.blocks[p].kind.Virtual? && freed))
    ensures GoodRelease(cfg, h, p, freed, DropOutside(h, p))
  {
    assert forall i :: 0 <= i < |h.free| ==> (p in h.free[i] <==> IsFree(h.blocks, h.live, cfg.sizes[i], p));
  }

  /** Every release is good and keeps the heap in order, whatever VirtualFree does. */
  lemma ReleasedMeans(cfg: Config, h: Heap, ptr: nat, freed: bool, h': Heap)
    requires HeapOk(cfg, h) && ptr in h.live && Released(cfg, h, ptr, freed, h')
    ensures HeapOk(cfg, h') && GoodRelease(cfg, h, ptr, freed, h')
  {
    if h.blocks[ptr].kind.Virtual? && !freed {
      AbandonKeepsHeap(cfg, h, ptr);
      AbandonIsGood(cfg, h, ptr);
    } else if h.blocks[ptr].kind.Pool? {
      assert h.blocks[ptr].size in cfg.sizes;
      BestFitOfTableSize(cfg, h.blocks[ptr].size);
      var i := BestFit(cfg, h.blocks[ptr].size);
      GiveBackKeepsHeap(cfg, h, ptr, i);
      GiveBackIsGood(cfg, h, ptr, i, freed);
    } else {
      DropOutsideKeepsHeap(cfg, h, ptr);
      DropOutsideIsGood(cfg, h, ptr, freed);
    }
  }

  // ---- every run ----

  /** A request served, with memory from outside apart from all blocks; a block in use taken back; or a byte
      written by a holder inside its own data. */
  datatype Step =
    | Allocate(size: UInt32, newPtr: nat, ptr: nat)
    | Release(p: nat, freed: bool)
    | Write(p: nat, offset: nat, v: Byte)

  ghost predicate Next(cfg: Config, h: Heap, step: Step, h': Heap) {
    && Shaped(cfg, h)
    && match step
       case Allocate(size, newPtr, ptr) =>
         && ApartFromAll(cfg, h.blocks, OutsideBlock(cfg, newPtr, size))
         && Allocated(cfg, h, size, newPtr, ptr, h')
       case Release(p, freed) => p in h.live && Released(cfg, h, p, freed, h')
       case Write(p, offset, v) =>
         && p in h.live && offset < h.blocks[p].size && p + offset < |h.mem|
         && h' == h.(mem := h.mem[p + offset := v])
  }

  ghost predicate IsRun(cfg: Config, run: seq<Heap>, steps: seq<Step>) {
    |run| == |steps| + 1 && forall i :: 0 <= i < |steps| ==> Next(cfg, run[i], steps[i], run[i + 1])
  }

  lemma WriteKeepsHeap(cfg: Config, h: Heap, p: nat, offset: nat, v: Byte)
    requires HeapOk(cfg, h) && p in h.live && offset < h.blocks[p].size && p + offset < |h.mem|
    ensures HeapOk(cfg, h.(mem := h.mem[p + offset := v]))
  {
    DataWriteKeepsBlocks(cfg, h.mem, h.blocks, p, offset, v);
  }

  ghost predicate SameTotals(h: Heap, h': Heap) {
    && |h.use| == |h.remain| == |h'.use| == |h'.remain|
    && forall k :: 0 <= k < |h.use| ==> h'.use[k] + h'.remain[k] == h.use[k] + h.remain[k]
  }

  lemma AllocateKeepsHeap(cfg: Config, h: Heap, size: UInt32, newPtr: nat, ptr: nat, h': Heap)
    requires HeapOk(cfg, h) && Next(cfg, h, Allocate(size, newPtr, ptr), h')
    ensures HeapOk(cfg, h') && SameTotals(h, h')
  {
    AllocatedMeans(cfg, h, size, newPtr, ptr, h');
  }

  lemma ReleaseKeepsHeap(cfg: Config, h: Heap, p: nat, freed: bool, h': Heap)
    requires HeapOk(cfg, h) && Next(cfg, h, Release(p, freed), h')
    ensures HeapOk(cfg, h') && SameTotals(h, h')
  {
    ReleasedMeans(cfg, h, p, freed, h');
  }

  /** Every state of every run from a heap in order is in order: blocks apart, headers and
      guards as written, free lists and counters right. The number of pool blocks of each
      size, in use or free, never changes. */
  lemma RunKeepsHeap(cfg: Config, run: seq<Heap>, steps: seq<Step>, i: nat)
    requires IsRun(cfg, run, steps) && HeapOk(cfg, run[0]) && i < |run|
    ensures HeapOk(cfg, run[i]) && SameTotals(run[0], run[i])
  {
    var inv := h => HeapOk(cfg, h) && SameTotals(run[0], h);
    forall k | 0 <= k < |run| - 1 && inv(run[k])
      ensures inv(run[k + 1])
    {
      match steps[k]
      case Allocate(size, newPtr, ptr) => AllocateKeepsHeap(cfg, run[k], size, newPtr, ptr, run[k + 1]);
      case Release(p, freed) => ReleaseKeepsHeap(cfg, run[k], p, freed, run[k + 1]);
      case Write(p, offset, v) => WriteKeepsHeap(cfg, run[k], p, offset, v);
    }
    InvariantOfRun(run, i, inv);
  }

  /** In every state of every run, no two blocks in use share a byte of data, and none shares
      one with a block on a free list. */
  lemma InUseNeverOverlaps(cfg: Config, run: seq<Heap>, steps: seq<Step>, i: nat, p: nat, q: nat)
    requires IsRun(cfg, run, steps) && HeapOk(cfg, run[0]) && i < |run|
    requires p in run[i].live && p != q
    requires q in run[i].live || exists k :: 0 <= k < |run[i].free| && q in run[i].free[k]
    ensures p in run[i].blocks && q in run[i].blocks
    ensures p + run[i].blocks[p].size <= q || q + run[i].blocks[q].size <= p
  {
    RunKeepsHeap(cfg, run, steps, i);
    BlocksNeverOverlap(cfg, run[i], p, q);
  }
}
