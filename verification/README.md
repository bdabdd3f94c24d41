# Verified model of the Swarm server core

A Dafny model of the stateful parts of the Swarm game server, with proofs of what they promise
over every input, every interleaving and every run.

- `Sequences.dfy`: distinct sequences and the induction over a run, shared by several modules.
- `LockGraph.dfy`, `LockProtocol.dfy`, `LockOrder.dfy`: the lock-order graph, its shared-list
  depth-first search, and any number of threads taking locks through scoped guards. A state that did not
  crash never holds a circular wait, some lock owner can always move, and the detector crashes a run
  exactly when the threads nested their locks in no one order.
- `ByteBuffer.dfy`, `Framing.dfy`, `RecvSession.dfy`: the compacting receive buffer, the packet
  format, and the receiving half of a session, which refines one recursive parse of the whole stream.
- `SendQueue.dfy`, `SendProtocol.dfy`: the outgoing queue and the `_sending` token under any
  interleaving of senders and completions.
- `RoundTrip.dfy`: sender, wire and receiver together.
- `MemoryHeader.dfy`, `Carving.dfy`, `Blocks.dfy`, `MemoryManager.dfy`: block headers and guard bytes
  on a byte-addressed memory, the carving of one chunk by a ratio table, and every run of allocations,
  releases and writes by holders.
- `SectorIds.dfy`, `WorldMap.dfy`, `SectorIndex.dfy`, `Visibility.dfy`, `World.dfy`: the sector index
  kept by a deferred tick and the visibility query that must agree with a scan of all objects.
- `WorldScenarios.dfy`: lives of one player that reach, by the world's own operations, the states in
  which the index is wrong.
- `Vision.dfy`: the visible-set diff that drives spawn and despawn packets.
- `JobQueue.dfy`: one job group's time-ordered queue with its submitters and its worker.
- `Heartbeat.dfy`: the session table, its ping/pong counters and the two-phase removal.

Where the source changes objects in place the model has a class with the same fields; protocols
between threads are state machines whose steps are the source's critical sections. The methods are
proved against functions on values, and the lemmas about runs are about those functions.

## Where the code does not do what one would expect

Each of these is stated as an exact condition, and most with an input that shows it.

- `Session::ProcessSend` clears `_sending` outside the critical section in which it saw nothing to
  send. Wakeups are lost as soon as a null or empty buffer is queued, and never otherwise
  (`SendProtocol.NoLostWakeupIff`).
- `Session::ProcessSend` stores a batch after posting it. A completion handled in between makes the
  late store overwrite the next batch, and a whole completion of that one is then taken for a partial
  one: bytes go out twice (`SendProtocol.LateStoreRepeatsBytes`). Whole completions, whenever they are
  handled, conserve the bytes exactly when all buffers that carry bytes have the same length
  (`SendProtocol.WholeCompletionsConserveIff`). The token and the wakeups survive late stores, and in
  the runs without one the bytes are conserved whatever the buffers (`SendProtocol.BytesConserved`).
- `Session::OnSendCompleted` neither advances the buffer a partial completion ends in nor keeps the
  buffers after it. Bytes are kept exactly when a completion covers its whole batch
  (`SendQueue.CompletionKeepsUnsentIff`); one that ends inside a buffer puts that buffer back whole, and
  one that ends between two puts nothing back (`SendQueue.RequeuesOneWhole`,
  `SendQueue.RequeuesOnlyInside`).
- `PacketHandler::SendPacket` checks the size after truncating it to 16 bits
  (`Framing.SizeCheckExactIff`). When the low 16 bits of the payload size are 65532 or more, the total
  wraps to less than a header, is accepted, and the header is written outside the buffer made for it
  (`Framing.HeaderFitsIff`, `Framing.HeaderMissesBuffer`).
- `WorldManager::MakeGridIndex` truncates toward zero, so positions less than one cell below the map's
  near edges are put in its first cells (`WorldMap.ValidCellIff`).
- `SectorId` loses the x coordinate when y is negative (`SectorIds.SectorIdRoundTripIff`).
- `WorldManager::UpdateSector` looks only at the last two positions
  (`SectorIndex.TickExactIff`, `SectorIndex.ManyMovesExactIff`). Two updates between ticks can leave an
  object filed in a bucket it left (`SectorIndex.TwoMovesLeaveStaleEntry`). A player that enters and
  moves inside its cell before the tick is filed nowhere, whatever follows, until it leaves the cell
  (`SectorIndex.EntryMoveIsNeverFiled`). An object whose first position is cell (0, 0) of Town is not
  filed until it leaves either (`SectorIndex.TickMakesExactIff`).
- `WorldManager::GetVisibleObjectsInSectors` finds an object that waits for the tick only through the
  bucket of its previous place, and a player that just entered not at all
  (`World.WorldManager.WaitingIsFoundIff`); one that came from afar is missed from the next cell
  (`World.WorldManager.ArrivalIsMissed`, `WorldScenarios.MissArrival`).
- `WorldManager::DeleteObjSector` takes an object out of the bucket of the place its deletion was
  requested at and of no other, and comes before the update in a tick. For any filing,
  `SectorIndex.DeletionLastsIff` says when the object is then filed nowhere. An object that moved at
  most once between ticks is filed again exactly when a move of it waits
  (`SectorIndex.DisciplinedDeletionLastsIff`); one with a stale entry keeps that entry although no move
  waits (`SectorIndex.StaleEntryOutlivesDeletion`, `WorldScenarios.DeleteInVain`).
- A query lists a shown object once for every bucket in sight that holds it
  (`World.WorldManager.GetVisibleObjectsInSectors`), so an object with a stale entry in sight is listed
  twice (`World.WorldManager.StaleIsListedTwice`, `WorldScenarios.ListTwice`).
- `MemoryManager::Release` hands VirtualFree the data pointer of a block above 2048 bytes and not the
  base that VirtualAlloc gave. Whether that frees the block is a parameter of the model; the heap stays
  in order either way, and all other memory is returned (`Blocks.ReleasedMeans`).
- `Player::UpdateVision` spawns an object twice when a new object is listed twice
  (`Vision.Player.UpdateVision`), which is when two buckets in sight hold it
  (`World.WorldManager.UpdatePlayerVision`).
- `Player::EnterGame` takes everything listed into view but spawns only players, so an object of
  another kind that is in view at entry is not shown (`Vision.Player.EnterGame`). What EnterGame and
  LeaveGame broadcast to other clients is not recorded in their visible sets
  (`Vision.Player.Announce`); `Vision.AnnouncedRecoversIff` says when the next update makes up for it.
- `SessionManager::Heartbeat` subtracts unsigned counters, so one pong too many closes a session
  (`Heartbeat.ClosedByHeartbeatIff`).

Comments in the source that the code does not follow, and where the model follows the code: the
header is 8 bytes with its padding, not 4 (`MemoryHeader.h`); the receive buffer has 8196 bytes, not
8 KiB (`NetworkDefine.h`); sectors are 20 by 20 cells, not 10 by 10 (`GameDefine.h`); pooled blocks
end at 2048 bytes, not 4096 (`MemoryManager.h`).

## Model

| member | source | states |
|---|---|---|
| LockGraph.DeadlockDetector.CycleCheck | ServerCore/Thread/Lock.cpp:91-122 | Terminates on every finite graph and, from an empty visited list, answers whether a non-empty path leads from the given lock to the target, for any order of successors and although the list is shared across branches; from any list a hit is a real path and a miss leaves a closed explored set |
| LockGraph.SearchIsExact | ServerCore/Thread/Lock.cpp:93-100 | A fruitless search from an empty list excludes every path, of any length |
| LockGraph.ClosedSetDoesNotReach | ServerCore/Thread/Lock.cpp:107-121 | No path leaves a set closed under successors for a lock none of them points to |
| LockGraph.AddEdgeExactly | ServerCore/Thread/Lock.cpp:44-46 | The graph gains the edge from the innermost held lock to the requested one, and no other |
| LockGraph.AddEdgeAcyclicIff | ServerCore/Thread/Lock.cpp:44-50 | Adding one order edge to an acyclic graph keeps it acyclic exactly when its target does not reach itself, so searching from the requested lock alone is enough |
| LockGraph.RequestKeepsAcyclicIff | ServerCore/Thread/Lock.cpp:37-54 | A request leaves the graph acyclic exactly when it is let through |
| LockGraph.DeadlockDetector.LockRequest | ServerCore/Thread/Lock.cpp:31-57 | Records the edge from the innermost held lock, crashes exactly when the new graph has a cycle, and does nothing when checking is off or nothing is held |
| LockGraph.DeadlockDetector.LockAcquired | ServerCore/Thread/Lock.cpp:60-67 | Pushes the lock on the thread's held stack |
| LockGraph.DeadlockDetector.LockRelease | ServerCore/Thread/Lock.cpp:70-79 | Drops the top of the held stack, if there is one |
| LockProtocol.RequestKeepsInv | ServerCore/Thread/LockGuard.cpp:8-14 | A request that does not crash keeps the graph acyclic and records the requested lock below the innermost held one, for all threads at once |
| LockProtocol.AcquireKeepsInv | ServerCore/Thread/LockGuard.cpp:16-17 | Taking a free mutex keeps every lock owned by exactly the thread that took it |
| LockProtocol.PushKeepsInv | ServerCore/Thread/LockGuard.cpp:19-23 | The held stack stays a chain of recorded edges |
| LockProtocol.UnlockKeepsInv | ServerCore/Thread/LockGuard.cpp:25-28 | Releasing the innermost guard's mutex leaves the ownership of every other lock right |
| LockProtocol.PopKeepsInv | ServerCore/Thread/LockGuard.cpp:30-33 | After a guard is gone the detector's stack is again the stack of live guards |
| LockProtocol.RunKeepsInv | ServerCore/Thread/LockGuard.cpp:8-33 | The invariant holds in every state of every run of any number of threads |
| LockProtocol.WaitFollowsEdges | ServerCore/Thread/Lock.cpp:40-44 | When one blocked thread waits for another, the graph leads from the first one's lock to the second one's |
| LockProtocol.NoCircularWait | ServerCore/Thread/Lock.cpp:31-79 | No state of any run that did not crash holds a circular wait of any length, a relock of an own lock included |
| LockProtocol.SomeOwnerCanMove | ServerCore/Thread/Lock.cpp:31-79 | Whenever a thread is blocked, some lock owner is not blocked and has a step to take |
| LockProtocol.MutualExclusion | ServerCore/Thread/LockGuard.cpp:16-28 | No lock has two live guards, in one thread or in two |
| LockOrder.AcyclicIsRising | ServerCore/Thread/Lock.cpp:91-122 | The edges of an acyclic graph all follow one order of the locks |
| LockOrder.OrderedRunNeverCrashes | ServerCore/Thread/Lock.cpp:31-57 | When all threads nest their locks in one order, no state of any run is crashed |
| LockOrder.CrashedIff | ServerCore/Thread/Lock.cpp:31-57 | A run of any number of threads is crashed by the detector exactly when there is no one order of the locks in which every thread requested locks while holding others |
| LockOrder.NestingIsLetThrough | ServerCore/Thread/LockGuard.cpp:8-23 | A thread that nests any two different locks reaches both guards |
| LockOrder.CanMoveIff | ServerCore/Thread/LockGuard.cpp:8-33 | Without a crash, a thread has a step to take exactly when it does not wait for an owned mutex |
| ByteBuffer.CompactionLeavesRoomIff | ServerCore/Container/BaseBuffer.cpp:30-53 | Less than a packet of data always leaves room for a packet after compaction exactly when the buffer has at least 2 * 2048 - 1 bytes |
| ByteBuffer.CompactionMeans | ServerCore/Container/BaseBuffer.cpp:30-53 | The amount of data stays, the cursors move only when there is no data or less than a packet of room, and then all room is behind the data |
| ByteBuffer.BaseBuffer.Compact | ServerCore/Container/BaseBuffer.cpp:30-53 | The unread bytes stay the same whatever the overlap of the move, and the cursors end where the buffer size and fill level say |
| ByteBuffer.BaseBuffer.MoveReadPos | ServerCore/Container/BaseBuffer.cpp:15-19 | Drops bytes from the front of the unread data; the asserted bound is the caller's duty |
| ByteBuffer.BaseBuffer.MoveWritePos | ServerCore/Container/BaseBuffer.cpp:22-26 | Appends the bytes already written behind the data; the asserted bound is the caller's duty |
| Framing.ParseIsParse | ServerCore/Network/Session.cpp:138-166 | The receiver's loop cuts a stream into complete packets followed by an incomplete packet of less than 2048 bytes or a header with an impossible size |
| Framing.ParseIsUnique | ServerCore/Network/Session.cpp:138-166 | There is no other way to cut the stream so: the recursion equals its non-recursive description |
| Framing.ParseAppendGood | ServerCore/Network/Session.cpp:158-168 | Parsing may stop at an incomplete packet and go on from the rest when more bytes come |
| Framing.ParseAppendBad | ServerCore/Network/Session.cpp:150-156 | After a header with an impossible size, later bytes change nothing that was delivered |
| RecvSession.Session.DeliverPackets | ServerCore/Network/Session.cpp:138-166 | The loop over the buffer delivers exactly the packets of the parse, leaves exactly its rest, and closes exactly on a bad header; the cursor assertions hold |
| RecvSession.Session.OnRecvCompleted | ServerCore/Network/Session.cpp:123-171 | One completion is one step of the chunk-wise receiver; an empty chunk closes the session and delivers and drops nothing; an open session has less than a packet pending and at least 2048 bytes offered, and closes only on an empty chunk, a bad header or a failing request |
| RecvSession.Session.ProcessRecv | ServerCore/Network/Session.cpp:356-394 | Offers the free space; data that fills the buffer closes the session; otherwise room is made if there is none, and only a failing request closes |
| RecvSession.NonEmptyChunks | ServerCore/Network/Session.cpp:123-171 | For every stream and every cut into non-empty chunks, the packets delivered, the closing and the rest are those of one parse of the whole stream |
| RecvSession.ChunkIndependence | ServerCore/Network/Session.cpp:123-171 | For any chunks, what is delivered and kept is one parse of the chunks before the first empty one, and the session is closed exactly when that parse is bad or some chunk is empty |
| Framing.Frame | GameServer/Packet/PacketHandler.h:90-99 | A frame is a packet whose header gives its own length, with the id and payload recoverable |
| Framing.FrameBytes | GameServer/Packet/PacketHandler.h:90-99 | The bytes on the wire: id and total size low byte first, then the payload |
| Framing.SizeCheckExactIff | GameServer/Packet/PacketHandler.h:80-88 | The size check answers the real question exactly for the sizes whose 16-bit total does not wrap back into the accepted range |
| Framing.SizeCheckAcceptsHugePayload | GameServer/Packet/PacketHandler.h:80-88 | A payload of 65536 bytes passes the size check |
| Framing.HeaderFitsIff | GameServer/Packet/PacketHandler.h:80-98 | Header and payload lie inside the buffer made for them exactly when the size is rejected or its low 16 bits are below 65532 |
| Framing.HeaderMissesBuffer | GameServer/Packet/PacketHandler.h:80-92 | A payload of 65532 bytes is accepted with a buffer of no bytes |
| Framing.SendPacket | GameServer/Packet/PacketHandler.h:78-103 | For a payload of any size: nothing is sent, the header is written outside the buffer, or a fresh buffer holds exactly the frame of what was serialized, each under its exact condition |
| Framing.ParseFrames | GameServer/Packet/PacketHandler.h:61-74 | Parsing the frames of any list of messages gives the frames back with nothing over, and handling them gives the messages |
| SendQueue.TakeBatchKeepsBytes | ServerCore/Network/Session.cpp:407-427 | A batch followed by the remaining queue carries the queue's bytes in order |
| SendQueue.TakeBatchSplits | ServerCore/Network/Session.cpp:412-434 | A batch holds only buffers that carry bytes, at most the limit of them, and is empty only when nothing queued carries any |
| SendQueue.Session.Enqueue | ServerCore/Network/Session.cpp:105-113 | Queues at the back, leaves the flag set, and tells the caller to send exactly when it was clear |
| SendQueue.Session.PopBatch | ServerCore/Network/Session.cpp:406-427 | The loop takes exactly the batch of the recursive definition, of at most ten buffers |
| SendQueue.Session.OnSendCompleted | ServerCore/Network/Session.cpp:188-248 | Takes the stored batch, puts back in front what the loop keeps of it, and clears the flag exactly when nothing is queued |
| SendQueue.CompletionKeepsUnsentIff | ServerCore/Network/Session.cpp:196-239 | For every shape of a batch: what goes back is what did not go out, whatever the bytes, exactly when the completion covers the whole batch |
| SendQueue.RequeuesOneWhole | ServerCore/Network/Session.cpp:202-227 | A completion that ends strictly inside a buffer of the batch puts back exactly that buffer, whole |
| SendQueue.RequeuesOnlyInside | ServerCore/Network/Session.cpp:202-227 | Nothing goes back otherwise, so a completion that ends between two buffers loses all after it |
| SendProtocol.StepKeepsHolder | ServerCore/Network/Session.cpp:96-120 | Every step of every thread passes the one right to send on, or gives it up, whatever completes and when |
| SendProtocol.SendingIsAToken | ServerCore/Network/Session.cpp:96-120 | In every run, with completions of any size at any time, at most one send is outstanding, at most one thread is in the send path, never both, and the flag says whether there is any |
| SendProtocol.StepKeepsBatchKnown | ServerCore/Network/Session.cpp:436-456 | When completions are whole and come after the store, the outstanding send is always of the batch stored or about to be |
| SendProtocol.StepConserves | ServerCore/Network/Session.cpp:397-457 | Every step then keeps accepted bytes equal to bytes posted, then bytes in hand, then bytes queued |
| SendProtocol.OrderlyRunConserves | ServerCore/Network/Session.cpp:174-259 | Both hold in every state of every such run, whatever the buffers |
| SendProtocol.BytesConserved | ServerCore/Network/Session.cpp:96-259 | In every such run the accepted bytes are the wire's, a held batch's and the queue's, in that order |
| SendProtocol.LateStoreRepeatsBytes | ServerCore/Network/Session.cpp:436-456 | A run of whole completions, one of them before its batch is stored, in which the first buffer's bytes go out twice, for any first buffer longer than the second |
| SendProtocol.StepKeepsEvenBatches | ServerCore/Network/Session.cpp:397-457 | With buffers of one length and whole completions, every batch and every size posted is of whole buffers and nothing is ever put back, late stores included |
| SendProtocol.WholeCompletionsConserveIff | ServerCore/Network/Session.cpp:174-259 | Every run of whole completions, handled at any time, conserves the bytes exactly when all buffers handed to Send that carry bytes have one and the same length |
| SendProtocol.RunStaysAwake | ServerCore/Network/Session.cpp:229-254 | In every run whose buffers all carry bytes, something queued means the flag is set, and no thread ever finds nothing to send |
| SendProtocol.NoLostWakeupIff | ServerCore/Network/Session.cpp:429-434 | No run loses a wakeup exactly when no buffer handed to Send is null or empty |
| SendProtocol.LosingRunLoses | ServerCore/Network/Session.cpp:429-434 | A run of two threads in which a buffer that carries nothing makes the next one wait for ever |
| SendProtocol.QuietMeansSent | ServerCore/Network/Session.cpp:231-254 | When the flag is clear, everything accepted is on the wire |
| RoundTrip.DeliveredIsPrefix | ServerCore/Network/Session.cpp:123-171 | At any moment of any such run, whatever part of the wire has arrived and however it was cut, the handlers were given a prefix of the messages sent and the session is open |
| RoundTrip.SendReceiveRoundTrip | GameServer/Packet/PacketHandler.h:59-103 | Once the sender is quiet and the wire has arrived in any chunks, the handlers were given exactly the messages sent, in order |
| MemoryHeader.SizeRoundTrip | ServerCore/Memory/MemoryHeader.h:32-33 | The 32-bit size is read back as written |
| MemoryHeader.AttachHeader | ServerCore/Memory/MemoryHeader.cpp:22-44 | Writes header and both guards of a block and no byte outside them |
| MemoryHeader.SealedFrame | ServerCore/Memory/MemoryHeader.cpp:28-38 | Writes outside a block's own header and guards leave them intact |
| MemoryHeader.OverrunIsNoticed | ServerCore/Memory/MemoryHeader.cpp:59-69 | A write of anything but the pattern within the guard bytes on either side of the data makes the guard check fail |
| MemoryHeader.DetachHeader | ServerCore/Memory/MemoryHeader.cpp:47-72 | Recovers base, size and type from the data pointer, and the guard check fails exactly when some guard byte was changed |
| Carving.UsedBounds | ServerCore/Memory/MemoryManger.cpp:131-137 | One block size takes no more than its share of the chunk and misses it by less than one block |
| Carving.CarvingFits | ServerCore/Memory/MemoryManger.cpp:125-155 | For every chunk size, ratio table and block sizes the blocks fit, and the unused tail is smaller than one block of each size |
| MemoryManager.MemoryManager.CarveShare | ServerCore/Memory/MemoryManger.cpp:126-155 | The out-of-memory exit is never taken, and the round fills its free list with its full share of blocks inside the chunk |
| MemoryManager.MemoryManager.PushChunk | ServerCore/Memory/MemoryManger.cpp:108-156 | All carved blocks lie inside the chunk, share no byte, and every free list holds its full share |
| MemoryManager.MemoryManager.constructor | ServerCore/Memory/MemoryManger.cpp:17-26 | A new allocator is in order, with nothing handed out |
| MemoryManager.ServerTableIsCarvable | ServerCore/Memory/MemoryManger.cpp:6-9 | The server's own sizes, ratios and chunk size meet what carving needs, in release and debug builds |
| MemoryManager.MemoryManager.SizeToIndex | ServerCore/Memory/MemoryManger.cpp:159-171 | Finds the smallest block size that fits |
| Blocks.BestFitOfTableSize | ServerCore/Memory/MemoryManger.cpp:80-82 | A block's recorded size leads back to the list of exactly that size |
| MemoryManager.MemoryPool.Pop | ServerCore/Memory/MemoryPool.cpp:9-19 | Takes the top of the free list and moves one from remaining to used, or changes nothing |
| MemoryManager.MemoryPool.Push | ServerCore/Memory/MemoryPool.cpp:22-30 | Puts a block on top and counts it as remaining, and as no longer used when asked to |
| MemoryManager.MemoryManager.Allocate | ServerCore/Memory/MemoryManger.cpp:29-56 | For a request of any size, hands out a pointer not in use to a block of at least that size, from the best free list or else from outside; no other block and no one's data changes |
| MemoryManager.MemoryManager.Release | ServerCore/Memory/MemoryManger.cpp:59-100 | Takes back a pointer in use; the guard assertions do not fire, a pool block returns to its list, a malloc block to malloc, and a larger block's data pointer is handed to VirtualFree, whose outcome is a parameter |
| MemoryManager.MemoryManager.WriteData | ServerCore/Memory/MemoryHeader.cpp:59-69 | A write inside a holder's own data keeps the whole heap in order |
| Blocks.AllocatedMeans | ServerCore/Memory/MemoryManger.cpp:41-55 | Every allocation keeps blocks apart and sealed, free lists and counters right, and every holder's data as it was |
| Blocks.AllocationUsesPool | ServerCore/Memory/MemoryManger.cpp:32-55 | A free block of the best size is handed out whenever there is one, with memory and blocks unchanged; otherwise the block is new, from malloc or above 2048 bytes from VirtualAlloc |
| Blocks.ReleasedMeans | ServerCore/Memory/MemoryManger.cpp:59-100 | Every release keeps all that, puts a pool block on the free list of its size and on no other, and returns memory from outside exactly when the block has at most 2048 bytes or VirtualFree frees it by its data pointer |
| Blocks.DataWriteKeepsBlocks | ServerCore/Memory/MemoryHeader.cpp:59-69 | A write inside one block's data breaks no header and no guard of any block |
| Blocks.RunKeepsHeap | ServerCore/Memory/MemoryManger.cpp:29-100 | In every run of allocations, releases and holders' writes the heap is in order, and the number of pool blocks of each size, in use or free, never changes |
| Blocks.InUseNeverOverlaps | ServerCore/Memory/MemoryManger.cpp:29-100 | In every run, blocks in use share no byte with each other or with a free block |
| SectorIds.SectorIdRoundTripIff | GameServer/World/Zone/Sector.h:7-23 | The coordinates are read back from the id exactly when y is not negative, or x is -1 |
| SectorIds.SectorIdInjective | GameServer/World/Zone/Sector.h:7-25 | On sectors with y not negative, ids tell sectors apart |
| SectorIndex.DisciplinedFiling | GameServer/World/WorldManager.cpp:415-465 | Over every life of an object with at most one position update between ticks: waiting in a new place it is filed exactly where it was at the last tick, and otherwise exactly where it is |
| SectorIndex.TickMakesExactIff | GameServer/World/WorldManager.cpp:440-464 | Then a tick makes the filing exact exactly when the object ever left the place of its construction, or that place is off the map |
| SectorIndex.TickExactIff | GameServer/World/WorldManager.cpp:440-464 | For any filing at all, the exact condition under which a tick makes it right |
| SectorIndex.ManyMovesExactIff | GameServer/Object/GameObject.cpp:81-98 | From any filing, pending or not, and for any number of updates before the tick, the exact condition under which the tick files the object right |
| SectorIndex.HeldMovesExactIff | GameServer/World/WorldManager.cpp:440-464 | For an object in one bucket at most, settled or waiting: it ends up filed right exactly when that bucket is its last place's, or the last update changed its place and came from that bucket |
| SectorIndex.FreshMovesExactIff | GameServer/Object/GameObject.cpp:7-8 | A new object's first tick files it exactly when its last two updates are to different places, or the last is off the map |
| SectorIndex.EntryMoveIsNeverFiled | GameServer/Object/Player/Player.cpp:220-238 | A player that enters and moves inside its cell before the tick is filed nowhere through any further events there, and is filed by the tick after it leaves |
| SectorIndex.TwoMovesLeaveStaleEntry | GameServer/Object/GameObject.cpp:81-83 | Two updates through a second bucket leave the object filed in the first |
| SectorIndex.DeletionLastsIff | GameServer/World/WorldManager.cpp:45-51 | For any filing and any place the deletion was requested at, the exact condition under which the tick leaves the object filed nowhere |
| SectorIndex.DisciplinedDeletionLastsIff | GameServer/World/WorldManager.cpp:45-51 | After at most one move between ticks, a deletion requested where the object is lasts exactly when no move of it is waiting, or the move left the map |
| SectorIndex.StaleEntryOutlivesDeletion | GameServer/World/WorldManager.cpp:399-412 | After two moves in one tick through a second bucket into a third, an object deleted where it is stays filed in the first although no move waits |
| SectorIndex.AddFiles | GameServer/World/WorldManager.cpp:73-80 | Adding files one object in one more bucket and leaves all others where they are |
| SectorIndex.RemoveUnfiles | GameServer/World/WorldManager.cpp:105-123 | Removing, with the emptied sector dropped, takes one object out of one bucket and leaves all others where they are |
| World.GameObject.constructor | GameServer/Object/GameObject.cpp:6-11 | A new object is in the first place, not pending and not filed, with an empty history |
| World.GameObject.SetWorldPosition | GameServer/Object/GameObject.cpp:72-99 | Is one move of the object's filing, added to its history, and touches no other object's; filings stay replays of histories |
| World.GameObject.SendEnterGamePkt | GameServer/Object/Player/Player.cpp:219-238 | Is a move and a request of the object's filing, added to its history; filings stay replays of histories |
| World.WorldManager.RequestSectorUpdate | GameServer/World/WorldManager.cpp:127-132 | Is one request step of the object's filing |
| World.WorldManager.AddObjectToSector | GameServer/World/WorldManager.cpp:61-81 | Files the object in the bucket of the cell, or nowhere off the map |
| World.WorldManager.RemoveObjectToSector | GameServer/World/WorldManager.cpp:93-124 | Takes the object out of the bucket of the cell, and no other object out of any |
| World.WorldManager.UpdateSector | GameServer/World/WorldManager.cpp:415-465 | Is one tick of every object's filing, whether pending or not, added to every history; filings stay replays of histories |
| World.WorldManager.RequestSectorDelete | GameServer/World/WorldManager.cpp:84-90 | Adds the object with the place it was in to the deletions of the next tick |
| World.WorldManager.SectorUpdateWorkerThread | GameServer/World/WorldManager.cpp:45-51 | Takes every object out of the buckets its deletions were requested for, and then is one tick of its filing; for one request this is the deletion and tick of the filing laws; filings stay replays of histories |
| World.WorldManager.DeleteObjSector | GameServer/World/WorldManager.cpp:399-412 | Takes each object out of exactly the buckets its deletion was requested for, so that none of them holds it, and drops its history |
| World.TickedIndexIsTrue | GameServer/World/WorldManager.cpp:45-51 | With the histories the methods keep: after a tick, disciplined objects are filed nowhere but where they are, and filed there once they left their first place |
| World.DisciplinedIsFiledOnce | GameServer/World/WorldManager.cpp:415-465 | At any time, objects moved at most once between ticks are in one bucket at most, waiting ones included |
| WorldMap.TruncKeepsDistance | GameServer/World/WorldManager.cpp:142-147 | Truncation toward zero keeps cells of near positions within a whole range, across zero too |
| WorldMap.CellOnAxis | GameServer/World/WorldManager.cpp:142-147 | For every cell number, exactly which positions on an axis are given it, on either side of the origin |
| WorldMap.CellHoldsPosition | GameServer/World/WorldManager.cpp:142-147 | From the origin on, a position lies between the edges of its cell |
| WorldMap.ValidCellIff | GameServer/World/WorldManager.cpp:142-147 | The cell of a position is on the map exactly when the position is between the map's edges, or less than one cell below the near ones |
| WorldMap.ValidPastOriginIff | GameServer/World/WorldManager.cpp:142-147 | From the origin on, the cell is on the map exactly when the position is |
| WorldMap.TownSpawnCell | GameServer/Data/MapData.json:3-7 | On the server's map a Town spawn is in cell (33, 166) |
| WorldMap.NearInGridRange | GameServer/World/WorldManager.cpp:391-396 | Positions strictly nearer than the visible range are in cells within it |
| WorldMap.InGridRangeIsNear | GameServer/World/WorldManager.cpp:391-396 | Cells in range are of positions less than 21 cells' width apart, or 22 when one is below the origin |
| WorldMap.ZoneAtContains | GameServer/World/WorldManager.cpp:468-482 | A position inside some zone is assigned a zone that contains it |
| WorldMap.ZoneAtDefault | GameServer/World/WorldManager.cpp:468-482 | A position in no zone belongs to Town |
| WorldMap.CutZone | GameServer/World/WorldManager.cpp:472-476 | Of two zones that share a border, each position of both belongs to exactly one; the near corner belongs to the zone |
| WorldMap.ZoneInRangeIff | GameServer/World/WorldManager.cpp:375-388 | The visible square overlaps a zone exactly when some position of the zone is near |
| WorldMap.GetZoneByPosition | GameServer/World/WorldManager.cpp:468-482 | The loop finds the first zone that contains the position, Town when none does |
| Visibility.SectorsCoverRange | GameServer/World/WorldManager.cpp:352-372 | Every cell of the map in range lies in an enumerated sector |
| Visibility.VisibleSectorIff | GameServer/World/WorldManager.cpp:352-372 | From a cell of the map, a sector is enumerated exactly when some cell of it, not past the far edge, is in range |
| Visibility.ZonesCoverRange | GameServer/World/WorldManager.cpp:335-349 | The zone of every near position inside a zone is looked into |
| Visibility.VisibleZoneIff | GameServer/World/WorldManager.cpp:335-349 | A zone is looked into exactly when it is the current one or some position of it is near |
| Visibility.GetVisibleZones | GameServer/World/WorldManager.cpp:335-349 | Lists exactly the current zone and those the visible square overlaps, without repetition when zone types are distinct |
| Visibility.GetVisibleSectorIds | GameServer/World/WorldManager.cpp:352-372 | Lists exactly the ids of the sectors of the clamped rectangle, without repetition |
| World.WorldManager.GetVisibleObjectsInSector | GameServer/World/WorldManager.cpp:197-258 | Appends each shown object exactly as often as enumerated sectors of the zone hold it |
| World.WorldManager.GetVisibleObjectsInSectors | GameServer/World/WorldManager.cpp:295-305 | On any index, also between ticks, the answer lists a shown object exactly as often as buckets in sight hold it, so nothing twice when no object is in two buckets |
| World.WorldManager.StaleIsListedTwice | GameServer/World/WorldManager.cpp:197-305 | A player that moved twice in one tick between sectors in sight is listed twice after it |
| World.WorldManager.UpdatePlayerVision | GameServer/World/WorldManager.cpp:535-551 | The tick gives a player exactly what its query finds, and keeps a client in sync exactly when no new object found is held by two buckets in sight |
| World.WorldManager.HeldIsFoundIff | GameServer/World/WorldManager.cpp:197-305 | An object in one bucket at most is found exactly when it is shown and that bucket is in sight; in the bucket of its place, exactly when a scan of all objects would find it |
| World.WorldManager.WaitingIsFoundIff | GameServer/World/WorldManager.cpp:197-305 | Between ticks, a waiting object is found exactly when it is shown and the bucket of its previous place is in sight, and never before its first tick |
| World.WorldManager.SettledIsFoundIff | GameServer/World/WorldManager.cpp:197-305 | An object that does not wait is found exactly when it left its first place and a scan of all objects on the map would find it |
| World.WorldManager.ArrivalIsMissed | GameServer/World/WorldManager.cpp:197-305 | On a map of 100 by 100 cells, a player that came from the far corner is in range and shown, yet not found before the tick |
| World.WorldManager.NearIsFound | GameServer/World/WorldManager.cpp:45-55 | After a disciplined tick, every valid player between the map's edges, inside some zone, past its first place and strictly nearer than 20 cells' width is in the answer |
| World.WorldManager.FoundIsNear | GameServer/World/WorldManager.cpp:197-258 | Everything in the answer is less than 21 cells' width away, or 22 when it or the viewer is below the origin; a player in it is valid, and it holds only players when only they are asked for |
| World.WorldManager.NearIsVisible | GameServer/World/WorldManager.cpp:375-396 | Every object inside some zone and strictly nearer than 20 cells' width on both axes is in sight and in range for that scan |
| WorldScenarios.Live | GameServer/World/WorldManager.cpp:415-465 | Every life of moves and ticks on a small map is lived by a player under the world's own operations, with the filing its history gives |
| WorldScenarios.MissArrival | GameServer/World/WorldManager.cpp:295-305 | The world's own operations reach a state in which a shown player is not in the answer |
| WorldScenarios.ListTwice | GameServer/World/WorldManager.cpp:295-305 | They reach a state in which a player is in the answer twice |
| WorldScenarios.DeleteInVain | GameServer/GameServer.cpp:45-54 | They reach a state in which a player deleted where it is stays filed elsewhere |
| Vision.Player.UpdateVision | GameServer/Object/Player/Player.cpp:130-159 | The packets sent turn the client's set into the server's, never mention the player, and keep a client in sync exactly when no new object is listed twice; what any client shows, in sync or not, changes by exactly what came into view and left it |
| Vision.UpdateRecoversIff | GameServer/Object/Player/Player.cpp:130-159 | After an update a client shows what the server has in view exactly when all it showed besides is listed and nothing it lacked is |
| Vision.AnnouncedRecoversIff | GameServer/Object/Player/Player.cpp:96-97 | After a broadcast to a client in sync, the exact condition under which the next update brings what it shows back in line |
| Vision.Player.EnterGame | GameServer/Object/Player/Player.cpp:99-126 | Takes all listed objects into view and sends one spawn for each time a player other than itself is listed, so any client, in sync or not, shows those players besides what it showed; a client in sync stays so exactly when those players are new and listed once and everything else listed was in view |
| Vision.Player.Announce | GameServer/Object/Player/Player.cpp:96-97 | A broadcast entry or exit takes a client in sync out of sync |
| Vision.Player.SendSpawnPacket | GameServer/Object/Player/Player.cpp:242-262 | Spawns what is new in the list and nothing else |
| Vision.Player.SendDespawnPacket | GameServer/Object/Player/Player.cpp:265-277 | Despawns what left the view and nothing else, in any order |
| JobQueue.GroupJobQueue.Pop | ServerCore/Job/JobPriorityQueue.cpp:77-92 | Takes the first due job in the queue's order, and nothing exactly when no queued job is due |
| JobQueue.TopExists | ServerCore/Job/JobPriorityQueue.h:41-53 | Time then number orders any queue with distinct numbers, so a top always exists |
| JobQueue.TakenByTimeThenNumber | ServerCore/Job/JobPriorityQueue.h:41-53 | In every run, when a job is taken, whatever was pushed and is due earlier, or at its time with a lower number, was taken before, whichever threads submitted them |
| JobQueue.RunByTimeThenNumber | ServerCore/Job/JobPriorityQueue.h:41-53 | So of two such jobs that ran, the earlier or lower one ran first |
| JobQueue.StopHolds | ServerCore/Job/JobPriorityQueue.cpp:95-131 | After a stop no job is taken, and at most one runs: that the worker had cleared before |
| JobQueue.NoJobRunsEarly | ServerCore/Job/Job.cpp:27-30 | In no run does a job run before its time |
| JobQueue.JobsAreConserved | ServerCore/Job/JobPriorityQueue.cpp:95-131 | In every run each submitted job is in exactly one place: queued, taken or run, and none runs twice |
| JobQueue.SubmissionOrderIsKept | ServerCore/Job/Job.cpp:9-15 | In every run, jobs of one thread run in submission order when the later one's delay is not shorter, undelayed ones included, whatever else is queued |
| JobQueue.OrderIsKeptIff | ServerCore/Job/Job.cpp:9-15 | For two delays, every run keeps the submission order of such jobs of one thread exactly when the later delay is not shorter; otherwise the later job can overtake |
| Heartbeat.SessionManager.Add | ServerCore/Network/SessionManager.cpp:29-40 | An id already in the table keeps its session |
| Heartbeat.SessionManager.Heartbeat | ServerCore/Network/SessionManager.cpp:72-144 | Every session in the table takes its heartbeat step and no other; those removed are closed |
| Heartbeat.ClosedByHeartbeatIff | ServerCore/Network/SessionManager.cpp:132-141 | An open session is closed exactly when it owes six answers or more, or has given more answers than asked |
| Heartbeat.RemovedIff | ServerCore/Network/SessionManager.cpp:97-142 | A heartbeat removes exactly the sessions that are closed or timed out, whatever their counters, and pings or closes any other, never both |
| Heartbeat.CountersStayBalanced | ServerCore/Network/SessionManager.cpp:127-142 | In every run of a client that answers no more than it is asked, pings exceed pongs by zero to six |
| Heartbeat.SilentIsClosedThenRemoved | ServerCore/Network/SessionManager.cpp:97-137 | A client that stops answering is pinged at most six more times; the next heartbeat closes its session and the one after removes it |

## Left out

- UniqueLockGuard: it allows releases out of order, after which the detector's stack is not accurate.
- LockGuard objects: their constructor and destructor are steps of a state machine, not methods of a class, because their interleaving is the point; the crash report and its lock names are not modelled.
- SendProtocol.BytesConserved: asks for completions that cover their batch and come after it is stored, because the code does not conserve bytes otherwise, as `SendQueue.CompletionKeepsUnsentIff` says of one completion and `SendProtocol.WholeCompletionsConserveIff` of all runs of whole ones. The two theorems of `RoundTrip.dfy` are about the same runs.
- SendProtocol: what happens after the first close of a session, including the closes on empty completions and failing sends, and races of closing with sending.
- SendQueue: a queued buffer is a value, the bytes between its cursors; one buffer object queued twice is not captured.
- Framing.SendPacket: does not say what the serializer leaves in the buffer when the size it is told is not the payload's, which happens from 65536 bytes on; those bytes are a parameter. Nor what a write outside the buffer damages.
- ByteBuffer.BaseBuffer.MoveReadPos: the 32-bit sum in the assertion is mathematical; no caller comes near the limit.
- The handler table, protobuf parsing, sockets, completion ports and timestamps: payloads are opaque bytes, and the outcome of a receive request is a parameter.
- MemoryManager: 32-bit overflow of the real size of a request near 4 GiB; double rounding in the share of a block size, which cannot cross an integer at these magnitudes; pools used by several threads between their emptiness check and their pop.
- MemoryManager.Carvable: asks that neither the sum of the ratios nor a block count exceeds 65535, because the source keeps both in 16 bits; a larger sum would wrap, and the loop over a larger count would not stop.
- MemoryManager.MemoryManager.Release: what VirtualFree does with a pointer that is not the base of an allocation is an input of the model.
- World: rounding of floating-point positions; positions are real numbers.
- Visibility.VisibleZoneIff: asks that zones are rectangles with some position in them.
- Visibility.VisibleSectorIff: is about a viewer on the map; what is enumerated from off the map is not stated beyond its definition.
- World.WorldManager.GetVisibleObjectsInSectors: does not say how often objects are listed on a map with two zones of one type; the source keeps one set of sectors per type.
- World.WorldManager.UpdatePlayerVision: one player; the loop over the active sessions is left out, and what it says about staying in sync is under unique object ids and zone types.
- World.WorldManager.UpdateSector: one atomic step; the source reads an object's place twice and another thread may move it in between.
- World: deletions are not events of the index invariant, because the tick may undo them; the history of a deleted object ends. Empty-sector sweeping, which removes nothing a query could see; whole-zone queries and broadcasts.
- Vision: which clients a broadcast of EnterGame or LeaveGame reaches, which is a query of the index; the client is assumed connected.
- JobQueue: one group; groups share only the number counter. The worker's sleep and the callbacks themselves.
- Heartbeat: heartbeats without a service, locking of the table against concurrent Add, and how time makes a session time out.
- Movement speed checks, stats, chat, loaders, logging, timers, the dummy client.
