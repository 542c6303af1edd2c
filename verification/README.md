# Verified models of the drivers' algorithms and protocols

Five components of this repository do more than talk to the kernel. Each is modelled here in
Dafny, in the form the C code has (fields updated in place become classes, loops stay loops), and
proved against a specification on values about which the properties one relies on are proved for
all inputs, all runs and all interleavings.

| files | what they model |
|---|---|
| `QuantumSets`, `Positions`, `ScullDev`, `ScullcDev`, `FlatStore`, `StorageClient` | the scull and scullc storage: linked quantum sets against a flat byte store |
| `PipeRing`, `Pipe`, `PipeProtocol`, `PipeWakeups`, `PipeTheorems`, `PipeStranded`, `PipeUndisturbed`, `PipeSignals` | the blocking pipe: a class over the ring buffer, and an interleaving of any number of threads |
| `PacketFlow`, `SnullDevice`, `AddressRewrite` | the snull pair: packet pools, receive queues, NAPI, the rewritten IP header |
| `SingleGate`, `OwnerGate`, `OwnerSignals`, `GateDevices` | who may open scull_single, scull_uid and scull_wuid |
| `Transfers`, `Sbull` | sbull: scatter/gather transfers in both modes, and the disk geometry |
| `Kernel`, `Arithmetic` | errors, fixed-width conversions, copies from and to user memory; division facts |

## How to read the model

- **Storage.** `QsetList` is the linked list of nodes, pointer arrays and blocks, allocated one by
  one. A ghost ledger (`role`) records every live allocation and its one use, so freeing something
  twice, or leaking it, would be a proof failure. `Cell` reads the list as a flat memory; the
  device methods are steps of `FlatStore.Step`, and the theorems about histories are in
  `FlatStore`. The position arithmetic is done in the C types (`Positions.Computed`, `Split`): an
  int product, and an int item number that keeps only the low 32 bits of the quotient. The loop
  `while (n--)` counts in the wrapping int arithmetic of the kernel, so a call at `pos` ends up at
  `Positions.Landing(pos)`; events carry both positions. `struct scull_dev` and
  `struct scullc_dev` share the fields `data`, `quantum` and `qset`, so both devices use the same
  list class.
- **Pipe.** `Pipe.ScullPipe` is what one thread does while it holds the mutex. `PipeProtocol` takes
  one step per shared access (lock, test, unlock, join a wait queue, re-test, copy, move a pointer,
  wrap it, each of the two stores of a reset, wake), with any number of threads and open files.
  Memory is sequentially consistent, one evaluation of `spacefree` or of `rp != wp` is one step, the
  reset stores `wp` and then `rp`, and the file system calls read and write only on files opened for
  it and release when nobody uses the file any more.
- **snull.** `PacketFlow` describes both interfaces as values with one step per entry point.
  `SnullDevice` runs the C code on real packet nodes; `net` is the value the heap stands for and
  `home` says on which list, and where, each allocated packet lies. A list is a sequence whose last
  element is the head.
- **Gates.** In `SingleGate` every atomic operation is a step. In `OwnerGate` the steps are taking
  and releasing the lock, each evaluation of the availability test (inside the lock and, by a
  waiter, outside it), the update of owner and count under the lock, and joining and leaving the
  wait queue; one evaluation of the test and one such update are one step each. `GateDevices` has
  the same code as methods and shows that an undisturbed call is a run of the protocol, as `PipeUndisturbed` does for the
  pipe.
- **Outcomes the kernel decides** are parameters: `mem` or `memory` (which allocations succeed),
  `reach` (how many bytes of user memory are accessible), `interrupted` and `signal`, `complete` (the
  answer of `napi_complete_done`), `inner` (the answer of the inner open). Contracts say which
  outcome leads to which result.

## What turned out to be conditional

- Opening the pipe resets it without waking writers, in two stores (`scull_pipe.c:42`). Each store
  leaves a sleeping writer behind exactly when one sleeps, no wake-up is on its way and the pipe
  does not look full after it (`PipeWakeups.ResetForgetsWriters`). In
  `PipeStranded.OpenStrandsAWriter` the writer was asleep when the open came; in
  `PipeStranded.SpuriousFullStrandsAWriter` nobody was, but the writer's re-test fell between the
  stores, when the empty pipe looks full because `rp` stands at 1 (`PipeTheorems.UnlockedTests`).
- A failing inner open of scull_wuid drops the count without a wake-up (`scull_wuid.c:40-44`):
  `OwnerGate.DropForgets` says exactly when this strands a waiter, `OwnerGate.FailedOpenForgets` is
  such a run.
- An opener of scull_single can be refused although nobody has the device:
  `SingleGate.RefusedWithoutHolder`; `SingleGate.WhoGetsIn` is the exact condition.
- Read and write of scull divide by `quantum * qset` and truncate the item number to an int without
  a check. The place they compute for `pos` is in bounds and the right one exactly for
  0 < quantum <= 2147483 and pos < 2^31 * quantum * 1000 (`FlatStore.WriteIsDefined`, in general
  `Positions.PlaceIsRight`). Overflow of the product counts as undefined here, as in plain C; in the
  wrapping arithmetic of the kernel some larger quanta still give right places for positions near
  the start, 2147484 for instance. An ioctl and a trim bring any quantum into force; with 0 the next write
  divides by zero, with -1 nothing divides by zero or overflows and position 1 gets slot -1
  (`FlatStore.UndefinedWrites`).
- From 2^31 items on the item number is negative, and only the wrapping count of the walk still
  arrives at the right node; from 2^32 items on positions repeat (`Positions.LandingFacts`).
  `FlatStore.AliasedWrite` is a run in which a byte written at 2^32 * 4000 * 1000 comes back from
  position 0. `FlatStore.OwnPosition` says exactly when a transfer reaches its own position, and
  the round trip needs only that the buffer does not run into itself.
- That a running transmit queue of snull has a buffer fails exactly when its pool has been empty
  ever since the start, a timeout that allocated nothing, or an open on the empty pool
  (`PacketFlow.PoolExhausted`). The coupling of interrupts, polls and receive queues needs no such
  condition (`PacketFlow.NoStrandedPacket`).
- Two address rewrites are the identity exactly on headers that verify and do not carry 0xFFFF
  where the algorithm writes 0 (`AddressRewrite.RestoredHeaders`);
  `AddressRewrite.OtherZeroIsLost` shows a header that verifies and is not restored.
- The reported geometry fits the disk exactly up to 63 * 255 * 65535 sectors
  (`Sbull.GeometryFits`). A request that runs over the end of the device is clipped and still
  reported as successful; a bio fails.
- The header file calls the capacity of sbull a size in bytes; the code uses it as a number of
  sectors, and so does the model.

## Model

| member | source | states |
|---|---|---|
| Positions.PlaceBounds | scull_full/impl/scull_dev_common.c:143-147 | the nested division of a position yields a slot below qset and an offset below quantum, and consecutive quanta of the flat file are consecutive slots |
| Positions.BlockPosition | scull_full/impl/scull_dev_common.c:143-147 | two positions share a block exactly when they share a quantum of the flat file, at matching offsets |
| Positions.Split | scull_full/impl/scull_dev_common.c:188-192 | the int arithmetic of read and write computes the C place, and the walk it starts ends at the place of the landing position |
| Positions.PlaceIsRight | scull_full/impl/scull_dev_common.c:182-192 | for every position and every quantum and qset: the computed place is in bounds and denotes the position exactly if both are positive, their product fits an int, and pos is below 2^31 items |
| Positions.NegativeQuantum | scull_full/impl/scull_dev_common.c:188-192 | a quantum of -1 yields slot -1 for position 1 |
| Positions.AliasedPosition | scull_full/impl/scull_dev_common.c:188-192 | under the default geometry, position 2^32 * 4000 * 1000 is taken for place 0 |
| Positions.LandingFacts | scull_full/impl/scull_dev_common.c:51-60 | where the truncated item number and the counting loop lead: to the position itself exactly below 2^32 items, otherwise to one a multiple of 2^32 items nearer, at the same offset in its quantum |
| Positions.LandingDiffers | scull_full/impl/scull_dev_common.c:51-60 | positions less than 2^32 items apart end up at different places |
| QuantumSets.QsetList.Follow | scull_full/impl/scull_dev_common.c:37-62 | follow turns n times, n counted modulo 2^32, and returns that node or runs out of memory, which one depending only on how many nodes are missing; old nodes stay, new ones are empty, the list gets exactly as long as memory allowed |
| QuantumSets.QsetList.Advance | scull_full/impl/scull_dev_common.c:51-60 | one turn of the walk adds at most one node, at the end |
| QuantumSets.QsetList.Grow | scull_full/impl/scull_dev_common.c:43-48 | a fresh empty node behind the last one keeps the list and the ledger well formed |
| QuantumSets.QsetList.Reach | scullc/impl/scullc_dev_common.c:11-38 | whether the walk succeeds or fails on the way, every stored byte stays as it was |
| QuantumSets.QsetList.Find | scull_full/impl/scull_dev_common.c:150-154 | a read finds the block of node i and slot j, or null exactly in a hole, and changes no byte |
| QuantumSets.QsetList.Fetch | scull_full/impl/scull_dev_common.c:143-154 | the block that a read finds holds the flat bytes from its landing position to the end of the quantum |
| QuantumSets.QsetList.Locate | scull_full/impl/scull_dev_common.c:195-215 | a write finds or allocates its block exactly if memory suffices for all that is missing; running out half-way changes no stored byte |
| QuantumSets.QsetList.Provide | scullc/impl/scullc_dev_common.c:180-202 | the same on the flat memory: one more quantum is backed, zeroed in scullc, unspecified in scull |
| QuantumSets.QsetList.AddTable | scull_full/impl/scull_dev_common.c:201-208 | the pointer array has length qset, all null |
| QuantumSets.QsetList.AddBlock | scull_full/impl/scull_dev_common.c:210-215 | a block has length quantum and hangs in its one slot |
| QuantumSets.QsetList.StoreAt | scull_full/impl/scull_dev_common.c:222-225 | a copy into a block changes exactly its range of the flat memory; a fault smears no more than that |
| QuantumSets.QsetList.BlockTouched | scull_full/impl/scull_dev_common.c:222-225 | what happens in n bytes of one block is what happens in [pos, pos + n) of the flat file |
| QuantumSets.QsetList.FreeAll | scull_full/impl/scull_dev_common.c:75-85 | trim frees every node, array and block once, by the qset they were allocated under, and leaves nothing allocated |
| QuantumSets.QsetList.FreeBlocks | scull_full/impl/scull_dev_common.c:76-79 | the blocks of a node are freed one by one, none twice |
| QuantumSets.QsetList.Kfree | scullc/impl/scullc_dev_common.c:54-62 | an allocation can be freed only while it is live |
| ScullDev.ScullDevice.constructor | scull_full/impl/scull_dev_common.c:368-376 | a new device is empty and has the default geometry |
| ScullDev.ScullDevice.Trim | scull_full/impl/scull_dev_common.c:68-92 | size 0, no node, nothing left allocated, and the geometry that was asked for in force |
| ScullDev.ScullDevice.Open | scull_full/impl/scull_dev_common.c:97-110 | a write-only open trims unless it is interrupted; any other open does nothing |
| ScullDev.ScullDevice.Read | scull_full/impl/scull_dev_common.c:120-171 | a read of stored bytes is as long as asked, up to the size and the end of the quantum and never shorter, returns what the flat store holds, leaves the store alone, and fails exactly when interrupted or when the bytes it would copy are not accessible |
| ScullDev.ScullDevice.Write | scull_full/impl/scull_dev_common.c:173-238 | at any position, a write is as long as asked up to the end of the quantum and never shorter, changes exactly those bytes from its landing position on, and the size only to its end; each error has its exact condition, and none touches size or position |
| ScullDev.ScullDevice.Ioctl | scull_full/impl/scull_dev_common.c:243-336 | for each command: the answer and the quantum that the next trim adopts; only the reset touches the qset, and nothing touches the device |
| ScullDev.ScullDevice.Seek | scull_full/impl/scull_dev_common.c:341-366 | the new position for each mode: the offset, the old position plus it, the size plus it, in 64 bits; refused exactly when negative or the mode is unknown |
| ScullcDev.ScullcDevice.constructor | scullc/impl/scullc_dev_common.c:264-272 | a new scullc device is empty, with the quantum of its cache, whatever that is |
| ScullcDev.ScullcDevice.Trim | scullc/impl/scullc_dev_common.c:44-68 | the same trim without a change of geometry |
| ScullcDev.ScullcDevice.Read | scullc/impl/scullc_dev_common.c:96-155 | a read through the 128-byte buffer is the same flat step as a read with one copy |
| ScullcDev.ScullcDevice.Write | scullc/impl/scullc_dev_common.c:157-232 | so is a write; after a fault exactly the whole chunks before it have arrived and nothing else has changed |
| ScullcDev.ChunksToUser | scullc/impl/scullc_dev_common.c:137-147 | the read loop ends, moves the same bytes as one copy_to_user and fails exactly when that would |
| ScullcDev.ScullcDevice.ChunksFromUser | scullc/impl/scullc_dev_common.c:209-219 | the write loop ends; all n bytes are in the block, or the whole chunks before the fault and nothing else |
| ScullcDev.ScullcDevice.ChunkFromUser | scullc/impl/scullc_dev_common.c:212-218 | a faulting chunk leaves the block untouched |
| FlatStore.SizeIsEndOfWrites | scull_full/impl/scull_dev_common.c:230-233 | over every run, size is the largest end of a successful write since the last trim |
| FlatStore.LastWriteWins | scull_full/impl/scull_dev_common.c:173-238 | over every run, each flat position holds the last byte that a write has put there; with cleared blocks an untouched backed position holds zero |
| FlatStore.HolesAreUnwrittenQuanta | scull_full/impl/scull_dev_common.c:152-154 | over every run, a position is backed exactly when a write has reached its quantum since the last trim |
| FlatStore.ReadReturnsLastWritten | scull_full/impl/scull_dev_common.c:120-171 | what a read returns, from the history of writes alone |
| FlatStore.EmptyReads | scull_full/impl/scull_dev_common.c:135-154 | a read returns nothing exactly past the end, in a hole, or when asked for nothing |
| FlatStore.GeometryIsDeferred | scull_full/impl/scull_dev_common.c:87-89 | over every run, the quantum in force is the one asked for before the last trim |
| FlatStore.WriteIsDefined | scull_full/impl/scull_dev_common.c:182-192 | over every run, the place computed for a position is in bounds and the right one exactly for quanta 1..2147483 in force and positions below 2^31 items |
| FlatStore.ReadIsDefined | scull_full/impl/scull_dev_common.c:129-147 | a read never divides by a geometry that no write has divided by before |
| FlatStore.AnyQuantumIsReachable | scull_full/impl/scull_dev_common.c:297-303 | an ioctl and a trim bring any int into force as quantum |
| FlatStore.UndefinedWrites | scull_full/impl/scull_dev_common.c:182-192 | runs after which a write divides by zero, or takes slot -1 with nothing dividing by zero or overflowing |
| FlatStore.OwnPosition | scull_full/impl/scull_dev_common.c:143-155 | over every run, a transfer reaches its own position exactly below 2^32 items |
| FlatStore.AliasedWrite | scull_full/impl/scull_dev_common.c:188-230 | a run in which a byte written 2^32 items out comes back from position 0 |
| StorageClient.WriteFully | scull_full/impl/scull_dev_common.c:173-238 | repeated short writes end, and store the whole buffer across block and node boundaries |
| StorageClient.ReadFully | scull_full/impl/scull_dev_common.c:120-171 | repeated short reads end, and return what is stored |
| StorageClient.RoundTrip | scull_full/impl/scull_dev_common.c:120-238 | what was written comes back, from any position, for any buffer that does not run into itself after 2^32 items; without failures both loops complete |
| PipeRing.SpaceAndUnread | scull_full/impl/scull_pipe.c:88-95 | free space and unread bytes add up to the capacity minus the one gap |
| PipeRing.ReadFits | scull_full/impl/scull_pipe.c:159-163 | a read takes at least one byte of a non-empty ring and never passes the write pointer |
| PipeRing.WriteFits | scull_full/impl/scull_pipe.c:201-207 | a write of at least one byte makes progress, never reaches the read pointer and never makes a full ring look empty |
| PipeRing.WrapIsSilent | scull_full/impl/scull_pipe.c:170-173 | the wrap is invisible to whoever reads the contents |
| Pipe.ScullPipe.Open | scull_full/impl/scull_pipe.c:20-56 | every successful open empties the pipe and counts itself; a failing one changes nothing |
| Pipe.ScullPipe.Release | scull_full/impl/scull_pipe.c:58-85 | the buffer goes exactly with the last reader and writer |
| Pipe.ScullPipe.AdvanceRead | scull_full/impl/scull_pipe.c:170-173 | moving the read pointer in two steps removes exactly the oldest bytes |
| Pipe.ScullPipe.AdvanceWrite | scull_full/impl/scull_pipe.c:214-217 | moving the write pointer in two steps appends exactly the bytes just stored |
| Pipe.ScullPipe.Read | scull_full/impl/scull_pipe.c:141-180 | a read delivers and removes the oldest bytes, short only at the end of the data or of the buffer; it waits exactly on an empty pipe, and a fault changes nothing |
| Pipe.ScullPipe.Write | scull_full/impl/scull_pipe.c:195-228 | a write appends a prefix of the buffer, short only at the end of the room or of the buffer; it waits exactly on a full pipe, and a fault leaves the contents |
| Pipe.ScullPipe.Poll | scull_full/impl/scull_pipe.c:231-257 | readable means data, writable means room |
| PipeProtocol.InvStep | scull_full/impl/scull_pipe.c:20-229 | every step of every thread keeps the invariant: lock, files, counters, ring and history |
| PipeProtocol.LockStep | scull_full/impl/scull_pipe.c:99-180 | a step takes the mutex only when it is free and gives back only its own, on every path including the error exits |
| PipeProtocol.FilesStep | scull_full/impl/scull_pipe.c:20-85 | a file that is being opened or closed is in nobody else's hands |
| PipeProtocol.CountEffect | scull_full/impl/scull_pipe.c:45-79 | the counters stay the numbers of open files in each mode, and the buffer lives while one of them is open |
| PipeProtocol.RingStep | scull_full/impl/scull_pipe.c:158-217 | every step keeps: accepted bytes = delivered bytes followed by the ring, also between the two halves of a pointer update |
| PipeWakeups.ReadersStep | scull_full/impl/scull_pipe.c:141-156 | every step keeps: a sleeping reader sees an empty ring, or a writer is on its way to wake it, or an open is between its two stores |
| PipeWakeups.WritersStep | scull_full/impl/scull_pipe.c:99-125 | every step but an unsafe store of a reset keeps the same for writers |
| PipeWakeups.ResetForgetsWriters | scull_full/impl/scull_pipe.c:40-42 | each store of a reset keeps the writers exactly if it is safe or the pipe looks full after it: with no usable slot at all, and after the first store also with rp at 1 |
| PipeTheorems.FirstInFirstOut | scull_full/impl/scull_pipe.c:133-229 | in every run, what was delivered since the last open is a prefix of what was accepted, and the rest is the ring, except between the two stores of a reset, when both are empty |
| PipeTheorems.UnlockedTests | scull_full/impl/scull_pipe.c:107-114 | in every run, outside of a reset the unlocked test for a full ring is exact, and the one for an empty ring errs only optimistically, and exactly between the two halves of a read; between the two stores of a reset the empty pipe looks full exactly with rp at 1, and non-empty exactly while rp is not 0 |
| PipeTheorems.LockAndLifetime | scull_full/impl/scull_pipe.c:58-85 | in every run, whoever is inside read or write finds the buffer; counters equal open files; the mutex holder is inside a call |
| PipeTheorems.TouchedOnlyUnderLock | scull_full/impl/scull_pipe.c:133-229 | in every run, ring, counters and buffer change only in steps of the mutex holder |
| PipeTheorems.NoLostWakeup | scull_full/impl/scull_pipe.c:99-229 | in every run, no reader sleeps on data without a wake-up on its way; if the stores of opens are safe, no writer sleeps on space without one, unless an open is between its stores; so both sides never sleep together for good |
| PipeTheorems.NeverStuck | scull_full/impl/scull_pipe.c:99-229 | when no thread can move, every call left is a reader asleep on an empty pipe, or every one a writer asleep on a full pipe |
| PipeSignals.SignalledWriterReturns | scull_full/impl/scull_pipe.c:101-125 | a signal ends the wait of a writer within four steps of its own, in every run, without the mutex, the ring or its history being touched |
| PipeSignals.SignalledReaderLeaves | scull_full/impl/scull_pipe.c:148-150 | a signal ends the wait of a reader within four steps of its own: it returns with an empty pipe in view, or goes for the mutex with data in view |
| PipeSignals.WhyReadsReturn | scull_full/impl/scull_pipe.c:137-180 | a read returns for a signal at the mutex or in its wait on an empty pipe, for an empty pipe if it must not block, for a fault, or having delivered; the ring is untouched by the return |
| PipeSignals.WhyWritesReturn | scull_full/impl/scull_pipe.c:99-229 | the same for a write and a full pipe |
| PipeSignals.WhyOpensReturn | scull_full/impl/scull_pipe.c:29-55 | an open returns for a signal at the mutex, for lack of memory, or having reset the pipe |
| PipeSignals.NonBlockingNeverWaits | scull_full/impl/scull_pipe.c:106-146 | in every run, a call that must not block never enters a wait |
| PipeSignals.BufferIsFreed | scull_full/impl/scull_pipe.c:76-79 | in every run, with no file open and no open or close under way, the buffer has been freed |
| PipeStranded.OpenStrandsAWriter | scull_full/impl/scull_pipe.c:40-42 | for every capacity from 2 on, a run in which an open strands a sleeping writer on an empty pipe |
| PipeStranded.SpuriousFullStrandsAWriter | scull_full/impl/scull_pipe.c:40-42 | for every capacity from 2 on, a run in which nobody sleeps when the reset begins and a writer whose re-test falls between its stores is stranded |
| PipeUndisturbed.UndisturbedRead | scull_full/impl/scull_pipe.c:133-180 | a read that nobody disturbs is a run of the interleaving that ends with the pointer, the bytes, the failure or the wait of ScullPipe.Read, and the mutex free |
| PipeUndisturbed.UndisturbedWrite | scull_full/impl/scull_pipe.c:182-229 | the same for a write and ScullPipe.Write |
| SnullDevice.Snull.constructor | network_device/snull_device.c:591-603 | both interfaces start with receive interrupts on, nothing pending or locked, running queues and no packet anywhere |
| SnullDevice.Snull.Initialise | network_device/snull_device.c:580-605 | after the setup of both pools the value is an initial one, so every run of PacketFlow can start here; a pool is empty exactly if its size or its first allocation is |
| SnullDevice.Snull.SetupPool | network_device/snull_device.c:41-58 | the pool gets fresh packets until the size is reached or an allocation fails |
| SnullDevice.Snull.TeardownPool | network_device/snull_device.c:61-70 | exactly the packets of the pool are freed, each once |
| SnullDevice.Snull.GetTxBuffer | network_device/snull_device.c:73-92 | the head leaves the pool and the queue stops with the last one; the exit for an empty pool keeps the lock |
| SnullDevice.Snull.ReleaseBuffer | network_device/snull_device.c:95-106 | a packet in hand returns to its owner, whose queue wakes if its pool was empty |
| SnullDevice.Snull.EnqueueBuf | network_device/snull_device.c:109-118 | a packet of the twin goes on the receive queue |
| SnullDevice.Snull.DequeueBuf | network_device/snull_device.c:121-133 | the head leaves the receive queue, with the frame that was put there |
| SnullDevice.Snull.Drain | network_device/snull_device.c:233-256 | the poll loop is the drain of the value model and counts what it took |
| SnullDevice.Snull.Poll | network_device/snull_device.c:225-269 | a poll is the poll step of the value model and returns how many packets it took |
| SnullDevice.Snull.NapiInterrupt | network_device/snull_device.c:318-358 | a receive interrupt switches to polling, a transmit interrupt counts |
| SnullDevice.Snull.RegularInterrupt | network_device/snull_device.c:272-315 | a receive interrupt delivers one packet and releases its buffer after unlocking |
| SnullDevice.Snull.HwTx | network_device/snull_device.c:361-446 | too short a frame changes nothing; otherwise the frame is rewritten and crosses over as one step of the value model, or the pool is empty and the lock stays taken |
| SnullDevice.Snull.Tx | network_device/snull_device.c:449-472 | what reaches the twin has the length of the packet, at least 60, and agrees with it, padded with zeros, on every octet but 24, 25, 28 and 32, of which the last two change in the low bit; and a transmit admitted by a running queue with a buffer is a step of the value model |
| SnullDevice.Snull.Open | network_device/snull_device.c:143-158 | an open starts the queue and nothing else |
| SnullDevice.Snull.TxTimeout | network_device/snull_device.c:475-495 | a timeout frees exactly the pool, fills it with fresh packets, wakes the queue and leaves receive queues alone |
| SnullDevice.Remove | network_device/snull_device.c:73-133 | taking the head off a list keeps all lists acyclic, disjoint and complete |
| SnullDevice.Add | network_device/snull_device.c:95-118 | so does putting a packet in hand on a list |
| PacketFlow.DrainShape | network_device/snull_device.c:233-256 | a poll takes the top min(budget, length) packets and returns each buffer to the twin |
| PacketFlow.DrainOrder | network_device/snull_device.c:233-256 | with memory for every skb, frames go up from the top of the queue downwards and none is dropped |
| PacketFlow.SentFrame | network_device/snull_device.c:419-432 | where the frame of a transmit is afterwards, and that every other frame is where it was |
| PacketFlow.ReceivingStep | network_device/snull_device.c:225-495 | every step keeps, without any condition: interrupts off exactly while a poll is due, packets only with a poll due |
| PacketFlow.DryStep | network_device/snull_device.c:73-106 | after a step a queue runs without a buffer exactly if its pool is empty and it did so before, or a timeout allocated nothing, or an open found the pool empty |
| PacketFlow.CoupledStep | network_device/snull_device.c:225-495 | a step keeps both couplings exactly if it makes no queue run dry |
| PacketFlow.NoStrandedPacket | network_device/snull_device.c:225-269 | in every run, receive interrupts are off exactly while a poll is due, a queue with packets has one, and interrupts on means an empty queue |
| PacketFlow.NothingWaits | network_device/snull_device.c:272-315 | in every run without NAPI, receive queues are empty between the steps and interrupts stay on |
| PacketFlow.PollEndsOnEmptyQueue | network_device/snull_device.c:257-268 | fewer packets than the budget means that the queue is drained, and only then do interrupts come back |
| PacketFlow.PoolExhausted | network_device/snull_device.c:73-106 | in every run, a transmit queue runs without a buffer exactly if its pool has been empty ever since the start, a timeout that allocated nothing or an open on the empty pool |
| PacketFlow.PoolNeverExhausted | network_device/snull_device.c:73-106 | in every run that starts with a buffer and has no such timeout or open on that side, the queue runs exactly while it has a buffer |
| PacketFlow.DeliverConserves | network_device/snull_device.c:296-313 | a delivery moves one buffer home and loses no frame |
| PacketFlow.EnqueueConserves | network_device/snull_device.c:419-428 | a transmit moves one buffer over and adds one frame |
| PacketFlow.StepConserves | network_device/snull_device.c:225-495 | every step keeps each owner's buffers, except that a timeout replaces the pool, and accounts for every frame |
| PacketFlow.BuffersConserved | network_device/snull_device.c:41-133 | in every run of either mode, between any two moments without a timeout of the owner, its buffers are the same, and pool plus twin queue is constant |
| PacketFlow.FramesConserved | network_device/snull_device.c:194-256 | in every state of every run of either mode, each frame sent has gone up, was dropped or waits, exactly once |
| PacketFlow.DirectLeavesNothing | network_device/snull_device.c:272-315 | without NAPI, a transmit leaves the queue empty and its buffer back in the pool |
| PacketFlow.TransmitConserves | network_device/snull_device.c:419-432 | with NAPI, a transmit keeps all buffers with their owners and adds its frame to the twin |
| PacketFlow.DirectConserves | network_device/snull_device.c:272-315 | without NAPI, too |
| AddressRewrite.StampVerifies | network_device/snull_device.c:400-401 | a rebuilt checksum passes the receiver's check of section 3.1 of RFC 791, whatever the header was |
| AddressRewrite.SumWordwise | network_device/snull_device.c:400-401 | the sum adds the 16-bit words, high octet first |
| AddressRewrite.FoldRange | network_device/snull_device.c:400-401 | folding keeps the value modulo 65535, fits 16 bits, and is zero only for zero |
| AddressRewrite.RewriteVerifies | network_device/snull_device.c:397-401 | so does every rewritten header |
| AddressRewrite.TwiceIsIdentity | network_device/snull_device.c:397-401 | two rewrites restore every byte exactly of headers that a rebuilt checksum leaves as they are |
| AddressRewrite.RestoredHeaders | network_device/snull_device.c:397-401 | in terms a sender can check: exactly of headers that verify and whose field is not 0xFFFF, or whose other words are all zero |
| AddressRewrite.OtherZeroIsLost | network_device/snull_device.c:400-401 | a header that verifies and is not restored |
| AddressRewrite.ChecksumSurvives | network_device/snull_device.c:397-401 | the checksum field is unchanged exactly when the two addresses move in opposite directions |
| AddressRewrite.CrossingFrames | network_device/snull_device.c:393-428 | a crossing keeps length, link header and payload; crossing back is the identity exactly if the header verified and did not carry the other zero |
| AddressRewrite.CrossingTouches | network_device/snull_device.c:393-401 | of any frame of at least 34 octets, octets 28 and 32 change in the low bit, octets 24 and 25 hold the checksum of a header that fits, and no other octet changes |
| AddressRewrite.RewriteInPlace | network_device/snull_device.c:393-401 | the in-place code computes that rewrite; no octet but 24, 25, 28 and 32 changes |
| SingleGate.InvStep | scull_full/impl/scull_single.c:7-33 | every atomic operation keeps: available = 1 - attempts under way, and one inside at most |
| SingleGate.OneHolder | scull_full/impl/scull_single.c:15-31 | in every run, available = 1 - holders - openers backing off, and there is at most one holder |
| SingleGate.WhoGetsIn | scull_full/impl/scull_single.c:15-18 | an opener gets in exactly when nobody is inside and nobody is backing off |
| SingleGate.RefusedWithoutHolder | scull_full/impl/scull_single.c:15-18 | a run in which an opener is refused although nobody holds the device |
| OwnerGate.InvStep | scull_full/impl/scull_wuid.c:14-64 | every step keeps: the lock has one holder, count = admitted opens, everybody admitted matches the owner or may override |
| OwnerGate.OneOwner | scull_full/impl/scull_wuid.c:8-46 | in every run, count is the number of admitted opens, and all of them match the owner or may override |
| OwnerGate.OwnerIsStable | scull_full/impl/scull_wuid.c:22-37 | in every run, the owner changes only at count 0, to the uid of the one who comes in; an opener is let through exactly if the count is 0, the owner is its uid or euid, or it may override |
| OwnerGate.WakeStep | scull_full/impl/scull_wuid.c:23-64 | every step but an unsafe drop keeps: a sleeper is shut out, or a wake-up is on its way |
| OwnerGate.NoLostWakeup | scull_full/impl/scull_wuid.c:23-64 | in every run without an unsafe drop, a sleeper has a wake-up on its way, or the device belongs to somebody inside who is neither its uid nor its euid, and it may not override |
| OwnerGate.DropForgets | scull_full/impl/scull_wuid.c:39-44 | a failing inner open strands a waiter exactly when the drop is unsafe |
| OwnerGate.FailedOpenForgets | scull_full/impl/scull_wuid.c:39-44 | a run in which this happens |
| OwnerGate.NeverStuck | scull_full/impl/scull_wuid.c:14-64 | when no attempt can move, each has the device open, or sleeps because an owner other than its uid and euid has it open |
| OwnerGate.NonBlockingNeverSleeps | scull_full/impl/scull_uid.c:8-46 | scull_uid: with non-blocking openers only, nobody ever waits |
| OwnerSignals.SignalledOpenerLeaves | scull_full/impl/scull_wuid.c:28-30 | a signal ends the wait of an opener within four steps of its own: it returns while shut out, or goes for the lock with the device open to it |
| OwnerSignals.WhyAttemptsEnd | scull_full/impl/scull_wuid.c:14-64 | an attempt ends for a refusal it must not wait out, a signal while shut out, a failed inner open, or its release |
| GateDevices.ScullSingle.Open | scull_full/impl/scull_single.c:7-25 | an open succeeds exactly from available == 1 and a successful inner open; otherwise the counter is as before |
| GateDevices.UndisturbedClose | scull_full/impl/scull_single.c:27-33 | a release is a step of the protocol after which nobody has the device, and the next opener gets in exactly if nobody is backing off |
| GateDevices.UndisturbedSingle | scull_full/impl/scull_single.c:15-24 | an undisturbed call takes exactly the steps of its case (let in, refused, inner open fails) and ends where the method does |
| GateDevices.OwnedDevice.Enter | scull_full/impl/scull_wuid.c:22-37 | one pass under the lock admits exactly whom the gate is open to, and sets owner and count |
| GateDevices.OwnedDevice.Open | scull_full/impl/scull_uid.c:8-36 | a refused open changes nothing; a failing inner open gives back the count and keeps the owner |
| GateDevices.UndisturbedLeave | scull_full/impl/scull_wuid.c:54-61 | an undisturbed release takes the steps of the protocol and wakes the waiters exactly if nobody else is inside; then the queue is empty and the gate open to everybody |
| GateDevices.UndisturbedEnter | scull_full/impl/scull_wuid.c:22-37 | an undisturbed opener takes exactly the steps of its case (admitted, refused, about to wait) and ends where the method does |
| Transfers.GatherScattered | block_device/sbull_device.c:16-30 | segments that do not overlap hold, after a read, what was dealt out to them followed by what they held |
| Transfers.ScatterOutside | block_device/sbull_device.c:26-26 | a read changes no memory outside its segments |
| Transfers.GatherAt | block_device/sbull_device.c:16-29 | byte k of segment i stands behind all bytes of the segments before it |
| Transfers.FittingIsLongest | block_device/sbull_device.c:78-81 | the segments a bio transfers are the longest run of whole leading segments that fits |
| Sbull.WriteOne | block_device/sbull_device.c:20-29 | one more segment of a write extends the flat copy, cut at the end of the device |
| Sbull.ReadOne | block_device/sbull_device.c:20-29 | one more segment of a read extends the flat copy |
| Sbull.SbullDevice.ProcessRequest | block_device/sbull_device.c:7-33 | a request is one flat copy of the concatenated segments clipped at the device end; nr_bytes is the clipped total in 32 bits |
| Sbull.SbullDevice.ProcessBio | block_device/sbull_device.c:62-92 | a bio is the flat copy of the whole segments that fit, with IOERR exactly if one does not |
| Sbull.ReadIsFlatCopy | block_device/sbull_device.c:16-30 | a read puts the next bytes of the device, up to its end, into the segments in order |
| Sbull.RoundTrip | block_device/sbull_device.c:16-30 | a read of no more than was written returns what was written, through any segments |
| Sbull.ModesAgree | block_device/sbull_device.c:20-21 | a bio succeeds exactly when a request would not be clipped |
| Sbull.ModesEndAlike | block_device/sbull_device.c:62-92 | then both have transferred every segment, and device and memory end up the same |
| Sbull.BioIsPrefix | block_device/sbull_device.c:74-89 | a failing bio has written a prefix of what a request writes, and nothing behind it |
| Sbull.SbullDevice.GetGeometry | block_device/sbull_device.c:157-186 | the branches compute the nested rounding in the widths of the C fields |
| Sbull.GeometryFits | block_device/sbull_device.c:159-180 | the three fields for every capacity, and: capacity <= sectors * heads * cylinders < capacity + 63 * 255 exactly up to 63 * 255 * 65535 sectors, wrap-around of the round-up included |

## Left out

- GateDevices.OwnedDevice.Enter: one pass under the lock only; the waiting loop of `scull_wuid_open` is in the state machine `OwnerGate`, for other threads change the fields while it waits.
- Pipe.ScullPipe.Read: one pass under the mutex only; the waiting loop of the read is in `PipeProtocol`.
- Pipe.ScullPipe.Write: one pass under the mutex only; the waiting loop of `scull_getwritespace` is in `PipeProtocol`.
- ScullDev.ScullDevice.Write: demands that quantum and qset are positive and their product fits an int; under any other geometry no place is in bounds (`Positions.PlaceIsRight`), and a division by zero, an overflow or an index outside the array is not given a result.
- ScullcDev.ScullcDevice.Write: the same demand, which the module parameter of scullc does not guarantee.
- Open and seek of scullc, which are those of scull.
- ScullDev.ScullDevice.Ioctl: decoding of the command number, `access_ok` and the direction bits; the commands of the switch are modelled, and a faulting `__get_user` leaves zero in its target. Exchange may fail after having set the new value, as in the code.
- QuantumSets.QsetList.Follow: that `n--` wraps below the smallest int is the arithmetic the kernel is compiled with, not plain C's; it matters from 2^31 items on.
- AddressRewrite.RewriteInPlace: what `ip_fast_csum` makes of a header length below five words or past the frame is a parameter, for that function is not part of this model.
- SnullDevice.Snull.HwTx: the log lines that read TCP ports, the capacity of a packet buffer (`ETH_DATA_LEN`) and the transmit statistics in bytes; `lockup` is 0.
- SnullDevice.Snull.TxTimeout: the second count of a transmit interrupt that arrives after all, and the lifetime of the skb in flight.
- SnullDevice.Snull.Poll: each entry point is one step. At a finer grain the code reads `pkt->next` after unlocking (`snull_device.c:104`) and does not signal an enqueue that falls between the last test of the queue and the re-enabling of interrupts; both are outside the model, as are interfaces that are down.
- Sbull.SbullDevice.ProcessRequest: the start sector lies on the device, as the block layer guarantees; pages are ranges of one byte array, and accounting, completion and the queue are not modelled.
- Sbull.SbullDevice.GetGeometry: the layout of the structure in user memory.
- Counters that are 32-bit atomics or ints in C (`count`, `available`, `nreaders`, `nwriters`, statistics) are unbounded here, and user counts are such that position plus count does not leave 64 bits; so are sector numbers such that their byte position does not.
- Weak memory and compiler reordering of the unlocked tests and of the two stores of a reset; the pipe and the gates are sequentially consistent.
- Poll tables, `fasync` and SIGIO of the pipe; its `poll` is modelled as a read-only method under the mutex.
- Module setup, device registration, `/proc`, logging, header construction, MTU and address configuration of snull.
- scullp, scullv and scull_priv (the same storage behind another allocator or a list of devices), `scull_device/fops.c` and `scull_pipe_device/fops.c` (earlier copies), and the demonstration modules hello_world, complete, sleepy, jit and jiq.
