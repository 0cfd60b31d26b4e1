# Verified models of theos

theos is an operating system in Rust. This project models five of its stateful cores in Dafny and
proves what each of them is for. What a core takes from outside (LZ4, the disk, the rest of the kernel)
is a parameter, and the properties needed of it are written as preconditions.

* **LZX decoder** (`Bits`, `Huffman`, `HuffmanTable`, `LzxReader`, `LzxFormat`, `LzxBlocks`, `LzxDecoder`,
  `LzxEncoder`, `LzxWitness`, `E8Filter`). The table builder accepts exactly the complete codes, following the
  canonical construction of section 3.2.2 of RFC 1951, and the two-level table decodes exactly the codeword
  that is a prefix of the stream. The bit reader refines a flat bit string. A block is a function of the
  decoder's state: a reference parse of the bits followed by a reference LZ77 expansion. An encoder for trees,
  tokens, compressed and raw blocks, and chunks is undone by it, and every buffer of at most 32768 bytes has a
  chunk that decodes to it. The E8 filter is a bijection with an explicit inverse.
* **Scheduler** (`SchedulerState`, `SchedulerInvariant`, `SchedulerSteps`, `SchedulerFairness`,
  `SchedulerAccounting`, `Scheduler`). Pure step functions, the invariant of every reachable state, both
  bounded-waiting theorems with explicit constants, and a class whose methods compute the step functions.
* **Compressed memory** (`Generations`, `SlabPage`, `SlabAllocator`, `ZramDevice`, `FrameAllocator`,
  `PagerState`, `ReclaimPager`). Each layer refines a map or a set: slab handles to byte strings, page
  numbers to pages, frames to holders, and virtual pages to the bytes a program reads there.
* **crabfs** (`Endian`, `DiskRecord`, `DiskInode`, `DiskSuperblock`, `Crc32c`, `XfsChecksum`, `ChecksumGap`,
  `CrabfsDir`, `CrabfsLayout`, `CrabfsReader`, `CrabfsRoundTrip`, `CrabfsPack`). Packing a tree and reading the
  image is the identity exactly for the trees that an exact condition describes. The checksum (CRC32C, polynomial
  of section 12.1 of RFC 3720) detects every change of up to four consecutive bytes that lie before its field,
  after it or inside it; which other changes it misses is stated exactly.
* **NT objects and the block device** (`NtHandles`, `NtObjects`, `VirtioBlk`). Reference counts are exact over the
  handles of all processes, so an object exists while something holds it; sector I/O (requests as in section 5.2.6
  of the OASIS Virtio 1.1 specification) refines one flat byte array.

`Common` holds the shared types. `dafny verify dfyconfig.toml` checks the whole project.

## Findings

Properties that the code meets only under a condition; each is proved with its exact condition.

* Everything in a packed image reads back as it was packed exactly when no payload has 2^21 blocks or more and
  no directory is in between the two encodings, too long for the short form but with an extent form short
  enough to be stored in the inode (`CrabfsRoundTrip.PackReadIdentityIff`). `CrabfsPack.PackExample` packs a
  root of 21 files with four-byte names, whose listing is then wrong. Of every file with 2^21 blocks or more,
  the byte after the first 2^21 - 1 blocks reads as the end of the file (`CrabfsRoundTrip.LongFileGap`).
* After waking a task, an exit on its CPU leaves exactly the Ready tasks queued if and only if the task was no
  longer current there (`SchedulerSteps.WakeThenExitAgreesIff`); `SchedulerSteps.EarlyWakeReachable` reaches a
  state in which it still is.
* After adding a task, an exit on any CPU leaves exactly the Ready tasks queued, once each, if and only if the id
  was not that of a Ready, Running or current task (`SchedulerSteps.AddThenExitSettledIff`). Adding task 1 twice
  queues it twice (`SchedulerSteps.ReuseReachable`), and adding it again while it runs leaves it Exited and queued
  (`SchedulerSteps.RunningReuseReachable`). An id from the allocator is always free, until its counter saturates
  (`SchedulerSteps.AllocatedIdFree`).
* The data of a raw LZX block are taken from the next word boundary exactly when its header's full-size bit is
  clear or at most 20 bits were in the register before the header; otherwise they are taken one word late
  (`LzxBlocks.RawPlacedIff`). `LzxWitness.RawDataMisplaced` gives a chunk on which they are.
* A slab handle is accepted after a run of its zspage exactly when its slot has been touched a multiple of
  2 * (2^32 - 1) times, and never with an empty payload (`SlabPage.StaleWindow`). `SlabPage.StaleHandleAccepted`
  gives a run of that length, from any page, after which a freed handle reads another payload.
* Storing an empty page loses its slot when the page is replaced or invalidated, and only then
  (`ZramDevice.ZramDevice.StorePage`, `ZramDevice.ZramDevice.InvalidatePage`). `ZramDevice.EmptyPageLost` stores
  and invalidates one, which fails and leaves a slot in use.
* A changed structure still verifies exactly when the change of its checksum field is the checksum, from a zero
  register, of the change of the rest (`XfsChecksum.UndetectedIff`). `ChecksumGap.StraddlingChangeUndetected`
  gives an undetected change of four consecutive bytes, three in the field and one after it.

## Model

| member | source | states |
|---|---|---|
| Huffman.AcceptanceIsKraft | lib/wim_lzx/lib.rs:61-134 | the final code value computed from the length counts is full exactly when the code lengths satisfy Kraft's equality |
| Huffman.CodeFits | lib/wim_lzx/lib.rs:61-134 | every canonical code value fits in its length |
| Huffman.DecodesIsShare | lib/wim_lzx/lib.rs:61-134 | a codeword is a prefix of a 16-bit lookahead exactly when the lookahead lies in the codeword's interval |
| Huffman.SharesDisjoint | lib/wim_lzx/lib.rs:61-134 | the intervals of two symbols do not meet |
| Huffman.AtMostOneSymbol | lib/wim_lzx/lib.rs:61-134 | at most one codeword is a prefix of any bit string |
| Huffman.PrefixFree | lib/wim_lzx/lib.rs:61-134 | no codeword of an accepted code is a prefix of another |
| Huffman.SomeSymbol | lib/wim_lzx/lib.rs:61-134 | a complete code has a codeword for every lookahead |
| HuffmanTable.ShortIffBelowCore | lib/wim_lzx/lib.rs:98-107 | a lookahead is decoded by a codeword of at most nine bits exactly when its index is below the direct part |
| HuffmanTable.FinishedLookup | lib/wim_lzx/lib.rs:92-134 | direct and overflow entries together give the one symbol whose codeword is a prefix of the lookahead |
| HuffmanTable.CountLengths | lib/wim_lzx/lib.rs:62-70 | the number of codes of every length, and the greatest length |
| HuffmanTable.FirstCodes | lib/wim_lzx/lib.rs:80-90 | the first canonical code of every length |
| HuffmanTable.BuildTable | lib/wim_lzx/lib.rs:61-134 | succeeds exactly on code lengths that are all zero or complete; then every entry is filled, in range, and the lookup decodes the one matching codeword |
| LzxReader.BitReader.constructor | lib/wim_lzx/lib.rs:152-167 | an empty register before all the words of the input |
| LzxReader.BitReader.TryFeed | lib/wim_lzx/lib.rs:188-198 | moves one little-endian word into the register without changing the stream, or leaves everything at the end |
| LzxReader.BitReader.GetBits | lib/wim_lzx/lib.rs:200-213 | returns the first n <= 16 bits of the stream and removes exactly them; fails exactly when there are fewer |
| LzxReader.BitReader.GetCode | lib/wim_lzx/lib.rs:215-241 | returns the symbol whose codeword is a prefix of the stream and removes exactly that codeword; fails exactly when there is none |
| LzxFormat.TakeSymbolIs | lib/wim_lzx/lib.rs:215-241 | for a usable code the next symbol, and where the reader stands after it, are determined by where it stood |
| LzxFormat.ItemRoundTrip | lib/wim_lzx/lib.rs:252-290 | every tree item, a single delta or a run of zeros or of one length, is parsed back whatever follows it |
| LzxFormat.TreeRoundTrip | lib/wim_lzx/lib.rs:243-292 | any list of tree items, runs included, is parsed back into the lengths it stands for, over any previous lengths |
| LzxFormat.AnyTree | lib/wim_lzx/lib.rs:243-292 | any code lengths can be sent as changes to any others |
| LzxFormat.PlanRoundTrip | lib/wim_lzx/lib.rs:243-292 | a tree sent with its pretree is read back |
| LzxFormat.TreesRoundTrip | lib/wim_lzx/lib.rs:342-369 | the aligned, main and length trees of a block are read back as changes to the previous ones |
| LzxFormat.OffsetEncodable | lib/wim_lzx/lib.rs:27-35 | every offset from 1 to 32765 is the base of some slot 3 to 29 plus footer bits |
| LzxFormat.OffsetRange | lib/wim_lzx/lib.rs:27-35 | slots 3 to 29 encode no offset outside 1 to 32765 |
| LzxFormat.OffsetUnique | lib/wim_lzx/lib.rs:27-35 | slot and footer of an offset are unique |
| LzxFormat.CopyKeeps | lib/wim_lzx/lib.rs:429-437 | a match copy appends to the window and changes none of it |
| LzxFormat.CopyIsPeriodic | lib/wim_lzx/lib.rs:433-437 | a match longer than its offset repeats the last offset bytes |
| LzxFormat.ExpandGrows | lib/wim_lzx/lib.rs:371-441 | expanding tokens keeps everything already in the window |
| LzxFormat.TokenRoundTrip | lib/wim_lzx/lib.rs:381-427 | parsing an encoded token gives it back, in verbatim and aligned blocks, with every offset and length form |
| LzxFormat.TokensRoundTrip | lib/wim_lzx/lib.rs:371-441 | parsing an encoded token list gives the list back |
| LzxDecoder.ReadTree | lib/wim_lzx/lib.rs:243-292 | the tree loop computes the reference parse of the bit stream and fails exactly when that parse does |
| LzxDecoder.ReadOffset | lib/wim_lzx/lib.rs:398-427 | the offset of a match, recent or explicit, as the reference parse gives it |
| LzxDecoder.ReadToken | lib/wim_lzx/lib.rs:381-427 | one literal or match as the reference parse gives it |
| LzxDecoder.CopyWithin | lib/wim_lzx/lib.rs:433-437 | the byte loop equals the reference copy, overlapping or not |
| LzxBlocks.OneOutcome | lib/wim_lzx/lib.rs:507-521 | a chunk and a size have one outcome, success or failure, after one number of blocks |
| LzxBlocks.HeldSymbol | lib/wim_lzx/lib.rs:215-241 | how full the register is after a symbol |
| LzxBlocks.HeldBlock | lib/wim_lzx/lib.rs:443-474 | a block leaves the reader on its input, with at most 31 bits in the register |
| LzxBlocks.RunsAreHeld | lib/wim_lzx/lib.rs:443-474 | so does every run of blocks |
| LzxBlocks.HeaderAhead | lib/wim_lzx/lib.rs:294-313 | a header leaves more than 16 bits in the register exactly when its full-size bit is set and it found more than 20 |
| LzxBlocks.RawStartsAtBoundary | lib/wim_lzx/lib.rs:315-317 | dropping the register reaches the next word boundary exactly when it holds at most 16 bits, and is a word late otherwise |
| LzxBlocks.RawPlacedIff | lib/wim_lzx/lib.rs:315-317 | in every reachable state before a raw block, the data are taken from the word boundary iff the full-size bit is clear or at most 20 bits are buffered; otherwise a word late, and then before any output |
| LzxEncoder.HeaderRoundTrip | lib/wim_lzx/lib.rs:294-313 | type and size of a block are read back |
| LzxEncoder.PackedRoundTrip | lib/wim_lzx/lib.rs:443-474 | an encoded compressed block is decoded into its trees and the expansion of its tokens, and the decoder stops after it |
| LzxEncoder.WordsDetermine | lib/wim_lzx/lib.rs:188-198 | whole words of the stream determine the bytes they were read from |
| LzxEncoder.RawRoundTrip | lib/wim_lzx/lib.rs:294-335 | an encoded raw block, padded to the next word wherever it starts, is decoded into its offsets and its bytes, odd or even in number, and the decoder stops after it |
| LzxEncoder.BlockRoundTrip | lib/wim_lzx/lib.rs:443-474 | any block, sent at any position of the stream, is decoded into what it means |
| LzxEncoder.BlocksRoundTrip | lib/wim_lzx/lib.rs:443-474 | so is any list of blocks, from any point of a chunk |
| LzxEncoder.ChunkRoundTrip | lib/wim_lzx/lib.rs:507-521 | a chunk of compressed and raw blocks, in any order, that stand for the filtered data decodes to the data, whatever follows the blocks |
| LzxEncoder.PackedWords | lib/wim_lzx/lib.rs:188-198 | packing bits into little-endian words is undone by the reader |
| LzxWitness.EveryBufferHasAChunk | lib/wim_lzx/lib.rs:507-521 | every buffer of at most 32768 bytes is what some chunk decodes to |
| LzxWitness.RawDataMisplaced | lib/wim_lzx/lib.rs:315-317 | a chunk whose raw block is padded to byte 220 and read from byte 222 |
| LzxDecoder.Decoder.constructor | lib/wim_lzx/lib.rs:152-167 | recent offsets 1, 1, 1 and zero code lengths |
| LzxDecoder.Decoder.ReadCompressedBlock | lib/wim_lzx/lib.rs:371-441 | the window is the reference expansion of the decoded tokens, the recent offsets follow, nothing before the window is read and nothing after the end is written |
| LzxDecoder.Decoder.ReadTrees | lib/wim_lzx/lib.rs:342-369 | main, length and aligned trees as the reference parse gives them |
| LzxDecoder.Decoder.ReadRawBlock | lib/wim_lzx/lib.rs:294-340 | the three offsets and the bytes of an uncompressed block; fails exactly when the input is too short for them |
| LzxDecoder.Decoder.ReadBlock | lib/wim_lzx/lib.rs:443-474 | the state after a block, reader position included, is the one the reference step gives, and the call fails exactly when that step does |
| LzxDecoder.Decompress | lib/wim_lzx/lib.rs:507-521 | the output is that of the first blocks that reach the size, with the E8 filter applied, and the call fails exactly when one of them cannot be decoded; it terminates on every input, since every block consumes bits |
| E8Filter.TranslateBijective | lib/wim_lzx/lib.rs:477-505 | each operand map permutes the translated range and fixes every other value |
| E8Filter.FilterInverse | lib/wim_lzx/lib.rs:477-505 | the inverse scan visits the same opcodes and undoes the filter |
| E8Filter.DecodedBijective | lib/wim_lzx/lib.rs:477-505 | the filter and the encoder undo each other on buffers of every length up to the last 31-bit position |
| E8Filter.DecodeE8 | lib/wim_lzx/lib.rs:477-505 | the in-place scan computes the filter |
| SchedulerInvariant.ReadyIffQueued | kernel/process.rs:550-566 | a task is Ready exactly when it is queued, then once, in the queue of its class on its last CPU; so Running, Blocked and Exited tasks are in no queue |
| SchedulerInvariant.CurrentUnique | kernel/process.rs:568-643 | no task is current on two CPUs |
| SchedulerInvariant.RunningIsCurrent | kernel/process.rs:568-643 | a Running task is the current task of its last CPU |
| SchedulerInvariant.EnqueueInv | kernel/process.rs:550-566 | queueing a task that has no place restores the invariant |
| SchedulerInvariant.OccupyInv | kernel/process.rs:578-607 | making an unqueued task current restores the invariant |
| SchedulerSteps.PickedClassIs | kernel/process.rs:570-612 | the class picked is the first from the cursor with deficit left and a task queued |
| SchedulerSteps.ClassRefillExact | kernel/process.rs:645-654 | a class refill starts from zero and lands on exactly one quantum, so the double-quantum cap never binds |
| SchedulerSteps.TaskRefillExact | kernel/process.rs:702-717 | a task refill starts from zero and lands on exactly one quantum |
| SchedulerState.Best | kernel/process.rs:665-681 | the Ready task with deficit left that has the smallest effective vruntime, earliest in the queue on ties; none exactly when no task is eligible |
| SchedulerSteps.PickIndexFinds | kernel/process.rs:662-700 | a class with a queued task always yields one, after a refill if need be |
| SchedulerSteps.WorkConserving | kernel/process.rs:568-643 | a pick finds a task exactly when the CPU has one queued |
| SchedulerSteps.PickNextInv | kernel/process.rs:568-643 | a pick keeps the invariant |
| SchedulerSteps.AddTaskInv | kernel/process.rs:318-330 | adding a task with a fresh id keeps the invariant |
| SchedulerSteps.AccountInv | kernel/process.rs:487-519 | accounting a tick to the running task keeps the invariant |
| SchedulerSteps.RetireInv | kernel/process.rs:425-434 | exit keeps the invariant |
| SchedulerSteps.YieldInv | kernel/process.rs:376-386 | a yield request keeps the invariant |
| SchedulerSteps.BlockInv | kernel/process.rs:388-400 | blocking keeps the invariant |
| SchedulerSteps.AddInvIff | kernel/process.rs:318-330 | adding a task keeps the invariant exactly when its id is not that of a Ready, Running or current task |
| SchedulerSteps.ReuseQueued | kernel/process.rs:318-330 | a Ready id added again leaves a task queued twice or where its state does not put it, also after an exit |
| SchedulerSteps.ReuseCurrent | kernel/process.rs:318-434 | a current id added again is queued and Exited once its CPU has exited it |
| SchedulerSteps.AddThenExitSettledIff | kernel/process.rs:318-434 | after adding a task and an exit on any CPU, exactly the Ready tasks are queued, once each, iff the id was free |
| SchedulerSteps.ReuseReachable | kernel/process.rs:318-330 | a run after which adding the first task again queues it twice |
| SchedulerSteps.RunningReuseReachable | kernel/process.rs:318-434 | a run after which adding the running task again, and then exiting it, leaves it Exited and queued |
| SchedulerSteps.RunIdsBelow | kernel/process.rs:318-336 | in every run all task ids are below the next id to be allocated, until it saturates |
| SchedulerSteps.AllocatedIdFree | kernel/process.rs:332-336 | in every run an allocated id is that of no task until it is added |
| SchedulerSteps.AllocatedOnce | kernel/process.rs:332-336 | in every run no id is allocated twice, until the counter saturates |
| SchedulerSteps.WakeInvIff | kernel/process.rs:402-423 | waking keeps the invariant exactly when the task is no longer current |
| SchedulerSteps.EarlyWakeThenExit | kernel/process.rs:402-434 | a task woken while still current and then exited is Exited and queued |
| SchedulerSteps.WakeThenExitAgreesIff | kernel/process.rs:402-434 | after a wake and an exit on the task's CPU, exactly the Ready tasks are queued iff the task was no longer current |
| SchedulerSteps.EarlyWakeReachable | kernel/process.rs:353-434 | a run from boot (add, start, block) after which waking and exiting leaves an Exited task queued |
| SchedulerSteps.ConfigureInv | kernel/process.rs:338-351 | configuring the topology at boot establishes the invariant |
| SchedulerSteps.StepInv | kernel/process.rs:318-434 | every step keeps the invariant |
| SchedulerSteps.StepTotal | kernel/process.rs:318-434 | every enabled operation has a step |
| SchedulerSteps.RunInv | kernel/process.rs:318-434 | the invariant holds in every reachable state for fewer than 2^54 ticks |
| SchedulerFairness.WaitDecreases | kernel/process.rs:568-612 | each pick of another class lowers the waiting measure of a class with a queued task |
| SchedulerFairness.ClassBoundedWaiting | kernel/process.rs:568-612 | at most 16 minus the quantum of a class picks go to others while it has a Ready task |
| SchedulerFairness.PickShares | kernel/process.rs:662-717 | each pick in a class uses up one unit of the shares of the other tasks |
| SchedulerFairness.TaskBoundedWaiting | kernel/process.rs:662-717 | a queued task is passed over at most as often as the other tasks of its class have deficit and quantum |
| SchedulerAccounting.DeltaRange | kernel/process.rs:720-735 | a tick costs between 6 and 1024 units of virtual time |
| SchedulerAccounting.BetterIsCheaper | kernel/process.rs:720-735 | a better class or a lower nice value never costs more virtual time and never has a shorter quantum |
| SchedulerAccounting.ChargedAdvances | kernel/process.rs:487-519 | each tick advances the running task's virtual time by 6 to 1024 |
| SchedulerAccounting.ChargedEvolves | kernel/process.rs:487-538 | charging keeps the counters in range and the class earned, and moves nothing back |
| SchedulerAccounting.WokenEvolves | kernel/process.rs:402-423 | waking keeps the sleep credit within 256 and the class as it was |
| SchedulerAccounting.StepEvolves | kernel/process.rs:318-434 | so does every step, for every task |
| SchedulerAccounting.RunOk | kernel/process.rs:318-434 | in every reachable state the counters are in range and every class is one the task has earned |
| SchedulerAccounting.ClassSettles | kernel/process.rs:521-548 | over every run a class changes at most once, from Normal to Hog without a hint, and virtual time never goes back |
| SchedulerAccounting.CreditBounded | kernel/process.rs:402-423 | sleeping moves a task ahead by at most 256 units of virtual time |
| SchedulerClass.Scheduler.constructor | kernel/process.rs:303-316 | one idle CPU and no tasks |
| SchedulerClass.Scheduler.SelectCpu | kernel/process.rs:445-464 | the last CPU if idle, else the preferred one if idle, else the first least loaded one |
| SchedulerClass.Scheduler.AllocateTaskId | kernel/process.rs:332-336 | the larger of 1 and the counter, which moves past it |
| SchedulerClass.Scheduler.EnqueueTask | kernel/process.rs:550-566 | the queueing step |
| SchedulerClass.Scheduler.AddTask | kernel/process.rs:318-330 | the adding step for any id; the invariant is kept exactly when the id is free |
| SchedulerClass.Scheduler.RefillTaskDeficits | kernel/process.rs:702-717 | the loop computes the refill of every queued task |
| SchedulerClass.Scheduler.FindBest | kernel/process.rs:665-681 | the loop finds the first best eligible task |
| SchedulerClass.Scheduler.PickTaskFromClass | kernel/process.rs:662-700 | search, refill and search again, and removal from the queue |
| SchedulerClass.Scheduler.RefillClassDeficits | kernel/process.rs:645-654 | the loop computes the refill of every class |
| SchedulerClass.Scheduler.PickNextTask | kernel/process.rs:568-643 | both rounds over the classes compute the pick |
| SchedulerClass.Scheduler.AccountRunningTask | kernel/process.rs:487-519 | the accounting step |
| SchedulerClass.Scheduler.OnTimerTick | kernel/process.rs:358-374 | accounting and then a pick, keeping the invariant |
| SchedulerClass.Scheduler.RequestYield | kernel/process.rs:376-386 | the yield step |
| SchedulerClass.Scheduler.BlockCurrent | kernel/process.rs:388-400 | the blocking step |
| SchedulerClass.Scheduler.WakeTask | kernel/process.rs:402-423 | the waking step, early or not; the invariant is kept exactly when it is not early |
| SchedulerClass.Scheduler.ExitCurrent | kernel/process.rs:425-434 | the exit step |
| SchedulerClass.Scheduler.ConfigureTopology | kernel/process.rs:338-351 | the topology step |
| Generations.Next | kernel/zram.rs:404-410 | generations are never zero |
| Generations.NextStep | kernel/zram.rs:91-134 | generation and occupancy of a slot after one more step, going round 2^32 - 1 generations |
| Generations.AcceptedAt | kernel/zram.rs:91-134 | after n steps the first handle is accepted exactly when n is a multiple of 2 * (2^32 - 1) |
| SlabPage.NewPageValid | kernel/zram.rs:77-89 | a fresh zspage has all slots free, in bounds, and nothing readable |
| SlabPage.SlotsDisjoint | kernel/zram.rs:91-105 | the byte ranges of two slots do not meet |
| SlabPage.AllocatedValid | kernel/zram.rs:91-105 | allocation keeps the free list distinct and in range and the used count right |
| SlabPage.AllocatedReads | kernel/zram.rs:91-118 | allocation adds one readable handle and changes no other slot's bytes |
| SlabPage.FreedValid | kernel/zram.rs:120-134 | freeing keeps the page well formed |
| SlabPage.FreedReads | kernel/zram.rs:120-134 | freeing removes exactly one handle |
| SlabPage.AllocatedStep | kernel/zram.rs:91-105 | storing a non-empty payload is one generation step of its slot and of no other |
| SlabPage.FreedStep | kernel/zram.rs:120-134 | freeing is one generation step of its slot and of no other |
| SlabPage.SlotAfter | kernel/zram.rs:91-134 | generation and occupancy of a slot after any run of allocations and frees on its zspage |
| SlabPage.StaleWindow | kernel/zram.rs:91-134 | over any run, a handle issued before it is accepted after it iff its slot was touched a multiple of 2 * (2^32 - 1) times and never with an empty payload |
| SlabPage.Recycled | kernel/zram.rs:91-134 | a live slot can be freed and stored again any number of times, each time with the next generation |
| SlabPage.StaleHandleAccepted | kernel/zram.rs:91-134 | for every live handle, a run that frees it first and after which it reads another payload |
| SlabAllocator.SizeClassFits | kernel/zram.rs:390-392 | the smallest class that fits; there is one exactly up to a page |
| SlabAllocator.AllocateIn | kernel/zram.rs:178-203 | storing in a zspage adds one handle, one used slot and the payload's bytes |
| SlabAllocator.FreeIn | kernel/zram.rs:214-221 | freeing takes away one handle, one used slot and the payload's bytes |
| SlabAllocator.ZsAllocator.constructor | kernel/zram.rs:168-176 | an allocator with nothing in it |
| SlabAllocator.ZsAllocator.Store | kernel/zram.rs:178-203 | fails exactly above a page; otherwise a handle that held nothing now reads the bytes and every other handle is as before |
| SlabAllocator.ZsAllocator.Load | kernel/zram.rs:205-212 | the bytes of the handle, or an error exactly when it holds nothing |
| SlabAllocator.ZsAllocator.Free | kernel/zram.rs:214-221 | fails exactly on handles that hold nothing; otherwise only that handle changes |
| SlabAllocator.StoredFits | kernel/zram.rs:223-234 | stored bytes never exceed capacity |
| SlabAllocator.ZsAllocator.Stats | kernel/zram.rs:223-234 | zspages, used slots, capacity and stored bytes over all zspages, with the bytes within the capacity |
| ZramDevice.PayloadDecodes | kernel/zram.rs:275-281 | the form stored is the shorter one, is empty only for the empty page, and decodes to the page |
| ZramDevice.AddOk | kernel/zram.rs:283-292 | adding an entry keeps pages, slots and byte totals in step |
| ZramDevice.ReplaceOk | kernel/zram.rs:283-295 | replacing an entry keeps them in step, with no slot shared or leaked |
| ZramDevice.DropOk | kernel/zram.rs:314-320 | dropping an entry keeps them in step |
| ZramDevice.ZramDevice.constructor | kernel/zram.rs:256-265 | an empty map |
| ZramDevice.ZramDevice.StorePage | kernel/zram.rs:267-299 | fails exactly on a bad index or an oversized page; otherwise that page, and no other, is replaced |
| ZramDevice.ZramDevice.LoadPage | kernel/zram.rs:301-312 | the page last stored; fails exactly when there is none or it is empty |
| ZramDevice.ZramDevice.InvalidatePage | kernel/zram.rs:314-320 | the page is gone; fails exactly when it was empty |
| ZramDevice.TallyIs | kernel/zram.rs:322-341 | what the loop over the entries adds up, in terms of the pages stored |
| ZramDevice.ZramDevice.Stats | kernel/zram.rs:322-341 | raw and compressed pages add up to the pages held, stored bytes agree with the allocator's and are at most the logical bytes, and used slots are the pages and the lost slots |
| ZramDevice.EmptyPageLost | kernel/zram.rs:267-320 | storing an empty page and invalidating it fails, leaves the pages as they were and one more slot in use |
| FrameAllocator.IssueAtCursor | kernel/allocator.rs:68-92 | the frame at the cursor is usable and unheld, and only it moves |
| FrameAllocator.NextRegion | kernel/allocator.rs:68-92 | leaving a region skips no usable frame |
| FrameAllocator.FrameZeroNeverIssued | kernel/allocator.rs:68-92 | frame 0 is held by nobody and never recycled |
| FrameAllocator.BootInfoFrameAllocator.constructor | kernel/allocator.rs:57-64 | every usable frame is ahead of the cursor |
| FrameAllocator.BootInfoFrameAllocator.AllocateFrame | kernel/allocator.rs:68-92 | a usable frame without a holder, the last one returned first; None exactly when all usable frames are held |
| FrameAllocator.BootInfoFrameAllocator.DeallocateFrame | kernel/allocator.rs:328-337 | the frame loses its holder and is recycled once |
| PagerState.RemoveFirstKeeps | kernel/reclaim.rs:191-199 | removal from the queue takes out exactly that page |
| PagerState.EvictOk | kernel/reclaim.rs:107-135 | evicting a page keeps the invariant and the bytes of every page |
| PagerState.RestoreOk | kernel/reclaim.rs:156-189 | restoring a page into a fresh frame keeps the invariant and the bytes of every page |
| PagerState.ExtendOk | kernel/reclaim.rs:79-105 | growing the region adds one page and changes no other |
| ReclaimPager.RotateToResident | kernel/reclaim.rs:137-154 | the rotation stops at the first resident page, or comes full circle |
| ReclaimPager.ReclaimPager.constructor | kernel/reclaim.rs:67-77 | nothing tracked |
| ReclaimPager.ReclaimPager.AllocateRegion | kernel/reclaim.rs:79-105 | fails exactly past 256 pages; otherwise new zero pages, and the old ones read as before |
| ReclaimPager.ReclaimPager.ReclaimPage | kernel/reclaim.rs:107-135 | succeeds exactly on a resident page, which is then compressed; every page reads as before |
| ReclaimPager.ReclaimPager.ReclaimOne | kernel/reclaim.rs:137-154 | evicts the front of the queue; false exactly when nothing is resident |
| ReclaimPager.ReclaimPager.HandlePageFault | kernel/reclaim.rs:156-189 | restores a compressed page into a fresh frame at the back of the queue; every page reads as before |
| ReclaimPager.ReclaimPager.StoreByte | kernel/reclaim.rs:156-189 | a program's store, through a fault if needed, changes that byte and no other |
| ReclaimPager.ReclaimPager.LoadByte | kernel/reclaim.rs:156-189 | a program's load, through a fault if needed, returns the byte last stored |
| ReclaimPager.ReclaimPager.AllocateFrameReclaiming | kernel/allocator.rs:223-237 | terminates; evicts at most one page; fails exactly when no frame is free and nothing is resident |
| Crc32c.PolynomialIsCastagnoli | lib/crabfs/crc.rs:13-14 | the register constant is the polynomial 0x1EDC6F41 with its bits reversed |
| Crc32c.StepLinear | lib/crabfs/crc.rs:7-18 | a bit step is linear |
| Crc32c.StepInjective | lib/crabfs/crc.rs:7-18 | a bit step loses nothing |
| Crc32c.Window | lib/crabfs/crc.rs:7-18 | up to four bytes act as one xor into the register followed by steps |
| Crc32c.CrcInjective | lib/crabfs/crc.rs:7-18 | equal bytes take different registers to different registers |
| Crc32c.BurstChangesCrc | lib/crabfs/crc.rs:7-18 | a change inside four consecutive bytes changes the checksum |
| XfsChecksum.LeRoundTrip | lib/crabfs/endian.rs:61-70 | little-endian bytes of a word read back |
| XfsChecksum.SealedVerifies | lib/crabfs/crc.rs:21-44 | writing the checksum changes only its field, and makes it verify exactly when the field fits |
| XfsChecksum.BurstDetected | lib/crabfs/crc.rs:21-44 | after any change inside four consecutive bytes on one side of the field, or in it, verification fails |
| XfsChecksum.CrcLinear | lib/crabfs/crc.rs:7-18 | the checksum of a xor of two byte strings is the xor of their checksums |
| XfsChecksum.UndetectedIff | lib/crabfs/crc.rs:21-44 | a changed structure still verifies iff the change of its field is the checksum, from a zero register, of the change of the rest |
| ChecksumGap.StraddlingChangeUndetected | lib/crabfs/crc.rs:21-31 | in every structure that ends one byte after its field, a change of the last four bytes goes unnoticed |
| XfsChecksum.ComputeCrc | lib/crabfs/crc.rs:7-18 | the nested loops compute the checksum |
| XfsChecksum.VerifyXfsCrc | lib/crabfs/crc.rs:21-31 | true exactly when the field holds the checksum |
| XfsChecksum.WriteXfsCrc | lib/crabfs/crc.rs:33-44 | the field is filled in place; a short buffer is left alone |
| Endian.FromBeOfBe | lib/crabfs/endian.rs:21-59 | a number that fits reads back from its big-endian bytes |
| Endian.BeOfFromBe | lib/crabfs/endian.rs:21-59 | bytes are the big-endian form of the number they read as |
| DiskRecord.SerializeReads | lib/crabfs/on_disk/inode.rs:146-193 | in a record of disjoint fields every field reads back |
| DiskRecord.SerializeKeeps | lib/crabfs/on_disk/inode.rs:146-193 | bytes outside the fields are unchanged |
| DiskInode.InodeRoundTrip | lib/crabfs/on_disk/inode.rs:90-193 | parsing a serialized inode gives it back, and the magic number is the only refusal |
| DiskInode.ParseSame | lib/crabfs/on_disk/inode.rs:90-140 | parsing depends neither on the checksum nor on the fork |
| DiskInode.ExtentRoundTrip | lib/crabfs/pack.rs:389-400 | an extent record reads back exactly when its block count is below 2^21 |
| DiskSuperblock.SbRoundTrip | lib/crabfs/on_disk/superblock.rs:97-305 | parsing a serialized superblock gives back every field |
| DiskSuperblock.CeilILog2Is | lib/crabfs/writer.rs:36-43 | the exponent of the smallest power of two not below the argument |
| DiskSuperblock.MkfsSuperblockOk | lib/crabfs/writer.rs:50-119 | the superblock of mkfs is one the parser gives back |
| CrabfsDir.SfEntryReads | lib/crabfs/on_disk/dir.rs:51-85 | a short-form entry parses to what was packed |
| CrabfsDir.ExtEntryReads | lib/crabfs/reader.rs:491-501 | an extent-form entry parses to what was packed |
| CrabfsDir.ShortformReads | lib/crabfs/on_disk/dir.rs:16-85 | a short-form directory lists and looks up as packed, whatever follows it |
| CrabfsDir.ExtentFormReads | lib/crabfs/reader.rs:470-537 | an extent-form directory lists and looks up as packed |
| CrabfsDir.InBetweenMisreads | lib/crabfs/pack.rs:137-141 | an extent form stored in an inode never lists as packed |
| CrabfsDir.CutMisreads | lib/crabfs/reader.rs:470-537 | a directory read through fewer bytes than its extent form never lists as packed |
| CrabfsLayout.BlocksOrder | lib/crabfs/pack.rs:105-121 | payloads occupy disjoint blocks in order |
| CrabfsLayout.TableBelowData | lib/crabfs/pack.rs:101-103 | the inode table ends before the first data block |
| CrabfsLayout.MetadataKept | lib/crabfs/writer.rs:123-238 | a write at or above the inode table leaves superblock and headers alone |
| CrabfsLayout.DataMore | lib/crabfs/pack.rs:127-132 | writing a payload keeps the earlier ones |
| CrabfsLayout.InodeMore | lib/crabfs/pack.rs:134-153 | writing an inode record keeps all payloads and the earlier records |
| CrabfsReader.ScanShortform | lib/crabfs/reader.rs:322-332 | the listing loop over a local fork computes the scan, errors included |
| CrabfsReader.SearchShortform | lib/crabfs/reader.rs:253-263 | the search loop finds the first entry of the name |
| CrabfsReader.ScanExtentForm | lib/crabfs/reader.rs:470-503 | the listing loop over an extent directory computes the scan |
| CrabfsReader.SearchExtentForm | lib/crabfs/reader.rs:505-537 | the search loop over an extent directory finds the first entry of the name |
| CrabfsReader.BytesEq | lib/crabfs/reader.rs:22-34 | the loop decides equality |
| CrabfsReader.CollectExtents | lib/crabfs/reader.rs:427-433 | the extent records of a fork, or an error where it is too short |
| CrabfsReader.GatherExtents | lib/crabfs/reader.rs:435-467 | the loop over extents computes what they gather |
| CrabfsReader.ReadExtentRange | lib/crabfs/reader.rs:419-468 | a range read through the extents |
| CrabfsReader.ListDirEntries | lib/crabfs/reader.rs:287-360 | the listing of a directory inode, in both encodings |
| CrabfsReader.FindDirEntry | lib/crabfs/reader.rs:226-282 | the lookup in a directory inode, in both encodings |
| CrabfsRoundTrip.ReadsSuperblock | lib/crabfs/reader.rs:62-79 | the superblock of a packed image reads back and verifies |
| CrabfsRoundTrip.FindsInode | lib/crabfs/reader.rs:180-187 | the reader looks for an inode where the packer put it |
| CrabfsRoundTrip.RecordReads | lib/crabfs/pack.rs:314-387 | an inode record verifies, parses to its inode and ends in its fork |
| CrabfsRoundTrip.ReadsInode | lib/crabfs/reader.rs:192-215 | every inode of a packed image reads back and verifies |
| CrabfsRoundTrip.ReadsFile | lib/crabfs/reader.rs:373-407 | any (offset, size) read of a packed file returns that slice of its bytes |
| CrabfsRoundTrip.ReadsCut | lib/crabfs/pack.rs:389-400 | a payload of 2^21 blocks or more is cut short when read from its start |
| CrabfsRoundTrip.ReadsFileIff | lib/crabfs/reader.rs:373-407 | every read with a 64-bit offset and a 32-bit size of a packed file returns its slice iff the file has fewer than 2^21 blocks |
| CrabfsRoundTrip.LongFileGap | lib/crabfs/reader.rs:373-407 | of a longer file, one byte read after the first 2^21 - 1 blocks is the end of the file |
| CrabfsRoundTrip.MisreadsInBetween | lib/crabfs/pack.rs:137-141 | a directory in between the two encodings lists wrongly |
| CrabfsRoundTrip.LongDirMisreads | lib/crabfs/pack.rs:389-400 | a directory of 2^21 blocks or more lists wrongly |
| CrabfsRoundTrip.ReadsDirectoryIff | lib/crabfs/pack.rs:137-141 | a packed directory lists as packed iff its short form fits or its extent form does not, and it has fewer than 2^21 blocks; and then lookups succeed |
| CrabfsRoundTrip.ExampleInBetween | lib/crabfs/pack.rs:137-141 | 21 files with different four-byte names make a directory in between |
| CrabfsRoundTrip.ExampleMisreads | lib/crabfs/pack.rs:137-141 | any image this tree is packed into lists its root wrongly |
| CrabfsRoundTrip.PackReadIdentity | lib/crabfs/pack.rs:67-156 | files, links, listings and lookups of a packed image are those of a faithful tree |
| CrabfsRoundTrip.PackReadIdentityIff | lib/crabfs/pack.rs:67-156 | the superblock reads back always, and everything else iff every payload is faithful |
| CrabfsPack.Device.WriteAt | lib/crabfs/device.rs:12-18 | exactly the range changes, or nothing when it does not fit |
| CrabfsPack.BuildShortform | lib/crabfs/pack.rs:252-269 | the short form; fails exactly on a name over 255 bytes |
| CrabfsPack.BuildExtentForm | lib/crabfs/pack.rs:273-285 | the extent form, or the conversion error |
| CrabfsPack.BuildPayload | lib/crabfs/pack.rs:247-291 | the payload of a node |
| CrabfsPack.LayOut | lib/crabfs/pack.rs:101-121 | payloads and their first blocks; fails exactly when a payload cannot be encoded |
| CrabfsPack.WriteDataBlocks | lib/crabfs/pack.rs:293-312 | the payload padded with zeros, and nothing else, is written |
| CrabfsPack.WriteInodeRecord | lib/crabfs/pack.rs:314-387 | the sealed record, and nothing else, is written |
| CrabfsPack.Mkfs | lib/crabfs/writer.rs:49-288 | superblock, headers and tree roots are all in place, none over another |
| CrabfsPack.Pack | lib/crabfs/pack.rs:67-156 | succeeds exactly when every payload encodes and everything fits, and then the device holds the packed tree |
| CrabfsPack.ExamplePacks | lib/crabfs/pack.rs:101-121 | the example tree encodes, and fits exactly when there are twelve blocks |
| CrabfsPack.PackExample | lib/crabfs/pack.rs:67-156 | packing the example tree succeeds and its root then lists wrongly |
| VirtioBlk.SectorUpdate | kernel/virtio_blk.rs:533-547 | overwriting part of a sector overwrites that part of the flat array only |
| VirtioBlk.VirtioBlkDevice.ReadSector | kernel/virtio_blk.rs:470-479 | the sector, or an error; out of range exactly at the capacity |
| VirtioBlk.VirtioBlkDevice.WriteSector | kernel/virtio_blk.rs:481-490 | the sector replaced; after an error it may or may not be |
| VirtioBlk.VirtioBlkDevice.ReadAt | kernel/virtio_blk.rs:494-520 | exactly the requested range, out of range exactly past the capacity, and a prefix after a failure; no sector beyond the capacity is asked for |
| VirtioBlk.VirtioBlkDevice.WriteAt | kernel/virtio_blk.rs:522-553 | exactly the requested range changes; after a failure a prefix of it has |
| NtHandles.HandlesAreSlots | kernel/user.rs:696-705 | slots and handles correspond one to one |
| NtObjects.HolderExists | kernel/user.rs:725-747 | a handle of a running process names an existing object |
| NtObjects.ParkedHolderExists | kernel/user.rs:606-642 | so does a handle of a process that is not running |
| NtObjects.DropRefs | kernel/nt.rs:917-937 | releasing a reference held elsewhere keeps every count exact, and removes the object with its last reference |
| NtObjects.GoneFiles | kernel/nt.rs:926-937 | the descriptor of a file object is closed once, when its last reference goes |
| NtObjects.GoneNames | kernel/nt.rs:926-931 | names and objects stay consistent when an object goes |
| NtObjects.SwitchCounts | kernel/user.rs:606-642 | a switch makes no handle, and loses exactly those of a table it overwrites |
| NtObjects.NtState.constructor | kernel/nt.rs:450-462 | no objects and empty tables |
| NtObjects.NtState.InsertUnnamed | kernel/nt.rs:526-539 | a fresh object with one reference |
| NtObjects.NtState.CreateNamed | kernel/nt.rs:501-524 | fails exactly when the name is taken; otherwise a fresh named object |
| NtObjects.NtState.OpenNamed | kernel/nt.rs:761-793 | fails exactly on a missing name or another type; otherwise one more reference |
| NtObjects.NtState.OpenSection | kernel/nt.rs:721-759 | an existing section gets one more reference; a known DLL is created with two; every other name fails and changes nothing |
| NtObjects.NtState.Retain | kernel/nt.rs:908-915 | one more reference, or an error exactly when there is no such object |
| NtObjects.NtState.Release | kernel/nt.rs:917-937 | one reference less; the object goes with the last, and a file's descriptor is closed exactly then |
| NtObjects.NtState.InstallHandle | kernel/user.rs:707-723 | the first empty place or the end of the table, with one more reference; fails exactly on a missing object |
| NtObjects.NtState.ResolveHandleEntry | kernel/user.rs:725-747 | the entry of an occupied place, whose object exists; the two pseudo-handles name process and thread |
| NtObjects.NtState.CloseHandle | kernel/user.rs:749-768 | empties the place and releases its object once; fails exactly on pseudo-handles and empty places |
| NtObjects.NtState.ReleaseOwn | kernel/nt.rs:917-937 | releasing a reference that is not a handle's |
| NtObjects.NtState.ExitCurrent | kernel/user.rs:2541-2558 | the table is emptied and each object loses one reference per handle |
| NtObjects.NtState.SwitchActiveProcess | kernel/user.rs:606-642 | the running process is parked, the next one takes its slot, and counts stay exact, with the handles of an overwritten table as lost |
| NtObjects.AliveIffHeld | kernel/nt.rs:908-937 | while no table has been overwritten, an object exists exactly while a handle or its creator holds it, and its count is their number |

## Left out

- LzxEncoder.ChunkRoundTrip: a raw block is sent with its size written out, since one with the full-size bit may be read from the wrong place (LzxBlocks.RawPlacedIff).
- LzxDecoder.Decoder.ReadBlock: a block that does not fit in the 32768-byte window is the error `WindowOverrun`; neither the header nor the caller of the source checks this, and it would stop on the array index.
- SchedulerSteps.RunInv: holds for fewer than 2^54 ticks, before vruntime can reach its saturation value, which the pick takes for no task.
- SchedulerClass.Scheduler.WakeTask: needs a known task id; the source panics on any other.
- Scheduler tasks are one map from id to task, where the source has a vector and a lookup table; saved stack pointers, stacks and context switches are not modelled.
- ReclaimPager.ReclaimPager.AllocateRegion: needs a free frame for every page; without one the source calls back into the pager while its lock is held and does not return.
- ReclaimPager.ReclaimPager.HandlePageFault: needs a free frame for its page, for the same reason.
- ReclaimPager.ReclaimPager.StoreByte: needs a free frame if its page is compressed, since it faults.
- ReclaimPager.ReclaimPager.LoadByte: needs a free frame if its page is compressed, since it faults.
- ReclaimPager: page tables are one map from page to frame; frames for the tables themselves, flags, flushing and counters other than reclaims and restored faults are not modelled.
- FrameAllocator: the UEFI allocator is not modelled.
- ZswapCache is a thin layer over the page device and is left out.
- LZ4 is an assumed pair of functions: decompression undoes compression, and compressed output is not empty.
- DiskSuperblock.SbRoundTrip: leaves out the checksum field, which is written and verified in XfsChecksum.
- CrabfsPack.Mkfs: the contents of the AGF, AGI and AGFL sectors and of the tree roots are parameters of the right length, since reading files and directories does not look at them.
- CrabfsPack.Pack: starts from the collected nodes, with blocks of 4096 bytes, sectors of 304 to 4096 bytes and at least 10 blocks; walking the host's directories is not modelled.
- CrabfsReader: names are byte strings, so decoding of invalid UTF-8 is not modelled, and file offsets are unbounded integers, so 64-bit overflow on hostile images is not modelled.
- CrabfsReader: the readers of AGF, AGI, AGFL and tree roots would only add easy members.
- VirtioBlk: rings, notification and timeouts are one step that may fail; the capacity in bytes is taken to fit in 64 bits.
- NtObjects: reference counts are unbounded; the source's saturate at the largest usize.
- NtObjects.NtState.CreateNamed: needs an object id below saturation, as do InsertUnnamed and OpenSection; names are taken in canonical form.
- NtObjects.NtState.OpenSection: whether the path of a known DLL resolves is a parameter.
- NtObjects: the data of keys, sections, processes, threads and events is not modelled; waiting and signalling are not modelled.
- Hardware and assembly, PE images, the registry hive, pipes and the VFS, the console, the ISO, UDF and WIM containers, and the system-call table are not modelled.
