# A verified model of the kernel and its user programs

The repository holds three variants of a small teaching operating system for RISC-V: one with a
mirrored file system (`FileSystem-RAID`), one centred on kernel memory (`Kernel-Memory`), and a thread
library's schedulers (`Threading-Scheduler`). This project models their protocols and data structures in
Dafny and proves what they are for: crash safety, bandwidth guarantees, ownership of memory and disk
blocks, absence of lost wakeups, and the correctness of a few compact algorithms. `dafny verify
dfyconfig.toml` checks everything. Nothing is executed.

## How the files are organised

- **Mirrored disk and redo log.** `DiskWrites` says what a list of block writes does to a disk,
  `RaidDisk` is the buffer layer that keeps two copies of every block under two simulated faults, and
  `RedoLog` is the log on top of it. `CrashSafety` treats a crash between any two block writes of a
  commit or a recovery on one logical disk; `MirrorCrash` lifts this to crashes between any two
  *physical* writes, to every fault setting, and to recovery from one half alone; `MirrorRuns` to whole
  runs of transactions and crashes; `DiskLoss` to the loss of disk 0 while recovery is under way;
  `FaultsDuringCommit` to faults that appear during a commit; `FaultPairs` says for which settings during
  commit and recovery it holds. `MirroredRead` says which copies a reader finds, `LogFormat` what lies
  on the disk, word by word, at the turning points.
- **Log admission.** `LogReservation` covers `begin_op`, `end_op` and `log_write`: reservation of log
  space, grouping of whole operations into one commit, and the balance of pins. `CommitBuffers` asks
  whether a commit finds the buffers it needs, `RecoveryBuffers` what mirrored recovery does to reference
  counts; `Counting` counts for both.
- **Schedulers.** `EdfRules` describes one call of the deadline scheduler without reference to the order
  of its queues, `EdfScheduler` is the scheduler, `EdfTheorems` what follows, over single calls and over
  runs, `EdfOrder` that the order of the queues does not matter, and `EdfLaws` says in plain arithmetic
  what one call does and selects. `QueueSchedulers` holds the two schedulers without deadlines.
- **Pages.** `PageMemory` is the page allocator, `PageTable` the three-level tree and the finite map it
  stands for (section 4.4 of the RISC-V Privileged Architecture), `PageOps` walking, mapping and
  unmapping, `PageSpaces` growing, copying and tearing down address spaces. `PageHardware` is the
  address translation of the processor, and what these operations mean for a program's addresses.
- **Files.** `FileBits` has bytes, words and bitmap bits; `FileBlocks` says which block belongs to which
  slot of which inode and what the bytes of a file are; `FileUpdates` what single updates do to that;
  `FileLaws` says which disk bytes a file and the bitmap consist of; `FileSystem` has the operations.
- **Processes.** `ProcessSteps` is a state machine of exit, wait, sleep, wakeup, kill, yield, fork and the
  scheduler, one atomic step at a time, for any number of processes. `ProcessLocks`, `ProcessLives` and
  `ProcessWakeups` are its invariants, `ProcessFamilies`, `ProcessExitWait` and `ProcessRuns` show that
  every step keeps them, `ProcessTheorems` says what they mean. `ProcessLaws` says which steps may change
  what, and when calls may return or sleep; `ProcessAlone` what a call comes to when nothing interferes.
- **Disk driver.** `VirtioQueue` and `VirtioDisk` are the split virtqueue shared by driver and device
  (sections 2.6 and 5.2 of the VIRTIO 1.1 specification). Driver and device methods may be called in any
  order that their preconditions allow.
- **User programs.** `HeapLayout` and `HeapAllocator` are the memory allocator, `GrepMatch`,
  `GrepPatterns` and `GrepLines` the pattern matcher, the meaning of patterns, and the line buffer.
- **Buffer cache.** `BufferCache` is the ring of buffers with its reference counts.

## Where the code differs from what one might expect

- With both disks working, a crash between the two copies of the header makes the transaction exist on
  disk 0 only. If recovery then starts from disk 0, is interrupted, and disk 0 fails, disk 1 keeps the
  blocks installed so far: a transaction that changes two blocks or more can be torn, and no other
  (`DiskLossExactly`).
- Fault settings do not survive a restart. A commit under a bad block on disk 0, recovered with no fault set,
  can be torn, because disk 0 has missed a write (`AtomicPairsExactly`).
- Nothing repairs a copy after a simulated fault is cleared (`ClearingAFaultReadsStale`), and a write to
  a bad block while disk 1 is failed is lost (`BothCopiesLost`).
- `log_write` checks for room before it looks for the block in the log. An operation that has used up its
  budget can therefore panic on a block that is already logged (`AbsorbedWriteCanPanic`).
- The header takes one block of the log area. With an area of LOGSIZE blocks, as mkfs makes it
  (`FileSystem-RAID/mkfs/mkfs.c:31`), an operation below its budget can panic (`BelowBudgetPanics`). A
  larger area removes that panic (`NeverFullExactly`), but lets a commit pin all NBUF buffers and then find
  none to copy with (`CommitTraffic`).
- Recovery in the mirrored file system unpins buffers that nobody pinned, and their reference counts wrap.
  While nobody reads a recovered block its buffer cannot be recycled; while exactly one reader does, it can,
  and the next process to miss the cache is given the same buffer (`OpenExactly`, `GivenAway`).
- In `proc_pagetable` the second call of `mappages` cannot fail: the first has created the tables that it
  needs (`KernelTables`).
- `malloc` passes its request to `sbrk` through a 32-bit integer; from 2^27 units on the request does not
  get through (`SbrkIsAskedForAll`).
- `grep` stops for good at a line of 1023 characters or more, never prints an unfinished last line, and
  stops at a zero byte (`Printed` in `GrepLines`).

## Model

| member | source | states |
|---|---|---|
| RaidDisk.BufferedRaid.Bread | FileSystem-RAID/kernel/bio.c:100-140 | A read returns the cached data or, after a miss, the copy on disk 1 exactly when disk 0 is failed or the block is the bad one, and otherwise the copy on disk 0; it changes nothing on disk and nothing that later reads see |
| RaidDisk.BufferedRaid.WriteCopies | FileSystem-RAID/kernel/bio.c:150-197 | One logical write issues, in order, the copy on disk 0 unless disk 0 is failed or the block is bad there, and the copy on disk 1 unless that disk is failed; a block outside the logical range is written once; every other physical block keeps its contents |
| RaidDisk.BufferedRaid.Bwrite | FileSystem-RAID/kernel/bio.c:144-198 | After a write, reads of that block see the new data and all others are as before; if the copy that a later miss would fetch was among those written, the cache still agrees with the disk |
| RaidDisk.CopiesAreOneStep | FileSystem-RAID/kernel/bio.c:171-194 | Cut off after any number of its physical writes, a mirrored write shows every reader it reaches the old block or the new one |
| RaidDisk.MirrorCrash | FileSystem-RAID/kernel/bio.c:144-198 | Cut off anywhere, a list of mirrored writes shows every reader it reaches the disk after some prefix of the logical list |
| RedoLog.Log.LogWrite | FileSystem-RAID/kernel/log.c:222-244 | Panics exactly when the header or the log area has no room for another block, before it looks whether the block is already logged; otherwise the block joins the transaction unless it is there, is pinned, readers see the new data, and nothing is written to disk; block numbers stay distinct |
| RedoLog.Log.WriteLog | FileSystem-RAID/kernel/log.c:186-199 | The logged blocks, as cached, go to consecutive blocks of the log area, through the mirror |
| RedoLog.Log.WriteHead | FileSystem-RAID/kernel/log.c:103-115 | The header block is rewritten to name exactly the blocks of the transaction |
| RedoLog.Log.ReadHead | FileSystem-RAID/kernel/log.c:87-98 | The in-memory list becomes exactly what the header block on disk names |
| RedoLog.Log.InstallTrans | FileSystem-RAID/kernel/log.c:69-84 | Each logged block is copied from the log area to its home block and unpinned, in order |
| RedoLog.Log.Commit | FileSystem-RAID/kernel/log.c:201-211 | A commit issues log writes, header write, home writes and header erasure in this order and no other writes; an empty transaction issues none |
| RedoLog.CommitReachesItself | FileSystem-RAID/kernel/bio.c:111-194 | A writer later reads what a commit has written exactly if, under the faults set, its reads reach the header, the log blocks used and the home blocks named; only these are asked for |
| RedoLog.Log.RecoverFromLog | FileSystem-RAID/kernel/log.c:117-123 | Recovery issues the home writes of the transaction that the header names, then erases the header |
| LogFormat.ViewsAre | FileSystem-RAID/kernel/bio.c:111-131 | With no fault, or disk 1 failed, readers see the half on disk 0; with disk 0 failed the half on disk 1; with a bad block on disk 0 the half on disk 0 with that one block from disk 1 |
| LogFormat.WritesAre | FileSystem-RAID/kernel/bio.c:150-197 | One write changes one block of each half: not on disk 0 if that disk is failed or the block bad there, not on disk 1 if that disk is failed |
| LogFormat.OnceLogged | FileSystem-RAID/kernel/log.c:186-211 | When the header has been written its first word is the number of blocks, the next words are their numbers, the blocks right behind it hold their contents in the same order, and no other block has changed |
| LogFormat.OnceCommitted | FileSystem-RAID/kernel/log.c:201-211 | When the commit is complete every block of the transaction holds its contents at home, the first word of the header is 0, and no other block outside the log has changed |
| LogFormat.OnceRecovered | FileSystem-RAID/kernel/log.c:69-123 | Recovery copies the i-th block behind the header to the block that word i + 1 of the header names, makes the first word 0, and changes no other block |
| CrashSafety.CommitIsAtomic | Kernel-Memory/kernel/log.c:193-203 | After any number of block writes of a commit, replaying the log gives the old files if the header write was not among them and the files of the whole transaction if it was |
| CrashSafety.ReplayAfterInstall | Kernel-Memory/kernel/log.c:68-83 | Replaying the log over any part of its own installation gives the same result |
| CrashSafety.RecoveryIsRestartable | Kernel-Memory/kernel/log.c:116-123 | After any number of the block writes of recovery, the disk still replays to the same files |
| CrashSafety.RecoveryCompletes | Kernel-Memory/kernel/log.c:116-123 | Complete recovery leaves exactly the promised files in place and an empty log |
| MirrorCrash.HalvesInLockstep | FileSystem-RAID/kernel/bio.c:171-194 | With no fault set, after k physical writes disk 0 has received (k+1)/2 and disk 1 k/2 of the logical writes: disk 1 equals disk 0 or is one block behind |
| MirrorCrash.AttemptsKeepPromise | FileSystem-RAID/kernel/log.c:117-123 | Any number of interrupted attempts at recovery, under any fault that leaves the blocks readable, keeps the files the disk promises |
| MirrorCrash.RecoveryAlwaysCompletes | FileSystem-RAID/kernel/log.c:117-123 | Interrupted attempts followed by a complete one put the promised files in place and empty the log |
| MirrorCrash.CommitCrashIsAtomic | FileSystem-RAID/kernel/log.c:201-211 | For every fault during the commit and every fault during recovery whose readers see what the writers wrote, every crash point of the commit and every number of interrupted recoveries: all old files or all new ones |
| FaultPairs.AtomicPairsExactly | FileSystem-RAID/kernel/log.c:117-211 | For a log with room for two blocks: every crash point of every transaction, with the commit under one fault setting and any interrupted recoveries under another, is all-or-nothing if and only if recovery sees all blocks in use that the commit writes and its own writes to files, or neither the header nor any file that the commit writes |
| FaultPairs.SeenWhereReached | FileSystem-RAID/kernel/bio.c:144-197 | Block by block, a reader sees mirrored writes exactly where they reach the copy he is directed to |
| FaultPairs.RecoveryInstalls | FileSystem-RAID/kernel/log.c:117-123 | Interrupted recoveries and a complete one put the promised files in place if the blocks named by the log are reached, even if the header is not |
| FaultsDuringCommit.EachCrash | FileSystem-RAID/kernel/bio.c:144-198 | Cut off anywhere, a list of mirrored writes, each issued under a fault setting of its own, shows every reader that they reach the disk after some prefix of the logical list |
| FaultsDuringCommit.CommitCrashWithAddedFaults | FileSystem-RAID/kernel/log.c:201-211 | With faults added between any two block writes of the commit, and none losing a block: wherever the commit and the recoveries stop, all old files or all new ones |
| MirrorCrash.EitherHalfRecovers | FileSystem-RAID/kernel/log.c:201-211 | With no fault during the commit, recovery from either disk alone gives the files before the transaction if the crash came before that disk got the header, and those of the whole transaction otherwise |
| MirrorRuns.CrashedIsCovered | FileSystem-RAID/kernel/log.c:201-211 | Wherever a commit stops, the log on disk 0 rewrites every block on which the disks differ |
| MirrorRuns.RecoveryResynchronises | FileSystem-RAID/kernel/log.c:117-123 | A complete recovery with no fault set makes the two disks logically equal again |
| MirrorRuns.RunsAreAtomic | FileSystem-RAID/kernel/log.c:117-211 | Through any sequence of transactions, crashes and interrupted recoveries the disks stay logically equal, and the files are those of the transactions whose header reached disk 0, each applied as a whole |
| DiskLoss.DiskLostDuringRecovery | FileSystem-RAID/kernel/log.c:117-123 | Disk 0 may fail during an interrupted recovery: unless the crash fell exactly between the two header copies, recovery from disk 1 alone gives the whole transaction or none of it |
| DiskLoss.BetweenHeadersLeavesPrefix | FileSystem-RAID/kernel/log.c:117-123 | If it did fall there, recovery from disk 1 ends with exactly those first blocks of the transaction that the attempts had installed on it when disk 0 was lost, for any number of attempts cut off anywhere |
| DiskLoss.BetweenHeadersTears | FileSystem-RAID/kernel/bio.c:171-194 | Any two changed blocks can be torn apart: an attempt cut off just after installing the first leaves the first new and the second old |
| DiskLoss.DiskLossExactly | FileSystem-RAID/kernel/log.c:117-123 | For every crash point: every interrupted recovery resumed from disk 1 gives the whole transaction or none of it, if and only if the crash did not fall between the two header copies or at most one block of the transaction changes |
| MirroredRead.ReadBackExactly | FileSystem-RAID/kernel/bio.c:116-131 | A block written under one fault setting is read back under another exactly when a written copy is the one selected, or that copy held the data already; under the same setting, exactly when disk 1 is not failed together with a bad block on disk 0 |
| MirroredRead.WorseStillReaches | FileSystem-RAID/kernel/bio.c:111-194 | Adding faults keeps reads on copies that have been written, unless the failure of disk 1 meets a bad block on disk 0 |
| MirroredRead.ReadReturnsLastWrite | FileSystem-RAID/kernel/bio.c:106-197 | In any run where faults are only added and disk 1 failure never meets a bad block, the copy a miss selects holds what was last written to the block, if the block was written in the run or its copies were equal at the start |
| MirroredRead.CopyHoldsLastReaching | FileSystem-RAID/kernel/bio.c:106-197 | Through any run, with faults set and cleared at will, the copy that a reader under any setting is directed to holds the data of the last write that reached it |
| MirroredRead.RunReadBackExactly | FileSystem-RAID/kernel/bio.c:106-197 | After any such run a reader gets what was last written if and only if that write reached the copy he is directed to, or that copy held the data already |
| MirroredRead.ClearingAFaultReadsStale | FileSystem-RAID/kernel/bio.c:116-119 | Clearing the failure of disk 0 exposes the stale copy of every block written meanwhile |
| MirroredRead.BothCopiesLost | FileSystem-RAID/kernel/bio.c:172-188 | With disk 1 failed, a write to a bad block reaches no copy at all |
| LogReservation.Gate.BeginOp | Kernel-Memory/kernel/log.c:126-142 | One turn of the admission loop admits exactly when no commit is under way and the log has room for the full budget of every operation including this one; otherwise the caller sleeps |
| LogReservation.AdmissibleExactly | Kernel-Memory/kernel/log.c:126-142 | An operation is admitted exactly when no commit is under way and, however many blocks up to ten it and every operation under way may yet add to those already logged, the log holds at most 30 |
| LogReservation.Gate.LogWrite | Kernel-Memory/kernel/log.c:214-235 | Panics exactly on a full log, and never for an operation below its budget if the log area is larger than LOGSIZE; otherwise the block is appended and pinned unless already logged; unless an operation goes beyond its budget, logged blocks plus unused budgets never exceed LOGSIZE; block numbers stay distinct |
| LogReservation.Gate.EndOpAndCommit | Kernel-Memory/kernel/log.c:146-175 | From its start to its return, the end of an operation leaves nobody asleep; if it was the last operation, exactly what the transaction has logged has been copied home, in order, and the next operation is admitted |
| LogReservation.Gate.EndOp | Kernel-Memory/kernel/log.c:146-164 | The last operation starts the commit and every other one wakes all sleepers; a commit never finds another commit under way; all an operation has logged belongs to the transaction about to commit |
| LogReservation.Gate.InstallTrans | Kernel-Memory/kernel/log.c:68-83 | The logged blocks are copied home in order; outside recovery every logged buffer is unpinned exactly once; during recovery no pin changes |
| LogReservation.Gate.Commit | Kernel-Memory/kernel/log.c:193-203 | A commit copies home exactly the blocks logged since the previous one, with no operation under way, and leaves nothing logged and nothing pinned |
| LogReservation.Gate.EndCommit | Kernel-Memory/kernel/log.c:166-174 | After a commit nobody is left asleep, and whoever asks is admitted |
| LogReservation.Gate.RecoverFromLog | Kernel-Memory/kernel/log.c:116-123 | Recovery copies home exactly the blocks that the header names, in order, and leaves the pins alone |
| LogReservation.Gate.BelowBudget | Kernel-Memory/kernel/log.c:219-223 | In a log area larger than LOGSIZE, while any operation has budget left the log has room |
| LogReservation.BudgetLeft | Kernel-Memory/kernel/log.c:133-134 | The space reserved by all operations is at least what any one of them has left |
| LogReservation.NeverFullExactly | Kernel-Memory/kernel/log.c:133-221 | Under the reservation bound, operations below their budgets never find the log full, if and only if the log area is larger than LOGSIZE |
| LogReservation.BelowBudgetPanics | Kernel-Memory/kernel/log.c:126-235 | For every log area no larger than LOGSIZE, such as the one that mkfs makes, a run from boot in which an operation below its budget logs a new block and panics |
| LogReservation.AbsorbedWriteCanPanic | Kernel-Memory/kernel/log.c:126-235 | For every larger log area, a run from boot that fills the log with three operations, after which logging a block that is already in it panics, because the check precedes absorption |
| LogReservation.PanicsExactlyWhenFull | Kernel-Memory/kernel/log.c:220-221 | When the log is found full, all budgets are used up if the area is larger than LOGSIZE, and at most LOGSIZE + 1 - size blocks of them are left otherwise |
| CommitBuffers.RoomExactly | Kernel-Memory/kernel/bio.c:73-90 | Some buffer is unreferenced exactly when fewer than NBUF blocks are pinned |
| CommitBuffers.Copy | Kernel-Memory/kernel/log.c:68-83 | Copying one logged block takes one buffer beyond the pinned ones; it panics exactly when NBUF blocks are pinned; it gives everything back, and with it the pin if it is the copy home |
| CommitBuffers.CommitTraffic | Kernel-Memory/kernel/log.c:177-203 | A commit finds all the buffers it needs if and only if it has pinned fewer than NBUF blocks, and then ends with no buffer referenced; a log area of at most NBUF blocks never pins more |
| RecoveryBuffers.Buffers.InstallOne | FileSystem-RAID/kernel/log.c:72-83 | Installing one block during mirrored recovery takes two buffers at once, panics exactly when fewer are left, and drives the reference count of the home block below zero |
| RecoveryBuffers.Buffers.RecoverFromLog | FileSystem-RAID/kernel/log.c:117-123 | Mirrored recovery of n distinct blocks, whatever other blocks are cached, finds its buffers if and only if n is below NBUF; it leaves exactly n buffers with a count other than 0 though nobody holds them, at the end of the ring |
| RecoveryBuffers.Buffers.Bget | FileSystem-RAID/kernel/bio.c:61-103 | Find the block, or recycle the unreferenced buffer released longest ago; a buffer is recycled only while as many references to it are held as it has been unpinned without a pin; in every run its count is the difference of the two, modulo 2^32 |
| RecoveryBuffers.OpenExactly | FileSystem-RAID/kernel/bio.c:84-100 | In any run: a buffer that nobody holds can be recycled if and only if it was never unpinned without a pin; a buffer unpinned so once can be recycled under its holder if and only if it has exactly one |
| RecoveryBuffers.GivenAway | FileSystem-RAID/kernel/bio.c:61-103 | A run from boot, superblock read included, for every recovery of at least one block: one process reads any recovered block, and while it does, another that reads any block outside the cache is given the same buffer |
| RecoveryBuffers.LostCount | FileSystem-RAID/kernel/bio.c:84-100 | While nobody reads a recovered block, the buffers that cannot be recycled are exactly as many as the blocks recovered |
| EdfScheduler.CheckDeadlineMiss | Threading-Scheduler/threads_sched.c:136-149 | Selects, of the threads whose deadline has come, the one with the smallest ID, or none |
| EdfScheduler.RefillThrottled | Threading-Scheduler/threads_sched.c:291-299 | Every throttled server whose deadline has come gets its full budget and a deadline one period later; no other thread changes |
| EdfScheduler.IdleTime | Threading-Scheduler/threads_sched.c:310-332 | With an empty run queue, sleep until the earliest release, at least one tick; one tick if there is none |
| EdfScheduler.ThrottleExhausted | Threading-Scheduler/threads_sched.c:334-339 | Exactly the soft threads that are out of budget become throttled |
| EdfScheduler.SelectBest | Threading-Scheduler/threads_sched.c:360-370 | The unthrottled thread that has priority over all others, by deadline and then ID; none if all are throttled |
| EdfScheduler.Settle | Threading-Scheduler/threads_sched.c:356-397 | The postponing loop ends for every queue in which no deadline has passed, whatever the server parameters; no thread is postponed twice; the thread left is the unique best and does not violate its bandwidth; with valid servers, the threads postponed are exactly the violating ones that would have beaten it; what postponing means is in EdfLaws |
| EdfScheduler.ArrivalWins | Threading-Scheduler/threads_sched.c:441-457 | A future release is compared with its deadline of release plus period, and every thread field is restored |
| EdfScheduler.RefillWins | Threading-Scheduler/threads_sched.c:470-492 | A throttled server is compared as it will be after its refill, and every field is restored |
| EdfScheduler.ScanReleases | Threading-Scheduler/threads_sched.c:436-459 | The slice shrinks to the least delay, at least one tick, of all releases that take priority |
| EdfScheduler.ScanRefills | Threading-Scheduler/threads_sched.c:462-495 | The slice shrinks to the least delay, at least one tick, of all refills that take priority |
| EdfScheduler.AllocateTime | Threading-Scheduler/threads_sched.c:411-501 | For a thread with work and budget, the slice is the minimum of its own limit and all delays of releases and refills that would beat it; no thread changes |
| EdfScheduler.ScheduleEdfCbs | Threading-Scheduler/threads_sched.c:284-504 | One call, as a relation between the queue before and after, the thread chosen and its slice, stated without reference to the order of the queue; the laws of EdfLaws say in arithmetic what it relates |
| EdfLaws.CallOnThread | Threading-Scheduler/threads_sched.c:289-390 | Hard threads, and throttled servers before their deadline, are left alone; at its deadline a throttled server gets its full budget until one period later, or until the deadline its bandwidth allows; an exhausted server is throttled; any other server is left alone or gets its full budget with a deadline by which it is exactly its bandwidth, any earlier one being too early |
| EdfLaws.WhoIsPostponed | Threading-Scheduler/threads_sched.c:374-390 | With valid servers, a server with budget gets a new deadline if and only if it would use more than its bandwidth by the old one and has priority over the thread finally selected |
| EdfLaws.MissedExactly | Threading-Scheduler/threads_sched.c:301-308 | No time is allocated if and only if a deadline has passed, and then the thread named is the one with the smallest ID among those that missed theirs |
| EdfLaws.EarliestDeadlineFirst | Threading-Scheduler/threads_sched.c:360-409 | Otherwise the thread selected has the earliest deadline of all threads not throttled, and the smallest ID among those with that deadline; none is selected only if all are throttled |
| EdfLaws.SliceExactly | Threading-Scheduler/threads_sched.c:411-503 | Beyond one tick, the slice exceeds neither the work nor the budget of the thread, no release or refill that takes priority falls inside it, and it ends only where one of these does |
| EdfLaws.IdleExactly | Threading-Scheduler/threads_sched.c:310-332 | With nothing to run the time allocated lasts exactly until the earliest release, and one tick if that is due already or there is none |
| EdfTheorems.PostponeSettles | Threading-Scheduler/threads_sched.c:301-390 | A server that violates its bandwidth before its deadline does not violate it once postponed, whatever its parameters: the reason the loop ends |
| EdfTheorems.SettledOutcomeIsUnique | Threading-Scheduler/threads_sched.c:356-397 | Queue and time determine the thread selected and every deadline and budget after the loop |
| EdfTheorems.UnthrottlePotential | Threading-Scheduler/threads_sched.c:293-298 | A refill does not raise the server potential exactly when the budget was not overrun |
| EdfTheorems.PostponePotential | Threading-Scheduler/threads_sched.c:383-390 | Postponing a violating server strictly lowers its potential |
| EdfTheorems.CallKeepsBandwidth | Threading-Scheduler/threads_sched.c:284-504 | No call raises the potential of a soft thread with positive period and budget that has no budget while throttled, whatever the other threads are; valid servers stay valid; such a thread, if selected, gets no more than its remaining budget |
| EdfTheorems.BandwidthIsolation | Threading-Scheduler/threads_sched.c:284-504 | Over any run of calls and charged ticks, whatever queues are formed and whatever the other threads are, a soft thread whose budget was not overrun at the start uses at most its initial budget plus budget/period of the time by which its deadline has moved |
| EdfTheorems.SliceMeetsDeadline | Threading-Scheduler/threads_sched.c:382-426 | A selected soft thread has budget, keeps its bandwidth and, if its budget does not exceed its period, cannot run past its deadline |
| EdfTheorems.SliceIsUnique | Threading-Scheduler/threads_sched.c:431-501 | Two scans of the same releases and threads, listed in any two orders, give the same slice |
| EdfOrder.SameChoice | Threading-Scheduler/threads_sched.c:284-409 | The thread selected and the state in which every thread is left do not depend on the order of the queue, nor on the releases |
| EdfOrder.OrderDoesNotMatter | Threading-Scheduler/threads_sched.c:284-504 | What two calls promise, from one state, with the same threads and the same releases listed in any two orders: the same thread, the same slice, and the same state of every thread |
| EdfTheorems.NoPreemptionInsideSlice | Threading-Scheduler/threads_sched.c:431-501 | No release or refill that would take priority falls strictly inside the slice |
| QueueSchedulers.CrossMultiply | Threading-Scheduler/threads_sched.c:56-59 | With positive denominators, comparing products compares the ratios |
| QueueSchedulers.ScheduleHrrn | Threading-Scheduler/threads_sched.c:37-78 | The thread chosen has the highest response ratio, and the smallest ID among equals |
| QueueSchedulers.RatioIs | Threading-Scheduler/threads_sched.c:47-64 | The ratio is one and the waiting time in units of the processing time: the shorter of two that have waited equally, the longer waiting of two equally long, and whoever has waited against whoever arrives now is ahead |
| QueueSchedulers.RunQueue.SchedulePriorityRr | Threading-Scheduler/threads_sched.c:83-129 | The first thread of the most urgent priority is chosen; if it is not alone there it moves to the end of the queue, which rotates its group and leaves all other groups alone, and gets at most 2 ticks; if it is alone the queue is as before and it gets all the time it needs |
| QueueSchedulers.TakesTurns | Threading-Scheduler/threads_sched.c:93-128 | While no thread of the most urgent priority comes or goes and no more urgent one comes, whatever ticks are used and whatever less urgent threads do, the threads of that priority are chosen in turn, forever |
| QueueSchedulers.WaitsItsTurn | Threading-Scheduler/threads_sched.c:93-128 | Threads may come and go: with n threads of its priority ahead of it, a most urgent thread that nobody overtakes is among the next n + 1 to be chosen |
| QueueSchedulers.ChargingKeepsGroups | Threading-Scheduler/threads_sched.c:93-108 | Charging threads for the ticks they use changes no group and no order |
| PageMemory.KernelMemory.constructor | Kernel-Memory/kernel/kalloc.c:33-40 | Every page of the range is put on the free list |
| PageMemory.KernelMemory.Kfree | Kernel-Memory/kernel/kalloc.c:46-63 | The page becomes the head of the free list; no other page changes; a page is never freed twice |
| PageMemory.KernelMemory.Kalloc | Kernel-Memory/kernel/kalloc.c:68-82 | The page freed last is taken off the list; 0 exactly when the list is empty |
| PageTable.SlotsDistinct | Kernel-Memory/kernel/vm.c:92-102 | Below MAXVA two virtual pages share a lowest-level entry only if they are equal |
| PageTable.PteFields | Kernel-Memory/kernel/vm.c:165 | An entry made for a page gives back that page and those flags |
| PageTable.TreeFrame | Kernel-Memory/kernel/vm.c:85-103 | A tree and its mappings depend only on the contents of its own pages |
| PageTable.LeafWrite | Kernel-Memory/kernel/vm.c:165 | Writing one lowest-level entry changes the mapping of exactly one virtual page |
| PageTable.AddTable | Kernel-Memory/kernel/vm.c:96-99 | Hanging a zeroed page into an empty entry changes no mapping |
| PageOps.WalkDown | Kernel-Memory/kernel/vm.c:91-100 | One level: an existing table is followed; a missing one is created exactly if asked for and a page is free; no mapping changes |
| PageOps.Walk | Kernel-Memory/kernel/vm.c:85-103 | The table found is the one for the address; with allocation the walk succeeds exactly when there is a free page for every table on the way that is missing, creates exactly these, and changes no mapping |
| PageOps.MapPages | Kernel-Memory/kernel/vm.c:143-172 | Success, exactly when there is a free page for every table that the range lacks, maps exactly the pages asked for and nothing else; failure leaves a prefix mapped; the remap panic cannot occur on an unmapped range |
| PageOps.UnmapOne | Kernel-Memory/kernel/vm.c:187-197 | One page is unmapped and, if asked, freed; none of the three panics can occur on a mapped page |
| PageOps.UvmUnmap | Kernel-Memory/kernel/vm.c:177-199 | Exactly the range is unmapped and, if asked, exactly the pages it mapped are freed, each once |
| PageHardware.HardwareSees | Kernel-Memory/kernel/vm.c:71-103 | The translation of the processor, section 4.4 of the RISC-V Privileged Architecture, walks the tables to exactly the mappings that the tree stands for: the same physical byte and permission bits, and a page fault at every other address |
| PageHardware.RangeIsMapped | Kernel-Memory/kernel/vm.c:143-172 | After a range has been mapped, each of its addresses leads to the physical address at the same distance from the beginning, with the permissions asked for; every other address leads where it led before |
| PageHardware.RangeIsUnmapped | Kernel-Memory/kernel/vm.c:177-199 | After a range has been unmapped its addresses fault, and every other address leads where it led before |
| PageSpaces.UvmAlloc | Kernel-Memory/kernel/vm.c:232-256 | Succeeds if and only if there is a free page for every new page and for every table that these lack; then exactly the new pages are added, zeroed, with the flags asked for, on pages from the free list; failure restores the mappings and the user pages |
| PageSpaces.UvmDealloc | Kernel-Memory/kernel/vm.c:262-274 | Exactly the whole pages between the sizes are unmapped and freed |
| PageSpaces.UvmCopy | Kernel-Memory/kernel/vm.c:312-340 | Succeeds if and only if there is a free page for every page copied and for every table that these lack; then the child has the same flags and contents on fresh pages; failure restores the child; the parent is untouched either way |
| PageHardware.SpaceIsGrown | Kernel-Memory/kernel/vm.c:232-256 | In a grown space the program can read each new page, and write and execute it exactly as asked for; the page is all zero and was free before; every other address leads where it led before |
| PageHardware.SpaceIsCopied | Kernel-Memory/kernel/vm.c:312-340 | At every address below the size the child finds the same bytes with the same permissions as the parent, on a page that was free before |
| PageHardware.AddedApart | Kernel-Memory/kernel/vm.c:232-340 | Two addresses of what has been added that lead to the same byte are the same address |
| PageSpaces.UndoExtended | Kernel-Memory/kernel/vm.c:337-339 | Unmapping and freeing what was added gives back the mappings and user pages of before, with at most table pages added |
| PageSpaces.FreeWalk | Kernel-Memory/kernel/vm.c:278-294 | Every table page at and below the root is freed exactly once and nothing else; the leaf panic cannot occur in a tree that maps nothing |
| PageSpaces.EmptyIsBare | Kernel-Memory/kernel/vm.c:276-277 | A tree that represents the empty map has no valid lowest-level entry anywhere |
| PageSpaces.UvmFree | Kernel-Memory/kernel/vm.c:298-304 | Every user page and every table page goes back to the free list |
| PageSpaces.UvmCreate | Kernel-Memory/kernel/vm.c:203-212 | A zeroed root page is an address space that maps nothing; 0 exactly when no page is free |
| PageSpaces.ProcPagetable | Kernel-Memory/kernel/proc.c:176-206 | The new space maps exactly trampoline and trapframe; 0 exactly when fewer than three pages are free, and then all pages are given back; mapping the trapframe cannot fail |
| PageHardware.KernelPages | Kernel-Memory/kernel/proc.c:176-206 | In the new space the last page below 2^38 leads to the trampoline, readable and executable, the page before it to the trapframe, readable and writable, neither of them for user code; every other address faults |
| PageSpaces.ProcFreePagetable | Kernel-Memory/kernel/proc.c:210-216 | From a space that maps exactly the process memory, trampoline and trapframe: user pages and table pages are freed, trampoline and trapframe are not |
| FileBits.PutBlockBitAt | Kernel-Memory/kernel/fs.c:75-77 | Setting or clearing a bit of a bitmap block changes that bit and no other |
| FileBits.WordOfPut | Kernel-Memory/kernel/fs.c:408-412 | Storing an address in an indirect block changes that entry and no other |
| FileBlocks.OwnedAfterAlloc | Kernel-Memory/kernel/fs.c:389-415 | Storing a free block in an empty slot keeps every block owned by exactly one slot |
| FileBlocks.OwnedAfterFree | Kernel-Memory/kernel/fs.c:432-448 | Freeing the block of a slot and forgetting it keeps ownership for all the rest |
| FileBlocks.BytesAfterAlloc | Kernel-Memory/kernel/fs.c:64-82 | A zeroed block in an empty slot changes no byte of any file |
| FileUpdates.BitmapMarksHeldBlocks | Kernel-Memory/kernel/fs.c:65-105 | The bitmap marks the metadata and exactly the blocks some slot holds, and no two slots hold the same block |
| FileLaws.BitmapBit | Kernel-Memory/kernel/fs.c:65-105 | A block is marked in use by the bit of its number, counted from the lowest bit of the first byte of the bitmap |
| FileUpdates.ChunkWritten | Kernel-Memory/kernel/fs.c:517-526 | Bytes put into a block of a file appear in that file at that place and nowhere else |
| FileSystem.FileStore.Balloc | Kernel-Memory/kernel/fs.c:64-88 | The first free block is marked and zeroed; 0 exactly when every block is marked |
| FileSystem.FileStore.constructor | FileSystem-RAID/mkfs/mkfs.c:264-278 | A disk of zeros whose bitmap marks exactly the metadata, with empty files, is a sound file system |
| FileSystem.FileStore.Bfree | Kernel-Memory/kernel/fs.c:91-105 | The mark of a block in use is cleared; the panic on a free block cannot occur |
| FileSystem.FileStore.Bmap | Kernel-Memory/kernel/fs.c:382-421 | The result is the address in the inode for the first NDIRECT blocks, and after them the little-endian word of the index block whose address is the last in the inode; an existing block is returned with no change; ownership is kept, no byte of any file changes, and 0 means the disk is full |
| FileLaws.BlockOfFile | Kernel-Memory/kernel/fs.c:382-421 | The block map in terms of the inode and the bytes of its index block |
| FileLaws.ContentInBlocks | Kernel-Memory/kernel/fs.c:382-496 | The content of a file is, in this order, the bytes of the blocks whose addresses the inode holds and of those whose addresses are the words of its index block; none is missing below the size |
| FileSystem.FileStore.Itrunc | Kernel-Memory/kernel/fs.c:425-453 | Exactly the blocks of this file, index block included, are freed; other inodes, their bytes and their blocks are unchanged; the file is empty, in memory and on disk |
| FileSystem.FileStore.Readi | Kernel-Memory/kernel/fs.c:471-496 | Returns exactly the slice of the file content that offset, length and size allow; -1 exactly when the copy fails; no file, inode or bitmap changes |
| FileSystem.FileStore.Writei | Kernel-Memory/kernel/fs.c:505-539 | Rejected requests change nothing; otherwise the content becomes the old one with the first r source bytes put at the offset, longer if need be; r is short only if the disk is full or the source cannot be read; other files are unchanged; the inode on disk is current |
| FileSystem.WriteThenRead | Kernel-Memory/kernel/fs.c:471-539 | A write followed by a read anywhere: the read gives what was written where the write was carried out, and the old bytes elsewhere |
| FileSystem.WriteTwice | Kernel-Memory/kernel/fs.c:499-539 | Two successful writes, the second where the first ended, leave the file that one write of both would leave |
| ProcessRuns.StepKeeps | Kernel-Memory/kernel/proc.c:280-624 | Every atomic step of every thread, of the timer and of the schedulers keeps the invariant of locks, states, families and wakeups |
| ProcessRuns.RunInv | Kernel-Memory/kernel/proc.c:280-624 | The invariant holds in every state of every interleaving from boot on |
| ProcessTheorems.NoLostWakeup | Kernel-Memory/kernel/proc.c:368-433 | While nobody holds wait_lock no process sleeps in wait with a zombie child; while somebody does, only init can, and the holder has yet to wake it |
| ProcessLaws.WaitGivesUpRightly | Kernel-Memory/kernel/proc.c:391-434 | In every run wait gives up only if the process has been killed, has no child, or has found a zombie child, whose slot is then free or as it was; it returns from there only |
| ProcessLaws.SleepsOrGivesUp | Kernel-Memory/kernel/proc.c:397-432 | In every run a scan in wait, once begun, is left only for sleep on the own address or for one of these reasons |
| ProcessLaws.LivingChildrenMeanSleep | Kernel-Memory/kernel/proc.c:425-432 | In every run a process in wait that is not killed and all of whose children live goes to sleep |
| ProcessLaws.SleepersHaveLivingKids | Kernel-Memory/kernel/proc.c:397-432 | In every run whoever sleeps in wait has a child, and while nobody holds wait_lock no zombie child |
| ProcessLaws.LifeCycle | Kernel-Memory/kernel/proc.c:111-624 | In every step a slot changes its run state only as the calls have it, under its own lock: used by fork, running by the scheduler, asleep or a zombie by its own thread, awake by kill or by a wakeup on its channel, free by its parent in wait; only kill marks a process as killed, and leaves it awake |
| ProcessLaws.ThreadParents | Kernel-Memory/kernel/proc.c:280-417 | A parent is set only by fork, passed to init only by the exit of the old parent, and forgotten only when that parent frees the zombie, each time under wait_lock |
| ProcessLaws.CallsReturnRightly | Kernel-Memory/kernel/proc.c:280-616 | Kill returns only with a process marked and awake, or past the last slot; fork only with a runnable child of the caller, with the slot unused again, or past the last slot |
| ProcessAlone.WaitAlone | Kernel-Memory/kernel/proc.c:391-434 | With no other step in between, the whole table after wait: the first zombie child is freed and nothing else changes; with none, nothing changes if there is no child or the process is killed, and otherwise it sleeps on its own address |
| ProcessAlone.ExitAlone | Kernel-Memory/kernel/proc.c:331-386 | The whole table after exit: the process is a zombie off its CPU, its children are those of init, and exactly the processes asleep on the channel of its parent, and on that of init if it had children, run again |
| ProcessAlone.ForkAlone | Kernel-Memory/kernel/proc.c:280-326 | The whole table after fork: the first unused slot is a runnable child of the caller, or unused again if a copy fails; without one nothing changes |
| ProcessAlone.KillAlone | Kernel-Memory/kernel/proc.c:597-616 | The whole table after kill: the first process that matches is marked, and runs again if it slept; without one nothing changes |
| ProcessAlone.SleepAlone | Kernel-Memory/kernel/proc.c:547-573 | The whole table after the call: the process sleeps on the channel given |
| ProcessAlone.YieldAlone | Kernel-Memory/kernel/proc.c:511-519 | A preempted process becomes runnable off its CPU, and picked again goes on where it was with nothing changed |
| ProcessAlone.ExitThenWait | Kernel-Memory/kernel/proc.c:331-434 | A parent asleep in wait is woken by the exit of its child, and when it runs it frees its first zombie child, this one unless it had another, and returns |
| ProcessTheorems.OnlyParentFrees | Kernel-Memory/kernel/proc.c:402-420 | A process stops being a zombie only when its current parent frees it in wait, after it has switched off its CPU for good |
| ProcessTheorems.FreedExactlyOnce | Kernel-Memory/kernel/proc.c:378-417 | Every slot has been freed exactly as often as it became a zombie, but for the zombie it may hold |
| ProcessTheorems.ZombieHasLivingParent | Kernel-Memory/kernel/proc.c:331-371 | A zombie always has a parent that has not exited |
| ProcessTheorems.NoChildOverlooked | Kernel-Memory/kernel/proc.c:400-430 | A scan that ends without meeting a child has overlooked none |
| ProcessTheorems.NoLockPanic | Kernel-Memory/kernel/proc.c:491-508 | Whoever calls sched holds its own lock and no other and is not running; nobody waits for a lock it holds |
| ProcessTheorems.LocksNeverDeadlock | Kernel-Memory/kernel/proc.c:368-434 | The holder of a process lock can always go on; the holder of wait_lock can go on or waits for such a holder |
| ProcessExitWait.ExitKeeps | Kernel-Memory/kernel/proc.c:347-386 | Each step of exit keeps the invariants of families and wakeups |
| ProcessExitWait.WaitKeeps | Kernel-Memory/kernel/proc.c:391-434 | Each step of wait keeps them |
| ProcessRuns.SleepKeeps | Kernel-Memory/kernel/proc.c:512-573 | Each step of sleep and yield keeps them |
| ProcessRuns.KillKeeps | Kernel-Memory/kernel/proc.c:598-616 | Each step of kill keeps them |
| ProcessRuns.ForkKeeps | Kernel-Memory/kernel/proc.c:280-326 | Each step of fork keeps them |
| ProcessRuns.DispatchKeeps | Kernel-Memory/kernel/proc.c:458-474 | Dispatching a runnable process keeps the whole invariant |
| ProcessRuns.RouseKeeps | Kernel-Memory/kernel/proc.c:578-592 | A wakeup on a channel other than those of wait keeps the whole invariant |
| ProcessExitWait.WokenIsAwake | Kernel-Memory/kernel/proc.c:583-590 | A wakeup scan under wait_lock leaves the process it is meant for awake |
| VirtioDisk.Disk.AllocDesc | Kernel-Memory/kernel/virtio_disk.c:157-166 | The first free descriptor, or -1 if there is none |
| VirtioDisk.Disk.Alloc3Desc | Kernel-Memory/kernel/virtio_disk.c:202-213 | Three different free descriptors, or none taken |
| VirtioDisk.Disk.FreeDesc | Kernel-Memory/kernel/virtio_disk.c:170-182 | A descriptor in use is cleared and free again; the panics cannot occur |
| VirtioDisk.Disk.FreeChain | Kernel-Memory/kernel/virtio_disk.c:186-197 | Following the links frees exactly the three descriptors of the chain |
| VirtioDisk.Disk.Submit | Kernel-Memory/kernel/virtio_disk.c:216-281 | A request is queued exactly when at most one other is in flight; its chain, buffer and place in the available ring are those of the request; other requests are untouched |
| VirtioDisk.Disk.DeviceTake | Kernel-Memory/kernel/virtio_disk.c:268-281 | The device finds the queued requests in order, whatever the 16-bit indices have wrapped to |
| VirtioDisk.Disk.DeviceComplete | Kernel-Memory/kernel/virtio_disk.c:235-265 | Following the chain in memory, the device performs exactly the transfer asked for, in any order among the requests it has taken |
| VirtioDisk.Disk.Transfer | Kernel-Memory/kernel/virtio_disk.c:235-265 | A device that refuses any chain but a 16-byte header to be read, whole sectors to be written exactly if the request is a read, and a final status byte to be written never refuses one of the driver's; it moves as many sectors as the data descriptor has, from the place named in the header |
| VirtioDisk.BlocksApart | Kernel-Memory/kernel/virtio_disk.c:218 | Blocks take two sectors each and do not overlap |
| VirtioDisk.Rw | Kernel-Memory/kernel/virtio_disk.c:215-327 | A request on an idle queue from its start to its return: a write leaves the buffer's contents on the disk, a read the disk's contents in the buffer, the buffer is handed back, and nothing else changes |
| VirtioDisk.WriteThenRead | Kernel-Memory/kernel/virtio_disk.c:215-327 | A block written from one buffer and read into another arrives there; another block reads as before |
| VirtioDisk.Disk.Intr | Kernel-Memory/kernel/virtio_disk.c:295-327 | Exactly the reported requests are finished: their buffers, never null, are handed back, every other buffer is unchanged, and the status panic cannot occur |
| VirtioDisk.Disk.IntrMeanwhile | Kernel-Memory/kernel/virtio_disk.c:294-327 | The same while the device takes and completes requests before every test of the loop and before every turn: the handler ends, everything reported before its last look has been handed back, and only buffers of requests change |
| VirtioDisk.Disk.Finish | Kernel-Memory/kernel/virtio_disk.c:283-292 | After completion exactly the three descriptors of the request are free again |
| VirtioQueue.ChainsDisjoint | Kernel-Memory/kernel/virtio_disk.c:199-213 | No descriptor is in two chains |
| VirtioQueue.AtMostTwo | Kernel-Memory/kernel/virtio_disk.c:155-213 | Eight descriptors make at most two chains of three |
| VirtioQueue.IndexMod | Kernel-Memory/kernel/virtio_disk.c:272-277 | A wrapped 16-bit index names the same ring entry as the true count |
| VirtioQueue.WrapEmpty | Kernel-Memory/kernel/virtio_disk.c:312 | With at most two entries pending, equal 16-bit indices mean that none is |
| HeapAllocator.Allocator.Free | FileSystem-RAID/user/umalloc.c:26-49 | The block leaves the live ones; the list stays in address order, without overlap, fully merged; the free units are those of before and those of the block; the next search begins behind the last free block below it |
| HeapAllocator.Allocator.FindSlot | FileSystem-RAID/user/umalloc.c:31-33 | The search ends, at the element the block belongs behind |
| HeapAllocator.AtSlot | FileSystem-RAID/user/umalloc.c:31-33 | The exit tests of the search hold exactly at that element, including where the list wraps |
| HeapAllocator.Allocator.JoinUpper | FileSystem-RAID/user/umalloc.c:34-40 | The block takes in the free block it touches above, or links to it |
| HeapAllocator.Allocator.JoinLower | FileSystem-RAID/user/umalloc.c:41-48 | The block is taken in by the free block it touches below, or linked behind it |
| HeapAllocator.Allocator.MoreCore | FileSystem-RAID/user/umalloc.c:51-65 | The request, but at least 4096 units, joins the free list from the system, in one free block large enough; if no block was large enough before, only the one at the top of the heap is; 0 exactly when the system does not let the heap grow by as much |
| HeapAllocator.Allocator.Malloc | FileSystem-RAID/user/umalloc.c:67-97 | The search ends, with at most one call to the system; the block is new, apart from all others and as large as asked for: the top of the first free block large enough from where the last search or free left off, or of the heap if it had to grow; no live block changes; 0 if and only if no free block is large enough and the system does not let the heap grow; the heap grows exactly when no free block is large enough and the system lets it |
| HeapAllocator.SearchInVain | FileSystem-RAID/user/umalloc.c:78-96 | A search that has come round has seen every block, so that no second call to the system can follow a successful one |
| HeapAllocator.SbrkIsAskedForAll | FileSystem-RAID/user/umalloc.c:58 | The 32-bit argument of sbrk carries the request exactly when it is below 2^27 units |
| HeapLayout.NeverBoth | FileSystem-RAID/user/umalloc.c:26-97 | Every unit obtained from the system is free or live and never both |
| HeapLayout.MergeUp | FileSystem-RAID/user/umalloc.c:34-38 | Merging upwards keeps order, separation and coverage |
| HeapLayout.MergeDown | FileSystem-RAID/user/umalloc.c:41-45 | Merging downwards keeps order, separation and coverage |
| HeapLayout.LinkIn | FileSystem-RAID/user/umalloc.c:39-47 | Linking in a block that touches no neighbour keeps order, separation and coverage |
| HeapLayout.TakeWhole | FileSystem-RAID/user/umalloc.c:82-83 | Taking a block of the right size keeps order, separation and coverage |
| HeapLayout.TakeTail | FileSystem-RAID/user/umalloc.c:84-89 | Splitting off the tail of a block keeps order, separation and coverage |
| GrepMatch.MatchHere | FileSystem-RAID/user/grep.c:89-100 | True exactly when some prefix of the text is in the language of the pattern, the whole text after a final $ |
| GrepMatch.MatchStar | FileSystem-RAID/user/grep.c:103-111 | True exactly when the text begins with some number of accepted characters after which the rest of the pattern matches |
| GrepMatch.Match | FileSystem-RAID/user/grep.c:76-86 | True exactly when some part of the text, anchored as ^ and $ say, is in the language |
| GrepMatch.FirstMany | FileSystem-RAID/user/grep.c:103-111 | A word matches c* and more exactly when it splits into accepted characters and a word that matches the rest |
| GrepMatch.FirstOne | FileSystem-RAID/user/grep.c:97-98 | A word matches a character and more exactly when its first character is accepted and the rest matches |
| GrepPatterns.EmptyAndEnd | FileSystem-RAID/user/grep.c:91-96 | The empty pattern matches everywhere, $ alone at the end of the text only |
| GrepPatterns.Starred | FileSystem-RAID/user/grep.c:93-111 | A character before * stands for any number of itself, $ and ^ too, and . for any text; * is looked for before $ |
| GrepPatterns.Single | FileSystem-RAID/user/grep.c:95-99 | Any other character but a final $ stands for itself, and . for any one |
| GrepPatterns.Anchored | FileSystem-RAID/user/grep.c:76-86 | A leading ^ keeps the match to the beginning of the text; without it the match may begin anywhere |
| GrepPatterns.WordOccurs | FileSystem-RAID/user/grep.c:76-100 | A word without special characters matches exactly the texts it occurs in |
| GrepPatterns.WordAnchored | FileSystem-RAID/user/grep.c:76-100 | With ^ in front it matches exactly the texts that begin with it, with $ behind those that end with it, with both itself alone |
| GrepPatterns.StarThenEnd | FileSystem-RAID/user/grep.c:93-111 | ^c*$ matches exactly the texts made of c, and every text if c is the dot |
| GrepLines.Grepper.PrintLines | FileSystem-RAID/user/grep.c:20-30 | All complete lines in the buffer are dealt with, and an unfinished one is left |
| GrepLines.Grepper.Grep | FileSystem-RAID/user/grep.c:10-37 | The output is that of the matching lines of the input up to the first one that does not fit the buffer or contains a zero byte, however the reads cut the input |
| GrepLines.NothingPrinted | FileSystem-RAID/user/grep.c:16 | A full buffer without a newline ends the loop, and the lines after it are never printed |
| GrepLines.PrintedLines | FileSystem-RAID/user/grep.c:10-37 | Of lines that fit into the buffer exactly the matching ones are printed, whole and in order; an unfinished last line is not |
| BufferCache.Cache.constructor | Kernel-Memory/kernel/bio.c:36-53 | The ring contains every buffer once |
| BufferCache.Cache.Bget | Kernel-Memory/kernel/bio.c:58-89 | A cached block is found in its one buffer; otherwise the buffer recycled is the unreferenced one released longest ago; no other buffer changes; the panic occurs exactly when the block is not cached and all buffers are referenced |
| BufferCache.Cache.Find | Kernel-Memory/kernel/bio.c:66-73 | The search from the front meets the first buffer that holds the block |
| BufferCache.Cache.FindUnused | Kernel-Memory/kernel/bio.c:77-87 | The search from the back meets the last buffer without references |
| BufferCache.Cache.Brelse | Kernel-Memory/kernel/bio.c:116-137 | The last release moves the buffer to the front, making it the most recent; any other release leaves the order alone |
| BufferCache.Cache.Bpin | Kernel-Memory/kernel/bio.c:139-144 | One more reference, and no other change |
| BufferCache.Cache.Bunpin | Kernel-Memory/kernel/bio.c:146-151 | One reference less; the place in the list is kept |
| BufferCache.Unlinked | Kernel-Memory/kernel/bio.c:128-129 | Unlinking a node leaves a ring of the others in the same order |
| BufferCache.Pushed | Kernel-Memory/kernel/bio.c:130-133 | Linking a node in at the head puts it in front of the same ring |
| BufferCache.HitKeeps | Kernel-Memory/kernel/bio.c:66-73 | Distinct buffers in use hold distinct blocks, even for block 0 of device 0, which unused buffers look like |
| BufferCache.LeastRecent | Kernel-Memory/kernel/bio.c:76-78 | The unreferenced buffer nearest the end of the list was released before every other one |

## Left out

- Device registers, interrupt delivery, memory barriers, assembly, boot, console, printing and trap handling: foreign calls. The disk is a sequence of blocks whose single block writes are atomic.
- The slab allocator: its functions are stubs.
- The deadline-monotonic scheduler: it looks only at the earliest release, so that no guarantee about later, more urgent arrivals holds.
- Directories, path lookup, symbolic links, inode allocation and reference counts, file permissions, file descriptors, pipes, system-call argument fetching, loading of programs.
- The raw block system calls of the mirrored file system, which bypass cache and mirror.
- Repair of a disk after a fault is cleared: there is no such code.
- C overflow in the products and sums of the schedulers: integers are unbounded there. Where width matters (16-bit ring indices, 32-bit file offsets, words on disk, the argument of sbrk) it is modelled.
- RedoLog.Log.RecoverFromLog: pins are a set there; what recovery does to reference counts is in RecoveryBuffers.
- RedoLog.Log.Commit: asks that the fault settings let reads find what is written to the blocks of this transaction; without that the cache and the disk part, and FaultPairs says what then becomes of the files.
- RaidDisk.BufferedRaid.Bread: asks for a block of the logical disk; only the raw block calls read others.
- RaidDisk.BufferedRaid.Bwrite: the block number of the buffer is rewritten while the copies are issued; other processes that might look the buffer up meanwhile are not modelled. Uniqueness in the cache is proved for the other variant, in BufferCache.
- LogReservation.Gate.LogWrite: once an operation has added more than MAXOPBLOCKS blocks, which the code does not check, the reservation bound is no longer promised.
- LogReservation.Gate.Commit: supposes that the buffers are there; CommitTraffic in CommitBuffers says when they are.
- CommitBuffers.CommitTraffic: supposes that no buffer is referenced but the pinned ones; a reader outside any operation may hold others.
- RecoveryBuffers.Buffers.Bget: the ring is a sequence there; BufferCache has its links. Sleep locks are not modelled: the second process waits for the first, but only after the buffer has been turned over to another block.
- EdfScheduler.ScheduleEdfCbs: asks for distinct thread IDs; with positive periods and budgets and throttled servers without budget, as the thread library sets them up, it settles as SettledTo says, and otherwise as PostponedTo says.
- EdfTheorems.BandwidthIsolation: the thread library that charges ticks and moves threads between queues is not part of the repository; DriverStep states what is assumed of it.
- QueueSchedulers.ScheduleHrrn: asks for positive processing times, without which the ratios mean nothing.
- PageOps.MapPages: asks for an unmapped, aligned range below MAXVA and permissions that include reading, writing or executing; the code panics on anything else, or makes an entry that later reads as a pointer.
- PageOps.UvmUnmap: asks for a mapped range; the code panics otherwise.
- PageSpaces.UvmCopy: asks that the pages copied are mapped, as the code does by panicking, and that the child has nothing there yet.
- Copying between kernel and user memory, and page faults.
- PageHardware.HardwareSees: accessed, dirty and reserved bits of entries and the translation cache are not modelled, nor is the width of a table entry.
- FileSystem.FileStore.Bmap: asks for a block number within the largest file size, as the code does by panicking.
- FileSystem.FileStore.Iupdate: inodes on disk are records; their packing into inode blocks is not modelled, nor is the transaction that groups the block writes, which LogReservation and RedoLog treat.
- FileSystem.FileStore.Writei: user memory that cannot be read is modelled as a source of fewer bytes than asked for; bytes of the last, incomplete chunk reach the cached block but are not counted, and FileWritten says so.
- ProcessRuns.StepKeeps: process identifiers, exit status and user memory are not carried along; whether an identifier matches, an allocation fails or a copy fails is left open. Work done under one process lock is one step with the release of that lock.
- ProcessAlone.WaitAlone: says what a call comes to when no other thread takes a step; what holds in all interleavings is in ProcessTheorems and ProcessLaws. That a call ever gets to run is up to the scheduler loop, whose fairness is not modelled.
- ProcessTheorems.LocksNeverDeadlock: concerns wait_lock and the process locks; locks of other parts of the kernel are not modelled.
- VirtioDisk.Disk.IntrMeanwhile: one turn of the handler, which reads one ring entry and one status byte and frees one buffer, is atomic.
- VirtioDisk.Disk.DeviceComplete: the device always succeeds; the code panics on an error status. A sector is one value, not 512 bytes.
- VirtioDisk.Disk.Submit: the caller owns the buffer, so that no other request is under way for it.
- HeapAllocator.Allocator.Malloc: asks for requests below 2^27 units, for which sbrk sees the whole request.
- HeapAllocator.Allocator.Free: asks for a block that malloc returned and that has not been freed since; programs are taken to leave headers alone, and only the allocator calls sbrk.
- GrepLines.Grepper.Grep: reads deliver at least one character while there are any; read errors and the command line are left out.
- BufferCache.Cache.Brelse: asks for a buffer that is referenced, as the code does by its sleep lock; the sleep locks themselves, buffer contents and validity on disk are not part of this model.
