# PulseOS: verified models of its core algorithms

This project models the parts of PulseOS whose correctness does not follow from reading one function, and proves what
they promise. `dafny verify dfyconfig.toml` checks everything.

- **Record locks** (`record_lock.dfy`, `record_lock_protocol.dfy`). Byte-range locks of one target as a vector of
  entries, specified by the bytes each owner holds; and the lock table under concurrency, as a state machine whose
  steps are critical sections and wait queue actions.
- **EEVDF scheduler** (`eevdf_arith.dfy`, `eevdf_fair.dfy`, `eevdf_task.dfy`, `eevdf.dfy`,
  `sums.dfy`). Virtual time, the two trees of
  ordinary tasks, their incremental sums, the deadline bound and the preemption cache against what a scan over the
  queued tasks computes; real-time queues; ticks and the preemption timer.
- **ext4 directories** (`dir_records.dfy`, `dir_bytes.dfy`, `dir_edit.dfy`, `linear_dir.dfy`). Directory blocks as
  records and as bytes, in-place edits, packing, and directories without an index.
- **ext4 hash trees** (`htree_levels.dfy`, `htree_tree.dfy`, `htree_search.dfy`, `htree_grow.dfy`, `htree_bag.dfy`,
  `htree.dfy`, `htree_example.dfy`). The tree is viewed level by level: a level is the sequence of its nodes with their
  separators, the next level lists all children in order. Splits then insert one node into a level and leave the levels
  below alone.
- **Capture files** (`capture_codec.dfy`, `capture_schema.dfy`, `capture_session.dfy`, `capture_checksum.dfy`,
  `capture_file.dfy`, `capture_writer.dfy`). The writer, the reader, every codec between them, and the checksum.
- **Session statistics** (`stats.dfy`, `stats_runs.dfy`, `stats_compute.dfy`). Interval accounting over a stream of
  scheduler events.
- **Interrupt mailbox** (`irq_mailbox.dfy`). A word shared by interrupt handlers and tasks through atomic operations,
  as a state machine whose steps are single accesses.

`bytes.dfy` and `options.dfy` hold shared vocabulary.

## Where the code and its promises part

- Splitting the root of a hash tree writes the depth byte as 1 whatever the depth was
  (`crates/ext4plus/src/dir_htree.rs:739`). The tree itself stays well formed, but in a tree that already had an index
  level below the root every later lookup stops one level too early. `Htree.Directory.Add` states the exact condition,
  which a caller could check before the call; `HtreeExample.LoseEveryName` states for every such tree that nothing is
  found from then on; `HtreeExample.RootSplitLosesNames` is a directory of 4096-byte blocks to which this happens; and
  `Htree.Directory.AddAll` that a caller who checks loses nothing.
- The checksum is documented as the CRC-32 of IEEE 802.3, but the mask is inverted, so the polynomial goes in on the
  other value of the low bit (`crates/bpf-capture/src/framing.rs:294-297`). The two registers differ by a word that
  depends on the length alone (`CaptureChecksum.RegistersApart`), so the checksums agree exactly when that word is zero
  for the length (`CaptureChecksum.IeeeExactly`). They agree on empty data, on no single byte, and never on two lengths
  in a row. The model follows the code; single-byte changes are detected all the same.
- The checksum does not cover the trailer, and nothing else covers its status: `CaptureFile.TrailerByte` states which
  changed bytes of the trailer are reported.
- Splitting an overflowing leaf at half a block leaves a right half that may not fit when the block has fewer than 1048
  usable bytes, as those of 1 KiB have. `DirRecords.SplitThreshold` states the exact bound and
  `DirRecords.UnsplittableOverflows` gives the names.
- An announced preemption time that saturates at the end of the 64-bit clock need not be one at which a tick
  reschedules. `Eevdf.TimerExactly` states when it is, `Eevdf.SaturatedTimerMissed` gives a task for which it is not.

## Modelling choices

- Machine integers are natural numbers with explicit bounds; saturating, wrapping and truncating operations are written
  out. Bit operations on interrupt status words and on the checksum register use bit vectors.
- The name hash is an arbitrary function to even 32-bit values, and which bytes are valid UTF-8 is a parameter.
- Clock readings, register values and buffer contents are parameters. A compare-exchange may fail spuriously.
- The scheduler's intrusive trees and queues are sets and sequences of task numbers; the order in a tree is its key.
- Directory blocks are held by file block number; extent maps, allocation and the block checksum are not modelled.
- In the mailbox protocol one status bit, chosen freely, is followed by history variables that no step reads.

## Model

| member | source | states |
|---|---|---|
| RecordLock.Conflict | pulse_core/src/record_lock.rs:54-70 | answers with a lock of another owner that has a byte in common when one of the two is a write lock, the first by start, end and owner; absent exactly when there is none |
| RecordLock.ConflictIsByteConflict | pulse_core/src/record_lock.rs:54-70 | a conflict is reported exactly when another owner holds some byte of the range and one of the two types is a write lock |
| RecordLock.RecordLockState.Set | pulse_core/src/record_lock.rs:72-93 | fails with EINVAL exactly for an invalid range, with EAGAIN exactly when another owner holds a requested byte and one of the two types is a write lock, and then changes nothing; otherwise writes exactly the requested bytes of that owner, leaves every other (owner, byte) alone, and keeps the vector canonical and free of conflicts |
| RecordLock.RecordLockState.ClearOwnerRange | pulse_core/src/record_lock.rs:95-121 | the swap-remove and push loop ends, erases exactly that owner's bytes in the range, and reports whether any entry was affected |
| RecordLock.RecordLockState.ReleaseOwner | pulse_core/src/record_lock.rs:123-127 | every lock of the owner goes, no other changes |
| RecordLock.RecordLockState.Coalesce | pulse_core/src/record_lock.rs:129-150 | sorting and merging in place changes no byte and leaves entries of one owner and type apart |
| RecordLock.SetKeepsSafe | pulse_core/src/record_lock.rs:72-93 | a write that met no conflict leaves one type per owner and byte and no conflict between owners |
| RecordLock.CutLoopCut | pulse_core/src/record_lock.rs:95-121 | cutting one entry keeps all entries non-empty and apart, erases only requested bytes, and leaves fewer entries to cut |
| RecordLock.CutLoopEnd | pulse_core/src/record_lock.rs:95-121 | when the loop has passed every entry, exactly the requested bytes are gone and the vector is canonical |
| RecordLock.EntryIsMaximalRun | pulse_core/src/record_lock.rs:129-150 | in a canonical vector every entry is a maximal run: neither neighbouring byte is held by that owner with that type |
| RecordLock.FormIsUnique | pulse_core/src/record_lock.rs:129-150 | two canonical vectors that hold the same bytes have the same entries |
| RecordLock.RetainHolds | pulse_core/src/record_lock.rs:123-127 | dropping an owner's entries removes exactly what that owner holds |
| RecordLockProtocol.TryLockKeepsInv | pulse_core/src/record_lock.rs:220-268 | a lock attempt that is granted, refused or registers a waiter keeps the invariant |
| RecordLockProtocol.FinishWaitKeepsInv | pulse_core/src/record_lock.rs:270-280 | leaving the wait, for whatever reason, keeps the waiter count and the table exact |
| RecordLockProtocol.UnlockKeepsInv | pulse_core/src/record_lock.rs:282-307 | an unlock with its pending notification keeps the invariant |
| RecordLockProtocol.ReleaseShardKeepsInv | pulse_core/src/record_lock.rs:341-355 | releasing an owner shard by shard keeps the invariant while notifications are still outstanding |
| RecordLockProtocol.NextKeepsInv | pulse_core/src/record_lock.rs:220-355 | every interleaved step of every thread keeps the invariant |
| RecordLockProtocol.RunKeepsInv | pulse_core/src/record_lock.rs:220-355 | the invariant holds in every state of every run |
| RecordLockProtocol.NoLostWakeup | pulse_core/src/record_lock.rs:220-268 | in every run a sleeping waiter's queue is the one installed for its target, and its conflict still exists or a notification of that queue is pending |
| RecordLockProtocol.WaiterCountExact | pulse_core/src/record_lock.rs:250-280 | in every run the waiter count equals the threads between increment and `finish_wait`, so it never underflows, and every table entry has locks or waiters |
| RecordLockProtocol.LocksStaySafe | pulse_core/src/record_lock.rs:54-151 | in every run no two owners hold conflicting types on a common byte and each vector is canonical |
| RecordLockProtocol.AttemptOutcome | pulse_core/src/record_lock.rs:220-247 | in every run an attempt is granted exactly when no other owner holds a requested byte with one of the two a write lock, and then writes exactly its bytes; otherwise a non-blocking one is refused, a blocking one becomes a waiter, and no lock changes |
| RecordLockProtocol.WaitKeepsRequest | pulse_core/src/record_lock.rs:249-268 | through every step of every thread a waiter keeps its target and request, and leaves the wait only to try them again, still blocking, or to give up |
| RecordLockProtocol.NotifyWakes | pulse_core/src/record_lock.rs:236-240 | a notification leaves nobody asleep on its queue |
| RecordLockProtocol.ReleaseOutcome | pulse_core/src/record_lock.rs:341-355 | a release takes every lock of its owner out of a shard and changes no other lock |
| RecordLockProtocol.ReleaseVisitsAll | pulse_core/src/record_lock.rs:341-355 | in every run a release that has come to a shard has been through every shard before it |
| RecordLockProtocol.ReleaseTargetOutcome | pulse_core/src/record_lock.rs:313-331 | a release on one target takes every lock of its owner from it and changes no other target |
| RecordLockProtocol.UnlockOutcome | pulse_core/src/record_lock.rs:282-307 | an unlock takes exactly the bytes of its range from its owner on one target and changes no other |
| RecordLockProtocol.SetIsStep | pulse_core/src/record_lock.rs:72-93 | the locking step is what the method of the lock state does: granted exactly without a conflict, with the same bytes written |
| RecordLockProtocol.ClearIsStep | pulse_core/src/record_lock.rs:95-121 | the unlocking step is what the method of the lock state does, its report of a change included |
| RecordLockProtocol.ReleaseIsStep | pulse_core/src/record_lock.rs:123-127 | the releasing step is what the method of the lock state does, its report of a change included |
| EevdfArith.WeightsFall | crates/eevdf-scheduler/src/eevdf.rs:10-17 | each nice level more costs between a sixth and a quarter of the weight, from 88761 over 1024 at nice 0 to 15 |
| EevdfArith.DecayShrinksLag | crates/eevdf-scheduler/src/eevdf.rs:607-635 | decay on wake-up never flips the sign of a saved lag and never makes it larger |
| EevdfArith.TimerReachesDeadline | crates/eevdf-scheduler/src/eevdf.rs:1139-1147 | running for the rounded-up wall time brings the rounded-down virtual runtime to the deadline |
| EevdfArith.CeilDivCovers | crates/eevdf-scheduler/src/eevdf.rs:1139-1147 | the wait is the least whole number of nanoseconds worth the rest of the request |
| EevdfFair.SomeTaskNotAhead | crates/eevdf-scheduler/src/eevdf.rs:577-594 | the floored weighted average is at least the smallest virtual runtime, so some task is not ahead of it |
| EevdfFair.NoSaturation | crates/eevdf-scheduler/src/eevdf.rs:666-684 | below 2^47 queued tasks the 128-bit sums never reach their cap |
| EevdfFair.VirtualTimeComputed | crates/eevdf-scheduler/src/eevdf.rs:577-594 | the incremental formula gives the floored weighted average of all participants, or the old virtual time when that is later |
| EevdfFair.InsertKeeps | crates/eevdf-scheduler/src/eevdf.rs:647-673 | queueing a task keeps sums, count, trees, deadline bound and cache equal to a scan |
| EevdfFair.RemoveKeeps | crates/eevdf-scheduler/src/eevdf.rs:499-529 | unlinking a task keeps sums, count, trees, deadline bound and cache equal to a scan |
| EevdfFair.PromoteEnd | crates/eevdf-scheduler/src/eevdf.rs:453-474 | after promotion the eligible tree is exactly the tasks virtual time has caught up with, and a kept cache still answers as a scan would |
| EevdfFair.EligibleExists | crates/eevdf-scheduler/src/eevdf.rs:758-763 | with no ordinary task running and a non-empty queue, an eligible task exists after the virtual time update |
| EevdfFair.FrontIsBestOf | crates/eevdf-scheduler/src/eevdf.rs:531-546 | the first task of the trees has the least deadline among the eligible, and of equal deadlines the least queue id; if none is eligible it has the least virtual runtime, then deadline, then queue id |
| EevdfFair.CachedAnswer | crates/eevdf-scheduler/src/eevdf.rs:792-805 | an answer from the cache is the answer of a scan |
| EevdfFair.FreshAnswer | crates/eevdf-scheduler/src/eevdf.rs:806-841 | the outcome of the tree walk is that of a scan and makes a cache that keeps answering correctly |
| EevdfFair.ScanForPreemption | crates/eevdf-scheduler/src/eevdf.rs:806-841 | the walk with its deadline lower bound finds an eligible earlier deadline exactly when one exists, and otherwise the least virtual runtime of the queued tasks with an earlier deadline |
| EevdfFair.ChooseAccepted | crates/eevdf-scheduler/src/eevdf.rs:408-451 | takes, by that same order of fields, the first task the caller accepts; absent exactly when none is accepted |
| EevdfTask.PlacementBoundsLag | crates/eevdf-scheduler/src/eevdf.rs:596-635 | placement never leaves a task further from virtual time than two of its virtual slices |
| EevdfTask.MigrationKeepsLag | crates/eevdf-scheduler/src/eevdf.rs:407-420 | detaching and enqueueing on another queue gives the same lag exactly when the lag was within the limit and the result fits 64 bits |
| EevdfTask.PlaceEnters | crates/eevdf-scheduler/src/eevdf.rs:607-635 | in fields: a new task starts at virtual time, a migrated one with its saved lag, a woken one with its lag moved towards zero by the virtual time slept and not past it, all within two requests, and each with a whole request of max(1, base slice * 1024 / weight) |
| EevdfTask.LagComesBack | crates/eevdf-scheduler/src/eevdf.rs:596-635 | a task that stops with some lag and wakes later has that lag moved towards zero by the virtual time slept, while nothing clamps or saturates |
| EevdfTask.PreemptEnters | crates/eevdf-scheduler/src/eevdf.rs:713-716 | in fields: a preempted task keeps its virtual runtime, and its request unless it is used up |
| EevdfTask.YieldEnters | crates/eevdf-scheduler/src/eevdf.rs:717-729 | in fields: a yielding task that is eligible moves to its deadline and starts a whole request there |
| EevdfTask.AccountCharges | crates/eevdf-scheduler/src/eevdf.rs:227-252 | in fields: a charge through now moves the start mark to now, takes the time run from a round-robin slice, and adds it, scaled by weight, to the virtual runtime of an ordinary task |
| EevdfTask.ChargesAddUp | crates/eevdf-scheduler/src/eevdf.rs:227-252 | two charges of a round-robin task take as much as one |
| EevdfTask.FairChargesAddUp | crates/eevdf-scheduler/src/eevdf.rs:227-252 | two charges of an ordinary task give as much virtual runtime as one, less at most one unit |
| EevdfTask.SaveLagSaves | crates/eevdf-scheduler/src/eevdf.rs:596-605 | in fields: the saved lag is virtual time less virtual runtime within two requests, with the virtual time it was taken at |
| EevdfTask.StartedMeans | crates/eevdf-scheduler/src/eevdf.rs:939-949 | in fields: a started task without a request gets a whole one from virtual time |
| EevdfTask.RenewedTicks | crates/eevdf-scheduler/src/eevdf.rs:963-1015 | in fields: what a tick leaves of the running task |
| EevdfTask.ReprioritizedMeans | crates/eevdf-scheduler/src/eevdf.rs:870-892 | in fields: what a new priority leaves of the task |
| Eevdf.EnqueuedEnters | crates/eevdf-scheduler/src/eevdf.rs:686-737 | in fields: how a task, stopped first if it was running, enters the queue for each reason |
| Eevdf.StoppedStops | crates/eevdf-scheduler/src/eevdf.rs:739-756 | in fields: a task that stops is charged and its lag saved against the virtual time that follows |
| Eevdf.HighestPriority | crates/eevdf-scheduler/src/eevdf.rs:765-777 | the head of the first non-empty real-time queue has the highest queued priority |
| Eevdf.TimerAgreesWithTick | crates/eevdf-scheduler/src/eevdf.rs:1052-1092 | a tick at an announced deadline that did not saturate asks for a reschedule |
| Eevdf.NoTimerNoTick | crates/eevdf-scheduler/src/eevdf.rs:1052-1092 | when no deadline is announced, no later tick asks for a reschedule while the queues are unchanged |
| Eevdf.NoTimerPersists | crates/eevdf-scheduler/src/eevdf.rs:1052-1092 | whether a deadline is announced depends neither on the time nor on what ticks change |
| Eevdf.TimerExactly | crates/eevdf-scheduler/src/eevdf.rs:1052-1092 | a tick at the announced time, saturated or not, asks for a reschedule if and only if no wait was announced, the rest of the slice or request ends before the clock does, or a queued ordinary task has overtaken by then |
| Eevdf.SaturatedTimerMissed | crates/eevdf-scheduler/src/eevdf.rs:1052-1092 | a round-robin task that starts as the clock runs out is announced a reschedule that a tick at that time does not ask for |
| Eevdf.Scheduler.UpdateVirtualTime | crates/eevdf-scheduler/src/eevdf.rs:577-594 | virtual time becomes the weighted average of queued and running tasks and never goes back |
| Eevdf.Scheduler.PromoteNormalEligible | crates/eevdf-scheduler/src/eevdf.rs:453-474 | the loop leaves every queued task in the tree its virtual runtime calls for |
| Eevdf.Scheduler.InsertNormal | crates/eevdf-scheduler/src/eevdf.rs:647-664 | the task joins the queue, all other tasks stay, and every derived field equals a scan |
| Eevdf.Scheduler.HasEligiblePreemption | crates/eevdf-scheduler/src/eevdf.rs:792-841 | true exactly when a queued ordinary task is eligible and has an earlier deadline, whether answered from the cache or by a walk |
| Eevdf.Scheduler.StopTask | crates/eevdf-scheduler/src/eevdf.rs:739-756 | charges the running task and saves its lag; any other task is left alone |
| Eevdf.Scheduler.PickNormal | crates/eevdf-scheduler/src/eevdf.rs:758-763 | takes the eligible task with least deadline and queue id, else the one with least virtual runtime, deadline and queue id |
| Eevdf.Scheduler.PickAt | crates/eevdf-scheduler/src/eevdf.rs:765-777 | takes the head of the highest-priority non-empty real-time queue, else the reference choice among ordinary tasks; nothing exactly when all queues are empty |
| Eevdf.Scheduler.EnqueueAt | crates/eevdf-scheduler/src/eevdf.rs:686-737 | the task is queued once, real-time tasks at the head or tail of their own queue with the slice they keep or get anew, ordinary ones with the virtual runtime and whole request their reason calls for, written out in fields, and the next queue id; no other record changes, virtual time does not go back and the run queue stays sound |
| Eevdf.Scheduler.RemoveQueued | crates/eevdf-scheduler/src/eevdf.rs:779-790 | takes the task from whichever queue holds it and reports whether one did; bitmap bits stay exact and every queue keeps its order |
| Eevdf.Scheduler.Remove | crates/eevdf-scheduler/src/eevdf.rs:905-917 | takes a queued task off with its lag saved and refuses the running task |
| Eevdf.Scheduler.DetachNormalTask | crates/eevdf-scheduler/src/eevdf.rs:407-420 | takes an accepted ordinary task for migration, in selection order, with its lag saved |
| Eevdf.Scheduler.SetPriority | crates/eevdf-scheduler/src/eevdf.rs:843-893 | rejects a priority out of range without effect; otherwise a queued task is requeued where a migration at the virtual time without it would place it, or at the tail of its new real-time queue with a full slice, a running one keeps running from a virtual time that counts it first under its old and then under its new weight, every other task and the order of every queue stay, and virtual time does not go back |
| Eevdf.Scheduler.OnTaskStart | crates/eevdf-scheduler/src/eevdf.rs:939-949 | makes a detached task the running one, with a request from the current virtual time when it had none |
| Eevdf.Scheduler.OnTaskStop | crates/eevdf-scheduler/src/eevdf.rs:951-955 | charges the task up to now and saves its lag against the virtual time that follows; the queues stay as they are and virtual time does not go back |
| Eevdf.Scheduler.TickAt | crates/eevdf-scheduler/src/eevdf.rs:963-1015 | true exactly when the rule over a scan asks the running task, charged to that time, to give way; the task is charged, a used-up slice or request renewed, and nothing else changes but virtual time, which does not go back |
| Eevdf.Scheduler.NextPreemption | crates/eevdf-scheduler/src/eevdf.rs:1052-1092 | computes the announced deadline without changing the scheduler |
| Eevdf.Scheduler.Run | crates/eevdf-scheduler/src/eevdf.rs:548-1092 | over every run of operations the trees, sums, bound, cache and real-time queues stay what a scan computes, and neither the clock nor virtual time goes back |
| DirRecords.InsertAtMeaning | crates/ext4plus/src/dir.rs:233-281 | using a slot keeps the records tiling the block and adds exactly the one entry |
| DirRecords.RemoveAtMeaning | crates/ext4plus/src/dir.rs:392-421 | merging a record into its predecessor, or marking it unused, keeps the tiling and takes exactly that entry away |
| DirRecords.Pack | crates/ext4plus/src/dir.rs:961-1015 | entries are packed in order, the last record stretched to the end, exactly when there are some and they fit |
| DirRecords.SortByHash | crates/ext4plus/src/dir.rs:1136-1148 | the redistributed entries are a permutation ordered by hash, and by name where hashes are equal |
| DirRecords.NamesAreAlphabetical | crates/ext4plus/src/dir.rs:1136-1148 | the order of names is that of a prefix first, then of the first byte that differs |
| DirRecords.ChooseSplit | crates/ext4plus/src/dir.rs:914-959 | fits, has no split point, or is cut where the left half first exceeds half the block, with an odd separator between equal hashes |
| DirRecords.SeparatorSeparates | crates/ext4plus/src/dir.rs:944-958 | every left hash is below the separator and no right hash is below it with its low bit cleared |
| DirRecords.SplitHalvesFit | crates/ext4plus/src/dir.rs:914-959 | from 1048 usable bytes both halves of an overflowing leaf fit a block |
| DirRecords.SplitThreshold | crates/ext4plus/src/dir.rs:914-959 | both halves of every overflowing leaf fit if and only if the block has at least 1048 usable bytes |
| DirRecords.UnsplittableOverflows | crates/ext4plus/src/dir.rs:914-959 | below 1048 usable bytes, blocks of 1 KiB included, five distinct names make a leaf whose right half does not fit |
| DirRecords.SplitExists | crates/ext4plus/src/dir.rs:924-942 | from 528 usable bytes an overflowing leaf always has a cut with both sides non-empty |
| Bytes.LeRoundTrip | crates/bpf-capture/src/framing.rs:127-142 | decoding a little-endian field undoes encoding for every value that fits |
| DirBytes.EntryReads | crates/ext4plus/src/dir_entry.rs:240-331 | reading the bytes written for an entry gives back its inode, name, type and record length |
| DirBytes.CutAt | crates/ext4plus/src/dir_entry.rs:240-331 | a block falls apart into well-formed halves at every record boundary |
| DirBytes.InsertBytesMeaning | crates/ext4plus/src/dir.rs:243-268 | shortening a record and writing behind it yields exactly the two records intended |
| DirBytes.MergeBytesMeaning | crates/ext4plus/src/dir.rs:398-417 | extending the previous record over a removed one yields one record with the previous entry |
| DirEdit.WriteDirEntryBytes | crates/ext4plus/src/dir.rs:624-665 | writes header, name and zero padding in place, exactly when the record is long enough, inside the block and its length fits 16 bits; a short record or one past the block leaves the buffer untouched, and a length that does not fit is noticed with the inode already written |
| DirEdit.InsertInBlock | crates/ext4plus/src/dir.rs:233-281 | the edited block is tiled again and holds one entry more |
| DirEdit.RemoveInBlock | crates/ext4plus/src/dir.rs:392-421 | the edited block is tiled again and holds one entry less |
| DirEdit.PackLeafBlock | crates/ext4plus/src/dir.rs:961-1015 | the packed bytes parse to the packed records, and the whole block, checksum record included, to the given entries |
| DirEdit.ReadLeafEntries | crates/ext4plus/src/dir.rs:844-878 | returns all live entries of a block in order, or an error exactly when the block is malformed |
| LinearDir.CleanMeans | crates/ext4plus/src/dir.rs:159-228 | a scan passes exactly when the block is tiled by well-formed records and none has the name |
| LinearDir.ScanBlock | crates/ext4plus/src/dir.rs:159-228 | reports the first duplicate or malformed record, and otherwise the first record with enough bytes to spare, if any |
| LinearDir.InsertKeepsOnce | crates/ext4plus/src/dir.rs:115-281 | adding a name that was absent makes no duplicate |
| LinearDir.LinearDirectory.Init | crates/ext4plus/src/dir.rs:510-613 | a new directory is well formed and holds the two dot entries |
| LinearDir.LinearDirectory.Add | crates/ext4plus/src/dir.rs:115-334 | on a duplicate, malformed block or oversized name nothing is written; otherwise exactly one entry is added, in the first block with a record that has room, or in a new block exactly when none has, and blocks stay tiled and names unique |
| LinearDir.FindInBlock | crates/ext4plus/src/dir.rs:366-392 | finds the first record with the name and its predecessor, or none exactly when no live record has it |
| LinearDir.AllEmpty | crates/ext4plus/src/dir.rs:423-445 | true exactly when the block has no live record |
| LinearDir.TruncateEmpty | crates/ext4plus/src/dir.rs:447-469 | cutting off an empty last block changes no contents |
| LinearDir.LinearDirectory.Remove | crates/ext4plus/src/dir.rs:340-497 | takes exactly one entry with the name away, refuses the dot entries, reports an absent name, keeps blocks tiled and names unique, and cuts off the last block exactly when it is left empty and is not the first |
| HtreeLevels.Descend | crates/ext4plus/src/dir_htree.rs:441-506 | choosing the last child whose key does not exceed the hash leads to the right node one level down |
| HtreeLevels.SplitKeepsNext | crates/ext4plus/src/dir_htree.rs:775-861 | cutting an index node in two leaves the level below as it was |
| HtreeLevels.InsertChildEffect | crates/ext4plus/src/dir_htree.rs:887-961 | a new child appears in the level below right after its sibling |
| HtreeTree.SplitKeeps | crates/ext4plus/src/dir_htree.rs:762-861 | splitting an index node keeps the tree well formed and every leaf in place |
| HtreeTree.SplitPathOk | crates/ext4plus/src/dir_htree.rs:854-868 | the lookup path updated by the split still leads to the same leaf |
| HtreeTree.RootSplitKeeps | crates/ext4plus/src/dir_htree.rs:676-760 | splitting the root adds a level and keeps the tree well formed, whatever its depth |
| HtreeTree.RootSplitPathOk | crates/ext4plus/src/dir_htree.rs:748-759 | the lookup path updated by the root split still leads to the same leaf |
| HtreeTree.WriteGains | crates/ext4plus/src/dir.rs:1061-1156 | rewriting a leaf with one more entry keeps every hash in the range of its leaf and names unique |
| HtreeTree.LeafSplitGains | crates/ext4plus/src/dir.rs:1158-1192 | a leaf split stores the old entries and the new one, each in a leaf its hash leads to, even across an odd separator |
| HtreeSearch.LookupEntryByHash | crates/ext4plus/src/dir_htree.rs:211-231 | the binary search finds the last child whose key does not exceed the hash; absent only for an empty node |
| HtreeSearch.ClimbFound | crates/ext4plus/src/dir_htree.rs:527-553 | after the turn every lower level moves one node to the right, to a node with the separator of the turn |
| HtreeSearch.SearchIsComplete | crates/ext4plus/src/dir_htree.rs:391-397 | a name is in no leaf before the first one searched and in none after the chain of collision leaves ends |
| HtreeBag.SplitBag | crates/ext4plus/src/dir.rs:1158-1192 | a leaf split exchanges the leaf's entries for those of both halves and nothing else |
| HtreeGrow.GrownKeeps | crates/ext4plus/src/dir_htree.rs:657-871 | index splits change no stored entry |
| HtreeGrow.SplitRoom | crates/ext4plus/src/dir_htree.rs:762-871 | once the parent has room, splitting the node gives room at the node and keeps the path |
| Htree.Directory.FindLeaf | crates/ext4plus/src/dir_htree.rs:441-506 | ends at the last node of each level whose separator does not exceed the hash |
| Htree.Directory.Advance | crates/ext4plus/src/dir_htree.rs:511-594 | moves to the next leaf exactly when there is one and its separator is the hash itself or the odd number above it |
| Htree.Directory.Locate | crates/ext4plus/src/dir_htree.rs:983-1006 | finds an entry with the name exactly when one is stored, as long as the depth byte is right |
| Htree.Directory.Lookup | crates/ext4plus/src/dir_htree.rs:973-1007 | returns exactly the stored entry of the name while the depth byte is right, and nothing but the dot entries once it is wrong |
| Htree.Directory.InsertChild | crates/ext4plus/src/dir_htree.rs:887-961 | inserts the child behind its sibling, or refuses exactly when the node is full |
| Htree.Directory.SplitRoot | crates/ext4plus/src/dir_htree.rs:676-760 | moves the root's entries one level down and sets the depth byte to one |
| Htree.Directory.EnsureRoom | crates/ext4plus/src/dir_htree.rs:657-871 | makes room at the node, keeps all leaves and the path, and adds a level exactly when every node of the path is full |
| Htree.Directory.Redistribute | crates/ext4plus/src/dir.rs:1136-1192 | repacks or splits a leaf without a slot; on an error the contents are as before |
| Htree.Directory.Add | crates/ext4plus/src/dir.rs:1019-1193 | refuses exactly the existing names, otherwise every name found before is still stored with its inode and the new one too; the depth byte stays right if and only if the insertion does not split the root of a tree that already had an index level below it |
| Htree.PathFullIsIndexFull | crates/ext4plus/src/dir_htree.rs:657-760 | the path is full exactly when, at each index level, the node for the hash is full |
| Htree.Directory.Remove | crates/ext4plus/src/dir.rs:1197-1303 | takes exactly the entry of the name away and leaves the shape of the tree; without such a name nothing changes |
| Htree.Directory.AddAll | crates/ext4plus/src/dir.rs:1019-1193 | over every run of insertions that stops before a full root with an index level below it, what lookups find is exactly what was stored and what was added |
| HtreeExample.LoseEveryName | crates/ext4plus/src/dir_htree.rs:739 | in every tree with an index level below the root, an insertion that splits the root succeeds, keeps every entry stored, and leaves no name that a lookup finds |
| HtreeExample.RootSplitLosesNames | crates/ext4plus/src/dir_htree.rs:739 | in a directory of 4096-byte blocks with a full path, sixteen names that were found are not found after a seventeenth has been added |
| CaptureCodec.StringRoundTrip | crates/bpf-capture/src/codec.rs:8-29 | a string below 2^32 bytes is decoded from wherever it was encoded |
| CaptureSchema.Register | crates/bpf-capture/src/schema.rs:81-87 | a schema replaces the one with its id or goes to the end, so ids stay distinct |
| CaptureSchema.RegisterFinds | crates/bpf-capture/src/schema.rs:81-95 | the registered schema is the one found and no other id is affected |
| CaptureSchema.ValidateMeans | crates/bpf-capture/src/schema.rs:103-126 | a record passes exactly when the schema of its id has its version and the length of its payload; otherwise a version mismatch is reported before a length mismatch |
| CaptureSchema.RegistryRoundTrip | crates/bpf-capture/src/schema.rs:192-283 | decoding gives back the registry and its length, whatever follows |
| CaptureSchema.WriteRegistry | crates/bpf-capture/src/schema.rs:192-219 | the loops emit the count and each schema with its fields in order |
| CaptureSchema.ReadRegistry | crates/bpf-capture/src/schema.rs:222-283 | the loops decode as many schemas as announced and stop at the first error |
| CaptureSession.CountersRoundTrip | crates/bpf-capture/src/session.rs:108-204 | all thirteen counters and the per-CPU losses survive encoding |
| CaptureSession.ConfigRoundTrip | crates/bpf-capture/src/session.rs:228-326 | the configuration survives encoding |
| CaptureSession.MetadataRoundTrip | crates/bpf-capture/src/session.rs:340-379 | configuration, times, status and counters survive encoding |
| CaptureSession.WriteCounters | crates/bpf-capture/src/session.rs:108-132 | the loop emits the per-CPU losses behind the fixed counters |
| CaptureSession.ReadCounters | crates/bpf-capture/src/session.rs:134-204 | decodes the counters, or reports truncation exactly when bytes are missing |
| CaptureFile.EventRoundTrip | crates/bpf-capture/src/record.rs:45-96 | a record survives encoding, whatever follows it |
| CaptureFile.EventsRoundTrip | crates/bpf-capture/src/reader.rs:54-61 | a section of valid records decodes to the same records in order |
| CaptureFile.HeaderRoundTrip | crates/bpf-capture/src/framing.rs:127-185 | the 80-byte header survives encoding |
| CaptureFile.TrailerRoundTrip | crates/bpf-capture/src/framing.rs:220-259 | the 40-byte trailer survives encoding |
| CaptureFile.FromBytes | crates/bpf-capture/src/reader.rs:23-78 | returns the first error in the order header, trailer, counts, checksum, metadata, records, record count, or a sound capture |
| CaptureFile.ReadRecords | crates/bpf-capture/src/reader.rs:51-61 | decodes and validates records to the end of their section, or stops at the first bad one |
| CaptureFile.ReadUndoesWrite | crates/bpf-capture/src/writer.rs:178-211 | reading a finished file gives back registry, metadata, status and records in order |
| CaptureFile.AcceptedIsSound | crates/bpf-capture/src/reader.rs:23-78 | whatever the bytes, an accepted capture has distinct schema ids, records that all match their schema, counts and sizes that agree with header and trailer, and a matching checksum |
| CaptureFile.OneByteIsDetected | crates/bpf-capture/src/reader.rs:33-36 | any change of one byte between header and trailer is reported as a checksum mismatch |
| CaptureFile.OneByteIsRefused | crates/bpf-capture/src/reader.rs:23-36 | any change of one byte before the trailer, other than in the trailer offset, makes the reader report an error |
| CaptureFile.TrailerByte | crates/bpf-capture/src/reader.rs:23-36 | a changed byte of the trailer is reported if and only if it lies in the magic, the counts or the checksum; a changed status goes unnoticed and the records are read unchanged |
| CaptureChecksum.BitStepInjective | crates/bpf-capture/src/framing.rs:294-297 | the register step of the code is injective |
| CaptureChecksum.WideKeepsValue | crates/bpf-capture/src/framing.rs:293 | a byte enters the register with its own value and touches only the low eight bits |
| CaptureChecksum.ByteStepInjective | crates/bpf-capture/src/framing.rs:292-298 | with the state fixed the byte step is injective in the byte, with the byte fixed in the state |
| CaptureChecksum.OneByteChangesChecksum | crates/bpf-capture/src/framing.rs:290-300 | changing any one byte changes the checksum |
| CaptureChecksum.RegistersApart | crates/bpf-capture/src/framing.rs:289-300 | the register differs from that of IEEE 802.3 by a word that depends on the length of the data only |
| CaptureChecksum.IeeeExactly | crates/bpf-capture/src/framing.rs:289-300 | the checksum is the one of IEEE 802.3 if and only if that word is zero for the length; it is on empty data |
| CaptureChecksum.OneByteNotIeee | crates/bpf-capture/src/framing.rs:289-300 | on every single byte the checksum differs from the one of IEEE 802.3 |
| CaptureChecksum.NeverTwiceInARow | crates/bpf-capture/src/framing.rs:289-300 | if the two agree on data of some length, they differ on all data one byte longer |
| CaptureChecksum.ComputeChecksum | crates/bpf-capture/src/framing.rs:290-300 | the nested loops compute the register over all bytes and complement it |
| CaptureWriting.AddLost | crates/bpf-capture/src/session.rs:58-65 | adds to the entry of the CPU or to a new one, saturating, and leaves every other CPU alone |
| CaptureWriting.RingFrameCarries | crates/bpf-capture/src/writer.rs:149-175 | a committed ring buffer frame yields its payload, a discarded or busy one does not |
| CaptureWriting.PerfFrameCarries | crates/bpf-capture/src/writer.rs:97-134 | a sample frame of the perf buffer yields its payload |
| CaptureWriting.PerfLossCarries | crates/bpf-capture/src/writer.rs:122-129 | a loss frame of the perf buffer yields its count |
| CaptureWriting.TracepointCarries | crates/bpf-capture/src/record.rs:97-126 | a tracepoint sample laid out from the fields of an event yields that event |
| CaptureWriting.PerfEventCarries | crates/bpf-capture/src/record.rs:128-156 | a software event sample laid out from the fields of an event yields that event, period and address as its payload |
| CaptureWriting.CaptureWriter.Start | crates/bpf-capture/src/session.rs:417-425 | a session starts once |
| CaptureWriting.CaptureWriter.WriteRecord | crates/bpf-capture/src/writer.rs:49-60 | a record is accepted exactly when the session runs and the record matches its schema; one attempt and one delivery are counted, and otherwise nothing changes |
| CaptureWriting.CaptureWriter.IngestPerfSample | crates/bpf-capture/src/writer.rs:63-89 | a sample becomes the record it stands for with the given CPU, counted as attempted and delivered; a running session counts one corrupt sample when there is no such record, and nothing else changes |
| CaptureWriting.CaptureWriter.IngestPerfLost | crates/bpf-capture/src/session.rs:432-435 | lost events count as attempts, in the total and against their CPU; every other CPU and counter stays |
| CaptureWriting.CaptureWriter.IngestRingbufLost | crates/bpf-capture/src/session.rs:437-440 | ring buffer losses count as attempts |
| CaptureWriting.CaptureWriter.IngestRawPerfFrame | crates/bpf-capture/src/writer.rs:97-134 | a frame is ingested as sample, loss or corruption, with the records, attempts and counters each of these leaves |
| CaptureWriting.CaptureWriter.IngestRawRingbufFrame | crates/bpf-capture/src/writer.rs:149-175 | a frame is ingested as a sample with its counters, counted as discarded or corrupt, or left alone while busy |
| CaptureWriting.CaptureWriter.Finish | crates/bpf-capture/src/writer.rs:178-211 | a running session ends with a file from which the reader recovers exactly the accepted records, the registry, the configuration, both times, the counters and the status: an error if any error was counted, else a loss if any loss was, else complete; while the attempts fit 64 bits, delivered is the record count and attempted is delivered plus both kinds of loss |
| CaptureWriting.WriterFileOk | crates/bpf-capture/src/writer.rs:178-211 | what a writer run produces meets the conditions of the round trip when texts are valid, lengths fit 32 bits and the file 64 |
| Stats.StepBooks | crates/bpf-analyzer/src/stats.rs:88-207 | after every event each task and CPU counter is the saturated sum of its intervals |
| Stats.TimeIsPartitioned | crates/bpf-analyzer/src/stats.rs:88-245 | interval time summed over tasks, or over CPUs, is the time of all intervals |
| Stats.TimeIsConserved | crates/bpf-analyzer/src/stats.rs:78-245 | without saturation on-CPU time over tasks equals busy plus idle time over CPUs and the sum of all durations |
| Stats.StepChains | crates/bpf-analyzer/src/stats.rs:110-157 | for events in time order the intervals of one CPU stay apart |
| Stats.StepCovers | crates/bpf-analyzer/src/stats.rs:110-157 | while every switch names the running task, the intervals of a CPU cover all time since its first switch |
| Stats.StepWaits | crates/bpf-analyzer/src/stats.rs:158-194 | a block is active exactly until the next block or wake with its task and sequence number; the k-th wait spans the block ended by the k-th wake that ended one, and all other wakes are counted |
| Stats.PairedWakesExact | crates/bpf-analyzer/src/stats.rs:158-194 | the listed wakes are exactly those that find their block open, once each and in order, and with the unpaired ones they are all wakes |
| Stats.StepCounted | crates/bpf-analyzer/src/stats.rs:88-207 | event, switch, sample, block and wake counters equal the number of such events |
| Stats.StepEntered | crates/bpf-analyzer/src/stats.rs:88-207 | exactly the tasks and CPUs that some event names have an entry |
| StatsRuns.StepRuns | crates/bpf-analyzer/src/stats.rs:110-157 | after every event the intervals are exactly the runs that a switch has ended |
| StatsRuns.RunsClosingEnd | crates/bpf-analyzer/src/stats.rs:209-245 | at the end the intervals are exactly the runs: from each switch to the next on its CPU, if that names the task as leaving, or to the last event |
| StatsCompute.Compute | crates/bpf-analyzer/src/stats.rs:78-245 | for the result: one interval, and no other, for each switch whose task then ran for some time, on its CPU, for its task, from its time to that of the next switch there or of the last event; time conserved, intervals of a CPU disjoint and, with matching switches, covering its time up to the last event; one wait for each wake that ended a block, in order, and every other wake counted as unpaired; all event counts per CPU and task, exactly the named tasks and CPUs, and the reported losses |
| IrqMailbox.PackRoundTrip | crates/dwmmc-host/src/host.rs:182-192 | generation and status can be read back from the packed word |
| IrqMailbox.UnpackRoundTrip | crates/dwmmc-host/src/host.rs:182-192 | every word is the packing of its generation and status |
| IrqMailbox.CacheKeepsInv | crates/dwmmc-host/src/host.rs:100-118 | a round of the caching loop keeps the invariant, whether it wins, loses or gives up |
| IrqMailbox.TakeKeepsInv | crates/dwmmc-host/src/host.rs:124-141 | a round of the taking loop keeps the invariant |
| IrqMailbox.ClearKeepsInv | crates/dwmmc-host/src/host.rs:143-156 | a round of the clearing loop keeps the invariant |
| IrqMailbox.BeginKeepsInv | crates/dwmmc-host/src/host.rs:90-94 | storing a new generation keeps the invariant |
| IrqMailbox.NextKeepsInv | crates/dwmmc-host/src/host.rs:90-179 | every interleaved step keeps the invariant |
| IrqMailbox.RunKeepsInv | crates/dwmmc-host/src/host.rs:90-179 | the invariant holds in every state of every run |
| IrqMailbox.CachedWhileCurrent | crates/dwmmc-host/src/lib.rs:1357-1384 | bits enter the mailbox only when every register read of the handler was made while the request was current |
| IrqMailbox.CachedAsRead | crates/dwmmc-host/src/lib.rs:1357-1384 | a winning round joins in exactly the bits read: each raw bit, bit 30 also for an enabled DMA completion, bit 31 also for an enabled DMA error |
| IrqMailbox.PassedOver | crates/dwmmc-host/src/host.rs:100-104 | the handler passes over the mailbox exactly without a request or with no bit to tell |
| IrqMailbox.StaleBitsNeverArrive | crates/dwmmc-host/src/host.rs:100-141 | bits in the mailbox, and bits a task takes, were read under the generation of the request that gets them |
| IrqMailbox.BitsAreConserved | crates/dwmmc-host/src/host.rs:90-156 | each appearance of a bit ends in exactly one take, clear, begin or end, or is still there |
| IrqMailbox.TakenExactly | crates/dwmmc-host/src/host.rs:124-141 | a take returns exactly the bits it saw under its mask, and the word loses exactly those |
| IrqMailbox.ClearedExactly | crates/dwmmc-host/src/host.rs:143-156 | a clear takes exactly the bits of its mask out of the word |
| IrqMailbox.NumbersAreFresh | crates/dwmmc-host/src/host.rs:163-179 | the next generation is one more than the last, was never stored, is not zero and fits 32 bits |
| IrqMailbox.GenerationNeverReturns | crates/dwmmc-host/src/host.rs:90-94 | a stored generation was never stored before |

## Left out

- Record locks: `resolve_range`, `get_lock` and the system call layer, which only add easy members; signals appear as a nondeterministic early exit from the wait.
- Scheduler: `candidate_preempts`, `set_rt_policy_at` and the adapter to the kernel's scheduler trait, which add no property beyond those shown; queue ids are assumed not to wrap.
- Directories: blocks of 64 KiB without checksums, where a record length does not fit its field and the code reports corruption; disk-full and I/O errors; the value of the block checksum.
- Htree.Directory.Add: requires a right depth byte, because with a wrong one the code would write records into an index block.
- Hash trees: creating an index, encrypted directories, errors in the middle of an update other than running out of block numbers.
- DirRecords.SplitThreshold: is stated from 544 usable bytes, because ext4 has no blocks below 1 KiB.
- HtreeExample.RootSplitLosesNames: is stated for hashes that send the seventeen names to the last leaf, because the hash functions themselves are not modelled.
- Capture files: `default_pulse_registry`, name lookup in the registry, and the session counters no writer method touches.
- CaptureFile.FromBytes: reports an error for header offsets and sizes whose sum exceeds 64 bits, where the addition in the code overflows.
- CaptureWriting.CaptureWriter.Finish: the reader part is stated for valid texts, lengths below 2^32 and files below 2^64 bytes, because longer lengths are cut when written.
- Statistics: task names and per-name event counts, which are copied along.
- Mailbox: wrap-around of the 32-bit generation counter, acknowledging registers, and the event derived from the status.
- `flock`, allocators, block device drivers, boot and system call code are not modelled.
