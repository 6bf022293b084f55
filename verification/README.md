# Verification of the AF_XDP rings, sessions and accounting

This project models the user-space side of Linux AF_XDP sockets as xdpilone implements it, and proves
what its rings, sessions, chunk arithmetic, device registry and multi-threaded flood example promise.

The core is one single-producer/single-consumer ring. Two shared 32-bit heads run free and wrap; each
side keeps a lagging copy of the other side's head; slots are reached by masking. On top of it a session
reserves (or peeks) entries, writes (or reads) slots through an index iterator, commits (or releases), and
rolls back on drop. The proofs relate this form, with its wrapping words, stale caches and masks, to a
plain unbounded FIFO.

| file | content |
|---|---|
| `options.dfy` | the option type |
| `words.dfy` | 32-bit wrapping arithmetic, bitwise `&`, power-of-two masks, entry addresses |
| `ring_spec.dfy` | what one ring call computes from cached and loaded words, what that means over unbounded heads, and the slot memory read as a queue |
| `ring.dfy` | the classes `SharedRing`, `RingProd`, `RingCons` |
| `user.dfy` | the classes `BufIdxIter`, `WriteSession` (`WriteFill`/`WriteTx`), `ReadSession` (`ReadComplete`/`ReadRx`) |
| `batch.dfy` | whole sessions, as the flood example runs them |
| `ideal.dfy` | the ring as it is meant, over unbounded indices, and the proof that `system.dfy` refines it |
| `system.dfy` | a writer and a reader on one ring, interleaved access by access; bookkeeping and FIFO |
| `safety.dfy` | what each side may rely on, live slots, cached limits, when sessions open empty |
| `workflow.dfy` | exactly when an insert or a read keeps the FIFO, and two runs in which one does not |
| `traps.dfy` | the plain operators under overflow checks |
| `flood.dfy`, `flood_overtake.dfy`, `flood_join.dfy` | the sender/completer accounting for any number of threads, for which parameters completions overtake sends, and that the threads can always finish |
| `chunks.dfy` | frames of a Umem and their descriptors |
| `devices.dfy` | the control set of taken interface queues |

## How the parts fit

The methods of the classes and the actions of `System` use the same functions of `RingSpec`
(`Reserve`, `Peek`, `NextCursor`, `CommitCursor`). In the classes the other side of the ring is a kernel
bound only by its obligations: `KernelConsumes` and `KernelProduces` run before every shared load whose
outcome they can change. `Safety.ReaderOnlyConsumes` and `Safety.WriterOnlyAppends` prove that the
library's own reader, and its writer while its sessions are orderly, meet those obligations, so the same
contracts serve between two library ends in the documented workflow. In `System` every action holds at most one access to shared memory, so an arbitrary sequence of
actions is an arbitrary interleaving; an action whose thread is elsewhere changes nothing, so no run is
excluded. Memory is sequentially consistent. `Ideal.MachineIsIdeal` proves that this machine refines a ring over
unbounded indices, without words, masks, caches or handles.

Arithmetic is the release profile's, which wraps. `Traps` treats the checked profile separately, and says
exactly which runs trap.

The flood example binds socket `i` to device queue `i` modulo their number (`examples/flood-mt.rs:66-78`), and a
completer owns the completion ring of one device queue. `Flood` routes completions the same way. The example
never starts more completers than senders; the results hold for any numbers of both.

## Where the code does less than its documentation says

The documentation of the sessions asks for insertions in any order followed by one commit
(`src/xsk/user.rs:179-180`). `BufIdxIter::next` advances `base`, and a commit advances it again by the same
count (`src/xsk/user.rs:234`, `src/xsk/user.rs:273`). After a commit of some entries with slots remaining,
the next insert therefore goes to the wrong slot, and can overwrite a published entry
(`Workflow.PublishedEntryLost`); a read after a release of part of its session skips an unread entry
(`Workflow.UnreadEntrySkipped`). `RingSpec.SlotAgreement`, `Workflow.InsertKeepsFifoExactly` and
`Workflow.ReadKeepsFifoExactly` give the exact condition, in both directions: the session has not published
(released) anything yet. `Safety.OverwritesExactly` says exactly when the misplaced write hits a live entry.
The counters stay right in any order of calls (`System.CountersAlways`).

A producer ring is sound exactly when its two heads are equal at mapping (`RingSpec.MappingPrecondition`).

`zip` polls the item source before the slot iterator, so `insert` consumes one item more than it writes when
the slots run out; the contract of `User.WriteSession.Insert` says exactly when.

With two or more device queues the flood example can publish more completions than sends: a completer adds what
its queue completed, also before the sender has published it (`FloodOvertake.OvertakeExactly` says for which
parameters). Its exit test is on `total`, which completions never
pass (`Flood.CompletedNeverPassesTotal`).

## Model

| member | source | states |
|---|---|---|
| `Ideal.MachineIsIdeal` | src/xsk/ring.rs:151-364 | every run from every mapping, in any interleaving and any order of calls, with its words, masks and stale caches, is step by step the run of a ring over unbounded indices without any of them |
| `Ideal.StepRefines` | src/xsk/user.rs:228-286 | in every reachable state each access (open, insert, commit, drop, peek, read, release) does what the same access of that ideal ring does: counts, slots, heads, limits and histories |
| `System.EndToEndFifo` | src/xsk/ring.rs:151-364 | for every interleaving of both sides in the documented workflow, any initial head, any number of wraps: released entries followed by the slots between the two shared words equal the committed entries, and the open read session holds the oldest of them |
| `System.CountersAlways` | src/xsk/ring.rs:151-364 | for every interleaving and any order of session calls: consumer <= producer <= cached producer <= cached limit <= consumer + size over unbounded heads, and the mirrored chain for the consumer side |
| `System.SessionConservation` | src/xsk/user.rs:262-360 | in machine words, after any run: a cache differs from its own shared head by exactly the entries its session still holds, and dropping the session makes them agree |
| `System.WriterDrops` | src/xsk/user.rs:325-332 | the drop of a write session makes the cache the shared word, leaves slots, words and history alone, and the next session on a ring that is not full starts at that word |
| `System.ReaderDrops` | src/xsk/user.rs:353-360 | the drop of a read session makes the cache the shared word and touches nothing else, and the next session starts at that word again |
| `System.WriterKeepsContents` | src/xsk/user.rs:310-332 | every orderly writer access keeps the queue, what the session inserted, and what the reader has taken |
| `System.ReaderKeepsContents` | src/xsk/user.rs:341-360 | every orderly reader access keeps the queue, what the session has taken, and what the writer inserted |
| `System.ReaderMapsAnyTime` | src/xsk/ring.rs:25-46 | mapping the reader's end anew at any moment of a run keeps the bookkeeping |
| `System.WriterMapsExactly` | src/xsk/ring.rs:25-46 | mapping the writer's end anew keeps it if and only if the ring is empty |
| `Safety.ReaderOnlyConsumes` | src/xsk/ring.rs:356-364 | the reader changes only its own word and never passes the producer head |
| `Safety.WriterOnlyAppends` | src/xsk/ring.rs:203-211 | the orderly writer changes only its own word and free slots, never exceeds one ring, and the old queue is a prefix of the new one |
| `Safety.OverwritesExactly` | src/xsk/user.rs:310-317 | an insert hits a live slot if and only if its position reaches consumer + size; never before the session published something |
| `Safety.NoLiveOverwrite` | src/xsk/user.rs:310-317 | a slot written in the documented workflow is not live when written, and no actions of either side make it live until a commit stores the new head |
| `Safety.WriterLimitIsPast` | src/xsk/ring.rs:161-167 | in every reachable state the cached consumer limit is the consumer head loaded by the last refresh plus size; the initial limit only before any refresh |
| `Safety.ReaderLimitIsPast` | src/xsk/ring.rs:308-312 | in every reachable state the cached producer limit is the producer head loaded by the last refresh; the initial limit only before any refresh |
| `Safety.OpenGrants` | src/xsk/user.rs:251-260 | a write session gets up to `n` of what the cache shows free, or of all that is free at the load if it shows nothing; empty exactly when 0 was asked for or the ring is full |
| `Safety.PeekGrants` | src/xsk/user.rs:240-249 | a read session gets up to `n` of what the cache shows published, or of all that the first load shows if it shows nothing, whatever the writer does between the two loads; empty exactly when 0 was asked for or nothing is published at that load |
| `Workflow.InsertKeepsFifoExactly` | src/xsk/user.rs:262-275 | an insert keeps the FIFO for two different items if and only if its session has published nothing yet |
| `Workflow.ReadKeepsFifoExactly` | src/xsk/user.rs:277-285 | with distinct slot contents, a read hands out the oldest unread entry if and only if its session has released nothing yet |
| `Workflow.PublishedEntryLost` | src/xsk/user.rs:269-274 | a concrete run: reserve 4, insert 3, commit, insert 1 overwrites the third published entry |
| `Workflow.UnreadEntrySkipped` | src/xsk/user.rs:277-286 | a concrete run: peek 3 of 4 entries, read 1, release, read 1 hands out the third entry and not the second |
| `Workflow.InsertsTakePrefix` | src/xsk/user.rs:300-304 | of any number of single inserts exactly the first `remain` land, in order |
| `Traps.TrapFreeExactly` | src/xsk/ring.rs:161-193 | any mapping, any run, any order of calls: no plain operator overflows if and only if no refresh happens less than one ring below 2^32 and no second advance of `base` crosses it; such a run never reserves past 2^32 - 1 |
| `Traps.TrapFreeRun` | src/xsk/ring.rs:161-193 | no plain operator overflows on any run, repeated commits included, whose heads stay at or below 2^32 - 1 - size |
| `Traps.RefreshTrapsExactly` | src/xsk/ring.rs:161-167 | the refresh of `count_free` traps if and only if consumer + size does not fit in 32 bits |
| `Traps.BoundTight` | src/xsk/ring.rs:165 | one head past the bound, the first session of a fresh ring traps |
| `RingSpec.CountFreeSound` | src/xsk/ring.rs:151-168 | the free count is the exact unbounded difference and never more than what is free; a refresh makes it exactly what is free |
| `RingSpec.ReserveExact` | src/xsk/ring.rs:174-187 | no false full, and the exact count: granted if and only if `start` entries are free at the load; up to `end` of what the cache shows, or of all that is free if the cache shows fewer than `start`; the rest stays cached |
| `RingSpec.CountAvailableSound` | src/xsk/ring.rs:302-315 | with the peer publishing between the two loads, the count covers the first load and the cache the second |
| `RingSpec.PeekExact` | src/xsk/ring.rs:330-343 | no false empty, and the exact count: granted if and only if `start` entries are visible at the first load; up to `end` of what the cache shows, or of what the first load shows; the rest, up to the second load, stays cached |
| `RingSpec.MappingPrecondition` | src/xsk/ring.rs:25-46 | a fresh producer handle is sound, and its first `count_free(1)` bounded, if and only if the heads are equal; a fresh consumer handle always is, and sees exactly what is published |
| `RingSpec.SlotAgreement` | src/xsk/user.rs:228-286 | the next index selects the next slot of the head if and only if the session has not advanced the head |
| `RingSpec.CursorKept` | src/xsk/user.rs:228-286 | the cursor stays `done` ahead of its head through every `next` and every commit or release |
| `Window.FilledExtends` | src/xsk/user.rs:310-317 | items written at consecutive masked indices behind a window extend it in order |
| `Window.FilledKeeps` | src/xsk/user.rs:310-317 | and leave every window they stay clear of unchanged |
| `Words.SlotIsModulo` | src/xsk/ring.rs:129-145 | masking the wrapped head is the unbounded head modulo size |
| `Words.SlotsDistinct` | src/xsk/ring.rs:280-297 | within any `size` consecutive indices, equal slots mean equal indices |
| `Words.EntryInsideMapping` | src/xsk/ring.rs:55 | every 32-bit index selects an entry inside the mapped length |
| `Words.EntryLayout` | src/xsk/ring.rs:55 | index 0 selects the entry at the `desc` offset, each next index the next entry, the last entry ends the mapped length, and the index after it selects the first again |
| `Words.EntriesDisjoint` | src/xsk/ring.rs:129-145 | entries of different indices in a window of size never overlap, also across the 2^32 wrap |
| `Ring.RingProd.constructor` | src/xsk/ring.rs:25-46 | copies the words; sound exactly when the heads are equal |
| `Ring.RingProd.CountFree` | src/xsk/ring.rs:151-168 | computes `RingSpec.CountFree` on the consumer word at its load, while the kernel drains the queue; on a sound handle the cached count, or exactly what is free at the load if that is below the minimum |
| `Ring.RingProd.Reserve` | src/xsk/ring.rs:174-187 | computes `RingSpec.Reserve` and holds exactly what it grants; on a sound handle up to `end` of the cached count or of what is free at the load, and 0 exactly when fewer than `start` are free |
| `Ring.RingProd.Cancel` | src/xsk/ring.rs:192-194 | hands entries back; the handle stays sound if and only if it held them |
| `Ring.RingProd.Submit` | src/xsk/ring.rs:203-211 | the queue the kernel drains grows by exactly the `nb` slots behind the head |
| `Ring.RingProd.CountPending` | src/xsk/ring.rs:219-224 | the exact length of the queue |
| `Ring.RingProd.Entry` | src/xsk/ring.rs:129-145 | the masked slot of an index |
| `Ring.RingCons.constructor` | src/xsk/ring.rs:25-46 | copies the words; sound for any heads |
| `Ring.RingCons.CountAvailable` | src/xsk/ring.rs:302-315 | computes `RingSpec.CountAvailable` with the kernel running before each of the two loads; on a sound handle the cached count, or exactly what the first load shows if that is below `expected` |
| `Ring.RingCons.Peek` | src/xsk/ring.rs:330-343 | computes `RingSpec.Peek` and holds exactly what it grants; on a sound handle up to `end` of the cached count or of what the first load shows, and 0 exactly when that is fewer than `start` |
| `Ring.RingCons.Cancel` | src/xsk/ring.rs:348-350 | hands entries back; the handle stays sound if and only if it held them |
| `Ring.RingCons.Release` | src/xsk/ring.rs:356-364 | frees exactly the `nb` oldest entries, the slots behind the old tail, whatever the kernel appends |
| `Ring.RingCons.CountPending` | src/xsk/ring.rs:323-328 | between the queue length before and after the call |
| `User.BufIdxIter.Next` | src/xsk/user.rs:228-237 | yields `base` while entries remain, then nothing |
| `User.BufIdxIter.Reserve` | src/xsk/user.rs:251-260 | on any handle, a cursor over exactly the entries granted; on a sound idle one, min(n, what the cache shows free, or all that is free if none) |
| `User.BufIdxIter.Peek` | src/xsk/user.rs:240-249 | a cursor over exactly min(n, what the cache shows published, or all that the first load shows if none) entries |
| `User.BufIdxIter.CommitProd` | src/xsk/user.rs:262-275 | moves the words and the cursor by the indices handed out since the last commit, on any handle; from a sound handle that holds them the queue grows by exactly their slots |
| `User.BufIdxIter.ReleaseCons` | src/xsk/user.rs:277-286 | moves the words and the cursor by the indices handed out since the last release, on any handle; from a sound handle that holds them exactly the oldest entries leave the queue |
| `User.ItemSource.Poll` | src/xsk/user.rs:312 | one `next` of any finite or infinite source |
| `User.WriteSession.constructor` | src/xsk/user.rs:9-14 | opens with exactly what the ring grants, on any handle; on a sound idle one, min(n, what the cache shows free, or all that is free if none), so empty exactly when 0 was asked for or the ring is full |
| `User.WriteSession.Insert` | src/xsk/user.rs:310-317 | terminates for any source, writes exactly its first min(length, remain) items in order to consecutive slots and nothing else, consumes min(length, remain + 1), so an item is lost if and only if the source holds more than `remain`, and leaves the queue alone in an orderly session |
| `User.WriteSession.InsertOnce` | src/xsk/user.rs:302-304 | succeeds exactly while slots remain |
| `User.WriteSession.Commit` | src/xsk/user.rs:320-332 | in an orderly session the queue grows by exactly the inserted items |
| `User.WriteSession.Drop` | src/xsk/user.rs:325-332 | the cache returns to the shared producer head |
| `User.ReadSession.constructor` | src/xsk/user.rs:22-27 | opens with min(n, what the cache shows published, or all that the first load shows if none), so empty exactly when 0 was asked for or the first load shows nothing |
| `User.ReadSession.Read` | src/xsk/user.rs:341-345 | returns the slot of the next index, for exactly the granted entries; before any release, the oldest entry not read yet |
| `User.ReadSession.Release` | src/xsk/user.rs:348-350 | frees exactly the entries read since the last release; in an orderly session they are the slots behind the old tail |
| `User.ReadSession.Drop` | src/xsk/user.rs:353-360 | the cache returns to the shared consumer head |
| `Batch.SendBatch` | examples/flood-mt.rs:185-191 | the queue grows by exactly `sent` copies of the descriptor, `sent` is min(batch, what the cache shows free, or all that is free at the load if none), and the handle is left balanced |
| `Batch.Reap` | examples/flood-mt.rs:139-150 | the items are exactly the `count` entries behind the old tail, also those published during the call; `count` is min(batch, what the cache shows, or all that the first load shows if none), and exactly those are freed |
| `Flood.BudgetAlways` | examples/flood-mt.rs:164-209 | any number of senders, every interleaving: reserved = sent + what the senders hold, and committed <= reserved <= total |
| `Flood.GrantFits` | examples/flood-mt.rs:171-181 | a reservation takes a full batch or all that is left of the total |
| `Flood.BatchCap` | examples/flood-mt.rs:125-181 | in every run no sender asks for, and no completer reaps, more than a batch at once |
| `Flood.QueuesApart` | examples/flood-mt.rs:66-78 | in every run each completer took, with what is outstanding on its queue, exactly what the sockets bound to that queue placed |
| `Flood.QueuesInTurn` | examples/flood-mt.rs:66-78 | the first sockets go to the queue of their index, and sockets `i` and `i + queues` share a queue |
| `Flood.CompletedNeverPassesTotal` | examples/flood-mt.rs:125-162 | any number of completers: completed plus unpublished completions <= committed <= total |
| `Flood.NothingOverflows` | examples/flood-mt.rs:174-205 | in every run, no addition or subtraction of any thread on the accounting counters (reserved, sent, completed and the two statistics) leaves the 32-bit range in the state it runs in |
| `Flood.AtJoin` | examples/flood-mt.rs:211-219 | when all threads have left, reserved = sent = completed = total, both statistics sum to it, no completion is left on a ring, and each queue's statistic is the sum of its sockets' statistics |
| `FloodJoin.JoinAlwaysPossible` | examples/flood-mt.rs:125-219 | from every reachable state, with something to send in a batch and threads on both sides (or nothing to send), some further turns bring all threads to the join |
| `FloodJoin.JoinPossibleExactly` | examples/flood-mt.rs:125-219 | some run joins if and only if the total is 0, or batch, senders and completers are all positive, or there is no thread |
| `FloodJoin.SenderRound` | examples/flood-mt.rs:166-208 | a whole undisturbed round places, publishes and counts exactly min(room, batch, what is left), on the queue of its socket, and gives the rest of the reservation back |
| `FloodJoin.CompleterRound` | examples/flood-mt.rs:125-162 | a whole undisturbed round reaps, publishes and counts exactly min(ready, sent - completed, batch, outstanding on its queue) |
| `FloodJoin.SenderLeaves` | examples/flood-mt.rs:167-169 | a sender leaves within two turns if and only if everything is sent and completed; with everything sent but not completed it reserves again |
| `FloodJoin.CompleterEnds` | examples/flood-mt.rs:125-130 | a completer ends in one turn if and only if everything is completed |
| `Flood.CompletedBehindSent` | examples/flood-mt.rs:125-162 | with one completer or one sender, completed <= sent at every step |
| `FloodOvertake.OvertakeExactly` | examples/flood-mt.rs:125-209 | every run keeps completed <= sent if and only if there are fewer than two completers, fewer than two senders, an empty batch, or a total of at most 1 |
| `Chunks.FrameExactly` | src/xsk/umem.rs:108-117 | a frame exists if and only if its end is inside the area |
| `Chunks.FramesCounted` | src/xsk/umem.rs:134-138 | the indices of frames are those below `len_frames`, and 2^32 - 1 when the count saturates |
| `Chunks.WholeFrame` | src/xsk/umem.rs:488-491 | the cast loses nothing: the descriptor of a frame covers exactly the frame, inside the area |
| `Chunks.CutDescriptor` | src/xsk/umem.rs:499-512 | cut to any length up to the frame size, a descriptor names that many bytes from the start of its frame, inside the area |
| `Chunks.DescriptorsApart` | src/xsk/umem.rs:499-512 | descriptors of different frames share no byte, whatever lengths up to the frame size they are cut to |
| `Devices.ControlSet.Insert` | src/xsk/umem.rs:467-470 | adds the context and tells whether it was new |
| `Devices.ControlSet.Remove` | src/xsk/umem.rs:477-480 | removes the context and nothing else |
| `Devices.Umem.FqCq` | src/xsk/umem.rs:176-214 | a context stays taken exactly when a queue is returned for it; every failure restores the set, a rejection leaves it alone |
| `Devices.DeviceQueue.Drop` | src/xsk/user.rs:72-76 | gives the context up |
| `Devices.DeviceExclusivity` | src/xsk/umem.rs:176-214 | after any run of calls, failures and drops on any threads, the set is exactly the contexts of the live queues and the calls in progress, and no two of them share one |
| `Devices.DropGivesUpExactly` | src/xsk/user.rs:72-76 | the drop of a queue takes exactly its own context from the set and the owners, all others stay, and the next call for it is accepted |
| `Devices.AbortGivesUpExactly` | src/xsk/umem.rs:176-214 | so does a failing call, wherever it stands among the calls in progress |
| `Devices.FinishHandsOver` | src/xsk/umem.rs:176-214 | a call that succeeds hands its context to its queue and changes nothing else |
| `Devices.CallIsAtomicWhenUndisturbed` | src/xsk/umem.rs:176-214 | the steps of one undisturbed call have all of its effect or none |

## Left out

- System calls (`socket`, `bind`, `setsockopt`, `getsockopt`, `mmap`, `munmap`, `poll`, `sendto`): foreign; `fq_cq` takes their outcome as a parameter.
- The kernel beyond its obligations: it consumes at most what is published, publishes at most one ring of entries, keeps live entries, and never touches the other word.
- Weak memory: Relaxed, Acquire and Release loads and stores are interleaved sequentially consistently.
- Forgetting a session object, mapping one ring twice, two owners of one ring side: the source assumes a single owner (`src/xsk/umem.rs:172-175`), so sessions open on a handle that holds nothing.
- examples/flood-mt.rs: the two thread loops are a state machine over their shared accesses rather than methods, because they end only if the kernel makes progress; `FloodJoin` proves that they always can end, not that a fair scheduler and kernel make them; wake-ups, stall counts and histograms are not modelled, and a thread's ring call is one step that places or reaps any number its contract allows.
- `WriteFill` and `WriteTx`, and `ReadComplete` and `ReadRx`, are one class each over the entry type, since their code is the same.
- Flood.NothingOverflows: does not cover `stall_threshold` and the stall, loop and wake counters of examples/flood-mt.rs, which grow with idle rounds and wake-ups and are not bounded by the total.
- `SpinLockedControlSet`: its lock is modelled by making each method one step; `contains` is a plain membership test, and `fq_cq` does not use it.
- `capacity` of the sessions: a plain field read.
- `IfInfo`, `Errno` texts, statistics, the V1 offset fixup, bind flags, `check_flags` and wake-ups: plumbing or one-branch claims.
- Words.EntryInsideMapping: the mapped length is an unbounded natural, so a kernel offset near 2^64 that would wrap the sum is not modelled.
- examples/flood.rs: a sequential loop whose bounds follow from the ring contracts.
