# kmsgpipe: a verified model

`kmsgpipe` is a kernel message pipe: a character device that hands whole messages from writers to
readers through a ring buffer of fixed capacity. This project models its three cores and proves what
each promises.

* **The ring buffer** (`kmsgpipe/lib/src/kmsgpipe.c`). Payload bytes lie in one flat array, at
  `slot * data_size`; a second array holds one record for each slot, with a `valid` flag. No count is
  stored. `RingStore` gives the operations on the contents of those arrays and proves that they
  implement a bounded FIFO; `RingBuffer.KmsgPipeBuffer` is the class that updates the arrays in place,
  proved against both; `RingRuns` has the theorems about whole runs of operations; `Circular` holds
  the arithmetic of positions and byte offsets, `Fifo` the queue itself.
* **The blocking driver** (`kmsgpipe/labs/lab4/kmsgpipe_fops.c`). `Driver` is a transition system in
  which any number of threads execute `kmsgpipe_write`, `kmsgpipe_read` and the cleanup worker
  statement by statement (`Driver.Exec`), with one mutex, two wait queues and two waiting counters.
  `AtomicPipe` says what it should be: a FIFO on which every call takes effect in one atomic step.
  `DriverInvariants`, `DriverRefinement`, `DriverWakeups` and `DriverTheorems` prove that it is, that
  no wakeup is lost, and what follows for every run. `DriverCalls` says what a call does when nothing
  disturbs it, and `DriverErrors` which errors are returned and why. `DriverClear` adds the unlocked clear of the ioctl
  and says which of these results survive it, and exactly when the recheck and the wakeups do;
  `DriverReach` builds runs to the states in which something fails.
* **The single-buffer device** (`kmsgpipe/labs/lab1/kmsgpipe_core.c`). `CharDevice` has the class and
  the theorem that chunked reads through independent cursors reassemble the message.

## How the model relates to the code

* A record keeps the length of its message in 16 bits. The model stores `len % 65536` as the code
  does, so no bound on `data_size` is assumed: a queued message is the part of the block that the
  stored length covers (`Messages.Stored`), which is the whole block exactly below 65536 bytes
  (`RingRuns.LengthSurvivesIff`, with an accepted block that comes back empty in
  `RingRuns.FullModulusIsLost`).
* In the driver, the statements between a lock and an unlock are separate steps, and so is every
  iteration of the cleanup loop. The unlocked condition of `wait_event_interruptible` reads one
  `valid` flag for each step, interleaved with everything else. Push and pop are single steps, because
  each changes one flag and the flags are all that the unlocked scans read.
* The kernel's part is taken from its documented interface. `wait_event_interruptible` evaluates its
  condition, then repeatedly registers the task, evaluates the condition, and sleeps unless the task
  was woken since it registered. A signal takes the task off the queue, asleep or about to register,
  and ends the wait unless the condition, evaluated once more, is true.
  `wake_up_interruptible` wakes and unregisters every task on its queue. A mutex has one owner, and
  the clock never goes back.
* A read takes effect at its `copy_to_user` and a cleanup at the end of its loop. Messages already off
  the ring by then count as queued: they are `DriverRefinement.Limbo`, in the hands of the mutex holder.
* `kmsgpipe_ioctl` calls `kmsgpipe_clear` without the mutex and wakes nobody. `DriverClear` takes the
  clear as one step between two statements of the other threads. The order of the ring, the mutex, the
  counters, every checked push and the wakeups of the readers survive it at any moment
  (`ClearsKeepStable`, `ClearsSpareTheRest`, `ClearsStrandNoReader`). `RecheckSuffices` fails if and only if a clear comes
  between the guard and the pop of a read (`RecheckWithClearsIff`, `NoDataAfterClearIff`), and
  `NoLostWakeup` can fail afterwards if and only if a clear that no wakeup follows anyway finds a
  registered writer asleep or past its last look (`ClearStrandsWriters`, `WakeupsWithClearsIff`).
* A read whose `count` is smaller than the message it is about to receive passes `kmsgpipe_pop` a buffer
  that cannot take it. That is undefined in the code, and the model has no step for it: a run ends there
  for that thread (`Driver.Overruns`). Every other read of fewer bytes than a slot is modelled.
  `DriverTheorems.ReadAlwaysFitsIff` says for which values of `count` this can never happen. A result is
  padded to the read's own `count`.
* With the parameter `exact` set to false, the unlocked conditions may return anything at any time.
  All safety theorems hold for both values; the wakeup theorems are for `exact` scans.
* The model allows several cleanup workers at once; the work queue runs one.
* Where the documentation and the code differ, the model follows the code. An oversized `write` returns
  `-EINVAL` from the driver (the driver specification says `-EMSGSIZE`); access goes by uid and gid (the
  lab 3 notes let anyone read an unprivileged user's messages); the worker expires everything stamped
  before its own clock reading, not messages older than `expiry_ms`; `kmsgpipe_init` never returns
  `-EINVAL`.
* `Circular.Offset` writes the byte offset of a slot as a sum; `Circular.OffsetIsProduct` says that it is
  the product in the code.
* `kmsgpipe_init` accepts capacity 0, and so do the constructor, the count and the clear. Push, pop and
  cleanup then read a record that is not there, so they require `Valid`, which implies a positive
  capacity. The arrays given to the ring may be longer than it needs.

## Model

| member | source | states |
|---|---|---|
| Messages.Stored | kmsgpipe/include/kmsgpipe.h:24 | the 16-bit length keeps a prefix of a block, and all of it exactly below 65536 bytes |
| Circular.OffsetIsProduct | kmsgpipe/lib/src/kmsgpipe.c:57-88 | the byte offsets of the model, sums of slot sizes, are the products `slot * data_size` of the code |
| RingStore.CountIsLength | kmsgpipe/lib/src/kmsgpipe.c:97-109 | for every rotation of `tail`, the linear scan of the flags counts exactly the queued messages |
| RingStore.FlagsDecide | kmsgpipe/lib/src/kmsgpipe.c:51-79 | slot i is live iff (i - tail) mod capacity is below the count; head is (tail + count) mod capacity; head's flag says full, tail's says non-empty; head meets tail only at 0 or capacity |
| RingStore.PushFrame | kmsgpipe/lib/src/kmsgpipe.c:57-65 | a push writes the record of its own slot and bytes inside it, moves head by one step, and leaves every other slot's message as it was |
| RingStore.PushRefines | kmsgpipe/lib/src/kmsgpipe.c:44-70 | push appends the message when it fits and there is room, and otherwise refuses with the right error and changes nothing |
| RingStore.PopRefines | kmsgpipe/lib/src/kmsgpipe.c:72-95 | pop delivers and removes the oldest message unless the caller is neither root nor of its owner nor of its group; otherwise, or on an empty ring, it refuses with the right error and changes nothing |
| RingStore.DropFrame | kmsgpipe/lib/src/kmsgpipe.c:89-92 | giving up the oldest slot clears its flag and moves tail by one step, and changes no other field and no byte |
| RingStore.DropOldestCounts | kmsgpipe/lib/src/kmsgpipe.c:114-119 | each cleanup iteration leaves one valid record fewer, on any ring, so the loop ends even when tail goes full circle |
| RingStore.ExpireRefines | kmsgpipe/lib/src/kmsgpipe.c:111-121 | cleanup removes exactly the longest prefix stamped before the deadline and returns its length |
| RingStore.ExpireTwice | kmsgpipe/lib/src/kmsgpipe.c:111-121 | two cleanups leave the ring that the later deadline alone leaves, and their results add up to its result |
| RingStore.ClearRefines | kmsgpipe/lib/src/kmsgpipe.c:123-136 | clear empties the queue, zeroes every byte and every record, resets both positions and returns how many messages there were |
| Fifo.PrefixDropIsFilter | kmsgpipe/lib/src/kmsgpipe.c:114-119 | on a queue sorted by time, dropping the expired prefix drops every expired message and no other |
| RingBuffer.KmsgPipeBuffer.constructor | kmsgpipe/lib/src/kmsgpipe.c:21-42 | for every capacity, 0 included, initialisation zeroes every byte and record of the ring and touches nothing behind it; the ring is usable, with an empty queue, exactly when the capacity is positive |
| RingBuffer.KmsgPipeBuffer.Push | kmsgpipe/lib/src/kmsgpipe.c:44-70 | in place: the queue gains exactly the message or nothing changes, and the arrays become those of `RingStore.Push` |
| RingBuffer.KmsgPipeBuffer.Pop | kmsgpipe/lib/src/kmsgpipe.c:72-95 | in place: for root, the owner or the owner's group the caller's buffer starts with the oldest payload and keeps its rest, and the queue loses its first message; or nothing changes |
| RingBuffer.KmsgPipeBuffer.GetMessageCount | kmsgpipe/lib/src/kmsgpipe.c:97-109 | the counting loop counts the valid flags in any state, which in a valid ring is the length of the queue |
| RingBuffer.KmsgPipeBuffer.CleanupExpired | kmsgpipe/lib/src/kmsgpipe.c:111-121 | in place: the loop drops the longest expired prefix, returns its length and ends |
| RingBuffer.KmsgPipeBuffer.Clear | kmsgpipe/lib/src/kmsgpipe.c:123-136 | in place: from any state, every byte and record of the ring is afterwards zero and both positions are 0; returns the old count |
| RingRuns.ApplyRefines | kmsgpipe/lib/src/kmsgpipe.c:44-136 | every operation on the arrays is the FIFO operation of the same name, with the same reply, and keeps the ring well formed |
| RingRuns.RunRefines | kmsgpipe/lib/src/kmsgpipe.c:21-136 | a whole run on the arrays gives the replies of the run on the queue and ends at its queue |
| RingRuns.RotationIsInvisible | kmsgpipe/lib/src/kmsgpipe.c:44-136 | two rings with equal queues, at any rotation and with any stale bytes, give equal replies to every run |
| RingRuns.EmptyIsAsGoodAsNew | kmsgpipe/lib/src/kmsgpipe.c:21-136 | a ring emptied in any way answers every later run as a fresh one does |
| RingRuns.PositionsAreTotals | kmsgpipe/lib/src/kmsgpipe.c:67-130 | over every run since initialisation or the last clear, head and tail are the totals pushed and removed modulo capacity, and the totals differ by the count |
| RingRuns.RunConserves | kmsgpipe/lib/src/kmsgpipe.c:44-136 | what was queued and then entered is what left, in order, followed by what is queued |
| RingRuns.QueuedBytesComeBack | kmsgpipe/lib/src/kmsgpipe.c:57-92 | after any operations that remove exactly the messages ahead of a queued one, an authorised pop copies out that message's bytes |
| RingRuns.PushedBytesComeBack | kmsgpipe/lib/src/kmsgpipe.c:57-92 | after a push and any operations that remove exactly what was queued before it, an authorised pop copies out the bytes that were pushed |
| RingRuns.OldestBlocksTheRest | kmsgpipe/lib/src/kmsgpipe.c:78-92 | through any run of pushes, counts and unauthorised pops the oldest message stays in front and nothing is delivered |
| RingRuns.LengthSurvivesIff | kmsgpipe/lib/src/kmsgpipe.c:61-91 | on any ring with room, after any operations that remove what was ahead and for any authorised reader, a block comes back with its length, and with its bytes, if and only if it is shorter than 65536 bytes |
| RingRuns.LengthWraps | kmsgpipe/lib/src/kmsgpipe.c:61-91 | a block of k * 65536 + n bytes, n below 65536, comes back as its first n bytes |
| RingRuns.FullModulusIsLost | kmsgpipe/lib/src/kmsgpipe.c:61-91 | a block of 65536 bytes is accepted whole and comes back empty |
| DriverInvariants.RunKeepsInv | kmsgpipe/labs/lab4/kmsgpipe_fops.c:203-370 | every state reachable by writes, reads and the worker (lines 445-464) satisfies the invariant of ring, mutex, threads, counters and wait queues |
| DriverInvariants.InsertStep | kmsgpipe/labs/lab4/kmsgpipe_fops.c:236-269 | a push after the guarded count always succeeds and keeps the queue sorted by time |
| DriverInvariants.RemoveStep | kmsgpipe/labs/lab4/kmsgpipe_fops.c:321-354 | a pop after the guarded count always finds a message: it delivers it or refuses access |
| DriverCalls.UndisturbedWrite | kmsgpipe/labs/lab4/kmsgpipe_fops.c:203-285 | from any state with the mutex free, a write that nothing disturbs: longer than a slot, -EINVAL; on a full ring, -EAGAIN or asleep on its queue; else its message is queued last with the clock as its stamp, readers are woken and its length is returned |
| DriverCalls.UndisturbedRead | kmsgpipe/labs/lab4/kmsgpipe_fops.c:287-370 | likewise a read: of more than a slot, -EINVAL; on an empty ring, -EAGAIN or asleep on its queue; for other owners' message, -EACCES; else it returns and removes the oldest message, zeros behind it, and wakes the writers |
| DriverCalls.UndisturbedCleanup | kmsgpipe/labs/lab4/kmsgpipe_fops.c:445-464 | likewise a cleanup: it drops the front messages stamped before its first statement, up to the first that is not, and wakes the writers |
| DriverCalls.WokenLooksAgain | kmsgpipe/labs/lab4/kmsgpipe_fops.c:236-256 | a woken sleeper registers and looks again; it goes on to the lock if its condition has come true (a reader's: lines 321-341) and sleeps again otherwise |
| DriverCalls.SignalEndsTheWait | kmsgpipe/labs/lab4/kmsgpipe_fops.c:236-256 | a signal takes a waiting call off its queue for good: it goes on to the lock if its condition has come true (a reader's: lines 321-341) and returns -ERESTARTSYS otherwise |
| DriverErrors.EveryErrorHasItsCause | kmsgpipe/labs/lab4/kmsgpipe_fops.c:203-370 | in every run, a call that fails met the cause of its error at one of its own statements: an oversized request, a failed allocation or copy, a signal, O_NONBLOCK on a full or empty ring, an oldest message of other owners |
| DriverErrors.OnlySignalsInterrupt | kmsgpipe/labs/lab4/kmsgpipe_fops.c:230-256 | in every run, no wait is interrupted and no call returns -ERESTARTSYS without a signal during that call |
| DriverErrors.OversizedIsRefused | kmsgpipe/labs/lab4/kmsgpipe_fops.c:216-220 | in every run, a write longer than a slot, or a read of more than a slot (lines 301-304), gets no further than its size check and returns -EINVAL |
| DriverErrors.FailuresAreReported | kmsgpipe/labs/lab4/kmsgpipe_fops.c:225-265 | which statements can fail or be interrupted, and that the call then has that error, or leaves its queue and looks once more |
| DriverRefinement.StepRefines | kmsgpipe/labs/lab4/kmsgpipe_fops.c:203-370 | every step of a write, a read or the worker (lines 445-464) is a stutter or exactly one atomic enqueue, dequeue, expiry, refusal, would-block or abort |
| DriverRefinement.MirrorExists | kmsgpipe/labs/lab4/kmsgpipe_fops.c:203-370 | every run of writes, reads and the worker (lines 445-464) has exactly one view as queue, calls and atomic steps, the one the theorems below speak of |
| DriverRefinement.RunIsAtomic | kmsgpipe/labs/lab4/kmsgpipe_fops.c:203-370 | every interleaved run of writes, reads and the worker (lines 445-464) is, step for step, a run of the atomic bounded FIFO, whatever the unlocked conditions return |
| AtomicRuns.Conservation | kmsgpipe/labs/lab4/kmsgpipe_fops.c:269-369 | everything written is what was removed by reads and by the worker (lines 445-464), in order and each with its fate, followed by the queue |
| AtomicRuns.WriteIsAccountedFor | kmsgpipe/labs/lab4/kmsgpipe_fops.c:269-369 | each written message is still queued in its place or was removed in its turn by a read or the worker (lines 445-464) |
| AtomicRuns.QueueInOrder | kmsgpipe/labs/lab4/kmsgpipe_fops.c:258-269 | the queue is always sorted by time stamps of the past and never above capacity |
| AtomicRuns.ReturnIsLinearized | kmsgpipe/labs/lab4/kmsgpipe_fops.c:203-370 | between its invocation and its return a call has exactly one atomic step and returns what that step fixed |
| AtomicRuns.ReadReturnsOneWrite | kmsgpipe/labs/lab4/kmsgpipe_fops.c:269-369 | a successful read returns the stored bytes of one earlier write by an owner it may read, no more than it asked for, padded with zeros to its `count` |
| AtomicRuns.ReadsFollowWrites | kmsgpipe/labs/lab4/kmsgpipe_fops.c:269-369 | reads take writes in the order they were written, each write at most once |
| AtomicRuns.WriteReturnsItsLength | kmsgpipe/labs/lab4/kmsgpipe_fops.c:203-285 | a successful write returns its own length and its block entered the queue |
| AtomicRuns.LaterWriteSurvives | kmsgpipe/labs/lab4/kmsgpipe_fops.c:445-462 | a pass drops a message only if it is stamped before the worker read its clock and otherwise keeps it; a write invoked after that reading is stamped no earlier |
| DriverTheorems.NothingIsLost | kmsgpipe/labs/lab4/kmsgpipe_fops.c:203-370 | in every state of every run of writes, reads and the worker (lines 445-464), writes so far = removals so far, then messages in the holder's hands, then the ring |
| DriverTheorems.RecheckSuffices | kmsgpipe/labs/lab4/kmsgpipe_fops.c:217-346 | with arbitrary unlocked conditions, push always succeeds, pop always finds a message, and no call returns -ENOSPC, -EMSGSIZE or -ENODATA |
| DriverTheorems.ReadAlwaysFitsIff | kmsgpipe/labs/lab4/kmsgpipe_fops.c:301-346 | a read has room for its message in every run, on a ring of any capacity, if and only if its `count` is at least `data_size` or 65535 |
| DriverTheorems.ReadFitsIff | kmsgpipe/labs/lab4/kmsgpipe_fops.c:301-346 | at its pop a read has room for the message unless it asked for fewer bytes than an oldest message it may read |
| DriverTheorems.ShortReadOverruns | kmsgpipe/labs/lab4/kmsgpipe_fops.c:301-346 | for every capacity, every `data_size` and every smaller `count` (and below 65535), a run leads that read to a pop whose message does not fit |
| AtomicRuns.QueueIsShort | kmsgpipe/include/kmsgpipe.h:24 | in every run no queued message is longer than a slot or than 65535 bytes |
| DriverTheorems.MutexDiscipline | kmsgpipe/labs/lab4/kmsgpipe_fops.c:230-366 | among writes, reads and workers (lines 445-464), one thread at most in a critical section; the ring changes only under its owner's hand; no exit leaves the mutex held |
| DriverTheorems.CountersCountWaiters | kmsgpipe/labs/lab4/kmsgpipe_fops.c:243-334 | the waiting counters equal the numbers of readers and writers between increment and decrement |
| DriverTheorems.RingAlwaysInOrder | kmsgpipe/labs/lab4/kmsgpipe_fops.c:258-269 | in every reachable state the ring is well formed and sorted by time stamps of the past |
| DriverTheorems.ReadGetsOneWrite | kmsgpipe/labs/lab4/kmsgpipe_fops.c:269-369 | under any interleaving, a read of any allowed `count` that returns a length returns that of one push statement with the same rank, by root, its owner or its group, and its bytes, padded with zeros to `count` |
| DriverTheorems.EveryCallIsLinearized | kmsgpipe/labs/lab4/kmsgpipe_fops.c:203-370 | every call, failed or not, takes effect in exactly one atomic step between its first and last statement and returns what it fixed |
| DriverTheorems.CleanupPass | kmsgpipe/labs/lab4/kmsgpipe_fops.c:445-462 | a pass keeps exactly the messages stamped from the worker's clock reading on, and a write that reads its clock after that reads no less |
| DriverTheorems.LaterStampSurvives | kmsgpipe/labs/lab4/kmsgpipe_fops.c:445-462 | a written message carries the clock reading of its write (lines 258-269), and a later pass keeps it if and only if the worker read no later time; so a write that stamps after the worker's reading survives even if it was already running then |
| DriverClear.ClearsKeepStable | kmsgpipe/labs/lab4/kmsgpipe_fops.c:434-439 | in runs cleared at any moments, any number of times, the invariant of ring, mutex, threads, counters and wait queues holds, except what relies on the count at the guard |
| DriverClear.ClearsSpareTheRest | kmsgpipe/labs/lab4/kmsgpipe_fops.c:434-439 | in such runs the ring stays well formed and in order, critical sections exclude each other, checked pushes succeed, and no call returns -ENOSPC or -EMSGSIZE |
| DriverClear.ClearsStrandNoReader | kmsgpipe/labs/lab4/kmsgpipe_fops.c:434-439 | in such runs no wakeup of a reader is lost |
| DriverClear.RecheckWithClearsIff | kmsgpipe/labs/lab4/kmsgpipe_fops.c:434-439 | in a run with clears all that `RecheckSuffices` says holds up to any state if and only if no clear before it comes between the guard and the pop of a read |
| DriverClear.NoDataAfterClearIff | kmsgpipe/labs/lab4/kmsgpipe_fops.c:434-439 | after a clear some continuation returns -ENODATA if and only if a read was between its guard and its pop |
| DriverClear.RunWithClearsIsAtomic | kmsgpipe/labs/lab4/kmsgpipe_fops.c:434-439 | as long as no clear comes there, a clear is one atomic step, which drops all but the messages in the holder's hands, and every other step is the atomic step it was |
| DriverClear.ClearStrandsWriters | kmsgpipe/labs/lab4/kmsgpipe_fops.c:434-439 | whoever holds the mutex, after a clear `NoLostWakeup` holds in every continuation if and only if the holder owes the writers a wakeup anyway, or no registered writer is asleep or has finished its scan with every slot taken |
| DriverClear.WakeupsWithClearsIff | kmsgpipe/labs/lab4/kmsgpipe_fops.c:434-439 | in a run with clears no wakeup can be lost from any state on if and only if every clear before it is harmless in that sense |
| DriverClear.RestWithClears | kmsgpipe/labs/lab4/kmsgpipe_fops.c:434-439 | as long as every clear is harmless in that sense, the system rests only when `RestIsJustified` says |
| DriverClear.ClearStrandsSleepers | kmsgpipe/labs/lab4/kmsgpipe_fops.c:434-439 | in the state right after a clear every unwoken sleeper has its reason if and only if the holder owes the writers a wakeup anyway or no writer was asleep unwoken |
| DriverClear.ClearKeepsInvIff | kmsgpipe/labs/lab4/kmsgpipe_fops.c:434-439 | the whole safety invariant survives a clear if and only if no read is between its guard and its pop |
| DriverClear.ClearKeepsWakeInvIff | kmsgpipe/labs/lab4/kmsgpipe_fops.c:434-439 | the wakeup invariant survives a clear if and only if the clear is harmless |
| DriverClear.ClearFailsThePop | kmsgpipe/labs/lab4/kmsgpipe_fops.c:434-439 | a read that has passed its guard when the ring is cleared fails with -ENODATA |
| DriverClear.ClearFailsARead | kmsgpipe/labs/lab4/kmsgpipe_fops.c:434-439 | for every capacity a run leads to a state in which the clear makes a read fail with -ENODATA, so the recheck of lines 321-346 is not enough |
| DriverClear.ClearLeavesWriterAsleep | kmsgpipe/labs/lab4/kmsgpipe_fops.c:434-439 | for every capacity, 1 included, a run leads to a full ring and a sleeping writer such that after the clear the system is at rest with the writer asleep on an empty ring |
| DriverWakeups.NoLostWakeup | kmsgpipe/labs/lab4/kmsgpipe_fops.c:236-354 | with writes, reads and the worker (lines 445-464) interleaved, an unwoken reader sleeps only if the ring is empty or the holder will yet wake readers; an unwoken writer only if it is full or the holder will yet wake writers |
| DriverWakeups.RestIsJustified | kmsgpipe/labs/lab4/kmsgpipe_fops.c:203-370 | no deadlock among writes, reads and the worker (lines 445-464): if no read is about to pop more than it asked for, the system rests only with the mutex free and all calls asleep, all readers on an empty ring or all writers on a full one |
| DriverWakeups.WaitProgresses | kmsgpipe/labs/lab4/kmsgpipe_fops.c:236-334 | when the guard is false and no wakeup is outstanding, a waiting thread can go on, and each statement lowers a bound on what is left |
| DriverWakeups.WaitEnds | kmsgpipe/labs/lab4/kmsgpipe_fops.c:236-334 | from such a state the thread gets out of its wait by its own statements, at most 4 * capacity + 5 of them, and unless it was interrupted before, its wait succeeds |
| CharDevice.Device.constructor | kmsgpipe/labs/lab1/kmsgpipe_core.c:5-13 | the device starts with an empty message |
| CharDevice.Device.Write | kmsgpipe/labs/lab1/kmsgpipe_core.c:15-37 | in place: the message becomes the block, the rest of the buffer is zeroed, the cursor advances; or the error is returned and nothing changes |
| CharDevice.Device.Read | kmsgpipe/labs/lab1/kmsgpipe_core.c:39-69 | in place: the smaller of `count` and what is left from the cursor is copied out of the message, the rest of the destination is kept, the cursor advances by it |
| CharDevice.ChunksReassemble | kmsgpipe/labs/lab1/kmsgpipe_core.c:51-65 | for any interleaving of cursors and sizes, each cursor has received exactly the prefix up to its position |
| CharDevice.GetsWhatItWants | kmsgpipe/labs/lab1/kmsgpipe_core.c:58-65 | a cursor has received exactly as many bytes as its reads asked for in all, or the whole message |
| CharDevice.ProgressByAsking | kmsgpipe/labs/lab1/kmsgpipe_core.c:58-65 | every non-empty read brings a cursor closer to the end |
| CharDevice.WholeMessageThenNothing | kmsgpipe/labs/lab1/kmsgpipe_core.c:51-65 | a cursor that has asked often enough has the whole message, and every later read returns nothing |

## Left out

- Driver.Overruns: what a pop does when the message is longer than the read's own buffer is undefined and has no step in the model; the thread stays there with the mutex.
- Driver.Next: the unlocked clear of the ioctl is not a step of these runs; `DriverClear` adds it as a step of its own. The theorems that count messages (`NothingIsLost`, `Conservation`, `ReadGetsOneWrite`) are not restated for runs with clears, in which messages are dropped on purpose. The clear's single stores and its own count, interleaved with the statements of the mutex holder, are not in the model.
- The driver is a transition system over values, not a class: its statements interleave with those of other threads. Data races inside one ring operation, other than on the `valid` flags, are therefore not in the model.
- The user's source buffer does not change during a write, and the contents of a user buffer after a failed copy are not described.
- Allocation and freeing of scratch buffers, other than the `-ENOMEM` result.
- Null file and device pointers, module initialisation and exit, debugfs, and the ioctls that read values.
- Fairness: that a woken thread eventually runs or gets the mutex depends on the scheduler.
- Rescheduling of the cleanup work, and `expiry_ms`, which only sets its period.
- The mutex of the single-buffer device: its operations are taken one at a time.
- The drivers of labs 2 and 3, whose read and write loops are those of lab 4.
- Calculator, simplechar and hello modules, userland programs, the Rust command line tool, build scripts.
