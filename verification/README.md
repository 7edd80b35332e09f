# Verification of the kernel's blocking, buffering and caching core

This project models the parts of the kernel where threads wait for each other, together
with the buffers and caches built on them, and two pieces of the user library, and proves
what they are for. Code that changes state is modelled in place: classes whose methods are
the critical sections of the C functions, loops included, each proved equal to a function
on plain values. What the code promises is then proved about those functions over every
run: a component is a state machine with one step per critical section (per instruction
for spinlocks), any number of threads, arbitrary interleaving, and theorems quantify over
all reachable states or all runs. `Reachable`, `Legal` and `Exec` have the same meaning in
every module named `...Runs` and in `FutexSections`, `FutexFaults`, `PipeClosing`, `PipeWaiting`,
`SbufLimits`, `Semaphores`, `Spinlocks`, `SpinlockCalls`, `Signals` and `SignalFrames`: a run is a list of enabled events from an initial state.

| component | modules |
|---|---|
| spinlocks and interrupt nesting, step by instruction | `Spinlocks`, `SpinlockCalls` |
| condition variables and the two-counter semaphore | `Semaphores` |
| futex wait, wake, requeue | `Futexes`, `FutexRuns`, `FutexSections`, `FutexFaults` |
| block buffer cache, its list in memory | `BufferCache`, `CacheRuns`, `BufferList` |
| pipe | `PipeRing`, `PipeRuns`, `PipeClosing`, `PipeWaiting` |
| bounded buffer of the sockets | `SbufRing`, `SbufRuns`, `SbufLimits` |
| console line discipline | `ConsoleLine`, `ConsoleRuns` |
| SysV shared memory | `Shm`, `ShmRuns` |
| page-cache batching | `PageBatches` |
| intrusive rings | `Rings` |
| signals: pending set, frames on the user stack | `Signals`, `SignalFrames` |
| CRC16, word-at-a-time strings, print and parse | `Crc`, `WordStrings`, `PrintParse` |

Inductions are written out: every lemma on which Dafny would try one by itself carries
`{:induction false}`, because its automatic hypotheses are also assumed of ill-typed
arguments and can make a proof succeed for the wrong reason.

Counting semaphores appear inside the other components as a number of permits;
`Semaphores.RefinesCountingSemaphore` is the theorem that licenses this.

## Where the code does not do what one would expect

Where it takes a run to go wrong, the project holds such a run and the exact condition under
which the expected property does hold; where a single call suffices, a contract says for
exactly which inputs.

- A waiter killed inside `cond_wait` takes a wakeup with it, now or later: a permit can be lost exactly from the states in which some waiter has been killed (`Semaphores.KilledWaiterStrandsPermit`, `Semaphores.PermitIsLostIff`).
- `cond_signal` tests the queue, removes from it and looks at the removed thread in three steps. It faults exactly when as many spurious wakeups as there were sleepers come between test and removal, or one for the removed thread comes between removal and look (`Semaphores.SignalCanFault`, `Semaphores.SignalFaultsIff`).
- The loops of `futex_wakeup` and `futex_requeue` have the same steps, and POSIX signals and timeouts do not take the process lock. A removal panics exactly when every waiter that the test saw has been woken since; the steps after it fail exactly when the removed thread has been woken and is not asleep in another call, where a wake would end that call's wait instead, or, for the last step of a requeue, whenever it has been woken (`FutexFaults.RemovalFailsIff`, `FutexFaults.TakenFailsIff`; runs: `FutexFaults.FailsAtRemoval`, `FutexFaults.FailsAtCheck`, `FutexFaults.FailsAtFinish`, `FutexFaults.EndsAnotherWait`).
- `futex_requeue` leaves the moved threads' `wait_chan_entry` pointing at the old queue. A signal to a sleeper takes the lock of a freed queue exactly when the entry it went to sleep on has been freed since (`FutexFaults.UsesFreedQueue`, `FutexFaults.SignalUsesFreedQueueIff`).
- The timer of a `futex_wait` panics exactly when it fires for a thread that has been woken and has not deleted it yet, or whose queue has been freed that way (`FutexFaults.TimerFindsNobody`, `FutexFaults.ExpiryFailsIff`).
- Closing one end of a pipe releases all threads waiting at the other exactly when at most one of them is without a token (`PipeClosing.SecondReaderIsStranded`, `PipeClosing.CloseWriteReleasesAllIff`, `PipeClosing.SecondWriterIsStranded`, `PipeClosing.CloseReadReleasesAllIff`).
- With both ends open a second reader can wait beside unread data: without a further write all waiting readers can be woken exactly when there is a token for each. The same holds of writers and space (`PipeWaiting.SecondReaderWaitsBesideData`, `PipeWaiting.ReadersAreWokenIff`, `PipeWaiting.SecondWriterWaitsBesideSpace`, `PipeWaiting.WritersAreWokenIff`).
- A bounded buffer hands out its bytes in order for ever exactly when its capacity divides 2^32; the sockets' 40960 does not (`SbufLimits.WrongByteIsDelivered`, `SbufLimits.OrderLastsForEverIff`, `SbufRing.SocketCapacityCollides`).
- The unlocked test after the wait in `sbuf_remove` gives an item up, if `r` is read first, exactly when the counter has gone all the way round between the two reads; with the order left open, as C leaves it, it can do so exactly when there are at least two slots (`SbufRuns.TestGivesUpIff`, `SbufLimits.TestCanFailIff`).
- Shared-memory identifiers decode exactly for indices below 2^15, but indices grow without bound (`Shm.IdDecodesIff`, `Shm.IndexOverflowAliases`).
- A `shmat` that has found its descriptor panics before it counts the attach exactly when the identifier was not the segment's own or the segment has been destroyed in between (`ShmRuns.AttachCanLose`, `ShmRuns.AttachGoesOnIff`).
- `calculate_crc16` reads a second byte of a one-byte message; the two checksums agree on it only if that byte is zero (`Crc.CalculateCrc16`).
- A pass over the pending signals loses exactly the unblocked ones with the default action that come before the one it sets up a frame for: their bit stays set and they can never be delivered again (`Signals.DefaultActionLosesASignal`, `Signals.DefaultActionLosesTheBitIff`, `Signals.LostStaysLost`).
- `signal_queue_pop` keeps the pending counter right exactly when no popped signal is queued (`Signals.PopCanMiscount`, `Signals.PopKeepsCountIff`). It has no live caller: the one call, at src/kernel/sysproc.c:416, is commented out.
- Returning from a signal handler gives all registers back exactly when a0 held -EINTR and no other program counter was asked for (`SignalFrames.ReturnCanLoseA0`, `SignalFrames.AllRegistersComeBackIff`).
- `futex_requeue` onto the same address rotates the queue (`Futexes.RequeueOntoItselfRotates`).
- `printint` fits its digit area in the bases it is used with, but not in every base (`PrintParse.FitsIff`).
- `strcpy` and `strncpy` return a pointer past the copied bytes, not the destination as the C standard says (`WordStrings.StrCpy`, `WordStrings.StrNCpy`).

## Model

| member | source | states |
|---|---|---|
| `Spinlocks.MutualExclusion` | src/atomic/spinlock.c:117-196 | in every instruction interleaving at most one CPU is between winning the swap and giving the lock back, and the lock word is set exactly while one is |
| `Spinlocks.HoldingIsExact` | src/atomic/spinlock.c:200-211 | the two unlocked reads of `holding` give the right answer for their caller whatever other CPUs and interrupt handlers do in between: `acquire` panics exactly on a lock the CPU holds, `release` exactly on one it does not |
| `Spinlocks.InterruptsAreOffInside` | src/atomic/spinlock.c:216-223 | `noff` is the number of locks held plus outstanding pushes, and while it is positive interrupts are off |
| `Spinlocks.PopNeverPanics` | src/atomic/spinlock.c:225-234 | both panics of `pop_off` are unreachable when calls are matched |
| `Spinlocks.BalancedRunRestoresInterrupts` | src/atomic/spinlock.c:212-234 | once a CPU has given back everything it took, in any order, with handlers in between, its interrupts are as they were before |
| `Spinlocks.StepKeepsInv` | src/atomic/spinlock.c:117-234 | every instruction of every CPU keeps ownership, counting and interrupt invariants |
| `SpinlockCalls.AcquireReturnsHolding` | src/atomic/spinlock.c:117-140 | in every run an `acquire` that returns has the lock, word and owner set, which its CPU did not hold before; it panics exactly on a lock the CPU already held; nothing else the CPU holds changes |
| `SpinlockCalls.ReleaseReturnsWithout` | src/atomic/spinlock.c:171-196 | in every run a `release` that returns has given the lock back, which its CPU held before; it panics exactly on a lock the CPU did not hold |
| `SpinlockCalls.NestingReturnsCounted` | src/atomic/spinlock.c:216-234 | in every run a bare `push_off` returns with one more push counted and interrupts off, a bare `pop_off` with one fewer, and neither panics |
| `SpinlockCalls.SwapWinsIff` | src/atomic/spinlock.c:129-130 | a swap wins exactly a free lock; on a taken one the CPU goes on spinning and nothing changes |
| `SpinlockCalls.FreeLockIsTaken` | src/atomic/spinlock.c:117-140 | undisturbed, an `acquire` of a free lock returns with it after seven instructions |
| `SpinlockCalls.HeldLockIsFreed` | src/atomic/spinlock.c:171-196 | undisturbed, a `release` of a held lock returns after eight instructions with word and owner cleared |
| `Semaphores.Semaphore.constructor` | src/atomic/semaphore.c:5-10 | initial value, no wakeups, nobody waiting |
| `Semaphores.Semaphore.WaitEnter` | src/atomic/semaphore.c:12-17 | the first section of `sema_wait` takes one from the value, and returns exactly if it was positive; otherwise the caller sleeps behind all others |
| `Semaphores.Semaphore.WaitResume` | src/atomic/semaphore.c:16-21 | each later section of `sema_wait`, after a real or spurious wakeup, returns exactly if there is a wakeup, which it uses up, and sleeps behind all others if not |
| `Semaphores.Semaphore.Signal` | src/atomic/semaphore.c:24-29 | `sema_signal` up to the emptiness test: one wakeup exactly if the value was negative, and a waiter is to be taken exactly if there is one then |
| `Semaphores.Semaphore.TakeWaiter` | src/atomic/cond.c:54 | the removal gives the null pointer exactly if nobody waits any more, and otherwise the longest waiter: put back in front, it restores the queue |
| `Semaphores.SleepersKeepTheirOrder` | src/atomic/cond.c:28-54 | no step lets one sleeper pass another, and a signal takes nobody while an earlier sleeper is queued |
| `Semaphores.RunKeepsInv` | src/atomic/semaphore.c:12-32 | over every interleaving with spurious wakeups and kills, threads in the slow path number the unmet requests plus the wakeups, and wakeups never exceed those awake, dead or about to be woken |
| `Semaphores.CompletedWaitsAreBounded` | src/atomic/semaphore.c:12-32 | completed waits plus permits left equal the initial value plus the signals |
| `Semaphores.NoWakeupIsLost` | src/atomic/semaphore.c:16-30 | without kills, granted wakeups never exceed the threads awake or about to be woken to collect them, and when nobody is, the sleepers are exactly the unmet requests |
| `Semaphores.BinarySemaphoreExcludes` | src/atomic/semaphore.c:12-32 | with initial value one, and signals only by threads whose wait returned, at most one thread is between its wait and its signal |
| `Semaphores.RefinesCountingSemaphore` | src/atomic/semaphore.c:12-32 | every step is a step of the plain counting semaphore; a wait returns exactly when it takes a permit |
| `Semaphores.GrantedWakeupsAreCollected` | src/atomic/semaphore.c:16-20 | the threads awake can collect every granted wakeup, in any order |
| `Semaphores.SignalFaultsIff` | src/atomic/cond.c:53-60 | a signal that found sleepers faults at its removal exactly when as many spurious wakeups as there were sleepers come between test and removal, and at the state check exactly when one for the removed thread comes between removal and check |
| `Semaphores.SignalCanFault` | src/atomic/cond.c:53-60 | two runs that fault, one at the removal and one at the state check |
| `Semaphores.QuietRunsNeverFault` | src/atomic/cond.c:53-60 | without spurious wakeups no signal faults |
| `Semaphores.KilledWaiterStrandsPermit` | src/atomic/cond.c:36-41 | two runs, one with a granted wakeup and one with a spurious one, after which a thread sleeps beside a permit with nobody to wake it |
| `Semaphores.PermitIsLostIff` | src/atomic/cond.c:36-41 | from any state of any run in which no signal has faulted or is bound to, some continuation without further kills leaves a thread asleep beside a permit exactly if some waiter has been killed |
| `Semaphores.StrandedUntilSignal` | src/atomic/semaphore.c:15-18 | such a thread sleeps on until somebody signals or wakes it for another reason, and new waiters join it |
| `Futexes.FutexTable.constructor` | src/atomic/futex.c:13-16 | an empty table |
| `Futexes.FutexTable.FutexWait` | src/atomic/futex.c:48-94 | the caller sleeps at the back of the address's queue exactly when the word has the expected value; -1 when the word cannot be read or a given timeout expired |
| `Futexes.FutexTable.FutexWakeup` | src/atomic/futex.c:96-141 | the min(nr, length) oldest waiters, none for nr below one, leave the queue and run, and no other thread does; an emptied entry is freed; other queues stay; the count is returned |
| `Futexes.FutexTable.RequeueSection` | src/atomic/futex.c:151-194 | the moving loop equals the value-level requeue, and returns the number moved |
| `Futexes.FutexTable.FutexRequeue` | src/atomic/futex.c:144-194 | wake, then requeue; the result counts the requeued threads only |
| `Futexes.MovesConserve` | src/atomic/futex.c:168-182 | what leaves the front of one queue arrives in order at the back of the other, also when they are the same |
| `Futexes.RequeueMovesPrefix` | src/atomic/futex.c:155-188 | between two addresses exactly the oldest waiters move, in order, nothing else changes, and the old entry survives exactly when waiters stay |
| `Futexes.RequeueOntoItselfRotates` | src/atomic/futex.c:168-182 | onto the same address the queue is rotated by the request modulo its length |
| `Futexes.RequeueKeepsValid` | src/atomic/futex.c:168-188 | requeue keeps every sleeper in exactly one queue |
| `FutexRuns.SleepersAreQueuedOnce` | src/atomic/futex.c:62-64 | in every run, signals and timeouts included, the sleeping threads are the queued ones, each in one queue once, and perhaps the one a loop has just removed |
| `FutexRuns.QueuesAreFifo` | src/atomic/futex.c:96-194 | in every run what wakes and requeues took from a queue followed by what is in it is what entered it, without those that a signal or timeout took out |
| `FutexRuns.StoreDecidesWhoWaits` | src/atomic/futex.c:51-57 | after a store exactly those threads that expect the value stored can wait on the word, and the other words are as before |
| `FutexRuns.WaitIsExact` | src/atomic/futex.c:57-75 | who waits is asleep as the youngest of its queue, with a timer exactly if it asked for one, and nobody else is touched |
| `FutexRuns.WaitEndsRunning` | src/proc/sched.c:126-142 | in every run a thread whose wait ended by signal, timeout or wake, its timer spent or deleted, runs again |
| `FutexSections.LoopTakesTheOldest` | src/atomic/futex.c:110-182 | in every run a wake, or a requeue to another address, takes exactly the min(nr, length) oldest of the waiters that no signal or timeout takes out meanwhile, and leaves the others |
| `FutexSections.WakeIsExact` | src/atomic/futex.c:110-129 | in every run a wake wakes all waiters it takes, and any other thread that wakes meanwhile was signalled or timed out |
| `FutexSections.UndisturbedLoopIsExact` | src/atomic/futex.c:96-194 | a wake or requeue that no signal or timeout disturbs leaves the table that the value-level wake or requeue computes |
| `FutexSections.QuietRunsNeverFail` | src/atomic/futex.c:113-121 | without signals and timeouts every panic of the loops is unreachable |
| `FutexSections.FullWakeLeavesNobody` | src/atomic/futex.c:52-66 | no lost wakeup: whoever sleeps on an address after the loop of a full wake found the expected value, or was requeued, after that loop, although stores may fall between comparison and queueing |
| `FutexFaults.RemovalFailsIff` | src/atomic/futex.c:110-114 | the removal after a test that found waiters panics exactly when every one of them has been woken by a signal or timeout since |
| `FutexFaults.TakenFailsIff` | src/atomic/futex.c:115-123 | the steps after a removal fail exactly when the removed thread has been woken and, except when it is queued again, is not asleep in another call; a wake that does find it asleep there ends that wait |
| `FutexFaults.FailsAtRemoval` | src/atomic/futex.c:110-114 | a run whose wake, and one whose requeue, finds the queue emptied by a signal after the test |
| `FutexFaults.FailsAtCheck` | src/atomic/futex.c:111-176 | a run whose wake, and one whose requeue, panics on a thread that a signal woke after its removal |
| `FutexFaults.FailsAtFinish` | src/atomic/futex.c:115-177 | a run whose wake panics, and one whose requeue queues a running thread, because a signal came after the state test |
| `FutexFaults.EndsAnotherWait` | src/atomic/futex.c:111-123 | a run whose wake wakes a thread out of another call, in which it fell asleep after its removal |
| `FutexFaults.SignalUsesFreedQueueIff` | src/proc/sched.c:86-92 | a signal to a sleeper takes the lock of a freed queue exactly when the entry of the address it went to sleep on has been freed since |
| `FutexFaults.UsesFreedQueue` | src/atomic/futex.c:177-188 | a run in which it does, after a requeue |
| `FutexFaults.OnlyRequeuesStrand` | src/atomic/futex.c:177-188 | in a run without requeues no signal to a sleeper does |
| `FutexFaults.ExpiryFailsIff` | src/proc/sched.c:95-108 | a timer that fires for a futex sleeper panics exactly when the thread has been woken and has not deleted it yet, or its queue has been freed |
| `FutexFaults.TimerFindsNobody` | src/proc/sched.c:126-142 | a run in which it does |
| `BufferCache.Cache.constructor` | src/fs/bio.c:20-30 | every buffer unused under key (0, 0), the list in reverse order |
| `BufferCache.FirstMatch` | src/fs/bio.c:46-54 | the forward scan finds the first buffer with the key, if any |
| `BufferCache.LastFree` | src/fs/bio.c:58-68 | the reverse scan finds the last unreferenced buffer, if any |
| `BufferCache.ChoiceIsExact` | src/fs/bio.c:46-69 | the buffer chosen is the first with the key, or else the last unreferenced one, and the panic means there is neither |
| `BufferCache.Cache.Bget` | src/fs/bio.c:39-70 | the two scan loops choose that buffer; a hit gains one reference, a victim gets the key, one reference and is invalid; nothing else changes |
| `BufferCache.Cache.Fill` | src/fs/bio.c:78-83 | an invalid buffer is filled from the disk and clean |
| `BufferCache.Cache.WriteBack` | src/fs/bio.c:92-105 | a dirty buffer is written to its own block and clean |
| `BufferCache.Cache.Put` | src/fs/bio.c:108-115 | one reference less, and to the front of the list when it was the last |
| `BufferCache.MoveFrontIsOrder` | src/fs/bio.c:110-113 | the list stays a permutation of all buffers |
| `CacheRuns.StepKeepsInv` | src/fs/bio.c:39-116 | every step of every session keeps order, counts, uniqueness and contents |
| `CacheRuns.BreadReturnsLastReleased` | src/fs/bio.c:73-84 | in every run `bread` returns the last content released for its block, as a plain disk map would |
| `CacheRuns.ReleasedContentIsOnDisk` | src/fs/bio.c:101-106 | in every run a block nobody holds is on disk as it was last released |
| `CacheRuns.WriteReachesTheDisk` | src/fs/bio.c:86-116 | what a session writes is on disk, and nothing else on the disk changes, once it has been marked dirty and written back, or released; a written buffer is clean, and a release makes it the last content released |
| `CacheRuns.ReadingLeavesTheDisk` | src/fs/bio.c:73-116 | in every run a session that only reads can release its block at once, the disk stays as it was, and the content released is the one it read |
| `CacheRuns.ReferencesAreExact` | src/fs/bio.c:48-66 | a reference count is the number of sessions on the buffer, its lock is free exactly when none is inside, and an unreferenced buffer is clean |
| `CacheRuns.OneLiveBufferPerBlock` | src/fs/bio.c:46-63 | of two buffers with one key one is unreferenced, invalid and clean, for every key |
| `CacheRuns.OthersLeaveMyBufferAlone` | src/fs/bio.c:39-116 | no step of another session changes the key of a session's buffer, nor the contents while it is held |
| `CacheRuns.VictimIsLeastRecentlyReleased` | src/fs/bio.c:56-68 | on a miss the recycled buffer is the unreferenced one released longest ago |
| `CacheRuns.StampedByItsLastRelease` | src/fs/bio.c:108-115 | a release is recorded by the step that drops the last reference and by no other, later than every one before |
| `CacheRuns.NoPanicBelowCapacity` | src/fs/bio.c:69 | `bget` cannot panic while fewer sessions are open than there are buffers |
| `BufferList.Release` | src/fs/bio.c:110-113 | on the pointers, the move of a released buffer to the front is `BufferCache.MoveFront` on the order of buffer numbers |
| `BufferList.FindKey` | src/fs/bio.c:46-54 | on the pointers, the forward loop finds what `FirstMatch` finds |
| `BufferList.FindFree` | src/fs/bio.c:58-68 | on the pointers, the reverse loop finds what `LastFree` finds |
| `BufferList.Pick` | src/fs/bio.c:46-69 | both loops on the pointers choose the buffer of `BufferCache.Choose`, so the theorems on the least recently released buffer hold of the list in memory |
| `PipeRing.Pipe.constructor` | src/ipc/pipe.c:26-33 | an empty pipe |
| `PipeRing.Pipe.Empty` | include/ipc/pipe.h:37 | equality of the wrapped counters is emptiness |
| `PipeRing.Pipe.Full` | include/ipc/pipe.h:36 | the wrapped comparison is fullness |
| `PipeRing.Pipe.Store` | src/ipc/pipe.c:88-89 | one byte is appended, no unread byte is overwritten |
| `PipeRing.Pipe.Load` | src/ipc/pipe.c:123-126 | the oldest unread byte is taken |
| `PipeRing.Pipe.WriteSection` | src/ipc/pipe.c:74-98 | the copying loop appends the next bytes, and stops only when all are stored, at the fault, or on a full pipe |
| `PipeRing.Pipe.ReadSection` | src/ipc/pipe.c:120-127 | the copying loop takes the oldest bytes, no more than asked for, and stops short only at a byte that cannot be copied out, which stays, or on an empty pipe |
| `PipeRing.CountersAreExact` | include/ipc/pipe.h:36-37 | counters within one ring of each other compare modulo 2^32 as they do in full |
| `PipeRing.SlotIsExact` | src/ipc/pipe.c:88 | wrapping a counter does not move its slot, since 512 divides 2^32 |
| `PipeRuns.ReadsArePrefixOfWrites` | src/ipc/pipe.c:69-131 | with any number of readers and writers the bytes read are a prefix of the bytes written, at most 512 behind |
| `PipeRuns.ReadIsExact` | src/ipc/pipe.c:110-130 | a reader waits exactly on an empty pipe whose write end is open; otherwise its read ends, having taken the oldest bytes up to the request, the fault or the end, and signals the writers once |
| `PipeRuns.WriteIsExact` | src/ipc/pipe.c:73-102 | a writer leaves only with all bytes stored, at the fault, or with the read end closed, and then without a signal; it waits exactly with bytes left on a full pipe, and every section signals the readers once |
| `PipeRuns.ReaderWaitsOnlyForData` | src/ipc/pipe.c:111-119 | with one reader, a read waiting without a token means an empty pipe with its write end open |
| `PipeRuns.WriterWaitsOnlyForSpace` | src/ipc/pipe.c:79-83 | with one writer, a write waiting without a token means a full pipe with its read end open |
| `PipeRuns.NoDeadlock` | src/ipc/pipe.c:69-131 | one reader and one writer are never stuck together |
| `PipeRuns.CloseReleasesReader` | src/ipc/pipe.c:55-57 | closing the write end always lets a lone reader finish |
| `PipeRuns.CloseReleasesWriter` | src/ipc/pipe.c:58-61 | closing the read end always lets a lone writer finish |
| `PipeClosing.ReadersAreReleasedIff` | src/ipc/pipe.c:111-119 | with the write end closed and no write in progress, all readers can be released exactly when every waiting one has a token |
| `PipeClosing.ReadersWithoutTokenStay` | src/ipc/pipe.c:111-119 | otherwise at least the difference waits for ever |
| `PipeClosing.CloseWriteReleasesAllIff` | src/ipc/pipe.c:55-57 | closing the write end lets all readers finish exactly when at most one waiting reader was without a token |
| `PipeClosing.SecondReaderIsStranded` | src/ipc/pipe.c:55-57 | two readers wait on an empty pipe; after the close no run releases both |
| `PipeClosing.WritersAreReleasedIff` | src/ipc/pipe.c:75-83 | with the read end closed and no read in progress, all writers can be released exactly when every waiting one has a token |
| `PipeClosing.WritersWithoutTokenStay` | src/ipc/pipe.c:75-83 | otherwise at least the difference waits for ever |
| `PipeClosing.CloseReadReleasesAllIff` | src/ipc/pipe.c:58-61 | closing the read end lets all writers finish exactly when at most one waiting writer was without a token |
| `PipeClosing.SecondWriterIsStranded` | src/ipc/pipe.c:58-61 | two writers wait on a full pipe; after the close no run releases both |
| `PipeWaiting.ReadersAreWokenIff` | src/ipc/pipe.c:99-118 | with both ends open and no write in progress, all waiting readers can be woken without a further write exactly when there is a token for each, whatever the pipe holds |
| `PipeWaiting.SecondReaderWaitsBesideData` | src/ipc/pipe.c:99-118 | a reachable state in which a reader waits beside an unread byte, and does so until somebody writes or closes |
| `PipeWaiting.WritersAreWokenIff` | src/ipc/pipe.c:79-128 | the same for writers and reads |
| `PipeWaiting.SecondWriterWaitsBesideSpace` | src/ipc/pipe.c:79-128 | a reachable state in which two writers wait on an empty pipe with one token between them |
| `SbufRing.Sbuf.constructor` | src/lib/sbuf.c:6-17 | an empty buffer of the given capacity |
| `SbufRing.Sbuf.Insert` | src/lib/sbuf.c:45 | one byte is appended |
| `SbufRing.Sbuf.Remove` | src/lib/sbuf.c:67 | the oldest byte is taken, as long as slots follow the counter |
| `SbufRing.SlotsStayApartIff` | src/lib/sbuf.c:45 | unread bytes keep to different slots for ever exactly when the capacity divides 2^32 |
| `SbufRing.SocketCapacityCollides` | src/ipc/socket.c:365 | the sockets' capacity does not |
| `SbufRuns.CapacityIsConserved` | src/lib/sbuf.c:37-77 | in runs of any length with any number of producers and consumers, free slots, inserters, unread bytes, removers and lost slots make up n, and items and their holders make up the unread bytes |
| `SbufRuns.BytesComeOutInOrder` | src/lib/sbuf.c:45-67 | with the ring in the state, the bytes handed out are a prefix of those stored and unread bytes are in their slots, before the counter first wraps and for ever if the capacity divides 2^32 |
| `SbufRuns.NoUnreadByteIsOverwritten` | src/lib/sbuf.c:39-45 | under the same condition a store changes no unread byte |
| `SbufRuns.StoreHasRoom` | src/lib/sbuf.c:39 | whoever is about to store finds fewer than n unread bytes |
| `SbufLimits.WrongByteIsDelivered` | src/lib/sbuf.c:45-67 | for every capacity that does not divide 2^32 some run hands out a byte other than the one stored |
| `SbufLimits.OrderLastsForEverIff` | src/lib/sbuf.c:45-67 | bytes come out in order in every run exactly when the capacity divides 2^32 |
| `SbufRuns.TakeFindsAByte` | src/lib/sbuf.c:60-67 | whoever is about to take finds a byte |
| `SbufRuns.QuietBufferIsExact` | src/lib/sbuf.c:15-16 | with nobody in progress the semaphores describe the buffer exactly |
| `SbufRuns.TestGivesUpIff` | src/lib/sbuf.c:62-64 | reading r first, a consumer gives its item up exactly when the bytes stored beyond the r it read are a positive multiple of 2^32 |
| `SbufRuns.NoItemIsGivenUp` | src/lib/sbuf.c:62-64 | so in runs of any length in which fewer than 2^32 bytes are stored beyond each r read, none is given up |
| `SbufLimits.TestCanFailIff` | src/lib/sbuf.c:62-64 | with the order of the reads left open an item can be given up exactly when there are at least two slots |
| `ConsoleLine.Console.constructor` | src/driver/console.c:218-221 | an empty console |
| `ConsoleLine.Console.Room` | src/driver/console.c:195 | the wrapped test is exactly room in the ring |
| `ConsoleLine.Console.Append` | src/driver/console.c:203 | one byte joins the line being typed, nothing unread is overwritten |
| `ConsoleLine.Console.Erase` | src/driver/console.c:189-191 | exactly the last byte of the line being typed goes |
| `ConsoleLine.Console.KillLine` | src/driver/console.c:182-185 | the loop erases back to a newline or the committed part |
| `ConsoleLine.Console.Intr` | src/driver/console.c:157-216 | the effect of every key in both modes: an ordinary byte, RETURN as newline under ICRNL, is added; newline, ^D and the 128th byte commit and signal; ^H and DELETE take back the last byte, ^U the line; ^T, zero and a full ring change nothing; raw mode commits at once |
| `ConsoleLine.Console.ReadSection` | src/driver/console.c:106-151 | the read loop on the ring is the read on sequences: newline, saved or consumed ^D, failed copy, or wait |
| `ConsoleLine.Console.Ready` | src/driver/console.c:232-237 | the number of committed bytes |
| `ConsoleLine.InputIsExact` | src/driver/console.c:162-213 | the same of the function the runs use, for every line that fits the ring |
| `ConsoleRuns.SectionTakes` | src/driver/console.c:106-151 | a section delivers all the bytes it takes, except a ^D standing for end of file or one refused byte, and ends only for the listed reasons |
| `ConsoleRuns.KeyIsExact` | src/driver/console.c:157-216 | in every run a key has that effect, adds to the stream exactly what it commits, and gives one permit exactly when it commits |
| `ConsoleRuns.KillErasesExactlyTheLine` | src/driver/console.c:181-186 | in every run across mode switches at most 128 bytes are held, the uncommitted part has no newline and no ^D, and kill-line erases exactly it |
| `ConsoleRuns.ReadsReturnSuccessivePieces` | src/driver/console.c:98-155 | in every run finished reads return successive pieces of the committed stream |
| `ConsoleRuns.CanonicalReadTakesOneLine` | src/driver/console.c:129-150 | a canonical read never goes past a newline, takes what it returns, and each ^D taken is one read of zero bytes |
| `ConsoleRuns.NoInputIsMissed` | src/driver/console.c:109-117 | a reader waiting with input committed has a wakeup to consume |
| `ConsoleRuns.ReadReturnsTheLine` | src/driver/console.c:98-155 | a canonical read that finds a whole line committed returns it with its newline and takes nothing after it |
| `ConsoleRuns.ReadWaitsForInput` | src/driver/console.c:109-117 | a read that finds nothing committed waits, takes nothing and changes nothing else |
| `ConsoleRuns.WakeIsExact` | src/driver/console.c:115 | a waiting read goes on where it was, for one permit |
| `Shm.IdDecodesIff` | src/ipc/ipc_ops.c:25-27 | an identifier decodes to its index and sequence number exactly for indices below 2^15, and then fits an int |
| `Shm.IndexOverflowAliases` | src/ipc/ipc_ops.c:93-112 | the next index builds the identifier of index 0 under the next sequence number |
| `Shm.AdmissionIsExact` | src/ipc/shm.c:57-70 | the 64-bit tests of `newseg` admit exactly sizes from one byte to the limit whose pages fit the total |
| `Shm.AnswerIsExact` | src/ipc/shm.c:55-133 | which request is refused with EINVAL, with ENOSPC, or panics, and the identifier of the others |
| `Shm.NewSegIsExact` | src/ipc/ipc_ops.c:93-112 | the new segment has the next index, its identifier is 2^15 times its sequence number plus the index, the next sequence number is one more and 0 after 65535, and its pages are added to the total |
| `Shm.Namespace.constructor` | src/ipc/ipc_ops.c:7-16 | an empty, consistent namespace |
| `Shm.Namespace.Shmget` | src/ipc/shm.c:55-161 | each refusal exactly for its reason; otherwise the segment gets the next index and the next sequence number, which goes from 65535 back to zero, its identifier is built from both, and its pages are counted |
| `Shm.Namespace.ShmDestroy` | src/ipc/shm.c:187-190 | exactly this segment is no longer found, its pages are given back without a wrap, and table, identifiers and page total stay exact |
| `Shm.Namespace.ShmRmid` | src/kernel/sysipc.c:105-118 | with attaches in flight the segment is marked and nothing else changes; otherwise it is destroyed |
| `Shm.Namespace.AttachBegin` | src/kernel/sysipc.c:194 | counting the attach protects the segment: every lookup stays, and a removal from now on only marks it |
| `Shm.Namespace.AttachEnd` | src/kernel/sysipc.c:267-274 | the segment is destroyed exactly when it was marked and this was the last attach; consistency is kept |
| `ShmRuns.AttachAlwaysFinishes` | src/kernel/sysipc.c:264-276 | in every run an attach in flight finds its own segment again, alive, whatever removals happened |
| `ShmRuns.AttachGoesOnIff` | src/ipc/ipc_ops.c:234-280 | an attach that has found its descriptor can go on, whatever happens before it locks it, exactly when the identifier was the segment's own and the segment has not been destroyed since; otherwise it panics |
| `ShmRuns.AttachCanLose` | src/ipc/ipc_ops.c:242-259 | a run in which it panics: a removal comes between lookup and lock |
| `ShmRuns.MarkedSegmentDiesWithItsLastAttach` | src/kernel/sysipc.c:105-118 | a segment is destroyed at most once; a marked one lives exactly while attaches are in flight; the attach count is their number |
| `ShmRuns.RemovedSegmentIsDestroyed` | src/kernel/sysipc.c:105-118 | a removal is never forgotten: after it the segment is destroyed exactly when no attach of it is in flight |
| `ShmRuns.OnlyTheLastFinishDestroys` | src/kernel/sysipc.c:269-274 | the step that destroys a marked segment is the end of its last attach, and that step does |
| `ShmRuns.AccountingIsExact` | src/ipc/shm.c:142-188 | in every run the page total is the sum over live segments and within its limit, and the table lists exactly them |
| `ShmRuns.IdentifiersAreUnique` | src/ipc/ipc_ops.c:109-112 | in every run identifiers are non-negative ints, decode to index and sequence number, and are never shared |
| `PageBatches.RwPagesBatch` | src/fs/mpage.c:55-89 | the requests issued expand to exactly the page list, in order, and no two neighbours could be one |
| `PageBatches.MaximalBatchesAreUnique` | src/fs/mpage.c:60-78 | a page list has only one division into maximal contiguous batches |
| `PageBatches.MaximalBatchesAreFewest` | src/fs/mpage.c:60-78 | no other division issues fewer requests |
| `PageBatches.AssignData` | src/fs/mpage.c:27-32 | the blocks of a batch, in however many vectors, are transferred with consecutive memory |
| `PageBatches.BatchPlacesEachPage` | src/fs/mpage.c:16-32 | so each block of each page goes where a transfer of that page alone would put it |
| `PageBatches.PageCache.MissingEnd` | src/fs/mpage.c:124-131 | the second pointer stops at the first cached page or the end |
| `PageBatches.PageCache.InsertRun` | src/fs/mpage.c:144-174 | the pages of a run are cached and listed at consecutive addresses, unless an item cannot be allocated |
| `PageBatches.PageCache.ReadPages` | src/fs/mpage.c:109-191 | panics exactly on an empty range, a cached first page, or exhausted memory for the pages or the list items; otherwise fills the cache with one allocation per missing run, returns the first page's address, and issues exactly one batch per missing run when reading |
| `PageBatches.RunsAreTheMissing` | src/fs/mpage.c:121-183 | the runs cover exactly the missing indices |
| `PageBatches.RunsAreSeparated` | src/fs/mpage.c:121-183 | and each ends at a cached page or the end of the range |
| `PageBatches.ReadFillsTheMissing` | src/fs/mpage.c:109-191 | exactly the missing indices are inserted, no cached page is touched, and each missing page is transferred once, in order, to the page now cached for it |
| `Rings.ListHead.constructor` | include/lib/list.h:32-35 | a ring of one |
| `Rings.LinkBetween` | include/lib/list.h:50-57 | linking between two neighbours inserts into the cyclic sequence |
| `Rings.UnlinkBetween` | include/lib/list.h:76-79 | joining two neighbours removes what was between |
| `Rings.ListAdd` | include/lib/list.h:65-67 | prepends |
| `Rings.ListAddTail` | include/lib/list.h:121-123 | appends |
| `Rings.DelEntry` | include/lib/list.h:86-88 | removes the entry from its list |
| `Rings.ListDel` | include/lib/list.h:90-94 | removes and clears the entry's pointers |
| `Rings.ListDelReinit` | include/lib/list.h:97-100 | removes and makes the entry a ring of one |
| `Rings.ListMove` | include/lib/list.h:108-111 | removes from its list and prepends to the same or another one |
| `Rings.ListMoveTail` | include/lib/list.h:129-133 | removes from its list and appends to the same or another one |
| `Rings.ToFront` | src/fs/bio.c:111-112 | list_del and list_add bring an entry to the front of its own list |
| `Rings.ListEmpty` | include/lib/list.h:140-142 | true exactly of the empty list |
| `Rings.ListSplice` | include/lib/list.h:152-172 | prepends the contents of a disjoint list, whose head is left as it was |
| `Rings.JoinGivenFirst` | include/lib/list.h:175-186 | two disjoint rings given by their first nodes become one, old before new |
| `Rings.ForEach` | include/lib/list.h:230-231 | visits the contents in order |
| `Rings.ForEachReverse` | include/lib/list.h:265-268 | visits them in reverse |
| `Rings.DeleteEach` | include/lib/list.h:278-282 | safe iteration that deletes each entry visits all of them and leaves an empty list |
| `Signals.PendingSignals.constructor` | src/ipc/signal.c:101-104 | nothing pending |
| `Signals.PendingSignals.SignalSend` | src/ipc/signal.c:68-99 | a signal whose bit is set is dropped; otherwise SIGKILL, SIGTERM and SIGSTOP mark the thread killed at once, and with memory the signal is queued last, counted and its bit set |
| `Signals.PendingSignals.SignalHandle` | src/ipc/signal.c:107-150 | the list loop with deletions is the scan of the queue; the framed signal becomes `sig_ing`, bits stay, and only a SIGKILL with its default action marks the thread killed |
| `Signals.PendingSignals.SignalQueuePop` | src/ipc/signal.c:12-30 | bits and queue lose exactly the masked signals, the counter stays |
| `Signals.PendingSignals.SignalQueueFlush` | src/ipc/signal.c:33-43 | bitmap and queue are emptied |
| `Signals.PendingSignals.RtSigreturn` | src/kernel/sysproc.c:419-420 | the signal of the frame can be sent again, and sending any other signal has the effect it had before |
| `Signals.ScanIsExact` | src/ipc/signal.c:120-148 | one pass sets up at most one frame, for the oldest unblocked signal with a handler; before it exactly the unblocked defaulted signals go, after it everything stays |
| `Signals.ScanKeepsBlocked` | src/ipc/signal.c:125-137 | a blocked or ignored signal is never removed |
| `Signals.QueueAgreesWithBitmap` | src/ipc/signal.c:68-150 | in every run the queue has no duplicates, queued and running signals are disjoint and have their bits set, and the counter is the queue length, at most 64 |
| `Signals.KilledIff` | src/ipc/signal.c:82-167 | in every run a thread is marked killed exactly if SIGKILL, SIGTERM or SIGSTOP was sent while its bit was clear or a pass took SIGKILL with its default action, and it stays marked |
| `Signals.ReturnFreesTheSignal` | src/kernel/sysproc.c:414-420 | returning from a handler makes exactly its signal deliverable again |
| `Signals.DefaultActionLosesTheBitIff` | src/ipc/signal.c:120-148 | in every run a pass loses exactly the unblocked queued signals with the default action before the one it sets up a frame for |
| `Signals.DefaultActionLosesASignal` | src/ipc/signal.c:129-135 | a run that loses a signal: sent once and handled |
| `Signals.LostStaysLost` | src/ipc/signal.c:77-79 | no later run delivers such a signal |
| `Signals.PopKeepsCountIff` | src/ipc/signal.c:22-28 | popping keeps the counter right exactly when no popped signal is queued |
| `Signals.PopCanMiscount` | src/ipc/signal.c:22-28 | after a signal is sent and popped the counter is one and the queue empty |
| `SignalFrames.FramePtr` | src/ipc/signal.c:265-284 | the frame lies below the stack pointer, 16-aligned, less than 16 bytes lower than needed |
| `SignalFrames.SignalThread.SignalFrameSetup` | src/ipc/signal.c:301-321 | context and zeroed machine context are written up to the first word that is not mapped; 0 exactly when all of it is mapped |
| `SignalFrames.SignalThread.SetupRtFrame` | src/ipc/signal.c:286-299 | the program counter is the handler, the return address the trampoline, stack pointer and a2 the frame, a0 the signal, a1 zero; every other register, the mask and `sig_ing` are unchanged |
| `SignalFrames.SignalThread.SignalFrameRestore` | src/ipc/signal.c:324-345 | mask, registers and signal number are read back, and the program counter replaced if one was asked for |
| `SignalFrames.FramesAreDisjoint` | src/ipc/signal.c:265-284 | in every run at every depth live frames are aligned and pairwise disjoint |
| `SignalFrames.DeliveryEntersTheHandler` | src/ipc/signal.c:286-321 | in every run a delivery does that, has saved the interrupted registers and the mask in the frame, and asks for no other program counter |
| `SignalFrames.ReturnGivesBackTheContext` | src/ipc/signal.c:324-345 | in every run a return gives back the registers and mask of the innermost delivery |
| `SignalFrames.AllRegistersComeBackIff` | src/kernel/sysproc.c:414-430 | all registers come back exactly when a0 held -EINTR and no other program counter was asked for |
| `SignalFrames.ReturnCanLoseA0` | src/kernel/sysproc.c:414-430 | from a reachable state a return does not give back the interrupted registers: a0 was zero |
| `SignalFrames.MatchingReturnUnwinds` | src/ipc/signal.c:286-345 | whatever nests in between, the return matching a delivery gives back what that delivery interrupted |
| `Crc.EightRounds` | include/driver/crc.h:82-87 | the inner loop is eight rounds of division |
| `Crc.CalculateCrc16` | include/driver/crc.h:64-90 | the bit-wise division equals the byte-wise checksum of every message, except that for one byte it does exactly if the byte after it is zero |
| `Crc.GeneratorAndCheckValue` | include/driver/crc.h:51-61 | the generator is x^16 + x^12 + x^5 + 1, and the digits 1 to 9 have the customary check value 0x31C3 |
| `Crc.ByteStep` | include/driver/crc.h:51-61 | eight rounds of division are one byte-wise update and a shift of the message |
| `Crc.UpdateInjective` | include/driver/crc.h:51-61 | an update loses no information about the checksum |
| `Crc.TwoUpdates` | include/driver/crc.h:51-61 | two updates see checksum and bytes only through their exclusive or |
| `Crc.ReceiverAcceptsOnlyTheChecksum` | include/driver/crc.h:51-61 | a message and two bytes fold to zero exactly when the bytes are its checksum |
| `Crc.AdjacentCorruptionIsDetected` | include/driver/crc.h:51-61 | every corruption within two adjacent bytes changes the checksum |
| `WordStrings.HasZeroIsExact` | oscomp_user/lib/string.c:4-8 | HASZERO is nonzero exactly when some byte of the word is zero |
| `WordStrings.HasByteIsExact` | oscomp_user/lib/string.c:89-90 | against the repeated byte it finds exactly that byte |
| `WordStrings.StrLen` | oscomp_user/lib/string.c:63-77 | the length of the string at every alignment, reading no word past the terminator's |
| `WordStrings.MemChr` | oscomp_user/lib/string.c:79-97 | the first match, or none exactly when there is none, reading no word past the match's |
| `WordStrings.StrNLen` | oscomp_user/lib/string.c:99-103 | the length of the string or the bound |
| `WordStrings.StrCpy` | oscomp_user/lib/string.c:105-125 | the exact copy with its terminator and no other change |
| `WordStrings.StrNCpy` | oscomp_user/lib/string.c:127-150 | the exact copy, zero padding to n, and no other change |
| `WordStrings.MemSet` | oscomp_user/lib/string.c:38-44 | exactly the range is set |
| `PrintParse.PrintInt` | oscomp_user/lib/stdio.c:37-61 | sign and digits of the number in the base |
| `PrintParse.TextDenotes` | oscomp_user/lib/stdio.c:37-61 | in every base from 2 to 16 the text is a minus sign, exactly for a negative number printed signed, and digits without a leading zero that denote the number, or 2^32 more if it is negative and printed unsigned |
| `PrintParse.DigitsDenoteIn` | oscomp_user/lib/stdio.c:37-53 | the digits of a number denote it in every base from 2 to 16 |
| `PrintParse.FitsIff` | oscomp_user/lib/stdio.c:39-53 | every int fits the digit area exactly in bases from 5 on, and unsigned in base 4 |
| `PrintParse.Atoi` | oscomp_user/lib/string.c:20-36 | defined exactly when the number denoted is an int, and then it |
| `PrintParse.ParseReads` | oscomp_user/lib/string.c:20-36 | of any text: white space is skipped, one sign is honoured, the longest run of digits is read, and what follows does not matter |
| `PrintParse.RoundTrip` | oscomp_user/lib/string.c:20-36 | parsing the printed text of any int gives it back, INT_MIN included |

## Left out

- Disk, UART, interrupt controller, trap entry, address translation, allocator and scheduler: the disk is a map, interrupts a flag, allocation and user copies are parameters that may fail.
- `cond_broadcast`, `sbuf_empty`, `sbuf_full`, `pipe_alloc`, `calculate_crc7`, `crc7`, `strcmp`, `strncmp`: they would only add easy members.
- Killing a thread: modelled for the semaphore only; killed pipe or console readers are not modelled, nor is a killed waiter that falls asleep in `do_exit` between the removal and the state check of one `cond_signal`.
- Semaphores: the 32-bit range of `value` and `wakeup`, which the number of threads does not reach; `cond_wait` links the thread into the wait queue without the queue's lock (src/atomic/cond.c:28), while a signal to another waiter may unlink that one under it: each is one step here.
- BufferCache: a caller that changes a buffer's contents is assumed to hand it to `bwrite` before `brelse`, which is the interface's own rule.
- PipeRuns: freeing the pipe when both ends are closed.
- SbufRuns: the first, unlocked early return of `sbuf_remove` has no effect and is not an event.
- ConsoleRuns: one read at a time; concurrent readers would divide the stream between them at every wait. Echo output is not modelled.
- ShmRuns: runs in which 2^15 segments were ever created, for which `IdDecodesIff` shows that identifiers no longer decode; mapping the segment itself and lookup by key.
- Futexes.FutexTable.FutexWait: only the result of a timeout; that the timer takes the thread off its queue is the event `Expire` of `FutexRuns`.
- Futexes.FutexTable.FutexWakeup: no signal or timeout wakes a waiter during the loop, nor during that of `RequeueSection`; in `FutexRuns` the loops go step by step and they may.
- Futexes.FutexTable.FutexRequeue: no other thread runs between its two sections; in `FutexRuns` they are separate steps.
- FutexRuns: one thread group; runs end where the code has failed; the unlocked push at src/atomic/futex.c:64 and the unlocked emptiness test at src/atomic/futex.c:110 are single steps; a thread's lock and the timer list's lock, which src/lib/timer.c:52-65 and src/proc/sched.c:126-142 take in opposite orders, do not deadlock here.
- PageBatches.PageCache.ReadPages: no 64-bit overflow of index plus count and no truncation of counts to int, which 32-bit file sizes exclude; no other thread changes the range's pages meanwhile; the file system's block lookup is a parameter; what the cache holds after a panic is not stated.
- Rings: `container_of` and iteration from a given first entry; bodies of safe iteration other than deletion.
- Signals.PendingSignals.SignalSend: signal numbers from 1 to 64, for which the shift in the bitmap macros is defined in C; `signal_send` itself does not test them.
- Signals: the default action of SIGCHLD also reaps a child with `waitpid` (src/ipc/signal.c:168-171), which is not part of this model.
- Signals: `do_sigaction` and `do_sigprocmask` appear as arbitrary changes of actions and mask; `SIG_UNBLOCK` intersects the mask with the given set instead of removing it.
- SignalFrames.SignalThread.SignalFrameRestore: a frame address at a word boundary, as every frame address is; unaligned addresses passed by user code are not modelled.
- SignalFrames: the frame must be mapped, and user code must leave the saved contexts unchanged and return with the stack pointer the handler was entered with.
- PrintParse.PrintInt: negating INT_MIN is signed overflow, which C leaves undefined; the model takes the two's-complement result that the machine's subtraction gives.
- Spinlocks: the interrupt flag is switched explicitly only by code that holds no lock; threads do not migrate between CPUs inside lock operations; memory ordering is sequentially consistent, which the source's fences are for.
- WordStrings.MemSet: sizes up to INT_MAX; the source counts with an `int` (oscomp_user/lib/string.c:41), which overflows beyond that. The padding of `StrNCpy` uses it.
- WordStrings: memory ends at a word boundary, as pages do; source and destination of a copy do not overlap, as `restrict` demands.
