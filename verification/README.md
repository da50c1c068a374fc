# A verified model of the threads library

The repository is a small user-level threads library in C: a generic open-addressing hash table (`khash.h`), a
counting allocator built on it (`malloc369.c`), and preemptive threads with wait queues, locks and condition
variables (`thread.c`). This project models the three and proves what they promise.

**The hash table** (`probe`, `flags`, `roundup`, `slots`, `rehash`, `khash`, `khash_runs`). Class `KHash.Table` is the
table with its arrays: two status bits per bucket packed in 32-bit words, keys, values and four counters, updated in
place. Its hash function is any total function. A ghost field `contents` is the finite map the table stands for, and
`Valid()` ties it to the arrays: each live bucket holds one key of the map, no empty bucket lies ahead of a live key on
its probe chain, and the counters count. All operations are proved to do to the map what they promise, including
the rehash that moves the elements inside the arrays they already occupy. `KHashRuns.PerformAll` says it for
sequences of calls, with allocations that fail in between.

**The allocation ledger** (`ledger_spec`, `malloc369`). `LedgerSpec` is the ledger on values, with conservation over
whole runs; class `Malloc369.Allocations` is the C code over the hash table and computes the same ledger, call by call
and over runs (`PerformAll`).

**The scheduler** (`sched*`, `ring`, `kernel`). `Sched` is a step machine. One step is one stretch with interrupts off:
from an API call, or from the moment a suspended call goes on, to its return or to the next context switch. A thread has
a continuation: user code, or the place inside `thread_sleep`, `thread_wait`, `lock_acquire` or `cv_wait` where it
stopped. A timer interrupt is `YieldOp(ANY)`, which any thread may take at any point of its user code
(interrupt.c:212). `SchedInv.Inv` is the invariant; `SchedSteps` and `SchedDeath` prove that every operation keeps it,
`SchedStacks` accounts for every block the allocator has handed out, `SchedRuns` lifts both to all runs, `SchedReady`
says what becomes of the ready queue, `SchedHistory` adds what needs a memory (exit codes per incarnation of a slot, who
is inside a lock), `SchedWaiting` bounds waiting, `SchedTheorems` draws the conclusions, `SchedAnswers` says what every
call answers, error codes included, and what a refused call leaves alone, and `SchedLimits` holds small programs that go
wrong. A state is `SchedRuns.Reachable` when a run of any length leads to it from `thread_init`, each
step of which meets the premises below at the moment it is taken. `Ring.Queue` is the ring buffer (`ring_spec`: what it
stands for), and class `Kernel.Scheduler` is thread.c as written, with a table of threads, ring buffers and loops, calling
`Malloc369.Allocations` for its memory; each of its methods is proved to have, on the values the heap stands for, exactly
the effect of the function of `Sched` it corresponds to, and `KernelRuns.Execute` takes it through whole runs.

## What a program must respect

`SchedRuns.Obliged` lists the premises the C code relies on without checking them. `SchedRuns.CanStep` adds one about the
ready queue, where a failed push is ignored (`SchedRuns.RoomFor`): whoever a step pushes and leaves runnable must find
room, or be in the queue already. For most premises the exact condition is proved, beside a program that shows what
happens without it:

- a new thread's slot must not still be named by a wait queue or by a live thread's `waiter` field, as it is when a
  blocked thread was killed: `SchedDeath.CreateKeeps` (if and only if); `SchedLimits.ReusedSlotBreaksWakeup` is a program
  after which the assertion of `thread_wakeup` fails;
- `thread_yield` to a given thread must not name a sleeping one, although the code only rejects destroyed ones:
  `SchedSteps.YieldToKeeps` (if and only if); `SchedLimits.YieldRunsASleeper` is a program that switches to a sleeping
  thread;
- `thread_wait` that has to block needs another runnable thread, because it ignores `THREAD_NONE`:
  `SchedSteps.WaitBlocks` (if and only if); in `SchedLimits.WaitAloneReturnsEarly` it returns a code although its target
  is alive, and leaves the current thread marked as asleep;
- nobody dies holding a lock: `SchedDeath.HandleDeathKeeps`, `KillKeeps` and `ExitKeeps` (if and only if); after the
  program of `SchedLimits.LockDiesWithItsHolder` `lock_acquire` spins for ever;
- the room in the ready queue: `SchedRuns.RoomDecides` says that with the other premises met no assertion fails whatever
  the room, and that the invariant survives if and only if `RoomFor` holds, which depends on nothing but the ready queue
  and the threads to be pushed. In `SchedLimits.FullQueueLosesThread` two threads yield to each other by name until the
  queue is full, as they may for ever; a thread created then is runnable and is never found. There is room in any run
  with at most 30720 creations, wakeups and targeted switches (`SchedRuns.RoomForRun`), because nothing else makes the
  queue longer.

Bare premises, without an exact condition: `malloc` does not return an address in use; the main thread exits only if
something can run after it; only its holder releases a lock or uses a condition variable with it (the code asserts it).

Other limits of the code, with their exact conditions: an allocation keeps the ledger exact if and only if its size is
below 2^63 and its address is not in use (`LedgerSpec.MallocConserves`); `free369` fails an assertion exactly on a
block allocated with size 0 (`LedgerSpec.FreeConserves`, and `LedgerSpec.ZeroSizeCannotBeFreed` is such a program); the
resize at the head of `kh_put` makes room unless the table has 2^31 buckets, is at its load limit and at least half
full of live elements (`KHash.Table.MakeRoom`), and `kh_put` still does right by a new key until all 2^31 buckets are
live: then, and only then, it answers with another key's bucket (`KHash.Table.Put`; `KHash.LargestFullTable` is such a
table).

Where code and documentation differ, the model follows the code: `thread_wait` returns the target's tid, not 0
(thread.h:160); `thread_kill` of a thread somebody waits for switches to the waiter at once instead of letting the caller
go on; `thread_create` without memory ends the process instead of returning `THREAD_NOMEMORY`.

## Model

| member | source | states |
|---|---|---|
| Probe.MaskIsMod | khash.h:234-238 | for a power of two n the bitwise and with n - 1 is the remainder modulo n |
| Probe.AtClosedForm | khash.h:235-238 | after s steps the probe loop stands at home + s(s+1)/2 modulo n |
| Probe.ProbesDistinct | khash.h:238-239 | for a power of two n, two of the first n probes never meet in one bucket |
| Probe.Covers | khash.h:281 | every bucket is visited within the first n probes, so a search for an empty one finds it |
| Probe.FirstReturn | khash.h:236-239 | among steps 1 to 2n - 1 the walk is back at its first bucket at step 2n - 1 and only there, so the `i == last` exit never cuts a search short |
| Flags.WordUpdate | khash.h:165-171 | one word changed at the two bits of bucket i changes the status of bucket i only, across all words |
| Flags.Read | khash.h:165-167 | the shifted bits are the status of the bucket, and the word lies inside the array |
| Flags.SetIsDelTrue | khash.h:171 | sets the deleted bit of one bucket and leaves every other bucket's status alone |
| Flags.SetIsBothFalse | khash.h:170 | makes one bucket live and leaves every other bucket's status alone |
| Flags.SetIsEmptyFalse | khash.h:169 | clears the empty bit of one bucket and leaves every other bucket's status alone |
| Flags.FillEmpty | khash.h:226 | filling the words with 0xaa makes every bucket empty, and the words suffice for the table |
| RoundUp.KRoundUp32 | khash.h:176 | the 32-bit decrement, smear and increment give the least power of two at least x; 0 for 0 and beyond 2^31 |
| RoundUp.LeastPow2Unique | khash.h:176 | that number is the least power of two at least x and the only one below 2x |
| RoundUp.PutRequests | khash.h:311-315 | the requests n - 1 and n + 1 of kh_put become n and 2n |
| RoundUp.ComputeUpperBound | khash.h:303 | for every double within 1e-12 of 0.77 and every rounding of the product and the sum within 0.001, the load limit is the integer (77n + 50) / 100 |
| RoundUp.NotOnBoundary | khash.h:192-303 | 77n + 50 is never a multiple of 100 for powers of two from 4 on: why the limit does not depend on the rounding |
| RoundUp.SameLimit | khash.h:192-303 | any multiplier within 1e-12 of 0.77, with a rounding error of up to 0.001, gives the same limit for every table size up to 2^31 |
| RoundUp.LoadRoom | khash.h:303-311 | a half-full table is below its limit, and the limit leaves an empty bucket |
| Slots.HoldsIsMapOf | khash.h:194-200 | the live slots hold m exactly when m is the map from their keys to their values with no key twice |
| Slots.StoresIffHolds | khash.h:194-200 | the recursive and the set reading of "these slots hold the map m" are equivalent |
| Slots.AbsentAfter | khash.h:237-241 | a search stopped by an empty bucket, or gone all the way round, has not missed the key |
| Slots.ChainMonotone | khash.h:283-342 | no chain breaks when buckets stop being empty and the moved keys are themselves reachable |
| Slots.Delete | khash.h:349-355 | a tombstone in place of a live bucket removes its key from the map and keeps every other key reachable |
| Slots.Insert | khash.h:336-345 | a key written into a reachable bucket that is not live is added to the map and breaks no chain |
| Slots.ScanEnd | khash.h:325-333 | the search of kh_put that meets an empty bucket ends at the last tombstone ahead of it or, without one, at it |
| Slots.WentRound | khash.h:327-332 | a search that went all the way round met no empty bucket, and only live ones if it found no tombstone |
| Slots.PutSiteReached | khash.h:325-333 | that bucket is not live and no empty bucket lies ahead of it on the key's chain |
| Rehash.PickUp | khash.h:270-276 | taking an element out of the old table leaves the two tables holding the map without its key |
| Rehash.Kick | khash.h:283-286 | swapping the element in hand with a live old one keeps: old slots + new slots + hand = the map |
| Rehash.Settle | khash.h:287-291 | writing the element into an unused slot gives the whole map back |
| Rehash.RoomToPlace | khash.h:281 | while elements are missing from the new table it has an empty bucket |
| Rehash.EndSplit | khash.h:294-304 | when no old slot is live the new table alone holds the map, without tombstones |
| KHash.Table.constructor | khash.h:212-214 | a new table is the empty map and has no buckets |
| KHash.Table.Get | khash.h:230-243 | returns the bucket of the key exactly when it is in the map, n_buckets otherwise; never fooled by tombstones |
| KHash.Table.Lookup | khash.h:233-240 | the probe loop ends, at the key, at an empty bucket or after a full turn, and passed neither before |
| KHash.Table.Del | khash.h:349-355 | a live bucket becomes a tombstone and its key leaves the map; any other argument changes nothing |
| KHash.Table.Clear | khash.h:223-229 | the map is empty and every bucket is empty |
| KHash.Table.SetValue | malloc369.c:122 | the value store through the bucket of a key updates the map at that key |
| KHash.Table.FindEmpty | khash.h:278-281 | the probe of the rehash ends at an empty bucket that is reachable from the key's home |
| KHash.Table.KickOut | khash.h:277-292 | the kick-out loop ends (the live old slots get fewer) with every element stored and the map whole again |
| KHash.Table.RehashInto | khash.h:269-294 | afterwards no old bucket is live and the new flags describe the whole map |
| KHash.Table.MoveAll | khash.h:268-294 | in the same arrays, the new table holds the same map, every key reachable under the new mask, no tombstone, all of `size` buckets occupied |
| KHash.Table.Resize | khash.h:244-306 | for any requested size the map is unchanged; a rehash gives the rounded size, no tombstone and n_occupied = size; a too small request or a failed allocation changes nothing; it fails exactly when fewer allocations are granted than it makes |
| KHash.Table.Grow | khash.h:256-264 | expanding the key and value blocks loses nothing and fails cleanly |
| KHash.Table.RequestsRebuild | khash.h:310-317 | both requests of kh_put lead to a rehash, except doubling from 2^31 |
| KHash.BigTable | khash.h:176-315 | 2^31 is the only table size from which doubling leaves 32 bits |
| KHash.Targets | khash.h:176-315 | n - 1 comes to n buckets, n + 1 to 2n, or to the minimum of 4 when the doubled size leaves 32 bits |
| KHash.Table.MakeRoom | khash.h:310-318 | exactly when memory is short for the rehash it fails and keeps the buckets; otherwise there is room for another element if and only if the table could grow, with as many buckets as before when less than half were live, twice as many otherwise, 4 in an empty table |
| KHash.Table.FindSite | khash.h:320-334 | the key's own bucket if it is present, else the bucket to insert it in; a tombstone, or another key's bucket, when no bucket is empty |
| KHash.Table.Put | khash.h:307-348 | the key has exactly one live bucket afterwards, except exactly when it is new and all 2^31 buckets are live; ret 0, 1, 2 means present, fresh bucket, reused tombstone; ret -1 exactly for want of memory, the map unchanged; the number of buckets changes exactly as MakeRoom says |
| KHash.Table.PutValue | malloc369.c:36-42 | kh_put with the value store updates the map at the key; with all 2^31 buckets live a new key's value goes to another key |
| KHash.LargestFullTable | khash.h:307-348 | whatever the hash function, there is a coherent table with 2^31 live buckets |
| KHashRuns.Perform | khash.h:223-355 | one call, granted any number of allocations, answers and changes the map as a finite map would, unless it puts a new key where there are 2^31 |
| KHashRuns.PerformAll | khash.h:223-355 | any sequence of put, get, delete, clear and resize, with failing allocations, refines a finite map, returned codes included, as long as no new key is put where there are 2^31 |
| LedgerSpec.MallocConserves | malloc369.c:25-45 | an allocation keeps counters and map in agreement if and only if size < 2^63 and the address is not live |
| LedgerSpec.FreeConserves | malloc369.c:61-122 | a free keeps the agreement and removes exactly the block freed; wrong frees, double frees and size 0 are each recognised exactly; wrong and double frees have no effect |
| LedgerSpec.RunConserves | malloc369.c:25-123 | agreement is kept by every run, with address reuse, wrong frees, double frees and blocks of size 0 |
| LedgerSpec.LedgerIsExact | malloc369.c:91-147 | in every reachable ledger the outstanding counts are the number and the total size of the live blocks, and free369 fails an assertion exactly on a live block of size 0 |
| LedgerSpec.ZeroSizeCannotBeFreed | malloc369.c:25-100 | malloc369(0) is accepted and counted, and freeing its block fails an assertion |
| LedgerSpec.StepCounts | malloc369.c:27-96 | an allocation counts one malloc with its size and no free; a free counts no malloc, and one free with the size of the block exactly when the block was live |
| LedgerSpec.CountersAreExact | malloc369.c:27-157 | the four running counters are the number and total size of all allocations, and of the frees that gave back a live block |
| LedgerSpec.FreeAnswers | malloc369.c:47-92 | what free369 does is decided by the calls made before for that address: never handed out, freed since, or in use with its size |
| LedgerSpec.LeakTestIsExact | malloc369.c:162-170 | is_leak_free holds exactly when the number of live blocks and their total size are within the two tolerances |
| Malloc369.Allocations.constructor | malloc369.c:127-135 | starts as an empty ledger |
| Malloc369.Allocations.Malloc | malloc369.c:25-45 | over the hash table, computes the ledger's allocation for any address known or among the first 2^31; the table's assertion fails exactly when it has to rehash without memory |
| Malloc369.Allocations.Free | malloc369.c:47-123 | over the hash table, computes the ledger's free, with the same outcome |
| Malloc369.Allocations.PerformAll | malloc369.c:25-123 | over the hash table, a run of any length on at most 2^31 different addresses ends in the ledger of the value-level run, with the counters exact |
| Ring.Queue.Push | thread.c:134-143 | appends, or reports a full buffer and keeps it, through every wrap-around |
| Ring.Queue.Pop | thread.c:154-162 | removes and returns the first element, or ERR_EMPTY |
| Ring.Queue.PopLast | thread.c:145-152 | removes and returns the last element, so it undoes a push; or ERR_EMPTY |
| SchedInv.PopAnyFacts | thread.c:264-274 | get_thread_any drops a prefix of entries that are not runnable or are the caller's and takes the next one |
| SchedInv.PopAnyComplete | thread.c:264-274 | it answers THREAD_NONE exactly when no other thread is runnable, and drops nobody who is |
| SchedInv.SwitchKeeps | thread.c:356-362 | a switch to a runnable thread keeps the invariant, the caller being back in the ready queue |
| SchedInv.YieldAnyKeeps | thread.c:314-362 | thread_yield(THREAD_ANY) keeps the invariant, never lengthens the ready queue, and stays only when alone |
| SchedInv.EnqueueKeeps | thread.c:462-463 | going to sleep on a queue: the push is never dropped and the thread is in that queue once |
| SchedSteps.YieldToKeeps | thread.c:321-362 | yielding to a live thread keeps the invariant if and only if that thread is not asleep and the push of the caller finds room |
| SchedSteps.RollBack | thread.c:465-470 | the rollback finds the caller last in the queue and restores the state |
| SchedSteps.SleepAtHome | thread.c:453-473 | thread_sleep never fails its assertion; alone it changes nothing but the ready queue, otherwise the caller sleeps last in the queue |
| SchedSteps.WaitBlocks | thread.c:528-537 | a blocking thread_wait keeps the invariant if and only if another thread is runnable |
| SchedSteps.WakeAllOrder | thread.c:487-503 | waking all makes exactly the sleepers runnable, appends them to the ready queue in queue order as far as it has room, empties the queue and returns their number |
| SchedSteps.WakeOneOrder | thread.c:487-503 | waking one makes the first sleeper runnable and nobody else, appends it if there is room, and removes only the entries up to it |
| SchedSteps.WakeKeeps | thread.c:478-506 | the assertion of thread_wakeup never fails; the invariant survives if and only if everybody woken finds room in the ready queue or is there already |
| SchedSteps.WakeEffect | thread.c:478-506 | the whole effect: who becomes runnable, ready queue, wait queue, return value; owner, ledger and caller untouched; the same if and only if |
| SchedSteps.AcquireKeeps | thread.c:575-585 | lock_acquire gets a free lock, sleeps in the queue of a held one, or tries again when alone; the invariant holds |
| SchedSteps.NoSpin | thread.c:579-581 | it never gets THREAD_NONE while the holder is runnable |
| SchedSteps.ReleaseKeeps | thread.c:588-597 | the lock is free and exactly those asleep in its queue become runnable, in order; the invariant, by which a free lock has no sleeper, survives if and only if they find room or are in the ready queue already |
| SchedSteps.CvWaitKeeps | thread.c:623-635 | releasing the lock and joining the queue of the cv is one step: no other thread runs in between; it returns at once if and only if the caller is alone and nobody waits for the lock; the invariant survives if and only if the waiters find room or are in the ready queue already |
| SchedSteps.CvWakeKeeps | thread.c:638-657 | signal makes the first sleeper runnable and broadcast all of them, in order, and nobody else; the invariant survives if and only if they find room or are in the ready queue already |
| SchedSteps.NewQueueKeeps | thread.c:432-612 | new queues, locks and cvs keep the invariant |
| SchedSteps.ResumeKeeps | thread.c:338-350 | finishing a suspended call keeps the invariant |
| SchedDeath.HandleDeathKeeps | thread.c:366-380 | its assertion never fails; a sleeping waiter runs next; the invariant survives if and only if the dying thread holds no lock and the caller, if it outlives the switch, finds room in the ready queue or is there already |
| SchedDeath.KillKeeps | thread.c:402-425 | the victim is gone, its stack is freed, nobody else changes, the caller goes on unless the victim had a waiter; the invariant survives if and only if the victim held no lock and the caller is not lost in the switch to the waiter |
| SchedDeath.ExitKeeps | thread.c:383-399 | the caller never runs again; its waiter or any runnable thread does; the process ends exactly when there is neither; the invariant survives if and only if the caller held no lock |
| SchedDeath.CreateKeeps | thread.c:221-262 | creation keeps the invariant if and only if nothing still names the slot and the push finds room |
| SchedStacks.StacksBorn | thread.c:239-257 | a new thread's stack is added to the outstanding blocks and is no other thread's, queue's, lock's or cv's |
| SchedStacks.StacksFreed | thread.c:418-420 | a dead thread's stack is freed, once, and nothing else is |
| SchedStacks.QueueBorn | thread.c:432-612 | a new wait queue brings one block, a new lock or cv two, which are nobody else's |
| SchedRuns.InitGood | thread.c:174-200 | thread_init, after init_csc369_malloc, establishes the invariant and the account of blocks |
| SchedRuns.StepKeeps | thread.c:221-657 | every step that meets the premises keeps the invariant and the account of blocks, fails no assertion, and adds at most its cost to the ready queue |
| SchedRuns.RoomDecides | thread.c:134-657 | of a step that meets the other premises no assertion fails, and the invariant survives if and only if everybody it pushes and leaves runnable finds room in the ready queue or is there already |
| SchedRuns.RunKeeps | thread.c:221-657 | the invariant and the account of blocks hold throughout runs of any length |
| SchedRuns.ProgramsAreSafe | thread.c:174-657 | in every state reachable from thread_init by a run of any length, the next step fails no assertion |
| SchedRuns.RoomForRun | thread.c:134-143 | a run with no more creations, wakeups and targeted switches than free places always finds room |
| SchedReady.InvReady | thread.c:134-162 | after any step the ready queue is exactly what it was, with those the step made runnable behind it as far as there is room, without some entries from its front, which only get_thread_any takes, the last of them running next and nobody ahead of it able to, and with the caller behind when the step ends in a switch |
| SchedReady.NoPushDropped | thread.c:134-162 | with room for everything a step may push, nothing is dropped: afterwards the ready queue is what is left of it from some entry on, followed by every thread pushed, in order |
| SchedHistory.CodesAreFinal | thread.c:382-399 | the exit code recorded for an incarnation is never replaced, in runs of any length |
| SchedHistory.HandOff | thread.c:528-543 | thread_wait stores the code of the incarnation that was alive when the caller blocked |
| SchedHistory.RightCodes | thread.c:366-543 | the same in every reachable state, although slots are reused |
| SchedHistory.MutualExclusion | thread.c:575-597 | in every reachable state at most one thread is between acquire and release, and it is the recorded owner |
| SchedWaiting.StepCloser | thread.c:134-162 | any step makes a runnable thread current or leaves its place in the ready queue no worse, and a THREAD_ANY choice improves it |
| SchedWaiting.BoundedWaiting | thread.c:264-362 | a runnable thread with p entries ahead of it is passed over at most p times, in runs of any length |
| SchedTheorems.SleepersHaveOnePlace | thread.c:453-544 | in every reachable state a sleeping thread is once in one wait queue or the waiter of one live thread, never both |
| SchedTheorems.NamedAreAsleep | thread.c:372-493 | in every reachable state a live thread named by a queue or a live waiter field is asleep |
| SchedTheorems.NobodyIsLost | thread.c:264-274 | in every reachable state every runnable thread but the current one is in the ready queue |
| SchedTheorems.NoneMeansAlone | thread.c:264-336 | in every reachable state thread_yield(THREAD_ANY) returns THREAD_NONE if and only if no other thread is runnable, and otherwise goes over to one that is |
| SchedTheorems.WaitQueuesAreShort | thread.c:66-75 | a wait queue holds at most 1024 ids, so its pushes are never dropped |
| SchedTheorems.LockSleepersAreAwaited | thread.c:575-597 | a thread asleep in lock_acquire waits for a held lock, and the holder's release makes it runnable |
| SchedTheorems.InsideCvWait | thread.c:623-635 | inside cv_wait a thread is asleep in the cv's queue or runnable, and it comes out only as the holder |
| SchedTheorems.SignalWakes | thread.c:638-657 | cv_signal makes the longest sleeper runnable, cv_broadcast every sleeper |
| SchedTheorems.BlocksAreCounted | malloc369.c:143-147 | in every reachable state the allocator's outstanding count and bytes are those of the live created threads' stacks and of the wait queues, locks and cvs, and its live blocks are exactly these |
| SchedAnswers.YieldAnswers | thread.c:310-333 | in every reachable state thread_yield(t) returns at once exactly for the caller, THREAD_INVALID exactly for a tid out of range or of a dead thread, nothing having changed, and switches to t otherwise |
| SchedAnswers.YieldAnyAnswers | thread.c:264-321 | THREAD_NONE exactly when alone; otherwise the first thread in the ready queue that can run is next |
| SchedAnswers.WaitAnswers | thread.c:510-544 | in every reachable state thread_wait collects at once the code recorded for a dead thread unless it is that of a killed one; refuses the caller, a tid out of range, a killed or never created thread and a live thread somebody waits for already, nothing having changed; and sleeps otherwise |
| SchedAnswers.SleepAnswers | thread.c:453-473 | THREAD_INVALID exactly for a NULL queue, THREAD_NONE exactly when alone, nothing but stale ready entries having changed; otherwise the caller sleeps, last in the queue |
| SchedAnswers.WakeupAnswers | thread.c:478-506 | 0 and no change for a NULL queue, otherwise the number of threads woken |
| SchedAnswers.CreateAnswers | thread.c:221-262 | THREAD_NOMORE and no change exactly when slots 1 to 1023 are all alive; otherwise the lowest free slot holds a new runnable thread and no other thread changes |
| SchedAnswers.KillAnswers | thread.c:402-425 | THREAD_INVALID and no change exactly for the caller, a tid out of range and a dead thread; otherwise the victim is gone |
| SchedAnswers.HolderAsserted | thread.c:588-657 | lock_release, cv_wait, cv_signal and cv_broadcast fail their assertion exactly when the caller does not hold the lock |
| SchedAnswers.NewQueueAnswers | thread.c:432-612 | creation of a queue, lock or cv ends the process exactly when malloc fails; otherwise the queue is empty, the lock free and all else as it was |
| SchedAnswers.ResumeAnswers | thread.c:338-585 | a thread that is switched to returns from thread_sleep, hands over the code of its dead target, or takes a free lock and waits for a held one |
| SchedLimits.ReusedSlotBreaksWakeup | thread.c:478-506 | a program whose reuse of a slot makes the assertion of thread_wakeup fail |
| SchedLimits.YieldRunsASleeper | thread.c:329-333 | a program in which thread_yield runs a sleeping thread |
| SchedLimits.WaitAloneReturnsEarly | thread.c:528-543 | a program in which thread_wait returns while its target is alive and leaves the current thread marked as asleep |
| SchedLimits.LockDiesWithItsHolder | thread.c:402-585 | a program that kills the holder of a lock, after which lock_acquire spins for ever |
| SchedLimits.FullQueueLosesThread | thread.c:134-257 | a program that fills the ready queue by targeted yields, after which a new thread is runnable and in no queue |
| Kernel.Scheduler.constructor | thread.c:174-200 | builds the initial state of the step machine, beside an allocator with which it shares nothing |
| Kernel.Scheduler.GetThreadAny | thread.c:264-274 | the popping loop ends and leaves the thread, and the rest of the queue, that SchedInv.PopAnyFacts describes |
| Kernel.Scheduler.ThreadYield | thread.c:307-364 | in place, exactly the effect of Sched.Yield, of which SchedSteps.YieldToKeeps and SchedInv.YieldAnyKeeps speak |
| Kernel.Scheduler.ThreadCreate | thread.c:221-262 | in place, with the loop over the table and the call of malloc369: the lowest free slot from 1 on; the step of which SchedDeath.CreateKeeps speaks |
| Kernel.Scheduler.HandleDeath | thread.c:366-380 | in place, the step of which SchedDeath.HandleDeathKeeps speaks |
| Kernel.Scheduler.ThreadKill | thread.c:402-425 | in place, with the call of free369, the step of which SchedDeath.KillKeeps speaks |
| Kernel.Scheduler.ThreadExit | thread.c:276-293 | in place, the step of which SchedDeath.ExitKeeps speaks |
| Kernel.Scheduler.ThreadSleep | thread.c:453-473 | in place, over the ring buffers and with the rollback, the step of which SchedSteps.SleepAtHome speaks |
| Kernel.Scheduler.ThreadWakeup | thread.c:478-506 | the popping loop ends and has exactly the effect of which SchedSteps.WakeEffect speaks |
| Kernel.Scheduler.ThreadWait | thread.c:510-544 | in place, the step of which SchedSteps.WaitBlocks speaks, and all its early returns |
| Kernel.Scheduler.LockAcquire | thread.c:575-585 | one turn of the loop, in place, is the step of which SchedSteps.AcquireKeeps speaks |
| Kernel.Scheduler.LockRelease | thread.c:588-597 | in place, the step of which SchedSteps.ReleaseKeeps speaks |
| Kernel.Scheduler.CvWait | thread.c:623-635 | in place, the step of which SchedSteps.CvWaitKeeps speaks |
| Kernel.Scheduler.CvWake | thread.c:638-657 | in place, the step of which SchedSteps.CvWakeKeeps speaks |
| Kernel.Scheduler.NewQueue | thread.c:432-612 | in place, with the calls of malloc369, the step of which SchedSteps.NewQueueKeeps speaks; the buffer is shared with no other queue |
| Kernel.Scheduler.Step | thread.c:221-657 | any step on the heap, the allocator included, is the step of the machine |
| Kernel.Scheduler.ObligedStep | thread.c:221-657 | with the obligations kept, no C assertion fails on the heap either, and the invariant holds again |
| KernelRuns.Execute | thread.c:221-657 | a run of any length on at most 2^31 different addresses, carried out on the heap, ends in the state of the machine at its end |

## Left out

- Contexts, registers and stack memory: a switch changes `current` and the thread's continuation.
- The way out of `thread_exit` through thread 0's saved context: an exit is one step. The main thread exiting when nothing
  else can run, and the exit code of the main thread before it exits, rest on unspecified context; the first is reported
  as a crash, the second is a parameter of the initial state.
- Signals, the interrupt mask and timers: a step is atomic, and a thread that was switched to inside a call must finish
  it (`ResumeOp`) before it can do anything else. The assertions about the interrupt mask are not modelled.
- What a switching call returns when its caller runs again: the tid is reported at the switch.
- `wait_queue_destroy`, `lock_destroy` and `cv_destroy`: handles stay valid.
- Kernel.Scheduler.ThreadCreate: like the other methods that allocate, for addresses `malloc_map` has a place for (all of
  the first 2^31), and with the allocations of `malloc_map` itself granted; `Malloc369.Allocations.Malloc` says what
  happens otherwise.
- Malloc369.Allocations.Malloc: counters are unbounded integers, so totals beyond a `long` are not modelled; nor is the
  conversion to unsigned in the comparison at malloc369.c:95, which matters only for a negative balance, and
  `LedgerSpec.LedgerIsExact` excludes that. Failure of the table's own allocations is an outcome (`PutFailed`). From the
  2^31st different address on a full table may record a block under another address; the contract leaves that case open
  and `KHash.Table.PutValue` describes it.
- KHash.Table.Resize: the failure of the two shrinking `realloc` calls, which the C code does not check, is not modelled;
  a `realloc` is a fresh block with the old contents.
- The hash functions, the unused macro `__ac_set_isdel_false`, `kh_destroy`, the set (no values) variant of the table.
- The 0xee fill of freed memory, printing, `queue_index`, `print_queue`, `counter`, everything in common.c, and the
  programs that exercise the library.
