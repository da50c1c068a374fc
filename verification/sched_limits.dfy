/** Where the obligations on programs come from: small runs after which thread.c goes wrong. */
module SchedLimits {
  import opened RingSpec
  import opened Sched
  import opened SchedInv
  import opened SchedSteps
  import opened SchedDeath
  import opened SchedRuns
  import L = LedgerSpec

  /** The wait queue or lock the runs are about. */
  ghost predicate Handle(q: QId) {
    q == UserQ(0) || q == LockQ(0)
  }

  /** q is the only wait queue, with these threads in it, and its lock, if it has one, is held by holder. */
  ghost predicate OnlyQueue(s: Sys, q: QId, queue: seq<int>, holder: int) {
    s.queues == map[q := queue] && s.owner == if q.LockQ? then map[0 := holder] else map[]
  }

  ghost predicate MainRuns(s: Sys)
    requires WellFormed(s)
  {
    s.threads[0].cont == User && s.threads[0].state == Running && s.threads[0].waiter == -1
  }

  /** Only the main thread, which has made q. */
  ghost predicate OneThread(s: Sys, q: QId) {
    && WellFormed(s) && OnlyQueue(s, q, [], -1) && MainRuns(s) && s.current == 0 && s.ready == []
    && (forall t :: 0 < t < MAX_THREADS ==> s.threads[t].state == Destroyed)
    && 100 !in s.ledger.entries && 200 !in s.ledger.entries
    && L.CurrentMallocs(s.ledger) >= 0 && L.CurrentBytes(s.ledger) >= 0
  }

  /** It has created thread 1, whose stack is at address 100. */
  ghost predicate TwoThreads(s: Sys, q: QId, queue: seq<int>, holder: int, current: int, other: int, st: State) {
    && WellFormed(s) && OnlyQueue(s, q, queue, holder) && MainRuns(s) && s.current == current && s.ready == [other]
    && s.threads[1].state == st && s.threads[1].waiter == -1 && s.threads[1].stack == 100
    && s.threads[1].exitCode == KILLED
    && (st == Running ==> s.threads[1].cont == User)
    && (forall t :: 1 < t < MAX_THREADS ==> s.threads[t].state == Destroyed)
    && 100 in s.ledger.entries && s.ledger.entries[100] == STACK && 200 !in s.ledger.entries
    && L.CurrentMallocs(s.ledger) >= 1 && L.CurrentBytes(s.ledger) >= STACK
  }

  lemma FirstQueue(s0: Sys, q: QId, code: int, stack: nat, led: L.Ledger) returns (s: Sys)
    requires Handle(q) && L.IsEmpty(led) && s0 == Init(code, stack, led)
    ensures OneThread(s, q) && Next(s0, NewQueueOp(q, 40, 50)) == (s, Ret(0)) && CanStep(s0, NewQueueOp(q, 40, 50))
  {
    InitFields(s0, code, stack, led);
    s := MakeQueue(s0, q);
  }

  lemma MakeQueue(s0: Sys, q: QId) returns (s: Sys)
    requires Handle(q) && WellFormed(s0) && s0.queues == map[] && s0.owner == map[] && MainRuns(s0) && s0.current == 0
    requires s0.ready == [] && (forall t :: 0 < t < MAX_THREADS ==> s0.threads[t].state == Destroyed)
    requires L.IsEmpty(s0.ledger)
    ensures OneThread(s, q) && Next(s0, NewQueueOp(q, 40, 50)) == (s, Ret(0)) && CanStep(s0, NewQueueOp(q, 40, 50))
  {
    assert s0.ledger.entries == map[];
    s := NewQueue(s0, q, 40, 50).0;
    assert s.queues == map[q := []];
    assert q.LockQ? ==> s.owner == map[0 := -1];
  }

  /** The main thread creates thread 1. */
  lemma ThenCreate(s: Sys, q: QId) returns (s': Sys)
    requires Handle(q) && OneThread(s, q)
    ensures TwoThreads(s', q, [], -1, 0, 1, Running) && Next(s, CreateOp(100)) == (s', Ret(1))
            && CanStep(s, CreateOp(100))
  {
    assert FreeSlot(s.threads, 1) == 1;
    assert Push([], 1) == [1];
    s' := Create(s, 100).0;
    assert s'.ready == [1];
  }

  /** The other thread gets its turn. */
  lemma ThenYield(s: Sys, q: QId, holder: int, current: int, other: int) returns (s': Sys)
    requires Handle(q) && TwoThreads(s, q, [], holder, current, other, Running)
    requires (current == 0 && other == 1) || (current == 1 && other == 0)
    ensures TwoThreads(s', q, [], holder, other, current, Running)
    ensures Next(s, YieldOp(ANY)) == (s', Switch(other)) && CanStep(s, YieldOp(ANY))
  {
    assert PopAny(s.ready, s.threads, current) == ([], other);
    assert Push([], current) == [current];
    s' := Yield(s, ANY, User).0;
  }

  /** Thread 1 goes to sleep in queue 0. */
  lemma ThenSleep(s: Sys) returns (s': Sys)
    requires TwoThreads(s, UserQ(0), [], -1, 1, 0, Running)
    ensures TwoThreads(s', UserQ(0), [1], -1, 0, 1, Sleep)
    ensures Next(s, SleepOp(0)) == (s', Switch(0)) && CanStep(s, SleepOp(0))
  {
    var s1 := Enqueued(s, UserQ(0));
    assert s1.queues == map[UserQ(0) := [1]] by { assert Push([], 1) == [1]; }
    assert PopAny(s1.ready, s1.threads, 1) == ([], 0);
    assert Push([], 1) == [1];
    s' := SleepOn(s, UserQ(0), InSleep(0)).0;
  }

  /** A run that ends with the creation of thread 1. */
  lemma ToTwoThreads(q: QId, code: int, stack: nat, led: L.Ledger) returns (s0: Sys, ops: seq<Op>, s: Sys)
    requires Handle(q) && L.IsEmpty(led)
    ensures s0 == Init(code, stack, led) && Run(s0, ops, s) && TwoThreads(s, q, [], -1, 0, 1, Running)
  {
    s0 := Init(code, stack, led);
    assert Run(s0, [], s0);
    var s1 := FirstQueue(s0, q, code, stack, led);
    RunStep(s0, [], s0, NewQueueOp(q, 40, 50));
    s := ThenCreate(s1, q);
    RunStep(s0, [] + [NewQueueOp(q, 40, 50)], s1, CreateOp(100));
    ops := [] + [NewQueueOp(q, 40, 50)] + [CreateOp(100)];
  }

  /** A run that ends with thread 1 having its first turn. */
  lemma ToThreadOne(q: QId, code: int, stack: nat, led: L.Ledger) returns (s0: Sys, ops: seq<Op>, s: Sys)
    requires Handle(q) && L.IsEmpty(led)
    ensures s0 == Init(code, stack, led) && Run(s0, ops, s) && TwoThreads(s, q, [], -1, 1, 0, Running)
  {
    var ops1, s1;
    s0, ops1, s1 := ToTwoThreads(q, code, stack, led);
    s := ThenYield(s1, q, -1, 0, 1);
    RunStep(s0, ops1, s1, YieldOp(ANY));
    ops := ops1 + [YieldOp(ANY)];
  }

  /** The main thread creates thread 1, which goes to sleep in queue 0. */
  lemma PutToSleep(code: int, stack: nat, led: L.Ledger) returns (s0: Sys, ops: seq<Op>, s: Sys)
    requires L.IsEmpty(led)
    ensures s0 == Init(code, stack, led) && Run(s0, ops, s) && TwoThreads(s, UserQ(0), [1], -1, 0, 1, Sleep)
  {
    var ops1, s1;
    s0, ops1, s1 := ToThreadOne(UserQ(0), code, stack, led);
    s := ThenSleep(s1);
    RunStep(s0, ops1, s1, SleepOp(0));
    ops := ops1 + [SleepOp(0)];
  }

  lemma Reached(s0: Sys, ops: seq<Op>, s: Sys, code: int, stack: nat, led: L.Ledger)
    requires L.IsEmpty(led) && s0 == Init(code, stack, led) && Run(s0, ops, s)
    ensures Reachable(s)
  {
    assert Initial(s0);
    RunsReach(s0, ops, s);
  }

  /** Thread 1 is gone, but queue 0 still names it. */
  ghost predicate AfterKill(s: Sys) {
    && WellFormed(s) && s.current == 0 && s.threads[0].cont == User && s.queues == map[UserQ(0) := [1]]
    && s.threads[1].state == Destroyed && 200 !in s.ledger.entries && s.ready == [1]
  }

  /** The main thread kills the sleeping thread 1. */
  lemma ThenKill(s: Sys) returns (s': Sys)
    requires TwoThreads(s, UserQ(0), [1], -1, 0, 1, Sleep)
    ensures Next(s, KillOp(1)) == (s', Ret(1)) && CanStep(s, KillOp(1)) && AfterKill(s')
  {
    s' := Kill(s, 1, false).0;
  }

  /** A slot reused too early: a program creates a thread, lets it sleep in a wait queue, kills it there, creates a
      thread again (which gets the same slot) and wakes the queue. The assertion of thread_wakeup fails. Only the
      second creation breaks an obligation: the slot it takes is still named by the queue. */
  lemma ReusedSlotBreaksWakeup(code: int, stack: nat, led: L.Ledger) returns (s: Sys)
    requires L.IsEmpty(led)
    ensures Reachable(s) && Enabled(s, CreateOp(200)) && 200 !in L.Live(s.ledger.entries)
    ensures FreeSlot(s.threads, 1) == 1 && InQueue(s.queues, UserQ(0), 1)
    ensures Create(s, 200).1 == Ret(1) && Enabled(Create(s, 200).0, WakeupOp(0, false))
    ensures Next(Create(s, 200).0, WakeupOp(0, false)).1 == Crash
  {
    var s0, ops, s1 := PutToSleep(code, stack, led);
    s := ThenKill(s1);
    RunStep(s0, ops, s1, KillOp(1));
    Reached(s0, ops + [KillOp(1)], s, code, stack, led);
    ThenReuse(s);
  }

  lemma ThenReuse(s: Sys)
    requires AfterKill(s)
    ensures Enabled(s, CreateOp(200)) && 200 !in L.Live(s.ledger.entries)
    ensures FreeSlot(s.threads, 1) == 1 && InQueue(s.queues, UserQ(0), 1)
    ensures Create(s, 200).1 == Ret(1) && Enabled(Create(s, 200).0, WakeupOp(0, false))
    ensures Next(Create(s, 200).0, WakeupOp(0, false)).1 == Crash
  {
    assert FreeSlot(s.threads, 1) == 1;
  }

  /** Yielding by name to a sleeping thread switches to it as if it were runnable. */
  lemma YieldRunsASleeper(code: int, stack: nat, led: L.Ledger) returns (s: Sys)
    requires L.IsEmpty(led)
    ensures Reachable(s) && Enabled(s, YieldOp(1)) && IsAsleep(s.threads, 1)
    ensures Next(s, YieldOp(1)).1 == Switch(1) && Next(s, YieldOp(1)).0.current == 1
    ensures IsAsleep(Next(s, YieldOp(1)).0.threads, 1)
  {
    var s0, ops;
    s0, ops, s := PutToSleep(code, stack, led);
    Reached(s0, ops, s, code, stack, led);
    StillAsleep(s);
  }

  lemma StillAsleep(s: Sys)
    requires TwoThreads(s, UserQ(0), [1], -1, 0, 1, Sleep)
    ensures Enabled(s, YieldOp(1)) && IsAsleep(s.threads, 1)
    ensures Next(s, YieldOp(1)).1 == Switch(1) && Next(s, YieldOp(1)).0.current == 1
    ensures IsAsleep(Next(s, YieldOp(1)).0.threads, 1)
  {
  }

  /** Waiting when nobody else can run: thread_wait returns at once, with the code of a killed thread, although its
      target is alive; and the current thread is left marked as asleep. */
  lemma WaitAloneReturnsEarly(code: int, stack: nat, led: L.Ledger) returns (s: Sys)
    requires L.IsEmpty(led)
    ensures Reachable(s) && Enabled(s, WaitOp(1)) && Alive(s.threads, 1)
    ensures var (s', out) := Next(s, WaitOp(1));
            out == Collected(1, KILLED) && Alive(s'.threads, 1) && IsAsleep(s'.threads, s'.current)
  {
    var s0, ops;
    s0, ops, s := PutToSleep(code, stack, led);
    Reached(s0, ops, s, code, stack, led);
    WaitsAlone(s);
  }

  lemma WaitsAlone(s: Sys)
    requires TwoThreads(s, UserQ(0), [1], -1, 0, 1, Sleep)
    ensures Enabled(s, WaitOp(1)) && Alive(s.threads, 1)
    ensures var (s', out) := Next(s, WaitOp(1));
            out == Collected(1, KILLED) && Alive(s'.threads, 1) && IsAsleep(s'.threads, s'.current)
  {
    var s1 := Waiting(s, 1);
    assert s1.ready[1..] == [];
    assert PopAny(s1.ready[1..], s1.threads, 0) == ([], NONE);
    assert PopAny(s1.ready, s1.threads, 0) == ([], NONE);
  }

  /** Thread 1 takes the free lock 0. */
  lemma ThenAcquire(s: Sys) returns (s': Sys)
    requires TwoThreads(s, LockQ(0), [], -1, 1, 0, Running)
    ensures TwoThreads(s', LockQ(0), [], 1, 1, 0, Running)
    ensures Next(s, AcquireOp(0)) == (s', Ret(0)) && CanStep(s, AcquireOp(0))
  {
    s' := AcquireLoop(s, 0).0;
    assert s'.owner == map[0 := 1];
  }

  /** A lock that dies with its holder: thread 1 takes a lock, is preempted, and is killed. Whoever acquires the lock
      then, alone, tries again for ever. */
  lemma LockDiesWithItsHolder(code: int, stack: nat, led: L.Ledger) returns (s: Sys)
    requires L.IsEmpty(led)
    ensures Reachable(s) && Enabled(s, KillOp(1)) && !HoldsNoLock(s, 1)
    ensures Next(s, KillOp(1)).1 == Ret(1) && Enabled(Next(s, KillOp(1)).0, AcquireOp(0))
    ensures var (s', out) := Next(Next(s, KillOp(1)).0, AcquireOp(0));
            out == Spin && Enabled(s', ResumeOp) && Next(s', ResumeOp) == (s', Spin)
  {
    var s0, ops, s1 := ToThreadOne(LockQ(0), code, stack, led);
    var s2 := ThenAcquire(s1);
    RunStep(s0, ops, s1, AcquireOp(0));
    s := ThenYield(s2, LockQ(0), 1, 1, 0);
    RunStep(s0, ops + [AcquireOp(0)], s2, YieldOp(ANY));
    Reached(s0, ops + [AcquireOp(0)] + [YieldOp(ANY)], s, code, stack, led);
    var s3 := ThenKillHolder(s);
    SpinsForEver(s3);
  }

  /** Lock 0 is held by thread 1, which is dead, and the main thread is alone. */
  ghost predicate Orphaned(s: Sys, ready: seq<int>) {
    && WellFormed(s) && OnlyQueue(s, LockQ(0), [], 1) && s.current == 0 && s.ready == ready
    && s.threads[0].state == Running && forall t :: 0 < t < MAX_THREADS ==> s.threads[t].state == Destroyed
  }

  lemma ThenKillHolder(s: Sys) returns (s': Sys)
    requires TwoThreads(s, LockQ(0), [], 1, 0, 1, Running)
    ensures Enabled(s, KillOp(1)) && !HoldsNoLock(s, 1) && Next(s, KillOp(1)) == (s', Ret(1))
    ensures Orphaned(s', [1]) && s'.threads[0].cont == User
  {
    s' := Kill(s, 1, false).0;
    assert s.owner[0] == 1;
  }

  lemma SpinsForEver(s: Sys)
    requires Orphaned(s, [1]) && s.threads[0].cont == User
    ensures Enabled(s, AcquireOp(0))
    ensures var (s', out) := Next(s, AcquireOp(0));
            out == Spin && Enabled(s', ResumeOp) && Next(s', ResumeOp) == (s', Spin)
  {
    SpinsOnce(s);
    var s' := s.(ready := [], threads := s.threads[0 := s.threads[0].(cont := InAcquire(0))]);
    SpinsOn(s');
    assert Next(s, AcquireOp(0)) == (s', Spin);
  }

  lemma SpinsOn(s: Sys)
    requires Orphaned(s, []) && s.threads[0].cont == InAcquire(0)
    ensures Resume(s) == (s, Spin)
  {
    SpinsOnce(s);
    assert s.threads[0].(cont := InAcquire(0)) == s.threads[0];
    assert s.(ready := [], threads := s.threads[0 := s.threads[0]]) == s;
  }

  lemma SpinsOnce(s: Sys)
    requires Orphaned(s, [1]) || Orphaned(s, [])
    ensures AcquireLoop(s, 0) ==
            (s.(ready := [], threads := s.threads[0 := s.threads[0].(cont := InAcquire(0))]), Spin)
  {
    NobodyElse(s);
    SleepsAlone(s, InAcquire(0));
  }

  lemma NobodyElse(s: Sys)
    requires Orphaned(s, [1]) || Orphaned(s, [])
    ensures var s1 := Enqueued(s, LockQ(0)); PopAny(s1.ready, s1.threads, 0) == ([], NONE)
  {
    var s1 := Enqueued(s, LockQ(0));
    if s.ready == [1] {
      assert s1.threads[1].state == Destroyed && s1.ready[1..] == [];
      assert PopAny(s1.ready, s1.threads, 0) == PopAny([], s1.threads, 0);
    }
  }

  lemma SleepsAlone(s: Sys, k: Cont)
    requires Orphaned(s, s.ready) && !k.InWait?
    requires var s1 := Enqueued(s, LockQ(0)); PopAny(s1.ready, s1.threads, 0) == ([], NONE)
    ensures SleepOn(s, LockQ(0), k) == (s.(ready := []), Ret(NONE))
  {
    var s1 := Enqueued(s, LockQ(0));
    assert s1.queues[LockQ(0)] == [0];
    assert Yield(s1, ANY, k) == (s1.(ready := []), Ret(NONE));
    assert s1.queues[LockQ(0) := []] == s.queues;
    assert s1.threads[0 := s1.threads[0].(state := Running)] == s.threads;
  }

  /** The main thread and thread 1 have been yielding to each other by name. */
  ghost predicate Crowded(s: Sys) {
    && WellFormed(s) && OnlyQueue(s, UserQ(0), [], -1) && MainRuns(s)
    && s.threads[1].state == Running && s.threads[1].waiter == -1 && s.threads[1].cont == User
    && (forall t :: 1 < t < MAX_THREADS ==> s.threads[t].state == Destroyed)
    && (s.current == 0 || s.current == 1) && 200 !in s.ledger.entries
    && s.ready != [] && s.ready[0] == 1 && (|s.ready| == 1 ==> s.current == 0) && (|s.ready| > 1 ==> s.ready[1] == 0)
    && (forall i :: 0 <= i < |s.ready| ==> s.ready[i] <= 1)
  }

  /** One more turn: a targeted yield takes nothing from the ready queue and adds the caller. */
  lemma Crowd(s: Sys) returns (s': Sys)
    requires Crowded(s)
    ensures Crowded(s') && CanStep(s, YieldOp(1 - s.current))
    ensures Next(s, YieldOp(1 - s.current)) == (s', Switch(1 - s.current))
    ensures |s'.ready| == if |s.ready| < CAPACITY then |s.ready| + 1 else CAPACITY
  {
    assert |s.ready| == CAPACITY ==> 1 in s.ready && s.ready[1] in s.ready;
    s' := SwitchTo(s, 1 - s.current, User);
  }

  lemma {:induction false} CrowdUp(s0: Sys, ops: seq<Op>, s: Sys) returns (ops': seq<Op>, s': Sys)
    requires Run(s0, ops, s) && Crowded(s)
    ensures Run(s0, ops', s') && Crowded(s') && |s'.ready| == CAPACITY
    decreases CAPACITY - |s.ready|
  {
    ops', s' := ops, s;
    if |s.ready| < CAPACITY {
      var s1 := Crowd(s);
      RunStep(s0, ops, s, YieldOp(1 - s.current));
      ops', s' := CrowdUp(s0, ops + [YieldOp(1 - s.current)], s1);
    }
  }

  /** A full ready queue: two threads yield to each other by name until it holds 30720 entries. They can go on like
      that; but a thread created then is runnable and will never be found. Every premise is met but the room. */
  lemma FullQueueLosesThread(code: int, stack: nat, led: L.Ledger) returns (s: Sys)
    requires L.IsEmpty(led)
    ensures Reachable(s) && |s.ready| == CAPACITY && CanStep(s, YieldOp(1 - s.current))
    ensures Enabled(s, CreateOp(200)) && Obliged(s, CreateOp(200)) && Create(s, 200).1 == Ret(2)
    ensures Lost(Create(s, 200).0, 2)
  {
    var s0, ops, s1 := ToTwoThreads(UserQ(0), code, stack, led);
    var ops';
    ops', s := CrowdUp(s0, ops, s1);
    Reached(s0, ops', s, code, stack, led);
    var s2 := Crowd(s);
    CreateLoses(s);
  }

  lemma CreateLoses(s: Sys)
    requires Crowded(s) && |s.ready| == CAPACITY
    ensures Enabled(s, CreateOp(200)) && Obliged(s, CreateOp(200)) && Create(s, 200).1 == Ret(2)
    ensures Lost(Create(s, 200).0, 2)
  {
    assert FreeSlot(s.threads, 2) == 2;
  }
}
