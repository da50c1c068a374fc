/** Runs of the scheduler: what programs must respect, the invariant over every step and every run, and the
    length of the ready queue. */
module SchedRuns {
  import opened RingSpec
  import opened Sched
  import opened SchedInv
  import opened SchedSteps
  import opened SchedDeath
  import opened SchedStacks
  import L = LedgerSpec

  /** The first n slots after thread_init: the main thread and free ones. */
  function FirstSlots(n: nat, main: Thread): (ts: seq<Thread>)
    ensures |ts| == n && (n > 0 ==> ts[0] == main)
    ensures forall t :: 0 < t < n ==> ts[t] == Thread(Destroyed, 0, -1, KILLED, User)
  {
    if n == 0 then [] else if n == 1 then [main] else FirstSlots(n - 1, main) + [Thread(Destroyed, 0, -1, KILLED, User)]
  }

  /** The state after thread_init, with malloc369's ledger led; the exit code and stack fields of the main thread
      are whatever they were. */
  function Init(mainCode: int, mainStack: nat, led: L.Ledger): (s: Sys)
    ensures WellFormed(s)
  {
    Sys(FirstSlots(MAX_THREADS, Thread(Running, mainStack, -1, mainCode, User)), [], 0, map[], map[], led, map[])
  }

  /** The invariant of every reachable state, with the account of the allocator. */
  ghost predicate SysInv(s: Sys) {
    Inv(s) && Accounted(s.threads, s.ledger, s.blocks, s.queues.Keys)
  }

  lemma InitFields(s: Sys, code: int, stack: nat, led: L.Ledger)
    requires s == Init(code, stack, led)
    ensures WellFormed(s) && s.current == 0 && s.ready == [] && s.queues == map[] && s.owner == map[]
    ensures s.threads[0] == Thread(Running, stack, -1, code, User)
    ensures forall t :: 0 < t < MAX_THREADS ==> s.threads[t].state == Destroyed && s.threads[t].exitCode == KILLED
    ensures s.ledger == led && s.blocks == map[]
  {
  }

  /** thread_init, right after init_csc369_malloc, establishes the invariant. */
  lemma InitGood(mainCode: int, mainStack: nat, led: L.Ledger)
    requires L.IsEmpty(led)
    ensures SysInv(Init(mainCode, mainStack, led))
  {
    var s := Init(mainCode, mainStack, led);
    InitFields(s, mainCode, mainStack, led);
    EmptyAccount(s.threads, s.ledger);
    OnlyMain(s);
  }

  lemma EmptyAccount(ts: Table, led: L.Ledger)
    requires L.IsEmpty(led) && forall t :: !HasStack(ts, t)
    ensures Accounted(ts, led, map[], {})
  {
    NothingOwned(ts, led.entries);
  }

  lemma NothingOwned(ts: Table, entries: map<nat, nat>)
    requires |entries| == 0 && forall t :: !HasStack(ts, t)
    ensures Owned(ts, entries, L.Live(entries), {}) && StackSet(ts) == L.Live(entries) == {}
    ensures BlockBytes({}) == NumBlocks({}) == 0
  {
    assert L.Live(entries) == {};
    assert StackSet(ts) == {};
    assert Locks({}) == {} && Cvs({}) == {};
  }

  lemma OnlyMain(s: Sys)
    requires WellFormed(s) && s.current == 0 && s.queues == map[] && s.owner == map[] && s.threads[0].cont == User
    requires forall t :: Alive(s.threads, t) <==> t == 0
    requires IsRunning(s.threads, 0) && s.threads[0].waiter == -1
    ensures Inv(s)
  {
    forall t | ValidTid(t) && t != 0
      ensures ThreadOk(s.queues, s.threads, s.ready, t, s.threads[t].cont)
    {
      assert !Alive(s.threads, t);
    }
    assert forall t :: !WaitsFor(s.threads, t, 0) || t == -1;
  }

  /** thread_wait(t) finds t alive and nobody waiting for it yet. */
  ghost predicate MustWait(s: Sys, t: int)
    requires WellFormed(s)
  {
    Alive(s.threads, t) && t != s.current && s.threads[t].waiter == -1
  }

  /** What a program must respect when it calls op, beyond what the code itself rejects:
      - malloc does not return the address of a block in use, and a slot is not reused while a wait queue or a
        live thread's waiter field still names it;
      - thread_yield to a given thread does not name a sleeping one;
      - nobody dies holding a lock; the main thread exits only when somebody can run after it;
      - a thread blocks in thread_wait only when somebody else can run;
      - only the holder releases a lock or uses a cv with it (asserted by the code). */
  ghost predicate Obliged(s: Sys, op: Op)
    requires WellFormed(s)
  {
    match op
    case CreateOp(m) =>
      m !in L.Live(s.ledger.entries) && var t := FreeSlot(s.threads, 1); t < MAX_THREADS ==> Unnamed(s, t)
    case YieldOp(want) => want != s.current ==> !IsAsleep(s.threads, want)
    case ExitOp(_) => HoldsNoLock(s, s.current) && (s.current == 0 ==> !Alone(s) || Awaited(s, 0))
    case KillOp(t) => Alive(s.threads, t) && t != s.current ==> HoldsNoLock(s, t)
    case WaitOp(t) => MustWait(s, t) ==> !Alone(s)
    case ReleaseOp(l) => l in s.owner && s.owner[l] == s.current
    case CvWaitOp(_, l) => l in s.owner && s.owner[l] == s.current
    case CvWakeOp(_, l, _) => l in s.owner && s.owner[l] == s.current
    case NewQueueOp(q, box, block) =>
      block !in L.Live(s.ledger.entries) && (q.UserQ? || (box !in L.Live(s.ledger.entries) && box != block))
    case _ => true
  }

  /** The entries op may add to the ready queue: one for a creation, one for each thread woken, one for each
      switch to a thread named by the caller or by a death. */
  ghost function Cost(s: Sys, op: Op): nat
    requires WellFormed(s)
  {
    match op
    case CreateOp(_) => if FreeSlot(s.threads, 1) < MAX_THREADS then 1 else 0
    case YieldOp(want) => if Alive(s.threads, want) && want != s.current then 1 else 0
    case ExitOp(_) => if Awaited(s, s.current) then 1 else 0
    case KillOp(t) => if Alive(s.threads, t) && t != s.current && Awaited(s, t) then 1 else 0
    case WakeupOp(q, all) => if UserQ(q) in s.queues then |Woken(s.threads, s.queues[UserQ(q)], all)| else 0
    case ReleaseOp(l) => if l in s.owner then |Sleepers(s.threads, s.queues[LockQ(l)])| else 0
    case CvWaitOp(_, l) => if l in s.owner then |Sleepers(s.threads, s.queues[LockQ(l)])| else 0
    case CvWakeOp(c, _, all) => if CvQ(c) in s.queues then |Woken(s.threads, s.queues[CvQ(c)], all)| else 0
    case _ => 0
  }

  /** Every thread that op pushes on the ready queue and leaves runnable finds room there, or is there already. A
      thread that get_thread_any switches away from needs none, since an entry has just been taken; nor does one
      that is dying. */
  ghost predicate RoomFor(s: Sys, op: Op)
    requires WellFormed(s)
  {
    match op
    case CreateOp(m) => m != 0 && FreeSlot(s.threads, 1) < MAX_THREADS ==> Room(s, FreeSlot(s.threads, 1))
    case YieldOp(want) => Alive(s.threads, want) && want != s.current ==> Room(s, s.current)
    case KillOp(t) => Alive(s.threads, t) && t != s.current && Awaited(s, t) ==> Room(s, s.current)
    case WakeupOp(q, all) => UserQ(q) in s.queues ==> Placed(s.ready, Woken(s.threads, s.queues[UserQ(q)], all))
    case ReleaseOp(l) => l in s.owner ==> Placed(s.ready, Sleepers(s.threads, s.queues[LockQ(l)]))
    case CvWaitOp(_, l) => l in s.owner ==> Placed(s.ready, Sleepers(s.threads, s.queues[LockQ(l)]))
    case CvWakeOp(c, _, all) => CvQ(c) in s.queues ==> Placed(s.ready, Woken(s.threads, s.queues[CvQ(c)], all))
    case _ => true
  }

  /** op may be taken in s: the library is in a state to accept it, the caller keeps its obligations, and the
      ready queue has room for whom op leaves runnable. */
  ghost predicate CanStep(s: Sys, op: Op) {
    WellFormed(s) && Enabled(s, op) && Obliged(s, op) && RoomFor(s, op)
  }

  /** Room for everything op may push, needed or not. */
  ghost predicate AmpleRoom(s: Sys, op: Op)
    requires WellFormed(s)
  {
    |s.ready| + Cost(s, op) <= CAPACITY
  }

  lemma AmpleIsEnough(s: Sys, op: Op)
    requires WellFormed(s) && AmpleRoom(s, op)
    ensures RoomFor(s, op)
  {
    match op
    case WakeupOp(q, all) =>
      if UserQ(q) in s.queues { RoomForAll(s.ready, Woken(s.threads, s.queues[UserQ(q)], all)); }
    case ReleaseOp(l) => if l in s.owner { RoomForAll(s.ready, Sleepers(s.threads, s.queues[LockQ(l)])); }
    case CvWaitOp(_, l) => if l in s.owner { RoomForAll(s.ready, Sleepers(s.threads, s.queues[LockQ(l)])); }
    case CvWakeOp(c, _, all) =>
      if CvQ(c) in s.queues { RoomForAll(s.ready, Woken(s.threads, s.queues[CvQ(c)], all)); }
    case _ =>
  }

  /** What a step promises of the scheduler: no assertion fails, and unless the process ends the invariant holds
      again and the ready queue has grown by no more than the cost. */
  ghost predicate StepInv(s: Sys, op: Op)
    requires WellFormed(s) && Enabled(s, op)
  {
    var (s', out) := Next(s, op);
    out != Crash && (out != ProcessEnds ==> Inv(s') && |s'.ready| <= |s.ready| + Cost(s, op))
  }

  /** What it promises of the allocator: every outstanding block has its owner again. */
  ghost predicate StepAccount(s: Sys, op: Op)
    requires WellFormed(s) && Enabled(s, op)
  {
    var (s', out) := Next(s, op);
    out != ProcessEnds ==> Accounted(s'.threads, s'.ledger, s'.blocks, s'.queues.Keys)
  }

  lemma CreateStep(s: Sys, m: nat)
    requires Inv(s) && CanStep(s, CreateOp(m))
    ensures StepInv(s, CreateOp(m))
  {
    if FreeSlot(s.threads, 1) < MAX_THREADS && m != 0 {
      CreateKeeps(s, m);
    }
  }

  lemma YieldStep(s: Sys, want: int)
    requires Inv(s) && CanStep(s, YieldOp(want))
    ensures StepInv(s, YieldOp(want))
  {
    YieldKeeps(s, want);
    if want == ANY {
      YieldAnyKeeps(s, User);
    }
  }

  lemma ExitStep(s: Sys, code: int)
    requires Inv(s) && CanStep(s, ExitOp(code)) && StackFreeable(s, s.current)
    ensures StepInv(s, ExitOp(code))
  {
    ExitKeeps(s, code);
  }

  lemma KillStep(s: Sys, t: int)
    requires Inv(s) && CanStep(s, KillOp(t)) && (Alive(s.threads, t) && t != s.current ==> StackFreeable(s, t))
    ensures StepInv(s, KillOp(t))
  {
    KillKeeps(s, t);
  }

  lemma SleepStep(s: Sys, q: nat)
    requires Inv(s) && CanStep(s, SleepOp(q))
    ensures StepInv(s, SleepOp(q))
  {
    if UserQ(q) in s.queues {
      SleepGrowth(s, UserQ(q), InSleep(q));
      UserSleep(s, q);
    }
  }

  lemma UserSleep(s: Sys, q: nat)
    requires Inv(s) && UserQ(q) in s.queues
    ensures Inv(SleepOn(s, UserQ(q), InSleep(q)).0)
    ensures SleepOn(s, UserQ(q), InSleep(q)).1 != Crash && SleepOn(s, UserQ(q), InSleep(q)).1 != ProcessEnds
  {
    SleepAtHome(s, UserQ(q), InSleep(q));
  }

  lemma YieldAnyGrowth(s: Sys, k: Cont)
    requires WellFormed(s) && (k.InWait? ==> ValidTid(k.target))
    ensures |Yield(s, ANY, k).0.ready| <= |s.ready|
  {
    var j := PopAnyFacts(s.ready, s.threads, s.current);
  }

  lemma SleepGrowth(s: Sys, q: QId, k: Cont)
    requires WellFormed(s) && q in s.queues && !k.InWait?
    ensures |SleepOn(s, q, k).0.ready| <= |s.ready|
  {
    YieldAnyGrowth(Enqueued(s, q), k);
  }

  lemma WakeupStep(s: Sys, q: nat, all: bool)
    requires Inv(s) && CanStep(s, WakeupOp(q, all))
    ensures StepInv(s, WakeupOp(q, all))
  {
    if UserQ(q) in s.queues {
      WakeEffect(s, UserQ(q), all);
    }
  }

  lemma WaitStep(s: Sys, t: int)
    requires Inv(s) && CanStep(s, WaitOp(t))
    ensures StepInv(s, WaitOp(t))
  {
    WaitKeeps(s, t);
    if MustWait(s, t) {
      YieldAnyGrowth(Waiting(s, t), InWait(t));
      assert Wait(s, t).0 == Yield(Waiting(s, t), ANY, InWait(t)).0;
    }
  }

  lemma AcquireGrowth(s: Sys, l: nat)
    requires WellFormed(s) && l in s.owner
    ensures |AcquireLoop(s, l).0.ready| <= |s.ready|
  {
    if s.owner[l] != -1 {
      SleepGrowth(s, LockQ(l), InAcquire(l));
    }
  }

  lemma AcquireStep(s: Sys, l: nat)
    requires Inv(s) && l in s.owner
    ensures var (s', out) := AcquireLoop(s, l);
            Inv(s') && |s'.ready| <= |s.ready| && out != Crash && out != ProcessEnds
  {
    AcquireKeeps(s, l);
    AcquireGrowth(s, l);
  }

  lemma ReleaseStep(s: Sys, l: nat)
    requires Inv(s) && CanStep(s, ReleaseOp(l))
    ensures StepInv(s, ReleaseOp(l))
    ensures Release(s, l).1.Ret? && Release(s, l).0.owner == s.owner[l := -1]
  {
    ReleaseKeeps(s, l);
  }

  lemma CvWaitStep(s: Sys, c: nat, l: nat)
    requires Inv(s) && CanStep(s, CvWaitOp(c, l))
    ensures StepInv(s, CvWaitOp(c, l))
  {
    CvWaitKeeps(s, c, l);
    ReleaseKeeps(s, l);
    var s1 := Release(s, l).0;
    CvSleepGrowth(s1, c, l);
    assert CvWait(s, c, l) == CvSleep(s1, c, l);
  }

  lemma CvSleepGrowth(s: Sys, c: nat, l: nat)
    requires WellFormed(s) && l in s.owner && CvQ(c) in s.queues
    ensures |CvSleep(s, c, l).0.ready| <= |s.ready|
  {
    SleepGrowth(s, CvQ(c), InCvWait(c, l));
    var s2 := SleepOn(s, CvQ(c), InCvWait(c, l)).0;
    if l in s2.owner {
      AcquireGrowth(s2, l);
    }
  }

  lemma CvWakeStep(s: Sys, c: nat, l: nat, all: bool)
    requires Inv(s) && CanStep(s, CvWakeOp(c, l, all))
    ensures StepInv(s, CvWakeOp(c, l, all))
  {
    CvWakeKeeps(s, c, l, all);
  }

  lemma ResumeStep(s: Sys)
    requires Inv(s) && CanStep(s, ResumeOp)
    ensures StepInv(s, ResumeOp)
  {
    ResumeKeeps(s);
    var k := Me(s).cont;
    if k.InAcquire? {
      AcquireStep(s, k.lock);
    } else if k.InCvWait? {
      AcquireStep(s, k.lock);
    }
  }

  lemma NewQueueStep(s: Sys, q: QId, box: nat, block: nat)
    requires Inv(s) && CanStep(s, NewQueueOp(q, box, block))
    ensures StepInv(s, NewQueueOp(q, box, block))
  {
    NewQueueKeeps(s, q, box, block);
  }

  /** op may be taken in a state of the invariant, and the stack of the thread it ends can be given back. */
  ghost predicate MayStep(s: Sys, op: Op) {
    && Inv(s) && CanStep(s, op)
    && (op.ExitOp? ==> StackFreeable(s, s.current))
    && (op.KillOp? && Alive(s.threads, op.t) && op.t != s.current ==> StackFreeable(s, op.t))
  }

  /** Every step of every thread keeps the invariant of the scheduler, and no assertion of thread.c fails. */
  lemma InvKeeps(s: Sys, op: Op)
    requires MayStep(s, op)
    ensures StepInv(s, op)
  {
    match op
    case CreateOp(m) => CreateStep(s, m);
    case YieldOp(want) => YieldStep(s, want);
    case ExitOp(code) => ExitStep(s, code);
    case KillOp(t) => KillStep(s, t);
    case SleepOp(q) => SleepStep(s, q);
    case WakeupOp(q, all) => WakeupStep(s, q, all);
    case WaitOp(t) => WaitStep(s, t);
    case AcquireOp(l) => AcquireStep(s, l);
    case ReleaseOp(l) => ReleaseStep(s, l);
    case CvWaitOp(c, l) => CvWaitStep(s, c, l);
    case CvWakeOp(c, l, all) => CvWakeStep(s, c, l, all);
    case NewQueueOp(q, box, block) => NewQueueStep(s, q, box, block);
    case ResumeOp => ResumeStep(s);
  }

  /** The steps that allocate or give back a block. */
  predicate Allocates(op: Op) {
    op.CreateOp? || op.ExitOp? || op.KillOp? || op.NewQueueOp?
  }

  lemma ReleaseQuiet(s: Sys, l: nat)
    requires Inv(s) && l in s.owner && s.owner[l] == s.current
    ensures Quiet(s, Release(s, l).0)
  {
    WakeupQuiet(s.(owner := s.owner[l := -1]), LockQ(l), true);
  }

  lemma CvWaitQuiet(s: Sys, c: nat, l: nat)
    requires Inv(s) && CanStep(s, CvWaitOp(c, l))
    ensures Quiet(s, CvWait(s, c, l).0)
  {
    ReleaseKeeps(s, l);
    ReleaseQuiet(s, l);
    var s1 := Release(s, l).0;
    CvSleepQuiet(s1, c, l);
    assert CvWait(s, c, l) == CvSleep(s1, c, l);
    QuietTwice(s, s1, CvSleep(s1, c, l).0);
  }

  lemma ResumeQuiet(s: Sys)
    requires Inv(s) && CanStep(s, ResumeOp)
    ensures Quiet(s, Resume(s).0)
  {
    var k := Me(s).cont;
    if k.InAcquire? || k.InCvWait? {
      AcquireQuiet(s, k.lock);
    }
  }

  /** All other steps leave the threads and the ledger alone. */
  lemma QuietStep(s: Sys, op: Op)
    requires Inv(s) && CanStep(s, op) && !Allocates(op)
    ensures Quiet(s, Next(s, op).0)
  {
    match op
    case YieldOp(want) => YieldQuiet(s, want, User);
    case SleepOp(q) => if UserQ(q) in s.queues { SleepQuiet(s, UserQ(q), InSleep(q)); }
    case WakeupOp(q, all) => WakeupQuiet(s, UserQ(q), all);
    case WaitOp(t) => WaitQuiet(s, t);
    case AcquireOp(l) => AcquireQuiet(s, l);
    case ReleaseOp(l) => ReleaseQuiet(s, l);
    case CvWaitOp(c, l) => CvWaitQuiet(s, c, l);
    case CvWakeOp(c, l, all) => WakeupQuiet(s, CvQ(c), all);
    case ResumeOp => ResumeQuiet(s);
  }

  lemma CreateAccount(s: Sys, m: nat)
    requires WellFormed(s) && CanStep(s, CreateOp(m)) && Accounted(s.threads, s.ledger, s.blocks, s.queues.Keys)
    ensures StepAccount(s, CreateOp(m))
  {
    var t := FreeSlot(s.threads, 1);
    if t < MAX_THREADS && m != 0 {
      var s' := Create(s, m).0;
      assert SameBut(s.threads, s'.threads, t);
      StacksBorn(s.threads, s'.threads, s.ledger, s.blocks, s.queues.Keys, t, m);
    }
  }

  lemma FreeableStack(s: Sys, t: int)
    requires SysInv(s) && Alive(s.threads, t)
    ensures StackFreeable(s, t)
  {
    if t != 0 {
      assert HasStack(s.threads, t);
      L.StepGood(s.ledger, L.FreeOp(s.threads[t].stack));
    }
  }

  /** A step never makes free369 fail an assertion. */
  lemma Freeable(s: Sys, op: Op)
    requires SysInv(s) && CanStep(s, op)
    ensures MayStep(s, op)
  {
    if op.ExitOp? {
      FreeableStack(s, s.current);
    } else if op.KillOp? && Alive(s.threads, op.t) {
      FreeableStack(s, op.t);
    }
  }

  /** What a death leaves to account for. */
  ghost predicate Gone(s: Sys, t: int, s': Sys)
    requires WellFormed(s) && ValidTid(t)
  {
    && WellFormed(s') && !Alive(s'.threads, t) && SameBut(s.threads, s'.threads, t)
    && s'.ledger == AfterFree(s, t) && s'.queues == s.queues && s'.blocks == s.blocks
  }

  lemma DeathAccount(s: Sys, s': Sys, t: int)
    requires WellFormed(s) && Accounted(s.threads, s.ledger, s.blocks, s.queues.Keys)
    requires Alive(s.threads, t) && Gone(s, t, s')
    ensures Accounted(s'.threads, s'.ledger, s'.blocks, s'.queues.Keys)
  {
    if t != 0 {
      StacksFreed(s.threads, s'.threads, s.ledger, s.blocks, s.queues.Keys, t);
    } else {
      MainDied(s.threads, s'.threads, s.ledger.entries, L.Live(s.ledger.entries), s.blocks.Keys);
    }
  }

  lemma MainDied(ts: Table, ts': Table, entries: map<nat, nat>, live: set<nat>, blocks: set<nat>)
    requires Owned(ts, entries, live, blocks) && SameBut(ts, ts', 0)
    ensures Owned(ts', entries, live, blocks) && StackSet(ts') == StackSet(ts)
  {
    assert forall x :: ValidTid(x) ==> HasStack(ts', x) == HasStack(ts, x);
    assert StackSet(ts') == StackSet(ts);
  }

  lemma ExitGone(s: Sys, code: int)
    requires Inv(s) && CanStep(s, ExitOp(code)) && StackFreeable(s, s.current)
    ensures Exit(s, code).1 != ProcessEnds ==> Gone(s, s.current, Exit(s, code).0)
  {
    ExitKeeps(s, code);
  }

  lemma KillGone(s: Sys, t: int)
    requires Inv(s) && CanStep(s, KillOp(t)) && (Alive(s.threads, t) && t != s.current ==> StackFreeable(s, t))
    ensures if Alive(s.threads, t) && t != s.current then Gone(s, t, Kill(s, t, false).0) else Kill(s, t, false).0 == s
  {
    KillKeeps(s, t);
  }

  /** The account after thread_exit and thread_kill. */
  lemma ExitAccount(s: Sys, code: int)
    requires SysInv(s) && CanStep(s, ExitOp(code))
    ensures StepAccount(s, ExitOp(code))
  {
    FreeableStack(s, s.current);
    ExitGone(s, code);
    if Exit(s, code).1 != ProcessEnds {
      DeathAccount(s, Exit(s, code).0, s.current);
    }
  }

  lemma KillAccount(s: Sys, t: int)
    requires SysInv(s) && CanStep(s, KillOp(t))
    ensures StepAccount(s, KillOp(t))
  {
    if Alive(s.threads, t) && t != s.current {
      FreeableStack(s, t);
      KillGone(s, t);
      DeathAccount(s, Kill(s, t, false).0, t);
    } else {
      KillGone(s, t);
    }
  }

  lemma NewQueueAccount(s: Sys, q: QId, box: nat, block: nat)
    requires SysInv(s) && CanStep(s, NewQueueOp(q, box, block))
    ensures StepAccount(s, NewQueueOp(q, box, block))
  {
    if NewQueue(s, q, box, block).1 != ProcessEnds {
      QueueBorn(s, q, box, block);
    }
  }

  lemma QuietStepAccount(s: Sys, op: Op)
    requires SysInv(s) && CanStep(s, op) && !Allocates(op)
    ensures StepAccount(s, op)
  {
    QuietStep(s, op);
    QuietAccount(s, Next(s, op).0);
  }

  lemma AllocatingAccount(s: Sys, op: Op)
    requires SysInv(s) && CanStep(s, op) && Allocates(op)
    ensures StepAccount(s, op)
  {
    match op
    case CreateOp(m) => CreateAccount(s, m);
    case ExitOp(code) => ExitAccount(s, code);
    case KillOp(t) => KillAccount(s, t);
    case NewQueueOp(q, box, block) => NewQueueAccount(s, q, box, block);
  }

  /** Every step keeps the account of the allocator. */
  lemma AccountKeeps(s: Sys, op: Op)
    requires SysInv(s) && CanStep(s, op)
    ensures StepAccount(s, op)
  {
    if Allocates(op) {
      AllocatingAccount(s, op);
    } else {
      QuietStepAccount(s, op);
    }
  }

  /** Every step of every thread keeps the invariant, and no assertion of thread.c fails. */
  lemma StepKeeps(s: Sys, op: Op)
    requires SysInv(s) && CanStep(s, op)
    ensures StepInv(s, op) && StepAccount(s, op)
  {
    Freeable(s, op);
    InvKeeps(s, op);
    AccountKeeps(s, op);
  }

  /** The room premise is exact: of a step whose other premises are met, no assertion fails whatever the room, and
      the invariant survives exactly when each thread it pushes and leaves runnable finds room or is there already. */
  lemma RoomDecides(s: Sys, op: Op)
    requires SysInv(s) && Enabled(s, op) && Obliged(s, op) && Next(s, op).1 != ProcessEnds
    ensures Next(s, op).1 != Crash
    ensures Inv(Next(s, op).0) <==> RoomFor(s, op)
  {
    if RoomFor(s, op) {
      StepKeeps(s, op);
    } else {
      NoRoom(s, op);
    }
  }

  lemma NoRoom(s: Sys, op: Op)
    requires SysInv(s) && Enabled(s, op) && Obliged(s, op) && !RoomFor(s, op)
    ensures Next(s, op).1 != Crash && !Inv(Next(s, op).0)
  {
    match op
    case CreateOp(m) => CreateKeeps(s, m);
    case YieldOp(want) => YieldToKeeps(s, want);
    case KillOp(t) => FreeableStack(s, t); KillKeeps(s, t);
    case WakeupOp(q, all) => WakeEffect(s, UserQ(q), all);
    case ReleaseOp(l) => ReleaseKeeps(s, l);
    case CvWaitOp(c, l) => CvWaitKeeps(s, c, l);
    case CvWakeOp(c, l, all) => CvWakeKeeps(s, c, l, all);
  }

  /** A run: any number of steps, of whatever thread is current, each with the obligations kept and with room in
      the ready queue, at that moment, for whom it leaves runnable. */
  ghost predicate Run(s: Sys, ops: seq<Op>, s': Sys)
    decreases |ops|
  {
    if ops == [] then s' == s
    else CanStep(s, ops[0]) && Next(s, ops[0]).1 != ProcessEnds && Run(Next(s, ops[0]).0, ops[1..], s')
  }

  /** A run and one more step. */
  lemma {:induction false} RunStep(s: Sys, ops: seq<Op>, s': Sys, op: Op)
    requires Run(s, ops, s') && CanStep(s', op) && Next(s', op).1 != ProcessEnds
    ensures Run(s, ops + [op], Next(s', op).0)
    decreases |ops|
  {
    Rejoin(ops, op);
    if ops == [] {
      RunFirst(s, op, [], Next(s', op).0);
    } else {
      RunStep(Next(s, ops[0]).0, ops[1..], s', op);
      RunFirst(s, ops[0], ops[1..] + [op], Next(s', op).0);
    }
  }

  lemma Rejoin(ops: seq<Op>, op: Op)
    ensures ops == [] ==> ops + [op] == [op] + []
    ensures ops != [] ==> ops + [op] == [ops[0]] + (ops[1..] + [op])
  {
  }

  lemma RunFirst(s: Sys, op: Op, ops: seq<Op>, s': Sys)
    requires CanStep(s, op) && Next(s, op).1 != ProcessEnds && Run(Next(s, op).0, ops, s')
    ensures Run(s, [op] + ops, s')
  {
    var longer := [op] + ops;
    assert longer[0] == op && longer[1..] == ops;
  }

  /** The invariant holds throughout every run, however long. */
  lemma {:induction false} RunKeeps(s: Sys, ops: seq<Op>, s': Sys)
    requires SysInv(s) && Run(s, ops, s')
    ensures SysInv(s')
    decreases |ops|
  {
    if ops != [] {
      StepKeeps(s, ops[0]);
      RunKeeps(Next(s, ops[0]).0, ops[1..], s');
    }
  }

  ghost predicate Initial(s: Sys) {
    exists mainCode, mainStack, led :: L.IsEmpty(led) && s == Init(mainCode, mainStack, led)
  }

  /** s is a state a program can reach from thread_init. */
  ghost predicate Reachable(s: Sys) {
    WellFormed(s) && exists s0, ops :: Initial(s0) && Run(s0, ops, s)
  }

  lemma RunsReach(s0: Sys, ops: seq<Op>, s: Sys)
    requires Initial(s0) && Run(s0, ops, s)
    ensures Reachable(s)
  {
    InitialGood(s0);
    RunKeeps(s0, ops, s);
  }

  lemma InitialGood(s: Sys)
    requires Initial(s)
    ensures SysInv(s)
  {
    var mainCode, mainStack, led :| L.IsEmpty(led) && s == Init(mainCode, mainStack, led);
    InitGood(mainCode, mainStack, led);
  }

  lemma ReachableGood(s: Sys)
    requires Reachable(s)
    ensures SysInv(s)
  {
    var s0, ops :| Initial(s0) && Run(s0, ops, s);
    InitialGood(s0);
    RunKeeps(s0, ops, s);
  }

  /** Whole programs: in every reachable state, whatever obligation-keeping step is taken next, no assertion of
      thread.c fails, and the invariant holds again. */
  lemma ProgramsAreSafe(s: Sys, op: Op)
    requires Reachable(s) && CanStep(s, op)
    ensures Next(s, op).1 != Crash
    ensures Next(s, op).1 != ProcessEnds ==> SysInv(Next(s, op).0)
  {
    ReachableGood(s);
    StepKeeps(s, op);
  }

  /** A run of which only the obligations are known, not that pushes find room. */
  ghost predicate ObligedRun(s: Sys, ops: seq<Op>, s': Sys)
    decreases |ops|
  {
    if ops == [] then s' == s
    else
      && WellFormed(s) && Enabled(s, ops[0]) && Obliged(s, ops[0])
      && Next(s, ops[0]).1 != ProcessEnds
      && ObligedRun(Next(s, ops[0]).0, ops[1..], s')
  }

  /** The number of creations, wakeups and targeted switches in a run. */
  ghost function TotalCost(s: Sys, ops: seq<Op>): nat
    decreases |ops|
  {
    if ops == [] || !WellFormed(s) || !Enabled(s, ops[0]) then 0
    else Cost(s, ops[0]) + TotalCost(Next(s, ops[0]).0, ops[1..])
  }

  /** When room is certain: a run with no more creations, wakeups and targeted switches than there are free
      places finds room for every push, and lengthens the ready queue by no more than their number. */
  lemma {:induction false} RoomForRun(s: Sys, ops: seq<Op>, s': Sys)
    requires SysInv(s) && ObligedRun(s, ops, s') && |s.ready| + TotalCost(s, ops) <= CAPACITY
    ensures Run(s, ops, s') && |s'.ready| <= |s.ready| + TotalCost(s, ops)
    decreases |ops|
  {
    if ops != [] {
      AmpleIsEnough(s, ops[0]);
      StepKeeps(s, ops[0]);
      RoomForRun(Next(s, ops[0]).0, ops[1..], s');
    }
  }
}
