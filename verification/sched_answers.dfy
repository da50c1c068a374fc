/** What every call answers, case by case: the return values and error codes of thread.c, and what a call that is
    refused leaves unchanged. */
module SchedAnswers {
  import opened Sched
  import opened SchedInv
  import opened SchedSteps
  import opened SchedDeath
  import opened SchedRuns
  import opened SchedReady
  import opened SchedHistory

  lemma InvHere(s: Sys)
    requires Reachable(s)
    ensures Inv(s)
  {
    ReachableGood(s);
  }

  /** thread_yield to a given thread: the caller itself answers at once, a tid out of range or of a dead thread is
      refused, and any other thread runs next. */
  lemma YieldAnswers(s: Sys, want: int)
    requires Reachable(s) && want != ANY
    ensures var (s', out) := Yield(s, want, User);
            && (out == Ret(s.current) <==> want == SELF || want == s.current)
            && (out == Ret(INVALID) <==> want != SELF && want != s.current && !Alive(s.threads, want))
            && (out == Switch(want) <==> want != SELF && want != s.current && Alive(s.threads, want))
            && (out == Ret(s.current) || out == Ret(INVALID) ==> s' == s)
            && (out == Switch(want) ==> s'.current == want)
            && (out == Ret(s.current) || out == Ret(INVALID) || out == Switch(want))
  {
  }

  /** thread_yield(THREAD_ANY): THREAD_NONE when alone; otherwise the first thread of the ready queue that can run. */
  lemma YieldAnyAnswers(s: Sys) returns (n: nat)
    requires Reachable(s)
    ensures var (s', out) := Yield(s, ANY, User);
            && (out == Ret(NONE) <==> Alone(s))
            && (out != Ret(NONE) ==> out.Switch? && First(s.ready, n, s, s', out))
  {
    InvHere(s);
    YieldAnyKeeps(s, User);
    n := YieldAnyReady(s, User);
  }

  /** thread_wait on a thread that is gone collects the exit code recorded for it, unless it was never created or has
      the code of a killed one. */
  ghost predicate Collectable(h: Hist, t: int) {
    |h.inc| == MAX_THREADS && ValidTid(t) && (t, h.inc[t]) in h.codes && h.codes[(t, h.inc[t])] != KILLED
  }

  /** thread_wait, in all its cases: refused for a tid out of range, for the caller, for a thread somebody waits for
      already, and for a dead thread whose code is that of a killed one or that never lived; the recorded code of any
      other dead thread, at once; and otherwise the caller sleeps. */
  lemma WaitAnswers(s: Sys, h: Hist, t: int)
    requires ReachableWith(s, h) && CanStep(s, WaitOp(t))
    ensures MustWait(s, t) ==> Next(s, WaitOp(t)).1.Switch? && IsAsleep(Next(s, WaitOp(t)).0.threads, s.current)
    ensures !MustWait(s, t) ==>
              Next(s, WaitOp(t)) ==
              (s, if !Alive(s.threads, t) && Collectable(h, t) then Collected(t, h.codes[(t, h.inc[t])])
                  else Ret(INVALID))
  {
    ReachableWithGood(s, h);
    if MustWait(s, t) {
      WaitBlocks(s, t);
    } else if ValidTid(t) && !Alive(s.threads, t) {
      DeadAnswer(s, h, t);
    }
  }

  lemma DeadAnswer(s: Sys, h: Hist, t: int)
    requires Inv(s) && HistInv(s, h) && ValidTid(t) && !Alive(s.threads, t)
    ensures Wait(s, t) == (s, if Collectable(h, t) then Collected(t, h.codes[(t, h.inc[t])]) else Ret(INVALID))
  {
    assert t != s.current;
    if t == 0 || h.inc[t] > 0 {
      assert (t, h.inc[t]) in h.codes && s.threads[t].exitCode == h.codes[(t, h.inc[t])];
    } else {
      assert s.threads[t].exitCode == KILLED;
    }
  }

  /** thread_sleep: THREAD_INVALID exactly for a NULL queue, and THREAD_NONE exactly when nobody else can run; then
      only stale entries of the ready queue are gone. Otherwise the caller sleeps, last in the queue. */
  lemma SleepAnswers(s: Sys, q: nat)
    requires Reachable(s) && CanStep(s, SleepOp(q))
    ensures var (s', out) := Next(s, SleepOp(q));
            if UserQ(q) !in s.queues then out == Ret(INVALID) && s' == s
            else if Alone(s) then out == Ret(NONE) && s' == s.(ready := [])
            else out.Switch? && s'.queues == s.queues[UserQ(q) := s.queues[UserQ(q)] + [s.current]]
                 && IsAsleep(s'.threads, s.current)
  {
    InvHere(s);
    if UserQ(q) in s.queues {
      SleepAtHome(s, UserQ(q), InSleep(q));
    }
  }

  /** thread_wakeup: 0 for a NULL queue, otherwise the number of threads woken. */
  lemma WakeupAnswers(s: Sys, q: nat, all: bool)
    requires Reachable(s) && CanStep(s, WakeupOp(q, all))
    ensures var (s', out) := Next(s, WakeupOp(q, all));
            if UserQ(q) !in s.queues then out == Ret(0) && s' == s
            else out == Ret(|Woken(s.threads, s.queues[UserQ(q)], all)|)
  {
    InvHere(s);
    if UserQ(q) in s.queues {
      WakeEffect(s, UserQ(q), all);
    }
  }

  /** thread_create: THREAD_NOMORE exactly when every slot but the main thread's is alive; then nothing has changed.
      Otherwise the process ends when there is no memory for a stack, and else the lowest free slot holds a runnable
      thread with a new stack, and nobody else has changed. */
  lemma CreateAnswers(s: Sys, m: nat)
    requires Reachable(s) && CanStep(s, CreateOp(m))
    ensures var (s', out) := Next(s, CreateOp(m));
            if forall t :: 1 <= t < MAX_THREADS ==> Alive(s.threads, t) then out == Ret(NOMORE) && s' == s
            else if m == 0 then out == ProcessEnds
            else exists t :: out == Ret(t) && CreatedIn(s, s', t, m)
  {
    CreateCases(s, m);
  }

  lemma CreateCases(s: Sys, m: nat)
    requires WellFormed(s)
    ensures var (s', out) := Create(s, m);
            if forall t :: 1 <= t < MAX_THREADS ==> Alive(s.threads, t) then out == Ret(NOMORE) && s' == s
            else if m == 0 then out == ProcessEnds
            else exists t :: out == Ret(t) && CreatedIn(s, s', t, m)
  {
    var t := FreeSlot(s.threads, 1);
    if t < MAX_THREADS {
      assert !Alive(s.threads, t);
      if m != 0 {
        CreatesIn(s, m, t);
      }
    }
  }

  lemma CreatesIn(s: Sys, m: nat, t: int)
    requires WellFormed(s) && t == FreeSlot(s.threads, 1) < MAX_THREADS && m != 0
    ensures Create(s, m).1 == Ret(t) && CreatedIn(s, Create(s, m).0, t, m)
  {
  }

  ghost predicate CreatedIn(s: Sys, s': Sys, t: int, m: nat)
    requires WellFormed(s) && WellFormed(s')
  {
    && 1 <= t < MAX_THREADS && !Alive(s.threads, t) && (forall u :: 1 <= u < t ==> Alive(s.threads, u))
    && IsRunning(s'.threads, t) && s'.threads[t].stack == m && s'.threads[t].cont == User
    && s'.threads[t].waiter == -1 && s'.threads[t].exitCode == KILLED
    && (forall u :: ValidTid(u) && u != t ==> s'.threads[u] == s.threads[u])
    && s'.current == s.current && s'.queues == s.queues && s'.owner == s.owner && s'.blocks == s.blocks
    && s'.ledger.entries == s.ledger.entries[m := STACK]
  }

  /** thread_kill: THREAD_INVALID exactly for the caller, a tid out of range and a dead thread; then nothing has
      changed. Otherwise the victim is gone, and its tid is the answer unless a thread waiting for it runs at once. */
  lemma KillAnswers(s: Sys, t: int)
    requires Reachable(s) && CanStep(s, KillOp(t))
    ensures var (s', out) := Next(s, KillOp(t));
            && (out == Ret(INVALID) <==> t == s.current || !Alive(s.threads, t))
            && (out == Ret(INVALID) ==> s' == s)
            && (out != Ret(INVALID) ==> !Alive(s'.threads, t)
                                        && out == if Awaited(s, t) then Switch(s.threads[t].waiter) else Ret(t))
  {
    ReachableGood(s);
    Freeable(s, KillOp(t));
    KillKeeps(s, t);
  }

  /** lock_release, cv_wait, cv_signal and cv_broadcast fail their assertion exactly when the caller does not hold the
      lock. */
  lemma HolderAsserted(s: Sys, c: nat, l: nat, all: bool)
    requires Reachable(s) && l in s.owner
    ensures Release(s, l).1 == Crash <==> s.owner[l] != s.current
    ensures CvQ(c) in s.queues ==> (CvWait(s, c, l).1 == Crash <==> s.owner[l] != s.current)
    ensures CvQ(c) in s.queues ==> (CvWake(s, c, l, all).1 == Crash <==> s.owner[l] != s.current)
  {
    InvHere(s);
    if s.owner[l] == s.current {
      ReleaseKeeps(s, l);
      if CvQ(c) in s.queues {
        CvWaitKeeps(s, c, l);
        CvWakeKeeps(s, c, l, all);
      }
    }
  }

  /** wait_queue_create, lock_create and cv_create: the process ends exactly when malloc fails; otherwise the new wait
      queue is empty, a new lock is free, and all else is as it was. */
  lemma NewQueueAnswers(s: Sys, q: QId, box: nat, block: nat)
    requires Reachable(s) && CanStep(s, NewQueueOp(q, box, block))
    ensures var (s', out) := Next(s, NewQueueOp(q, box, block));
            && (out == ProcessEnds <==> block == 0 || (!q.UserQ? && box == 0))
            && (out != ProcessEnds ==>
                  && out == Ret(0) && s'.queues == s.queues[q := []] && s'.threads == s.threads && s'.ready == s.ready
                  && s'.current == s.current && s'.owner == if q.LockQ? then s.owner[q.id := -1] else s.owner)
  {
  }

  /** A thread that is switched to finishes the call it is in: thread_sleep and thread_yield return, thread_wait hands
      over the code its dead target has, and lock_acquire and cv_wait take a free lock or wait for a held one. */
  lemma ResumeAnswers(s: Sys)
    requires Reachable(s) && CanStep(s, ResumeOp)
    ensures var (s', out) := Next(s, ResumeOp);
            match Me(s).cont
            case User => false
            case InSleep(_) => out == Ret(0) && s' == SetCont(s, s.current, User)
            case InWait(t) => out == Collected(t, s.threads[t].exitCode) && !Alive(s.threads, t)
                              && s' == SetCont(s, s.current, User)
            case InAcquire(l) => TakesOrWaits(s, s', out, l)
            case InCvWait(_, l) => TakesOrWaits(s, s', out, l)
  {
    InvHere(s);
    ResumeKeeps(s);
    var k := Me(s).cont;
    if k.InAcquire? || k.InCvWait? {
      LockAnswers(s, k.lock);
    }
  }

  /** The caller has got lock l, which was free; or it sleeps in the queue of the lock, or spins when alone. */
  ghost predicate TakesOrWaits(s: Sys, s': Sys, out: Out, l: nat)
    requires WellFormed(s) && WellFormed(s') && l in s.owner && LockQ(l) in s.queues
  {
    if s.owner[l] == -1
    then out == Ret(0) && s'.owner == s.owner[l := s.current] && s'.current == s.current && s'.queues == s.queues
         && s'.threads[s.current].cont == User
    else if Alone(s) then out == Spin && s'.owner == s.owner && s'.queues == s.queues && s'.current == s.current
    else out.Switch? && s'.owner == s.owner && IsAsleep(s'.threads, s.current)
         && s'.queues == s.queues[LockQ(l) := s.queues[LockQ(l)] + [s.current]]
  }

  lemma LockAnswers(s: Sys, l: nat)
    requires Inv(s) && l in s.owner
    ensures TakesOrWaits(s, AcquireLoop(s, l).0, AcquireLoop(s, l).1, l)
  {
    AcquireKeeps(s, l);
  }
}
