/** What the invariant says to a user of the library. */
module SchedTheorems {
  import opened RingSpec
  import opened Sched
  import opened SchedInv
  import opened SchedSteps
  import opened SchedStacks
  import opened SchedRuns
  import L = LedgerSpec

  /** In every reachable state a sleeping thread is in exactly one place: once in one wait queue, or the waiter of
      one live thread. */
  lemma SleepersHaveOnePlace(s: Sys, t: int)
    requires Reachable(s) && IsAsleep(s.threads, t)
    ensures (exists q :: InQueue(s.queues, q, t)) <==> !(exists u :: WaitsFor(s.threads, t, u))
    ensures forall q, r :: InQueue(s.queues, q, t) && InQueue(s.queues, r, t) ==> q == r
    ensures forall q, i, j :: q in s.queues && 0 <= i < j < |s.queues[q]| ==> s.queues[q][i] != t || s.queues[q][j] != t
    ensures forall u, v :: WaitsFor(s.threads, t, u) && WaitsFor(s.threads, t, v) ==> u == v
  {
    InvHolds(s);
    assert t != s.current;
    assert ThreadOk(s.queues, s.threads, s.ready, t, s.threads[t].cont);
  }

  lemma InvHolds(s: Sys)
    requires Reachable(s)
    ensures Inv(s)
  {
    ReachableGood(s);
  }

  /** In every reachable state, whoever a wait queue or a live thread's waiter field names is asleep, unless it was
      killed there. */
  lemma NamedAreAsleep(s: Sys, t: int)
    requires Reachable(s) && Alive(s.threads, t)
    requires (exists q :: InQueue(s.queues, q, t)) || (exists u :: WaitsFor(s.threads, t, u))
    ensures IsAsleep(s.threads, t)
  {
    InvHolds(s);
  }

  /** No runnable thread is ever lost. */
  lemma NobodyIsLost(s: Sys, t: int)
    requires Reachable(s) && IsRunning(s.threads, t) && t != s.current
    ensures t in s.ready
  {
    InvHolds(s);
    assert ThreadOk(s.queues, s.threads, s.ready, t, s.threads[t].cont);
  }

  /** In every reachable state thread_yield(THREAD_ANY) says THREAD_NONE exactly when no other thread is runnable,
      and otherwise goes over to one that is. */
  lemma NoneMeansAlone(s: Sys)
    requires Reachable(s)
    ensures var (s', out) := Yield(s, ANY, User);
            && (out == Ret(NONE) <==> forall t :: IsRunning(s.threads, t) ==> t == s.current)
            && (out != Ret(NONE) ==> s'.current != s.current && IsRunning(s.threads, s'.current))
  {
    InvHolds(s);
    YieldAnyKeeps(s, User);
  }

  /** A wait queue never holds more ids than there are threads, so a push into one is never dropped. */
  lemma WaitQueuesAreShort(s: Sys, q: QId)
    requires Reachable(s) && q in s.queues
    ensures |s.queues[q]| <= MAX_THREADS
    ensures forall t :: Push(s.queues[q], t) == s.queues[q] + [t]
  {
    InvHolds(s);
    NoDupSize(s.queues[q]);
  }

  /** No wakeup of a lock is lost: a thread asleep in lock_acquire waits for a held lock, with a live holder, and
      the holder's release makes it runnable. */
  lemma LockSleepersAreAwaited(s: Sys, t: int, l: nat)
    requires Reachable(s) && IsAsleep(s.threads, t) && s.threads[t].cont == InAcquire(l)
    ensures l in s.owner && s.owner[l] != -1 && Alive(s.threads, s.owner[l])
    ensures CanStep(s, ReleaseOp(l)) ==>
              IsRunning(Release(s, l).0.threads, t) && t in Release(s, l).0.ready && Release(s, l).0.owner[l] == -1
  {
    InvHolds(s);
    assert t != s.current;
    assert ThreadOk(s.queues, s.threads, s.ready, t, s.threads[t].cont);
    assert InQueue(s.queues, LockQ(l), t);
    if CanStep(s, ReleaseOp(l)) {
      ReleaseRaises(s, l);
      AmongSleepers(s.threads, s.queues[LockQ(l)], t);
      RaisedRuns(s.threads, Release(s, l).0.threads, Sleepers(s.threads, s.queues[LockQ(l)]), t);
    }
  }

  /** A thread inside cv_wait is asleep in the cv's queue or runnable; having gone on to the lock it is asleep
      in the queue of a held lock or runnable. It comes out only as the holder of the lock. */
  lemma InsideCvWait(s: Sys, t: int, c: nat, l: nat)
    requires Reachable(s) && Alive(s.threads, t) && s.threads[t].cont == InCvWait(c, l)
    ensures NamesExist(s, InCvWait(c, l))
    ensures IsAsleep(s.threads, t) ==> InQueue(s.queues, CvQ(c), t)
    ensures IsRunning(s.threads, t) && t != s.current ==> t in s.ready
    ensures t == s.current ==>
              var (s', out) := Resume(s);
              && (out == Ret(0) ==> s'.current == t && s'.owner[l] == t)
              && (out != Ret(0) ==> s.owner[l] != -1 && s'.threads[t].cont == InAcquire(l))
  {
    InvHolds(s);
    if t == s.current {
      AcquireKeeps(s, l);
      if s.owner[l] != -1 && Alone(s) {
        SleepAtHome(s, LockQ(l), InAcquire(l));
      }
    } else {
      assert ThreadOk(s.queues, s.threads, s.ready, t, s.threads[t].cont);
    }
  }

  /** cv_wait, then a signal: of the threads asleep in the cv's queue, cv_signal by a holder makes runnable the
      one that went to sleep first and cv_broadcast all of them. */
  lemma SignalWakes(s: Sys, c: nat, l: nat, t: int, i: nat, all: bool)
    requires Reachable(s) && CanStep(s, CvWakeOp(c, l, all))
    requires CvQ(c) in s.queues && i < |s.queues[CvQ(c)]| && s.queues[CvQ(c)][i] == t && IsAsleep(s.threads, t)
    requires all || forall j :: 0 <= j < i ==> !IsAsleep(s.threads, s.queues[CvQ(c)][j])
    ensures CvWake(s, c, l, all).1 == Ret(0)
    ensures t in CvWake(s, c, l, all).0.ready && IsRunning(CvWake(s, c, l, all).0.threads, t)
    ensures !all ==> forall u :: u != t && ValidTid(u) ==> CvWake(s, c, l, all).0.threads[u] == s.threads[u]
  {
    InvHolds(s);
    SignalRaises(s, c, l, all);
    AmongWoken(s.threads, s.queues[CvQ(c)], i, all);
    var ids, s' := Woken(s.threads, s.queues[CvQ(c)], all), CvWake(s, c, l, all).0;
    RaisedRuns(s.threads, s'.threads, ids, t);
  }

  lemma SignalRaises(s: Sys, c: nat, l: nat, all: bool)
    requires Inv(s) && CanStep(s, CvWakeOp(c, l, all))
    ensures var (s', out) := CvWake(s, c, l, all);
            var ids := Woken(s.threads, s.queues[CvQ(c)], all);
            && out == Ret(0) && Placed(s.ready, ids) && s'.ready == PushAll(s.ready, ids)
            && Raised(s.threads, s'.threads, ids)
  {
    CvWakeKeeps(s, c, l, all);
  }

  lemma ReleaseRaises(s: Sys, l: nat)
    requires Inv(s) && CanStep(s, ReleaseOp(l))
    ensures var s' := Release(s, l).0;
            var ids := Sleepers(s.threads, s.queues[LockQ(l)]);
            && s'.owner[l] == -1 && Placed(s.ready, ids) && s'.ready == PushAll(s.ready, ids)
            && Raised(s.threads, s'.threads, ids)
  {
    ReleaseKeeps(s, l);
  }

  lemma RaisedRuns(ts: Table, ts': Table, ids: seq<int>, t: int)
    requires Raised(ts, ts', ids) && t in ids && ValidTid(t)
    ensures IsRunning(ts', t)
    ensures ids == [t] ==> forall u :: u != t && ValidTid(u) ==> ts'[u] == ts[u]
  {
  }

  lemma AmongWoken(ts: Table, queue: seq<int>, i: nat, all: bool)
    requires i < |queue| && IsAsleep(ts, queue[i]) && (all || forall j :: 0 <= j < i ==> !IsAsleep(ts, queue[j]))
    ensures queue[i] in Woken(ts, queue, all) && (!all ==> Woken(ts, queue, all) == [queue[i]])
  {
    AmongSleepers(ts, queue, queue[i]);
    if !all {
      FirstSleeper(ts, queue, i);
    }
  }

  lemma {:induction false} FirstSleeper(ts: Table, queue: seq<int>, i: nat)
    requires i < |queue| && IsAsleep(ts, queue[i]) && forall j :: 0 <= j < i ==> !IsAsleep(ts, queue[j])
    ensures Sleepers(ts, queue) != [] && Sleepers(ts, queue)[0] == queue[i]
  {
    if i > 0 {
      assert !IsAsleep(ts, queue[0]);
      forall j | 0 <= j < i - 1
        ensures !IsAsleep(ts, queue[1..][j])
      {
        assert queue[1..][j] == queue[j + 1];
      }
      FirstSleeper(ts, queue[1..], i - 1);
    }
  }

  /** The created threads that are alive. */
  ghost function Created(ts: Table): set<int> {
    set t: int | 0 <= t < MAX_THREADS && HasStack(ts, t)
  }

  ghost function StacksOf(ts: Table, who: set<int>): set<nat> {
    set t | t in who && ValidTid(t) :: ts[t].stack
  }

  lemma {:induction false} OneStackEach(ts: Table, who: set<int>)
    requires who <= Created(ts)
    requires forall t, u :: HasStack(ts, t) && HasStack(ts, u) && ts[t].stack == ts[u].stack ==> t == u
    ensures |StacksOf(ts, who)| == |who|
    decreases who
  {
    if who == {} {
      assert StacksOf(ts, who) == {};
    } else {
      var x :| x in who;
      assert x in Created(ts);
      OneStackEach(ts, who - {x});
      forall t | t in who && t != x
        ensures ValidTid(t) && ts[t].stack != ts[x].stack
      {
        assert t in Created(ts);
      }
      assert StacksOf(ts, who) == StacksOf(ts, who - {x}) + {ts[x].stack};
    }
  }

  /** In every reachable state malloc369's counts are those of the live created threads and of the wait queues,
      locks and cvs: each thread one stack, each wait queue one block, each lock or cv one besides that of its
      wait queue. */
  lemma BlocksAreCounted(s: Sys)
    requires Reachable(s)
    ensures L.CurrentMallocs(s.ledger) == |Created(s.threads)| + |s.blocks| && |s.blocks| == NumBlocks(s.queues.Keys)
    ensures L.CurrentBytes(s.ledger) == STACK * |Created(s.threads)| + BlockBytes(s.queues.Keys)
    ensures L.Live(s.ledger.entries) == StackSet(s.threads) + s.blocks.Keys && StackSet(s.threads) !! s.blocks.Keys
  {
    ReachableGood(s);
    CountStacks(s.threads, s.ledger.entries, L.Live(s.ledger.entries), s.blocks.Keys);
    assert |s.blocks| == |s.blocks.Keys|;
  }

  lemma CountStacks(ts: Table, entries: map<nat, nat>, live: set<nat>, blocks: set<nat>)
    requires Owned(ts, entries, live, blocks)
    ensures |StackSet(ts)| == |Created(ts)| && |live| == |Created(ts)| + |blocks|
  {
    OneStackEach(ts, Created(ts));
    assert StackSet(ts) == StacksOf(ts, Created(ts));
  }
}
