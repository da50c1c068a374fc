/** The ready queue, exactly: a step takes entries from its front with get_thread_any and puts entries at its
    end, as far as there is room. */
module SchedReady {
  import opened RingSpec
  import opened Sched
  import opened SchedInv
  import opened SchedSteps
  import opened SchedDeath
  import opened SchedRuns

  /** The steps that choose the next thread with get_thread_any. */
  ghost predicate UsesAny(s: Sys, op: Op)
    requires WellFormed(s)
  {
    match op
    case YieldOp(want) => want == ANY
    case ExitOp(_) => !Awaited(s, s.current)
    case SleepOp(q) => UserQ(q) in s.queues
    case WaitOp(t) => MustWait(s, t)
    case AcquireOp(l) => l in s.owner && s.owner[l] != -1
    case CvWaitOp(_, _) => true
    case ResumeOp => (Me(s).cont.InAcquire? || Me(s).cont.InCvWait?)
                     && Me(s).cont.lock in s.owner && s.owner[Me(s).cont.lock] != -1
    case _ => false
  }

  /** The threads op makes runnable: those it creates or wakes. */
  ghost function Raises(s: Sys, op: Op): seq<int>
    requires WellFormed(s)
  {
    match op
    case CreateOp(m) =>
      var t := FreeSlot(s.threads, 1);
      if t < MAX_THREADS && m != 0 then [t] else []
    case WakeupOp(q, all) => if UserQ(q) in s.queues then Woken(s.threads, s.queues[UserQ(q)], all) else []
    case ReleaseOp(l) => if l in s.owner then Sleepers(s.threads, s.queues[LockQ(l)]) else []
    case CvWaitOp(_, l) => if l in s.owner then Sleepers(s.threads, s.queues[LockQ(l)]) else []
    case CvWakeOp(c, _, all) => if CvQ(c) in s.queues then Woken(s.threads, s.queues[CvQ(c)], all) else []
    case _ => []
  }

  /** All that op pushes on the ready queue: these and, when it ends in a switch, the caller. */
  ghost function Pushed(s: Sys, op: Op): seq<int>
    requires WellFormed(s) && Enabled(s, op)
  {
    Raises(s, op) + Back(s, Next(s, op).1)
  }

  ghost function Back(s: Sys, out: Out): seq<int> {
    if out.Switch? then [s.current] else []
  }

  /** q is what is left of the ready queue once its first n entries have been taken; a switch puts the caller
      behind it. */
  ghost predicate Left(ready: seq<int>, n: nat, s: Sys, out: Out, q: seq<int>) {
    && n <= |ready| && q == (if out.Switch? then Push(ready[n..], s.current) else ready[n..])
  }

  /** Of the n entries taken, the last is the thread that runs next; nobody ahead of it could. */
  ghost predicate First(ready: seq<int>, n: nat, s: Sys, s': Sys, out: Out)
    requires WellFormed(s')
  {
    out.Switch? ==>
      && 0 < n <= |ready| && out.tid == s'.current == ready[n - 1] && IsRunning(s'.threads, s'.current)
      && (forall i :: 0 <= i < n - 1 ==> ready[i] == s.current || !IsRunning(s'.threads, ready[i]))
  }

  lemma YieldAnyReady(s: Sys, k: Cont) returns (n: nat)
    requires WellFormed(s) && (k.InWait? ==> ValidTid(k.target))
    ensures var (s', out) := Yield(s, ANY, k);
            Left(s.ready, n, s, out, s'.ready) && First(s.ready, n, s, s', out)
  {
    var j := PopAnyFacts(s.ready, s.threads, s.current);
    var (rest, t) := PopAny(s.ready, s.threads, s.current);
    n := if t == NONE then j else j + 1;
  }

  lemma SleepReady(s: Sys, q: QId, k: Cont) returns (n: nat)
    requires WellFormed(s) && q in s.queues && !k.InWait?
    ensures var (s', out) := SleepOn(s, q, k);
            Left(s.ready, n, s, out, s'.ready) && First(s.ready, n, s, s', out)
  {
    n := YieldAnyReady(Enqueued(s, q), k);
  }

  lemma AcquireReady(s: Sys, l: nat) returns (n: nat)
    requires WellFormed(s) && l in s.owner
    ensures var (s', out) := AcquireLoop(s, l);
            && Left(s.ready, n, s, out, s'.ready) && First(s.ready, n, s, s', out)
            && (s.owner[l] == -1 ==> n == 0 && !out.Switch?)
  {
    n := 0;
    if s.owner[l] != -1 {
      n := SleepReady(s, LockQ(l), InAcquire(l));
    }
  }

  lemma WaitReady(s: Sys, t: int) returns (n: nat)
    requires Inv(s) && CanStep(s, WaitOp(t))
    ensures var (s', out) := Wait(s, t);
            && Left(s.ready, n, s, out, s'.ready) && First(s.ready, n, s, s', out)
            && (!MustWait(s, t) ==> n == 0 && !out.Switch?)
  {
    n := 0;
    if MustWait(s, t) {
      n := YieldAnyReady(Waiting(s, t), InWait(t));
      WaitBlocks(s, t);
      assert Wait(s, t).0 == Yield(Waiting(s, t), ANY, InWait(t)).0;
    }
  }

  lemma CvWaitReady(s: Sys, c: nat, l: nat) returns (n: nat)
    requires Inv(s) && CanStep(s, CvWaitOp(c, l))
    ensures var (s', out) := CvWait(s, c, l);
            && Left(PushAll(s.ready, Sleepers(s.threads, s.queues[LockQ(l)])), n, s, out, s'.ready)
            && First(PushAll(s.ready, Sleepers(s.threads, s.queues[LockQ(l)])), n, s, s', out)
  {
    ReleaseKeeps(s, l);
    var s1 := Release(s, l).0;
    n := CvSleepReady(s1, c, l);
    assert CvWait(s, c, l) == CvSleep(s1, c, l);
  }

  lemma CvSleepReady(s: Sys, c: nat, l: nat) returns (n: nat)
    requires Inv(s) && l in s.owner && CvQ(c) in s.queues && s.owner[l] == -1
    ensures var (s', out) := CvSleep(s, c, l);
            Left(s.ready, n, s, out, s'.ready) && First(s.ready, n, s, s', out)
  {
    SleepAtHome(s, CvQ(c), InCvWait(c, l));
    n := SleepReady(s, CvQ(c), InCvWait(c, l));
  }

  lemma ExitReady(s: Sys, code: int) returns (n: nat)
    requires Inv(s) && CanStep(s, ExitOp(code)) && StackFreeable(s, s.current) && Exit(s, code).1 != ProcessEnds
    ensures var (s', out) := Exit(s, code);
            && Left(s.ready, n, s, out, s'.ready) && (!Awaited(s, s.current) ==> First(s.ready, n, s, s', out))
            && (Awaited(s, s.current) ==> n == 0)
  {
    var t, led := s.current, AfterFree(s, s.current);
    ExitKeeps(s, code);
    DeathForm(s, t, code, led);
    ExitUnfold(s, code);
    n := 0;
    if !Awaited(s, t) {
      n := YieldAnyReady(Dead(s, t, code).(ledger := led), User);
    }
  }

  lemma KillReady(s: Sys, t: int)
    requires Inv(s) && CanStep(s, KillOp(t)) && (Alive(s.threads, t) && t != s.current ==> StackFreeable(s, t))
    ensures var (s', out) := Kill(s, t, false);
            Left(s.ready, 0, s, out, s'.ready)
  {
    KillKeeps(s, t);
    if Alive(s.threads, t) && t != s.current {
      var c := s.threads[t].exitCode;
      assert Dying(s, t, c, AfterFree(s, t)) == s.(ledger := AfterFree(s, t));
      DeathForm(s, t, c, AfterFree(s, t));
      assert Kill(s, t, false).0 == HandleDeath(Dying(s, t, c, AfterFree(s, t)), t).0;
    }
  }

  lemma ResumeReady(s: Sys) returns (n: nat)
    requires Inv(s) && CanStep(s, ResumeOp)
    ensures var (s', out) := Resume(s);
            && Left(s.ready, n, s, out, s'.ready) && First(s.ready, n, s, s', out)
            && (!UsesAny(s, ResumeOp) ==> n == 0 && !out.Switch?)
  {
    n := 0;
    var k := Me(s).cont;
    if k.InAcquire? || k.InCvWait? {
      n := AcquireReady(s, k.lock);
    }
  }

  /** The other steps put at the end of the ready queue whom they raise, and take nothing. */
  lemma RaisedReady(s: Sys, op: Op)
    requires Inv(s) && CanStep(s, op) && Next(s, op).1 != ProcessEnds
    requires op.CreateOp? || op.WakeupOp? || op.ReleaseOp? || op.CvWakeOp? || op.NewQueueOp?
    ensures Next(s, op).0.ready == PushAll(s.ready, Raises(s, op)) && !Next(s, op).1.Switch?
  {
    match op
    case CreateOp(_) =>
    case WakeupOp(q, all) => if UserQ(q) in s.queues { WakeEffect(s, UserQ(q), all); }
    case ReleaseOp(l) => ReleaseKeeps(s, l);
    case CvWakeOp(c, l, all) => CvWakeKeeps(s, c, l, all);
    case NewQueueOp(_, _, _) =>
  }

  /** After op the ready queue is what it was, with whom op raises put at its end as far as there is room, without
      the first n entries, which only get_thread_any takes, to run the first thread among them that can; and, if op
      ended in a switch, with the caller behind. */
  ghost predicate ReadyAfter(s: Sys, op: Op, n: nat)
    requires WellFormed(s) && Enabled(s, op)
  {
    var (s', out) := Next(s, op);
    && Left(PushAll(s.ready, Raises(s, op)), n, s, out, s'.ready)
    && (if UsesAny(s, op) then First(PushAll(s.ready, Raises(s, op)), n, s, s', out) else n == 0)
  }

  lemma RaisesNobody(s: Sys, op: Op, n: nat, s': Sys, out: Out)
    requires WellFormed(s) && Enabled(s, op) && Next(s, op) == (s', out) && Raises(s, op) == []
    requires Left(s.ready, n, s, out, s'.ready)
    requires if UsesAny(s, op) then First(s.ready, n, s, s', out) else n == 0
    ensures ReadyAfter(s, op, n)
  {
    assert PushAll(s.ready, []) == s.ready;
  }

  lemma ExitAfter(s: Sys, code: int) returns (n: nat)
    requires Inv(s) && CanStep(s, ExitOp(code)) && StackFreeable(s, s.current) && Exit(s, code).1 != ProcessEnds
    ensures ReadyAfter(s, ExitOp(code), n)
  {
    n := ExitReady(s, code);
    RaisesNobody(s, ExitOp(code), n, Exit(s, code).0, Exit(s, code).1);
  }

  lemma KillAfter(s: Sys, t: int)
    requires Inv(s) && CanStep(s, KillOp(t)) && (Alive(s.threads, t) && t != s.current ==> StackFreeable(s, t))
    ensures ReadyAfter(s, KillOp(t), 0)
  {
    KillReady(s, t);
    RaisesNobody(s, KillOp(t), 0, Kill(s, t, false).0, Kill(s, t, false).1);
  }

  lemma SleepAfter(s: Sys, q: nat) returns (n: nat)
    requires Inv(s) && CanStep(s, SleepOp(q))
    ensures ReadyAfter(s, SleepOp(q), n)
  {
    n := 0;
    if UserQ(q) in s.queues {
      n := SleepReady(s, UserQ(q), InSleep(q));
      var (s', out) := SleepOn(s, UserQ(q), InSleep(q));
      RaisesNobody(s, SleepOp(q), n, s', out);
    } else {
      RaisesNobody(s, SleepOp(q), n, s, Ret(INVALID));
    }
  }

  lemma WaitAfter(s: Sys, t: int) returns (n: nat)
    requires Inv(s) && CanStep(s, WaitOp(t))
    ensures ReadyAfter(s, WaitOp(t), n)
  {
    n := WaitReady(s, t);
    RaisesNobody(s, WaitOp(t), n, Wait(s, t).0, Wait(s, t).1);
  }

  lemma AcquireAfter(s: Sys, l: nat) returns (n: nat)
    requires Inv(s) && CanStep(s, AcquireOp(l))
    ensures ReadyAfter(s, AcquireOp(l), n)
  {
    n := AcquireReady(s, l);
    RaisesNobody(s, AcquireOp(l), n, AcquireLoop(s, l).0, AcquireLoop(s, l).1);
  }

  lemma ResumeAfter(s: Sys) returns (n: nat)
    requires Inv(s) && CanStep(s, ResumeOp)
    ensures ReadyAfter(s, ResumeOp, n)
  {
    n := ResumeReady(s);
    RaisesNobody(s, ResumeOp, n, Resume(s).0, Resume(s).1);
  }

  lemma CvWaitAfter(s: Sys, c: nat, l: nat) returns (n: nat)
    requires Inv(s) && CanStep(s, CvWaitOp(c, l))
    ensures ReadyAfter(s, CvWaitOp(c, l), n)
  {
    n := CvWaitReady(s, c, l);
  }

  lemma YieldReady(s: Sys, want: int) returns (n: nat)
    requires Inv(s) && CanStep(s, YieldOp(want))
    ensures ReadyAfter(s, YieldOp(want), n)
  {
    n := 0;
    if want == ANY {
      n := YieldAnyReady(s, User);
    }
    RaisesNobody(s, YieldOp(want), n, Yield(s, want, User).0, Yield(s, want, User).1);
  }

  lemma RaisingReady(s: Sys, op: Op)
    requires Inv(s) && CanStep(s, op) && Next(s, op).1 != ProcessEnds
    requires op.CreateOp? || op.WakeupOp? || op.ReleaseOp? || op.CvWakeOp? || op.NewQueueOp?
    ensures ReadyAfter(s, op, 0)
  {
    RaisedReady(s, op);
  }

  /** The ready queue after any step, exactly. */
  lemma InvReady(s: Sys, op: Op) returns (n: nat)
    requires MayStep(s, op) && Next(s, op).1 != ProcessEnds
    ensures ReadyAfter(s, op, n)
  {
    n := 0;
    match op {
      case YieldOp(want) => n := YieldReady(s, want);
      case ExitOp(code) => n := ExitAfter(s, code);
      case KillOp(t) => KillAfter(s, t);
      case SleepOp(q) => n := SleepAfter(s, q);
      case WaitOp(t) => n := WaitAfter(s, t);
      case AcquireOp(l) => n := AcquireAfter(s, l);
      case CvWaitOp(c, l) => n := CvWaitAfter(s, c, l);
      case ResumeOp => n := ResumeAfter(s);
      case _ => RaisingReady(s, op);
    }
  }

  /** A step that switches without get_thread_any switches to a thread named by the caller or by a death. */
  lemma NamedSwitch(s: Sys, op: Op)
    requires MayStep(s, op) && Next(s, op).1.Switch? && !UsesAny(s, op)
    ensures Cost(s, op) == 1 && Raises(s, op) == []
  {
    match op
    case KillOp(t) => KillKeeps(s, t);
    case WakeupOp(_, _) => RaisedReady(s, op);
    case ReleaseOp(_) => RaisedReady(s, op);
    case CvWakeOp(_, _, _) => RaisedReady(s, op);
    case WaitOp(t) => var n := WaitReady(s, t);
    case ResumeOp => var n := ResumeReady(s);
    case AcquireOp(l) => var n := AcquireReady(s, l);
    case _ =>
  }

  lemma RaisesCost(s: Sys, op: Op)
    requires WellFormed(s)
    ensures |Raises(s, op)| <= Cost(s, op)
  {
  }

  /** With ample room no push is dropped: after the step the ready queue is what it was, followed by everything the
      step pushed, without the first n entries. */
  lemma NoPushDropped(s: Sys, op: Op) returns (n: nat)
    requires SysInv(s) && CanStep(s, op) && AmpleRoom(s, op) && Next(s, op).1 != ProcessEnds
    ensures var all := s.ready + Pushed(s, op);
            n <= |all| && Next(s, op).0.ready == all[n..] && (!UsesAny(s, op) ==> n == 0)
  {
    Freeable(s, op);
    n := InvReady(s, op);
    RaisesCost(s, op);
    if Next(s, op).1.Switch? && !UsesAny(s, op) {
      NamedSwitch(s, op);
    }
    LeftIsRest(s, Raises(s, op), n, Next(s, op).1, Next(s, op).0.ready);
  }

  lemma LeftIsRest(s: Sys, ids: seq<int>, n: nat, out: Out, q: seq<int>)
    requires |s.ready| + |ids| <= CAPACITY && Left(PushAll(s.ready, ids), n, s, out, q)
    requires out.Switch? ==> n > 0 || |s.ready| + |ids| < CAPACITY
    ensures var all := s.ready + (ids + Back(s, out)); n <= |all| && q == all[n..]
  {
    RoomForAll(s.ready, ids);
    if out.Switch? {
      assert s.ready + (ids + [s.current]) == s.ready + ids + [s.current];
      assert (s.ready + ids + [s.current])[n..] == (s.ready + ids)[n..] + [s.current];
    }
  }
}
