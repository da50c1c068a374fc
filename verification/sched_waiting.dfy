/** Bounded waiting: how soon a runnable thread becomes current. */
module SchedWaiting {
  import opened RingSpec
  import opened Sched
  import opened SchedInv
  import opened SchedSteps
  import opened SchedDeath
  import opened SchedRuns
  import opened SchedReady

  /** The position of the first entry of t in the ready queue (its length when there is none). */
  ghost function Pos(q: seq<int>, t: int): (n: nat)
    ensures n <= |q| && (n < |q| <==> t in q)
  {
    if q == [] || q[0] == t then 0 else 1 + Pos(q[1..], t)
  }

  lemma {:induction false} PosAppend(q: seq<int>, r: seq<int>, t: int)
    requires t in q
    ensures Pos(q + r, t) == Pos(q, t)
  {
    assert (q + r)[0] == q[0];
    if q[0] != t {
      assert (q + r)[1..] == q[1..] + r;
      PosAppend(q[1..], r, t);
    }
  }

  /** t has moved at least d places forward, or is the current thread. */
  ghost predicate Closer(q: seq<int>, q': seq<int>, t: int, d: nat, current: int) {
    current == t || (t in q' && Pos(q', t) + d <= Pos(q, t))
  }

  lemma CloserPush(q: seq<int>, q': seq<int>, x: int, t: int, d: nat, c: int)
    requires Closer(q, q', t, d, c)
    ensures Closer(q, Push(q', x), t, d, c)
  {
    if c != t {
      PosAppend(q', [x], t);
    }
  }

  lemma CloserAppend(q: seq<int>, r: seq<int>, t: int, c: int)
    requires t in q
    ensures Closer(q, q + r, t, 0, c)
  {
    PosAppend(q, r, t);
  }

  lemma CloserPushAll(q: seq<int>, ids: seq<int>, t: int, c: int)
    requires |q| <= CAPACITY && t in q
    ensures Closer(q, PushAll(q, ids), t, 0, c)
  {
    CloserAppend(q, ids[..if |q| + |ids| <= CAPACITY then |ids| else CAPACITY - |q|], t, c);
  }

  /** get_thread_any passes over no runnable thread: it takes t, or moves it forward. */
  lemma {:induction false} PopAnyCloser(ready: seq<int>, ts: Table, c: int, t: int)
    requires AllValid(ready) && t in ready && IsRunning(ts, t) && t != c
    ensures var (rest, x) := PopAny(ready, ts, c);
            x != NONE && Closer(ready, rest, t, 1, x)
  {
    if !(ts[ready[0]].state == Running && ready[0] != c) {
      PopAnyCloser(ready[1..], ts, c, t);
    }
  }

  /** thread_yield(THREAD_ANY) from any table in which t is runnable. */
  lemma YieldAnyCloser(s: Sys, k: Cont, t: int)
    requires WellFormed(s) && (k.InWait? ==> ValidTid(k.target))
    requires t in s.ready && IsRunning(s.threads, t) && t != s.current
    ensures var (s', out) := Yield(s, ANY, k);
            out.Switch? && Closer(s.ready, s'.ready, t, 1, s'.current)
  {
    PopAnyCloser(s.ready, s.threads, s.current, t);
    var (rest, x) := PopAny(s.ready, s.threads, s.current);
    CloserPush(s.ready, rest, s.current, t, 1, x);
  }

  lemma SleepCloser(s: Sys, q: QId, k: Cont, t: int)
    requires WellFormed(s) && q in s.queues && !k.InWait?
    requires t in s.ready && IsRunning(s.threads, t) && t != s.current
    ensures var (s', out) := SleepOn(s, q, k);
            out.Switch? && Closer(s.ready, s'.ready, t, 1, s'.current)
  {
    YieldAnyCloser(Enqueued(s, q), k, t);
  }

  lemma AcquireCloser(s: Sys, l: nat, t: int)
    requires WellFormed(s) && l in s.owner && t in s.ready && IsRunning(s.threads, t) && t != s.current
    ensures var s' := AcquireLoop(s, l).0;
            Closer(s.ready, s'.ready, t, if s.owner[l] != -1 then 1 else 0, s'.current)
  {
    if s.owner[l] != -1 {
      SleepCloser(s, LockQ(l), InAcquire(l), t);
    }
  }

  lemma WaitCloser(s: Sys, u: int, t: int)
    requires Inv(s) && t in s.ready && IsRunning(s.threads, t) && t != s.current
    ensures var s' := Wait(s, u).0;
            Closer(s.ready, s'.ready, t, if MustWait(s, u) then 1 else 0, s'.current)
  {
    if MustWait(s, u) {
      WaitingKeeps(s, u);
      YieldAnyCloser(Waiting(s, u), InWait(u), t);
      assert Wait(s, u).0 == Yield(Waiting(s, u), ANY, InWait(u)).0;
    }
  }

  lemma CvWaitCloser(s: Sys, c: nat, l: nat, t: int)
    requires MayStep(s, CvWaitOp(c, l)) && t in s.ready && IsRunning(s.threads, t) && t != s.current
    ensures var s' := CvWait(s, c, l).0;
            Closer(s.ready, s'.ready, t, 1, s'.current)
  {
    ReleaseKeeps(s, l);
    var s1 := Release(s, l).0;
    CloserPushAll(s.ready, Sleepers(s.threads, s.queues[LockQ(l)]), t, s.current);
    StillRunning(s, l, t);
    SleepCloser(s1, CvQ(c), InCvWait(c, l), t);
    assert CvWait(s, c, l) == CvSleep(s1, c, l);
  }

  lemma StillRunning(s: Sys, l: nat, t: int)
    requires WellFormed(s) && l in s.owner && s.owner[l] == s.current && IsRunning(s.threads, t)
    ensures IsRunning(Release(s, l).0.threads, t)
  {
  }

  lemma ExitCloser(s: Sys, code: int, t: int)
    requires MayStep(s, ExitOp(code)) && t in s.ready && IsRunning(s.threads, t) && t != s.current
    requires !Awaited(s, s.current)
    ensures Closer(s.ready, Exit(s, code).0.ready, t, 1, Exit(s, code).0.current)
  {
    var led := AfterFree(s, s.current);
    DeathForm(s, s.current, code, led);
    ExitUnfold(s, code);
    var d := Dead(s, s.current, code).(ledger := led);
    DeadFacts(s, s.current, code);
    YieldAnyCloser(d, User, t);
    assert Exit(s, code).0 == Yield(d, ANY, User).0;
  }

  /** A step that chooses with get_thread_any brings every runnable thread forward. */
  lemma AnyCloser(s: Sys, op: Op, t: int)
    requires MayStep(s, op) && UsesAny(s, op) && IsRunning(s.threads, t) && t != s.current && t in s.ready
    ensures Closer(s.ready, Next(s, op).0.ready, t, 1, Next(s, op).0.current)
  {
    match op
    case YieldOp(_) => YieldAnyCloser(s, User, t);
    case ExitOp(code) => ExitCloser(s, code, t);
    case SleepOp(q) => SleepCloser(s, UserQ(q), InSleep(q), t);
    case WaitOp(u) => WaitCloser(s, u, t);
    case CvWaitOp(c, l) => CvWaitCloser(s, c, l, t);
    case AcquireOp(l) => AcquireCloser(s, l, t);
    case ResumeOp => AcquireCloser(s, Me(s).cont.lock, t);
  }

  /** Any step at all: a runnable thread becomes current or keeps its place in the ready queue, and every
      step that uses get_thread_any brings it forward. */
  lemma StepCloser(s: Sys, op: Op, t: int)
    requires MayStep(s, op) && Next(s, op).1 != ProcessEnds && IsRunning(s.threads, t) && t != s.current
    ensures var s' := Next(s, op).0;
            t in s.ready && Closer(s.ready, s'.ready, t, if UsesAny(s, op) then 1 else 0, s'.current)
  {
    assert ThreadOk(s.queues, s.threads, s.ready, t, s.threads[t].cont);
    if UsesAny(s, op) {
      AnyCloser(s, op, t);
    } else {
      var n := InvReady(s, op);
      var c, raised := Next(s, op).0.current, PushAll(s.ready, Raises(s, op));
      assert raised[0..] == raised;
      CloserPushAll(s.ready, Raises(s, op), t, c);
      CloserPush(s.ready, raised, s.current, t, 0, c);
    }
  }

  /** In no state of the run after the first is t current, and in all of them it is runnable. */
  ghost predicate PassedOver(s: Sys, ops: seq<Op>, t: int)
    decreases |ops|
  {
    ops == [] ||
    (WellFormed(s) && Enabled(s, ops[0])
     && Next(s, ops[0]).0.current != t && IsRunning(Next(s, ops[0]).0.threads, t)
     && PassedOver(Next(s, ops[0]).0, ops[1..], t))
  }

  /** The number of steps of the run that use get_thread_any. */
  ghost function AnySteps(s: Sys, ops: seq<Op>): nat
    decreases |ops|
  {
    if ops == [] || !WellFormed(s) || !Enabled(s, ops[0]) then 0
    else (if UsesAny(s, ops[0]) then 1 else 0) + AnySteps(Next(s, ops[0]).0, ops[1..])
  }

  /** Bounded waiting: a runnable thread with p entries ahead of it in the ready queue is passed over by at
      most p choices of get_thread_any, whatever else happens in between; the next one picks it. */
  lemma {:induction false} BoundedWaiting(s: Sys, ops: seq<Op>, s': Sys, t: int)
    requires SysInv(s) && Run(s, ops, s')
    requires IsRunning(s.threads, t) && t != s.current && PassedOver(s, ops, t)
    ensures AnySteps(s, ops) <= Pos(s.ready, t) < |s.ready|
    decreases |ops|
  {
    if ops == [] {
      assert ThreadOk(s.queues, s.threads, s.ready, t, s.threads[t].cont);
    } else {
      StepKeeps(s, ops[0]);
      Freeable(s, ops[0]);
      StepCloser(s, ops[0], t);
      BoundedWaiting(Next(s, ops[0]).0, ops[1..], s', t);
    }
  }
}
