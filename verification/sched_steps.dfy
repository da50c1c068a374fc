/** Every operation of thread.c keeps the scheduler's invariant. */
module SchedSteps {
  import opened RingSpec
  import opened Sched
  import opened SchedInv
  import L = LedgerSpec

  /** Going to sleep ends in the switch, or back where it began. */
  lemma SleepEnds(s: Sys, q: QId, k: Cont)
    requires Inv(s) && q in s.queues && !k.InWait? && Enqueued(s, q).queues[q] == s.queues[q] + [s.current]
    ensures var s1 := Enqueued(s, q);
            && (Yield(s1, ANY, k).1.Switch? ==> SleepOn(s, q, k) == Yield(s1, ANY, k))
            && (Yield(s1, ANY, k) == (s1.(ready := []), Ret(NONE)) ==> SleepOn(s, q, k) == (s.(ready := []), Ret(NONE)))
  {
    RollBack(s, q);
  }

  /** thread_sleep: the caller is asleep on q and somebody else runs, or nobody can run and nothing has
      changed but the stale entries of the ready queue. Its rollback assertion never fails. */
  lemma SleepKeeps(s: Sys, q: QId, k: Cont)
    requires Inv(s) && q in s.queues && NamesExist(s, k) && !k.InWait?
    requires Home(Enqueued(s, q).queues, Enqueued(s, q).threads, s.current, k)
    requires q.LockQ? ==> q.id in s.owner && s.owner[q.id] != -1
    ensures var (s', out) := SleepOn(s, q, k);
            && (Alone(s) ==> out == Ret(NONE) && s' == s.(ready := []) && Inv(s'))
            && (!Alone(s) ==> out.Switch? && Inv(s') && s'.queues == s.queues[q := s.queues[q] + [s.current]]
                              && s'.owner == s.owner && s'.current != s.current
                              && IsAsleep(s'.threads, s.current) && s'.threads[s.current].cont == k)
  {
    EnqueueKeeps(s, q);
    EnqueuedYields(s, q, k);
    SleepEnds(s, q, k);
    if Alone(s) {
      PopAnyComplete(s);
    }
  }

  lemma EnqueuedYields(s: Sys, q: QId, k: Cont)
    requires Inv(s) && q in s.queues && NamesExist(s, k) && !k.InWait?
    requires Home(Enqueued(s, q).queues, Enqueued(s, q).threads, s.current, k)
    requires q.LockQ? ==> q.id in s.owner && s.owner[q.id] != -1
    ensures var (s2, out) := Yield(Enqueued(s, q), ANY, k);
            && (Alone(s) ==> out == Ret(NONE) && s2 == Enqueued(s, q).(ready := []))
            && (!Alone(s) ==> out.Switch? && Inv(s2) && s2.queues == Enqueued(s, q).queues && s2.owner == s.owner
                              && s2.current != s.current && IsAsleep(s2.threads, s.current)
                              && s2.threads[s.current].cont == k)
  {
    var s1 := Enqueued(s, q);
    EnqueueKeeps(s, q);
    YieldAnyKeeps(s1, k);
    assert Alone(s1) <==> Alone(s) by {
      Stopped(s.threads, s1.threads, s.current, Sleep);
    }
  }

  /** Sleeping on the queue that the continuation names. */
  lemma SleepAtHome(s: Sys, q: QId, k: Cont)
    requires Inv(s) && q in s.queues && NamesExist(s, k)
    requires match k
             case InSleep(i) => q == UserQ(i)
             case InAcquire(l) => q == LockQ(l) && s.owner[l] != -1
             case InCvWait(c, _) => q == CvQ(c)
             case _ => false
    ensures var (s', out) := SleepOn(s, q, k);
            && (Alone(s) ==> out == Ret(NONE) && s' == s.(ready := []) && Inv(s'))
            && (!Alone(s) ==> out.Switch? && Inv(s') && s'.queues == s.queues[q := s.queues[q] + [s.current]]
                              && s'.owner == s.owner && s'.current != s.current
                              && IsAsleep(s'.threads, s.current) && s'.threads[s.current].cont == k)
  {
    EnqueueKeeps(s, q);
    var queue := Enqueued(s, q).queues[q];
    assert queue[|queue| - 1] == s.current;
    assert InQueue(Enqueued(s, q).queues, q, s.current);
    SleepKeeps(s, q, k);
  }

  /** The rollback of thread_sleep puts the state back. */
  lemma RollBack(s: Sys, q: QId)
    requires Inv(s) && q in s.queues && Enqueued(s, q).queues[q] == s.queues[q] + [s.current]
    ensures var s2 := Enqueued(s, q).(ready := []);
            var n := |s2.queues[q]|;
            && n > 0 && s2.queues[q][n - 1] == s.current
            && SetState(s2, s.current, Running).(queues := s2.queues[q := s2.queues[q][..n - 1]]) == s.(ready := [])
  {
    var s2 := Enqueued(s, q).(ready := []);
    var n := |s2.queues[q]|;
    assert s2.queues[q][..n - 1] == s.queues[q];
    assert s2.queues[q := s.queues[q]] == s.queues;
    assert SetState(s2, s.current, Running).threads == s.threads;
  }

  /** What thread_wait does before it yields. */
  ghost function Waiting(s: Sys, t: int): (r: Sys)
    requires WellFormed(s) && ValidTid(t)
    ensures WellFormed(r)
  {
    SetState(s.(threads := s.threads[t := s.threads[t].(waiter := s.current)]), s.current, Sleep)
  }

  lemma WaitingFacts(s: Sys, t: int)
    requires WellFormed(s) && Alive(s.threads, t) && t != s.current && s.threads[t].waiter == -1
             && Alive(s.threads, s.current)
    ensures var ts, ts', c := s.threads, Waiting(s, t).threads, s.current;
            && (forall x :: Alive(ts', x) == Alive(ts, x))
            && (forall x :: IsRunning(ts', x) == (IsRunning(ts, x) && x != c))
            && (forall x, u :: ValidTid(x) ==> WaitsFor(ts', x, u) == (WaitsFor(ts, x, u) || (x == c && u == t)))
  {
  }

  lemma WaitingKeeps(s: Sys, t: int)
    requires Inv(s) && Alive(s.threads, t) && t != s.current && s.threads[t].waiter == -1
    ensures Core(Waiting(s, t), {s.current})
    ensures Home(Waiting(s, t).queues, Waiting(s, t).threads, s.current, InWait(t))
    ensures forall x :: IsRunning(Waiting(s, t).threads, x) == (IsRunning(s.threads, x) && x != s.current)
    ensures forall x :: Alive(Waiting(s, t).threads, x) == Alive(s.threads, x)
  {
    var s' := Waiting(s, t);
    var c := s.current;
    assert forall q :: !InQueue(s.queues, q, c);
    assert forall u :: !WaitsFor(s.threads, c, u);
    WaitingFacts(s, t);
    forall x | ValidTid(x) && x != c
      ensures ThreadOk(s'.queues, s'.threads, s'.ready, x, s'.threads[x].cont)
    {
      assert ThreadOk(s.queues, s.threads, s.ready, x, s.threads[x].cont);
      assert s'.threads[x].cont == s.threads[x].cont;
      assert IsAsleep(s'.threads, x) == IsAsleep(s.threads, x);
    }
  }

  /** thread_wait that has to block: the invariant survives exactly when somebody else can run. */
  lemma WaitBlocks(s: Sys, t: int)
    requires Inv(s) && Alive(s.threads, t) && t != s.current && s.threads[t].waiter == -1
    ensures var (s', out) := Wait(s, t);
            && (Inv(s') <==> !Alone(s))
            && (!Alone(s) ==> out.Switch? && s'.current != s.current && IsAsleep(s'.threads, s.current)
                              && s'.threads[s.current].cont == InWait(t) && s'.threads[t].waiter == s.current)
  {
    var s1 := Waiting(s, t);
    WaitingKeeps(s, t);
    assert Alone(s1) <==> Alone(s);
    YieldAnyKeeps(s1, InWait(t));
  }

  lemma WaitKeeps(s: Sys, t: int)
    requires Inv(s)
    requires Alive(s.threads, t) && t != s.current && s.threads[t].waiter == -1 ==> !Alone(s)
    ensures Inv(Wait(s, t).0) && Wait(s, t).1 != Crash
  {
    if Alive(s.threads, t) && t != s.current && s.threads[t].waiter == -1 {
      WaitBlocks(s, t);
    }
  }

  /** One round of the loop of thread_wakeup: the head of q is removed and, if it sleeps, made runnable. */
  ghost function WakeHead(s: Sys, q: QId): (r: Sys)
    requires WellFormed(s) && q in s.queues && s.queues[q] != []
    ensures WellFormed(r)
  {
    var t := s.queues[q][0];
    var s1 := s.(queues := s.queues[q := s.queues[q][1..]]);
    if s.threads[t].state == Sleep then SetState(s1, t, Running).(ready := Push(s.ready, t)) else s1
  }

  lemma WakeUnfold(s: Sys, q: QId, all: bool)
    requires WellFormed(s) && q in s.queues && s.queues[q] != []
    requires s.threads[s.queues[q][0]].state != Running
    ensures var t, h := s.queues[q][0], WakeHead(s, q);
            && (s.threads[t].state == Sleep && !all ==> Wakeup(s, q, all) == (h, Ret(1)))
            && (s.threads[t].state == Destroyed ==> Wakeup(s, q, all) == Wakeup(h, q, all))
            && (s.threads[t].state == Sleep && all ==>
                  Wakeup(s, q, all).0 == Wakeup(h, q, all).0
                  && Wakeup(s, q, all).1 == match Wakeup(h, q, all).1 { case Ret(n) => Ret(n + 1) case o => o })
  {
    if s.threads[s.queues[q][0]].state == Destroyed || all {
      WakesOn(s, q, all);
    }
  }

  /** The loop goes on with the rest of the queue. */
  lemma WakesOn(s: Sys, q: QId, all: bool)
    requires WellFormed(s) && q in s.queues && s.queues[q] != []
    requires var state := s.threads[s.queues[q][0]].state; state == Destroyed || (state == Sleep && all)
    ensures var h := WakeHead(s, q);
            var w := WakeLoop(h.threads, h.queues[q], h.ready, all);
            && WakeLoop(s.threads, s.queues[q], s.ready, all)
               == w.(count := w.count + if s.threads[s.queues[q][0]].state == Sleep then 1 else 0)
            && h.queues[q := w.queue] == s.queues[q := w.queue]
  {
    var h := WakeHead(s, q);
    var w := WakeLoop(h.threads, h.queues[q], h.ready, all);
    assert s.queues[q := h.queues[q]][q := w.queue] == s.queues[q := w.queue];
  }

  lemma WakeHeadFacts(s: Sys, q: QId)
    requires WellFormed(s) && QueuesOk(s.queues, s.threads) && q in s.queues && s.queues[q] != []
    ensures var t, h := s.queues[q][0], WakeHead(s, q);
            && InQueue(s.queues, q, t) && !IsRunning(s.threads, t) && ValidTid(t)
            && (forall r, x :: InQueue(h.queues, r, x) == (InQueue(s.queues, r, x) && !(r == q && x == t)))
            && NoDup(h.queues[q])
            && (forall x, u :: WaitsFor(h.threads, x, u) == WaitsFor(s.threads, x, u))
            && (forall x :: IsRunning(h.threads, x) == (IsRunning(s.threads, x) || (x == t && IsAsleep(s.threads, t))))
            && (forall x :: Alive(h.threads, x) == Alive(s.threads, x))
            && (forall x :: IsAsleep(h.threads, x) == (IsAsleep(s.threads, x) && x != t))
  {
    var t, h := s.queues[q][0], WakeHead(s, q);
    assert InQueue(s.queues, q, t);
    HeadGone(s.queues[q], t);
    assert h.queues[q] == s.queues[q][1..];
  }

  lemma WakeHeadThreads(s: Sys, q: QId)
    requires Core(s, {s.current}) && q in s.queues && s.queues[q] != []
    requires IsAsleep(s.threads, s.queues[q][0]) ==> Room(s, s.queues[q][0])
    ensures var h := WakeHead(s, q);
            forall x :: ValidTid(x) && x != s.current ==> ThreadOk(h.queues, h.threads, h.ready, x, h.threads[x].cont)
  {
    var t, h := s.queues[q][0], WakeHead(s, q);
    WakeHeadFacts(s, q);
    forall x | ValidTid(x) && x != s.current
      ensures ThreadOk(h.queues, h.threads, h.ready, x, h.threads[x].cont)
    {
      assert ThreadOk(s.queues, s.threads, s.ready, x, s.threads[x].cont);
      assert h.threads[x].cont == s.threads[x].cont;
      if x == t && IsAsleep(s.threads, t) {
        PushedIn(s.ready, t);
      }
    }
  }

  lemma WakeHeadQueues(s: Sys, q: QId)
    requires Core(s, {s.current}) && q in s.queues && s.queues[q] != []
    ensures var h := WakeHead(s, q);
            QueuesOk(h.queues, h.threads) && WaitersOk(h.queues, h.threads) && LocksOk(h.queues, h.threads, h.owner)
  {
    WakeHeadFacts(s, q);
    var h := WakeHead(s, q);
    assert forall r :: r in s.queues && r != q ==> h.queues[r] == s.queues[r];
  }

  lemma WakeHeadKeeps(s: Sys, q: QId)
    requires Core(s, {s.current}) && IsRunning(s.threads, s.current) && q in s.queues && s.queues[q] != []
    requires IsAsleep(s.threads, s.queues[q][0]) ==> Room(s, s.queues[q][0])
    ensures Core(WakeHead(s, q), {s.current}) && IsRunning(WakeHead(s, q).threads, s.current)
  {
    WakeHeadFacts(s, q);
    WakeHeadThreads(s, q);
    WakeHeadQueues(s, q);
    var h := WakeHead(s, q);
    assert forall x :: ValidTid(x) ==> h.threads[x] == s.threads[x].(state := h.threads[x].state);
    NamesFrame(s, h);
  }

  lemma HeadGone(q: seq<int>, t: int)
    requires q != [] && q[0] == t && NoDup(q)
    ensures forall x :: x in q[1..] <==> x in q && x != t
    ensures NoDup(q[1..])
  {
    forall x | x in q && x != t
      ensures x in q[1..]
    {
      var i :| 0 <= i < |q| && q[i] == x;
      assert q[1..][i - 1] == x;
    }
  }

  /** The sleeping threads named by a queue, in queue order. */
  ghost function Sleepers(ts: Table, queue: seq<int>): seq<int> {
    if queue == [] then []
    else if IsAsleep(ts, queue[0]) then [queue[0]] + Sleepers(ts, queue[1..])
    else Sleepers(ts, queue[1..])
  }

  /** The threads thread_wakeup wakes: all the sleepers, or the one that went to sleep first. */
  ghost function Woken(ts: Table, queue: seq<int>, all: bool): seq<int> {
    var sleepers := Sleepers(ts, queue);
    if all || sleepers == [] then sleepers else [sleepers[0]]
  }

  lemma {:induction false} SleepersFrame(ts: Table, ts': Table, queue: seq<int>)
    requires forall x :: x in queue ==> IsAsleep(ts', x) == IsAsleep(ts, x)
    ensures Sleepers(ts', queue) == Sleepers(ts, queue)
  {
    if queue != [] {
      assert queue[0] in queue;
      SleepersFrame(ts, ts', queue[1..]);
    }
  }

  /** The number of entries thread_wakeup removes: all, or those up to and including the first sleeper. */
  ghost function Removed(ts: Table, queue: seq<int>, all: bool): (n: nat)
    ensures n <= |queue|
  {
    if queue == [] then 0
    else if IsAsleep(ts, queue[0]) && !all then 1
    else 1 + Removed(ts, queue[1..], all)
  }

  lemma {:induction false} RemovedFrame(ts: Table, ts': Table, queue: seq<int>, all: bool)
    requires forall x :: x in queue ==> IsAsleep(ts', x) == IsAsleep(ts, x)
    ensures Removed(ts', queue, all) == Removed(ts, queue, all)
  {
    if queue != [] {
      assert queue[0] in queue;
      RemovedFrame(ts, ts', queue[1..], all);
    }
  }

  /** The threads in ids are runnable in ts' where they were asleep in ts; nothing else has changed. */
  ghost predicate Raised(ts: Table, ts': Table, ids: seq<int>) {
    forall t :: ValidTid(t) ==> ts'[t] == if t in ids then ts[t].(state := Running) else ts[t]
  }

  /** The loop of thread_wakeup wakes in queue order: all the sleepers, and nobody else, become runnable and go
      to the end of the ready queue, as far as it has room, in the order in which they went to sleep. */
  lemma WakeAllOrder(ts: Table, queue: seq<int>, ready: seq<int>)
    requires AllValid(queue) && AllValid(ready) && NoDup(queue)
    requires forall x :: x in queue ==> !IsRunning(ts, x)
    ensures var w := WakeLoop(ts, queue, ready, true);
            && w.ok && w.count == |Sleepers(ts, queue)| && w.queue == []
            && w.ready == PushAll(ready, Sleepers(ts, queue))
            && Raised(ts, w.threads, Sleepers(ts, queue))
  {
    AllInOrder(ts, queue, ready);
    AllRaised(ts, queue, ready);
  }

  lemma {:induction false} AllInOrder(ts: Table, queue: seq<int>, ready: seq<int>)
    requires AllValid(queue) && AllValid(ready) && NoDup(queue)
    requires forall x :: x in queue ==> !IsRunning(ts, x)
    ensures var w := WakeLoop(ts, queue, ready, true);
            && w.ok && w.count == |Sleepers(ts, queue)| && w.queue == []
            && w.ready == PushAll(ready, Sleepers(ts, queue))
    decreases |queue|
  {
    if queue != [] {
      var t := queue[0];
      assert t in queue;
      HeadGone(queue, t);
      if ts[t].state == Destroyed {
        AllInOrder(ts, queue[1..], ready);
      } else {
        var ts' := ts[t := ts[t].(state := Running)];
        var tail := Sleepers(ts, queue[1..]);
        SleepersFrame(ts, ts', queue[1..]);
        AllInOrder(ts', queue[1..], Push(ready, t));
        PushFirst(ready, t, tail);
      }
    }
  }

  lemma {:induction false} AllRaised(ts: Table, queue: seq<int>, ready: seq<int>)
    requires AllValid(queue) && AllValid(ready) && NoDup(queue)
    requires forall x :: x in queue ==> !IsRunning(ts, x)
    ensures Raised(ts, WakeLoop(ts, queue, ready, true).threads, Sleepers(ts, queue))
    decreases |queue|
  {
    if queue != [] {
      var t := queue[0];
      assert t in queue;
      HeadGone(queue, t);
      if ts[t].state == Destroyed {
        AllRaised(ts, queue[1..], ready);
      } else {
        var ts' := ts[t := ts[t].(state := Running)];
        SleepersFrame(ts, ts', queue[1..]);
        AllRaised(ts', queue[1..], Push(ready, t));
      }
    }
  }

  /** With all = 0 it wakes the thread that went to sleep first and nobody else, and removes the entries up to
      that one. */
  lemma WakeOneOrder(ts: Table, queue: seq<int>, ready: seq<int>)
    requires AllValid(queue) && AllValid(ready)
    requires forall x :: x in queue ==> !IsRunning(ts, x)
    ensures var w := WakeLoop(ts, queue, ready, false);
            && w.ok && w.count == |Woken(ts, queue, false)| && w.queue == queue[Removed(ts, queue, false)..]
            && w.ready == PushAll(ready, Woken(ts, queue, false))
            && Raised(ts, w.threads, Woken(ts, queue, false))
  {
    OneInOrder(ts, queue, ready);
    OneRaised(ts, queue, ready);
  }

  lemma {:induction false} OneInOrder(ts: Table, queue: seq<int>, ready: seq<int>)
    requires AllValid(queue) && AllValid(ready)
    requires forall x :: x in queue ==> !IsRunning(ts, x)
    ensures var w := WakeLoop(ts, queue, ready, false);
            && w.ok && w.count == |Woken(ts, queue, false)| && w.queue == queue[Removed(ts, queue, false)..]
            && w.ready == PushAll(ready, Woken(ts, queue, false))
    decreases |queue|
  {
    if queue != [] {
      assert queue[0] in queue;
      if ts[queue[0]].state == Destroyed {
        OneInOrder(ts, queue[1..], ready);
      }
    }
  }

  lemma {:induction false} OneRaised(ts: Table, queue: seq<int>, ready: seq<int>)
    requires AllValid(queue) && AllValid(ready)
    requires forall x :: x in queue ==> !IsRunning(ts, x)
    ensures Raised(ts, WakeLoop(ts, queue, ready, false).threads, Woken(ts, queue, false))
    decreases |queue|
  {
    if queue != [] {
      assert queue[0] in queue;
      if ts[queue[0]].state == Destroyed {
        OneRaised(ts, queue[1..], ready);
      }
    }
  }

  /** thread_wakeup with a place in the ready queue for everybody it wakes. */
  lemma {:induction false} PlacedWakeKeeps(s: Sys, q: QId, all: bool)
    requires Core(s, {s.current}) && IsRunning(s.threads, s.current) && q in s.queues
    requires Placed(s.ready, Woken(s.threads, s.queues[q], all))
    ensures Core(Wakeup(s, q, all).0, {s.current})
    ensures IsRunning(Wakeup(s, q, all).0.threads, s.current)
    ensures Wakeup(s, q, all).1.Ret?
    decreases if q in s.queues then |s.queues[q]| else 0
  {
    var queue := s.queues[q];
    if queue == [] {
      assert s.queues[q := []] == s.queues;
    } else {
      var h := WakeHead(s, q);
      WakeHeadFacts(s, q);
      WakeUnfold(s, q, all);
      HeadPlaced(s, q, all);
      WakeHeadKeeps(s, q);
      if !IsAsleep(s.threads, queue[0]) || all {
        PlacedWakeKeeps(h, q, all);
      }
    }
  }

  /** If everybody to be woken has a place, so has the first, and after it everybody else. */
  lemma HeadPlaced(s: Sys, q: QId, all: bool)
    requires WellFormed(s) && QueuesOk(s.queues, s.threads) && q in s.queues && s.queues[q] != []
    requires Placed(s.ready, Woken(s.threads, s.queues[q], all))
    ensures IsAsleep(s.threads, s.queues[q][0]) ==> Room(s, s.queues[q][0])
    ensures var h := WakeHead(s, q);
            !IsAsleep(s.threads, s.queues[q][0]) || all ==> Placed(h.ready, Woken(h.threads, h.queues[q], all))
  {
    var queue, h := s.queues[q], WakeHead(s, q);
    WakeHeadFacts(s, q);
    HeadGone(queue, queue[0]);
    SleepersFrame(s.threads, h.threads, queue[1..]);
    if IsAsleep(s.threads, queue[0]) {
      PushFirst(s.ready, queue[0], if all then Sleepers(s.threads, queue[1..]) else []);
    }
  }

  /** thread_wakeup never fails its assertion. It keeps the invariant and the caller running exactly when each
      thread it wakes finds room in the ready queue or is there already. */
  lemma WakeKeeps(s: Sys, q: QId, all: bool)
    requires Core(s, {s.current}) && IsRunning(s.threads, s.current) && q in s.queues
    ensures Wakeup(s, q, all).1.Ret? && IsRunning(Wakeup(s, q, all).0.threads, s.current)
    ensures Core(Wakeup(s, q, all).0, {s.current}) <==> Placed(s.ready, Woken(s.threads, s.queues[q], all))
  {
    var ids, s' := Woken(s.threads, s.queues[q], all), Wakeup(s, q, all).0;
    assert forall x :: x in s.queues[q] ==> InQueue(s.queues, q, x);
    WakeLoopEffect(s.threads, s.queues[q], s.ready, all);
    if Placed(s.ready, ids) {
      PlacedWakeKeeps(s, q, all);
    } else {
      var t := WakeLoses(s, q, all);
      LostBreaks(s', t);
    }
  }

  /** A woken thread that finds no room is lost. */
  lemma WakeLoses(s: Sys, q: QId, all: bool) returns (t: int)
    requires Core(s, {s.current}) && IsRunning(s.threads, s.current) && q in s.queues
    requires !Placed(s.ready, Woken(s.threads, s.queues[q], all))
    ensures Lost(Wakeup(s, q, all).0, t) && t in Woken(s.threads, s.queues[q], all)
  {
    var ids := Woken(s.threads, s.queues[q], all);
    assert forall x :: x in s.queues[q] ==> InQueue(s.queues, q, x);
    WakeLoopEffect(s.threads, s.queues[q], s.ready, all);
    t :| t in ids && t !in PushAll(s.ready, ids);
    AmongSleepers(s.threads, s.queues[q], t);
  }

  lemma {:induction false} AmongSleepers(ts: Table, queue: seq<int>, t: int)
    ensures t in Sleepers(ts, queue) <==> t in queue && IsAsleep(ts, t)
  {
    if queue != [] {
      AmongSleepers(ts, queue[1..], t);
    }
  }

  /** thread_yield to a given thread: in range and not destroyed, the code goes along with it. The invariant
      survives exactly when that thread is not asleep and the push of the caller is not lost. */
  lemma YieldToKeeps(s: Sys, t: int)
    requires Inv(s) && Alive(s.threads, t) && t != s.current
    ensures Yield(s, t, User) == (SwitchTo(s, t, User), Switch(t))
    ensures Inv(SwitchTo(s, t, User)) <==> !IsAsleep(s.threads, t) && Room(s, s.current)
  {
    var s' := SwitchTo(s, t, User);
    if IsAsleep(s.threads, t) {
      ContsDoNotMatter(s.threads, s'.threads);
    } else if Room(s, s.current) {
      assert ThreadOk(s.queues, s.threads, s.ready, t, s.threads[t].cont);
      SwitchKeeps(s, t, User);
    } else {
      ContsDoNotMatter(s.threads, s'.threads);
      assert !ThreadOk(s'.queues, s'.threads, s'.ready, s.current, s'.threads[s.current].cont);
    }
  }

  lemma YieldKeeps(s: Sys, want: int)
    requires Inv(s)
    requires Alive(s.threads, want) && want != s.current ==> !IsAsleep(s.threads, want) && Room(s, s.current)
    ensures Inv(Yield(s, want, User).0)
    ensures want == ANY ==> (Yield(s, want, User).1 == Ret(NONE) <==> Alone(s))
  {
    if want == ANY {
      YieldAnyKeeps(s, User);
      PopAnyComplete(s);
    } else if Alive(s.threads, want) && want != s.current {
      YieldToKeeps(s, want);
    }
  }

  lemma SetContKeeps(s: Sys, k: Cont)
    requires Inv(s) && NamesExist(s, k) && !k.InWait?
    ensures Inv(SetCont(s, s.current, k))
  {
    var s' := SetCont(s, s.current, k);
    ContsDoNotMatter(s.threads, s'.threads);
    SwitchNamesOnly(s, k);
    forall t | ValidTid(t) && t != s.current
      ensures ThreadOk(s'.queues, s'.threads, s'.ready, t, s'.threads[t].cont)
    {
      assert ThreadOk(s.queues, s.threads, s.ready, t, s.threads[t].cont);
      assert s'.threads[t].cont == s.threads[t].cont;
    }
  }

  lemma SwitchNamesOnly(s: Sys, k: Cont)
    requires WellFormed(s) && NamesOk(s) && NamesExist(s, k) && !k.InWait?
    ensures NamesOk(SetCont(s, s.current, k))
  {
    var s' := SetCont(s, s.current, k);
    forall t | Alive(s'.threads, t)
      ensures NamesExist(s', s'.threads[t].cont)
    {
      assert Alive(s.threads, t);
      assert t == s.current || s'.threads[t].cont == s.threads[t].cont;
    }
  }

  lemma OwnerKeeps(s: Sys, l: nat, t: int)
    requires Inv(s) && l in s.owner
    requires t != -1 ==> Alive(s.threads, t)
    requires t == -1 ==> s.queues[LockQ(l)] == []
    ensures Inv(s.(owner := s.owner[l := t]))
  {
    var s' := s.(owner := s.owner[l := t]);
    NamesFrame(s, s');
    assert s'.owner.Keys == s.owner.Keys;
  }

  /** lock_acquire: the caller gets a free lock; for a held one it sleeps in the lock's queue or, when nobody
      else can run, spins. */
  lemma AcquireKeeps(s: Sys, l: nat)
    requires Inv(s) && l in s.owner
    ensures var (s', out) := AcquireLoop(s, l);
            && Inv(s')
            && (s.owner[l] == -1 ==> out == Ret(0) && s'.owner == s.owner[l := s.current] && s'.current == s.current
                                     && s'.queues == s.queues && s'.threads[s'.current].cont == User)
            && (s.owner[l] != -1 && !Alone(s) ==>
                  out.Switch? && s'.owner == s.owner
                  && s'.queues == s.queues[LockQ(l) := s.queues[LockQ(l)] + [s.current]]
                  && IsAsleep(s'.threads, s.current) && s'.threads[s.current].cont == InAcquire(l))
            && (s.owner[l] != -1 && Alone(s) ==>
                  out == Spin && s'.owner == s.owner && s'.queues == s.queues && s'.current == s.current)
  {
    if s.owner[l] == -1 {
      SetContKeeps(s, User);
      OwnerKeeps(SetCont(s, s.current, User), l, s.current);
    } else {
      SleepAtHome(s, LockQ(l), InAcquire(l));
      if Alone(s) {
        SetContKeeps(s.(ready := []), InAcquire(l));
      }
    }
  }

  /** Acquiring a lock whose holder can run never spins. */
  lemma NoSpin(s: Sys, l: nat)
    requires Inv(s) && l in s.owner && s.owner[l] != s.current
             && (s.owner[l] != -1 ==> IsRunning(s.threads, s.owner[l]))
    ensures AcquireLoop(s, l).1 != Spin
  {
    AcquireKeeps(s, l);
  }

  lemma {:induction false} RemovedAll(ts: Table, queue: seq<int>)
    ensures Removed(ts, queue, true) == |queue|
  {
    if queue != [] {
      RemovedAll(ts, queue[1..]);
    }
  }

  /** What thread_wakeup does to the queues, the ready queue and its caller. The invariant survives exactly when
      each thread woken finds room in the ready queue or is there already. */
  lemma WakeEffect(s: Sys, q: QId, all: bool)
    requires Inv(s) && q in s.queues
    ensures var (s', out) := Wakeup(s, q, all);
            && out == Ret(|Woken(s.threads, s.queues[q], all)|)
            && s'.ready == PushAll(s.ready, Woken(s.threads, s.queues[q], all))
            && (Inv(s') <==> Placed(s.ready, Woken(s.threads, s.queues[q], all)))
            && s'.queues == s.queues[q := s.queues[q][Removed(s.threads, s.queues[q], all)..]]
            && Raised(s.threads, s'.threads, Woken(s.threads, s.queues[q], all))
            && s'.owner == s.owner && s'.ledger == s.ledger && s'.blocks == s.blocks && s'.current == s.current
            && (all ==> s'.queues[q] == [])
  {
    WakeKeeps(s, q, all);
    WakeLoopEffect(s.threads, s.queues[q], s.ready, all) by {
      assert forall x :: x in s.queues[q] ==> InQueue(s.queues, q, x);
    }
  }

  lemma WakeLoopEffect(ts: Table, queue: seq<int>, ready: seq<int>, all: bool)
    requires AllValid(queue) && AllValid(ready) && NoDup(queue)
    requires forall x :: x in queue ==> !IsRunning(ts, x)
    ensures var w := WakeLoop(ts, queue, ready, all);
            && w.ok && w.count == |Woken(ts, queue, all)| && w.ready == PushAll(ready, Woken(ts, queue, all))
            && w.queue == queue[Removed(ts, queue, all)..] && (all ==> w.queue == [])
            && Raised(ts, w.threads, Woken(ts, queue, all))
  {
    if all {
      RemovedAll(ts, queue);
      WakeAllOrder(ts, queue, ready);
    } else {
      WakeOneOrder(ts, queue, ready);
    }
  }

  /** lock_release by the holder: the lock is free and everybody in its queue is runnable. The invariant survives
      exactly when each of them finds room in the ready queue or is there already. */
  lemma ReleaseKeeps(s: Sys, l: nat)
    requires Inv(s) && l in s.owner && s.owner[l] == s.current
    ensures var (s', out) := Release(s, l);
            var ids := Sleepers(s.threads, s.queues[LockQ(l)]);
            && (Inv(s') <==> Placed(s.ready, ids)) && out.Ret? && s'.current == s.current
            && s'.owner == s.owner[l := -1] && s'.queues == s.queues[LockQ(l) := []]
            && s'.ready == PushAll(s.ready, ids) && Raised(s.threads, s'.threads, ids) && s'.ledger == s.ledger
  {
    ReleaseIsWakeup(s, l);
    WakeEffect(s, LockQ(l), true);
    var s1 := Wakeup(s, LockQ(l), true).0;
    if Placed(s.ready, Sleepers(s.threads, s.queues[LockQ(l)])) {
      OwnerKeeps(s1, l, -1);
    } else {
      var t := WakeLoses(s, LockQ(l), true);
      LostBreaks(s1.(owner := s1.owner[l := -1]), t);
    }
  }

  lemma ReleaseIsWakeup(s: Sys, l: nat)
    requires WellFormed(s) && l in s.owner && s.owner[l] == s.current
    ensures var (s1, out) := Wakeup(s, LockQ(l), true);
            Release(s, l) == (s1.(owner := s.owner[l := -1]), out) && s1.owner == s.owner
  {
  }

  lemma YieldLoses(s: Sys, k: Cont, t: int)
    requires WellFormed(s) && Lost(s, t) && (k.InWait? ==> ValidTid(k.target))
    ensures Lost(Yield(s, ANY, k).0, t)
  {
    var j := PopAnyFacts(s.ready, s.threads, s.current);
  }

  lemma SleepLoses(s: Sys, q: QId, k: Cont, t: int)
    requires WellFormed(s) && q in s.queues && Lost(s, t) && !k.InWait?
    ensures Lost(SleepOn(s, q, k).0, t)
  {
    YieldLoses(Enqueued(s, q), k, t);
  }

  lemma AcquireLoses(s: Sys, l: nat, t: int)
    requires WellFormed(s) && l in s.owner && Lost(s, t)
    ensures Lost(AcquireLoop(s, l).0, t)
  {
    if s.owner[l] != -1 {
      SleepLoses(s, LockQ(l), InAcquire(l), t);
    }
  }

  lemma CvSleepLoses(s: Sys, c: nat, l: nat, t: int)
    requires WellFormed(s) && l in s.owner && CvQ(c) in s.queues && Lost(s, t)
    ensures Lost(CvSleep(s, c, l).0, t)
  {
    SleepLoses(s, CvQ(c), InCvWait(c, l), t);
    var (s2, out) := SleepOn(s, CvQ(c), InCvWait(c, l));
    if out == Ret(NONE) {
      AcquireLoses(s2, l, t);
    }
  }

  /** The assertion of thread_sleep holds as long as the push on the wait queue finds room. */
  lemma SleepsSafely(s: Sys, q: QId, k: Cont)
    requires WellFormed(s) && q in s.queues && !k.InWait? && |s.queues[q]| < CAPACITY
    ensures SleepOn(s, q, k).1 != Crash && SleepOn(s, q, k).0.owner == s.owner
  {
    var s1 := Enqueued(s, q);
    assert s1.queues[q] == s.queues[q] + [s.current];
    assert Yield(s1, ANY, k).0.queues == s1.queues;
  }

  lemma CvSleepsSafely(s: Sys, c: nat, l: nat)
    requires WellFormed(s) && l in s.owner && s.owner[l] == -1
    requires CvQ(c) in s.queues && |s.queues[CvQ(c)]| < CAPACITY
    ensures CvSleep(s, c, l).1 != Crash
  {
    SleepsSafely(s, CvQ(c), InCvWait(c, l));
  }

  /** A thread that the release in cv_wait loses stays lost. */
  lemma CvWaitLoses(s: Sys, c: nat, l: nat)
    requires Inv(s) && l in s.owner && CvQ(c) in s.queues && s.owner[l] == s.current
    requires !Placed(s.ready, Sleepers(s.threads, s.queues[LockQ(l)]))
    ensures !Inv(CvWait(s, c, l).0) && CvWait(s, c, l).1 != Crash
  {
    var t, s1 := ReleaseLoses(s, l);
    NoDupSize(s.queues[CvQ(c)]);
    CvSleepLoses(s1, c, l, t);
    CvSleepsSafely(s1, c, l);
    assert CvWait(s, c, l) == CvSleep(s1, c, l);
    LostBreaks(CvWait(s, c, l).0, t);
  }

  lemma ReleaseLoses(s: Sys, l: nat) returns (t: int, s1: Sys)
    requires Inv(s) && l in s.owner && s.owner[l] == s.current
    requires !Placed(s.ready, Sleepers(s.threads, s.queues[LockQ(l)]))
    ensures s1 == Release(s, l).0 && Release(s, l).1 != Crash && Lost(s1, t)
    ensures s1.owner == s.owner[l := -1] && s1.queues == s.queues[LockQ(l) := []]
  {
    ReleaseKeeps(s, l);
    ReleaseIsWakeup(s, l);
    t := WakeLoses(s, LockQ(l), true);
    s1 := Release(s, l).0;
  }

  /** cv_wait by the holder of the lock: the lock is released, its waiters are runnable, and the caller is the
      last in the cv's queue, all in one segment. It returns at once, still holding the lock, exactly when nobody
      else can run and nobody waits for the lock. The invariant survives exactly when each waiter finds room in
      the ready queue or is there already. */
  lemma CvWaitKeeps(s: Sys, c: nat, l: nat)
    requires Inv(s) && l in s.owner && CvQ(c) in s.queues && s.owner[l] == s.current
    ensures CvWait(s, c, l).1 != Crash
    ensures Inv(CvWait(s, c, l).0) <==> Placed(s.ready, Sleepers(s.threads, s.queues[LockQ(l)]))
    ensures Placed(s.ready, Sleepers(s.threads, s.queues[LockQ(l)])) ==> CvWaited(s, c, l)
  {
    if Placed(s.ready, Sleepers(s.threads, s.queues[LockQ(l)])) {
      PlacedCvWait(s, c, l);
    } else {
      CvWaitLoses(s, c, l);
    }
  }

  /** The two ways in which cv_wait ends. */
  ghost predicate CvWaited(s: Sys, c: nat, l: nat)
    requires WellFormed(s) && l in s.owner && CvQ(c) in s.queues
  {
    var (s', out) := CvWait(s, c, l);
    && (out.Switch? <==> !(Alone(s) && Sleepers(s.threads, s.queues[LockQ(l)]) == []))
    && (out.Switch? ==>
          && s'.owner == s.owner[l := -1] && s'.current != s.current
          && s'.queues == s.queues[LockQ(l) := []][CvQ(c) := s.queues[CvQ(c)] + [s.current]]
          && IsAsleep(s'.threads, s.current) && s'.threads[s.current].cont == InCvWait(c, l))
    && (!out.Switch? ==>
          out == Ret(0) && s'.current == s.current && s'.owner == s.owner && s'.queues == s.queues[LockQ(l) := []])
  }

  lemma PlacedCvWait(s: Sys, c: nat, l: nat)
    requires Inv(s) && l in s.owner && CvQ(c) in s.queues && s.owner[l] == s.current
    requires Placed(s.ready, Sleepers(s.threads, s.queues[LockQ(l)]))
    ensures Inv(CvWait(s, c, l).0) && CvWaited(s, c, l)
  {
    ReleaseKeeps(s, l);
    var s1 := Release(s, l).0;
    CvSleepKeeps(s1, c, l);
    OwnerBack(s.owner, l);
    AloneAfter(s.threads, s1.threads, s.queues[LockQ(l)], s.current);
  }

  lemma AloneAfter(ts: Table, ts': Table, queue: seq<int>, c: int)
    requires Raised(ts, ts', Sleepers(ts, queue)) && IsRunning(ts, c)
    ensures (forall t :: IsRunning(ts', t) ==> t == c)
            <==> (forall t :: IsRunning(ts, t) ==> t == c) && Sleepers(ts, queue) == []
  {
    var ids := Sleepers(ts, queue);
    if ids != [] {
      assert ids[0] in ids;
      AmongSleepers(ts, queue, ids[0]);
      assert IsRunning(ts', ids[0]) && ids[0] != c;
    } else {
      assert forall t :: IsRunning(ts', t) == IsRunning(ts, t);
    }
  }

  lemma OwnerBack(owner: map<nat, int>, l: nat)
    requires l in owner
    ensures owner[l := -1][l := owner[l]] == owner
  {
  }

  lemma CvSleepKeeps(s: Sys, c: nat, l: nat)
    requires Inv(s) && l in s.owner && CvQ(c) in s.queues && s.owner[l] == -1
    ensures var (s', out) := CvSleep(s, c, l);
            && Inv(s')
            && (!Alone(s) ==>
                  && out.Switch? && s'.owner == s.owner && s'.current != s.current
                  && s'.queues == s.queues[CvQ(c) := s.queues[CvQ(c)] + [s.current]]
                  && IsAsleep(s'.threads, s.current) && s'.threads[s.current].cont == InCvWait(c, l))
            && (Alone(s) ==>
                  out == Ret(0) && s'.current == s.current && s'.owner == s.owner[l := s.current]
                  && s'.queues == s.queues)
  {
    SleepAtHome(s, CvQ(c), InCvWait(c, l));
    if Alone(s) {
      AcquireKeeps(s.(ready := []), l);
    }
  }

  /** cv_signal and cv_broadcast by the holder of the lock. The invariant survives exactly when each thread woken
      finds room in the ready queue or is there already. */
  lemma CvWakeKeeps(s: Sys, c: nat, l: nat, all: bool)
    requires Inv(s) && l in s.owner && CvQ(c) in s.queues && s.owner[l] == s.current
    ensures var (s', out) := CvWake(s, c, l, all);
            var ids := Woken(s.threads, s.queues[CvQ(c)], all);
            && (Inv(s') <==> Placed(s.ready, ids)) && out == Ret(0) && s'.owner == s.owner && s'.current == s.current
            && s'.ready == PushAll(s.ready, ids) && Raised(s.threads, s'.threads, ids)
            && s'.queues == s.queues[CvQ(c) := s.queues[CvQ(c)][Removed(s.threads, s.queues[CvQ(c)], all)..]]
            && (all ==> s'.queues[CvQ(c)] == [])
  {
    WakeEffect(s, CvQ(c), all);
  }

  /** wait_queue_create, lock_create, cv_create */
  lemma NewQueueKeeps(s: Sys, q: QId, box: nat, block: nat)
    requires Inv(s) && q !in s.queues
    ensures Inv(NewQueue(s, q, box, block).0)
  {
    var (s', out) := NewQueue(s, q, box, block);
    if out == ProcessEnds {
      LedgerKeeps(s, s'.ledger);
    } else {
      QueueAdded(s, q, s');
    }
  }

  lemma LedgerKeeps(s: Sys, led: L.Ledger)
    requires Inv(s)
    ensures Inv(s.(ledger := led))
  {
    NamesFrame(s, s.(ledger := led));
  }

  lemma QueueAdded(s: Sys, q: QId, s': Sys)
    requires Inv(s) && q !in s.queues && WellFormed(s')
    requires s'.threads == s.threads && s'.ready == s.ready && s'.current == s.current
    requires s'.queues == s.queues[q := []] && s'.owner == if q.LockQ? then s.owner[q.id := -1] else s.owner
    ensures Inv(s')
  {
    NamesFrame(s, s');
    assert forall r, t :: InQueue(s'.queues, r, t) == InQueue(s.queues, r, t);
    assert LocksOk(s'.queues, s'.threads, s'.owner) by {
      forall l | l in s'.owner && s'.owner[l] == -1
        ensures LockQ(l) in s'.queues && s'.queues[LockQ(l)] == []
      {
        assert q == LockQ(l) || (l in s.owner && s.owner[l] == -1);
      }
    }
    forall t | ValidTid(t) && t != s'.current
      ensures ThreadOk(s'.queues, s'.threads, s'.ready, t, s'.threads[t].cont)
    {
      assert ThreadOk(s.queues, s.threads, s.ready, t, s.threads[t].cont);
    }
  }

  /** Finishing a suspended call. */
  lemma ResumeKeeps(s: Sys)
    requires Inv(s) && NamesExist(s, Me(s).cont)
    ensures Inv(Resume(s).0) && Resume(s).1 != Crash
    ensures Me(s).cont.InWait? ==>
              Resume(s).1 == Collected(Me(s).cont.target, s.threads[Me(s).cont.target].exitCode)
              && s.threads[Me(s).cont.target].state == Destroyed
  {
    match Me(s).cont
    case User =>
    case InSleep(_) => SetContKeeps(s, User);
    case InWait(_) => SetContKeeps(s, User);
    case InAcquire(l) => AcquireKeeps(s, l);
    case InCvWait(_, l) => AcquireKeeps(s, l);
  }
}
