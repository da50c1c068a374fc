/** Threads coming and going: thread_create, handle_death, thread_kill, thread_exit. */
module SchedDeath {
  import opened RingSpec
  import opened Sched
  import opened SchedInv
  import L = LedgerSpec

  /** The state in which thread t has died with exit code c. */
  ghost function Dead(s: Sys, t: int, c: int): (r: Sys)
    requires WellFormed(s) && ValidTid(t)
    ensures WellFormed(r)
  {
    s.(threads := s.threads[t := s.threads[t].(state := Destroyed, exitCode := c)])
  }

  /** Somebody sleeps in thread_wait for t. */
  ghost predicate Awaited(s: Sys, t: int)
    requires WellFormed(s) && ValidTid(t)
  {
    s.threads[t].waiter != -1 && s.threads[t].waiter != t && IsAsleep(s.threads, s.threads[t].waiter)
  }

  ghost predicate HoldsNoLock(s: Sys, t: int) {
    forall l :: l in s.owner ==> s.owner[l] != t
  }

  lemma DeadFacts(s: Sys, t: int, c: int)
    requires WellFormed(s) && ValidTid(t)
    ensures var ts, ts' := s.threads, Dead(s, t, c).threads;
            && (forall x :: Alive(ts', x) == (Alive(ts, x) && x != t))
            && (forall x :: IsRunning(ts', x) == (IsRunning(ts, x) && x != t))
            && (forall x :: IsAsleep(ts', x) == (IsAsleep(ts, x) && x != t))
            && (forall x, u :: WaitsFor(ts', x, u) == (WaitsFor(ts, x, u) && u != t))
  {
  }

  lemma DeadTables(s: Sys, t: int, c: int)
    requires Core(s, {s.current}) && Alive(s.threads, t) && HoldsNoLock(s, t)
    ensures var d := Dead(s, t, c);
            && QueuesOk(d.queues, d.threads) && WaitersOk(d.queues, d.threads)
            && LocksOk(d.queues, d.threads, d.owner) && CodesOk(d.threads) && NamesOk(d)
  {
    DeadFacts(s, t, c);
    NamesFrame(s, Dead(s, t, c));
  }

  /** A thread that nobody waits for dies. */
  lemma DieAlone(s: Sys, t: int, c: int)
    requires Core(s, {s.current}) && Alive(s.threads, t) && HoldsNoLock(s, t)
    requires forall x :: x != t && IsAsleep(s.threads, x) ==> !WaitsFor(s.threads, x, t)
    ensures Core(Dead(s, t, c), {s.current})
  {
    DeadFacts(s, t, c);
    DeadTables(s, t, c);
    var d := Dead(s, t, c);
    forall x | ValidTid(x) && x != s.current
      ensures ThreadOk(d.queues, d.threads, d.ready, x, d.threads[x].cont)
    {
      assert ThreadOk(s.queues, s.threads, s.ready, x, s.threads[x].cont);
      assert d.threads[x].cont == s.threads[x].cont;
    }
  }

  /** The state in which, besides, its waiter w is runnable again. */
  ghost function Handed(s: Sys, t: int, c: int, w: int): (r: Sys)
    requires WellFormed(s) && ValidTid(t) && ValidTid(w)
    ensures WellFormed(r)
  {
    SetState(Dead(s, t, c), w, Running)
  }

  lemma HandedFacts(s: Sys, t: int, c: int, w: int)
    requires WellFormed(s) && ValidTid(t) && IsAsleep(s.threads, w) && w != t
    ensures var ts, ts' := s.threads, Handed(s, t, c, w).threads;
            && (forall x :: Alive(ts', x) == (Alive(ts, x) && x != t))
            && (forall x :: IsRunning(ts', x) == ((IsRunning(ts, x) && x != t) || x == w))
            && (forall x :: IsAsleep(ts', x) == (IsAsleep(ts, x) && x != t && x != w))
            && (forall x, u :: WaitsFor(ts', x, u) == (WaitsFor(ts, x, u) && u != t))
  {
  }

  lemma HandedTables(s: Sys, t: int, c: int, w: int)
    requires Core(s, {s.current}) && WaitsFor(s.threads, w, t) && HoldsNoLock(s, t)
    requires IsAsleep(s.threads, w) && w != t
    ensures var d := Handed(s, t, c, w);
            && QueuesOk(d.queues, d.threads) && WaitersOk(d.queues, d.threads)
            && LocksOk(d.queues, d.threads, d.owner) && CodesOk(d.threads) && NamesOk(d)
  {
    HandedFacts(s, t, c, w);
    NamesFrame(s, Handed(s, t, c, w));
  }

  /** A thread dies and its waiter, which was asleep waiting for just this, becomes runnable. */
  lemma DieHandsOver(s: Sys, t: int, c: int, w: int)
    requires Core(s, {s.current}) && IsRunning(s.threads, s.current)
    requires WaitsFor(s.threads, w, t) && HoldsNoLock(s, t) && IsAsleep(s.threads, w) && w != t
    ensures Core(Handed(s, t, c, w), {s.current, w})
    ensures s.threads[w].cont == InWait(t) && w != s.current
  {
    HandedFacts(s, t, c, w);
    HandedTables(s, t, c, w);
    assert ThreadOk(s.queues, s.threads, s.ready, w, s.threads[w].cont);
    var d := Handed(s, t, c, w);
    forall x | ValidTid(x) && x !in {s.current, w}
      ensures ThreadOk(d.queues, d.threads, d.ready, x, d.threads[x].cont)
    {
      assert ThreadOk(s.queues, s.threads, s.ready, x, s.threads[x].cont);
      assert d.threads[x].cont == s.threads[x].cont;
    }
  }

  /** s with the dying thread's exit code stored and the ledger updated, as handle_death finds it. */
  ghost function Dying(s: Sys, t: int, c: int, led: L.Ledger): (r: Sys)
    requires WellFormed(s) && ValidTid(t)
    ensures WellFormed(r)
  {
    s.(threads := s.threads[t := s.threads[t].(exitCode := c)], ledger := led)
  }

  /** handle_death: its assertion never fails; it ends in a switch exactly when a thread sleeps in
      thread_wait for t, and then that thread runs next, with nobody in between. The invariant survives exactly
      when t holds no lock and, if the caller outlives the switch, its push is not lost. */
  lemma HandleDeathKeeps(s: Sys, t: int, c: int, led: L.Ledger)
    requires Inv(s) && Alive(s.threads, t)
    ensures var (s', out) := HandleDeath(Dying(s, t, c, led), t);
            var w := s.threads[t].waiter;
            if Awaited(s, t)
            then out == Switch(w) && s'.current == w
                 && (Inv(s') <==> HoldsNoLock(s, t) && (t == s.current || Room(s, s.current)))
                 && s'.threads[t].state == Destroyed && s'.threads[t].exitCode == c
                 && s' == SwitchTo(Handed(s, t, c, w).(ledger := led), w, User) && s.threads[w].cont == InWait(t)
            else out == Ret(0) && s' == Dead(s, t, c).(ledger := led)
                 && (Core(s', {s.current}) <==> HoldsNoLock(s, t))
  {
    DeathForm(s, t, c, led);
    var w := s.threads[t].waiter;
    if Awaited(s, t) {
      HandOver(s, t, c, led, w);
    } else {
      Unawaited(s, t, c, led);
    }
  }

  lemma Unawaited(s: Sys, t: int, c: int, led: L.Ledger)
    requires Inv(s) && Alive(s.threads, t) && !Awaited(s, t)
    ensures Core(Dead(s, t, c).(ledger := led), {s.current}) <==> HoldsNoLock(s, t)
  {
    if HoldsNoLock(s, t) {
      DieAlone(s, t, c);
      LedgerFrame(Dead(s, t, c), led, {s.current});
    } else {
      OrphanedLock(s, t, Dead(s, t, c).(ledger := led));
    }
  }

  /** What handle_death does to the state. */
  lemma DeathForm(s: Sys, t: int, c: int, led: L.Ledger)
    requires Inv(s) && Alive(s.threads, t)
    ensures var (s', out) := HandleDeath(Dying(s, t, c, led), t);
            var w := s.threads[t].waiter;
            && (w != -1 ==> WaitsFor(s.threads, w, t))
            && (Awaited(s, t) ==>
                  out == Switch(w) && s' == SwitchTo(Handed(s, t, c, w).(ledger := led), w, User) && w != s.current)
            && (!Awaited(s, t) ==> out == Ret(0) && s' == Dead(s, t, c).(ledger := led))
  {
    var w := s.threads[t].waiter;
    var s1 := SetState(Dying(s, t, c, led), t, Destroyed);
    assert s1 == Dead(s, t, c).(ledger := led);
    if w != -1 {
      assert WaitsFor(s.threads, w, t);
    }
    if Awaited(s, t) {
      assert SetState(s1, w, Running) == Handed(s, t, c, w).(ledger := led);
    }
  }

  lemma HandOver(s: Sys, t: int, c: int, led: L.Ledger, w: int)
    requires Inv(s) && WaitsFor(s.threads, w, t) && IsAsleep(s.threads, w) && w != t
    ensures var s' := SwitchTo(Handed(s, t, c, w).(ledger := led), w, User);
            && (Inv(s') <==> HoldsNoLock(s, t) && (t == s.current || Room(s, s.current)))
            && s'.threads[t].state == Destroyed && s'.threads[t].exitCode == c && s.threads[w].cont == InWait(t)
  {
    assert ThreadOk(s.queues, s.threads, s.ready, w, s.threads[w].cont);
    if !HoldsNoLock(s, t) {
      HandedFacts(s, t, c, w);
      OrphanedLock(s, t, SwitchTo(Handed(s, t, c, w).(ledger := led), w, User));
    } else if t == s.current || Room(s, s.current) {
      HandOverKeeps(s, t, c, led, w);
    } else {
      CallerLost(s, t, c, led, w);
    }
  }

  lemma CallerLost(s: Sys, t: int, c: int, led: L.Ledger, w: int)
    requires Inv(s) && ValidTid(t) && t != s.current && IsAsleep(s.threads, w) && w != t && !Room(s, s.current)
    ensures !Inv(SwitchTo(Handed(s, t, c, w).(ledger := led), w, User))
  {
    LostBreaks(SwitchTo(Handed(s, t, c, w).(ledger := led), w, User), s.current);
  }

  lemma HandOverKeeps(s: Sys, t: int, c: int, led: L.Ledger, w: int)
    requires Inv(s) && WaitsFor(s.threads, w, t) && HoldsNoLock(s, t) && IsAsleep(s.threads, w) && w != t
    requires t == s.current || Room(s, s.current)
    ensures Inv(SwitchTo(Handed(s, t, c, w).(ledger := led), w, User))
  {
    DieHandsOver(s, t, c, w);
    LedgerFrame(Handed(s, t, c, w), led, {s.current, w});
    HandedFacts(s, t, c, w);
    SwitchKeeps(Handed(s, t, c, w).(ledger := led), w, User);
  }

  /** A lock whose recorded holder is dead: nobody can ever release it. */
  lemma OrphanedLock(s: Sys, t: int, s': Sys)
    requires WellFormed(s) && ValidTid(t) && !HoldsNoLock(s, t)
    requires WellFormed(s') && !Alive(s'.threads, t) && s'.owner == s.owner
    ensures forall ex :: !Core(s', ex)
    ensures !Inv(s')
  {
    var l :| l in s.owner && s.owner[l] == t;
    assert !LocksOk(s'.queues, s'.threads, s'.owner);
  }

  lemma DeadSame(s: Sys, t: int, c: int, led: L.Ledger)
    requires WellFormed(s) && ValidTid(t)
    ensures var d := Dead(s, t, c).(ledger := led);
            SameBut(s.threads, d.threads, t) && ContsBut(s.threads, d.threads, s.current)
            && d.queues == s.queues && d.blocks == s.blocks
  {
  }

  lemma HandedSame(s: Sys, t: int, c: int, led: L.Ledger, w: int)
    requires WellFormed(s) && ValidTid(t) && IsAsleep(s.threads, w) && w != t
    ensures var d := SwitchTo(Handed(s, t, c, w).(ledger := led), w, User);
            SameBut(s.threads, d.threads, t) && ContsBut(s.threads, d.threads, s.current)
            && d.queues == s.queues && d.blocks == s.blocks
  {
  }

  /** What is left the same when t dies. */
  lemma HandleDeathSame(s: Sys, t: int, c: int, led: L.Ledger)
    requires Inv(s) && Alive(s.threads, t)
    ensures var s' := HandleDeath(Dying(s, t, c, led), t).0;
            SameBut(s.threads, s'.threads, t) && ContsBut(s.threads, s'.threads, s.current)
            && s'.queues == s.queues && s'.blocks == s.blocks
  {
    DeathForm(s, t, c, led);
    if Awaited(s, t) {
      HandedSame(s, t, c, led, s.threads[t].waiter);
    } else {
      DeadSame(s, t, c, led);
    }
  }

  lemma LedgerFrame(s: Sys, led: L.Ledger, ex: set<int>)
    requires Core(s, ex)
    ensures Core(s.(ledger := led), ex)
  {
    NamesFrame(s, s.(ledger := led));
  }

  /** The stack of thread t can be given back to malloc369. */
  ghost predicate StackFreeable(s: Sys, t: int)
    requires WellFormed(s) && ValidTid(t)
  {
    t != 0 ==> L.Free(s.ledger, s.threads[t].stack).1 != L.AssertionFailed
  }

  ghost function AfterFree(s: Sys, t: int): L.Ledger
    requires WellFormed(s) && ValidTid(t)
  {
    if t != 0 then L.Free(s.ledger, s.threads[t].stack).0 else s.ledger
  }

  /** thread_kill: the victim is gone, its stack is freed, and the killer goes on unless somebody was waiting
      for the victim, who then runs at once. The invariant survives exactly when the victim holds no lock and the
      push of a killer who is switched away from is not lost. */
  lemma KillKeeps(s: Sys, t: int)
    requires Inv(s) && (Alive(s.threads, t) && t != s.current ==> StackFreeable(s, t))
    ensures var (s', out) := Kill(s, t, false);
            && (!Alive(s.threads, t) || t == s.current ==> out == Ret(INVALID) && s' == s)
            && (Alive(s.threads, t) && t != s.current ==>
                  && (Inv(s') <==> HoldsNoLock(s, t) && (Awaited(s, t) ==> Room(s, s.current)))
                  && !Alive(s'.threads, t) && SameBut(s.threads, s'.threads, t)
                  && ContsBut(s.threads, s'.threads, s.current) && s'.ledger == AfterFree(s, t)
                  && s'.queues == s.queues && s'.blocks == s.blocks
                  && s'.threads[t].exitCode == s.threads[t].exitCode
                  && |s'.ready| <= |s.ready| + (if Awaited(s, t) then 1 else 0)
                  && out == if Awaited(s, t) then Switch(s.threads[t].waiter) else Ret(t))
  {
    if Alive(s.threads, t) && t != s.current {
      var c := s.threads[t].exitCode;
      assert Dying(s, t, c, AfterFree(s, t)) == s.(ledger := AfterFree(s, t));
      HandleDeathKeeps(s, t, c, AfterFree(s, t));
      HandleDeathSame(s, t, c, AfterFree(s, t));
      assert Kill(s, t, false).0 == HandleDeath(Dying(s, t, c, AfterFree(s, t)), t).0;
      DeadFacts(s, t, c);
    }
  }

  /** What thread_exit leaves behind when it ends in a switch. */
  ghost predicate Exited(s: Sys, code: int, s': Sys)
    requires WellFormed(s)
  {
    && WellFormed(s') && !Alive(s'.threads, s.current) && s'.ledger == AfterFree(s, s.current)
    && s'.queues == s.queues && s'.blocks == s.blocks && s'.owner == s.owner
    && SameBut(s.threads, s'.threads, s.current) && ContsBut(s.threads, s'.threads, s.current)
    && s'.threads[s.current].exitCode == code
    && |s'.ready| <= |s.ready| + (if Awaited(s, s.current) then 1 else 0)
  }

  /** thread_exit: the caller is gone for good. Its waiter, if one sleeps, runs next; otherwise any runnable
      thread; the process ends exactly when there is neither. The invariant survives exactly when the caller
      holds no lock. */
  lemma ExitKeeps(s: Sys, code: int)
    requires Inv(s) && StackFreeable(s, s.current)
    requires s.current == 0 ==> !Alone(s) || Awaited(s, 0)
    ensures var (s', out) := Exit(s, code);
            && (out == ProcessEnds <==> Alone(s) && !Awaited(s, s.current))
            && (out != ProcessEnds ==>
                  && out.Switch? && Exited(s, code, s') && (Inv(s') <==> HoldsNoLock(s, s.current))
                  && (Awaited(s, s.current) ==> out.tid == s.threads[s.current].waiter))
  {
    ExitUnfold(s, code);
    if Awaited(s, s.current) {
      assert WaitsFor(s.threads, s.threads[s.current].waiter, s.current);
      HandleDeathKeeps(s, s.current, code, AfterFree(s, s.current));
      HandleDeathSame(s, s.current, code, AfterFree(s, s.current));
    } else {
      ExitAlone(s, code);
    }
  }

  /** The second half of thread_exit when nobody waits for the caller. */
  lemma ExitAlone(s: Sys, code: int)
    requires Inv(s) && !Awaited(s, s.current)
    ensures var d := Dead(s, s.current, code).(ledger := AfterFree(s, s.current));
            var (s', out) := Yield(d, ANY, User);
            && HandleDeath(Dying(s, s.current, code, AfterFree(s, s.current)), s.current) == (d, Ret(0))
            && (Alone(s) ==> out == Ret(NONE))
            && (!Alone(s) ==> out.Switch? && Exited(s, code, s') && (Inv(s') <==> HoldsNoLock(s, s.current)))
  {
    var t, led := s.current, AfterFree(s, s.current);
    HandleDeathKeeps(s, t, code, led);
    var d := Dead(s, t, code).(ledger := led);
    LastYield(s, code);
    if HoldsNoLock(s, t) {
      DeadFacts(s, t, code);
      YieldAnyKeeps(d, User);
    } else if !Alone(s) {
      OrphanedLock(s, t, Yield(d, ANY, User).0);
    }
  }

  /** The last thread_yield of a dying thread finds somebody exactly when somebody else can run. */
  lemma LastYield(s: Sys, code: int)
    requires Inv(s) && !Awaited(s, s.current)
    ensures var d := Dead(s, s.current, code).(ledger := AfterFree(s, s.current));
            var (s', out) := Yield(d, ANY, User);
            && (Alone(s) ==> out == Ret(NONE))
            && (!Alone(s) ==> out.Switch? && Exited(s, code, s'))
  {
    var d := Dead(s, s.current, code).(ledger := AfterFree(s, s.current));
    DeadFacts(s, s.current, code);
    var k := PopAnyFacts(d.ready, d.threads, d.current);
    var t := PopAny(d.ready, d.threads, d.current).1;
    assert t != NONE ==> IsRunning(d.threads, t) && IsRunning(s.threads, t);
    if !Alone(s) {
      var u :| IsRunning(s.threads, u) && u != s.current;
      assert ThreadOk(s.queues, s.threads, s.ready, u, s.threads[u].cont);
      var i :| 0 <= i < |d.ready| && d.ready[i] == u;
      assert IsRunning(d.threads, u);
      LastSwitch(s, code, t);
    }
  }

  lemma LastSwitch(s: Sys, code: int, t: int)
    requires Inv(s) && !Awaited(s, s.current) && ValidTid(t)
    requires var d := Dead(s, s.current, code).(ledger := AfterFree(s, s.current));
             t == PopAny(d.ready, d.threads, d.current).1
    ensures var d := Dead(s, s.current, code).(ledger := AfterFree(s, s.current));
            Yield(d, ANY, User).1 == Switch(t) && Exited(s, code, Yield(d, ANY, User).0)
  {
    var d := Dead(s, s.current, code).(ledger := AfterFree(s, s.current));
    DeadFacts(s, s.current, code);
    var k := PopAnyFacts(d.ready, d.threads, d.current);
  }

  lemma ExitUnfold(s: Sys, code: int)
    requires Inv(s) && StackFreeable(s, s.current)
    ensures var t := s.current;
            var (s2, out) := HandleDeath(Dying(s, t, code, AfterFree(s, t)), t);
            var (s3, out3) := Yield(s2, ANY, User);
            out == Ret(0) || out.Switch? ==>
              Exit(s, code) ==
                if out != Ret(0) then (s2, out)
                else (s3, if out3 == Ret(NONE) then (if t == 0 then Crash else ProcessEnds) else out3)
  {
    var t := s.current;
    var s1 := s.(threads := s.threads[t := Me(s).(exitCode := code)]);
    assert s1.threads[t].stack == s.threads[t].stack;
    var freed := L.Free(s1.ledger, s1.threads[t].stack).0;
    assert Dying(s, t, code, AfterFree(s, t)) == if t != 0 then s1.(ledger := freed) else s1;
  }

  /** No wait queue and no live thread's waiter field still names slot t. */
  ghost predicate Unnamed(s: Sys, t: int)
    requires WellFormed(s) && ValidTid(t)
  {
    && (forall q :: !InQueue(s.queues, q, t))
    && (forall u :: !WaitsFor(s.threads, t, u))
  }

  /** thread_create keeps the invariant exactly when the slot it takes is not still named by a wait queue or
      by a live thread's waiter field, as the slot of a thread killed while it was blocked would be, and the push
      of the new thread is not lost. */
  lemma CreateKeeps(s: Sys, m: nat)
    requires Inv(s) && Me(s).cont == User && m != 0 && FreeSlot(s.threads, 1) < MAX_THREADS
    ensures var t := FreeSlot(s.threads, 1);
            var (s', out) := Create(s, m);
            && out == Ret(t) && s'.current == s.current
            && (Inv(s') <==> Unnamed(s, t) && Room(s, t))
  {
    var t := FreeSlot(s.threads, 1);
    var b := Born(s, t, m);
    BornFacts(s, t, m);
    if Unnamed(s, t) && Room(s, t) {
      BornKeeps(s, t, m);
    } else if Unnamed(s, t) {
      assert !ThreadOk(b.queues, b.threads, b.ready, t, b.threads[t].cont);
    }
    assert Create(s, m).0 == b.(ledger := L.Malloc(s.ledger, m, STACK));
    if Inv(b) {
      LedgerFrame(b, L.Malloc(s.ledger, m, STACK), {s.current});
    }
  }

  /** The state in which slot t holds a new thread. */
  ghost function Born(s: Sys, t: int, m: nat): (r: Sys)
    requires WellFormed(s) && ValidTid(t)
    ensures WellFormed(r)
  {
    s.(threads := s.threads[t := Thread(Running, m, -1, KILLED, User)], ready := Push(s.ready, t))
  }

  lemma BornTables(s: Sys, t: int, m: nat)
    requires Core(s, {s.current}) && ValidTid(t) && !Alive(s.threads, t) && Unnamed(s, t)
    ensures var b := Born(s, t, m);
            && QueuesOk(b.queues, b.threads) && WaitersOk(b.queues, b.threads)
            && LocksOk(b.queues, b.threads, b.owner) && CodesOk(b.threads) && NamesOk(b)
  {
    BornFacts(s, t, m);
    NamesBorn(s, Born(s, t, m), t);
  }

  lemma BornKeeps(s: Sys, t: int, m: nat)
    requires Inv(s) && Me(s).cont == User && Room(s, t)
    requires ValidTid(t) && !Alive(s.threads, t) && Unnamed(s, t)
    ensures Inv(Born(s, t, m))
  {
    var b := Born(s, t, m);
    BornFacts(s, t, m);
    BornTables(s, t, m);
    forall x | ValidTid(x) && x != b.current
      ensures ThreadOk(b.queues, b.threads, b.ready, x, b.threads[x].cont)
    {
      assert ThreadOk(s.queues, s.threads, s.ready, x, s.threads[x].cont);
      if x == t {
        PushedIn(s.ready, t);
      } else {
        assert b.threads[x].cont == s.threads[x].cont;
      }
    }
  }

  lemma BornFacts(s: Sys, t: int, m: nat)
    requires WellFormed(s) && ValidTid(t) && !Alive(s.threads, t)
    ensures var ts, ts' := s.threads, s.threads[t := Thread(Running, m, -1, KILLED, User)];
            && (forall x :: Alive(ts', x) == (Alive(ts, x) || x == t))
            && (forall x :: IsRunning(ts', x) == (IsRunning(ts, x) || x == t))
            && (forall x :: IsAsleep(ts', x) == IsAsleep(ts, x))
            && (forall x, u :: ValidTid(x) ==> WaitsFor(ts', x, u) == WaitsFor(ts, x, u))
  {
  }

  lemma NamesBorn(s: Sys, s': Sys, t: int)
    requires WellFormed(s) && WellFormed(s') && NamesOk(s) && s'.queues == s.queues && s'.owner == s.owner
    requires ValidTid(t) && s'.threads == s.threads[t := s'.threads[t]] && s'.threads[t].cont == User
    ensures NamesOk(s')
  {
    forall x | Alive(s'.threads, x)
      ensures NamesExist(s', s'.threads[x].cont)
    {
      if x != t {
        assert Alive(s.threads, x);
      }
    }
  }
}
