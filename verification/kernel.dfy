/** thread.c as it is written: a table of threads and ring buffers updated in place. Every method is proved to
    compute the step of module Sched of the same name on the values the heap stands for. */
module Kernel {
  import opened RingSpec
  import S = Sched
  import L = LedgerSpec
  import M = Malloc369
  import R = SchedRuns
  import I = SchedInv
  import Steps = SchedSteps
  import Stacks = SchedStacks
  import Ring

  lemma SleepUnfolds(s: S.Sys, q: S.QId, k: S.Cont, s2: S.Sys, out: S.Out)
    requires S.WellFormed(s) && q in s.queues && !k.InWait? && (s2, out) == S.Yield(I.Enqueued(s, q), S.ANY, k)
    ensures out != S.Ret(S.NONE) ==> S.SleepOn(s, q, k) == (s2, out)
    ensures out == S.Ret(S.NONE) ==>
              && S.SleepOn(s, q, k).0 == Dequeued(s2, q)
              && S.SleepOn(s, q, k).1 == if Last(s2.queues[q]) == s2.current then out else S.Crash
  {
  }

  lemma AcquireUnfolds(s: S.Sys, l: nat, s1: S.Sys, out: S.Out)
    requires S.WellFormed(s) && l in s.owner && s.owner[l] != -1
             && (s1, out) == S.SleepOn(s, S.LockQ(l), S.InAcquire(l))
    ensures S.AcquireLoop(s, l) ==
            if out == S.Ret(S.NONE) then (S.SetCont(s1, s1.current, S.InAcquire(l)), S.Spin) else (s1, out)
  {
  }

  lemma CreateUnfolds(s: S.Sys, m: nat, t: int)
    requires S.WellFormed(s) && t == S.FreeSlot(s.threads, 1)
    ensures t == S.MAX_THREADS ==> S.Create(s, m) == (s, S.Ret(S.NOMORE))
    ensures t < S.MAX_THREADS && m == 0 ==>
              S.Create(s, m) == (s.(ledger := L.Malloc(s.ledger, m, S.STACK)), S.ProcessEnds)
    ensures t < S.MAX_THREADS && m != 0 ==>
              S.Create(s, m) == (s.(ledger := L.Malloc(s.ledger, m, S.STACK),
                                    threads := s.threads[t := S.Thread(S.Running, m, -1, S.KILLED, S.User)],
                                    ready := Push(s.ready, t)), S.Ret(t))
  {
  }

  /** What queue_pop_last returns. */
  ghost function Last(ids: seq<int>): int {
    if ids == [] then Ring.ERR_EMPTY else ids[|ids| - 1]
  }

  /** v is s but for the threads, the ready queue and wait queue q. */
  ghost predicate Elsewhere(s: S.Sys, q: S.QId, v: S.Sys)
    requires q in v.queues
  {
    v == s.(threads := v.threads, ready := v.ready, queues := s.queues[q := v.queues[q]])
  }

  lemma ElsewhereHead(s: S.Sys, q: S.QId, v: S.Sys)
    requires S.WellFormed(v) && q in v.queues && v.queues[q] != [] && Elsewhere(s, q, v)
    ensures Elsewhere(s, q, Steps.WakeHead(v, q))
  {
    assert s.queues[q := v.queues[q]][q := v.queues[q][1..]] == s.queues[q := v.queues[q][1..]];
  }

  /** The loop of thread_wakeup(q, all), begun in s, has come to v after waking num threads. */
  ghost predicate Waking(s: S.Sys, q: S.QId, all: bool, v: S.Sys, num: nat) {
    && S.WellFormed(s) && S.WellFormed(v) && q in s.queues && q in v.queues
    && Elsewhere(s, q, v)
    && var w := S.WakeLoop(v.threads, v.queues[q], v.ready, all);
       S.WakeLoop(s.threads, s.queues[q], s.ready, all) == w.(count := w.count + num)
  }

  lemma WakingStarts(s: S.Sys, q: S.QId, all: bool)
    requires S.WellFormed(s) && q in s.queues
    ensures Waking(s, q, all, s, 0)
  {
    assert s.queues[q := s.queues[q]] == s.queues;
  }

  /** The first thread of the queue is passed over, if it was killed while it slept, or woken. */
  lemma WakingGoesOn(s: S.Sys, q: S.QId, all: bool, v: S.Sys, num: nat)
    requires Waking(s, q, all, v, num) && v.queues[q] != []
    requires var state := v.threads[v.queues[q][0]].state; state == S.Destroyed || (state == S.Sleep && all)
    ensures var state := v.threads[v.queues[q][0]].state;
            Waking(s, q, all, Steps.WakeHead(v, q), if state == S.Sleep then num + 1 else num)
  {
    Steps.WakesOn(v, q, all);
    ElsewhereHead(s, q, v);
  }

  /** The three ways out of the loop. */
  lemma WakingEnds(s: S.Sys, q: S.QId, all: bool, v: S.Sys, num: nat)
    requires Waking(s, q, all, v, num)
    ensures v.queues[q] == [] ==> (v.(queues := v.queues[q := []]), S.Ret(num)) == S.Wakeup(s, q, all)
    ensures var ids := v.queues[q];
            ids != [] && v.threads[ids[0]].state == S.Running ==>
              (Steps.WakeHead(v, q), S.Crash) == S.Wakeup(s, q, all)
    ensures var ids := v.queues[q];
            ids != [] && v.threads[ids[0]].state == S.Sleep && !all ==>
              (Steps.WakeHead(v, q), S.Ret(num + 1)) == S.Wakeup(s, q, all)
  {
    var ids := v.queues[q];
    var rest := if ids == [] then [] else ids[1..];
    assert s.queues[q := ids][q := rest] == s.queues[q := rest];
  }

  /** The rollback of thread_sleep: the current thread runs on and leaves the end of queue q. */
  ghost function Dequeued(s: S.Sys, q: S.QId): (r: S.Sys)
    requires S.WellFormed(s) && q in s.queues
    ensures S.WellFormed(r)
  {
    var ids := s.queues[q];
    S.SetState(s, s.current, S.Running).(queues := s.queues[q := if ids == [] then [] else ids[..|ids| - 1]])
  }

  /** The ledger after the calls of malloc369 for a new wait queue, lock or cv. */
  ghost function Boxed(led: L.Ledger, q: S.QId, box: nat): L.Ledger {
    if q.UserQ? then led else L.Malloc(led, box, Stacks.BoxBytes(q))
  }

  ghost function Charged(led: L.Ledger, q: S.QId, box: nat, block: nat): L.Ledger {
    if !q.UserQ? && box == 0 then Boxed(led, q, box) else L.Malloc(Boxed(led, q, box), block, S.QUEUE_BLOCK)
  }

  ghost function NewBlocks(blocks: map<nat, S.QId>, q: S.QId, box: nat, block: nat): map<nat, S.QId> {
    if q.UserQ? then blocks[block := q] else blocks[box := q][block := q]
  }

  /** What wait_queue_create, lock_create and cv_create do when malloc does not fail. */
  ghost function Entered(s: S.Sys, q: S.QId, b: map<nat, S.QId>): S.Sys {
    s.(queues := s.queues[q := []], owner := if q.LockQ? then s.owner[q.id := -1] else s.owner, blocks := b)
  }

  predicate Granted(q: S.QId, box: nat, block: nat) {
    block != 0 && (q.UserQ? || box != 0)
  }

  lemma NewQueueUnfolds(s: S.Sys, q: S.QId, box: nat, block: nat)
    requires S.WellFormed(s) && q !in s.queues
    ensures var s' := s.(ledger := Charged(s.ledger, q, box, block));
            S.NewQueue(s, q, box, block) ==
            if Granted(q, box, block) then (Entered(s', q, NewBlocks(s.blocks, q, box, block)), S.Ret(0))
            else (s', S.ProcessEnds)
  {
  }

  lemma HandleIsNew(s: S.Sys, op: S.Op)
    requires S.WellFormed(s) && S.Enabled(s, op) && op.NewQueueOp?
    ensures op.handle !in s.queues
  {
  }

  /** malloc_map has places for the blocks of a new wait queue, lock or cv. */
  ghost predicate HasPlaces(led: L.Ledger, q: S.QId, box: nat, block: nat) {
    (q.UserQ? || M.HasPlace(led, box)) && M.HasPlace(Boxed(led, q, box), block)
  }

  /** malloc_map has places for all that op allocates. */
  ghost predicate Recordable(s: S.Sys, op: S.Op)
    requires S.WellFormed(s)
  {
    match op
    case CreateOp(m) => S.FreeSlot(s.threads, 1) < S.MAX_THREADS ==> M.HasPlace(s.ledger, m)
    case NewQueueOp(q, box, block) => HasPlaces(s.ledger, q, box, block)
    case _ => true
  }

  datatype Holding = Whole(ledger: L.Ledger) | Broken

  /** The set of objects has grown by new ones only. */
  twostate predicate OnlyNew(before: set<object>, new after: set<object>) {
    forall o :: o in after ==> o in before || fresh(o)
  }

  class Scheduler {
    const threads: array<S.Thread>
    const ready: Ring.Queue
    var current: int
    var queues: map<S.QId, Ring.Queue>
    var owner: map<nat, int>
    ghost var buffers: set<object>         // the ring buffers and their arrays
    ghost var ledger: L.Ledger             // what malloc369 has recorded
    ghost var blocks: map<nat, S.QId>      // whose blocks those are that are not stacks

    ghost function Repr(): set<object>
      reads this`buffers
    {
      {this, threads} + buffers
    }

    /** The buffers are whole and share nothing. */
    ghost predicate Laid()
      reads this, Repr()
    {
      && threads.Length == S.MAX_THREADS && this !in buffers
      && ready in buffers && ready.threads in buffers && ready.Valid()
      && (forall q :: q in queues ==> queues[q] in buffers && queues[q].threads in buffers && queues[q].Valid())
      && (forall q :: q in queues ==> queues[q] != ready && queues[q].threads != ready.threads)
      && (forall p, q :: p in queues && q in queues && p != q ==>
            queues[p] != queues[q] && queues[p].threads != queues[q].threads)
    }

    ghost function Queues(): map<S.QId, seq<int>>
      requires Laid()
      reads this, Repr()
    {
      map q | q in queues :: queues[q].Contents()
    }

    /** The values the heap stands for. */
    ghost function View(): S.Sys
      requires Laid()
      reads this, Repr()
    {
      S.Sys(threads[..], ready.Contents(), current, Queues(), owner, ledger, blocks)
    }

    ghost predicate Valid()
      reads this, Repr()
    {
      Laid() && S.WellFormed(View())
    }

    /** The ledger of malloc369, if it is whole and shares nothing with the scheduler. */
    ghost function Held(mem: M.Allocations): Holding
      reads this`buffers, mem, mem.Repr
    {
      if mem.Valid() && mem.Repr !! Repr() then Whole(mem.View()) else Broken
    }

    /** What happens outside malloc369 leaves it alone. */
    twostate lemma MemUndisturbed(mem: M.Allocations)
      requires old(Held(mem)).Whole? && unchanged(`buffers)
      requires unchanged(old(mem.Repr))
      ensures Held(mem) == old(Held(mem)) && mem.Repr == old(mem.Repr)
    {
    }

    twostate lemma FreshIsElsewhere(new a: set<object>, b: set<object>)
      requires fresh(a)
      ensures a !! b
    {
    }

    static lemma GrownApart(a: set<object>, a': set<object>, b: set<object>)
      requires a !! b && (a' - a) !! b
      ensures a' !! b
    {
    }

    /** malloc369 has grown by new objects only. */
    twostate lemma StillHeld(mem: M.Allocations)
      requires old(Held(mem)).Whole? && mem.Valid() && unchanged(`buffers) && OnlyNew(old(mem.Repr), mem.Repr)
      ensures Held(mem) == Whole(mem.View())
    {
      FreshIsElsewhere(mem.Repr - old(mem.Repr), Repr());
      GrownApart(old(mem.Repr), mem.Repr, Repr());
    }

    /** The scheduler has grown by new objects only. */
    twostate lemma StillHeldGrown(mem: M.Allocations)
      requires old(Held(mem)).Whole? && OnlyNew(old(buffers), buffers)
      requires unchanged(old(mem.Repr))
      ensures Held(mem) == old(Held(mem)) && mem.Repr == old(mem.Repr)
    {
      FreshIsElsewhere(Repr() - old(Repr()), mem.Repr);
      GrownApart(old(Repr()), Repr(), mem.Repr);
    }

    lemma Linked(mem: M.Allocations)
      requires Held(mem) == Whole(ledger)
      ensures mem.Valid() && mem.View() == ledger && mem.Repr !! Repr() && mem.Repr !! buffers
    {
    }

    /** The objects that most methods write to are not malloc369's. */
    lemma Aside(mem: M.Allocations)
      requires Laid() && Held(mem) == Whole(ledger)
      ensures this !in mem.Repr && threads !in mem.Repr && ready !in mem.Repr && ready.threads !in mem.Repr
    {
    }

    /** No buffer of a wait queue has changed. */
    twostate lemma NoQueue()
      requires old(Laid()) && Laid() && unchanged(`queues)
      requires forall p :: p in queues ==> queues[p].Contents() == old(queues[p].Contents())
      ensures Queues() == old(Queues())
    {
    }

    /** Only the buffer of wait queue q has changed. */
    twostate lemma OneQueue(q: S.QId)
      requires old(Laid()) && Laid() && q in queues && unchanged(`queues)
      requires forall p :: p in queues && p != q ==> queues[p].Contents() == old(queues[p].Contents())
      ensures Queues() == old(Queues())[q := queues[q].Contents()]
    {
    }

    /** Wait queue q is new; everything else is as it was. */
    twostate predicate Added(q: S.QId, new buffer: Ring.Queue)
      reads this, Repr(), buffer, buffer.threads
    {
      && old(Laid()) && q !in old(queues) && queues == old(queues)[q := buffer]
      && buffers == old(buffers) + {buffer, buffer.threads}
      && fresh(buffer) && fresh(buffer.threads) && buffer.Valid() && buffer.Contents() == []
      && ready.Valid()
      && (forall p :: p in old(queues) ==>
            queues[p] == old(queues)[p] && queues[p].Valid() && queues[p].Contents() == old(queues[p].Contents()))
    }

    twostate lemma AddedLaid(q: S.QId, new buffer: Ring.Queue)
      requires Added(q, buffer)
      ensures Laid()
    {
      assert forall p :: p in queues && p != q ==> p in old(queues);
    }

    twostate lemma AddedQueues(q: S.QId, new buffer: Ring.Queue)
      requires Added(q, buffer) && Laid()
      ensures Queues() == old(Queues())[q := []]
    {
    }

    /** thread_init, after malloc369 has been set up. */
    constructor (mainCode: int, mainStack: nat, ghost mem: M.Allocations)
      requires mem.Valid()
      ensures Laid() && fresh(Repr()) && View() == R.Init(mainCode, mainStack, mem.View())
      ensures Valid() && Held(mem) == Whole(ledger)
    {
      threads := new S.Thread[S.MAX_THREADS];
      var queue := new Ring.Queue();
      ready, buffers := queue, {queue, queue.threads};
      current, queues, owner, ledger, blocks := 0, map[], map[], mem.View(), map[];
      new;
      ClearThreads();
      threads[0] := S.Thread(S.Running, mainStack, -1, mainCode, S.User);
      assert threads[..] == R.Init(mainCode, mainStack, ledger).threads;
      assert Queues() == map[];
    }

    method ClearThreads()
      requires threads.Length == S.MAX_THREADS
      modifies threads
      ensures forall j :: 0 <= j < S.MAX_THREADS ==> threads[j] == S.Thread(S.Destroyed, 0, -1, S.KILLED, S.User)
    {
      var i := 0;
      while i < S.MAX_THREADS
        invariant 0 <= i <= S.MAX_THREADS
        invariant forall j :: 0 <= j < i ==> threads[j] == S.Thread(S.Destroyed, 0, -1, S.KILLED, S.User)
      {
        threads[i] := S.Thread(S.Destroyed, 0, -1, S.KILLED, S.User);
        i := i + 1;
      }
    }

    method SetThread(t: int, th: S.Thread)
      requires Laid() && S.ValidTid(t)
      modifies threads
      ensures Laid()
      ensures View() == old(View()).(threads := old(View()).threads[t := th])
    {
      threads[t] := th;
      NoQueue();
    }

    method SetCurrent(t: int)
      requires Laid()
      modifies this`current
      ensures Laid() && View() == old(View()).(current := t)
    {
      current := t;
      NoQueue();
    }

    ghost method SetLedger(led: L.Ledger, mem: M.Allocations)
      requires Laid()
      modifies this`ledger
      ensures Laid() && View() == old(View()).(ledger := led)
      ensures Held(mem) == old(Held(mem)) && mem.Repr == old(mem.Repr)
    {
      ledger := led;
      NoQueue();
    }

    /** Whose the new blocks are; nothing in the C code depends on it. */
    ghost method SetBlocks(b: map<nat, S.QId>)
      requires Laid()
      modifies this`blocks
      ensures Laid() && View() == old(View()).(blocks := b)
    {
      blocks := b;
      NoQueue();
    }

    /** A call of malloc369 to which malloc answers m. */
    method Allocate(m: nat, size: nat, mem: M.Allocations)
      requires Laid() && Held(mem) == Whole(ledger) && M.HasPlace(ledger, m)
      modifies this`ledger, mem.Repr
      ensures Laid() && View() == old(View()).(ledger := L.Malloc(old(ledger), m, size)) && unchanged(`buffers)
      ensures OnlyNew(old(mem.Repr), mem.Repr) && Held(mem) == Whole(ledger)
    {
      Grant(m, size, mem);
      StillHeld(mem);
      SetLedger(L.Malloc(ledger, m, size), mem);
    }

    method Grant(m: nat, size: nat, mem: M.Allocations)
      requires Laid() && Held(mem) == Whole(ledger) && M.HasPlace(ledger, m)
      modifies mem.Repr
      ensures Laid() && View() == old(View()) && unchanged(this)
      ensures mem.Valid() && mem.View() == L.Malloc(ledger, m, size) && OnlyNew(old(mem.Repr), mem.Repr)
    {
      Linked(mem);
      Aside(mem);
      mem.MallocGranted(size, m);
      NoQueue();
    }

    /** A call of free369. */
    method GiveBack(p: nat, mem: M.Allocations) returns (outcome: L.FreeOutcome)
      requires Laid() && Held(mem) == Whole(ledger)
      modifies this`ledger, mem.Repr
      ensures Laid() && View() == old(View()).(ledger := L.Free(old(ledger), p).0)
      ensures OnlyNew(old(mem.Repr), mem.Repr) && Held(mem) == Whole(ledger) && outcome == L.Free(old(ledger), p).1
    {
      outcome := Reclaim(p, mem);
      StillHeld(mem);
      SetLedger(L.Free(ledger, p).0, mem);
    }

    method Reclaim(p: nat, mem: M.Allocations) returns (outcome: L.FreeOutcome)
      requires Laid() && Held(mem) == Whole(ledger)
      modifies mem.Repr
      ensures Laid() && View() == old(View()) && unchanged(this)
      ensures mem.Valid() && (mem.View(), outcome) == L.Free(ledger, p) && OnlyNew(old(mem.Repr), mem.Repr)
    {
      Linked(mem);
      Aside(mem);
      outcome := mem.Free(p);
      NoQueue();
    }

    method SetOwner(l: nat, who: int)
      requires Laid()
      modifies this`owner
      ensures Laid() && View() == old(View()).(owner := old(View()).owner[l := who])
    {
      owner := owner[l := who];
      NoQueue();
    }

    method PushReady(t: int)
      requires Laid()
      modifies ready, ready.threads
      ensures Laid()
      ensures View() == old(View()).(ready := Push(old(View()).ready, t))
    {
      var ok := ready.Push(t);
      NoQueue();
    }

    method PopReady() returns (t: int)
      requires Laid()
      modifies ready
      ensures Laid()
      ensures old(View()).ready == [] ==> t == Ring.ERR_EMPTY && View() == old(View())
      ensures old(View()).ready != [] ==>
                t == old(View()).ready[0] && View() == old(View()).(ready := old(View()).ready[1..])
    {
      t := ready.Pop();
      NoQueue();
    }

    method PushWaiting(q: S.QId, t: int)
      requires Laid() && q in queues
      modifies queues[q], queues[q].threads
      ensures Laid()
      ensures View() == old(View()).(queues := old(View()).queues[q := Push(old(View()).queues[q], t)])
    {
      var ok := queues[q].Push(t);
      OneQueue(q);
    }

    method PopWaiting(q: S.QId) returns (t: int)
      requires Laid() && q in queues
      modifies queues[q]
      ensures Laid()
      ensures var ids := old(View()).queues[q];
              && t == (if ids == [] then Ring.ERR_EMPTY else ids[0])
              && View() == old(View()).(queues := old(View()).queues[q := if ids == [] then [] else ids[1..]])
    {
      t := queues[q].Pop();
      OneQueue(q);
    }

    method PopLastWaiting(q: S.QId) returns (t: int)
      requires Laid() && q in queues
      modifies queues[q]
      ensures Laid()
      ensures var ids := old(View()).queues[q];
              && t == Last(ids)
              && View() == old(View()).(queues := old(View()).queues[q := if ids == [] then [] else ids[..|ids| - 1]])
    {
      t := queues[q].PopLast();
      OneQueue(q);
    }

    method SetState(t: int, st: S.State)
      requires Valid() && S.ValidTid(t)
      modifies threads
      ensures Laid() && View() == S.SetState(old(View()), t, st)
      ensures Valid()
    {
      SetThread(t, threads[t].(state := st));
    }

    /** Saving a context: what thread t will do when it is switched to. */
    method SetCont(t: int, k: S.Cont)
      requires Valid() && S.ValidTid(t) && (k.InWait? ==> S.ValidTid(k.target))
      modifies threads
      ensures Laid() && View() == S.SetCont(old(View()), t, k)
      ensures Valid()
    {
      SetThread(t, threads[t].(cont := k));
    }

    /** get_thread_any */
    method GetThreadAny(except: int) returns (t: int)
      requires Valid()
      modifies ready
      ensures Valid()
      ensures var (rest, found) := S.PopAny(old(View()).ready, threads[..], except);
              t == found && View() == old(View()).(ready := rest)
      ensures t == S.NONE || (S.ValidTid(t) && t != except && threads[t].state == S.Running)
    {
      while true
        invariant Valid() && View() == old(View()).(ready := View().ready)
        invariant S.PopAny(View().ready, threads[..], except) == S.PopAny(old(View()).ready, threads[..], except)
        decreases |View().ready|
      {
        ghost var before := View().ready;
        t := PopReady();
        if t == Ring.ERR_EMPTY {
          return S.NONE;
        }
        if threads[t].state == S.Running && t != except {
          return;
        }
      }
    }

    /** Saving the caller's context and going over to thread t. */
    method SwitchTo(t: int, k: S.Cont)
      requires Valid() && S.ValidTid(t) && (k.InWait? ==> S.ValidTid(k.target))
      modifies this`current, threads, ready, ready.threads
      ensures Laid() && View() == S.SwitchTo(old(View()), t, k)
      ensures Valid()
    {
      SetCont(current, k);
      PushReady(current);
      SetCurrent(t);
    }

    /** thread_yield, up to the switch; k is what the caller will do when it runs again. */
    method ThreadYield(want: int, k: S.Cont) returns (out: S.Out)
      requires Valid() && (k.InWait? ==> S.ValidTid(k.target))
      modifies this`current, threads, ready, ready.threads
      ensures Laid() && (View(), out) == S.Yield(old(View()), want, k)
      ensures Valid()
    {
      var actual := want;
      if want == S.SELF || want == current {
        return S.Ret(current);
      } else if want == S.ANY {
        actual := GetThreadAny(current);
        if actual == S.NONE {
          return S.Ret(S.NONE);
        }
      }
      if actual >= S.MAX_THREADS || actual < 0 {
        return S.Ret(S.INVALID);
      }
      if threads[actual].state == S.Destroyed {
        return S.Ret(S.INVALID);
      }
      SwitchTo(actual, k);
      return S.Switch(actual);
    }

    /** thread_create; m is the address malloc returns for the stack. */
    method ThreadCreate(m: nat, mem: M.Allocations) returns (out: S.Out)
      requires Valid() && Held(mem) == Whole(ledger)
      requires S.FreeSlot(View().threads, 1) < S.MAX_THREADS ==> M.HasPlace(ledger, m)
      modifies this`ledger, threads, ready, ready.threads, mem.Repr
      ensures Laid() && (View(), out) == S.Create(old(View()), m)
      ensures OnlyNew(old(mem.Repr), mem.Repr) && Valid() && Held(mem) == Whole(ledger)
    {
      ghost var s := View();
      var t := 1;
      while t < S.MAX_THREADS && threads[t].state != S.Destroyed
        invariant 1 <= t <= S.MAX_THREADS && S.FreeSlot(threads[..], t) == S.FreeSlot(threads[..], 1)
      {
        t := t + 1;
      }
      CreateUnfolds(s, m, t);
      if t == S.MAX_THREADS {
        return S.Ret(S.NOMORE);
      }
      Allocate(m, S.STACK, mem);
      if m == 0 {
        return S.ProcessEnds;
      }
      Admit(t, S.Thread(S.Running, m, -1, S.KILLED, S.User), mem);
      return S.Ret(t);
    }

    /** The new thread th gets slot t and a place in the ready queue. */
    method Admit(t: int, th: S.Thread, ghost mem: M.Allocations)
      requires Laid() && Held(mem) == Whole(ledger) && S.ValidTid(t)
      modifies threads, ready, ready.threads
      ensures Laid() && View() == old(View()).(threads := old(View()).threads[t := th],
                                               ready := Push(old(View()).ready, t))
      ensures Held(mem) == Whole(ledger) && mem.Repr == old(mem.Repr)
    {
      Aside(mem);
      SetThread(t, th);
      PushReady(t);
      MemUndisturbed(mem);
    }

    /** handle_death */
    method HandleDeath(t: int) returns (out: S.Out)
      requires Valid() && S.ValidTid(t)
      modifies this`current, threads, ready, ready.threads
      ensures Laid() && (View(), out) == S.HandleDeath(old(View()), t)
      ensures Valid()
    {
      SetState(t, S.Destroyed);
      var waiter := threads[t].waiter;
      if waiter != -1 {
        if threads[waiter].state == S.Running {
          return S.Crash;
        }
        if threads[waiter].state == S.Sleep {
          SetState(waiter, S.Running);
          out := ThreadYield(waiter, S.User);
          return;
        }
      }
      return S.Ret(0);
    }

    /** thread_kill */
    method ThreadKill(t: int, admin: bool, mem: M.Allocations) returns (out: S.Out)
      requires Valid() && Held(mem) == Whole(ledger)
      modifies this`ledger, this`current, threads, ready, ready.threads, mem.Repr
      ensures Laid() && (View(), out) == S.Kill(old(View()), t, admin)
      ensures OnlyNew(old(mem.Repr), mem.Repr) && Valid() && Held(mem) == Whole(ledger)
    {
      if t == current && !admin {
        return S.Ret(S.INVALID);
      }
      if t < 0 || t >= S.MAX_THREADS {
        return S.Ret(S.INVALID);
      }
      if threads[t].state == S.Destroyed {
        return S.Ret(S.INVALID);
      }
      if t != 0 {
        var freed := GiveBack(threads[t].stack, mem);
        if freed == L.AssertionFailed {
          return S.Crash;
        }
      }
      out := HandleDeathBeside(t, mem);
      if out == S.Ret(0) {
        out := S.Ret(t);
      }
    }

    /** handle_death does not touch malloc369. */
    method HandleDeathBeside(t: int, ghost mem: M.Allocations) returns (out: S.Out)
      requires Valid() && Held(mem) == Whole(ledger) && S.ValidTid(t)
      modifies this`current, threads, ready, ready.threads
      ensures Laid() && (View(), out) == S.HandleDeath(old(View()), t)
      ensures Valid() && Held(mem) == Whole(ledger) && mem.Repr == old(mem.Repr)
    {
      Aside(mem);
      out := HandleDeath(t);
      MemUndisturbed(mem);
    }

    /** The last thing a dying thread does; alone is what happens when there is no other thread to go over to. */
    method Leave(alone: S.Out, ghost mem: M.Allocations) returns (out: S.Out)
      requires Valid() && Held(mem) == Whole(ledger)
      modifies this`current, threads, ready, ready.threads
      ensures Laid()
      ensures var (s, found) := S.Yield(old(View()), S.ANY, S.User);
              View() == s && out == if found == S.Ret(S.NONE) then alone else found
      ensures Valid() && Held(mem) == Whole(ledger) && mem.Repr == old(mem.Repr)
    {
      Aside(mem);
      out := ThreadYield(S.ANY, S.User);
      if out == S.Ret(S.NONE) {
        out := alone;
      }
      MemUndisturbed(mem);
    }

    method SetExitCode(code: int, ghost mem: M.Allocations)
      requires Valid() && Held(mem) == Whole(ledger)
      modifies threads
      ensures Laid()
      ensures var s := old(View()); View() == s.(threads := s.threads[s.current := S.Me(s).(exitCode := code)])
      ensures Valid() && Held(mem) == Whole(ledger) && mem.Repr == old(mem.Repr)
    {
      Aside(mem);
      SetThread(current, threads[current].(exitCode := code));
      MemUndisturbed(mem);
    }

    /** thread_exit */
    method ThreadExit(code: int, mem: M.Allocations) returns (out: S.Out)
      requires Valid() && Held(mem) == Whole(ledger)
      modifies this`ledger, this`current, threads, ready, ready.threads, mem.Repr
      ensures Laid() && (View(), out) == S.Exit(old(View()), code)
      ensures OnlyNew(old(mem.Repr), mem.Repr) && Valid() && Held(mem) == Whole(ledger)
    {
      if current == 0 {
        out := ExitMain(code, mem);
      } else {
        out := ExitCreated(code, mem);
      }
    }

    /** thread_exit by the main thread */
    method ExitMain(code: int, ghost mem: M.Allocations) returns (out: S.Out)
      requires Valid() && Held(mem) == Whole(ledger) && current == 0
      modifies this`current, threads, ready, ready.threads
      ensures Laid() && (View(), out) == S.Exit(old(View()), code)
      ensures Valid() && Held(mem) == Whole(ledger) && mem.Repr == old(mem.Repr)
    {
      SetExitCode(code, mem);
      out := HandleDeathBeside(0, mem);
      if out == S.Ret(0) {
        out := Leave(S.Crash, mem);
      }
    }

    /** thread_exit by any other thread, with admin_mode */
    method ExitCreated(code: int, mem: M.Allocations) returns (out: S.Out)
      requires Valid() && Held(mem) == Whole(ledger) && current != 0
      modifies this`ledger, this`current, threads, ready, ready.threads, mem.Repr
      ensures Laid() && (View(), out) == S.Exit(old(View()), code)
      ensures OnlyNew(old(mem.Repr), mem.Repr) && Valid() && Held(mem) == Whole(ledger)
    {
      var me := current;
      SetExitCode(code, mem);
      out := ThreadKill(me, true, mem);
      if out == S.Ret(me) {
        out := Leave(S.ProcessEnds, mem);
      }
    }

    /** The caller goes to sleep at the end of queue q. */
    method Enqueue(q: S.QId)
      requires Valid() && q in queues
      modifies threads, queues[q], queues[q].threads
      ensures Laid() && View() == I.Enqueued(old(View()), q)
      ensures Valid()
    {
      SetState(current, S.Sleep);
      PushWaiting(q, current);
    }

    method Dequeue(q: S.QId) returns (last: int)
      requires Valid() && q in queues
      modifies threads, queues[q]
      ensures Laid() && View() == Dequeued(old(View()), q)
      ensures Valid()
      ensures last == Last(old(View()).queues[q])
    {
      SetState(current, S.Running);
      last := PopLastWaiting(q);
    }

    /** thread_sleep on an existing queue; k is what the caller will do when it runs again. */
    method ThreadSleep(q: S.QId, k: S.Cont) returns (out: S.Out)
      requires Valid() && q in queues && !k.InWait?
      modifies this`current, threads, ready, ready.threads, queues[q], queues[q].threads
      ensures Laid() && (View(), out) == S.SleepOn(old(View()), q, k)
      ensures Valid()
    {
      ghost var s := View();
      Enqueue(q);
      out := ThreadYield(S.ANY, k);
      SleepUnfolds(s, q, k, View(), out);
      if out == S.Ret(S.NONE) {
        var last := Dequeue(q);
        if last != current {
          out := S.Crash;
        }
      }
    }

    /** One turn of the loop of thread_wakeup: the first thread of queue q leaves it and, if it was asleep,
        becomes runnable. */
    method WakeFirst(q: S.QId) returns (id: int, was: S.State)
      requires Valid() && q in queues
      modifies threads, ready, ready.threads, queues[q]
      ensures Laid()
      ensures var v := old(View());
              if v.queues[q] == [] then id == Ring.ERR_EMPTY && View() == v.(queues := v.queues[q := []])
              else id == v.queues[q][0] && was == v.threads[id].state && View() == Steps.WakeHead(v, q)
    {
      id := PopWaiting(q);
      was := S.Destroyed;
      if id != Ring.ERR_EMPTY {
        was := threads[id].state;
        if was == S.Sleep {
          SetThread(id, threads[id].(state := S.Running));
          PushReady(id);
        }
      }
    }

    /** The loop of thread_wakeup */
    method WakeLoop(q: S.QId, all: bool) returns (out: S.Out)
      requires Valid() && q in queues
      modifies threads, ready, ready.threads, queues[q]
      ensures Laid() && (View(), out) == S.Wakeup(old(View()), q, all)
    {
      var num := 0;
      ghost var s, v := View(), View();
      WakingStarts(s, q, all);
      while true
        invariant Laid() && View() == v && Waking(s, q, all, v, num)
        decreases |v.queues[q]|
      {
        WakingEnds(s, q, all, v, num);
        ghost var before := v;
        var id, was := WakeFirst(q);
        if id == Ring.ERR_EMPTY {
          return S.Ret(num);
        }
        if was == S.Running {
          return S.Crash;
        }
        v := View();
        if was == S.Destroyed || all {
          WakingGoesOn(s, q, all, before, num);
        }
        if was == S.Sleep {
          if !all {
            return S.Ret(num + 1);
          }
          num := num + 1;
        }
      }
    }

    /** thread_wakeup */
    method ThreadWakeup(q: S.QId, all: bool) returns (out: S.Out)
      requires Valid()
      modifies threads, ready, ready.threads, if q in queues then {queues[q]} else {}
      ensures Laid() && (View(), out) == S.Wakeup(old(View()), q, all)
      ensures Valid()
    {
      if q !in queues {
        return S.Ret(0);
      }
      out := WakeLoop(q, all);
    }

    /** thread_wait, up to the switch */
    method ThreadWait(t: int) returns (out: S.Out)
      requires Valid()
      modifies this`current, threads, ready, ready.threads
      ensures Laid() && (View(), out) == S.Wait(old(View()), t)
      ensures Valid()
    {
      if !S.ValidTid(t) {
        return S.Ret(S.INVALID);
      }
      if threads[t].state == S.Destroyed && threads[t].exitCode == S.KILLED {
        return S.Ret(S.INVALID);
      }
      if t == current {
        return S.Ret(S.INVALID);
      }
      if threads[t].state != S.Destroyed {
        if threads[t].waiter != -1 {
          return S.Ret(S.INVALID);
        }
        BecomeWaiter(t);
        out := ThreadYield(S.ANY, S.InWait(t));
        if out != S.Ret(S.NONE) {
          return;
        }
      }
      return S.Collected(t, threads[t].exitCode);
    }

    method BecomeWaiter(t: int)
      requires Valid() && S.ValidTid(t)
      modifies threads
      ensures Laid() && View() == Steps.Waiting(old(View()), t)
      ensures Valid()
    {
      SetThread(t, threads[t].(waiter := current));
      SetThread(current, threads[current].(state := S.Sleep));
    }

    /** One turn of the loop of lock_acquire */
    method LockAcquire(l: nat) returns (out: S.Out)
      requires Valid() && l in owner && S.LockQ(l) in queues
      modifies this`owner, this`current, threads, ready, ready.threads, queues[S.LockQ(l)], queues[S.LockQ(l)].threads
      ensures Laid() && (View(), out) == S.AcquireLoop(old(View()), l)
      ensures Valid()
    {
      if owner[l] == -1 {
        SetCont(current, S.User);
        SetOwner(l, current);
        return S.Ret(0);
      }
      ghost var s := View();
      out := ThreadSleep(S.LockQ(l), S.InAcquire(l));
      AcquireUnfolds(s, l, View(), out);
      if out == S.Ret(S.NONE) {
        SetCont(current, S.InAcquire(l));
        out := S.Spin;
      }
    }

    /** lock_release */
    method LockRelease(l: nat) returns (out: S.Out)
      requires Valid() && l in owner && S.LockQ(l) in queues
      modifies this`owner, threads, ready, ready.threads, queues[S.LockQ(l)]
      ensures Laid() && (View(), out) == S.Release(old(View()), l)
      ensures Valid()
    {
      if owner[l] != current {
        return S.Crash;
      }
      SetOwner(l, -1);
      out := ThreadWakeup(S.LockQ(l), true);
    }

    /** The second half of cv_wait: sleeping on the cv or, when nobody else can run, taking the lock back. */
    method CvSleep(c: nat, l: nat) returns (out: S.Out)
      requires Valid() && l in owner && S.LockQ(l) in queues && S.CvQ(c) in queues
      modifies this`owner, this`current, threads, ready, ready.threads, queues[S.LockQ(l)], queues[S.LockQ(l)].threads,
               queues[S.CvQ(c)], queues[S.CvQ(c)].threads
      ensures Laid() && (View(), out) == S.CvSleep(old(View()), c, l)
      ensures Valid()
    {
      out := ThreadSleep(S.CvQ(c), S.InCvWait(c, l));
      if out == S.Ret(S.NONE) {
        out := LockAcquire(l);
      }
    }

    /** cv_wait, up to the switch */
    method CvWait(c: nat, l: nat) returns (out: S.Out)
      requires Valid() && l in owner && S.LockQ(l) in queues && S.CvQ(c) in queues
      modifies this`owner, this`current, threads, ready, ready.threads, queues[S.LockQ(l)], queues[S.LockQ(l)].threads,
               queues[S.CvQ(c)], queues[S.CvQ(c)].threads
      ensures Laid() && (View(), out) == S.CvWait(old(View()), c, l)
      ensures Valid()
    {
      if owner[l] != current {
        return S.Crash;
      }
      out := LockRelease(l);
      if out != S.Crash {
        out := CvSleep(c, l);
      }
    }

    /** cv_signal and cv_broadcast */
    method CvWake(c: nat, l: nat, all: bool) returns (out: S.Out)
      requires Valid() && l in owner && S.CvQ(c) in queues
      modifies threads, ready, ready.threads, queues[S.CvQ(c)]
      ensures Laid() && (View(), out) == S.CvWake(old(View()), c, l, all)
      ensures Valid()
    {
      if owner[l] != current {
        return S.Crash;
      }
      out := ThreadWakeup(S.CvQ(c), all);
      if out != S.Crash {
        out := S.Ret(0);
      }
    }

    method AddQueue(q: S.QId)
      requires Laid() && q !in View().queues
      modifies this`queues, this`buffers
      ensures OnlyNew(old(buffers), buffers) && Laid()
      ensures View() == old(View()).(queues := old(View()).queues[q := []])
    {
      var buffer := new Ring.Queue();
      assert q !in queues;
      queues, buffers := queues[q := buffer], buffers + {buffer, buffer.threads};
      assert Added(q, buffer);
      AddedLaid(q, buffer);
      assert Laid();
      AddedQueues(q, buffer);
    }

    /** The call of malloc369 made for a lock or cv; box is malloc's answer. */
    method TakeBox(q: S.QId, box: nat, mem: M.Allocations)
      requires Laid() && Held(mem) == Whole(ledger) && (q.UserQ? || M.HasPlace(ledger, box))
      modifies this`ledger, mem.Repr
      ensures Laid() && View() == old(View()).(ledger := Boxed(old(ledger), q, box))
      ensures OnlyNew(old(mem.Repr), mem.Repr) && Held(mem) == Whole(ledger)
      ensures unchanged(`buffers)
    {
      if !q.UserQ? {
        Allocate(box, Stacks.BoxBytes(q), mem);
      }
    }

    /** The calls of malloc369 made for a wait queue, lock or cv; block is malloc's answer for the wait queue. */
    method TakeBlocks(q: S.QId, box: nat, block: nat, mem: M.Allocations) returns (done: bool)
      requires Laid() && Held(mem) == Whole(ledger) && HasPlaces(ledger, q, box, block)
      modifies this`ledger, mem.Repr
      ensures Laid() && View() == old(View()).(ledger := Charged(old(ledger), q, box, block))
      ensures OnlyNew(old(mem.Repr), mem.Repr) && Held(mem) == Whole(ledger)
      ensures unchanged(`buffers) && done == Granted(q, box, block)
    {
      TakeBox(q, box, mem);
      if !q.UserQ? && box == 0 {
        return false;
      }
      Allocate(block, S.QUEUE_BLOCK, mem);
      return block != 0;
    }

    /** wait_queue_create, lock_create and cv_create */
    method NewQueue(q: S.QId, box: nat, block: nat, mem: M.Allocations) returns (out: S.Out)
      requires Valid() && Held(mem) == Whole(ledger) && q !in View().queues
      requires HasPlaces(ledger, q, box, block)
      modifies this`ledger, this`queues, this`buffers, this`owner, this`blocks, mem.Repr
      ensures OnlyNew(old(buffers), buffers) && Laid() && (View(), out) == S.NewQueue(old(View()), q, box, block)
      ensures OnlyNew(old(mem.Repr), mem.Repr) && Valid() && Held(mem) == Whole(ledger)
    {
      NewQueueUnfolds(View(), q, box, block);
      var done := Build(q, box, block, mem);
      out := if done then S.Ret(0) else S.ProcessEnds;
    }

    method Build(q: S.QId, box: nat, block: nat, mem: M.Allocations) returns (done: bool)
      requires Laid() && Held(mem) == Whole(ledger) && q !in View().queues
      requires HasPlaces(ledger, q, box, block)
      modifies this`ledger, this`queues, this`buffers, this`owner, this`blocks, mem.Repr
      ensures OnlyNew(old(buffers), buffers) && Laid() && done == Granted(q, box, block)
      ensures var s := old(View()).(ledger := Charged(old(ledger), q, box, block));
              View() == if done then Entered(s, q, NewBlocks(s.blocks, q, box, block)) else s
      ensures OnlyNew(old(mem.Repr), mem.Repr) && Held(mem) == Whole(ledger)
    {
      done := TakeBlocks(q, box, block, mem);
      if done {
        Enter(q, NewBlocks(blocks, q, box, block), mem);
      }
    }

    /** The new wait queue goes into use. */
    method Enter(q: S.QId, ghost b: map<nat, S.QId>, ghost mem: M.Allocations)
      requires Laid() && Held(mem) == Whole(ledger) && q !in View().queues
      modifies this`queues, this`buffers, this`owner, this`blocks
      ensures OnlyNew(old(buffers), buffers) && Laid()
      ensures View() == Entered(old(View()), q, b)
      ensures Held(mem) == Whole(ledger) && mem.Repr == old(mem.Repr)
    {
      AddQueueBeside(q, mem);
      Register(q, b, mem);
    }

    method AddQueueBeside(q: S.QId, ghost mem: M.Allocations)
      requires Laid() && Held(mem) == Whole(ledger) && q !in View().queues
      modifies this`queues, this`buffers
      ensures OnlyNew(old(buffers), buffers) && Laid()
      ensures View() == old(View()).(queues := old(View()).queues[q := []])
      ensures Held(mem) == Whole(ledger) && mem.Repr == old(mem.Repr)
    {
      Linked(mem);
      Aside(mem);
      AddQueue(q);
      StillHeldGrown(mem);
    }

    /** A new lock is free; the new blocks are noted. */
    method Register(q: S.QId, ghost b: map<nat, S.QId>, ghost mem: M.Allocations)
      requires Laid() && Held(mem) == Whole(ledger)
      modifies this`owner, this`blocks
      ensures Laid() && Held(mem) == Whole(ledger) && mem.Repr == old(mem.Repr)
      ensures View() == old(View()).(owner := if q.LockQ? then old(View()).owner[q.id := -1] else old(View()).owner,
                                     blocks := b)
    {
      Aside(mem);
      if q.LockQ? {
        SetOwner(q.id, -1);
      }
      SetBlocks(b);
      MemUndisturbed(mem);
    }

    /** A suspended call goes on. */
    method Resume() returns (out: S.Out)
      requires Valid() && S.NamesExist(View(), S.Me(View()).cont)
      modifies this`owner, this`current, threads, buffers
      ensures Laid() && (View(), out) == S.Resume(old(View()))
      ensures Valid()
    {
      match threads[current].cont
      case User =>
        out := S.Ret(0);
      case InSleep(_) =>
        SetCont(current, S.User);
        out := S.Ret(0);
      case InWait(t) =>
        SetCont(current, S.User);
        out := S.Collected(t, threads[t].exitCode);
      case InAcquire(l) =>
        out := LockAcquire(l);
      case InCvWait(_, l) =>
        out := LockAcquire(l);
    }

    /** The calls of Call that are about a lock or a cv. */
    predicate OnLock(op: S.Op) {
      op.AcquireOp? || op.ReleaseOp? || op.CvWaitOp? || op.CvWakeOp?
    }

    method CallLock(op: S.Op) returns (out: S.Out)
      requires Valid() && S.Enabled(View(), op) && OnLock(op)
      modifies this`owner, this`current, threads, buffers
      ensures Laid() && (View(), out) == S.Next(old(View()), op)
      ensures Valid()
    {
      match op
      case AcquireOp(l) => out := LockAcquire(l);
      case ReleaseOp(l) => out := LockRelease(l);
      case CvWaitOp(c, l) =>
        out := CvWait(c, l);
      case CvWakeOp(c, l, all) => out := CvWake(c, l, all);
    }

    method CallThread(op: S.Op) returns (out: S.Out)
      requires Valid() && S.Enabled(View(), op) && !R.Allocates(op) && !OnLock(op)
      modifies this`owner, this`current, threads, buffers
      ensures Laid() && (View(), out) == S.Next(old(View()), op)
      ensures Valid()
    {
      match op
      case YieldOp(want) => out := ThreadYield(want, S.User);
      case SleepOp(q) =>
        if S.UserQ(q) in queues {
          out := ThreadSleep(S.UserQ(q), S.InSleep(q));
        } else {
          out := S.Ret(S.INVALID);
        }
      case WakeupOp(q, all) =>
        out := ThreadWakeup(S.UserQ(q), all);
      case WaitOp(t) => out := ThreadWait(t);
      case ResumeOp => out := Resume();
    }

    /** Any step of the machine that neither allocates nor gives back memory. */
    method Call(op: S.Op) returns (out: S.Out)
      requires Valid() && S.Enabled(View(), op) && !R.Allocates(op)
      modifies this`owner, this`current, threads, buffers
      ensures Laid() && (View(), out) == S.Next(old(View()), op)
      ensures Valid()
    {
      if OnLock(op) {
        out := CallLock(op);
      } else {
        out := CallThread(op);
      }
    }

    method CallBeside(op: S.Op, ghost mem: M.Allocations) returns (out: S.Out)
      requires Valid() && Held(mem) == Whole(ledger) && S.Enabled(View(), op) && !R.Allocates(op)
      modifies this`owner, this`current, threads, buffers
      ensures unchanged(`buffers) && Held(mem) == Whole(ledger) && mem.Repr == old(mem.Repr)
      ensures Laid() && (View(), out) == S.Next(old(View()), op)
      ensures Valid()
    {
      Aside(mem);
      Linked(mem);
      ghost var theirs := mem.Repr;
      assert forall o :: o in theirs ==> o != this && o != threads && o !in buffers;
      out := Call(op);
      assert unchanged(theirs);
      MemUndisturbed(mem);
    }

    /** The steps on threads that allocate or give back memory. */
    method AllocatingCall(op: S.Op, mem: M.Allocations) returns (out: S.Out)
      requires Valid() && Held(mem) == Whole(ledger) && S.Enabled(View(), op) && R.Allocates(op) && !op.NewQueueOp?
      requires Recordable(View(), op)
      modifies this`ledger, this`current, threads, ready, ready.threads, mem.Repr
      ensures unchanged(`buffers) && Laid() && (View(), out) == S.Next(old(View()), op)
      ensures OnlyNew(old(mem.Repr), mem.Repr) && Valid() && Held(mem) == Whole(ledger)
    {
      match op
      case CreateOp(m) => out := ThreadCreate(m, mem);
      case ExitOp(code) => out := ThreadExit(code, mem);
      case KillOp(t) => out := ThreadKill(t, false, mem);
    }

    method NewQueueCall(op: S.Op, mem: M.Allocations) returns (out: S.Out)
      requires Valid() && Held(mem) == Whole(ledger) && S.Enabled(View(), op) && op.NewQueueOp?
      requires op.handle !in View().queues && Recordable(View(), op)
      modifies this`ledger, this`queues, this`buffers, this`owner, this`blocks, mem.Repr
      ensures OnlyNew(old(buffers), buffers) && Laid() && (View(), out) == S.Next(old(View()), op)
      ensures OnlyNew(old(mem.Repr), mem.Repr) && Valid() && Held(mem) == Whole(ledger)
    {
      out := NewQueue(op.handle, op.box, op.block, mem);
    }

    /** Any step of the machine. */
    method Step(op: S.Op, mem: M.Allocations) returns (out: S.Out)
      requires Valid() && Held(mem) == Whole(ledger) && S.Enabled(View(), op) && Recordable(View(), op)
      modifies Repr(), mem.Repr
      ensures OnlyNew(old(buffers), buffers) && Laid() && (View(), out) == S.Next(old(View()), op)
      ensures OnlyNew(old(mem.Repr), mem.Repr) && Valid() && Held(mem) == Whole(ledger)
    {
      if op.NewQueueOp? {
        HandleIsNew(View(), op);
        out := NewQueueCall(op, mem);
      } else if R.Allocates(op) {
        out := AllocatingCall(op, mem);
      } else {
        out := CallBeside(op, mem);
      }
    }

    /** The step of a program that keeps its obligations: no C assertion fails, and the invariant of module
        SchedRuns, which thread_init establishes, goes on holding. */
    method ObligedStep(op: S.Op, mem: M.Allocations) returns (out: S.Out)
      requires Valid() && Held(mem) == Whole(ledger) && R.SysInv(View()) && R.CanStep(View(), op)
      requires Recordable(View(), op)
      modifies Repr(), mem.Repr
      ensures OnlyNew(old(buffers), buffers) && OnlyNew(old(mem.Repr), mem.Repr) && Held(mem) == Whole(ledger)
      ensures Laid() && (View(), out) == S.Next(old(View()), op)
      ensures out != S.Crash && (out != S.ProcessEnds ==> R.SysInv(View()))
    {
      R.StepKeeps(View(), op);
      out := Step(op, mem);
    }
  }
}
