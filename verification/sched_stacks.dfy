/** Whose the blocks in malloc369's ledger are: thread stacks, wait queues, locks and cvs. */
module SchedStacks {
  import opened Sched
  import opened SchedInv
  import opened SchedSteps
  import L = LedgerSpec

  /** A created thread that has not died. */
  ghost predicate HasStack(ts: Table, t: int) {
    t != 0 && Alive(ts, t)
  }

  ghost function StackSet(ts: Table): set<nat> {
    set t: int | 0 <= t < MAX_THREADS && HasStack(ts, t) :: ts[t].stack
  }

  /** The blocks outstanding in the ledger are exactly the stacks of the created threads still alive, one each,
      and the blocks of wait queues, locks and cvs. */
  ghost predicate Owned(ts: Table, entries: map<nat, nat>, live: set<nat>, blocks: set<nat>) {
    && live == StackSet(ts) + blocks
    && StackSet(ts) !! blocks
    && (forall t :: HasStack(ts, t) ==> ts[t].stack != 0 && ts[t].stack in entries && entries[ts[t].stack] == STACK)
    && (forall t, u :: HasStack(ts, t) && HasStack(ts, u) && ts[t].stack == ts[u].stack ==> t == u)
  }

  ghost function Locks(handles: set<QId>): set<QId> {
    set q | q in handles && q.LockQ?
  }

  ghost function Cvs(handles: set<QId>): set<QId> {
    set q | q in handles && q.CvQ?
  }

  /** One block for every wait queue, and another for the lock or cv it belongs to. */
  ghost function NumBlocks(handles: set<QId>): nat {
    |handles| + |Locks(handles)| + |Cvs(handles)|
  }

  ghost function BlockBytes(handles: set<QId>): nat {
    QUEUE_BLOCK * |handles| + LOCK_BLOCK * |Locks(handles)| + CV_BLOCK * |Cvs(handles)|
  }

  /** How many blocks and bytes there are. */
  ghost predicate Counted(stacks: nat, bytes: int, blocks: nat, handles: set<QId>) {
    && blocks == NumBlocks(handles)
    && bytes == STACK * stacks + BlockBytes(handles)
  }

  /** The account of the allocator: every outstanding block has its owner. */
  ghost predicate Accounted(ts: Table, led: L.Ledger, blocks: map<nat, QId>, handles: set<QId>) {
    && L.Good(led)
    && Owned(ts, led.entries, L.Live(led.entries), blocks.Keys)
    && Counted(|StackSet(ts)|, L.CurrentBytes(led), |blocks|, handles)
  }

  lemma OwnedFrame(ts: Table, ts': Table, entries: map<nat, nat>, live: set<nat>, blocks: set<nat>)
    requires Owned(ts, entries, live, blocks) && Same(ts, ts')
    ensures Owned(ts', entries, live, blocks) && StackSet(ts') == StackSet(ts)
  {
    assert forall x :: ValidTid(x) ==> HasStack(ts', x) == HasStack(ts, x);
    assert StackSet(ts') == StackSet(ts);
  }

  lemma AccountFrame(ts: Table, ts': Table, led: L.Ledger, blocks: map<nat, QId>, handles: set<QId>)
    requires Accounted(ts, led, blocks, handles) && Same(ts, ts')
    ensures Accounted(ts', led, blocks, handles)
  {
    OwnedFrame(ts, ts', led.entries, L.Live(led.entries), blocks.Keys);
  }

  lemma OwnedBorn(ts: Table, ts': Table, entries: map<nat, nat>, live: set<nat>, blocks: set<nat>, t: int, m: nat)
    requires Owned(ts, entries, live, blocks) && SameBut(ts, ts', t) && t != 0 && ValidTid(t) && !Alive(ts, t)
    requires Alive(ts', t) && ts'[t].stack == m && m != 0 && m !in live
    ensures Owned(ts', entries[m := STACK], live + {m}, blocks)
    ensures |StackSet(ts')| == |StackSet(ts)| + 1
  {
    assert forall x :: ValidTid(x) ==> HasStack(ts', x) == (HasStack(ts, x) || x == t);
    forall x | HasStack(ts, x)
      ensures ts[x].stack in StackSet(ts) && ts[x].stack != m
    {
    }
    StackSetBorn(ts, ts', t, m);
  }

  /** A new thread brings a new block. */
  lemma StacksBorn(ts: Table, ts': Table, led: L.Ledger, blocks: map<nat, QId>, handles: set<QId>, t: int, m: nat)
    requires Accounted(ts, led, blocks, handles) && SameBut(ts, ts', t) && t != 0 && ValidTid(t) && !Alive(ts, t)
    requires Alive(ts', t) && ts'[t].stack == m && m != 0 && m !in L.Live(led.entries)
    ensures Accounted(ts', L.Malloc(led, m, STACK), blocks, handles)
  {
    L.MallocFacts(led, m, STACK);
    OwnedBorn(ts, ts', led.entries, L.Live(led.entries), blocks.Keys, t, m);
  }

  lemma StackSetBorn(ts: Table, ts': Table, t: int, m: nat)
    requires SameBut(ts, ts', t) && ValidTid(t) && ts'[t].stack == m
    requires forall x :: ValidTid(x) ==> HasStack(ts', x) == (HasStack(ts, x) || x == t)
    requires !HasStack(ts, t)
    ensures StackSet(ts') == StackSet(ts) + {m}
  {
    assert HasStack(ts', t);
    forall p | p in StackSet(ts) + {m}
      ensures p in StackSet(ts')
    {
      if p != m {
        var x :| 0 <= x < MAX_THREADS && HasStack(ts, x) && ts[x].stack == p;
        assert HasStack(ts', x) && ts'[x].stack == p;
      }
    }
  }

  lemma OwnedFreed(ts: Table, ts': Table, entries: map<nat, nat>, live: set<nat>, blocks: set<nat>, t: int, n: nat)
    requires Owned(ts, entries, live, blocks) && SameBut(ts, ts', t) && HasStack(ts, t) && !Alive(ts', t)
    ensures Owned(ts', entries[ts[t].stack := n], live - {ts[t].stack}, blocks)
    ensures |StackSet(ts')| == |StackSet(ts)| - 1
  {
    var p := ts[t].stack;
    assert p in StackSet(ts);
    StackSetFreed(ts, ts', t);
    forall x | HasStack(ts', x)
      ensures ts'[x].stack != p
    {
      assert HasStack(ts, x);
    }
  }

  /** A dead thread's block is given back, once. */
  lemma StacksFreed(ts: Table, ts': Table, led: L.Ledger, blocks: map<nat, QId>, handles: set<QId>, t: int)
    requires Accounted(ts, led, blocks, handles) && SameBut(ts, ts', t) && HasStack(ts, t) && !Alive(ts', t)
    ensures L.Free(led, ts[t].stack).1 == L.Freed
    ensures Accounted(ts', L.Free(led, ts[t].stack).0, blocks, handles)
  {
    var p := ts[t].stack;
    assert p in StackSet(ts);
    L.FreeFacts(led, p);
    OwnedFreed(ts, ts', led.entries, L.Live(led.entries), blocks.Keys, t, STACK + L.FREED);
  }

  lemma StackSetFreed(ts: Table, ts': Table, t: int)
    requires SameBut(ts, ts', t) && HasStack(ts, t) && !Alive(ts', t)
    requires forall x, u :: HasStack(ts, x) && HasStack(ts, u) && ts[x].stack == ts[u].stack ==> x == u
    ensures StackSet(ts') == StackSet(ts) - {ts[t].stack}
  {
    forall p | p in StackSet(ts) - {ts[t].stack}
      ensures p in StackSet(ts')
    {
      var x :| 0 <= x < MAX_THREADS && HasStack(ts, x) && ts[x].stack == p;
      assert HasStack(ts', x) && ts'[x].stack == p;
    }
    forall p | p in StackSet(ts')
      ensures p in StackSet(ts) && p != ts[t].stack
    {
      var x :| 0 <= x < MAX_THREADS && HasStack(ts', x) && ts'[x].stack == p;
      assert HasStack(ts, x) && ts[x].stack == p;
    }
  }

  lemma OwnedAdded(ts: Table, entries: map<nat, nat>, live: set<nat>, blocks: set<nat>, m: nat, size: nat)
    requires Owned(ts, entries, live, blocks) && m !in live
    ensures Owned(ts, entries[m := size], live + {m}, blocks + {m})
  {
    forall t | HasStack(ts, t)
      ensures ts[t].stack in StackSet(ts) && ts[t].stack != m
    {
    }
  }

  /** A block for a wait queue, a lock or a cv. */
  lemma BlockAdded(ts: Table, led: L.Ledger, blocks: map<nat, QId>, q: QId, m: nat, size: nat)
    returns (led': L.Ledger, blocks': map<nat, QId>)
    requires L.Good(led) && Owned(ts, led.entries, L.Live(led.entries), blocks.Keys)
    requires m != 0 && m !in L.Live(led.entries) && 0 < size < L.FREED
    ensures led' == L.Malloc(led, m, size) && blocks' == blocks[m := q]
    ensures L.Good(led') && Owned(ts, led'.entries, L.Live(led'.entries), blocks'.Keys)
    ensures |blocks'| == |blocks| + 1
    ensures L.Live(led'.entries) == L.Live(led.entries) + {m} && L.CurrentBytes(led') == L.CurrentBytes(led) + size
  {
    led', blocks' := L.Malloc(led, m, size), blocks[m := q];
    L.MallocFacts(led, m, size);
    assert led'.entries == led.entries[m := size];
    OwnedAdded(ts, led.entries, L.Live(led.entries), blocks.Keys, m, size);
    KeyAdded(blocks, m, q);
  }

  lemma KeyAdded(blocks: map<nat, QId>, m: nat, q: QId)
    requires m !in blocks
    ensures blocks[m := q].Keys == blocks.Keys + {m} && |blocks[m := q]| == |blocks| + 1
  {
    assert blocks[m := q].Keys == blocks.Keys + {m};
  }

  lemma LocksAdded(handles: set<QId>, q: QId)
    requires q !in handles
    ensures |Locks(handles + {q})| == |Locks(handles)| + if q.LockQ? then 1 else 0
  {
    if q.LockQ? {
      assert Locks(handles + {q}) == Locks(handles) + {q};
    } else {
      assert Locks(handles + {q}) == Locks(handles);
    }
  }

  lemma CvsAdded(handles: set<QId>, q: QId)
    requires q !in handles
    ensures |Cvs(handles + {q})| == |Cvs(handles)| + if q.CvQ? then 1 else 0
  {
    if q.CvQ? {
      assert Cvs(handles + {q}) == Cvs(handles) + {q};
    } else {
      assert Cvs(handles + {q}) == Cvs(handles);
    }
  }

  lemma HandleAdded(handles: set<QId>, q: QId)
    requires q !in handles
    ensures NumBlocks(handles + {q}) == NumBlocks(handles) + if q.UserQ? then 1 else 2
    ensures BlockBytes(handles + {q}) == BlockBytes(handles) + QUEUE_BLOCK + BoxBytes(q)
  {
    LocksAdded(handles, q);
    CvsAdded(handles, q);
  }

  function BoxBytes(q: QId): nat {
    if q.UserQ? then 0 else if q.LockQ? then LOCK_BLOCK else CV_BLOCK
  }

  /** A new wait queue, alone or inside a lock or a cv, brings its blocks. */
  lemma QueueBorn(s: Sys, q: QId, box: nat, block: nat)
    requires WellFormed(s) && Accounted(s.threads, s.ledger, s.blocks, s.queues.Keys) && q !in s.queues
    requires block !in L.Live(s.ledger.entries)
    requires !q.UserQ? ==> box !in L.Live(s.ledger.entries) && box != block
    requires NewQueue(s, q, box, block).1 != ProcessEnds
    ensures var s' := NewQueue(s, q, box, block).0;
            Accounted(s'.threads, s'.ledger, s'.blocks, s'.queues.Keys)
  {
    var s' := NewQueue(s, q, box, block).0;
    assert s'.queues.Keys == s.queues.Keys + {q};
    var led, blocks := BlocksBorn(s.threads, s.ledger, s.blocks, s.queues.Keys, q, box, block);
  }

  lemma BlocksBorn(ts: Table, led: L.Ledger, blocks: map<nat, QId>, handles: set<QId>, q: QId, box: nat, block: nat)
    returns (led': L.Ledger, blocks': map<nat, QId>)
    requires Accounted(ts, led, blocks, handles) && q !in handles && block !in L.Live(led.entries) && block != 0
    requires !q.UserQ? ==> box !in L.Live(led.entries) && box != block && box != 0
    ensures led' == L.Malloc(if q.UserQ? then led else L.Malloc(led, box, BoxBytes(q)), block, QUEUE_BLOCK)
    ensures blocks' == if q.UserQ? then blocks[block := q] else blocks[box := q][block := q]
    ensures Accounted(ts, led', blocks', handles + {q})
  {
    HandleAdded(handles, q);
    led', blocks' := led, blocks;
    if !q.UserQ? {
      led', blocks' := BlockAdded(ts, led, blocks, q, box, BoxBytes(q));
    }
    led', blocks' := BlockAdded(ts, led', blocks', q, block, QUEUE_BLOCK);
  }

  /** Nobody has come or gone, and only the caller has a new continuation. */
  ghost predicate Calm(s: Sys, s': Sys)
    requires WellFormed(s) && WellFormed(s')
  {
    Same(s.threads, s'.threads) && ContsBut(s.threads, s'.threads, s.current)
  }

  /** Besides, nothing was allocated or given back. */
  ghost predicate Quiet(s: Sys, s': Sys)
    requires WellFormed(s) && WellFormed(s')
  {
    Calm(s, s') && s'.ledger == s.ledger && s'.blocks == s.blocks && SameHandles(s, s')
  }

  ghost predicate SameHandles(s: Sys, s': Sys) {
    forall q :: q in s'.queues <==> q in s.queues
  }

  lemma QuietAccount(s: Sys, s': Sys)
    requires WellFormed(s) && WellFormed(s') && Accounted(s.threads, s.ledger, s.blocks, s.queues.Keys) && Quiet(s, s')
    ensures Accounted(s'.threads, s'.ledger, s'.blocks, s'.queues.Keys)
  {
    assert s'.queues.Keys == s.queues.Keys;
    AccountFrame(s.threads, s'.threads, s.ledger, s.blocks, s.queues.Keys);
  }

  lemma QuietTwice(s: Sys, s1: Sys, s2: Sys)
    requires WellFormed(s) && WellFormed(s1) && WellFormed(s2) && Quiet(s, s1) && Quiet(s1, s2)
             && s1.current == s.current
    ensures Quiet(s, s2)
  {
  }

  lemma SwitchQuiet(s: Sys, ready: seq<int>, t: int, k: Cont)
    requires WellFormed(s) && ValidTid(t) && (k.InWait? ==> ValidTid(k.target)) && AllValid(ready)
    ensures Quiet(s, SwitchTo(s.(ready := ready), t, k))
  {
  }

  lemma YieldQuiet(s: Sys, want: int, k: Cont)
    requires WellFormed(s) && (k.InWait? ==> ValidTid(k.target))
    ensures Quiet(s, Yield(s, want, k).0)
  {
    var (rest, t) := PopAny(s.ready, s.threads, s.current);
    if want == SELF || want == s.current {
    } else if want == ANY {
      if t != NONE {
        SwitchQuiet(s, rest, t, k);
      }
    } else if ValidTid(want) {
      SwitchQuiet(s, s.ready, want, k);
    }
  }

  lemma EnqueuedQuiet(s: Sys, q: QId)
    requires WellFormed(s) && q in s.queues && Alive(s.threads, s.current)
    ensures Quiet(s, Enqueued(s, q))
  {
  }

  lemma SleepQuiet(s: Sys, q: QId, k: Cont)
    requires WellFormed(s) && q in s.queues && !k.InWait? && Alive(s.threads, s.current)
    ensures Quiet(s, SleepOn(s, q, k).0)
  {
    EnqueuedQuiet(s, q);
    var s1 := Enqueued(s, q);
    YieldQuiet(s1, ANY, k);
    var (s2, out) := Yield(s1, ANY, k);
    QuietTwice(s, s1, s2);
    if out == Ret(NONE) {
      RunsOn(s2, SleepOn(s, q, k).0);
      QuietTwice(s, s2, SleepOn(s, q, k).0);
    }
  }

  lemma RunsOn(s: Sys, s': Sys)
    requires WellFormed(s) && WellFormed(s') && Alive(s.threads, s.current)
    requires s'.threads == SetState(s, s.current, Running).threads && s'.ledger == s.ledger
    requires s'.blocks == s.blocks && SameHandles(s, s')
    ensures Quiet(s, s')
  {
  }

  lemma WaitingSame(s: Sys, t: int)
    requires WellFormed(s) && ValidTid(t) && Alive(s.threads, s.current)
    ensures Quiet(s, Waiting(s, t))
  {
  }

  lemma WaitQuiet(s: Sys, t: int)
    requires WellFormed(s) && Alive(s.threads, s.current)
    ensures Quiet(s, Wait(s, t).0)
  {
    if Alive(s.threads, t) && t != s.current && s.threads[t].waiter == -1 {
      WaitingSame(s, t);
      YieldQuiet(Waiting(s, t), ANY, InWait(t));
      assert Wait(s, t).0 == Yield(Waiting(s, t), ANY, InWait(t)).0;
    }
  }

  lemma WakeupQuiet(s: Sys, q: QId, all: bool)
    requires WellFormed(s)
    ensures Quiet(s, Wakeup(s, q, all).0)
  {
  }

  lemma ContQuiet(s: Sys, k: Cont)
    requires WellFormed(s) && (k.InWait? ==> ValidTid(k.target))
    ensures Quiet(s, SetCont(s, s.current, k))
  {
  }

  lemma AcquireQuiet(s: Sys, l: nat)
    requires WellFormed(s) && l in s.owner && Alive(s.threads, s.current)
    ensures Quiet(s, AcquireLoop(s, l).0)
  {
    if s.owner[l] == -1 {
      ContQuiet(s, User);
    } else {
      SleepQuiet(s, LockQ(l), InAcquire(l));
      var (s1, out) := SleepOn(s, LockQ(l), InAcquire(l));
      if out == Ret(NONE) {
        ContQuiet(s1, InAcquire(l));
        QuietTwice(s, s1, SetCont(s1, s1.current, InAcquire(l)));
      }
    }
  }

  lemma CvSleepQuiet(s: Sys, c: nat, l: nat)
    requires Inv(s) && l in s.owner && CvQ(c) in s.queues && s.owner[l] == -1
    ensures Quiet(s, CvSleep(s, c, l).0)
  {
    SleepAtHome(s, CvQ(c), InCvWait(c, l));
    SleepQuiet(s, CvQ(c), InCvWait(c, l));
    if Alone(s) {
      AcquireQuiet(s.(ready := []), l);
    }
  }
}
