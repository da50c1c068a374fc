/** Runs of thread.c over malloc369.c, in place. */
module KernelRuns {
  import S = Sched
  import L = LedgerSpec
  import M = Malloc369
  import R = SchedRuns
  import Stacks = SchedStacks
  import K = Kernel

  lemma KillRemembers(s: S.Sys, t: int, admin: bool)
    requires S.WellFormed(s)
    ensures |S.Kill(s, t, admin).0.ledger.entries| == |s.ledger.entries|
  {
    if S.ValidTid(t) {
      M.FreeKeeps(s.ledger, s.threads[t].stack);
    }
  }

  lemma ExitRemembers(s: S.Sys, code: int)
    requires S.WellFormed(s)
    ensures |S.Exit(s, code).0.ledger.entries| == |s.ledger.entries|
  {
    KillRemembers(s.(threads := s.threads[s.current := S.Me(s).(exitCode := code)]), s.current, true);
  }

  lemma NewQueueRemembers(s: S.Sys, q: S.QId, box: nat, block: nat)
    requires S.WellFormed(s) && q !in s.queues
    ensures |s.ledger.entries| <= |S.NewQueue(s, q, box, block).0.ledger.entries|
    ensures var (s', out) := S.NewQueue(s, q, box, block);
            out != S.ProcessEnds && |s'.ledger.entries| <= M.MAX_ADDRESSES ==> K.HasPlaces(s.ledger, q, box, block)
  {
    K.NewQueueUnfolds(s, q, box, block);
    var led := K.Boxed(s.ledger, q, box);
    M.StepRemembers(s.ledger, L.MallocOp(box, Stacks.BoxBytes(q)));
    M.StepRemembers(led, L.MallocOp(block, S.QUEUE_BLOCK));
  }

  lemma CreateRemembers(s: S.Sys, m: nat)
    requires S.WellFormed(s)
    ensures |s.ledger.entries| <= |S.Create(s, m).0.ledger.entries|
    ensures |S.Create(s, m).0.ledger.entries| <= M.MAX_ADDRESSES && S.FreeSlot(s.threads, 1) < S.MAX_THREADS ==>
              M.HasPlace(s.ledger, m)
  {
    M.StepRemembers(s.ledger, L.MallocOp(m, S.STACK));
  }

  /** No step makes malloc369 forget an address, and if it has places enough after the step it had them before. */
  lemma StepRemembers(s: S.Sys, op: S.Op)
    requires R.SysInv(s) && R.CanStep(s, op) && S.Next(s, op).1 != S.ProcessEnds
    ensures |s.ledger.entries| <= |S.Next(s, op).0.ledger.entries|
    ensures |S.Next(s, op).0.ledger.entries| <= M.MAX_ADDRESSES ==> K.Recordable(s, op)
  {
    if R.Allocates(op) {
      AllocatingRemembers(s, op);
    } else {
      QuietRemembers(s, op);
    }
  }

  lemma AllocatingRemembers(s: S.Sys, op: S.Op)
    requires S.WellFormed(s) && S.Enabled(s, op) && R.Allocates(op) && S.Next(s, op).1 != S.ProcessEnds
    ensures |s.ledger.entries| <= |S.Next(s, op).0.ledger.entries|
    ensures |S.Next(s, op).0.ledger.entries| <= M.MAX_ADDRESSES ==> K.Recordable(s, op)
  {
    match op
    case CreateOp(m) => CreateRemembers(s, m);
    case KillOp(t) => KillRemembers(s, t, false);
    case ExitOp(code) => ExitRemembers(s, code);
    case NewQueueOp(q, box, block) => NewQueueRemembers(s, q, box, block);
  }

  lemma QuietRemembers(s: S.Sys, op: S.Op)
    requires R.SysInv(s) && R.CanStep(s, op) && !R.Allocates(op)
    ensures S.Next(s, op).0.ledger == s.ledger
  {
    R.QuietStep(s, op);
  }

  lemma {:induction false} RunRemembers(s: S.Sys, ops: seq<S.Op>, s': S.Sys)
    requires R.SysInv(s) && R.Run(s, ops, s')
    ensures |s.ledger.entries| <= |s'.ledger.entries|
    decreases |ops|
  {
    if ops != [] {
      StepRemembers(s, ops[0]);
      R.StepKeeps(s, ops[0]);
      RunRemembers(S.Next(s, ops[0]).0, ops[1..], s');
    }
  }

  /** A run from s0 has come to s after the steps done, and goes on to s' with the steps ahead. */
  ghost predicate Between(s0: S.Sys, done: seq<S.Op>, s: S.Sys, ahead: seq<S.Op>, s': S.Sys) {
    R.Run(s0, done, s) && R.Run(s, ahead, s') && |s'.ledger.entries| <= M.MAX_ADDRESSES
  }

  /** The next step of a run may be taken. */
  lemma NextStep(s0: S.Sys, done: seq<S.Op>, s: S.Sys, ahead: seq<S.Op>, s': S.Sys)
    requires R.SysInv(s0) && Between(s0, done, s, ahead, s') && ahead != []
    ensures R.SysInv(s) && R.CanStep(s, ahead[0]) && K.Recordable(s, ahead[0])
    ensures Between(s0, done + [ahead[0]], S.Next(s, ahead[0]).0, ahead[1..], s')
  {
    R.RunKeeps(s0, done, s);
    StepRemembers(s, ahead[0]);
    R.StepKeeps(s, ahead[0]);
    RunRemembers(S.Next(s, ahead[0]).0, ahead[1..], s');
    R.RunStep(s0, done, s, ahead[0]);
  }

  lemma OneOn(ops: seq<S.Op>, i: nat)
    requires i < |ops|
    ensures ops[..i] + [ops[i..][0]] == ops[..i + 1] && ops[i..][0] == ops[i] && ops[i..][1..] == ops[i + 1..]
  {
  }

  /** Step i of a run. */
  method Advance(scheduler: K.Scheduler, mem: M.Allocations, ops: seq<S.Op>, i: nat, ghost s0: S.Sys, ghost s': S.Sys)
    requires i < |ops| && scheduler.Valid() && scheduler.Held(mem) == K.Whole(scheduler.ledger)
    requires R.SysInv(s0) && Between(s0, ops[..i], scheduler.View(), ops[i..], s')
    modifies scheduler.Repr(), mem.Repr
    ensures K.OnlyNew(old(scheduler.buffers), scheduler.buffers) && K.OnlyNew(old(mem.Repr), mem.Repr)
    ensures scheduler.Laid() && Between(s0, ops[..i + 1], scheduler.View(), ops[i + 1..], s')
    ensures scheduler.Valid() && scheduler.Held(mem) == K.Whole(scheduler.ledger)
  {
    OneOn(ops, i);
    NextStep(s0, ops[..i], scheduler.View(), ops[i..], s');
    var out := scheduler.ObligedStep(ops[i], mem);
  }

  /** thread.c goes through any run of the step machine, of any length, that uses at most 2^31 different
      addresses. */
  method Execute(scheduler: K.Scheduler, mem: M.Allocations, ops: seq<S.Op>, ghost s': S.Sys)
    requires scheduler.Valid() && scheduler.Held(mem) == K.Whole(scheduler.ledger) && R.SysInv(scheduler.View())
    requires R.Run(scheduler.View(), ops, s') && |s'.ledger.entries| <= M.MAX_ADDRESSES
    modifies scheduler.Repr(), mem.Repr
    ensures K.OnlyNew(old(scheduler.buffers), scheduler.buffers) && K.OnlyNew(old(mem.Repr), mem.Repr)
    ensures scheduler.Laid() && scheduler.View() == s'
    ensures scheduler.Valid() && scheduler.Held(mem) == K.Whole(scheduler.ledger)
  {
    ghost var s0 := scheduler.View();
    for i := 0 to |ops|
      invariant K.OnlyNew(old(scheduler.buffers), scheduler.buffers) && K.OnlyNew(old(mem.Repr), mem.Repr)
      invariant scheduler.Valid() && scheduler.Held(mem) == K.Whole(scheduler.ledger)
      invariant Between(s0, ops[..i], scheduler.View(), ops[i..], s')
    {
      Advance(scheduler, mem, ops, i, s0, s');
    }
  }
}
