/** Properties of runs that need a memory: which incarnation of a slot exited with which code, and which
    threads are between lock_acquire and lock_release. */
module SchedHistory {
  import opened Sched
  import opened SchedInv
  import opened SchedSteps
  import opened SchedDeath
  import opened SchedStacks
  import opened SchedRuns
  import L = LedgerSpec

  /** inc[t]: how often slot t has been given out by thread_create; codes: the exit code of every incarnation
      that has died; target: for every thread that blocked in thread_wait, the incarnation it waits for;
      inside: for every lock, the threads that have acquired and not released it. */
  datatype Hist = Hist(
    inc: seq<nat>,
    codes: map<(int, nat), int>,
    target: map<int, (int, nat)>,
    inside: map<nat, set<int>>)

  ghost function NewInc(h: Hist, op: Op, out: Out): seq<nat>
    requires |h.inc| == MAX_THREADS
  {
    if op.CreateOp? && out.Ret? && ValidTid(out.v) then h.inc[out.v := h.inc[out.v] + 1] else h.inc
  }

  /** thread_exit(c) gives code c; a created thread that is killed has code -SIGKILL; the main thread, when
      killed, keeps whatever its field held. */
  ghost function NewCodes(h: Hist, s: Sys, op: Op): map<(int, nat), int>
    requires |h.inc| == MAX_THREADS && WellFormed(s)
  {
    match op
    case ExitOp(c) => h.codes[(s.current, h.inc[s.current]) := c]
    case KillOp(t) =>
      if Alive(s.threads, t) && t != s.current
      then h.codes[(t, h.inc[t]) := if t == 0 then s.threads[0].exitCode else KILLED] else h.codes
    case _ => h.codes
  }

  ghost function NewTarget(h: Hist, s: Sys, op: Op): map<int, (int, nat)>
    requires |h.inc| == MAX_THREADS && WellFormed(s)
  {
    if op.WaitOp? && MustWait(s, op.t) then h.target[s.current := (op.t, h.inc[op.t])] else h.target
  }

  ghost function Enter(inside: map<nat, set<int>>, l: nat, t: int): map<nat, set<int>> {
    inside[l := (if l in inside then inside[l] else {}) + {t}]
  }

  ghost function Leave(inside: map<nat, set<int>>, l: nat, t: int): map<nat, set<int>> {
    inside[l := (if l in inside then inside[l] else {}) - {t}]
  }

  /** Who has returned from lock_acquire (or cv_wait) and not yet called lock_release (or cv_wait). */
  ghost function NewInside(h: Hist, s: Sys, op: Op, out: Out): map<nat, set<int>>
    requires WellFormed(s)
  {
    match op
    case AcquireOp(l) => if out == Ret(0) then Enter(h.inside, l, s.current) else h.inside
    case ReleaseOp(l) => Leave(h.inside, l, s.current)
    case CvWaitOp(_, l) =>
      if out == Ret(0) then Enter(Leave(h.inside, l, s.current), l, s.current) else Leave(h.inside, l, s.current)
    case ResumeOp =>
      (match Me(s).cont
       case InAcquire(l) => if out == Ret(0) then Enter(h.inside, l, s.current) else h.inside
       case InCvWait(_, l) => if out == Ret(0) then Enter(h.inside, l, s.current) else h.inside
       case _ => h.inside)
    case NewQueueOp(q, _, _) => if q.LockQ? then h.inside[q.id := {}] else h.inside
    case _ => h.inside
  }

  ghost function NextHist(h: Hist, s: Sys, op: Op): (h': Hist)
    requires |h.inc| == MAX_THREADS && WellFormed(s) && Enabled(s, op)
    ensures |h'.inc| == MAX_THREADS
  {
    var out := Next(s, op).1;
    Hist(NewInc(h, op, out), NewCodes(h, s, op), NewTarget(h, s, op), NewInside(h, s, op, out))
  }

  /** A dead incarnation's code is recorded and still in its slot; a live one has none yet. */
  ghost predicate CodesKnown(ts: Table, inc: seq<nat>, codes: map<(int, nat), int>)
    requires |inc| == MAX_THREADS
  {
    && (forall t :: ValidTid(t) && !Alive(ts, t) && (t == 0 || inc[t] > 0) ==>
          (t, inc[t]) in codes && ts[t].exitCode == codes[(t, inc[t])])
    && (forall t :: ValidTid(t) && !Alive(ts, t) && t != 0 && inc[t] == 0 ==> ts[t].exitCode == KILLED)
    && (forall t :: Alive(ts, t) ==> (t, inc[t]) !in codes && (t == 0 || inc[t] > 0))
    && (forall t, k :: (t, k) in codes ==> ValidTid(t) && k <= inc[t] && (t == 0 || k > 0))
  }

  /** A thread in thread_wait waits for the present incarnation of its target. */
  ghost predicate TargetsKnown(ts: Table, inc: seq<nat>, target: map<int, (int, nat)>)
    requires |inc| == MAX_THREADS
  {
    forall t :: Alive(ts, t) && ts[t].cont.InWait? ==> TargetKnown(inc, target, t, ts[t].cont.target)
  }

  ghost predicate TargetKnown(inc: seq<nat>, target: map<int, (int, nat)>, t: int, u: int) {
    ValidTid(u) && |inc| == MAX_THREADS && t in target && target[t] == (u, inc[u]) && (u == 0 || inc[u] > 0)
  }

  /** Mutual exclusion: whoever is inside a lock is its recorded owner. */
  ghost predicate InsideKnown(owner: map<nat, int>, inside: map<nat, set<int>>) {
    forall l :: l in owner ==> l in inside && inside[l] == if owner[l] == -1 then {} else {owner[l]}
  }

  ghost predicate HistInv(s: Sys, h: Hist) {
    && WellFormed(s) && |h.inc| == MAX_THREADS
    && CodesKnown(s.threads, h.inc, h.codes)
    && TargetsKnown(s.threads, h.inc, h.target)
    && InsideKnown(s.owner, h.inside)
  }

  /** Only creations and deaths change more than the caller. */
  lemma CalmStep(s: Sys, op: Op)
    requires Inv(s) && CanStep(s, op) && !op.CreateOp? && !op.ExitOp? && !op.KillOp?
    ensures Calm(s, Next(s, op).0)
  {
    if !op.NewQueueOp? {
      QuietStep(s, op);
    }
  }

  /** No call but thread_wait leaves its caller in thread_wait. */
  lemma CallerNotWaiting(s: Sys, op: Op)
    requires MayStep(s, op) && !op.CreateOp? && !op.ExitOp? && !op.KillOp?
    requires op.WaitOp? ==> !MustWait(s, op.t)
    ensures !Next(s, op).0.threads[s.current].cont.InWait?
  {
    match op
    case CvWaitOp(c, l) =>
      ReleaseQuietCont(s, l);
      CvSleepCont(Release(s, l).0, c, l);
      assert Release(s, l).1 != Crash ==> CvWait(s, c, l) == CvSleep(Release(s, l).0, c, l);
    case SleepOp(q) => if UserQ(q) in s.queues { SleepCont(s, UserQ(q), InSleep(q)); }
    case AcquireOp(l) => AcquireCont(s, l);
    case ResumeOp => ResumeCont(s);
    case _ =>
  }

  lemma SleepCont(s: Sys, q: QId, k: Cont)
    requires WellFormed(s) && q in s.queues && !k.InWait? && !Me(s).cont.InWait?
    ensures !SleepOn(s, q, k).0.threads[s.current].cont.InWait?
  {
  }

  lemma AcquireCont(s: Sys, l: nat)
    requires WellFormed(s) && l in s.owner && !Me(s).cont.InWait?
    ensures !AcquireLoop(s, l).0.threads[s.current].cont.InWait?
  {
    if s.owner[l] != -1 {
      SleepCont(s, LockQ(l), InAcquire(l));
    }
  }

  lemma ResumeCont(s: Sys)
    requires WellFormed(s) && NamesExist(s, Me(s).cont)
    ensures !Resume(s).0.threads[s.current].cont.InWait?
  {
    var k := Me(s).cont;
    if k.InAcquire? || k.InCvWait? {
      AcquireCont(s, k.lock);
    }
  }

  lemma ReleaseQuietCont(s: Sys, l: nat)
    requires WellFormed(s) && l in s.owner && !Me(s).cont.InWait?
    ensures Release(s, l).0.current == s.current && !Release(s, l).0.threads[s.current].cont.InWait?
  {
  }

  lemma CvSleepCont(s: Sys, c: nat, l: nat)
    requires WellFormed(s) && l in s.owner && CvQ(c) in s.queues && !Me(s).cont.InWait?
    ensures !CvSleep(s, c, l).0.threads[s.current].cont.InWait?
  {
    SleepCont(s, CvQ(c), InCvWait(c, l));
    var (s2, out2) := SleepOn(s, CvQ(c), InCvWait(c, l));
    if out2 == Ret(NONE) {
      AcquireCont(s2, l);
    }
  }

  lemma CalmCodes(ts: Table, ts': Table, inc: seq<nat>, codes: map<(int, nat), int>)
    requires |inc| == MAX_THREADS && CodesKnown(ts, inc, codes) && Same(ts, ts')
    ensures CodesKnown(ts', inc, codes)
  {
  }

  lemma CalmTargets(ts: Table, ts': Table, c: int, inc: seq<nat>,
                    target: map<int, (int, nat)>, target': map<int, (int, nat)>)
    requires |inc| == MAX_THREADS && TargetsKnown(ts, inc, target) && ValidTid(c)
    requires forall t :: t != c && Alive(ts', t) ==> Alive(ts, t)
    requires ContsBut(ts, ts', c)
    requires forall t :: t != c && t in target ==> t in target' && target'[t] == target[t]
    requires Alive(ts', c) && ts'[c].cont.InWait? ==> TargetKnown(inc, target', c, ts'[c].cont.target)
    ensures TargetsKnown(ts', inc, target')
  {
    forall t | Alive(ts', t) && ts'[t].cont.InWait?
      ensures TargetKnown(inc, target', t, ts'[t].cont.target)
    {
      if t != c {
        assert TargetKnown(inc, target, t, ts[t].cont.target);
      }
    }
  }

  /** A step in which nobody comes or goes, and nobody blocks in thread_wait. */
  lemma CalmKnown(s: Sys, op: Op, h: Hist)
    requires MayStep(s, op) && HistInv(s, h) && !op.CreateOp? && !op.ExitOp? && !op.KillOp?
    requires op.WaitOp? ==> !MustWait(s, op.t)
    ensures CodesKnown(Next(s, op).0.threads, h.inc, h.codes)
    ensures TargetsKnown(Next(s, op).0.threads, h.inc, h.target)
  {
    CalmStep(s, op);
    CallerNotWaiting(s, op);
    var ts' := Next(s, op).0.threads;
    CalmCodes(s.threads, ts', h.inc, h.codes);
    CalmTargets(s.threads, ts', s.current, h.inc, h.target, h.target);
  }

  lemma WaitSwitches(s: Sys, t: int)
    requires Inv(s) && MustWait(s, t) && !Alone(s)
    ensures Wait(s, t).0.threads[s.current].cont == InWait(t)
  {
    WaitBlocks(s, t);
  }

  /** A step that blocks in thread_wait. */
  lemma WaitKnown(s: Sys, t: int, h: Hist)
    requires Inv(s) && MustWait(s, t) && !Alone(s) && HistInv(s, h)
    ensures CodesKnown(Wait(s, t).0.threads, h.inc, h.codes)
    ensures TargetsKnown(Wait(s, t).0.threads, h.inc, h.target[s.current := (t, h.inc[t])])
  {
    WaitQuiet(s, t);
    WaitSwitches(s, t);
    BlockedKnown(s.threads, Wait(s, t).0.threads, s.current, t, h);
  }

  lemma BlockedKnown(ts: Table, ts': Table, c: int, t: int, h: Hist)
    requires |h.inc| == MAX_THREADS && CodesKnown(ts, h.inc, h.codes) && TargetsKnown(ts, h.inc, h.target)
    requires ValidTid(c) && Alive(ts, t) && Same(ts, ts') && ContsBut(ts, ts', c) && ts'[c].cont == InWait(t)
    ensures CodesKnown(ts', h.inc, h.codes)
    ensures TargetsKnown(ts', h.inc, h.target[c := (t, h.inc[t])])
  {
    CalmCodes(ts, ts', h.inc, h.codes);
    CalmTargets(ts, ts', c, h.inc, h.target, h.target[c := (t, h.inc[t])]);
  }

  /** In user code, nobody alive waits for a dead thread. */
  lemma NoOrphans(s: Sys)
    requires Inv(s) && Me(s).cont == User
    ensures NobodyWaitsForDead(s.threads)
  {
    forall t | Alive(s.threads, t) && s.threads[t].cont.InWait?
      ensures Alive(s.threads, s.threads[t].cont.target)
    {
      assert ThreadOk(s.queues, s.threads, s.ready, t, s.threads[t].cont);
    }
  }

  /** A creation: slot t gets its next incarnation. */
  lemma BornKnown(ts: Table, ts': Table, t: int, inc: seq<nat>,
                  codes: map<(int, nat), int>, target: map<int, (int, nat)>)
    requires |inc| == MAX_THREADS && CodesKnown(ts, inc, codes) && TargetsKnown(ts, inc, target)
    requires ValidTid(t) && !Alive(ts, t) && Alive(ts', t) && ts'[t].cont == User
    requires SameBut(ts, ts', t) && ContsBut(ts, ts', t)
    requires forall x :: Alive(ts, x) && ts[x].cont.InWait? ==> ts[x].cont.target != t
    ensures CodesKnown(ts', inc[t := inc[t] + 1], codes)
    ensures TargetsKnown(ts', inc[t := inc[t] + 1], target)
  {
    var inc' := inc[t := inc[t] + 1];
    forall x | Alive(ts', x) && ts'[x].cont.InWait?
      ensures TargetKnown(inc', target, x, ts'[x].cont.target)
    {
      assert Alive(ts, x);
      assert TargetKnown(inc, target, x, ts[x].cont.target);
    }
  }

  ghost predicate NobodyWaitsForDead(ts: Table) {
    forall t :: Alive(ts, t) && ts[t].cont.InWait? ==> Alive(ts, ts[t].cont.target)
  }

  lemma CreateKnown(s: Sys, m: nat, h: Hist)
    requires WellFormed(s) && HistInv(s, h) && NobodyWaitsForDead(s.threads) && Create(s, m).1 != ProcessEnds
    ensures var inc := NewInc(h, CreateOp(m), Create(s, m).1);
            CodesKnown(Create(s, m).0.threads, inc, h.codes) && TargetsKnown(Create(s, m).0.threads, inc, h.target)
  {
    var t := FreeSlot(s.threads, 1);
    if t < MAX_THREADS {
      SlotKnown(s.threads, t, m, h.inc, h.codes, h.target);
    }
  }

  lemma SlotKnown(ts: Table, t: int, m: nat, inc: seq<nat>, codes: map<(int, nat), int>, target: map<int, (int, nat)>)
    requires |inc| == MAX_THREADS && CodesKnown(ts, inc, codes) && TargetsKnown(ts, inc, target)
    requires NobodyWaitsForDead(ts) && ValidTid(t) && !Alive(ts, t)
    ensures CodesKnown(ts[t := Thread(Running, m, -1, KILLED, User)], inc[t := inc[t] + 1], codes)
    ensures TargetsKnown(ts[t := Thread(Running, m, -1, KILLED, User)], inc[t := inc[t] + 1], target)
  {
    BornSame(ts, t, m);
    BornKnown(ts, ts[t := Thread(Running, m, -1, KILLED, User)], t, inc, codes, target);
  }

  lemma BornSame(ts: Table, t: int, m: nat)
    requires ValidTid(t) && !Alive(ts, t)
    ensures var ts' := ts[t := Thread(Running, m, -1, KILLED, User)];
            SameBut(ts, ts', t) && ContsBut(ts, ts', t) && Alive(ts', t) && ts'[t].cont == User
  {
  }

  /** A death: t, and t alone, is gone, with the given code recorded for its incarnation. */
  lemma DeathCodes(ts: Table, ts': Table, t: int, code: int, inc: seq<nat>, codes: map<(int, nat), int>)
    requires |inc| == MAX_THREADS && CodesKnown(ts, inc, codes)
    requires Alive(ts, t) && !Alive(ts', t) && SameBut(ts, ts', t) && ts'[t].exitCode == code
    ensures CodesKnown(ts', inc, codes[(t, inc[t]) := code])
  {
  }

  lemma ExitKnown(s: Sys, code: int, h: Hist)
    requires MayStep(s, ExitOp(code)) && HistInv(s, h) && Exit(s, code).1 != ProcessEnds
    ensures CodesKnown(Exit(s, code).0.threads, h.inc, h.codes[(s.current, h.inc[s.current]) := code])
    ensures TargetsKnown(Exit(s, code).0.threads, h.inc, h.target)
  {
    ExitKeeps(s, code);
    DeathCodes(s.threads, Exit(s, code).0.threads, s.current, code, h.inc, h.codes);
    CalmTargets(s.threads, Exit(s, code).0.threads, s.current, h.inc, h.target, h.target);
  }

  lemma KillKnown(s: Sys, t: int, h: Hist)
    requires MayStep(s, KillOp(t)) && HistInv(s, h) && Alive(s.threads, t) && t != s.current
    ensures CodesKnown(Kill(s, t, false).0.threads, h.inc,
                       h.codes[(t, h.inc[t]) := if t == 0 then s.threads[0].exitCode else KILLED])
    ensures TargetsKnown(Kill(s, t, false).0.threads, h.inc, h.target)
  {
    KillKeeps(s, t);
    KillCont(s, t);
    DeathCodes(s.threads, Kill(s, t, false).0.threads, t, s.threads[t].exitCode, h.inc, h.codes);
    CalmTargets(s.threads, Kill(s, t, false).0.threads, s.current, h.inc, h.target, h.target);
  }

  lemma KillCont(s: Sys, t: int)
    requires WellFormed(s) && Me(s).cont == User
    ensures Kill(s, t, false).0.threads[s.current].cont == User
  {
    if ValidTid(t) && t != s.current {
      DeathCont(s.(ledger := L.Free(s.ledger, s.threads[t].stack).0), t);
    }
  }

  lemma DeathCont(s: Sys, t: int)
    requires WellFormed(s) && ValidTid(t) && t != s.current && Me(s).cont == User
    ensures HandleDeath(s, t).0.threads[s.current].cont == User
  {
  }

  lemma InsideSame(owner: map<nat, int>, inside: map<nat, set<int>>, l: nat, t: int)
    requires InsideKnown(owner, inside) && l in owner && t != -1
    ensures owner[l] == -1 ==> InsideKnown(owner[l := t], Enter(inside, l, t))
    ensures owner[l] == t ==> InsideKnown(owner[l := -1], Leave(inside, l, t))
    ensures owner[l] == t ==> InsideKnown(owner, Enter(Leave(inside, l, t), l, t))
  {
  }

  /** The other operations do not touch the locks. */
  lemma OwnersSame(s: Sys, op: Op)
    requires WellFormed(s) && Enabled(s, op)
    requires !op.AcquireOp? && !op.ReleaseOp? && !op.CvWaitOp? && !op.ResumeOp? && !op.NewQueueOp?
    ensures Next(s, op).0.owner == s.owner
  {
    match op
    case ExitOp(c) => ExitOwners(s, c);
    case KillOp(t) => KillOwners(s, t, false);
    case SleepOp(q) => if UserQ(q) in s.queues { SleepOwners(s, UserQ(q), InSleep(q)); }
    case WaitOp(t) => WaitOwners(s, t);
    case CreateOp(m) => assert Next(s, op) == Create(s, m);
    case _ =>
  }

  lemma YieldOwners(s: Sys, want: int, k: Cont)
    requires WellFormed(s) && (k.InWait? ==> ValidTid(k.target))
    ensures Yield(s, want, k).0.owner == s.owner
  {
  }

  lemma SleepOwners(s: Sys, q: QId, k: Cont)
    requires WellFormed(s) && q in s.queues && !k.InWait?
    ensures SleepOn(s, q, k).0.owner == s.owner
  {
    YieldOwners(Enqueued(s, q), ANY, k);
  }

  lemma WaitOwners(s: Sys, t: int)
    requires WellFormed(s)
    ensures Wait(s, t).0.owner == s.owner
  {
    if ValidTid(t) {
      YieldOwners(Waiting(s, t), ANY, InWait(t));
    }
  }

  lemma DeathOwners(s: Sys, t: int)
    requires WellFormed(s) && ValidTid(t)
    ensures HandleDeath(s, t).0.owner == s.owner
  {
  }

  lemma KillOwners(s: Sys, t: int, admin: bool)
    requires WellFormed(s)
    ensures Kill(s, t, admin).0.owner == s.owner
  {
    if ValidTid(t) {
      DeathOwners(s.(ledger := L.Free(s.ledger, s.threads[t].stack).0), t);
    }
  }

  lemma ExitOwners(s: Sys, c: int)
    requires WellFormed(s)
    ensures Exit(s, c).0.owner == s.owner
  {
    var s1 := s.(threads := s.threads[s.current := Me(s).(exitCode := c)]);
    DeathOwners(s1, s.current);
    KillOwners(s1, s.current, true);
  }

  lemma ResumeInside(s: Sys, h: Hist)
    requires MayStep(s, ResumeOp) && HistInv(s, h)
    ensures InsideKnown(Resume(s).0.owner, NewInside(h, s, ResumeOp, Resume(s).1))
  {
    var k := Me(s).cont;
    if k.InAcquire? || k.InCvWait? {
      AcquireInside(s, k.lock, h);
    }
  }

  lemma AcquireInside(s: Sys, l: nat, h: Hist)
    requires Inv(s) && l in s.owner && InsideKnown(s.owner, h.inside)
    ensures var (s', out) := AcquireLoop(s, l);
            InsideKnown(s'.owner, if out == Ret(0) then Enter(h.inside, l, s.current) else h.inside)
  {
    AcquireKeeps(s, l);
    InsideSame(s.owner, h.inside, l, s.current);
  }

  lemma ReleaseInside(s: Sys, l: nat, h: Hist)
    requires MayStep(s, ReleaseOp(l)) && InsideKnown(s.owner, h.inside)
    ensures InsideKnown(Release(s, l).0.owner, Leave(h.inside, l, s.current))
  {
    ReleaseKeeps(s, l);
    InsideSame(s.owner, h.inside, l, s.current);
  }

  lemma CvWaitInside(s: Sys, c: nat, l: nat, h: Hist)
    requires MayStep(s, CvWaitOp(c, l)) && InsideKnown(s.owner, h.inside)
    ensures InsideKnown(CvWait(s, c, l).0.owner, NewInside(h, s, CvWaitOp(c, l), CvWait(s, c, l).1))
  {
    CvWaitKeeps(s, c, l);
    InsideSame(s.owner, h.inside, l, s.current);
  }

  lemma NewQueueInside(s: Sys, q: QId, box: nat, block: nat, h: Hist)
    requires WellFormed(s) && q !in s.queues && InsideKnown(s.owner, h.inside)
    ensures InsideKnown(NewQueue(s, q, box, block).0.owner, if q.LockQ? then h.inside[q.id := {}] else h.inside)
  {
  }

  lemma InsideKeeps(s: Sys, op: Op, h: Hist)
    requires MayStep(s, op) && HistInv(s, h)
    ensures InsideKnown(Next(s, op).0.owner, NewInside(h, s, op, Next(s, op).1))
  {
    match op
    case AcquireOp(l) => AcquireInside(s, l, h);
    case ReleaseOp(l) => ReleaseInside(s, l, h);
    case CvWaitOp(c, l) => CvWaitInside(s, c, l, h);
    case ResumeOp => ResumeInside(s, h);
    case NewQueueOp(q, box, block) => NewQueueInside(s, q, box, block, h);
    case _ => OwnersSame(s, op);
  }

  lemma CodesAndTargetsKeep(s: Sys, op: Op, h: Hist)
    requires MayStep(s, op) && HistInv(s, h) && Next(s, op).1 != ProcessEnds
    ensures CodesKnown(Next(s, op).0.threads, NewInc(h, op, Next(s, op).1), NewCodes(h, s, op))
    ensures TargetsKnown(Next(s, op).0.threads, NewInc(h, op, Next(s, op).1), NewTarget(h, s, op))
  {
    if op.CreateOp? {
      NoOrphans(s);
      CreateKnown(s, op.m, h);
    } else if op.ExitOp? {
      ExitKnown(s, op.code, h);
    } else if op.KillOp? {
      KillOrNot(s, op.t, h);
    } else if op.WaitOp? && MustWait(s, op.t) {
      WaitKnown(s, op.t, h);
    } else {
      CalmKnown(s, op, h);
    }
  }

  lemma KillOrNot(s: Sys, t: int, h: Hist)
    requires MayStep(s, KillOp(t)) && HistInv(s, h)
    ensures CodesKnown(Kill(s, t, false).0.threads, h.inc, NewCodes(h, s, KillOp(t)))
    ensures TargetsKnown(Kill(s, t, false).0.threads, h.inc, h.target)
  {
    if Alive(s.threads, t) && t != s.current {
      KillKnown(s, t, h);
    } else {
      KillKeeps(s, t);
    }
  }

  /** Every step keeps the history right. */
  lemma HistKeeps(s: Sys, op: Op, h: Hist)
    requires MayStep(s, op) && HistInv(s, h) && Next(s, op).1 != ProcessEnds
    ensures HistInv(Next(s, op).0, NextHist(h, s, op))
  {
    CodesAndTargetsKeep(s, op, h);
    InsideKeeps(s, op, h);
  }

  /** A code once recorded for an incarnation is not replaced by the next step. */
  lemma CodesStay(s: Sys, op: Op, h: Hist)
    requires WellFormed(s) && Enabled(s, op) && HistInv(s, h) && Alive(s.threads, s.current)
    ensures forall t, k :: (t, k) in h.codes ==>
              (t, k) in NextHist(h, s, op).codes && NextHist(h, s, op).codes[(t, k)] == h.codes[(t, k)]
  {
  }

  /** The exit-code hand-off: what thread_wait stores is the code of the incarnation that was alive when the
      caller blocked, or, when it need not block, of the latest incarnation of the slot. */
  lemma HandOff(s: Sys, op: Op, h: Hist, t: int, code: int)
    requires MayStep(s, op) && HistInv(s, h) && Next(s, op).1 == Collected(t, code)
    ensures op == ResumeOp ==>
              && Me(s).cont == InWait(t) && s.current in h.target && h.target[s.current].0 == t
              && h.target[s.current] in h.codes && code == h.codes[h.target[s.current]]
    ensures op != ResumeOp ==> op == WaitOp(t) && (t, h.inc[t]) in h.codes && code == h.codes[(t, h.inc[t])]
  {
    if op == ResumeOp {
      ResumeCollects(s, t, code);
      assert TargetKnown(h.inc, h.target, s.current, t);
    } else if op.WaitOp? {
      if MustWait(s, op.t) {
        WaitBlocks(s, op.t);
      }
    } else {
      OthersCollectNothing(s, op);
    }
  }

  lemma OthersCollectNothing(s: Sys, op: Op)
    requires MayStep(s, op) && op != ResumeOp && !op.WaitOp?
    ensures !Next(s, op).1.Collected?
  {
    match op
    case SleepOp(q) => if UserQ(q) in s.queues { SleepAtHome(s, UserQ(q), InSleep(q)); }
    case ExitOp(c) => ExitKeeps(s, c);
    case KillOp(u) => KillOut(s, u);
    case AcquireOp(l) => AcquireKeeps(s, l);
    case CvWaitOp(c, l) => CvWaitKeeps(s, c, l);
    case _ =>
  }

  lemma KillOut(s: Sys, t: int)
    requires MayStep(s, KillOp(t))
    ensures !Kill(s, t, false).1.Collected?
  {
  }

  lemma ResumeCollects(s: Sys, t: int, code: int)
    requires MayStep(s, ResumeOp) && Resume(s).1 == Collected(t, code)
    ensures Me(s).cont == InWait(t) && code == s.threads[t].exitCode && ValidTid(t) && !Alive(s.threads, t)
  {
    ResumeKeeps(s);
    var k := Me(s).cont;
    if k.InAcquire? || k.InCvWait? {
      AcquireKeeps(s, k.lock);
    }
  }

  /** Before anything has happened: the main thread is the one incarnation there is. */
  function FirstHist(): Hist {
    Hist(seq(MAX_THREADS, _ => 0), map[], map[], map[])
  }

  ghost function HistAfter(s: Sys, ops: seq<Op>, h: Hist): (h': Hist)
    requires |h.inc| == MAX_THREADS
    ensures |h'.inc| == MAX_THREADS
    decreases |ops|
  {
    if ops == [] || !WellFormed(s) || !Enabled(s, ops[0]) then h
    else HistAfter(Next(s, ops[0]).0, ops[1..], NextHist(h, s, ops[0]))
  }

  /** Over whole runs. */
  lemma {:induction false} RunHistory(s: Sys, ops: seq<Op>, s': Sys, h: Hist)
    requires SysInv(s) && Run(s, ops, s') && HistInv(s, h)
    ensures SysInv(s') && HistInv(s', HistAfter(s, ops, h))
    decreases |ops|
  {
    if ops != [] {
      StepKeeps(s, ops[0]);
      Freeable(s, ops[0]);
      HistKeeps(s, ops[0], h);
      RunHistory(Next(s, ops[0]).0, ops[1..], s', NextHist(h, s, ops[0]));
    }
  }

  /** A code once recorded for an incarnation is never replaced, however long the run. */
  lemma {:induction false} CodesAreFinal(s: Sys, ops: seq<Op>, s': Sys, h: Hist, t: int, k: nat)
    requires SysInv(s) && Run(s, ops, s') && HistInv(s, h) && (t, k) in h.codes
    ensures (t, k) in HistAfter(s, ops, h).codes && HistAfter(s, ops, h).codes[(t, k)] == h.codes[(t, k)]
    decreases |ops|
  {
    if ops != [] {
      StepKeeps(s, ops[0]);
      Freeable(s, ops[0]);
      HistKeeps(s, ops[0], h);
      CodesStay(s, ops[0], h);
      CodesAreFinal(Next(s, ops[0]).0, ops[1..], s', NextHist(h, s, ops[0]), t, k);
    }
  }

  lemma FirstHistGood(s: Sys)
    requires Initial(s)
    ensures HistInv(s, FirstHist())
  {
  }

  /** s is a state a program can reach from thread_init, and h what has happened on the way. */
  ghost predicate ReachableWith(s: Sys, h: Hist) {
    exists s0, ops :: Initial(s0) && Run(s0, ops, s) && h == HistAfter(s0, ops, FirstHist())
  }

  lemma ReachableWithGood(s: Sys, h: Hist)
    requires ReachableWith(s, h)
    ensures SysInv(s) && HistInv(s, h)
  {
    var s0, ops :| Initial(s0) && Run(s0, ops, s) && h == HistAfter(s0, ops, FirstHist());
    InitialGood(s0);
    FirstHistGood(s0);
    RunHistory(s0, ops, s, FirstHist());
  }

  /** Every reachable state has a history. */
  lemma HasHistory(s: Sys) returns (h: Hist)
    requires Reachable(s)
    ensures ReachableWith(s, h)
  {
    var s0, ops :| Initial(s0) && Run(s0, ops, s);
    h := HistAfter(s0, ops, FirstHist());
  }

  /** In every state a program can reach, the next thread_wait to return hands over the code with which the
      incarnation it waited for exited. */
  lemma RightCodes(s: Sys, h: Hist, op: Op, t: int, code: int)
    requires ReachableWith(s, h) && CanStep(s, op) && Next(s, op).1 == Collected(t, code)
    ensures op == ResumeOp ==> s.current in h.target && h.target[s.current].0 == t
                               && h.target[s.current] in h.codes && code == h.codes[h.target[s.current]]
    ensures op != ResumeOp ==> op == WaitOp(t) && (t, h.inc[t]) in h.codes && code == h.codes[(t, h.inc[t])]
  {
    ReachableWithGood(s, h);
    Freeable(s, op);
    HandOff(s, op, h, t, code);
  }

  /** In every state a program can reach, at most one thread is between lock_acquire and lock_release. */
  lemma MutualExclusion(s: Sys, h: Hist, l: nat, t: int, u: int)
    requires ReachableWith(s, h) && l in s.owner && l in h.inside
    requires t in h.inside[l] && u in h.inside[l]
    ensures t == u && s.owner[l] == t
  {
    WhoIsInside(s, h);
    OneInside(s.owner, h.inside, l, t, u);
  }

  lemma WhoIsInside(s: Sys, h: Hist)
    requires ReachableWith(s, h)
    ensures InsideKnown(s.owner, h.inside)
  {
    ReachableWithGood(s, h);
  }

  lemma OneInside(owner: map<nat, int>, inside: map<nat, set<int>>, l: nat, t: int, u: int)
    requires InsideKnown(owner, inside) && l in owner && l in inside && t in inside[l] && u in inside[l]
    ensures t == u && owner[l] == t
  {
  }
}
