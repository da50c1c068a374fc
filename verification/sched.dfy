/** thread.c as a step machine over values. One step is one interrupts-off segment: from an API call (or the
    resumption of a suspended one) to its return or to the next context switch. */
module Sched {
  import opened RingSpec
  import L = LedgerSpec

  const MAX_THREADS: nat := 1024
  const STACK: nat := 32768

  /** sizeof(struct wait_queue), sizeof(struct lock) and sizeof(struct cv). */
  const QUEUE_BLOCK: nat := 122892
  const LOCK_BLOCK: nat := 16
  const CV_BLOCK: nat := 8

  const ANY := -1
  const SELF := -2
  const INVALID := -3
  const NONE := -4
  const NOMORE := -5
  const KILLED := -9

  datatype State = Destroyed | Running | Sleep

  /** Wait queues by what they belong to: made by wait_queue_create, inside a lock, inside a cv. */
  datatype QId = UserQ(id: nat) | LockQ(id: nat) | CvQ(id: nat)

  /** What a thread does when it is switched to: go on in user code, or finish the call it is suspended in. */
  datatype Cont = User | InSleep(q: nat) | InWait(target: int) | InAcquire(lock: nat) | InCvWait(cv: nat, lock: nat)

  datatype Thread = Thread(state: State, stack: nat, waiter: int, exitCode: int, cont: Cont)

  /** The threads, the ready queue, the current thread, the wait queues, who holds which lock, malloc369's
      ledger, and the blocks in it that wait queues, locks and cvs are made of. */
  datatype Sys = Sys(
    threads: seq<Thread>,
    ready: seq<int>,
    current: int,
    queues: map<QId, seq<int>>,
    owner: map<nat, int>,
    ledger: L.Ledger,
    blocks: map<nat, QId>)

  /** How a segment ends: the call returns v; another thread runs (tid is what the suspended call of
      thread_yield or thread_sleep will return); thread_wait returns tid and stores an exit code; lock_acquire
      was told that nobody else can run and tries again; the process ends; a C assertion fails. */
  datatype Out = Ret(v: int) | Switch(tid: int) | Collected(tid: int, code: int) | Spin | ProcessEnds | Crash

  predicate ValidTid(t: int) {
    0 <= t < MAX_THREADS
  }

  /** The contents of a ring buffer of thread ids. */
  ghost predicate AllValid(q: seq<int>) {
    |q| <= CAPACITY && forall i :: 0 <= i < |q| ==> ValidTid(q[i])
  }

  /** The state is one the C code can index without leaving its arrays. */
  ghost predicate WellFormed(s: Sys) {
    && |s.threads| == MAX_THREADS
    && ValidTid(s.current)
    && AllValid(s.ready)
    && (forall q :: q in s.queues ==> AllValid(s.queues[q]))
    && (forall t :: ValidTid(t) ==> s.threads[t].waiter == -1 || ValidTid(s.threads[t].waiter))
    && (forall t :: ValidTid(t) && s.threads[t].cont.InWait? ==> ValidTid(s.threads[t].cont.target))
    && (forall l :: l in s.owner <==> LockQ(l) in s.queues)
  }

  function Me(s: Sys): Thread
    requires WellFormed(s)
  {
    s.threads[s.current]
  }

  function SetState(s: Sys, t: int, st: State): (r: Sys)
    requires WellFormed(s) && ValidTid(t)
    ensures WellFormed(r)
  {
    s.(threads := s.threads[t := s.threads[t].(state := st)])
  }

  function SetCont(s: Sys, t: int, k: Cont): (r: Sys)
    requires WellFormed(s) && ValidTid(t) && (k.InWait? ==> ValidTid(k.target))
    ensures WellFormed(r)
  {
    s.(threads := s.threads[t := s.threads[t].(cont := k)])
  }

  /** get_thread_any on the ready queue: drops stale entries and entries of the caller. */
  function PopAny(ready: seq<int>, threads: seq<Thread>, current: int): (r: (seq<int>, int))
    requires |threads| == MAX_THREADS && AllValid(ready)
    ensures AllValid(r.0)
    ensures r.1 == NONE || ValidTid(r.1)
  {
    if ready == [] then ([], NONE)
    else if threads[ready[0]].state == Running && ready[0] != current then (ready[1..], ready[0])
    else PopAny(ready[1..], threads, current)
  }

  /** The context switch at the end of thread_yield: k is what the caller will do when it runs again. */
  function SwitchTo(s: Sys, t: int, k: Cont): (r: Sys)
    requires WellFormed(s) && ValidTid(t) && (k.InWait? ==> ValidTid(k.target))
    ensures WellFormed(r)
  {
    SetCont(s, s.current, k).(ready := Push(s.ready, s.current), current := t)
  }

  function Yield(s: Sys, want: int, k: Cont): (r: (Sys, Out))
    requires WellFormed(s) && (k.InWait? ==> ValidTid(k.target))
    ensures WellFormed(r.0)
  {
    if want == SELF || want == s.current then (s, Ret(s.current))
    else if want == ANY then
      var (rest, t) := PopAny(s.ready, s.threads, s.current);
      if t == NONE then (s.(ready := rest), Ret(NONE))
      else (SwitchTo(s.(ready := rest), t, k), Switch(t))
    else if !ValidTid(want) || s.threads[want].state == Destroyed then (s, Ret(INVALID))
    else (SwitchTo(s, want, k), Switch(want))
  }

  /** The first free slot from n on, or MAX_THREADS. */
  function FreeSlot(threads: seq<Thread>, n: nat): (t: nat)
    requires |threads| == MAX_THREADS && n <= MAX_THREADS
    ensures n <= t <= MAX_THREADS
    ensures t < MAX_THREADS ==> threads[t].state == Destroyed
    ensures forall i :: n <= i < t ==> threads[i].state != Destroyed
    decreases MAX_THREADS - n
  {
    if n == MAX_THREADS || threads[n].state == Destroyed then n else FreeSlot(threads, n + 1)
  }

  /** thread_create, when malloc returns the address m for the stack. */
  function Create(s: Sys, m: nat): (r: (Sys, Out))
    requires WellFormed(s)
    ensures WellFormed(r.0)
  {
    var t := FreeSlot(s.threads, 1);
    if t == MAX_THREADS then (s, Ret(NOMORE))
    else
      var s1 := s.(ledger := L.Malloc(s.ledger, m, STACK));
      if m == 0 then (s1, ProcessEnds)
      else (s1.(threads := s.threads[t := Thread(Running, m, -1, KILLED, User)], ready := Push(s.ready, t)), Ret(t))
  }

  /** handle_death: Ret(0) when nobody waits for t, otherwise the switch to the waiter. */
  function HandleDeath(s: Sys, t: int): (r: (Sys, Out))
    requires WellFormed(s) && ValidTid(t)
    ensures WellFormed(r.0)
  {
    var s1 := SetState(s, t, Destroyed);
    var w := s.threads[t].waiter;
    if w == -1 then (s1, Ret(0))
    else if s1.threads[w].state == Running then (s1, Crash)
    else if s1.threads[w].state == Sleep then Yield(SetState(s1, w, Running), w, User)
    else (s1, Ret(0))
  }

  /** thread_kill; `admin` is administrative_mode, in which a thread may kill itself. */
  function Kill(s: Sys, t: int, admin: bool): (r: (Sys, Out))
    requires WellFormed(s)
    ensures WellFormed(r.0)
  {
    if t == s.current && !admin then (s, Ret(INVALID))
    else if !ValidTid(t) then (s, Ret(INVALID))
    else if s.threads[t].state == Destroyed then (s, Ret(INVALID))
    else
      var freed := L.Free(s.ledger, s.threads[t].stack);
      var s1 := if t != 0 then s.(ledger := freed.0) else s;
      if t != 0 && freed.1 == L.AssertionFailed then (s1, Crash)
      else
        var (s2, out) := HandleDeath(s1, t);
        (s2, if out == Ret(0) then Ret(t) else out)
  }

  /** thread_exit. A thread other than the main one goes through admin_mode; when nobody else can run the
      process ends. The main thread exiting with nobody else to run is outside the model: reported as Crash. */
  function Exit(s: Sys, code: int): (r: (Sys, Out))
    requires WellFormed(s)
    ensures WellFormed(r.0)
  {
    var s1 := s.(threads := s.threads[s.current := Me(s).(exitCode := code)]);
    if s.current == 0 then
      var (s2, out) := HandleDeath(s1, 0);
      if out != Ret(0) then (s2, out)
      else
        var (s3, out3) := Yield(s2, ANY, User);
        (s3, if out3 == Ret(NONE) then Crash else out3)
    else
      var (s2, out) := Kill(s1, s.current, true);
      if out != Ret(s.current) then (s2, out)
      else
        var (s3, out3) := Yield(s2, ANY, User);
        (s3, if out3 == Ret(NONE) then ProcessEnds else out3)
  }

  /** thread_sleep on an existing queue; k is the continuation of the caller. */
  function SleepOn(s: Sys, q: QId, k: Cont): (r: (Sys, Out))
    requires WellFormed(s) && q in s.queues && !k.InWait?
    ensures WellFormed(r.0)
  {
    var s1 := SetState(s, s.current, Sleep).(queues := s.queues[q := Push(s.queues[q], s.current)]);
    var (s2, out) := Yield(s1, ANY, k);
    if out != Ret(NONE) then (s2, out)
    else
      var ids := s2.queues[q];
      var rest := if ids == [] then [] else ids[..|ids| - 1];
      var s3 := SetState(s2, s2.current, Running).(queues := s2.queues[q := rest]);
      (s3, if ids == [] || ids[|ids| - 1] != s2.current then Crash else Ret(NONE))
  }

  datatype Wake = Wake(threads: seq<Thread>, queue: seq<int>, ready: seq<int>, count: nat, ok: bool)

  /** The loop of thread_wakeup; ok is false when its assertion fails. */
  function WakeLoop(threads: seq<Thread>, queue: seq<int>, ready: seq<int>, all: bool): (w: Wake)
    requires |threads| == MAX_THREADS && AllValid(queue) && AllValid(ready)
    ensures |w.threads| == MAX_THREADS && AllValid(w.queue) && AllValid(w.ready)
    ensures forall t :: ValidTid(t) ==>
              w.threads[t] == threads[t] || (threads[t].state == Sleep && w.threads[t] == threads[t].(state := Running))
    decreases |queue|
  {
    if queue == [] then Wake(threads, [], ready, 0, true)
    else
      var t := queue[0];
      match threads[t].state
      case Running => Wake(threads, queue[1..], ready, 0, false)
      case Destroyed => WakeLoop(threads, queue[1..], ready, all)
      case Sleep =>
        var threads' := threads[t := threads[t].(state := Running)];
        if !all then Wake(threads', queue[1..], Push(ready, t), 1, true)
        else
          var w := WakeLoop(threads', queue[1..], Push(ready, t), all);
          w.(count := w.count + 1)
  }

  /** thread_wakeup */
  function Wakeup(s: Sys, q: QId, all: bool): (r: (Sys, Out))
    requires WellFormed(s)
    ensures WellFormed(r.0)
  {
    if q !in s.queues then (s, Ret(0))
    else
      var w := WakeLoop(s.threads, s.queues[q], s.ready, all);
      (s.(threads := w.threads, ready := w.ready, queues := s.queues[q := w.queue]),
       if w.ok then Ret(w.count) else Crash)
  }

  /** thread_wait */
  function Wait(s: Sys, t: int): (r: (Sys, Out))
    requires WellFormed(s)
    ensures WellFormed(r.0)
  {
    if !ValidTid(t) then (s, Ret(INVALID))
    else if s.threads[t].state == Destroyed && s.threads[t].exitCode == KILLED then (s, Ret(INVALID))
    else if t == s.current then (s, Ret(INVALID))
    else if s.threads[t].state == Destroyed then (s, Collected(t, s.threads[t].exitCode))
    else if s.threads[t].waiter != -1 then (s, Ret(INVALID))
    else
      var s1 := SetState(s.(threads := s.threads[t := s.threads[t].(waiter := s.current)]), s.current, Sleep);
      var (s2, out) := Yield(s1, ANY, InWait(t));
      (s2, if out == Ret(NONE) then Collected(t, s2.threads[t].exitCode) else out)
  }

  /** The loop of lock_acquire, entered by the call and again after every wakeup. */
  function AcquireLoop(s: Sys, l: nat): (r: (Sys, Out))
    requires WellFormed(s) && l in s.owner
    ensures WellFormed(r.0)
  {
    if s.owner[l] == -1 then (SetCont(s, s.current, User).(owner := s.owner[l := s.current]), Ret(0))
    else
      var (s1, out) := SleepOn(s, LockQ(l), InAcquire(l));
      if out == Ret(NONE) then (SetCont(s1, s1.current, InAcquire(l)), Spin) else (s1, out)
  }

  /** lock_release */
  function Release(s: Sys, l: nat): (r: (Sys, Out))
    requires WellFormed(s) && l in s.owner
    ensures WellFormed(r.0)
  {
    if s.owner[l] != s.current then (s, Crash)
    else Wakeup(s.(owner := s.owner[l := -1]), LockQ(l), true)
  }

  /** cv_wait */
  function CvWait(s: Sys, c: nat, l: nat): (r: (Sys, Out))
    requires WellFormed(s) && l in s.owner && CvQ(c) in s.queues
    ensures WellFormed(r.0)
  {
    if s.owner[l] != s.current then (s, Crash)
    else
      var (s1, out1) := Release(s, l);
      if out1 == Crash then (s1, Crash)
      else CvSleep(s1, c, l)
  }

  /** The second half of cv_wait: sleeping on the cv or, when nobody else can run, taking the lock back. */
  function CvSleep(s: Sys, c: nat, l: nat): (r: (Sys, Out))
    requires WellFormed(s) && l in s.owner && CvQ(c) in s.queues
    ensures WellFormed(r.0)
  {
    var (s2, out2) := SleepOn(s, CvQ(c), InCvWait(c, l));
    if out2 == Ret(NONE) then AcquireLoop(s2, l) else (s2, out2)
  }

  /** cv_signal (all = false) and cv_broadcast (all = true) */
  function CvWake(s: Sys, c: nat, l: nat, all: bool): (r: (Sys, Out))
    requires WellFormed(s) && l in s.owner && CvQ(c) in s.queues
    ensures WellFormed(r.0)
  {
    if s.owner[l] != s.current then (s, Crash)
    else
      var (s1, out) := Wakeup(s, CvQ(c), all);
      (s1, if out == Crash then Crash else Ret(0))
  }

  datatype Op =
    | CreateOp(m: nat) | YieldOp(want: int) | ExitOp(code: int) | KillOp(t: int)
    | SleepOp(q: nat) | WakeupOp(q: nat, all: bool) | WaitOp(t: int)
    | AcquireOp(lock: nat) | ReleaseOp(lock: nat)
    | CvWaitOp(cv: nat, lock: nat) | CvWakeOp(cv: nat, lock: nat, all: bool)
    | NewQueueOp(handle: QId, box: nat, block: nat)
    | ResumeOp

  /** Finishing the call the current thread was suspended in. */
  function Resume(s: Sys): (r: (Sys, Out))
    requires WellFormed(s) && NamesExist(s, Me(s).cont)
    ensures WellFormed(r.0)
  {
    match Me(s).cont
    case User => (s, Ret(0))
    case InSleep(_) => (SetCont(s, s.current, User), Ret(0))
    case InWait(t) => (SetCont(s, s.current, User), Collected(t, s.threads[t].exitCode))
    case InAcquire(l) => AcquireLoop(s, l)
    case InCvWait(_, l) => AcquireLoop(s, l)
  }

  /** The lock and cv a continuation refers to have not been destroyed. */
  predicate NamesExist(s: Sys, k: Cont) {
    match k
    case User => true
    case InSleep(q) => UserQ(q) in s.queues
    case InWait(_) => true
    case InAcquire(l) => l in s.owner
    case InCvWait(c, l) => l in s.owner && CvQ(c) in s.queues
  }

  /** The handles an operation is given are ones the library made (a NULL queue is simply not in the map). */
  predicate HandlesExist(s: Sys, op: Op) {
    match op
    case AcquireOp(l) => l in s.owner
    case ReleaseOp(l) => l in s.owner
    case CvWaitOp(c, l) => l in s.owner && CvQ(c) in s.queues
    case CvWakeOp(c, l, _) => l in s.owner && CvQ(c) in s.queues
    case NewQueueOp(q, _, _) => q !in s.queues
    case _ => true
  }

  /** wait_queue_create, lock_create and cv_create, when malloc returns the address box for the lock or cv and
      block for its wait queue. */
  function NewQueue(s: Sys, q: QId, box: nat, block: nat): (r: (Sys, Out))
    requires WellFormed(s) && q !in s.queues
    ensures WellFormed(r.0)
  {
    var led := if q.UserQ? then s.ledger else L.Malloc(s.ledger, box, if q.LockQ? then LOCK_BLOCK else CV_BLOCK);
    if !q.UserQ? && box == 0 then (s.(ledger := led), ProcessEnds)
    else if block == 0 then (s.(ledger := L.Malloc(led, block, QUEUE_BLOCK)), ProcessEnds)
    else
      (s.(ledger := L.Malloc(led, block, QUEUE_BLOCK),
          queues := s.queues[q := []],
          owner := if q.LockQ? then s.owner[q.id := -1] else s.owner,
          blocks := if q.UserQ? then s.blocks[block := q] else s.blocks[box := q][block := q]),
       Ret(0))
  }

  /** A thread in user code may call anything; a thread that was switched to inside a call must finish it
      first, since interrupts are off. A timer interrupt is YieldOp(ANY). */
  ghost predicate Enabled(s: Sys, op: Op)
    requires WellFormed(s)
  {
    && (op == ResumeOp <==> Me(s).cont != User)
    && (op == ResumeOp ==> NamesExist(s, Me(s).cont))
    && HandlesExist(s, op)
  }

  function Next(s: Sys, op: Op): (r: (Sys, Out))
    requires WellFormed(s) && Enabled(s, op)
    ensures WellFormed(r.0)
  {
    match op
    case CreateOp(m) => Create(s, m)
    case YieldOp(want) => Yield(s, want, User)
    case ExitOp(code) => Exit(s, code)
    case KillOp(t) => Kill(s, t, false)
    case SleepOp(q) => if UserQ(q) in s.queues then SleepOn(s, UserQ(q), InSleep(q)) else (s, Ret(INVALID))
    case WakeupOp(q, all) => Wakeup(s, UserQ(q), all)
    case WaitOp(t) => Wait(s, t)
    case AcquireOp(l) => AcquireLoop(s, l)
    case ReleaseOp(l) => Release(s, l)
    case CvWaitOp(c, l) => CvWait(s, c, l)
    case CvWakeOp(c, l, all) => CvWake(s, c, l, all)
    case NewQueueOp(q, box, block) => NewQueue(s, q, box, block)
    case ResumeOp => Resume(s)
  }
}
