/** The invariant of the scheduler: where every sleeping thread is, and that no runnable thread is lost. */
module SchedInv {
  import opened RingSpec
  import opened Sched

  type Table = ts: seq<Thread> | |ts| == MAX_THREADS
    witness seq(MAX_THREADS, _ => Thread(Destroyed, 0, -1, KILLED, User))

  type Queues = map<QId, seq<int>>

  ghost predicate Alive(ts: Table, t: int) {
    ValidTid(t) && ts[t].state != Destroyed
  }

  ghost predicate IsRunning(ts: Table, t: int) {
    ValidTid(t) && ts[t].state == Running
  }

  ghost predicate IsAsleep(ts: Table, t: int) {
    ValidTid(t) && ts[t].state == Sleep
  }

  /** t is named by wait queue q. */
  ghost predicate InQueue(qs: Queues, q: QId, t: int) {
    q in qs && t in qs[q]
  }

  /** t is named by the waiter field of the live thread u. */
  ghost predicate WaitsFor(ts: Table, t: int, u: int) {
    Alive(ts, u) && ts[u].waiter == t
  }

  ghost predicate NoDup(q: seq<int>) {
    forall i, j :: 0 <= i < j < |q| ==> q[i] != q[j]
  }

  /** No thread is named twice by the wait queues, and none they name is runnable. */
  ghost predicate QueuesOk(qs: Queues, ts: Table) {
    && (forall q :: q in qs ==> NoDup(qs[q]))
    && (forall q, r, t :: InQueue(qs, q, t) && InQueue(qs, r, t) ==> q == r)
    && (forall q, t :: InQueue(qs, q, t) ==> ValidTid(t) && !IsRunning(ts, t))
  }

  /** No thread is named by two waiter fields of live threads, nor by one and a wait queue; none is runnable. */
  ghost predicate WaitersOk(qs: Queues, ts: Table) {
    && (forall t, u, v :: ValidTid(t) && WaitsFor(ts, t, u) && WaitsFor(ts, t, v) ==> u == v)
    && (forall t, u :: ValidTid(t) && WaitsFor(ts, t, u) ==> !IsRunning(ts, t))
    && (forall t, u, q :: ValidTid(t) && WaitsFor(ts, t, u) ==> !InQueue(qs, q, t))
  }

  /** A free lock has an empty queue; a held one has a live holder. */
  ghost predicate LocksOk(qs: Queues, ts: Table, owner: map<nat, int>) {
    && (forall l :: l in owner && owner[l] == -1 ==> LockQ(l) in qs && qs[LockQ(l)] == [])
    && (forall l :: l in owner && owner[l] != -1 ==> Alive(ts, owner[l]))
  }

  /** A sleeping thread with continuation k is where k says. */
  ghost predicate Home(qs: Queues, ts: Table, t: int, k: Cont) {
    match k
    case User => false
    case InSleep(q) => InQueue(qs, UserQ(q), t)
    case InWait(u) => WaitsFor(ts, t, u)
    case InAcquire(l) => InQueue(qs, LockQ(l), t)
    case InCvWait(c, _) => InQueue(qs, CvQ(c), t)
  }

  /** A thread with continuation k is all right: asleep at home, or runnable and in the ready queue. */
  ghost predicate ThreadOk(qs: Queues, ts: Table, ready: seq<int>, t: int, k: Cont) {
    && (IsAsleep(ts, t) ==> Home(qs, ts, t, k))
    && (IsRunning(ts, t) ==> t in ready && !k.InWait?)
  }

  ghost predicate NamesOk(s: Sys)
    requires WellFormed(s)
  {
    forall t :: Alive(s.threads, t) ==> NamesExist(s, s.threads[t].cont)
  }

  /** A created thread carries the code of a killed one until it exits. */
  ghost predicate CodesOk(ts: Table) {
    forall t :: Alive(ts, t) && t != 0 ==> ts[t].exitCode == KILLED
  }

  /** Everything but the threads of `ex`, which are on their way in or out. */
  ghost predicate Core(s: Sys, ex: set<int>) {
    && WellFormed(s)
    && QueuesOk(s.queues, s.threads)
    && WaitersOk(s.queues, s.threads)
    && LocksOk(s.queues, s.threads, s.owner)
    && NamesOk(s)
    && CodesOk(s.threads)
    && (forall t :: ValidTid(t) && t !in ex ==> ThreadOk(s.queues, s.threads, s.ready, t, s.threads[t].cont))
  }

  /** The invariant of every reachable state. */
  ghost predicate Inv(s: Sys) {
    && Core(s, {s.current})
    && IsRunning(s.threads, s.current)
    && (Me(s).cont.InWait? ==> !Alive(s.threads, Me(s).cont.target))
  }

  /** Nobody but the current thread can run. */
  ghost predicate Alone(s: Sys)
    requires WellFormed(s)
  {
    forall t :: IsRunning(s.threads, t) ==> t == s.current
  }

  /** Nobody but t has come or gone; nobody else's stack or exit code has changed. */
  ghost predicate SameBut(ts: Table, ts': Table, t: int) {
    forall x :: ValidTid(x) && x != t ==>
      Alive(ts', x) == Alive(ts, x) && ts'[x].stack == ts[x].stack && ts'[x].exitCode == ts[x].exitCode
  }

  ghost predicate Same(ts: Table, ts': Table) {
    forall x :: ValidTid(x) ==>
      Alive(ts', x) == Alive(ts, x) && ts'[x].stack == ts[x].stack && ts'[x].exitCode == ts[x].exitCode
  }

  /** Nobody but c has a new continuation. */
  ghost predicate ContsBut(ts: Table, ts': Table, c: int) {
    forall x :: ValidTid(x) && x != c ==> ts'[x].cont == ts[x].cont
  }

  lemma NamesFrame(s: Sys, s': Sys)
    requires WellFormed(s) && WellFormed(s') && NamesOk(s)
    requires s.queues.Keys <= s'.queues.Keys && s.owner.Keys <= s'.owner.Keys
    requires forall t :: Alive(s'.threads, t) ==> Alive(s.threads, t) && s'.threads[t].cont == s.threads[t].cont
    ensures NamesOk(s')
  {
    forall t | Alive(s'.threads, t)
      ensures NamesExist(s', s'.threads[t].cont)
    {
      assert NamesExist(s, s.threads[t].cont);
    }
  }

  /** What get_thread_any does: it drops k entries that are not runnable or are the caller's, and takes the next. */
  lemma {:induction false} PopAnyFacts(ready: seq<int>, threads: seq<Thread>, current: int)
    returns (k: nat)
    requires |threads| == MAX_THREADS && AllValid(ready)
    ensures var (rest, t) := PopAny(ready, threads, current);
            && k <= |ready|
            && (forall i :: 0 <= i < k ==> threads[ready[i]].state != Running || ready[i] == current)
            && (t == NONE ==> k == |ready| && rest == [])
            && (t != NONE ==> k < |ready| && t == ready[k] && rest == ready[k + 1..])
            && (t != NONE ==> threads[t].state == Running && t != current)
  {
    if ready == [] {
      k := 0;
    } else if threads[ready[0]].state == Running && ready[0] != current {
      k := 0;
    } else {
      var j := PopAnyFacts(ready[1..], threads, current);
      k := j + 1;
      forall i | 0 <= i < k
        ensures threads[ready[i]].state != Running || ready[i] == current
      {
        assert i == 0 || ready[i] == ready[1..][i - 1];
      }
    }
  }

  /** get_thread_any finds nobody exactly when the current thread is alone. */
  lemma PopAnyComplete(s: Sys)
    requires Core(s, {s.current})
    ensures var (rest, t) := PopAny(s.ready, s.threads, s.current);
            && (t == NONE <==> Alone(s))
            && (t == NONE ==> rest == [] && Core(s.(ready := rest), {s.current}))
            && (t != NONE ==> |rest| < |s.ready| && IsRunning(s.threads, t) && t != s.current
                              && Core(s.(ready := rest), {s.current, t}))
  {
    var k := PopAnyFacts(s.ready, s.threads, s.current);
    var (rest, t) := PopAny(s.ready, s.threads, s.current);
    forall x | IsRunning(s.threads, x) && x != s.current && x != t
      ensures t != NONE && x in rest
    {
      assert ThreadOk(s.queues, s.threads, s.ready, x, s.threads[x].cont);
      var i :| 0 <= i < |s.ready| && s.ready[i] == x;
      assert rest[i - k - 1] == x;
    }
    assert t != NONE ==> IsRunning(s.threads, t);
    ReadyFrame(s, rest, if t == NONE then {s.current} else {s.current, t});
  }

  /** Changing only the ready queue. */
  lemma ReadyFrame(s: Sys, ready: seq<int>, ex: set<int>)
    requires Core(s, {s.current}) && s.current in ex && AllValid(ready)
    requires forall x :: IsRunning(s.threads, x) && x !in ex ==> x in ready
    ensures Core(s.(ready := ready), ex)
  {
    forall t | ValidTid(t) && t !in ex
      ensures ThreadOk(s.queues, s.threads, ready, t, s.threads[t].cont)
    {
      assert ThreadOk(s.queues, s.threads, s.ready, t, s.threads[t].cont);
    }
  }

  /** Two thread tables that differ in continuations only. */
  ghost predicate SameButConts(ts: Table, ts': Table) {
    forall t :: ValidTid(t) ==> ts'[t] == ts[t].(cont := ts'[t].cont)
  }

  lemma ContsDoNotMatter(ts: Table, ts': Table)
    requires SameButConts(ts, ts')
    ensures forall t :: Alive(ts', t) == Alive(ts, t)
    ensures forall t :: IsRunning(ts', t) == IsRunning(ts, t)
    ensures forall t :: IsAsleep(ts', t) == IsAsleep(ts, t)
    ensures forall t, u :: WaitsFor(ts', t, u) == WaitsFor(ts, t, u)
  {
  }

  /** t is runnable, but get_thread_any will not find it. */
  ghost predicate Lost(s: Sys, t: int)
    requires WellFormed(s)
  {
    IsRunning(s.threads, t) && t != s.current && t !in s.ready
  }

  lemma LostBreaks(s: Sys, t: int)
    requires WellFormed(s) && Lost(s, t)
    ensures !Core(s, {s.current}) && !Inv(s)
  {
    assert !ThreadOk(s.queues, s.threads, s.ready, t, s.threads[t].cont);
  }

  /** A push of t on the ready queue finds room, or t is there anyway. */
  ghost predicate Room(s: Sys, t: int) {
    |s.ready| < CAPACITY || t in s.ready
  }

  /** The queue after pushing ids one after the other; those that find no room are lost. */
  ghost function PushAll(q: seq<int>, ids: seq<int>): (r: seq<int>)
    requires |q| <= CAPACITY
    ensures |q| <= |r| <= CAPACITY && |r| <= |q| + |ids|
  {
    q + ids[..if |q| + |ids| <= CAPACITY then |ids| else CAPACITY - |q|]
  }

  /** Whoever is among ids finds room when they are pushed, or is in the queue anyway. */
  ghost predicate Placed(q: seq<int>, ids: seq<int>)
    requires |q| <= CAPACITY
  {
    forall t :: t in ids ==> t in PushAll(q, ids)
  }

  lemma PushFirst(q: seq<int>, t: int, ids: seq<int>)
    requires |q| <= CAPACITY
    ensures PushAll(q, [t] + ids) == PushAll(Push(q, t), ids)
    ensures Placed(q, [t] + ids) ==> (|q| < CAPACITY || t in q) && Placed(Push(q, t), ids)
  {
    if |q| < CAPACITY {
      var n := if |q| + 1 + |ids| <= CAPACITY then |ids| else CAPACITY - |q| - 1;
      assert ([t] + ids)[..n + 1] == [t] + ids[..n];
      assert q + ([t] + ids[..n]) == q + [t] + ids[..n];
    } else {
      assert PushAll(q, [t] + ids) == q;
    }
    assert t in [t] + ids;
    assert forall x :: x in ids ==> x in [t] + ids;
  }

  lemma RoomForAll(q: seq<int>, ids: seq<int>)
    requires |q| + |ids| <= CAPACITY
    ensures PushAll(q, ids) == q + ids && Placed(q, ids)
  {
    assert ids[..|ids|] == ids;
  }

  lemma PushedIn(q: seq<int>, t: int)
    requires |q| < CAPACITY || t in q
    ensures t in Push(q, t)
  {
    assert |q| < CAPACITY ==> Push(q, t)[|q|] == t;
  }

  /** The switch: the caller is left all right for its continuation k, and t runs. */
  lemma SwitchKeeps(s: Sys, t: int, k: Cont)
    requires Core(s, {s.current, t}) && IsRunning(s.threads, t) && t != s.current
    requires IsRunning(s.threads, s.current) ==> Room(s, s.current)
    requires Alive(s.threads, s.current) ==> NamesExist(s, k)
    requires IsAsleep(s.threads, s.current) ==> Home(s.queues, s.threads, s.current, k)
    requires k.InWait? ==> ValidTid(k.target) && IsAsleep(s.threads, s.current)
    requires s.threads[t].cont.InWait? ==> !Alive(s.threads, s.threads[t].cont.target)
    ensures Inv(SwitchTo(s, t, k))
  {
    ContsDoNotMatter(s.threads, SwitchTo(s, t, k).threads);
    SwitchThreads(s, t, k);
    SwitchNames(s, t, k);
  }

  lemma SwitchThreads(s: Sys, t: int, k: Cont)
    requires WellFormed(s) && ValidTid(t) && (IsRunning(s.threads, s.current) ==> Room(s, s.current))
    requires forall x :: ValidTid(x) && x != t && x != s.current ==>
               ThreadOk(s.queues, s.threads, s.ready, x, s.threads[x].cont)
    requires IsAsleep(s.threads, s.current) ==> Home(s.queues, s.threads, s.current, k)
    requires k.InWait? ==> ValidTid(k.target) && IsAsleep(s.threads, s.current)
    ensures var s' := SwitchTo(s, t, k);
            forall x :: ValidTid(x) && x != t ==> ThreadOk(s'.queues, s'.threads, s'.ready, x, s'.threads[x].cont)
  {
    var s' := SwitchTo(s, t, k);
    ContsDoNotMatter(s.threads, s'.threads);
    forall x | ValidTid(x) && x != t
      ensures ThreadOk(s'.queues, s'.threads, s'.ready, x, s'.threads[x].cont)
    {
      if x == s.current {
        if IsRunning(s.threads, x) {
          PushedIn(s.ready, x);
        }
      } else {
        assert ThreadOk(s.queues, s.threads, s.ready, x, s.threads[x].cont);
        assert s.threads[x].cont == s'.threads[x].cont;
      }
    }
  }

  lemma SwitchNames(s: Sys, t: int, k: Cont)
    requires WellFormed(s) && ValidTid(t) && NamesOk(s) && (Alive(s.threads, s.current) ==> NamesExist(s, k))
    requires k.InWait? ==> ValidTid(k.target)
    ensures NamesOk(SwitchTo(s, t, k))
  {
    var s' := SwitchTo(s, t, k);
    forall x | Alive(s'.threads, x)
      ensures NamesExist(s', s'.threads[x].cont)
    {
      assert Alive(s.threads, x);
      assert x == s.current || s'.threads[x].cont == s.threads[x].cont;
    }
  }

  /** thread_yield(THREAD_ANY), as the last thing a segment does: it says THREAD_NONE exactly when nobody else
      can run, and otherwise hands over to a thread that can. */
  lemma YieldAnyKeeps(s: Sys, k: Cont)
    requires Core(s, {s.current})
    requires Alive(s.threads, s.current) ==> NamesExist(s, k)
    requires IsAsleep(s.threads, s.current) ==> Home(s.queues, s.threads, s.current, k)
    requires k.InWait? ==> ValidTid(k.target) && IsAsleep(s.threads, s.current)
    ensures var (s', out) := Yield(s, ANY, k);
            && (Alone(s) ==> out == Ret(NONE) && s' == s.(ready := []))
            && (!Alone(s) ==> |s'.ready| <= |s.ready|)
            && (!Alone(s) ==> out.Switch?
                              && s' == SwitchTo(s.(ready := PopAny(s.ready, s.threads, s.current).0), out.tid, k)
                              && out.tid != s.current && IsRunning(s.threads, out.tid) && Inv(s'))
  {
    PopAnyComplete(s);
    var (rest, t) := PopAny(s.ready, s.threads, s.current);
    if t != NONE {
      assert ThreadOk(s.queues, s.threads, s.ready, t, s.threads[t].cont);
      SwitchKeeps(s.(ready := rest), t, k);
    }
  }

  /** Two thread tables that differ in the state of thread t only, which is not runnable in the second. */
  lemma Stopped(ts: Table, ts': Table, t: int, st: State)
    requires ValidTid(t) && ts' == ts[t := ts[t].(state := st)] && st == Sleep && ts[t].state == Running
    ensures forall x :: Alive(ts', x) == Alive(ts, x)
    ensures forall x :: IsRunning(ts', x) == (IsRunning(ts, x) && x != t)
    ensures forall x :: IsAsleep(ts', x) == (IsAsleep(ts, x) || x == t)
    ensures forall x, u :: WaitsFor(ts', x, u) == WaitsFor(ts, x, u)
  {
  }

  lemma {:induction false} NoDupSize(q: seq<int>)
    requires NoDup(q) && forall i :: 0 <= i < |q| ==> ValidTid(q[i])
    ensures |q| <= MAX_THREADS
  {
    Bounded(q, MAX_THREADS);
  }

  lemma {:induction false} Bounded(q: seq<int>, n: nat)
    requires NoDup(q) && forall i :: 0 <= i < |q| ==> 0 <= q[i] < n
    ensures |q| <= n
    decreases n
  {
    if q != [] {
      assert 0 <= q[0] < n;
      if i :| 0 <= i < |q| && q[i] == n - 1 {
        Bounded(q[..i] + q[i + 1..], n - 1);
      } else {
        Bounded(q, n - 1);
      }
    }
  }

  /** What thread_sleep does before it yields. */
  function Enqueued(s: Sys, q: QId): (r: Sys)
    requires WellFormed(s) && q in s.queues
    ensures WellFormed(r)
  {
    SetState(s, s.current, Sleep).(queues := s.queues[q := Push(s.queues[q], s.current)])
  }

  /** Putting the current thread to sleep on a wait queue. No push on a wait queue is ever dropped, because
      the queue never names a thread twice. */
  lemma EnqueueKeeps(s: Sys, q: QId)
    requires Inv(s) && q in s.queues
    requires q.LockQ? ==> q.id in s.owner && s.owner[q.id] != -1
    ensures Core(Enqueued(s, q), {s.current})
    ensures Enqueued(s, q).queues[q] == s.queues[q] + [s.current]
    ensures |s.queues[q]| < MAX_THREADS
  {
    var s' := Enqueued(s, q);
    var c, qs, qs' := s.current, s.queues, s'.queues;
    assert !InQueue(qs, q, c);
    NoDupSize(qs[q] + [c]);
    Stopped(s.threads, s'.threads, c, Sleep);
    assert forall r, t :: InQueue(qs', r, t) == (InQueue(qs, r, t) || (r == q && t == c));
    assert forall u :: !WaitsFor(s.threads, c, u);
    forall t | ValidTid(t) && t != c
      ensures ThreadOk(qs', s'.threads, s'.ready, t, s'.threads[t].cont)
    {
      assert ThreadOk(qs, s.threads, s.ready, t, s.threads[t].cont);
    }
  }
}
