/** The allocation ledger of malloc369.c as values: every address ever handed out with its size and
    the FREED bit, beside four running counters. */
module LedgerSpec {

  const FREED: nat := 0x8000_0000_0000_0000

  datatype Ledger = Ledger(
    entries: map<nat, nat>,
    numMallocs: int,
    numFrees: int,
    bytesMalloced: int,
    bytesFreed: int)

  const EMPTY_LEDGER := Ledger(map[], 0, 0, 0, 0)

  /** What free369 did. */
  datatype FreeOutcome = FreedNull | NotMapped | DoubleFree | Freed | AssertionFailed

  /** The addresses of blocks handed out and not freed since. */
  ghost function Live(entries: map<nat, nat>): set<nat> {
    set p | p in entries && entries[p] < FREED
  }

  /** malloc369 when the C library returns the address m (0 for NULL, when the program exits). */
  function Malloc(led: Ledger, m: nat, size: nat): Ledger {
    led.(numMallocs := led.numMallocs + 1,
         bytesMalloced := led.bytesMalloced + size,
         entries := if m == 0 then led.entries else led.entries[m := size])
  }

  function Free(led: Ledger, p: nat): (r: (Ledger, FreeOutcome)) {
    if p == 0 then (led, FreedNull)
    else if p !in led.entries then (led, NotMapped)
    else
      var size := led.entries[p];
      if size >= FREED then (led, DoubleFree)
      else if size == 0 || led.numMallocs - led.numFrees <= 0 then (led, AssertionFailed)
      else if led.bytesMalloced - led.bytesFreed < size then
        (led.(numFrees := led.numFrees + 1), AssertionFailed)
      else
        (led.(numFrees := led.numFrees + 1,
              bytesFreed := led.bytesFreed + size,
              entries := led.entries[p := size + FREED]),
         Freed)
  }

  /** get_current_num_mallocs and get_current_bytes_malloced */
  function CurrentMallocs(led: Ledger): int { led.numMallocs - led.numFrees }
  function CurrentBytes(led: Ledger): int { led.bytesMalloced - led.bytesFreed }

  /** Nothing recorded and nothing outstanding, as init_csc369_malloc leaves it. */
  predicate IsEmpty(led: Ledger) {
    |led.entries| == 0 && CurrentMallocs(led) == 0 && CurrentBytes(led) == 0
  }

  predicate IsLeakFree(led: Ledger, mallocTolerance: int, byteTolerance: int) {
    !(CurrentBytes(led) > byteTolerance || CurrentMallocs(led) > mallocTolerance)
  }

  /** The sum of the sizes of the blocks in s. */
  ghost function Sum(entries: map<nat, nat>, s: set<nat>): (n: nat)
    requires s <= entries.Keys
  {
    if s == {} then 0 else entries[Pick(s)] + Sum(entries, s - {Pick(s)})
  }

  ghost function Pick(s: set<nat>): (p: nat)
    requires s != {}
    ensures p in s
  {
    var p :| p in s;
    p
  }

  lemma {:induction false} SumRemove(entries: map<nat, nat>, s: set<nat>, p: nat)
    requires s <= entries.Keys && p in s
    ensures Sum(entries, s) == entries[p] + Sum(entries, s - {p})
    decreases s
  {
    var q := Pick(s);
    if q != p {
      SumRemove(entries, s - {q}, p);
      SumRemove(entries, s - {p}, q);
      assert s - {q} - {p} == s - {p} - {q};
    }
  }

  lemma {:induction false} SumFrame(entries: map<nat, nat>, entries': map<nat, nat>, s: set<nat>)
    requires s <= entries.Keys && s <= entries'.Keys
    requires forall p :: p in s ==> entries'[p] == entries[p]
    ensures Sum(entries', s) == Sum(entries, s)
    decreases s
  {
    if s != {} {
      SumFrame(entries, entries', s - {Pick(s)});
    }
  }

  /** Conservation: the counters agree with the map. */
  ghost predicate Conserved(led: Ledger) {
    && CurrentMallocs(led) == |Live(led.entries)|
    && CurrentBytes(led) == Sum(led.entries, Live(led.entries))
  }

  /** malloc369 keeps conservation exactly when the size leaves the FREED bit clear and the address is
      not one of a block still in use. */
  lemma MallocConserves(led: Ledger, m: nat, size: nat)
    requires Conserved(led) && m != 0
    ensures Conserved(Malloc(led, m, size)) <==> size < FREED && m !in Live(led.entries)
    ensures size < FREED ==> Live(Malloc(led, m, size).entries) == Live(led.entries) + {m}
  {
    var live, led' := Live(led.entries), Malloc(led, m, size);
    var live' := Live(led'.entries);
    if size < FREED {
      assert live' == live + {m};
      if m !in live {
        SumRemove(led'.entries, live', m);
        assert live' - {m} == live;
        SumFrame(led.entries, led'.entries, live);
      }
    } else {
      assert live' == live - {m};
    }
  }

  /** free369 keeps conservation. It recognises NULL, addresses never handed out and blocks already freed, and its
      assertions fail exactly on a block that was allocated with size 0. */
  lemma FreeConserves(led: Ledger, p: nat)
    requires Conserved(led)
    ensures Free(led, p).1 == FreedNull <==> p == 0
    ensures Free(led, p).1 == NotMapped <==> p != 0 && p !in led.entries
    ensures Free(led, p).1 == DoubleFree <==> p != 0 && p in led.entries && p !in Live(led.entries)
    ensures Free(led, p).1 == AssertionFailed <==> p != 0 && p in led.entries && led.entries[p] == 0
    ensures Free(led, p).1 != AssertionFailed ==> Conserved(Free(led, p).0)
    ensures Free(led, p).1 == Freed ==>
              Live(Free(led, p).0.entries) == Live(led.entries) - {p} && p in Live(led.entries)
    ensures Free(led, p).1 == Freed <==> p != 0 && p in Live(led.entries) && led.entries[p] != 0
    ensures Free(led, p).1 != Freed && Free(led, p).1 != AssertionFailed ==> Free(led, p).0 == led
  {
    var live := Live(led.entries);
    if p != 0 && p in live {
      SumRemove(led.entries, live, p);
      if led.entries[p] != 0 {
        var led' := Free(led, p).0;
        assert Live(led'.entries) == live - {p};
        SumFrame(led.entries, led'.entries, live - {p});
      }
    }
  }

  datatype Op = MallocOp(m: nat, size: nat) | FreeOp(p: nat)

  function Step(led: Ledger, op: Op): Ledger {
    match op
    case MallocOp(m, size) => Malloc(led, m, size)
    case FreeOp(p) => Free(led, p).0
  }

  /** What a run may ask for: sizes below 2^63 and addresses the C library may return. Any address may be freed at
      any time, but a block of size 0 that is in use may not. */
  ghost predicate Allowed(led: Ledger, op: Op) {
    match op
    case MallocOp(m, size) => size < FREED && m != 0 && m !in Live(led.entries)
    case FreeOp(p) => p != 0 && p in Live(led.entries) ==> led.entries[p] > 0
  }

  ghost predicate Run(led: Ledger, ops: seq<Op>, led': Ledger)
    decreases |ops|
  {
    if ops == [] then led' == led
    else Allowed(led, ops[0]) && Run(Step(led, ops[0]), ops[1..], led')
  }

  lemma StepConserves(led: Ledger, op: Op)
    requires Conserved(led) && Allowed(led, op)
    ensures Conserved(Step(led, op))
    ensures op.FreeOp? ==> Free(led, op.p).1 != AssertionFailed
  {
    match op {
      case MallocOp(m, size) => MallocConserves(led, m, size);
      case FreeOp(p) => FreeConserves(led, p);
    }
  }

  /** A ledger none of whose live blocks has size 0: whatever is freed, no assertion fails. */
  ghost predicate Good(led: Ledger) {
    Conserved(led) && forall p :: p in Live(led.entries) ==> led.entries[p] > 0
  }

  lemma StepGood(led: Ledger, op: Op)
    requires Good(led) && (op.MallocOp? ==> Allowed(led, op) && op.size > 0)
    ensures Good(Step(led, op))
    ensures op.FreeOp? ==> Free(led, op.p).1 != AssertionFailed
  {
    match op {
      case MallocOp(m, size) => MallocConserves(led, m, size);
      case FreeOp(p) => FreeConserves(led, p);
    }
  }

  /** All there is to know about an allowed allocation. */
  lemma MallocFacts(led: Ledger, m: nat, size: nat)
    requires Good(led) && 0 < size < FREED && m != 0 && m !in Live(led.entries)
    ensures var led' := Malloc(led, m, size);
            && Good(led') && led'.entries == led.entries[m := size]
            && Live(led'.entries) == Live(led.entries) + {m} && CurrentBytes(led') == CurrentBytes(led) + size
  {
    StepGood(led, MallocOp(m, size));
    MallocConserves(led, m, size);
  }

  /** All there is to know about giving back a live block. */
  lemma FreeFacts(led: Ledger, p: nat)
    requires Good(led) && p != 0 && p in Live(led.entries)
    ensures var (led', outcome) := Free(led, p);
            && outcome == Freed && Good(led') && led'.entries == led.entries[p := led.entries[p] + FREED]
            && Live(led'.entries) == Live(led.entries) - {p}
            && CurrentBytes(led') == CurrentBytes(led) - led.entries[p]
  {
    StepGood(led, FreeOp(p));
    FreeConserves(led, p);
  }

  /** Conservation over whole runs, with address reuse, wrong frees and double frees. */
  lemma {:induction false} RunConserves(led: Ledger, ops: seq<Op>, led': Ledger)
    requires Conserved(led) && Run(led, ops, led')
    ensures Conserved(led')
    decreases |ops|
  {
    if ops != [] {
      StepConserves(led, ops[0]);
      RunConserves(Step(led, ops[0]), ops[1..], led');
    }
  }

  /** In every reachable ledger the counters agree with the map, no assertion of the two getters can fail, and
      those of free369 fail exactly on a block in use of size 0. */
  lemma LedgerIsExact(ops: seq<Op>, led: Ledger)
    requires Run(EMPTY_LEDGER, ops, led)
    ensures CurrentMallocs(led) == |Live(led.entries)| && CurrentBytes(led) == Sum(led.entries, Live(led.entries))
    ensures CurrentMallocs(led) >= 0 && CurrentBytes(led) >= 0
    ensures forall p :: Free(led, p).1 == AssertionFailed <==> p != 0 && p in led.entries && led.entries[p] == 0
  {
    var start := EMPTY_LEDGER;
    EmptyGood(start);
    RunConserves(start, ops, led);
    forall p: nat
      ensures Free(led, p).1 == AssertionFailed <==> p != 0 && p in led.entries && led.entries[p] == 0
    {
      FreeConserves(led, p);
    }
  }

  /** Such a block: malloc369(0) is accepted and counted, and giving the block back fails an assertion. */
  lemma ZeroSizeCannotBeFreed(m: nat) returns (led: Ledger)
    requires m != 0
    ensures Run(EMPTY_LEDGER, [MallocOp(m, 0)], led) && CurrentMallocs(led) == 1
    ensures Free(led, m).1 == AssertionFailed
  {
    led := Malloc(EMPTY_LEDGER, m, 0);
    assert Run(led, [], led);
  }

  /** The leak test passes exactly when the blocks in use, and their total size, are within the tolerances; with
      tolerance 0, exactly when no block is in use. */
  lemma LeakTestIsExact(ops: seq<Op>, led: Ledger, mallocTolerance: int, byteTolerance: int)
    requires Run(EMPTY_LEDGER, ops, led)
    ensures IsLeakFree(led, mallocTolerance, byteTolerance)
            <==> |Live(led.entries)| <= mallocTolerance && Sum(led.entries, Live(led.entries)) <= byteTolerance
    ensures IsLeakFree(led, 0, 0) <==> Live(led.entries) == {}
  {
    LedgerIsExact(ops, led);
    WithinTolerance(led, mallocTolerance, byteTolerance);
    WithinTolerance(led, 0, 0);
  }

  lemma WithinTolerance(led: Ledger, mallocTolerance: int, byteTolerance: int)
    requires Conserved(led)
    ensures IsLeakFree(led, mallocTolerance, byteTolerance)
            <==> |Live(led.entries)| <= mallocTolerance && Sum(led.entries, Live(led.entries)) <= byteTolerance
    ensures |Live(led.entries)| == 0 ==> Sum(led.entries, Live(led.entries)) == 0
  {
  }

  /** The number of allocations in a run. */
  ghost function Mallocs(ops: seq<Op>): nat {
    if ops == [] then 0 else (if ops[0].MallocOp? then 1 else 0) + Mallocs(ops[1..])
  }

  ghost function MallocBytes(ops: seq<Op>): nat {
    if ops == [] then 0 else (if ops[0].MallocOp? then ops[0].size else 0) + MallocBytes(ops[1..])
  }

  /** The sizes of the blocks that the frees of a run, begun in led, give back: those in use when they are freed. */
  ghost function GivenBack(led: Ledger, ops: seq<Op>): seq<nat>
    decreases |ops|
  {
    if ops == [] then []
    else
      var rest := GivenBack(Step(led, ops[0]), ops[1..]);
      if ops[0].FreeOp? && ops[0].p != 0 && ops[0].p in Live(led.entries) then [led.entries[ops[0].p]] + rest else rest
  }

  ghost function Total(sizes: seq<nat>): nat {
    if sizes == [] then 0 else sizes[0] + Total(sizes[1..])
  }

  /** An allocation counts one malloc and its size, and no free. A free counts no malloc, and one free with the size of
      the block exactly when it gives back a block in use. */
  lemma StepCounts(led: Ledger, op: Op)
    requires Conserved(led) && Allowed(led, op)
    ensures var led' := Step(led, op);
            match op
            case MallocOp(_, size) =>
              && led'.numMallocs == led.numMallocs + 1 && led'.bytesMalloced == led.bytesMalloced + size
              && led'.numFrees == led.numFrees && led'.bytesFreed == led.bytesFreed
            case FreeOp(p) =>
              && led'.numMallocs == led.numMallocs && led'.bytesMalloced == led.bytesMalloced
              && led'.numFrees == led.numFrees + (if p != 0 && p in Live(led.entries) then 1 else 0)
              && led'.bytesFreed == led.bytesFreed + (if p != 0 && p in Live(led.entries) then led.entries[p] else 0)
  {
    if op.FreeOp? {
      FreeConserves(led, op.p);
    }
  }

  lemma {:induction false} RunCounts(led: Ledger, ops: seq<Op>, led': Ledger)
    requires Conserved(led) && Run(led, ops, led')
    ensures led'.numMallocs == led.numMallocs + Mallocs(ops)
    ensures led'.bytesMalloced == led.bytesMalloced + MallocBytes(ops)
    ensures led'.numFrees == led.numFrees + |GivenBack(led, ops)|
    ensures led'.bytesFreed == led.bytesFreed + Total(GivenBack(led, ops))
    decreases |ops|
  {
    if ops != [] {
      StepConserves(led, ops[0]);
      StepCounts(led, ops[0]);
      RunCounts(Step(led, ops[0]), ops[1..], led');
      var rest := GivenBack(Step(led, ops[0]), ops[1..]);
      assert forall size :: ([size] + rest)[1..] == rest;
    }
  }

  /** As init_csc369_malloc leaves it. */
  predicate JustStarted(led: Ledger) {
    IsEmpty(led) && led.numMallocs == 0 && led.bytesMalloced == 0
  }

  lemma EmptyJustStarted(led: Ledger)
    requires led == EMPTY_LEDGER
    ensures JustStarted(led)
  {
  }

  /** The four running counters say what has been asked for and given back since init_csc369_malloc. */
  lemma CountersAreExact(start: Ledger, ops: seq<Op>, led: Ledger)
    requires JustStarted(start) && Run(start, ops, led)
    ensures led.numMallocs == Mallocs(ops) && led.bytesMalloced == MallocBytes(ops)
    ensures led.numFrees == |GivenBack(start, ops)| && led.bytesFreed == Total(GivenBack(start, ops))
  {
    NothingLive(start);
    RunCounts(start, ops, led);
  }

  lemma NothingLive(led: Ledger)
    requires IsEmpty(led)
    ensures Conserved(led) && forall p :: p !in led.entries
  {
    assert Live(led.entries) == {};
  }

  /** What has become of an address. */
  datatype Fate = Unknown | InUse(size: nat) | FreedSince

  ghost function FateOf(led: Ledger, p: nat): Fate {
    if p !in led.entries then Unknown
    else if led.entries[p] < FREED then InUse(led.entries[p])
    else FreedSince
  }

  /** The fate of p after a run, from the calls alone. */
  ghost function FateAfter(fate: Fate, ops: seq<Op>, p: nat): Fate
    decreases |ops|
  {
    if ops == [] then fate
    else
      var next := match ops[0]
                  case MallocOp(m, size) => if m == p then InUse(size) else fate
                  case FreeOp(q) => if q == p && fate.InUse? then FreedSince else fate;
      FateAfter(next, ops[1..], p)
  }

  /** The map remembers, of every address, whether it was handed out and with which size, and whether it has been freed
      since. */
  lemma {:induction false} RunFate(led: Ledger, ops: seq<Op>, led': Ledger, p: nat)
    requires Conserved(led) && Run(led, ops, led') && p != 0
    ensures FateOf(led', p) == FateAfter(FateOf(led, p), ops, p)
    decreases |ops|
  {
    if ops != [] {
      StepConserves(led, ops[0]);
      if ops[0].FreeOp? {
        FreeConserves(led, ops[0].p);
      }
      RunFate(Step(led, ops[0]), ops[1..], led', p);
    }
  }

  /** free369 answers by the history of the address: a wrong free, a double free, a good free, or, for a block of size
      0, a failing assertion. */
  lemma FreeAnswers(start: Ledger, ops: seq<Op>, led: Ledger, p: nat)
    requires JustStarted(start) && Run(start, ops, led) && p != 0
    ensures Free(led, p).1 == match FateAfter(Unknown, ops, p)
                              case Unknown => NotMapped
                              case FreedSince => DoubleFree
                              case InUse(size) => if size == 0 then AssertionFailed else Freed
  {
    NothingLive(start);
    RunConserves(start, ops, led);
    RunFate(start, ops, led, p);
    FreeByFate(led, p);
  }

  lemma FreeByFate(led: Ledger, p: nat)
    requires Conserved(led) && p != 0
    ensures Free(led, p).1 == match FateOf(led, p)
                              case Unknown => NotMapped
                              case FreedSince => DoubleFree
                              case InUse(size) => if size == 0 then AssertionFailed else Freed
  {
    FreeConserves(led, p);
  }

  lemma EmptyGood(led: Ledger)
    requires led == EMPTY_LEDGER
    ensures Good(led)
  {
    assert Live(led.entries) == {};
  }
}
