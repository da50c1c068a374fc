/** The functions of malloc369.c over the hash table. */
module Malloc369 {
  import opened LedgerSpec
  import opened Flags
  import opened KHash
  import Runs = KHashRuns

  const MAX_ADDRESSES: nat := 0x8000_0000

  lemma KeysAfter(entries: map<nat, nat>, m: nat, size: nat)
    ensures |entries| <= |entries[m := size]| <= |entries| + 1
    ensures m !in entries ==> |entries[m := size]| == |entries| + 1
    ensures forall k :: k in entries ==> |entries[k := size]| == |entries|
  {
    assert entries[m := size].Keys == entries.Keys + {m};
    forall k | k in entries
      ensures |entries[k := size]| == |entries|
    {
      assert entries[k := size].Keys == entries.Keys;
    }
  }

  /** The table can remember a block at m: only a new address beyond the first 2^31 finds no place. */
  ghost predicate HasPlace(led: Ledger, m: nat) {
    m == 0 || m in led.entries || |led.entries| < MAX_ADDRESSES
  }

  datatype MallocOutcome = Allocated | NoMemory | PutFailed

  /** Addresses are never forgotten. */
  lemma {:induction false} RunRemembers(led: Ledger, ops: seq<Op>, led': Ledger)
    requires Run(led, ops, led')
    ensures |led.entries| <= |led'.entries|
    decreases |ops|
  {
    if ops != [] {
      StepRemembers(led, ops[0]);
      RunRemembers(Step(led, ops[0]), ops[1..], led');
    }
  }

  lemma StepRemembers(led: Ledger, op: Op)
    ensures |led.entries| <= |Step(led, op).entries|
    ensures op.MallocOp? && op.m != 0 && op.m !in led.entries ==> |led.entries| < |Step(led, op).entries|
  {
    match op
    case MallocOp(m, size) => KeysAfter(led.entries, m, size);
    case FreeOp(p) => FreeKeeps(led, p);
  }

  /** If the table has places enough at the end of a run, it has one for its first step. */
  lemma PlaceInRun(led: Ledger, ops: seq<Op>, led': Ledger)
    requires Run(led, ops, led') && ops != [] && |led'.entries| <= MAX_ADDRESSES
    ensures ops[0].MallocOp? ==> HasPlace(led, ops[0].m)
  {
    StepRemembers(led, ops[0]);
    RunRemembers(Step(led, ops[0]), ops[1..], led');
  }

  lemma FreeKeeps(led: Ledger, p: nat)
    ensures |LedgerSpec.Free(led, p).0.entries| == |led.entries|
  {
    KeysAfter(led.entries, p, 0);
  }

  class Allocations {
    const mallocMap: Table<nat, nat>
    var numMallocs: int
    var numFrees: int
    var bytesMalloced: int
    var bytesFreed: int
    ghost var Repr: set<object>

    ghost predicate Valid()
      reads this, Repr
    {
      && this in Repr && mallocMap in Repr && Repr == {this} + mallocMap.Repr()
      && this !in mallocMap.Repr() && mallocMap.Valid()
    }

    ghost function View(): Ledger
      reads this, mallocMap
    {
      Ledger(mallocMap.contents, numMallocs, numFrees, bytesMalloced, bytesFreed)
    }

    /** init_csc369_malloc */
    constructor (hash: nat -> nat)
      ensures Valid() && fresh(Repr) && JustStarted(View())
      ensures numMallocs == numFrees == 0 && bytesMalloced == bytesFreed == 0
    {
      mallocMap := new Table(hash);
      numMallocs, numFrees, bytesMalloced, bytesFreed := 0, 0, 0, 0;
      new;
      Repr := {this} + mallocMap.Repr();
    }

    /** malloc369, told the address m that malloc returns and the memory left for the table itself. Past 2^31
        different addresses the table fails its client (see KHash.Table.Put). */
    method Malloc(size: nat, m: nat, memory: nat) returns (outcome: MallocOutcome)
      requires Valid()
      modifies Repr
      ensures fresh(Repr - old(Repr)) && Valid()
      ensures outcome == NoMemory <==> m == 0
      ensures outcome == PutFailed <==> m != 0 && old(mallocMap.OutOfMemory(memory))
      ensures outcome == PutFailed ==> memory < 3
      ensures outcome != PutFailed && HasPlace(old(View()), m) ==>
                View() == LedgerSpec.Malloc(old(View()), m, size)
      ensures |View().entries| <= |old(View()).entries| + 1
    {
      numMallocs := numMallocs + 1;
      bytesMalloced := bytesMalloced + size;
      if m == 0 {
        return NoMemory;
      }
      var recorded := Record(m, size, memory);
      Repr := {this} + mallocMap.Repr();
      outcome := if recorded then Allocated else PutFailed;
    }

    /** kh_put with the value store: remembers the size of the block at m. */
    method Record(m: nat, size: nat, memory: nat) returns (done: bool)
      requires mallocMap.Valid()
      modifies mallocMap.Repr()
      ensures mallocMap.Valid() && fresh(mallocMap.Repr() - old(mallocMap.Repr()))
      ensures !done <==> old(mallocMap.OutOfMemory(memory))
      ensures !done ==> memory < 3 && mallocMap.contents == old(mallocMap.contents)
      ensures done && (m in old(mallocMap.contents) || |old(mallocMap.contents)| < MAX_ADDRESSES) ==>
                mallocMap.contents == old(mallocMap.contents)[m := size]
      ensures |mallocMap.contents| <= |old(mallocMap.contents)| + 1
    {
      if mallocMap.Full() {
        Runs.FullSize(mallocMap);
      }
      KeysAfter(mallocMap.contents, m, size);
      var ret := mallocMap.PutValue(m, size, memory);
      done := ret >= 0;
    }

    /** The first half of free369: finds the block and rejects NULL, unknown and already freed addresses. */
    method Find(p: nat) returns (verdict: FreeOutcome, k: nat, size: nat)
      requires Valid()
      ensures p == 0 ==> verdict == FreedNull
      ensures p != 0 && p !in mallocMap.contents ==> verdict == NotMapped
      ensures p != 0 && p in mallocMap.contents ==>
                k < mallocMap.nBuckets && mallocMap.marks[k] == LIVE && mallocMap.keys[k] == p
                && size == mallocMap.contents[p] && verdict == if size >= FREED then DoubleFree else Freed
    {
      k, size := 0, 0;
      if p == 0 {
        return FreedNull, k, size;
      }
      k := mallocMap.Get(p);
      if k == mallocMap.nBuckets {
        return NotMapped, k, size;
      }
      size := mallocMap.vals[k];
      verdict := if size >= FREED then DoubleFree else Freed;
    }

    /** free369 */
    method Free(p: nat) returns (outcome: FreeOutcome)
      requires Valid()
      modifies Repr
      ensures fresh(Repr - old(Repr)) && Valid()
      ensures (View(), outcome) == LedgerSpec.Free(old(View()), p)
    {
      var verdict, k, size := Find(p);
      outcome := verdict;
      if verdict == Freed && (size == 0 || numMallocs - numFrees <= 0) {
        outcome := AssertionFailed;
      } else if verdict == Freed {
        numFrees := numFrees + 1;
        if bytesMalloced - bytesFreed < size {
          outcome := AssertionFailed;
        } else {
          bytesFreed := bytesFreed + size;
          assert mallocMap.Valid();
          MarkFreed(p, k, size);
        }
      }
    }

    /** Sets the FREED bit in the entry of the block at p. */
    method MarkFreed(p: nat, k: nat, size: nat)
      requires Valid() && k < mallocMap.nBuckets && mallocMap.marks[k] == LIVE && mallocMap.keys[k] == p
      modifies mallocMap`contents, mallocMap.vals
      ensures Valid() && mallocMap.contents == old(mallocMap.contents)[p := size + FREED]
    {
      mallocMap.SetValue(k, size + FREED);
    }

    /** malloc369, the table's own allocations granted. */
    method MallocGranted(size: nat, m: nat)
      requires Valid() && HasPlace(View(), m)
      modifies Repr
      ensures fresh(Repr - old(Repr)) && Valid()
      ensures View() == LedgerSpec.Malloc(old(View()), m, size)
    {
      var outcome := Malloc(size, m, 3);
    }

    /** One call, the table's own allocations granted. */
    method Perform(op: Op)
      requires Valid() && (op.MallocOp? ==> HasPlace(View(), op.m))
      modifies Repr
      ensures fresh(Repr - old(Repr)) && Valid()
      ensures View() == Step(old(View()), op)
    {
      match op {
        case MallocOp(m, size) =>
          MallocGranted(size, m);
        case FreeOp(p) =>
          var outcome := Free(p);
      }
    }

    /** A run of malloc369 and free369 of any length that uses at most 2^31 different addresses: the C code takes the
        ledger through it, with the counters exact at its end. */
    method PerformAll(ops: seq<Op>, ghost led: Ledger)
      requires Valid() && Conserved(View()) && Run(View(), ops, led) && |led.entries| <= MAX_ADDRESSES
      modifies Repr
      ensures fresh(Repr - old(Repr)) && Valid()
      ensures View() == led && Conserved(led)
    {
      RunConserves(View(), ops, led);
      for i := 0 to |ops|
        invariant Valid() && fresh(Repr - old(Repr))
        invariant Run(View(), ops[i..], led)
      {
        assert ops[i..][0] == ops[i] && ops[i..][1..] == ops[i + 1..];
        PlaceInRun(View(), ops[i..], led);
        Perform(ops[i]);
      }
    }
  }
}
