/** Runs of a hash table: any sequence of calls answers as a finite map would. */
module KHashRuns {
  import opened RoundUp
  import opened Slots
  import opened KHash

  datatype Call<K, V> = Put(key: K, val: V) | Get(key: K) | Del(key: K) | Clear | Resize(requested: nat)

  datatype Answer<V> = Found(val: V) | Absent | Stored(isNew: bool) | Done | NoMemory

  /** What a call with this answer does to a finite map. */
  ghost function After<K, V>(m: map<K, V>, call: Call<K, V>, answer: Answer<V>): map<K, V> {
    match call
    case Put(k, v) => if answer.NoMemory? then m else m[k := v]
    case Get(_) => m
    case Del(k) => m - {k}
    case Clear => map[]
    case Resize(_) => m
  }

  /** The answer a finite map gives; a call that allocates may fail when fewer than three allocations are granted. */
  ghost predicate Right<K, V>(m: map<K, V>, call: Call<K, V>, memory: nat, answer: Answer<V>) {
    match call
    case Put(k, _) => answer == Stored(k !in m) || (answer == NoMemory && memory < 3)
    case Get(k) => answer == if k in m then Found(m[k]) else Absent
    case Del(k) => answer == if k in m then Done else Absent
    case Clear => answer == Done
    case Resize(_) => answer == Done || (answer == NoMemory && memory < 3)
  }

  /** The map after calls with these answers. */
  ghost function MapAfter<K, V>(m: map<K, V>, calls: seq<Call<K, V>>, answers: seq<Answer<V>>): map<K, V>
    requires |answers| == |calls|
    decreases |calls|
  {
    if calls == [] then m
    else var n := |calls| - 1; After(MapAfter(m, calls[..n], answers[..n]), calls[n], answers[n])
  }

  /** Every answer is right for the map as it was at that moment. */
  ghost predicate AllRight<K, V>(m: map<K, V>, calls: seq<Call<K, V>>, grants: seq<nat>, answers: seq<Answer<V>>)
    requires |answers| == |calls| == |grants|
    decreases |calls|
  {
    calls == [] ||
    var n := |calls| - 1;
    && AllRight(m, calls[..n], grants[..n], answers[..n])
    && Right(MapAfter(m, calls[..n], answers[..n]), calls[n], grants[n], answers[n])
  }

  /** No new key is put when the map already has 2^31. */
  ghost predicate Fits<K, V>(m: map<K, V>, calls: seq<Call<K, V>>, answers: seq<Answer<V>>)
    requires |answers| == |calls|
    decreases |calls|
  {
    calls == [] ||
    var n := |calls| - 1;
    && Fits(m, calls[..n], answers[..n])
    && FitsNext(MapAfter(m, calls[..n], answers[..n]), calls[n])
  }

  ghost predicate FitsNext<K, V>(m: map<K, V>, call: Call<K, V>) {
    call.Put? ==> call.key in m || |m| < WORD / 2
  }

  /** The resize requests are 32-bit numbers. */
  predicate Sized<K, V>(calls: seq<Call<K, V>>) {
    forall i :: 0 <= i < |calls| && calls[i].Resize? ==> calls[i].requested < WORD
  }

  /** A full table holds 2^31 keys. */
  lemma FullSize<K(0), V(0)>(t: Table<K, V>)
    requires t.Valid() && t.Full()
    ensures |t.contents| == WORD / 2
  {
    StoresIffHolds(LiveUse(t.marks), t.nBuckets, t.keys[..], t.vals[..], t.contents);
    assert Used(LiveUse(t.marks), t.nBuckets) == LiveSet(t.marks);
  }

  method PerformPut<K(==, 0), V(0)>(t: Table<K, V>, k: K, v: V, memory: nat) returns (answer: Answer<V>)
    requires t.Valid()
    modifies t.Repr()
    ensures t.Valid() && fresh(t.Repr() - old(t.Repr()))
    ensures answer.NoMemory? || answer.Stored?
    ensures answer.NoMemory? ==> memory < 3 && t.contents == old(t.contents)
    ensures answer.Stored? && (k in old(t.contents) || |old(t.contents)| < WORD / 2) ==>
              t.contents == old(t.contents)[k := v] && answer.isNew == (k !in old(t.contents))
  {
    if t.Full() {
      FullSize(t);
    }
    var ret := t.PutValue(k, v, memory);
    answer := if ret < 0 then NoMemory else Stored(ret > 0);
  }

  method PerformDel<K(==, 0), V(0)>(t: Table<K, V>, k: K) returns (answer: Answer<V>)
    requires t.Valid()
    modifies t.Repr()
    ensures t.Valid() && fresh(t.Repr() - old(t.Repr()))
    ensures t.contents == old(t.contents) - {k} && answer == if k in old(t.contents) then Done else Absent
  {
    var x := t.Get(k);
    answer := if x == t.nBuckets then Absent else Done;
    assert x == t.nBuckets ==> t.contents - {k} == t.contents;
    t.Del(x);
  }

  /** One call, granted so many allocations: kh_put with the value store, a look-up, kh_del of what kh_get finds,
      kh_clear or kh_resize. */
  method Perform<K(==, 0), V(0)>(t: Table<K, V>, call: Call<K, V>, memory: nat) returns (answer: Answer<V>)
    requires t.Valid() && (call.Resize? ==> call.requested < WORD)
    modifies t.Repr()
    ensures t.Valid() && fresh(t.Repr() - old(t.Repr()))
    ensures FitsNext(old(t.contents), call) ==>
              t.contents == After(old(t.contents), call, answer) && Right(old(t.contents), call, memory, answer)
  {
    answer := Done;
    match call
    case Put(k, v) =>
      answer := PerformPut(t, k, v, memory);
    case Get(k) =>
      var x := t.Get(k);
      answer := if x == t.nBuckets then Absent else Found(t.vals[x]);
    case Del(k) =>
      answer := PerformDel(t, k);
    case Clear =>
      t.Clear();
    case Resize(n) =>
      var ret := t.Resize(n, memory);
      answer := if ret < 0 then NoMemory else Done;
  }

  /** Any sequence of calls, in any order, with resizes to grow or shrink in between and allocations that fail. */
  method PerformAll<K(==, 0), V(0)>(t: Table<K, V>, calls: seq<Call<K, V>>, grants: seq<nat>)
    returns (answers: seq<Answer<V>>)
    requires t.Valid() && Sized(calls) && |grants| == |calls|
    modifies t.Repr()
    ensures t.Valid() && fresh(t.Repr() - old(t.Repr())) && |answers| == |calls|
    ensures Fits(old(t.contents), calls, answers) ==>
              t.contents == MapAfter(old(t.contents), calls, answers)
              && AllRight(old(t.contents), calls, grants, answers)
  {
    answers := [];
    ghost var m := t.contents;
    for i := 0 to |calls|
      invariant t.Valid() && fresh(t.Repr() - old(t.Repr())) && |answers| == i
      invariant Fits(m, calls[..i], answers) ==>
                  t.contents == MapAfter(m, calls[..i], answers) && AllRight(m, calls[..i], grants[..i], answers)
    {
      ghost var before := answers;
      var answer := Perform(t, calls[i], grants[i]);
      answers := answers + [answer];
      assert calls[..i + 1][..i] == calls[..i] && grants[..i + 1][..i] == grants[..i] && answers[..i] == before;
    }
    assert calls[..|calls|] == calls && grants[..|calls|] == grants;
  }
}
