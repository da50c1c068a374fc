/** The in-place rehash of khash.h seen as values: one pair of key and value arrays shared by the
    old table (marks `before`) and the new one (marks `after`), and at most one element in hand. */
module Rehash {
  import opened Probe
  import opened Flags
  import opened Slots

  /** The number of slots the two tables need. */
  ghost function Room(before: seq<Mark>, after: seq<Mark>): nat {
    if |before| <= |after| then |after| else |before|
  }

  ghost predicate LiveAt(st: seq<Mark>, i: nat) {
    i < |st| && st[i] == LIVE
  }

  /** The slots in use: live in the old table and not yet moved, or already placed in the new one. */
  ghost function InUse(before: seq<Mark>, after: seq<Mark>): (use: seq<bool>)
    ensures |use| == Room(before, after)
  {
    seq(Room(before, after), i requires 0 <= i => LiveAt(before, i) || LiveAt(after, i))
  }

  lemma InUseSlots(before: seq<Mark>, after: seq<Mark>)
    ensures Used(InUse(before, after), Room(before, after)) == LiveSet(before) + LiveSet(after)
  {
  }

  /** The new table has no tombstone, and no slot is used by both tables. */
  ghost predicate Shape(before: seq<Mark>, after: seq<Mark>) {
    && (forall i: nat :: i < |after| ==> after[i] == EMPTY || after[i] == LIVE)
    && (forall i: nat :: i < |after| && i < |before| && after[i] == LIVE ==> before[i] != LIVE)
  }

  /** The arrays hold exactly `m` and every key placed in the new table is reachable under the new size. */
  ghost predicate Split<K, V>(hash: K -> nat, before: seq<Mark>, after: seq<Mark>, keys: seq<K>, vals: seq<V>,
                              m: map<K, V>)
  {
    && Shape(before, after) && Room(before, after) <= |keys| && Room(before, after) <= |vals|
    && Stores(InUse(before, after), Room(before, after), keys, vals, m)
    && IsPow2(|after|)
    && ChainOk(hash, |after|, after, keys)
  }

  /** The number of elements that have a slot, in either table. */
  ghost function Stored(before: seq<Mark>, after: seq<Mark>): nat {
    |LiveSet(before)| + |LiveSet(after)|
  }

  lemma DropSlot(before: seq<Mark>, after: seq<Mark>, j: nat)
    requires Shape(before, after) && j < |before| && before[j] == LIVE
    ensures Shape(before[j := DELETED], after)
    ensures InUse(before[j := DELETED], after) == InUse(before, after)[j := false]
    ensures InUse(before, after)[j]
    ensures Stored(before[j := DELETED], after) + 1 == Stored(before, after)
  {
    MarkDead(before, j, DELETED);
    assert forall i: nat :: i != j ==> LiveAt(before[j := DELETED], i) == LiveAt(before, i);
    assert !LiveAt(after, j);
  }

  lemma TakeSlot(before: seq<Mark>, after: seq<Mark>, i: nat)
    requires Shape(before, after) && i < |after| && after[i].empty
    requires i < |before| ==> before[i] != LIVE
    ensures Shape(before, after[i := LIVE])
    ensures InUse(before, after[i := LIVE]) == InUse(before, after)[i := true]
    ensures !InUse(before, after)[i]
    ensures Stored(before, after[i := LIVE]) == Stored(before, after) + 1
  {
    MarkLive(after, i);
    assert forall j: nat :: j != i ==> LiveAt(after[i := LIVE], j) == LiveAt(after, j);
    assert LiveAt(after[i := LIVE], i);
  }

  lemma UsedUpdate(use: seq<bool>, i: nat)
    requires i < |use|
    ensures Used(use[i := true], |use|) == Used(use, |use|) + {i}
    ensures Used(use[i := false], |use|) == Used(use, |use|) - {i}
  {
  }

  /** One slot less holds the map without its key. */
  lemma StoresRemove<K, V>(use: seq<bool>, keys: seq<K>, vals: seq<V>, m: map<K, V>, i: nat)
    requires |use| <= |keys| && |use| <= |vals| && Stores(use, |use|, keys, vals, m)
    requires i < |use| && use[i]
    ensures Stores(use[i := false], |use|, keys, vals, m - {keys[i]})
    ensures keys[i] in m && m[keys[i]] == vals[i]
  {
    UsedUpdate(use, i);
    StoresIffHolds(use, |use|, keys, vals, m);
    HoldsRemove(Used(use, |use|), keys, vals, m, i);
    StoresIffHolds(use[i := false], |use|, keys, vals, m - {keys[i]});
  }

  /** One slot more holds the map with its key. */
  lemma StoresAdd<K, V>(use: seq<bool>, keys: seq<K>, vals: seq<V>, m: map<K, V>, i: nat, k: K, v: V)
    requires |use| <= |keys| && |use| <= |vals| && Stores(use, |use|, keys, vals, m)
    requires i < |use| && !use[i] && k !in m
    ensures Stores(use[i := true], |use|, keys[i := k], vals[i := v], m[k := v])
  {
    UsedUpdate(use, i);
    StoresIffHolds(use, |use|, keys, vals, m);
    HoldsAdd(Used(use, |use|), keys, vals, m, i, k, v);
    StoresIffHolds(use[i := true], |use|, keys[i := k], vals[i := v], m[k := v]);
  }

  /** Picking up the old element in bucket j. */
  lemma PickUp<K, V>(hash: K -> nat, before: seq<Mark>, after: seq<Mark>, keys: seq<K>, vals: seq<V>, m: map<K, V>,
                     j: nat)
    requires Split(hash, before, after, keys, vals, m)
    requires j < |before| && before[j] == LIVE
    ensures keys[j] in m && m[keys[j]] == vals[j]
    ensures Split(hash, before[j := DELETED], after, keys, vals, m - {keys[j]})
    ensures Stored(before[j := DELETED], after) + 1 == Stored(before, after)
  {
    DropSlot(before, after, j);
    StoresRemove(InUse(before, after), keys, vals, m, j);
  }

  lemma MapPutBack<K, V>(m: map<K, V>, k: K)
    requires k in m
    ensures (m - {k})[k := m[k]] == m
  {
  }

  /** Placing an element into the free bucket i of the new table. */
  lemma Settle<K, V>(hash: K -> nat, before: seq<Mark>, after: seq<Mark>, keys: seq<K>, vals: seq<V>, m: map<K, V>,
                     k: K, v: V, i: nat)
    requires Split(hash, before, after, keys, vals, m) && k !in m
    requires i < |after| && after[i].empty && Reached(hash(k), |after|, after, i)
    requires i < |before| ==> before[i] != LIVE
    ensures Split(hash, before, after[i := LIVE], keys[i := k], vals[i := v], m[k := v])
    ensures Stored(before, after[i := LIVE]) == Stored(before, after) + 1
  {
    TakeSlot(before, after, i);
    StoresAdd(InUse(before, after), keys, vals, m, i, k, v);
    PlaceInChain(hash, after, keys, k, i);
  }

  lemma MapExchange<K, V>(m: map<K, V>, k: K, k': K)
    requires k in m && k != k'
    ensures (m - {k} - {k'})[k := m[k]] == m - {k'}
  {
  }

  /** Kicking out the old element in bucket i: it is picked up and the one in hand takes its place. */
  lemma Kick<K, V>(hash: K -> nat, before: seq<Mark>, after: seq<Mark>, keys: seq<K>, vals: seq<V>, m: map<K, V>,
                   k: K, v: V, i: nat)
    requires Split(hash, before, after, keys, vals, m - {k}) && k in m && m[k] == v
    requires i < |after| && after[i].empty && Reached(hash(k), |after|, after, i)
    requires i < |before| && before[i] == LIVE
    ensures keys[i] in m && m[keys[i]] == vals[i]
    ensures Split(hash, before[i := DELETED], after[i := LIVE], keys[i := k], vals[i := v], m - {keys[i]})
    ensures Stored(before[i := DELETED], after[i := LIVE]) == Stored(before, after)
    ensures |LiveSet(before[i := DELETED])| < |LiveSet(before)|
  {
    var k' := keys[i];
    MarkDead(before, i, DELETED);
    PickUp(hash, before, after, keys, vals, m - {k}, i);
    Settle(hash, before[i := DELETED], after, keys, vals, m - {k} - {k'}, k, v, i);
    MapExchange(m, k, k');
  }

  lemma NothingLive(st: seq<Mark>)
    requires forall i: nat :: i < |st| ==> st[i] != LIVE
    ensures LiveSet(st) == {}
  {
  }

  /** A fresh table of empty buckets beside the old one. */
  lemma StartSplit<K, V>(hash: K -> nat, before: seq<Mark>, n: nat, keys: seq<K>, vals: seq<V>, m: map<K, V>)
    requires Coherent(hash, |before|, before, keys, vals, m) && IsPow2(n) && n <= |keys| && n <= |vals|
    ensures Split(hash, before, EmptyMarks(n), keys, vals, m)
    ensures Stored(before, EmptyMarks(n)) == |LiveSet(before)|
  {
    NothingLive(EmptyMarks(n));
    var after := EmptyMarks(n);
    InUseSlots(before, after);
    StoresIffHolds(LiveUse(before), |before|, keys, vals, m);
    StoresIffHolds(InUse(before, after), Room(before, after), keys, vals, m);
  }

  /** Once no old element is left, the new table alone holds the map. */
  lemma EndSplit<K, V>(hash: K -> nat, before: seq<Mark>, after: seq<Mark>, keys: seq<K>, vals: seq<V>, m: map<K, V>)
    requires Split(hash, before, after, keys, vals, m)
    requires forall i: nat :: i < |before| ==> before[i] != LIVE
    ensures Coherent(hash, |after|, after, keys, vals, m)
    ensures Stored(before, after) == |LiveSet(after)| == |Occupied(after)|
  {
    NothingLive(before);
    assert Occupied(after) == LiveSet(after);
    InUseSlots(before, after);
    StoresIffHolds(InUse(before, after), Room(before, after), keys, vals, m);
    StoresIffHolds(LiveUse(after), |after|, keys, vals, m);
  }

  /** With an element in hand the new table still has an empty bucket. */
  lemma RoomToPlace(before: seq<Mark>, after: seq<Mark>)
    requires Shape(before, after) && Stored(before, after) < |after|
    ensures |Occupied(after)| < |after|
  {
    assert Occupied(after) == LiveSet(after);
  }
}
