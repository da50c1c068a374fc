/** The slots of a hash table seen as values: which buckets are live, the finite map they hold,
    and the probe-chain invariant that lets a search stop at the first empty bucket. */
module Slots {
  import opened Probe
  import opened Flags

  ghost function LiveSet(st: seq<Mark>): set<nat> {
    set i: nat | i < |st| && st[i] == LIVE
  }

  ghost function Occupied(st: seq<Mark>): set<nat> {
    set i: nat | i < |st| && !st[i].empty
  }

  ghost predicate Within(live: set<nat>, n: nat) {
    forall i :: i in live ==> i < n
  }

  ghost predicate UniqueKeys<K>(live: set<nat>, keys: seq<K>)
    requires Within(live, |keys|)
  {
    forall i, j :: i in live && j in live && keys[i] == keys[j] ==> i == j
  }

  /** The live slots of the arrays hold exactly the map m, each key once. That nothing else is in m is
      said by the sizes; HoldsIsMapOf spells it out. */
  ghost predicate Holds<K, V>(live: set<nat>, keys: seq<K>, vals: seq<V>, m: map<K, V>) {
    && Within(live, |keys|) && Within(live, |vals|)
    && UniqueKeys(live, keys)
    && (forall i :: i in live ==> keys[i] in m && m[keys[i]] == vals[i])
    && |m| == |live|
  }

  ghost function KeySet<K>(live: set<nat>, keys: seq<K>): set<K>
    requires Within(live, |keys|)
  {
    set i | i in live :: keys[i]
  }

  lemma {:induction false} KeySetSize<K>(live: set<nat>, keys: seq<K>)
    requires Within(live, |keys|) && UniqueKeys(live, keys)
    ensures |KeySet(live, keys)| == |live|
    decreases live
  {
    if live == {} {
      assert KeySet(live, keys) == {};
    } else {
      var x :| x in live;
      KeySetSize(live - {x}, keys);
      assert KeySet(live, keys) == KeySet(live - {x}, keys) + {keys[x]};
    }
  }

  /** Every key of m has its slot. */
  lemma HoldsOnly<K, V>(live: set<nat>, keys: seq<K>, vals: seq<V>, m: map<K, V>)
    requires Holds(live, keys, vals, m)
    ensures m.Keys == KeySet(live, keys)
  {
    KeySetSize(live, keys);
    SubsetOfSameSize(KeySet(live, keys), m.Keys);
  }

  /** The map from the keys of the live slots to their values. */
  ghost function MapOf<K, V>(live: set<nat>, keys: seq<K>, vals: seq<V>): map<K, V>
    requires Within(live, |keys|) && Within(live, |vals|) && UniqueKeys(live, keys)
  {
    map i | i in live :: keys[i] := vals[i]
  }

  lemma MapOfHolds<K, V>(live: set<nat>, keys: seq<K>, vals: seq<V>)
    requires Within(live, |keys|) && Within(live, |vals|) && UniqueKeys(live, keys)
    ensures Holds(live, keys, vals, MapOf(live, keys, vals))
  {
    var all := MapOf(live, keys, vals);
    assert all.Keys == KeySet(live, keys);
    KeySetSize(live, keys);
    assert |all| == |all.Keys|;
  }

  /** The map is determined by the slots. */
  lemma HoldsIsMapOf<K, V>(live: set<nat>, keys: seq<K>, vals: seq<V>, m: map<K, V>)
    requires Within(live, |keys|) && Within(live, |vals|) && UniqueKeys(live, keys)
    ensures Holds(live, keys, vals, m) <==> m == MapOf(live, keys, vals)
  {
    var all := MapOf(live, keys, vals);
    MapOfHolds(live, keys, vals);
    HoldsOnly(live, keys, vals, all);
    if Holds(live, keys, vals, m) {
      HoldsOnly(live, keys, vals, m);
      forall k | k in m
        ensures m[k] == all[k]
      {
        var i :| i in live && keys[i] == k;
      }
    }
  }

  /** No empty bucket lies ahead of bucket i on the chain that starts at `home`. */
  ghost predicate Reached(home: nat, n: nat, st: seq<Mark>, i: nat)
    requires IsPow2(n) && |st| == n && i < n
  {
    forall t: nat :: t < StepOf(home, i, n) ==> !st[At(home, t, n)].empty
  }

  /** Every live key is reachable from its home bucket. */
  ghost predicate ChainOk<K>(hash: K -> nat, n: nat, st: seq<Mark>, keys: seq<K>)
    requires IsPow2(n) && |st| == n && n <= |keys|
  {
    forall i: nat :: i < n && st[i] == LIVE ==> Reached(hash(keys[i]), n, st, i)
  }

  /** The first s probes for `key` met neither an empty bucket nor the key. */
  ghost predicate Passed<K>(home: nat, key: K, n: nat, st: seq<Mark>, keys: seq<K>, s: nat)
    requires n > 0 && |st| == n && n <= |keys|
  {
    forall t: nat :: t < s ==>
      !st[At(home, t, n)].empty && (st[At(home, t, n)] == LIVE ==> keys[At(home, t, n)] != key)
  }

  lemma PassedNext<K>(home: nat, key: K, n: nat, st: seq<Mark>, keys: seq<K>, s: nat)
    requires n > 0 && |st| == n && n <= |keys| && Passed(home, key, n, st, keys, s)
    requires !st[At(home, s, n)].empty && (st[At(home, s, n)] == LIVE ==> keys[At(home, s, n)] != key)
    ensures Passed(home, key, n, st, keys, s + 1)
  {
  }

  /** A search that stops at an empty bucket, or has gone all the way round, has not missed the key. */
  lemma AbsentAfter<K>(hash: K -> nat, key: K, n: nat, st: seq<Mark>, keys: seq<K>, s: nat)
    requires IsPow2(n) && |st| == n && n <= |keys|
    requires ChainOk(hash, n, st, keys) && Passed(hash(key), key, n, st, keys, s)
    requires s >= n || st[At(hash(key), s, n)].empty
    ensures forall i: nat :: i < n && st[i] == LIVE ==> keys[i] != key
  {
    forall i: nat | i < n && st[i] == LIVE
      ensures keys[i] != key
    {
      assert Reached(hash(keys[i]), n, st, i);
      var d := StepOf(hash(keys[i]), i, n);
      assert At(hash(keys[i]), d, n) == i;
    }
  }

  lemma HoldsAdd<K, V>(live: set<nat>, keys: seq<K>, vals: seq<V>, m: map<K, V>, i: nat, k: K, v: V)
    requires Holds(live, keys, vals, m)
    requires i < |keys| && i < |vals| && i !in live && k !in m
    ensures Holds(live + {i}, keys[i := k], vals[i := v], m[k := v])
  {
  }

  lemma HoldsRemove<K, V>(live: set<nat>, keys: seq<K>, vals: seq<V>, m: map<K, V>, i: nat)
    requires Holds(live, keys, vals, m) && i in live
    ensures Holds(live - {i}, keys, vals, m - {keys[i]})
    ensures keys[i] in m && m[keys[i]] == vals[i]
  {
    assert (m - {keys[i]}).Keys == m.Keys - {keys[i]};
  }

  lemma HoldsFrame<K, V>(live: set<nat>, keys: seq<K>, vals: seq<V>, m: map<K, V>, keys': seq<K>, vals': seq<V>)
    requires Holds(live, keys, vals, m) && Within(live, |keys'|) && Within(live, |vals'|)
    requires forall i :: i in live ==> keys'[i] == keys[i] && vals'[i] == vals[i]
    ensures Holds(live, keys', vals', m)
  {
  }

  lemma HoldsStore<K, V>(live: set<nat>, keys: seq<K>, vals: seq<V>, m: map<K, V>, i: nat, v: V)
    requires Holds(live, keys, vals, m) && i in live
    ensures Holds(live, keys, vals[i := v], m[keys[i] := v])
  {
    assert m[keys[i] := v].Keys == m.Keys;
  }

  /** The slots below n that are in use. */
  ghost function Used(use: seq<bool>, n: nat): set<nat>
    requires n <= |use|
  {
    set i: nat | i < n && use[i]
  }

  ghost function LiveUse(st: seq<Mark>): (use: seq<bool>)
    ensures |use| == |st| && Used(use, |use|) == LiveSet(st)
  {
    seq(|st|, i requires 0 <= i < |st| => st[i] == LIVE)
  }

  /** The same as Holds, said by recursion over the slots below n: peeling off one slot at a time uses up the map. */
  ghost predicate Stores<K, V>(use: seq<bool>, n: nat, keys: seq<K>, vals: seq<V>, m: map<K, V>)
    requires n <= |use| && n <= |keys| && n <= |vals|
  {
    if n == 0 then m == map[]
    else if use[n - 1] then
      keys[n - 1] in m && m[keys[n - 1]] == vals[n - 1] && Stores(use, n - 1, keys, vals, m - {keys[n - 1]})
    else Stores(use, n - 1, keys, vals, m)
  }

  lemma UsedStep(use: seq<bool>, n: nat)
    requires 0 < n <= |use|
    ensures use[n - 1] ==> Used(use, n) == Used(use, n - 1) + {n - 1}
    ensures n - 1 !in Used(use, n - 1)
    ensures !use[n - 1] ==> Used(use, n) == Used(use, n - 1)
  {
  }

  lemma {:induction false} StoresHolds<K, V>(use: seq<bool>, n: nat, keys: seq<K>, vals: seq<V>, m: map<K, V>)
    requires n <= |use| && n <= |keys| && n <= |vals| && Stores(use, n, keys, vals, m)
    ensures Holds(Used(use, n), keys, vals, m)
  {
    if n == 0 {
      assert Used(use, 0) == {};
    } else {
      UsedStep(use, n);
      if use[n - 1] {
        StoresHolds(use, n - 1, keys, vals, m - {keys[n - 1]});
        assert Used(use, n) == Used(use, n - 1) + {n - 1};
        assert Holds(Used(use, n - 1), keys, vals, m - {keys[n - 1]});
        HoldsBack(Used(use, n - 1), Used(use, n), keys, vals, m, n - 1);
      } else {
        StoresHolds(use, n - 1, keys, vals, m);
      }
    }
  }

  lemma HoldsBack<K, V>(live: set<nat>, more: set<nat>, keys: seq<K>, vals: seq<V>, m: map<K, V>, i: nat)
    requires i !in live && i < |keys| && i < |vals| && keys[i] in m && m[keys[i]] == vals[i]
    requires Holds(live, keys, vals, m - {keys[i]})
    requires more == live + {i}
    ensures Holds(more, keys, vals, m)
  {
    var k := keys[i];
    HoldsAdd(live, keys, vals, m - {k}, i, k, vals[i]);
    assert (m - {k})[k := vals[i]] == m;
    assert keys[i := k] == keys;
    assert vals[i := vals[i]] == vals;
  }

  lemma {:induction false} HoldsStores<K, V>(use: seq<bool>, n: nat, keys: seq<K>, vals: seq<V>, m: map<K, V>)
    requires n <= |use| && n <= |keys| && n <= |vals| && Holds(Used(use, n), keys, vals, m)
    ensures Stores(use, n, keys, vals, m)
  {
    if n == 0 {
      assert Used(use, n) == {};
    } else if use[n - 1] {
      UsedStep(use, n);
      HoldsRemove(Used(use, n), keys, vals, m, n - 1);
      assert Used(use, n - 1) + {n - 1} - {n - 1} == Used(use, n - 1);
      HoldsStores(use, n - 1, keys, vals, m - {keys[n - 1]});
    } else {
      UsedStep(use, n);
      HoldsStores(use, n - 1, keys, vals, m);
    }
  }

  lemma StoresIffHolds<K, V>(use: seq<bool>, n: nat, keys: seq<K>, vals: seq<V>, m: map<K, V>)
    requires n <= |use| && n <= |keys| && n <= |vals|
    ensures Stores(use, n, keys, vals, m) <==> Holds(Used(use, n), keys, vals, m)
  {
    if Stores(use, n, keys, vals, m) {
      StoresHolds(use, n, keys, vals, m);
    }
    if Holds(Used(use, n), keys, vals, m) {
      HoldsStores(use, n, keys, vals, m);
    }
  }

  lemma MarkLive(st: seq<Mark>, i: nat)
    requires i < |st| && st[i] != LIVE
    ensures LiveSet(st[i := LIVE]) == LiveSet(st) + {i} && |LiveSet(st[i := LIVE])| == |LiveSet(st)| + 1
    ensures |Occupied(st[i := LIVE])| == |Occupied(st)| + (if st[i].empty then 1 else 0)
  {
    assert LiveSet(st[i := LIVE]) == LiveSet(st) + {i};
    if st[i].empty {
      assert Occupied(st[i := LIVE]) == Occupied(st) + {i};
    } else {
      assert Occupied(st[i := LIVE]) == Occupied(st);
    }
  }

  lemma MarkDead(st: seq<Mark>, i: nat, m: Mark)
    requires i < |st| && st[i] == LIVE && m == DELETED
    ensures LiveSet(st[i := m]) == LiveSet(st) - {i} && |LiveSet(st[i := m])| == |LiveSet(st)| - 1
    ensures Occupied(st[i := m]) == Occupied(st)
  {
    assert LiveSet(st[i := m]) == LiveSet(st) - {i};
    assert Occupied(st[i := m]) == Occupied(st);
  }

  lemma LiveAreOccupied(st: seq<Mark>)
    ensures |LiveSet(st)| <= |Occupied(st)|
  {
    SubsetSize(LiveSet(st), Occupied(st));
  }

  /** A table with fewer occupied buckets than buckets has an empty one. */
  lemma SomeEmpty(st: seq<Mark>) returns (e: nat)
    requires |Occupied(st)| < |st|
    ensures e < |st| && st[e].empty
  {
    if Range(|st|) <= Occupied(st) {
      SubsetSize(Range(|st|), Occupied(st));
    }
    e :| e in Range(|st|) && e !in Occupied(st);
  }

  /** Turning empty buckets into non-empty ones, or live ones into tombstones, keeps every chain. */
  lemma ChainMonotone<K>(hash: K -> nat, n: nat, st: seq<Mark>, st': seq<Mark>, keys: seq<K>, keys': seq<K>,
                         placed: set<nat>)
    requires IsPow2(n) && |st| == |st'| == n && n <= |keys| && n <= |keys'|
    requires ChainOk(hash, n, st, keys)
    requires forall i: nat :: i < n && st'[i].empty ==> st[i].empty
    requires forall i: nat :: i < n && st'[i] == LIVE && i !in placed ==> st[i] == LIVE && keys'[i] == keys[i]
    requires forall i: nat :: i < n && i in placed ==> Reached(hash(keys'[i]), n, st, i)
    ensures ChainOk(hash, n, st', keys')
  {
    forall i: nat | i < n && st'[i] == LIVE
      ensures Reached(hash(keys'[i]), n, st', i)
    {
      assert Reached(hash(keys'[i]), n, st, i);
    }
  }

  /** The bucket a probe walk stops at is reached by that walk. */
  lemma WalkReaches(home: nat, n: nat, st: seq<Mark>, s: nat)
    requires IsPow2(n) && |st| == n && s < n
    requires forall t: nat :: t < s ==> !st[At(home, t, n)].empty
    ensures Reached(home, n, st, At(home, s, n))
  {
    StepUnique(home, s, n);
  }

  /** The slots of a table of n buckets: every bucket is empty, live or a tombstone, the live ones
      hold exactly m, and every key is reachable from its home bucket. */
  ghost predicate Coherent<K, V>(hash: K -> nat, n: nat, st: seq<Mark>, keys: seq<K>, vals: seq<V>, m: map<K, V>) {
    && |st| == n && n <= |keys| && n <= |vals|
    && (n == 0 || IsPow2(n))
    && (forall i: nat :: i < n ==> st[i] == EMPTY || st[i] == LIVE || st[i] == DELETED)
    && Stores(LiveUse(st), n, keys, vals, m)
    && (n > 0 ==> ChainOk(hash, n, st, keys))
  }

  /** Deleting leaves a tombstone, so no chain is broken. */
  lemma Delete<K, V>(hash: K -> nat, n: nat, st: seq<Mark>, keys: seq<K>, vals: seq<V>, m: map<K, V>, i: nat)
    requires Coherent(hash, n, st, keys, vals, m) && i < n && st[i] == LIVE
    ensures keys[i] in m
    ensures Coherent(hash, n, st[i := DELETED], keys, vals, m - {keys[i]})
    ensures |LiveSet(st[i := DELETED])| == |LiveSet(st)| - 1
    ensures |Occupied(st[i := DELETED])| == |Occupied(st)|
  {
    MarkDead(st, i, DELETED);
    StoresIffHolds(LiveUse(st), n, keys, vals, m);
    HoldsRemove(LiveSet(st), keys, vals, m, i);
    StoresIffHolds(LiveUse(st[i := DELETED]), n, keys, vals, m - {keys[i]});
    ChainMonotone(hash, n, st, st[i := DELETED], keys, keys, {});
  }

  /** A table of empty buckets holds the empty map. */
  lemma AllEmpty<K, V>(hash: K -> nat, n: nat, keys: seq<K>, vals: seq<V>)
    requires n <= |keys| && n <= |vals| && (n == 0 || IsPow2(n))
    ensures Coherent(hash, n, EmptyMarks(n), keys, vals, map[])
    ensures LiveSet(EmptyMarks(n)) == {} && Occupied(EmptyMarks(n)) == {}
  {
    assert LiveSet(EmptyMarks(n)) == {};
    StoresIffHolds(LiveUse(EmptyMarks(n)), n, keys, vals, map[]);
  }

  /** Inserting a new key into a free bucket of its own chain. */
  lemma Insert<K, V>(hash: K -> nat, n: nat, st: seq<Mark>, keys: seq<K>, vals: seq<V>, m: map<K, V>, i: nat, k: K)
    requires Coherent(hash, n, st, keys, vals, m) && i < n && st[i] != LIVE && k !in m
    requires Reached(hash(k), n, st, i)
    ensures Coherent(hash, n, st[i := LIVE], keys[i := k], vals, m[k := vals[i]])
    ensures |LiveSet(st[i := LIVE])| == |LiveSet(st)| + 1 <= |Occupied(st[i := LIVE])|
    ensures |Occupied(st[i := LIVE])| == |Occupied(st)| + (if st[i].empty then 1 else 0)
  {
    MarkLive(st, i);
    LiveAreOccupied(st[i := LIVE]);
    assert vals[i := vals[i]] == vals;
    StoresIffHolds(LiveUse(st), n, keys, vals, m);
    HoldsAdd(LiveSet(st), keys, vals, m, i, k, vals[i]);
    StoresIffHolds(LiveUse(st[i := LIVE]), n, keys[i := k], vals, m[k := vals[i]]);
    PlaceInChain(hash, st, keys, k, i);
  }

  /** A newly placed key that is reached keeps all chains, since it only fills a bucket. */
  lemma PlaceInChain<K>(hash: K -> nat, st: seq<Mark>, keys: seq<K>, k: K, i: nat)
    requires IsPow2(|st|) && |st| <= |keys| && ChainOk(hash, |st|, st, keys)
    requires i < |st| && st[i] != LIVE && Reached(hash(k), |st|, st, i)
    ensures ChainOk(hash, |st|, st[i := LIVE], keys[i := k])
  {
    ChainMonotone(hash, |st|, st, st[i := LIVE], keys, keys[i := k], {i});
  }

  lemma Store<K, V>(hash: K -> nat, n: nat, st: seq<Mark>, keys: seq<K>, vals: seq<V>, m: map<K, V>, i: nat, v: V)
    requires Coherent(hash, n, st, keys, vals, m) && i < n && st[i] == LIVE
    ensures Coherent(hash, n, st, keys, vals[i := v], m[keys[i] := v])
  {
    StoresIffHolds(LiveUse(st), n, keys, vals, m);
    HoldsStore(LiveSet(st), keys, vals, m, i, v);
    StoresIffHolds(LiveUse(st), n, keys, vals[i := v], m[keys[i] := v]);
  }

  /** A key that is live somewhere is in the map, with the value stored there. */
  lemma Found<K, V>(hash: K -> nat, n: nat, st: seq<Mark>, keys: seq<K>, vals: seq<V>, m: map<K, V>, i: nat)
    requires Coherent(hash, n, st, keys, vals, m) && i < n && st[i] == LIVE
    ensures keys[i] in m && m[keys[i]] == vals[i]
  {
    StoresIffHolds(LiveUse(st), n, keys, vals, m);
  }

  /** A search that stops at an empty bucket, or after n steps, has shown the key to be absent. */
  lemma Missing<K, V>(hash: K -> nat, n: nat, st: seq<Mark>, keys: seq<K>, vals: seq<V>, m: map<K, V>, key: K, s: nat)
    requires Coherent(hash, n, st, keys, vals, m) && n > 0
    requires Passed(hash(key), key, n, st, keys, s)
    requires s >= n || st[At(hash(key), s, n)].empty
    ensures key !in m
  {
    AbsentAfter(hash, key, n, st, keys, s);
    StoresIffHolds(LiveUse(st), n, keys, vals, m);
    HoldsOnly(LiveSet(st), keys, vals, m);
  }

  /** Moving the arrays to other blocks with the same first n entries changes nothing. */
  lemma Moved<K, V>(hash: K -> nat, n: nat, st: seq<Mark>, keys: seq<K>, vals: seq<V>, m: map<K, V>,
                    keys': seq<K>, vals': seq<V>)
    requires Coherent(hash, n, st, keys, vals, m) && n <= |keys'| && n <= |vals'|
    requires keys'[..n] == keys[..n] && vals'[..n] == vals[..n]
    ensures Coherent(hash, n, st, keys', vals', m)
  {
    StoresIffHolds(LiveUse(st), n, keys, vals, m);
    forall i | i in LiveSet(st)
      ensures keys'[i] == keys[i] && vals'[i] == vals[i]
    {
      assert keys'[..n][i] == keys[..n][i] && vals'[..n][i] == vals[..n][i];
    }
    HoldsFrame(LiveSet(st), keys, vals, m, keys', vals');
    StoresIffHolds(LiveUse(st), n, keys', vals', m);
    if n > 0 {
      ChainMonotone(hash, n, st, st, keys, keys', {});
    }
  }

  /** Where kh_put may insert on the chain that starts at `home`: the last tombstone ahead of the first
      empty bucket or, when there is no tombstone ahead of it, that empty bucket. */
  ghost predicate PutSite(home: nat, n: nat, st: seq<Mark>, x: nat)
    requires IsPow2(n) && |st| == n
  {
    exists d: nat, e: nat :: PutSiteAt(home, n, st, x, d, e)
  }

  ghost predicate PutSiteAt(home: nat, n: nat, st: seq<Mark>, x: nat, d: nat, e: nat)
    requires n > 0 && |st| == n
  {
    && d <= e < n && x == At(home, d, n) && st[x] != LIVE
    && st[At(home, e, n)].empty && (forall t: nat :: t < e ==> !st[At(home, t, n)].empty)
    && (forall t: nat :: t < e && (d < t || d == e) ==> st[At(home, t, n)] == LIVE)
  }

  /** The state of kh_put's search after `step` probes: the key was not met, and `site` is the last
      tombstone met (at step d), or n when there was none. */
  ghost predicate Scan<K>(home: nat, key: K, n: nat, st: seq<Mark>, keys: seq<K>, step: nat, site: nat, d: nat)
    requires n > 0 && |st| == n && n <= |keys|
  {
    && Passed(home, key, n, st, keys, step)
    && (site == n || (d < step && site == At(home, d, n) && st[site] == DELETED))
    && (forall t: nat :: t < step && (site == n || d < t) ==> st[At(home, t, n)] == LIVE)
  }

  lemma ScanNext<K>(home: nat, key: K, n: nat, st: seq<Mark>, keys: seq<K>, step: nat, site: nat, d: nat)
    requires n > 0 && |st| == n && n <= |keys| && Scan(home, key, n, st, keys, step, site, d)
    requires st[At(home, step, n)] == LIVE ==> keys[At(home, step, n)] != key
    requires !st[At(home, step, n)].empty
    requires st[At(home, step, n)] == LIVE || st[At(home, step, n)] == DELETED
    ensures st[At(home, step, n)] == LIVE ==> Scan(home, key, n, st, keys, step + 1, site, d)
    ensures st[At(home, step, n)] == DELETED ==> Scan(home, key, n, st, keys, step + 1, At(home, step, n), step)
  {
  }

  lemma ScanEnd<K>(home: nat, key: K, n: nat, st: seq<Mark>, keys: seq<K>, step: nat, site: nat, d: nat)
    requires IsPow2(n) && |st| == n && n <= |keys| && Scan(home, key, n, st, keys, step, site, d)
    requires step < n && st[At(home, step, n)].empty
    ensures PutSite(home, n, st, if site != n then site else At(home, step, n))
  {
    assert st[At(home, step, n)] != LIVE;
    if site != n {
      assert PutSiteAt(home, n, st, site, d, step);
    } else {
      assert PutSiteAt(home, n, st, At(home, step, n), step, step);
    }
  }

  lemma PutSiteReached(home: nat, n: nat, st: seq<Mark>, x: nat)
    requires IsPow2(n) && |st| == n && PutSite(home, n, st, x)
    ensures x < n && st[x] != LIVE && Reached(home, n, st, x)
  {
    var d: nat, e: nat :| PutSiteAt(home, n, st, x, d, e);
    WalkReaches(home, n, st, d);
  }

  /** A search that has gone all the way round has met every bucket: none is empty, and they are all live when it
      met no tombstone. */
  lemma WentRound<K>(home: nat, key: K, n: nat, st: seq<Mark>, keys: seq<K>, step: nat, site: nat, d: nat)
    requires IsPow2(n) && |st| == n && n <= |keys| && Scan(home, key, n, st, keys, step, site, d) && step >= n
    ensures forall i: nat :: i < n ==> !st[i].empty
    ensures site == n ==> forall i: nat :: i < n ==> st[i] == LIVE
  {
    forall i: nat | i < n
      ensures !st[i].empty && (site == n ==> st[i] == LIVE)
    {
      assert At(home, StepOf(home, i, n), n) == i;
    }
  }

  lemma LiveCount(st: seq<Mark>)
    ensures |LiveSet(st)| == |st| <==> forall i: nat :: i < |st| ==> st[i] == LIVE
    ensures |LiveSet(st)| <= |st|
  {
    var all := Range(|st|);
    SubsetSize(LiveSet(st), all);
    if forall i: nat :: i < |st| ==> st[i] == LIVE {
      assert LiveSet(st) == all;
    }
    if |LiveSet(st)| == |st| {
      SubsetOfSameSize(LiveSet(st), all);
      forall i: nat | i < |st|
        ensures st[i] == LIVE
      {
        assert i in all;
      }
    }
  }

  /** A bucket of a table without empty buckets is on every chain. */
  lemma NoEmptyReached(home: nat, n: nat, st: seq<Mark>, x: nat)
    requires IsPow2(n) && |st| == n && x < n && forall i: nat :: i < n ==> !st[i].empty
    ensures Reached(home, n, st, x)
  {
  }

  lemma AllUsed(st: seq<Mark>)
    requires forall i: nat :: i < |st| ==> st[i] == LIVE
    ensures Used(LiveUse(st), |st|) == LiveSet(st) == Range(|st|)
  {
  }

  lemma FullStores(st: seq<Mark>, keys: seq<nat>, m: map<nat, nat>)
    requires IdentityTable(st, keys, m)
    ensures Stores(LiveUse(st), |st|, keys, keys, m)
  {
    AllUsed(st);
    assert |m| == |m.Keys|;
    StoresIffHolds(LiveUse(st), |st|, keys, keys, m);
  }

  lemma FullChains(hash: nat -> nat, st: seq<Mark>, keys: seq<nat>)
    requires IsPow2(|st|) && |keys| == |st| && forall i: nat :: i < |st| ==> st[i] == LIVE
    ensures ChainOk(hash, |st|, st, keys)
  {
    forall i: nat | i < |st|
      ensures Reached(hash(keys[i]), |st|, st, i)
    {
      NoEmptyReached(hash(keys[i]), |st|, st, i);
    }
  }

  /** Every bucket is live, and bucket i holds key i with value i. */
  ghost predicate IdentityTable(st: seq<Mark>, keys: seq<nat>, m: map<nat, nat>) {
    && (forall i: nat :: i < |st| ==> st[i] == LIVE) && |keys| == |st|
    && (forall i: nat :: i < |st| ==> keys[i] == i) && m.Keys == Range(|st|)
    && (forall k :: k in m ==> m[k] == k)
  }

  lemma FullCoherent(hash: nat -> nat, st: seq<Mark>, keys: seq<nat>, m: map<nat, nat>)
    requires IsPow2(|st|) && IdentityTable(st, keys, m)
    ensures Coherent(hash, |st|, st, keys, keys, m) && |m| == |LiveSet(st)| == |st|
  {
    AllUsed(st);
    FullStores(st, keys, m);
    FullChains(hash, st, keys);
    assert |m| == |m.Keys|;
  }

  lemma MakeFull(n: nat) returns (st: seq<Mark>, keys: seq<nat>, m: map<nat, nat>)
    ensures IdentityTable(st, keys, m) && |st| == n
  {
    st, keys, m := seq(n, _ => LIVE), seq(n, i => i), map i | i in Range(n) :: i;
  }

  /** A table in which every bucket is live can exist, whatever the hash function. */
  lemma FullTable(hash: nat -> nat, n: nat) returns (st: seq<Mark>, keys: seq<nat>, m: map<nat, nat>)
    requires IsPow2(n)
    ensures Coherent(hash, n, st, keys, keys, m)
    ensures (forall i: nat :: i < n ==> st[i] == LIVE) && |m| == |LiveSet(st)| == n
  {
    st, keys, m := MakeFull(n);
    FullCoherent(hash, st, keys, m);
  }
}
