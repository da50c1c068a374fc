/** The open-addressing hash table of khash.h: triangular probing over a power-of-two number of
    buckets, tombstones, packed flag words, and a rehash that works inside the key and value arrays. */
module KHash {
  import opened Probe
  import opened Flags
  import opened RoundUp
  import opened Slots
  import opened Rehash

  /** The largest table that can still be doubled in 32-bit arithmetic. */
  const MAX_DOUBLING: nat := 0x4000_0000

  /** realloc: a block of n elements that keeps the common prefix. */
  method Realloc<T(0)>(a: array<T>, n: nat) returns (b: array<T>)
    ensures fresh(b) && b.Length == n
    ensures forall i :: 0 <= i < n && i < a.Length ==> b[i] == a[i]
  {
    b := new T[n];
    for i := 0 to if n < a.Length then n else a.Length
      invariant forall j :: 0 <= j < i ==> b[j] == a[j]
    {
      b[i] := a[i];
    }
  }

  lemma FSizeFits(n: nat)
    requires IsPow2(n)
    ensures n <= 16 * FSize(n)
  {
    if n >= 16 {
      assert n % 16 == 0 by { DividesPow2(n); }
    }
  }

  lemma DividesPow2(n: nat)
    requires IsPow2(n) && n >= 16
    ensures n % 16 == 0
  {
    assert IsPow2(n / 2) && IsPow2(n / 2 / 2) && IsPow2(n / 2 / 2 / 2);
  }

  /** The flag words of a table of n empty buckets. */
  method NewFlags(n: nat) returns (flags: array<bv32>)
    requires IsPow2(n)
    ensures fresh(flags) && FSize(n) <= flags.Length && n <= 16 * flags.Length
    ensures Marks(flags[..], n) == EmptyMarks(n)
  {
    FSizeFits(n);
    flags := new bv32[FSize(n)];
    FillEmpty(flags, n);
  }

  lemma StoredTwice<K, V>(m: map<K, V>, k: K, v: V, w: V)
    ensures m[k := v][k := w] == m[k := w]
  {
  }

  /** There is one size beyond 2^30. */
  lemma BigTable(n: nat)
    requires IsPow2(n) && MAX_DOUBLING < n <= WORD / 2
    ensures n == WORD / 2
  {
    Pow32();
    var w := Pow(32);
    assert IsPow2(w / 2);
    if n < w / 2 {
      Pow2Gap(n, w / 2);
    }
  }

  /** The case in which kh_put fails its client can arise: 2^31 live buckets make a coherent table. */
  lemma LargestFullTable(hash: nat -> nat) returns (st: seq<Mark>, keys: seq<nat>, m: map<nat, nat>)
    ensures Coherent(hash, WORD / 2, st, keys, keys, m)
    ensures (forall i: nat :: i < WORD / 2 ==> st[i] == LIVE) && |m| == |LiveSet(st)| == WORD / 2
  {
    Pow32();
    var w := Pow(32);
    assert IsPow2(w / 2);
    st, keys, m := FullTable(hash, w / 2);
  }

  /** How many buckets kh_put leaves in a table of n buckets that has reached its load limit: as many, to get rid of
      tombstones, when less than half of them are live, and twice as many otherwise. */
  ghost function GrownSize(n: nat, size: nat): nat {
    if n == 0 then 4 else if 2 * size < n then n else 2 * n
  }

  /** The allocations a rehash from n to n' buckets makes: new flags and, to expand, new key and value blocks. */
  ghost function Needed(n: nat, n': nat): nat {
    if n < n' then 3 else 1
  }

  /** The table size a request is rounded to. */
  ghost function Target(requested: nat): nat {
    if 1 <= requested <= WORD / 2 && LeastPow2(requested) >= 4 then LeastPow2(requested) else 4
  }

  /** What the requests n - 1 and n + 1 come to. */
  lemma Targets(n: nat)
    requires IsPow2(n) && 4 <= n <= WORD / 2
    ensures Target(n - 1) == n
    ensures Target(n + 1) == if n <= MAX_DOUBLING then 2 * n else 4
    ensures UpperBound(4) < n / 2 || n <= MAX_DOUBLING
  {
    PutRequests(n);
    if n > MAX_DOUBLING {
      BigTable(n);
    }
  }

  /** size << 1 in 32 bits. */
  lemma DoubleSize(size: nat)
    requires size <= WORD / 2
    ensures (2 * size) % WORD == if size == WORD / 2 then 0 else 2 * size
  {
  }

  class Table<K(==, 0), V(0)> {
    const hash: K -> nat
    var nBuckets: nat
    var size: nat
    var nOccupied: nat
    var upperBound: nat
    var flags: array<bv32>
    var keys: array<K>
    var vals: array<V>
    ghost var marks: seq<Mark>        // the status of every bucket
    ghost var contents: map<K, V>     // the finite map the table stands for

    ghost function Repr(): set<object>
      reads this
    {
      {this, flags, keys, vals}
    }

    /** The arrays are different blocks of sufficient size, and every bucket is empty, live or a tombstone. */
    ghost predicate Laid()
      reads this, flags
    {
      && (flags as object != keys as object) && (flags as object != vals as object)
      && (keys as object != vals as object)
      && (nBuckets > 0 ==> FSize(nBuckets) <= flags.Length)
      && nBuckets <= 16 * flags.Length
      && nBuckets <= keys.Length && nBuckets <= vals.Length
      && (nBuckets > 0 ==> IsPow2(nBuckets))
      && marks == Marks(flags[..], nBuckets)
      && (forall i: nat :: i < nBuckets ==> marks[i] == EMPTY || marks[i] == LIVE || marks[i] == DELETED)
    }

    /** The probe-chain invariant: what a search relies on. */
    ghost predicate WellFormed()
      reads this, flags, keys, vals
    {
      Laid() && Coherent(hash, nBuckets, marks, keys[..], vals[..], contents)
    }

    /** The counters count, and a table that can still be doubled keeps to its load limit. */
    ghost predicate Counted()
      reads this
    {
      && (nBuckets == 0 || 4 <= nBuckets <= WORD / 2)
      && size == |LiveSet(marks)|
      && nOccupied == |Occupied(marks)|
      && upperBound == (if nBuckets == 0 then 0 else UpperBound(nBuckets))
      && size <= nOccupied
      && (nOccupied <= upperBound || nBuckets == WORD / 2)
    }

    ghost predicate Valid()
      reads this, flags, keys, vals
    {
      WellFormed() && Counted()
    }

    /** kh_init: no buckets at all. */
    constructor (hash: K -> nat)
      ensures Valid() && contents == map[] && nBuckets == 0 && this.hash == hash
      ensures fresh(Repr())
    {
      this.hash := hash;
      nBuckets, size, nOccupied, upperBound := 0, 0, 0, 0;
      flags := new bv32[0];
      keys := new K[0];
      vals := new V[0];
      marks, contents := [], map[];
      new;
      assert LiveSet(marks) == {} && Occupied(marks) == {};
    }

    /** The probe loop of kh_get: walks to the key or to an empty bucket, or all the way round. */
    method Lookup(key: K) returns (i: nat, wrapped: bool, ghost step: nat)
      requires Laid() && nBuckets > 0
      ensures i == At(hash(key), step, nBuckets) && Passed(hash(key), key, nBuckets, marks, keys[..], step)
      ensures wrapped ==> step >= nBuckets
      ensures !wrapped ==> marks[i].empty || (marks[i] == LIVE && keys[i] == key)
    {
      i, wrapped := Mask(hash(key), nBuckets), false;
      var last, count := i, 0;
      step := 0;
      var mark := Read(flags, i, nBuckets);
      while !mark.empty && (mark.deleted || keys[i] != key)
        invariant count == step < 2 * nBuckets - 1 && i == At(hash(key), step, nBuckets) && mark == marks[i]
        invariant Passed(hash(key), key, nBuckets, marks, keys[..], step)
        decreases 2 * nBuckets - step
      {
        PassedNext(hash(key), key, nBuckets, marks, keys[..], step);
        count, step := count + 1, step + 1;
        i := Mask(i + count, nBuckets);
        FirstReturn(hash(key), step, nBuckets);
        if i == last {
          wrapped := true;
          return;
        }
        mark := Read(flags, i, nBuckets);
      }
    }

    /** kh_get: the bucket that holds the key, or nBuckets when the key is absent. */
    method Get(key: K) returns (k: nat)
      requires WellFormed()
      ensures key in contents ==>
                k < nBuckets && marks[k] == LIVE && keys[k] == key && vals[k] == contents[key]
      ensures key !in contents ==> k == nBuckets
    {
      if nBuckets == 0 {
        return 0;
      }
      var i, wrapped, step := Lookup(key);
      if wrapped {
        Missing(hash, nBuckets, marks, keys[..], vals[..], contents, key, step);
        return nBuckets;
      }
      EndOfSearch(key, step, i);
      var either := ReadEither(flags, i, nBuckets);
      k := if either then nBuckets else i;
    }

    /** Where a search may stop: at an empty bucket the key is absent, at its own bucket it is found. */
    lemma EndOfSearch(key: K, step: nat, i: nat)
      requires WellFormed() && nBuckets > 0 && i == At(hash(key), step, nBuckets)
      requires Passed(hash(key), key, nBuckets, marks, keys[..], step)
      requires marks[i].empty || (marks[i] == LIVE && keys[i] == key)
      ensures if marks[i].empty then key !in contents else key in contents && contents[key] == vals[i]
    {
      if marks[i].empty {
        Missing(hash, nBuckets, marks, keys[..], vals[..], contents, key, step);
      } else {
        Found(hash, nBuckets, marks, keys[..], vals[..], contents, i);
      }
    }

    /** kh_value(h, x) = v */
    method SetValue(x: nat, v: V)
      requires Valid() && x < nBuckets && marks[x] == LIVE
      modifies vals, this`contents
      ensures Valid() && contents == old(contents)[keys[x] := v]
    {
      Store(hash, nBuckets, marks, keys[..], vals[..], contents, x, v);
      ghost var vs := vals[..];
      vals[x] := v;
      assert vals[..] == vs[x := v];
      contents := contents[keys[x] := v];
    }

    /** kh_del: a live bucket becomes a tombstone; any other argument changes nothing. */
    method Del(x: nat)
      requires Valid() && x <= nBuckets
      modifies this`size, this`marks, this`contents, flags
      ensures Valid()
      ensures x < nBuckets && old(marks)[x] == LIVE ==>
                marks == old(marks)[x := DELETED] && keys[x] in old(contents) && contents == old(contents) - {keys[x]}
      ensures x == nBuckets || old(marks)[x] != LIVE ==> marks == old(marks) && contents == old(contents)
    {
      if x == nBuckets {
        return;
      }
      var either := ReadEither(flags, x, nBuckets);
      if !either {
        Delete(hash, nBuckets, marks, keys[..], vals[..], contents, x);
        SetIsDelTrue(flags, x, nBuckets);
        size := size - 1;
        marks := marks[x := DELETED];
        contents := contents - {keys[x]};
      }
    }

    /** kh_clear: every bucket becomes empty; the arrays are kept. */
    method Clear()
      requires Valid()
      modifies this`size, this`nOccupied, this`marks, this`contents, flags
      ensures Valid() && contents == map[]
      ensures forall i: nat :: i < nBuckets ==> marks[i] == EMPTY
    {
      AllEmpty(hash, nBuckets, keys[..], vals[..]);
      if nBuckets != 0 {
        FSizeFits(nBuckets);
        FillEmpty(flags, nBuckets);
        size, nOccupied := 0, 0;
        marks, contents := EmptyMarks(nBuckets), map[];
      }
    }

    /** The probe loop of kh_resize: the first empty bucket of the new table on the key's chain. */
    method FindEmpty(newFlags: array<bv32>, n: nat, key: K) returns (i: nat)
      requires IsPow2(n) && n <= 16 * newFlags.Length
      requires |Occupied(Marks(newFlags[..], n))| < n
      ensures i < n && Marks(newFlags[..], n)[i].empty && Reached(hash(key), n, Marks(newFlags[..], n), i)
    {
      ghost var home, st := hash(key), Marks(newFlags[..], n);
      ghost var e := SomeEmpty(st);
      i := Mask(hash(key), n);
      var step := 0;
      var mark := Read(newFlags, i, n);
      while !mark.empty
        invariant step <= StepOf(home, e, n) && i == At(home, step, n) && mark == st[i]
        invariant forall t: nat :: t < step ==> !st[At(home, t, n)].empty
        decreases n - step
      {
        step := step + 1;
        i := Mask(i + step, n);
        mark := Read(newFlags, i, n);
      }
      WalkReaches(home, n, st, step);
    }

    /** In the middle of a rehash to n buckets: the old table (`flags`) and the new one (`newFlags`)
        share the key and value arrays and together hold exactly m. */
    ghost predicate Rehashing(newFlags: array<bv32>, n: nat, m: map<K, V>)
      reads this, flags, keys, vals, newFlags
    {
      && (flags as object != keys as object) && (flags as object != vals as object)
      && (keys as object != vals as object)
      && (newFlags as object != keys as object) && (newFlags as object != vals as object) && newFlags != flags
      && nBuckets <= 16 * flags.Length && n <= 16 * newFlags.Length
      && marks == Marks(flags[..], nBuckets)
      && Split(hash, marks, Marks(newFlags[..], n), keys[..], vals[..], m)
    }

    /** Swaps the element in hand with the old one in bucket i, which becomes a tombstone of the old table. */
    method SwapOut(newFlags: array<bv32>, n: nat, i: nat, key: K, val: V) returns (key': K, val': V)
      requires Rehashing(newFlags, n, contents - {key}) && key in contents && contents[key] == val
      requires i < n && Marks(newFlags[..], n)[i].empty && Reached(hash(key), n, Marks(newFlags[..], n), i)
      requires i < nBuckets && marks[i] == LIVE
      modifies this`marks, flags, newFlags, keys, vals
      ensures Rehashing(newFlags, n, contents - {key'}) && key' in contents && contents[key'] == val'
      ensures Stored(marks, Marks(newFlags[..], n)) == old(Stored(marks, Marks(newFlags[..], n)))
      ensures marks == old(marks)[i := DELETED] && |LiveSet(marks)| < old(|LiveSet(marks)|)
    {
      ghost var after, ks, vs := Marks(newFlags[..], n), keys[..], vals[..];
      Kick(hash, marks, after, ks, vs, contents, key, val, i);
      assert after[i] == EMPTY;
      SetIsEmptyFalse(newFlags, i, n);
      key', keys[i] := keys[i], key;
      val', vals[i] := vals[i], val;
      SetIsDelTrue(flags, i, nBuckets);
      marks := marks[i := DELETED];
      assert keys[..] == ks[i := key] && vals[..] == vs[i := val];
    }

    /** Writes the element in hand into bucket i, which the old table does not use. */
    method PutDown(newFlags: array<bv32>, n: nat, i: nat, key: K, val: V)
      requires Rehashing(newFlags, n, contents - {key}) && key in contents && contents[key] == val
      requires i < n && Marks(newFlags[..], n)[i].empty && Reached(hash(key), n, Marks(newFlags[..], n), i)
      requires i < nBuckets ==> marks[i] != LIVE
      modifies newFlags, keys, vals
      ensures Rehashing(newFlags, n, contents)
      ensures Stored(marks, Marks(newFlags[..], n)) == old(Stored(marks, Marks(newFlags[..], n))) + 1
    {
      ghost var after, ks, vs := Marks(newFlags[..], n), keys[..], vals[..];
      Settle(hash, marks, after, ks, vs, contents - {key}, key, val, i);
      MapPutBack(contents, key);
      assert after[i] == EMPTY;
      SetIsEmptyFalse(newFlags, i, n);
      keys[i] := key;
      vals[i] := val;
      assert keys[..] == ks[i := key] && vals[..] == vs[i := val];
    }

    /** The kick-out loop of kh_resize: places one element, and every old element it displaces. */
    method KickOut(newFlags: array<bv32>, n: nat, key0: K, val0: V)
      requires Rehashing(newFlags, n, contents - {key0}) && key0 in contents && contents[key0] == val0
      requires Stored(marks, Marks(newFlags[..], n)) + 1 == size < n
      modifies this`marks, flags, newFlags, keys, vals
      ensures Rehashing(newFlags, n, contents)
      ensures Stored(marks, Marks(newFlags[..], n)) == size
      ensures forall i: nat :: i < nBuckets && old(marks)[i] != LIVE ==> marks[i] != LIVE
    {
      var key, val := key0, val0;
      while true
        invariant Rehashing(newFlags, n, contents - {key}) && key in contents && contents[key] == val
        invariant Stored(marks, Marks(newFlags[..], n)) + 1 == size
        invariant forall i: nat :: i < nBuckets && old(marks)[i] != LIVE ==> marks[i] != LIVE
        decreases |LiveSet(marks)|
      {
        RoomToPlace(marks, Marks(newFlags[..], n));
        var i := FindEmpty(newFlags, n, key);
        var free := true;
        if i < nBuckets {
          free := ReadEither(flags, i, nBuckets);
        }
        if free {
          PutDown(newFlags, n, i, key, val);
          return;
        }
        key, val := SwapOut(newFlags, n, i, key, val);
      }
    }

    /** Takes the old element of bucket j in hand. */
    method TakeOut(newFlags: array<bv32>, n: nat, j: nat) returns (key: K, val: V)
      requires Rehashing(newFlags, n, contents) && j < nBuckets && marks[j] == LIVE
      modifies this`marks, flags
      ensures Rehashing(newFlags, n, contents - {key}) && key in contents && contents[key] == val
      ensures Stored(marks, Marks(newFlags[..], n)) + 1 == old(Stored(marks, Marks(newFlags[..], n)))
      ensures marks == old(marks)[j := DELETED]
    {
      PickUp(hash, marks, Marks(newFlags[..], n), keys[..], vals[..], contents, j);
      key, val := keys[j], vals[j];
      SetIsDelTrue(flags, j, nBuckets);
      marks := marks[j := DELETED];
    }

    /** The outer loop of kh_resize: moves every live bucket of the old table into the new one. */
    method RehashInto(newFlags: array<bv32>, n: nat)
      requires Rehashing(newFlags, n, contents)
      requires Stored(marks, Marks(newFlags[..], n)) == size < n
      modifies this`marks, flags, newFlags, keys, vals
      ensures Rehashing(newFlags, n, contents)
      ensures Stored(marks, Marks(newFlags[..], n)) == size
      ensures forall i: nat :: i < nBuckets ==> marks[i] != LIVE
    {
      for j := 0 to nBuckets
        invariant Rehashing(newFlags, n, contents)
        invariant Stored(marks, Marks(newFlags[..], n)) == size
        invariant forall i: nat :: i < j ==> marks[i] != LIVE
      {
        var either := ReadEither(flags, j, nBuckets);
        if !either {
          var key, val := TakeOut(newFlags, n, j);
          KickOut(newFlags, n, key, val);
        }
      }
    }

    /** Moves every live bucket into the new table. */
    method MoveAll(newFlags: array<bv32>, n: nat)
      requires WellFormed() && size == |LiveSet(marks)| && IsPow2(n) && size < n
      requires n <= keys.Length && n <= vals.Length && n <= 16 * newFlags.Length
      requires newFlags !in Repr() && Marks(newFlags[..], n) == EmptyMarks(n)
      modifies this`marks, flags, newFlags, keys, vals
      ensures Coherent(hash, n, Marks(newFlags[..], n), keys[..], vals[..], contents)
      ensures |LiveSet(Marks(newFlags[..], n))| == |Occupied(Marks(newFlags[..], n))| == size
      ensures forall i: nat :: i < n ==> Marks(newFlags[..], n)[i] != DELETED
    {
      StartSplit(hash, marks, n, keys[..], vals[..], contents);
      RehashInto(newFlags, n);
      EndSplit(hash, marks, Marks(newFlags[..], n), keys[..], vals[..], contents);
    }

    /** Puts the new table in the place of the old one, giving back the space a smaller table does not need. */
    method Install(newFlags: array<bv32>, n: nat)
      requires FSize(n) <= newFlags.Length && n <= 16 * newFlags.Length
      requires Coherent(hash, n, Marks(newFlags[..], n), keys[..], vals[..], contents)
      requires newFlags !in Repr() && keys as object != vals as object
      modifies this`flags, this`keys, this`vals, this`marks, this`nBuckets
      ensures WellFormed() && nBuckets == n && marks == Marks(newFlags[..], n)
      ensures flags == newFlags && (keys == old(keys) || fresh(keys)) && (vals == old(vals) || fresh(vals))
    {
      if nBuckets > n {
        var keys' := Realloc(keys, n);
        var vals' := Realloc(vals, n);
        assert keys'[..n] == keys[..n] && vals'[..n] == vals[..n];
        Moved(hash, n, Marks(newFlags[..], n), keys[..], vals[..], contents, keys'[..], vals'[..]);
        keys, vals := keys', vals';
      }
      flags := newFlags;
      marks := Marks(newFlags[..], n);
      nBuckets := n;
    }

    /** The rehash itself: every live bucket moves to the new table, which then replaces the old one. */
    method Rebuild(newFlags: array<bv32>, n: nat)
      requires Valid() && IsPow2(n) && 4 <= n <= WORD / 2 && size < UpperBound(n)
      requires n <= keys.Length && n <= vals.Length && FSize(n) <= newFlags.Length && n <= 16 * newFlags.Length
      requires newFlags !in Repr() && Marks(newFlags[..], n) == EmptyMarks(n)
      modifies this, flags, newFlags, keys, vals
      ensures Valid() && contents == old(contents) && size == old(size)
      ensures nBuckets == n && nOccupied == size && (forall i: nat :: i < n ==> marks[i] != DELETED)
      ensures flags == newFlags && (keys == old(keys) || fresh(keys)) && (vals == old(vals) || fresh(vals))
    {
      LoadRoom(n);
      MoveAll(newFlags, n);
      Install(newFlags, n);
      nOccupied := size;
      upperBound := ComputeUpperBound(n);
    }

    /** kh_resize: `memory` is the number of allocation requests that will be granted. The map never changes;
        a request too small for the elements is ignored, any other one leaves a table without tombstones. */
    method Resize(requested: nat, memory: nat) returns (ret: int)
      requires Valid() && requested < WORD
      modifies this, flags, keys, vals
      ensures Valid() && contents == old(contents) && size == old(size)
      ensures fresh(Repr() - old(Repr()))
      ensures ret == if size < UpperBound(Target(requested)) && memory < Needed(old(nBuckets), Target(requested))
                     then -1 else 0
      ensures ret == -1 || size >= UpperBound(Target(requested)) ==>
                marks == old(marks) && nBuckets == old(nBuckets) && nOccupied == old(nOccupied)
      ensures ret == 0 && size < UpperBound(Target(requested)) ==>
                nBuckets == Target(requested) && nOccupied == size
                && forall i: nat :: i < nBuckets ==> marks[i] != DELETED
    {
      var n := KRoundUp32(requested);
      if n < 4 {
        n := 4;
      }
      var limit := ComputeUpperBound(n);
      if size >= limit {
        return 0;
      }
      ret := ResizeTo(n, memory);
    }

    /** The part of kh_resize that allocates: new flags, then, to expand, new key and value blocks. */
    method ResizeTo(n: nat, memory: nat) returns (ret: int)
      requires Valid() && IsPow2(n) && 4 <= n <= WORD / 2 && size < UpperBound(n)
      modifies this, flags, keys, vals
      ensures fresh(Repr() - old(Repr()))
      ensures Valid() && contents == old(contents) && size == old(size)
      ensures (ret == 0 || ret == -1) && (ret == -1 <==> memory < Needed(old(nBuckets), n))
      ensures ret == -1 ==> marks == old(marks) && nBuckets == old(nBuckets) && nOccupied == old(nOccupied)
      ensures ret == 0 ==> nBuckets == n && nOccupied == size && forall i: nat :: i < nBuckets ==> marks[i] != DELETED
    {
      if memory == 0 {
        return -1;
      }
      var newFlags := NewFlags(n);
      if nBuckets < n {
        var grown := Grow(n, memory - 1);
        if !grown {
          return -1;
        }
      }
      Rebuild(newFlags, n);
      ret := 0;
    }

    /** The two reallocs of an expansion; the second may fail after the first has succeeded. */
    method Grow(n: nat, memory: nat) returns (grown: bool)
      requires Valid() && nBuckets < n
      modifies this`keys, this`vals
      ensures Valid() && (grown <==> memory >= 2)
      ensures grown ==> keys.Length == n && vals.Length == n
      ensures keys == old(keys) || fresh(keys)
      ensures vals == old(vals) || fresh(vals)
    {
      if memory == 0 {
        return false;
      }
      var keys' := Realloc(keys, n);
      assert keys'[..nBuckets] == keys[..nBuckets];
      Moved(hash, nBuckets, marks, keys[..], vals[..], contents, keys'[..], vals[..]);
      keys := keys';
      if memory == 1 {
        return false;
      }
      var vals' := Realloc(vals, n);
      assert vals'[..nBuckets] == vals[..nBuckets];
      Moved(hash, nBuckets, marks, keys[..], vals[..], contents, keys[..], vals'[..]);
      vals := vals';
      grown := true;
    }

    /** The probe loop of kh_put: walks to the key or to the first empty bucket, or all the way round, remembering
        the last tombstone passed. */
    method Walk(key: K)
      returns (i: nat, site: nat, mark: Mark, wrapped: bool, ghost step: nat, ghost siteStep: nat)
      requires Laid() && nBuckets > 0
      ensures i == At(hash(key), step, nBuckets) && mark == marks[i]
      ensures Scan(hash(key), key, nBuckets, marks, keys[..], step, site, siteStep)
      ensures wrapped ==> step >= nBuckets
      ensures !wrapped ==> mark.empty || (mark == LIVE && keys[i] == key)
    {
      site, siteStep, wrapped := nBuckets, 0, false;
      i := Mask(hash(key), nBuckets);
      step := 0;
      var count := 0;
      var last := i;
      mark := Read(flags, i, nBuckets);
      while !mark.empty && (mark.deleted || keys[i] != key)
        invariant count == step < 2 * nBuckets - 1 && i == At(hash(key), step, nBuckets) && mark == marks[i]
        invariant Scan(hash(key), key, nBuckets, marks, keys[..], step, site, siteStep)
        decreases 2 * nBuckets - step
      {
        ScanNext(hash(key), key, nBuckets, marks, keys[..], step, site, siteStep);
        if mark.deleted {
          site := i;
          siteStep := step;
        }
        count, step := count + 1, step + 1;
        i := Mask(i + count, nBuckets);
        FirstReturn(hash(key), step, nBuckets);
        mark := Read(flags, i, nBuckets);
        if i == last {
          wrapped := true;
          return;
        }
      }
    }

    /** The search of kh_put: the bucket that holds the key or, for a new key, the one to insert it in. When no
        bucket is empty that is a tombstone; and when all buckets are live, it is the bucket of another key. */
    method FindSite(key: K) returns (x: nat)
      requires WellFormed() && nBuckets > 0
      ensures x < nBuckets
      ensures key in contents ==> marks[x] == LIVE && keys[x] == key
      ensures key !in contents ==> PutSite(hash(key), nBuckets, marks, x) || NoneEmpty()
      ensures key !in contents && NoneEmpty() ==> if AllLive() then marks[x] == LIVE
              && keys[x] != key else marks[x] == DELETED
    {
      var i, site, mark, wrapped, step, siteStep := Walk(key);
      if step >= nBuckets {
        WentRound(hash(key), key, nBuckets, marks, keys[..], step, site, siteStep);
      }
      x := i;
      if wrapped {
        Missing(hash, nBuckets, marks, keys[..], vals[..], contents, key, step);
        if site != nBuckets {
          x := site;
        }
        NotTheKey(key, x);
      } else {
        EndOfSearch(key, step, i);
        if mark.empty {
          ScanEnd(hash(key), key, nBuckets, marks, keys[..], step, site, siteStep);
          if site != nBuckets {
            x := site;
          }
        }
      }
    }

    lemma NotTheKey(key: K, x: nat)
      requires WellFormed() && key !in contents && x < nBuckets
      ensures marks[x] == LIVE ==> keys[x] != key
    {
      if marks[x] == LIVE {
        Found(hash, nBuckets, marks, keys[..], vals[..], contents, x);
      }
    }

    ghost predicate NoneEmpty()
      reads this
    {
      forall i: nat :: i < nBuckets && i < |marks| ==> !marks[i].empty
    }

    ghost predicate AllLive()
      reads this
    {
      forall i: nat :: i < nBuckets && i < |marks| ==> marks[i] == LIVE
    }

    /** The table can take one more element without needing a size beyond 32 bits. */
    ghost predicate CanGrow()
      reads this
    {
      nOccupied < upperBound || 2 * size < nBuckets || nBuckets <= MAX_DOUBLING
    }

    /** The next kh_put has to rehash, and the allocations that are granted do not suffice for that. */
    ghost predicate OutOfMemory(memory: nat)
      reads this
    {
      nOccupied >= upperBound && CanGrow() && memory < Needed(nBuckets, GrownSize(nBuckets, size))
    }

    /** All 2^31 buckets of the largest table are live. */
    ghost predicate Full()
      reads this
    {
      size == nBuckets == WORD / 2
    }

    /** The resize at the head of kh_put, where the doubled size is a 32-bit number. Unless memory runs out, it
        leaves room for one more element exactly when the table can grow: at 2^31 buckets the request to double
        rounds to 0 and is ignored. */
    method MakeRoom(memory: nat) returns (ret: int)
      requires Valid()
      modifies this, flags, keys, vals
      ensures fresh(Repr() - old(Repr())) && Valid() && contents == old(contents)
      ensures ret == if old(OutOfMemory(memory)) then -1 else 0
      ensures ret == 0 ==> (nOccupied < upperBound <==> old(CanGrow()))
      ensures old(nOccupied < upperBound || !CanGrow()) ==>
                ret == 0 && marks == old(marks) && nBuckets == old(nBuckets) && size == old(size)
      ensures ret == 0 && old(nOccupied >= upperBound && CanGrow()) ==>
                nBuckets == GrownSize(old(nBuckets), old(size)) && forall i: nat :: i < nBuckets ==> marks[i] != DELETED
      ensures ret == -1 ==> nBuckets == old(nBuckets)
    {
      ret := 0;
      if nOccupied >= upperBound {
        RequestsRebuild();
        if nBuckets > (2 * size) % WORD {
          ret := GrowTo(nBuckets - 1, memory);
        } else {
          ret := GrowTo(nBuckets + 1, memory);
        }
      }
    }

    method GrowTo(requested: nat, memory: nat) returns (ret: int)
      requires Valid() && requested < WORD && (CanGrow() <==> size < UpperBound(Target(requested)))
      requires CanGrow() ==> Target(requested) == GrownSize(nBuckets, size)
      modifies this, flags, keys, vals
      ensures fresh(Repr() - old(Repr())) && Valid() && contents == old(contents)
      ensures ret == if old(CanGrow()) && memory < Needed(old(nBuckets), GrownSize(old(nBuckets), old(size)))
                     then -1 else 0
      ensures nBuckets == if ret == 0 && old(CanGrow()) then GrownSize(old(nBuckets), old(size)) else old(nBuckets)
      ensures ret == 0 && old(CanGrow()) ==>
                nOccupied < upperBound && forall i: nat :: i < nBuckets ==> marks[i] != DELETED
      ensures !old(CanGrow()) ==>
                ret == 0 && marks == old(marks) && nBuckets == old(nBuckets) && size == old(size)
                && nOccupied == old(nOccupied) && upperBound == old(upperBound)
    {
      ret := Resize(requested, memory);
    }

    /** The requests of kh_put: n - 1 rounds to n, n + 1 rounds to 2n (4 for the empty table), and both lead to
        a rehash; only at 2^31 buckets the request to double does not. */
    lemma RequestsRebuild()
      requires Valid() && nOccupied >= upperBound
      ensures size <= nBuckets
      ensures nBuckets > (2 * size) % WORD ==>
                nBuckets > 0 && Target(nBuckets - 1) == nBuckets && (CanGrow() <==> size < UpperBound(nBuckets))
                && (CanGrow() ==> nBuckets == GrownSize(nBuckets, size))
      ensures nBuckets <= (2 * size) % WORD ==> nBuckets + 1 < WORD && (2 * size < nBuckets ==> nBuckets == 0)
      ensures nBuckets <= (2 * size) % WORD ==>
                (CanGrow() <==> size < UpperBound(Target(nBuckets + 1)))
                && (CanGrow() ==> Target(nBuckets + 1) == GrownSize(nBuckets, size))
    {
      LiveCount(marks);
      DoubleSize(size);
      if nBuckets > 0 {
        Targets(nBuckets);
        LoadRoom(nBuckets);
        if nBuckets > MAX_DOUBLING {
          BigTable(nBuckets);
        }
      }
    }

    /** kh_put: finds or makes a bucket for the key. ret is -1 when memory ran out, 0 when the key was present,
        1 when it went into a never used bucket and 2 when it reused a tombstone. It fails its promise in exactly
        one case: for a new key in a full table it returns 0 and the bucket of another key. */
    method Put(key: K, memory: nat) returns (x: nat, ret: int)
      requires Valid()
      modifies this, flags, keys, vals
      ensures Valid() && fresh(Repr() - old(Repr()))
      ensures -1 <= ret <= 2 && (ret == -1 <==> old(OutOfMemory(memory)))
      ensures ret == -1 ==> x == nBuckets && contents == old(contents)
      ensures ret >= 0 ==> x < nBuckets && marks[x] == LIVE
      ensures ret >= 0 ==> (keys[x] == key <==> !(old(Full()) && key !in old(contents)))
      ensures ret == 0 ==> (key in old(contents) || old(Full())) && contents == old(contents)
      ensures ret > 0 ==> key !in old(contents) && contents == old(contents)[key := vals[x]]
      ensures old(nOccupied < upperBound) && ret > 0 ==>
                nBuckets == old(nBuckets) && PutSite(hash(key), nBuckets, old(marks), x)
                && ret == (if old(marks)[x] == EMPTY then 1 else 2)
                && marks == old(marks)[x := LIVE]
      ensures old(nOccupied >= upperBound && CanGrow()) ==> ret != 2
      ensures nBuckets == if ret >= 0 && old(nOccupied >= upperBound && CanGrow())
                          then GrownSize(old(nBuckets), old(size)) else old(nBuckets)
      ensures old(Full()) ==> ret == 0
    {
      ret := MakeRoom(memory);
      if ret < 0 {
        return nBuckets, -1;
      }
      NoRoom();
      x, ret := PutHere(key);
    }

    /** A table without room has 2^31 buckets or none; one with room is not full. */
    lemma NoRoom()
      requires Valid()
      ensures nOccupied >= upperBound && !CanGrow() ==> nBuckets == WORD / 2
      ensures nOccupied < upperBound ==> nBuckets > 0 && nOccupied < nBuckets && !Full()
      ensures size <= nBuckets && (size == nBuckets <==> AllLive())
    {
      LiveCount(marks);
      if nBuckets > 0 {
        LoadRoom(nBuckets);
        if nBuckets > MAX_DOUBLING {
          BigTable(nBuckets);
        }
      }
    }

    /** The second half of kh_put. */
    method PutHere(key: K) returns (x: nat, ret: int)
      requires Valid() && nBuckets > 0 && (nOccupied < upperBound || nBuckets == WORD / 2)
      modifies this`size, this`nOccupied, this`marks, this`contents, flags, keys
      ensures Valid() && 0 <= ret <= 2 && x < nBuckets && marks[x] == LIVE
      ensures keys[x] == key <==> !(old(Full()) && key !in old(contents))
      ensures old(Full()) ==> ret == 0
      ensures ret == 0 ==> (key in old(contents) || old(Full())) && contents == old(contents) && marks == old(marks)
      ensures ret > 0 ==> key !in old(contents) && contents == old(contents)[key := vals[x]]
      ensures ret > 0 && old(nOccupied) < nBuckets ==> PutSite(hash(key), nBuckets, old(marks), x)
      ensures ret > 0 ==> marks == old(marks)[x := LIVE] && old(marks)[x] == if ret == 1 then EMPTY else DELETED
    {
      NoRoom();
      OneEmpty();
      x := FindSite(key);
      var mark := Read(flags, x, nBuckets);
      if mark == LIVE {
        ret := 0;
      } else {
        ret := if mark.empty then 1 else 2;
        SiteReached(key, x);
        Occupy(x, key, mark.empty);
      }
    }

    lemma OneEmpty()
      requires Valid()
      ensures nOccupied < nBuckets ==> !NoneEmpty()
    {
      if nOccupied < nBuckets {
        var e := SomeEmpty(marks);
      }
    }

    lemma SiteReached(key: K, x: nat)
      requires WellFormed() && nBuckets > 0 && x < nBuckets && (PutSite(hash(key), nBuckets, marks, x) || NoneEmpty())
      ensures Reached(hash(key), nBuckets, marks, x)
    {
      if NoneEmpty() {
        NoEmptyReached(hash(key), nBuckets, marks, x);
      } else {
        PutSiteReached(hash(key), nBuckets, marks, x);
      }
    }

    /** Writes a new key into the bucket found for it. */
    method Occupy(x: nat, key: K, wasEmpty: bool)
      requires Valid() && (nOccupied < upperBound || nBuckets == WORD / 2) && nBuckets > 0 && key !in contents
      requires IsPow2(nBuckets) && x < nBuckets && marks[x] != LIVE && (wasEmpty <==> marks[x].empty)
      requires Reached(hash(key), nBuckets, marks, x)
      modifies this`size, this`nOccupied, this`marks, this`contents, flags, keys
      ensures Valid() && contents == old(contents)[key := vals[x]]
      ensures marks == old(marks)[x := LIVE] && keys[x] == key
    {
      Insert(hash, nBuckets, marks, keys[..], vals[..], contents, x, key);
      WriteSlot(x, key);
      contents := contents[key := vals[x]];
      size := size + 1;
      if wasEmpty {
        nOccupied := nOccupied + 1;
      }
    }

    method WriteSlot(x: nat, key: K)
      requires Laid() && x < nBuckets
      modifies this`marks, flags, keys
      ensures Laid() && marks == old(marks)[x := LIVE] && keys[..] == old(keys[..])[x := key]
    {
      keys[x] := key;
      SetIsBothFalse(flags, x, nBuckets);
      marks := marks[x := LIVE];
    }

    /** kh_put followed by the store through kh_value, the way every client inserts. In a full table the value of a
        new key goes to another key. */
    method PutValue(key: K, v: V, memory: nat) returns (ret: int)
      requires Valid()
      modifies this, flags, keys, vals
      ensures Valid() && fresh(Repr() - old(Repr()))
      ensures -1 <= ret <= 2 && (ret == -1 <==> old(OutOfMemory(memory)))
      ensures ret == -1 ==> memory < 3 && contents == old(contents)
      ensures ret == 0 ==> key in old(contents) || old(Full())
      ensures ret > 0 ==> key !in old(contents)
      ensures ret >= 0 && !(old(Full()) && key !in old(contents)) ==> contents == old(contents)[key := v]
      ensures ret >= 0 && old(Full()) && key !in old(contents) ==>
                exists k :: k in old(contents) && k != key && contents == old(contents)[k := v]
    {
      var x;
      x, ret := Put(key, memory);
      if ret >= 0 {
        ghost var k, m := keys[x], contents;
        Found(hash, nBuckets, marks, keys[..], vals[..], contents, x);
        SetValue(x, v);
        if ret > 0 {
          StoredTwice(old(contents), key, m[key], v);
        }
        assert ret == 0 ==> k in old(contents) && contents == old(contents)[k := v];
      }
    }
  }
}
