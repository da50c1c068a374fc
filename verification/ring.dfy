/** The ring buffer of thread.c: a fixed array used as a bounded double-ended queue. */
module Ring {
  import opened RingSpec

  const ERR_EMPTY := -2

  /** next; an index past the end gives -1. */
  function Next(index: int): int {
    var offset := index + 1;
    if offset < CAPACITY then offset else if offset > CAPACITY then -1 else 0
  }

  /** prev; an index below the start gives -1. */
  function Prev(index: int): int {
    var offset := index - 1;
    if offset >= 0 then offset else if offset < -1 then -1 else CAPACITY - 1
  }

  /** The array index of element i of a queue that starts at `start`. */
  ghost function Slot(start: int, i: int): (k: int)
    requires 0 <= start < CAPACITY && 0 <= i < CAPACITY
    ensures 0 <= k < CAPACITY
  {
    if start + i < CAPACITY then start + i else start + i - CAPACITY
  }

  class Queue {
    const threads: array<int>
    var size: int
    var start: int
    var end: int

    ghost predicate Valid()
      reads this
    {
      && threads.Length == CAPACITY
      && 0 <= size <= CAPACITY
      && 0 <= start < CAPACITY
      && end == (if size == CAPACITY then start else Slot(start, size))
    }

    ghost function Contents(): (c: seq<int>)
      requires Valid()
      reads this, threads
      ensures |c| == size && forall i :: 0 <= i < size ==> c[i] == threads[Slot(start, i)]
    {
      var (data, first, n) := (threads, start, size);
      seq(n, i requires 0 <= i < n reads data => data[Slot(first, i)])
    }

    constructor ()
      ensures Valid() && Contents() == [] && fresh(threads)
    {
      threads := new int[CAPACITY];
      size, start, end := 0, 0, 0;
    }

    /** queue_push */
    method Push(value: int) returns (ok: bool)
      requires Valid()
      modifies this, threads
      ensures Valid() && Contents() == RingSpec.Push(old(Contents()), value)
      ensures ok <==> |old(Contents())| < CAPACITY
    {
      if size == CAPACITY {
        return false;
      }
      threads[end] := value;
      end := Next(end);
      size := size + 1;
      return true;
    }

    /** queue_pop_last */
    method PopLast() returns (r: int)
      requires Valid()
      modifies this
      ensures Valid()
      ensures old(Contents()) == [] ==> r == ERR_EMPTY && Contents() == []
      ensures var c := old(Contents()); c != [] ==> r == c[|c| - 1] && Contents() == c[..|c| - 1]
    {
      if size == 0 {
        return ERR_EMPTY;
      }
      end := Prev(end);
      size := size - 1;
      r := threads[end];
    }

    /** queue_pop */
    method Pop() returns (r: int)
      requires Valid()
      modifies this
      ensures Valid()
      ensures old(Contents()) == [] ==> r == ERR_EMPTY && Contents() == []
      ensures var c := old(Contents()); c != [] ==> r == c[0] && Contents() == c[1..]
    {
      if size == 0 {
        return ERR_EMPTY;
      }
      r := threads[start];
      start := Next(start);
      size := size - 1;
    }
  }
}
