/** What a ring buffer of thread ids stands for: a sequence of bounded length. */
module RingSpec {
  const CAPACITY: nat := 30720

  /** queue_push, whose result every caller ignores. */
  function Push(q: seq<int>, x: int): seq<int> {
    if |q| < CAPACITY then q + [x] else q
  }
}
