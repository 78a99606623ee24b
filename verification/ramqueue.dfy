/** The ring of resident pages behind the SCFIFO policy (ass3 proc.c): ram_queue, first and last. */
module RamQueue {
  import opened Sequences

  const MAX_PSYC_PAGES := 16

  /** The ring holds exactly the sequence q, oldest first; first and last are -1 when it is empty. */
  ghost predicate Holds(ring: seq<int>, first: int, last: int, q: seq<int>) {
    && |ring| == MAX_PSYC_PAGES && |q| <= MAX_PSYC_PAGES
    && if q == [] then first == -1 && last == -1 else
         && 0 <= first < MAX_PSYC_PAGES && last == (first + |q|) % MAX_PSYC_PAGES
         && forall k {:trigger q[k]} :: 0 <= k < |q| ==> ring[(first + k) % MAX_PSYC_PAGES] == q[k]
  }

  /** The ring determines the queue it holds. */
  lemma HoldsOne(ring: seq<int>, first: int, last: int, q: seq<int>, r: seq<int>)
    requires Holds(ring, first, last, q) && Holds(ring, first, last, r)
    ensures q == r
  {
    forall k | 0 <= k < |q|
      ensures q[k] == r[k]
    {
      assert ring[(first + k) % MAX_PSYC_PAGES] == q[k];
    }
  }

  /** q without its element k; all of q if k is no index of it. */
  function Without(q: seq<int>, k: int): (r: seq<int>)
    ensures |r| == if 0 <= k < |q| then |q| - 1 else |q|
    ensures forall i :: 0 <= i < |r| ==> r[i] == if 0 <= k <= i then q[i + 1] else q[i]
  {
    if 0 <= k < |q| then RemoveAt(q, k) else q
  }

  class Queue {
    var ring: seq<int>
    var first: int
    var last: int
    ghost var q: seq<int>

    ghost predicate Valid()
      reads this
    {
      Holds(ring, first, last, q)
    }

    constructor ()
      ensures Valid() && q == []
    {
      ring, first, last, q := seq(MAX_PSYC_PAGES, _ => -1), -1, -1, [];
    }

    /** enqueue(): -2 exactly when all sixteen places are taken. */
    method Enqueue(index: int) returns (r: int)
      requires Valid()
      modifies this
      ensures Valid()
      ensures |old(q)| < MAX_PSYC_PAGES ==> r == 0 && q == old(q) + [index]
      ensures |old(q)| == MAX_PSYC_PAGES ==> r == -2 && q == old(q)
    {
      if last == -1 {
        last := 0;
      }
      if last % MAX_PSYC_PAGES == first {
        return -2;
      }
      if first == -1 {
        first := 0;
      }
      ring := ring[last := index];
      last := (last + 1) % MAX_PSYC_PAGES;
      q := q + [index];
      r := 0;
    }

    /** dequeue(): the oldest page, or -2 when there is none. */
    method Dequeue() returns (index: int)
      requires Valid()
      modifies this
      ensures Valid()
      ensures old(q) == [] ==> index == -2 && q == []
      ensures old(q) != [] ==> index == old(q)[0] && q == old(q)[1..]
    {
      if first == -1 {
        return -2;
      }
      index := ring[first];
      assert index == q[0];
      first := (first + 1) % MAX_PSYC_PAGES;
      q := q[1..];
      if first == last {
        first := -1;
        last := -1;
      }
    }
  }
}
