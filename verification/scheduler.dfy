/** What ass1's schedulers choose: the fair policy's scan, the shortest-burst scan, and the FCFS queue. */
module Scheduler {

  const NPROC := 64

  datatype Proc = Proc(runnable: bool, rutime: int, retime: int, stime: int, decayFactor: int, averageBurst: int)

  /** Times count ticks and the decay factor is one of 1, 3, 5, 7 and 25. */
  predicate Sane(p: Proc) {
    p.rutime >= 0 && p.retime >= 0 && p.stime >= 0 && p.decayFactor > 0
  }

  // ---- The fair policy ----

  /** Run time, weighted, per tick spent ready or asleep: none at all is least, some over nothing most. */
  datatype Share = Ratio(r: real) | Infinite

  function ShareOf(top: int, bot: int): Share
    requires top >= 0 && bot >= 0
  {
    if top == 0 then Ratio(0.0) else if bot == 0 then Infinite else Ratio(top as real / bot as real)
  }

  predicate Below(a: Share, b: Share) {
    a.Ratio? && (b.Infinite? || a.r < b.r)
  }

  function Top(p: Proc): int { p.rutime * p.decayFactor }

  function Bot(p: Proc): int { p.retime + p.stime }

  lemma TopNonneg(p: Proc)
    requires Sane(p)
    ensures Top(p) >= 0 && Bot(p) >= 0
  {
  }

  /** The test cfsd_sched() makes before it takes a process over the best so far. */
  predicate Beats(top: int, bot: int, topMin: int, botMin: int) {
    (topMin == -1 && botMin == -1) || (top == 0 && topMin != 0) || topMin * bot > botMin * top
  }

  /** Cross-multiplying compares fractions. */
  lemma CrossMultiplied(a: int, b: int, c: int, d: int)
    requires a > 0 && b > 0 && c > 0 && d > 0
    ensures a as real / b as real < c as real / d as real <==> c * b > d * a
  {
    var x, y := a as real / b as real, c as real / d as real;
    assert x * b as real == a as real && y * d as real == c as real;
    Scaled(x, y, b as real * d as real);
    assert x * (b as real * d as real) == (d * a) as real by {
      assert x * (b as real * d as real) == (x * b as real) * d as real;
    }
    assert y * (b as real * d as real) == (c * b) as real by {
      assert y * (b as real * d as real) == (y * d as real) * b as real;
    }
  }

  lemma Scaled(x: real, y: real, k: real)
    requires k > 0.0
    ensures x < y <==> x * k < y * k
  {
    if x < y {
      assert (y - x) * k > 0.0;
    } else {
      assert (x - y) * k >= 0.0;
    }
  }

  /** The test is exactly the strict order on shares. */
  lemma BeatsIsBelow(top: int, bot: int, topMin: int, botMin: int)
    requires top >= 0 && bot >= 0 && topMin >= 0 && botMin >= 0
    ensures Beats(top, bot, topMin, botMin) <==> Below(ShareOf(top, bot), ShareOf(topMin, botMin))
  {
    if top > 0 && topMin > 0 && bot > 0 && botMin > 0 {
      CrossMultiplied(top, bot, topMin, botMin);
    } else if topMin > 0 && bot > 0 && botMin == 0 && top > 0 {
      assert topMin * bot > 0;
    } else if top > 0 && topMin > 0 && bot == 0 {
      assert botMin * top >= 0;
    } else if topMin == 0 {
      assert botMin * top >= 0;
    } else {
      assert top == 0 && topMin > 0;
      assert topMin as real / (if botMin == 0 then 1 else botMin) as real > 0.0;
    }
  }

  function ProcShare(p: Proc): Share
    requires Sane(p)
  {
    TopNonneg(p);
    ShareOf(Top(p), Bot(p))
  }

  /** What the fair policy prefers: a process that has run shorter for its weight than another, per tick it has spent
      ready or asleep; one that has not run at all comes before one that has. */
  lemma FairPreference(p: Proc, q: Proc)
    requires Sane(p) && Sane(q)
    ensures p.retime + p.stime > 0 && q.retime + q.stime > 0 ==>
      (Below(ProcShare(p), ProcShare(q)) <==>
       p.rutime as real * p.decayFactor as real / (p.retime + p.stime) as real
         < q.rutime as real * q.decayFactor as real / (q.retime + q.stime) as real)
    ensures p.rutime == 0 ==> (Below(ProcShare(p), ProcShare(q)) <==> q.rutime > 0) && !Below(ProcShare(q), ProcShare(p))
    ensures p.rutime > 0 && p.retime + p.stime == 0 ==> !Below(ProcShare(p), ProcShare(q))
  {
    assert p.rutime > 0 ==> p.rutime * p.decayFactor > 0;
    assert q.rutime > 0 ==> q.rutime * q.decayFactor > 0;
    assert (p.rutime * p.decayFactor) as real == p.rutime as real * p.decayFactor as real;
    assert (q.rutime * q.decayFactor) as real == q.rutime as real * q.decayFactor as real;
  }

  lemma BelowOrder(a: Share, b: Share, c: Share)
    ensures !Below(a, a)
    ensures Below(a, b) && !Below(c, b) ==> Below(a, c)
    ensures !Below(a, b) && !Below(b, c) ==> !Below(a, c)
  {
  }

  /** One scan of cfsd_sched(): -1 exactly when nothing is runnable. */
  method CfsdScan(ps: seq<Proc>) returns (min: int)
    requires forall j {:trigger ps[j]} :: 0 <= j < |ps| ==> Sane(ps[j])
    ensures min == -1 <==> forall j {:trigger ps[j]} :: 0 <= j < |ps| ==> !ps[j].runnable
    ensures min != -1 ==> 0 <= min < |ps| && ps[min].runnable
    ensures min != -1 ==> forall j {:trigger ps[j]} :: 0 <= j < |ps| && ps[j].runnable ==> !Below(ProcShare(ps[j]), ProcShare(ps[min]))
    ensures min != -1 ==> forall j {:trigger ps[j]} :: 0 <= j < min && ps[j].runnable ==> Below(ProcShare(ps[min]), ProcShare(ps[j]))
  {
    var topMin, botMin := -1, -1;
    min := -1;
    var p := 0;
    while p < |ps|
      invariant 0 <= p <= |ps| && -1 <= min < p
      invariant min == -1 ==> topMin == -1 && botMin == -1 && forall j {:trigger ps[j]} :: 0 <= j < p ==> !ps[j].runnable
      invariant min != -1 ==> ps[min].runnable && topMin == Top(ps[min]) >= 0 && botMin == Bot(ps[min]) >= 0
      invariant min != -1 ==> forall j {:trigger ps[j]} :: 0 <= j < p && ps[j].runnable ==>
        !Below(ProcShare(ps[j]), ProcShare(ps[min])) && (j < min ==> Below(ProcShare(ps[min]), ProcShare(ps[j])))
    {
      if ps[p].runnable {
        TopNonneg(ps[p]);
        var top := ps[p].rutime * ps[p].decayFactor;
        var bot := ps[p].retime + ps[p].stime;
        if min != -1 {
          BeatsIsBelow(top, bot, topMin, botMin);
        }
        ghost var was := min;
        if (topMin == -1 && botMin == -1) || (top == 0 && topMin != 0) || topMin * bot > botMin * top {
          topMin := top;
          botMin := bot;
          min := p;
        }
        if was != -1 && min == p {
          forall j | 0 <= j < p && ps[j].runnable
            ensures Below(ProcShare(ps[p]), ProcShare(ps[j]))
          {
            BelowOrder(ProcShare(ps[p]), ProcShare(ps[was]), ProcShare(ps[j]));
          }
        }
      }
      p := p + 1;
    }
  }

  /** One scan of srt_sched(): the runnable process of least average burst, the first of them. */
  method SrtScan(ps: seq<Proc>) returns (min: int)
    ensures min == -1 <==> forall j {:trigger ps[j]} :: 0 <= j < |ps| ==> !ps[j].runnable
    ensures min != -1 ==> 0 <= min < |ps| && ps[min].runnable && forall j {:trigger ps[j]} :: 0 <= j < |ps| && ps[j].runnable ==>
      ps[min].averageBurst < ps[j].averageBurst || (ps[min].averageBurst == ps[j].averageBurst && min <= j)
  {
    min := -1;
    var p := 0;
    while p < |ps|
      invariant 0 <= p <= |ps| && -1 <= min < p
      invariant min == -1 <==> forall j {:trigger ps[j]} :: 0 <= j < p ==> !ps[j].runnable
      invariant min != -1 ==> ps[min].runnable && forall j {:trigger ps[j]} :: 0 <= j < p && ps[j].runnable ==>
        ps[min].averageBurst < ps[j].averageBurst || (ps[min].averageBurst == ps[j].averageBurst && min <= j)
    {
      if ps[p].runnable {
        if min == -1 || ps[p].averageBurst < ps[min].averageBurst {
          min := p;
        }
      }
      p := p + 1;
    }
  }

  // ---- First come, first served ----

  const NOBODY := -1

  /** The place k after `first` in the ring. */
  function At(first: int, k: nat): (r: int)
    requires 0 <= first
    ensures 0 <= r < NPROC
  {
    (first + k) % NPROC
  }

  lemma AtNext(first: int, k: nat)
    requires 0 <= first < NPROC
    ensures At(At(first, 1), k) == At(first, k + 1) && At(first, 0) == first && At(first, 1) == (first + 1) % NPROC
  {
  }

  /** Places fewer than a turn apart differ; after a turn less one the next is the first. */
  lemma AtApart(first: int, j: nat, k: nat)
    requires 0 <= first < NPROC && j <= k < NPROC
    ensures At(first, j) == At(first, k) <==> j == k
    ensures At(first, k) == first <==> k == 0
    ensures (At(first, k) + 1) % NPROC == At(first, k + 1) && (At(first, k + 1) == first <==> k == NPROC - 1)
  {
  }

  /** The ring holds the sequence q from `first` on. */
  ghost predicate RingHolds(ring: seq<int>, first: int, last: int, q: seq<int>) {
    && |ring| == NPROC && 0 <= first < NPROC && |q| < NPROC && last == At(first, |q|)
    && forall k {:trigger q[k]} :: 0 <= k < |q| ==> ring[At(first, k)] == q[k]
  }

  lemma HeldTail(ring: seq<int>, first: int, last: int, q: seq<int>)
    requires RingHolds(ring, first, last, q) && q != []
    ensures q[0] == ring[first] && RingHolds(ring, At(first, 1), last, q[1..])
  {
    hide At;
    AtNext(first, 0);
    AtNext(first, |q| - 1);
    forall k | 0 <= k < |q| - 1
      ensures ring[At(At(first, 1), k)] == q[1..][k]
    {
      AtNext(first, k);
      assert q[1..][k] == q[k + 1];
    }
  }

  lemma HeldMore(ring: seq<int>, first: int, last: int, q: seq<int>, p: int)
    requires RingHolds(ring, first, last, q) && |q| < NPROC - 1
    ensures RingHolds(ring[last := p], first, (last + 1) % NPROC, q + [p])
  {
    hide At;
    AtApart(first, 0, |q|);
    forall k | 0 <= k < |q| + 1
      ensures ring[last := p][At(first, k)] == (q + [p])[k]
    {
      AtApart(first, k, |q|);
    }
  }

  /** proc_queue: a ring that keeps one place empty to tell full from empty. */
  class RunQueue {
    var ring: array<int>
    var first: int
    var last: int
    ghost var q: seq<int>

    ghost predicate Valid()
      reads this, ring
    {
      ring.Length == NPROC && RingHolds(ring[..], first, last, q)
    }

    constructor ()
      ensures Valid() && q == [] && fresh(ring)
    {
      ring := new int[NPROC](_ => NOBODY);
      first, last, q := 0, 0, [];
    }

    /** enqueue(): the process goes to the end, unless sixty-three are waiting. */
    method Enqueue(p: int) returns (r: int)
      requires Valid()
      modifies this`last, this`q, ring
      ensures Valid() && first == old(first)
      ensures r == if |old(q)| == NPROC - 1 then -1 else 0
      ensures q == if r == 0 then old(q) + [p] else old(q)
    {
      AtApart(first, 0, |q|);
      if (last + 1) % NPROC == first {
        return -1;
      }
      HeldMore(ring[..], first, last, q, p);
      ghost var was := ring[..];
      ring[last] := p;
      assert ring[..] == was[last := p];
      last := (last + 1) % NPROC;
      q := q + [p];
      r := 0;
    }

    /** dequeue(): the process that has waited longest. */
    method Dequeue() returns (p: int)
      requires Valid()
      modifies this`first, this`q
      ensures Valid()
      ensures old(q) == [] ==> p == NOBODY && q == []
      ensures old(q) != [] ==> p == old(q)[0] && q == old(q)[1..]
    {
      AtApart(first, 0, |q|);
      if first == last {
        return NOBODY;
      }
      HeldTail(ring[..], first, last, q);
      AtNext(first, 0);
      first := (first + 1) % NPROC;
      if first - 1 == -1 {
        p := ring[NPROC - 1];
      } else {
        p := ring[first - 1];
      }
      q := q[1..];
    }
  }
}
