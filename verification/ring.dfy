/** The doubly linked ring of bio.c: NBUF buffers and a list head, linked through prev/next. */
module BufferRing {
  import opened Disk
  import opened Sequences

  const NBUF := 30
  const HEAD := NBUF  // &bcache.head; buffer b is &bcache.buf[b]

  datatype Buf = Buf(
    dev: int, blockno: int, valid: bool, locked: bool, refcnt: int, prev: int, next: int, data: Block)

  // ---- The list ----

  /** Position i of the ring read from the head: the head, the buffers in order, the head again. */
  function At(order: seq<int>, i: int): (b: int)
    ensures !(1 <= i <= |order|) ==> b == HEAD
  {
    if 1 <= i <= |order| then order[i - 1] else HEAD
  }

  predicate Distinct(order: seq<int>) {
    && (forall i :: 0 <= i < |order| ==> 0 <= order[i] < NBUF)
    && (forall i, j :: 0 <= i < j < |order| ==> order[i] != order[j])
  }

  predicate Link(buf: seq<Buf>, a: int, b: int) {
    0 <= a < |buf| && 0 <= b < |buf| && buf[a].next == b && buf[b].prev == a
  }

  predicate Linked(buf: seq<Buf>, order: seq<int>, i: int) {
    Link(buf, At(order, i), At(order, i + 1))
  }

  /** The ring read from the head visits exactly `order` and comes back, in both directions. */
  predicate Ring(buf: seq<Buf>, order: seq<int>) {
    && |buf| == NBUF + 1 && Distinct(order)
    && forall i {:trigger Linked(buf, order, i)} :: 0 <= i <= |order| ==> Linked(buf, order, i)
  }

  // ---- Pointer updates of the code ----

  function SetNext(buf: seq<Buf>, a: int, b: int): (r: seq<Buf>)
    requires 0 <= a < |buf|
    ensures |r| == |buf|
  {
    buf[a := buf[a].(next := b)]
  }

  function SetPrev(buf: seq<Buf>, a: int, b: int): (r: seq<Buf>)
    requires 0 <= a < |buf|
    ensures |r| == |buf|
  {
    buf[a := buf[a].(prev := b)]
  }

  /** brelse() takes buffer b off the list: its neighbours are linked to each other. */
  function Unlink(buf: seq<Buf>, b: int): (r: seq<Buf>)
    requires 0 <= b < |buf| && 0 <= buf[b].next < |buf| && 0 <= buf[b].prev < |buf|
    requires 0 <= SetPrev(buf, buf[b].next, buf[b].prev)[b].prev < |buf|
    ensures |r| == |buf|
  {
    var s := SetPrev(buf, buf[b].next, buf[b].prev);
    SetNext(s, s[b].prev, s[b].next)
  }

  /** brelse() puts buffer b right behind the head. */
  function LinkFront(buf: seq<Buf>, b: int): (r: seq<Buf>)
    requires 0 <= b < NBUF && |buf| == NBUF + 1 && 0 <= buf[HEAD].next < |buf|
    ensures |r| == |buf|
  {
    var s := SetPrev(SetNext(buf, b, buf[HEAD].next), b, HEAD);
    SetNext(SetPrev(s, s[HEAD].next, b), HEAD, b)
  }

  /** Two buffer arrays that differ at most in their links. */
  predicate SamePayload(buf: seq<Buf>, r: seq<Buf>) {
    |buf| == |r| && forall b :: 0 <= b < |buf| ==> r[b].(prev := buf[b].prev, next := buf[b].next) == buf[b]
  }

  predicate SameLinks(buf: seq<Buf>, r: seq<Buf>) {
    |buf| == |r| && forall b :: 0 <= b < |buf| ==> r[b].prev == buf[b].prev && r[b].next == buf[b].next
  }

  lemma SameLinksRing(buf: seq<Buf>, r: seq<Buf>, order: seq<int>)
    requires Ring(buf, order) && SameLinks(buf, r)
    ensures Ring(r, order)
  {
    forall i | 0 <= i <= |order|
      ensures Linked(r, order, i)
    {
      assert Linked(buf, order, i);
    }
  }

  lemma RemovedAt(order: seq<int>, p: int, i: int)
    requires 0 <= p < |order|
    ensures At(RemoveAt(order, p), i) == if i <= p then At(order, i) else At(order, i + 1)
  {
  }

  lemma AtInjective(order: seq<int>, i: int, j: int)
    requires Distinct(order) && 0 <= i <= |order| && 0 <= j <= |order| && At(order, i) == At(order, j)
    ensures i == j
  {
  }

  /** Unlinking a buffer removes it from the order and disturbs nothing else. */
  lemma UnlinkRing(buf: seq<Buf>, order: seq<int>, p: int)
    requires Ring(buf, order) && 0 <= p < |order|
    ensures var b := order[p];
      && 0 <= buf[b].next < |buf| && 0 <= buf[b].prev < |buf|
      && 0 <= SetPrev(buf, buf[b].next, buf[b].prev)[b].prev < |buf|
      && Ring(Unlink(buf, b), RemoveAt(order, p))
      && SamePayload(buf, Unlink(buf, b))
  {
    var b := order[p];
    assert At(order, p + 1) == b;
    assert Link(buf, At(order, p), b) && Link(buf, b, At(order, p + 2)) by {
      assert Linked(buf, order, p) && Linked(buf, order, p + 1);
    }
    var pre, nxt := At(order, p), At(order, p + 2);
    var s := SetPrev(buf, nxt, pre);
    assert s[b] == buf[b] by {
      if nxt == b { AtInjective(order, p + 1, if p + 2 <= |order| then p + 2 else 0); }
    }
    var r := Unlink(buf, b);
    var rest := RemoveAt(order, p);
    forall i | 0 <= i <= |rest|
      ensures Linked(r, rest, i)
    {
      UnlinkStep(buf, order, p, i);
    }
  }

  lemma UnlinkStep(buf: seq<Buf>, order: seq<int>, p: int, i: int)
    requires Ring(buf, order) && 0 <= p < |order| && 0 <= i <= |order| - 1
    requires 0 <= order[p] < |buf| && 0 <= buf[order[p]].next < |buf| && 0 <= buf[order[p]].prev < |buf|
    requires buf[order[p]].prev == At(order, p) && buf[order[p]].next == At(order, p + 2)
    requires SetPrev(buf, buf[order[p]].next, buf[order[p]].prev)[order[p]] == buf[order[p]]
    ensures Linked(Unlink(buf, order[p]), RemoveAt(order, p), i)
  {
    RemovedAt(order, p, i);
    RemovedAt(order, p, i + 1);
    var a := if i <= p then i else i + 1;      // where the link starts in the old ring
    var c := if i + 1 <= p then i + 1 else i + 2;  // where it ends
    assert Linked(buf, order, a) && Linked(buf, order, c - 1);
    if i != p {
      var x := if c <= |order| then c else 0;
      if At(order, a) == At(order, p) { AtInjective(order, a, p); }
      if At(order, c) == At(order, p + 2) { AtInjective(order, x, if p + 2 <= |order| then p + 2 else 0); }
    }
  }

  /** Linking a buffer in puts it first. */
  lemma LinkFrontRing(buf: seq<Buf>, order: seq<int>, b: int)
    requires Ring(buf, order) && 0 <= b < NBUF && b !in order
    ensures 0 <= buf[HEAD].next < |buf|
    ensures Ring(LinkFront(buf, b), [b] + order)
    ensures SamePayload(buf, LinkFront(buf, b))
  {
    assert Linked(buf, order, 0);
    var r := LinkFront(buf, b);
    var more := [b] + order;
    forall i | 0 <= i <= |more|
      ensures Linked(r, more, i)
    {
      LinkFrontStep(buf, order, b, i);
    }
  }

  lemma LinkFrontStep(buf: seq<Buf>, order: seq<int>, b: int, i: int)
    requires Ring(buf, order) && 0 <= b < NBUF && b !in order && 0 <= i <= |order| + 1
    requires buf[HEAD].next == At(order, 1) && 0 <= At(order, 1) < |buf|
    ensures Linked(LinkFront(buf, b), [b] + order, i)
  {
    var more := [b] + order;
    assert At(more, i) == if i == 0 then HEAD else if i == 1 then b else At(order, i - 1);
    assert At(more, i + 1) == if i == 0 then b else At(order, i);
    if i >= 2 {
      assert Linked(buf, order, i - 1);
      if At(order, i) == At(order, 1) { AtInjective(order, if i <= |order| then i else 0, if 1 <= |order| then 1 else 0); }
      if At(order, i - 1) == HEAD { AtInjective(order, i - 1, 0); }
    }
  }
}
