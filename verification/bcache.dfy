/** The buffer cache of bio.c.  Each method is one critical section of the code, so any
    interleaving of clients is some sequence of method calls. */
module BufferCache {
  import opened Disk
  import opened BufferRing
  import opened Sequences

  const ROOTDEV := 1

  /** Buffer b names block bn of device dev. */
  predicate Names(buf: seq<Buf>, b: int, dev: int, bn: int) {
    0 <= b < NBUF <= |buf| && buf[b].dev == dev && buf[b].blockno == bn
  }

  /** No two buffers name the same block.  Device 0 is excepted: binit() leaves every buffer at (0, 0). */
  predicate Unique(buf: seq<Buf>) {
    forall b, c :: 0 <= b < c < NBUF <= |buf| && buf[b].dev != 0 && buf[c].dev == buf[b].dev ==>
      buf[b].blockno != buf[c].blockno
  }

  /** References: `pins` of them belong to the log, the rest to clients that called bread(); the
      client that holds the lock is one of these. */
  predicate Counted(buf: seq<Buf>, pins: seq<nat>) {
    && |pins| == NBUF <= |buf|
    && forall b :: 0 <= b < NBUF ==> pins[b] <= buf[b].refcnt && (buf[b].locked ==> pins[b] < buf[b].refcnt)
  }

  /** References to b other than the log's pins and the lock holder's. */
  function Extra(buf: seq<Buf>, pins: seq<nat>, b: int): int
    requires 0 <= b < |buf| && b < |pins|
  {
    buf[b].refcnt - pins[b] - if buf[b].locked then 1 else 0
  }

  /** A buffer that must not be recycled. */
  predicate Held(buf: seq<Buf>, pins: seq<nat>, b: int) {
    0 <= b < NBUF && NBUF <= |buf| && |pins| == NBUF && (buf[b].locked || pins[b] > 0)
  }

  /** `view` is what bread() must return for each block.  `slot[bn]` is the buffer with valid
      contents of block bn, or -1; a block whose view differs from the disk has a held buffer. */
  predicate Agrees(buf: seq<Buf>, pins: seq<nat>, disk: seq<Block>, view: seq<Block>, slot: seq<int>) {
    && |buf| == NBUF + 1 && |disk| == |view| == |slot|
    && (forall b {:trigger buf[b]} :: 0 <= b < NBUF && buf[b].valid ==>
          && 0 <= buf[b].blockno < |disk| && buf[b].data == view[buf[b].blockno] && slot[buf[b].blockno] == b)
    && (forall bn {:trigger slot[bn]} :: 0 <= bn < |disk| && slot[bn] != -1 ==>
          Names(buf, slot[bn], ROOTDEV, bn) && buf[slot[bn]].valid)
    && (forall bn {:trigger view[bn]} :: 0 <= bn < |disk| && view[bn] != disk[bn] ==> Held(buf, pins, slot[bn]))
  }

  /** Every buffer is on the list. */
  predicate Complete(order: seq<int>) {
    |order| == NBUF && forall b :: 0 <= b < NBUF ==> b in order
  }

  predicate Unused(buf: seq<Buf>, b: int) {
    0 <= b < NBUF <= |buf| && buf[b].refcnt == 0
  }

  /** bget() cannot serve the request: it panics with "no buffers". */
  predicate NoBuffers(buf: seq<Buf>, dev: int, bn: int) {
    forall b :: 0 <= b < NBUF ==> !Names(buf, b, dev, bn) && !Unused(buf, b)
  }

  /** The unused buffer nearest the tail of the list. */
  predicate LeastRecent(buf: seq<Buf>, order: seq<int>, b: int) {
    exists p :: 0 <= p < |order| && order[p] == b && Unused(buf, b)
      && forall q :: p < q < |order| ==> !Unused(buf, order[q])
  }

  // ---- Effects of the critical sections on the state ----

  /** bget() found the block. */
  function Taken(buf: seq<Buf>, b: int): seq<Buf>
    requires 0 <= b < |buf|
  {
    buf[b := buf[b].(refcnt := buf[b].refcnt + 1)]
  }

  /** bget() recycles buffer b. */
  function Recycled(buf: seq<Buf>, b: int, dev: int, bn: int): seq<Buf>
    requires 0 <= b < |buf|
  {
    buf[b := buf[b].(dev := dev, blockno := bn, valid := false, refcnt := 1)]
  }

  /** Where the valid contents of each block are once buffer b has been given to another block. */
  function Evicted(slot: seq<int>, b: int): (r: seq<int>)
    ensures |r| == |slot|
    ensures forall bn :: 0 <= bn < |r| ==> r[bn] == if slot[bn] == b then -1 else slot[bn]
  {
    seq(|slot|, bn requires 0 <= bn < |slot| => if slot[bn] == b then -1 else slot[bn])
  }

  lemma RecycleKeeps(buf: seq<Buf>, pins: seq<nat>, disk: seq<Block>, view: seq<Block>, slot: seq<int>, b: int, bn: int)
    requires Agrees(buf, pins, disk, view, slot) && Counted(buf, pins) && Unique(buf)
    requires Unused(buf, b) && forall c :: 0 <= c < NBUF ==> !Names(buf, c, ROOTDEV, bn)
    ensures var r := Recycled(buf, b, ROOTDEV, bn);
      Agrees(r, pins, disk, view, Evicted(slot, b)) && Counted(r, pins) && Unique(r)
  {
    var r := Recycled(buf, b, ROOTDEV, bn);
    var slot' := Evicted(slot, b);
    forall c | 0 <= c < NBUF
      ensures !(buf[c].dev == ROOTDEV && buf[c].blockno == bn)
    {
      assert !Names(buf, c, ROOTDEV, bn);
    }
    forall n | 0 <= n < |disk| && view[n] != disk[n]
      ensures Held(r, pins, slot'[n])
    {
      assert Held(buf, pins, slot[n]);
    }
  }

  class Cache {
    var buf: seq<Buf>
    var disk: seq<Block>
    ghost var order: seq<int>     // the list, most recently used first
    ghost var pins: seq<nat>
    ghost var view: seq<Block>
    ghost var slot: seq<int>
    ghost var booted: seq<Block>  // the disk when the cache was set up
    ghost var writes: seq<Write>  // every disk write since

    ghost predicate Valid()
      reads this
    {
      && |buf| == NBUF + 1 && |pins| == NBUF && |disk| == |view| == |slot|
      && Ring(buf, order) && Complete(order)
      && Unique(buf) && Counted(buf, pins)
      && Agrees(buf, pins, disk, view, slot)
      && disk == Apply(booted, writes)
    }

    /** binit(): chain the buffers, the last one in front. */
    constructor (device: seq<Block>, blank: Block)
      ensures Valid()
      ensures disk == view == booted == device && writes == []
      ensures forall b :: 0 <= b < NBUF ==> Unused(buf, b) && pins[b] == 0 && !buf[b].locked && !buf[b].valid && buf[b].dev == 0
    {
      disk, view, booted, writes := device, device, device, [];
      slot := seq(|device|, _ => -1);
      pins := seq(NBUF, _ => 0);
      var bufs := seq(NBUF + 1, _ => Buf(0, 0, false, false, 0, HEAD, HEAD, blank));
      ghost var chained: seq<int> := [];
      var b := 0;
      while b < NBUF
        invariant 0 <= b <= NBUF
        invariant Ring(bufs, chained) && |chained| == b
        invariant forall c :: 0 <= c < b ==> c in chained
        invariant forall i :: 0 <= i < b ==> chained[i] < b
        invariant forall c :: 0 <= c <= NBUF ==> bufs[c].(prev := HEAD, next := HEAD) == Buf(0, 0, false, false, 0, HEAD, HEAD, blank)
      {
        assert b !in chained;
        LinkFrontRing(bufs, chained, b);
        bufs := LinkFront(bufs, b);
        chained := [b] + chained;
        assert forall c :: 0 <= c < b ==> c in chained;
        b := b + 1;
      }
      buf, order := bufs, chained;
    }

    /** bget()'s first loop: from the most recently used buffer towards the tail. */
    method FindCached(dev: int, bn: int) returns (b: int)
      requires Valid()
      ensures b != HEAD ==> 0 <= b < NBUF && Names(buf, b, dev, bn)
      ensures b == HEAD ==> forall c :: 0 <= c < NBUF ==> !Names(buf, c, dev, bn)
    {
      hide Unique, Counted, Agrees, Complete, Distinct;
      ghost var i := 1;
      assert Linked(buf, order, 0);
      b := buf[HEAD].next;
      while b != HEAD
        invariant 1 <= i <= |order| + 1 && b == At(order, i)
        invariant forall j :: 1 <= j < i ==> !Names(buf, At(order, j), dev, bn)
        decreases |order| + 1 - i
      {
        assert Linked(buf, order, i);
        assert 1 <= i <= |order|;
        if buf[b].dev == dev && buf[b].blockno == bn {
          ListedInRange(order, i);
          return;
        }
        b := buf[b].next;
        i := i + 1;
      }
      HeadOnlyAtEnds(order, i);
      NotListed(buf, order, dev, bn);
    }

    /** bget()'s second loop: from the tail towards the most recently used buffer. */
    method FindUnused() returns (b: int)
      requires Valid()
      ensures b != HEAD ==> LeastRecent(buf, order, b)
      ensures b == HEAD ==> forall c :: 0 <= c < NBUF ==> !Unused(buf, c)
    {
      hide Unique, Counted, Agrees, Complete, Distinct, LeastRecent;
      ghost var i := |order|;
      assert Linked(buf, order, |order|);
      b := buf[HEAD].prev;
      while b != HEAD
        invariant 0 <= i <= |order| && b == At(order, i)
        invariant forall j :: i < j <= |order| ==> !Unused(buf, At(order, j))
        decreases i
      {
        assert 1 <= i <= |order|;
        assert Linked(buf, order, i - 1);
        if buf[b].refcnt == 0 {
          LeastRecentAt(buf, order, i);
          return;
        }
        b := buf[b].prev;
        i := i - 1;
      }
      HeadOnlyAtEnds(order, i);
      NoneUnused(buf, order);
    }

    /** The critical section of bget(): take a reference to the buffer that names the block, else
        recycle the least recently used unused buffer, else panic (-1). */
    method Lookup(dev: int, bn: int) returns (b: int)
      requires Valid() && dev == ROOTDEV
      modifies this`buf, this`slot
      ensures Valid()
      ensures b == -1 <==> old(NoBuffers(buf, dev, bn))
      ensures b == -1 ==> buf == old(buf) && slot == old(slot)
      ensures b != -1 ==> 0 <= b < NBUF && Names(buf, b, dev, bn)
      ensures b != -1 && old(Names(buf, b, dev, bn)) ==> buf == Taken(old(buf), b)
      ensures b != -1 && !old(Names(buf, b, dev, bn)) ==>
        && (forall c :: 0 <= c < NBUF ==> !old(Names(buf, c, dev, bn)))
        && old(LeastRecent(buf, order, b))
        && buf == Recycled(old(buf), b, dev, bn)
    {
      b := FindCached(dev, bn);
      if b != HEAD {
        TakeKeeps(buf, order, pins, disk, view, slot, b);
        buf := Taken(buf, b);
        return;
      }
      b := FindUnused();
      if b == HEAD {
        b := -1;
        return;
      }
      RecycleKeeps(buf, pins, disk, view, slot, b, bn);
      SameLinksRing(buf, Recycled(buf, b, dev, bn), order);
      buf, slot := Recycled(buf, b, dev, bn), Evicted(slot, b);
    }

    /** acquiresleep(), once the lock is free. */
    method AcquireSleep(b: int)
      requires Valid() && 0 <= b < NBUF && !buf[b].locked && pins[b] < buf[b].refcnt
      modifies this`buf
      ensures Valid() && buf == old(buf)[b := old(buf[b]).(locked := true)]
    {
      SetLockKeeps(buf, order, pins, disk, view, slot, b);
      buf := buf[b := buf[b].(locked := true)];
    }

    /** The part of bread() after bget(): read the block from the disk unless the buffer is valid. */
    method Fill(b: int)
      requires Valid() && 0 <= b < NBUF && buf[b].locked && buf[b].dev == ROOTDEV && 0 <= buf[b].blockno < |disk|
      modifies this`buf, this`slot
      ensures Valid()
      ensures buf == old(buf)[b := old(buf[b]).(valid := true, data := view[old(buf[b]).blockno])]
    {
      if !buf[b].valid {
        FillKeeps(buf, order, pins, disk, view, slot, b);
        var bn := buf[b].blockno;
        buf, slot := buf[b := buf[b].(valid := true, data := disk[bn])], slot[bn := b];
      }
    }

    /** bread(): the latest contents of the block, locked and referenced, or -1 for the panic in bget(). Where
        another client has the lock it goes to sleep with its reference; once it is woken, AcquireSleep() and
        Fill() do the rest. */
    method Bread(dev: int, bn: int) returns (b: int, asleep: bool)
      requires Valid() && dev == ROOTDEV && 0 <= bn < |disk|
      modifies this`buf, this`slot
      ensures Valid()
      ensures b == -1 <==> old(NoBuffers(buf, dev, bn))
      ensures b == -1 ==> buf == old(buf) && !asleep
      ensures b != -1 ==>
        && 0 <= b < NBUF && Names(buf, b, dev, bn) && buf[b].refcnt == old(buf[b].refcnt) + 1
        && (old(Names(buf, b, dev, bn)) || (old(Unused(buf, b)) && forall c :: 0 <= c < NBUF ==> !old(Names(buf, c, dev, bn))))
        && (asleep <==> old(buf[b].locked))
        && forall c :: 0 <= c <= NBUF && c != b ==> buf[c] == old(buf[c])
      ensures b != -1 && !asleep ==> buf[b].valid && buf[b].locked && buf[b].data == view[bn]
    {
      b := Lookup(dev, bn);
      asleep := b != -1 && buf[b].locked;
      if b == -1 || asleep {
        return;
      }
      AcquireSleep(b);
      Fill(b);
    }

    /** The client that holds the lock stores into b->data. */
    method Store(b: int, data: Block)
      requires Valid() && 0 <= b < NBUF && buf[b].locked && buf[b].valid
      modifies this`buf, this`view
      ensures Valid()
      ensures buf == old(buf)[b := old(buf[b]).(data := data)]
      ensures view == old(view)[old(buf[b]).blockno := data]
    {
      StoreKeeps(buf, order, pins, disk, view, slot, b, data);
      view := view[buf[b].blockno := data];
      buf := buf[b := buf[b].(data := data)];
    }

    /** The block in buffer b goes to the disk, by the client that holds it. */
    method Bwrite(b: int)
      requires Valid() && 0 <= b < NBUF && buf[b].locked && buf[b].valid
      modifies this`disk, this`writes
      ensures Valid()
      ensures disk == old(disk)[buf[b].blockno := buf[b].data]
      ensures writes == old(writes) + [Write(buf[b].blockno, buf[b].data)]
    {
      WriteKeeps(buf, pins, disk, view, slot, b);
      AfterExtend(booted, writes, [Write(buf[b].blockno, buf[b].data)], |writes|);
      disk := disk[buf[b].blockno := buf[b].data];
      writes := writes + [Write(buf[b].blockno, buf[b].data)];
    }

    /** releasesleep() in brelse().  The caller must have written a changed block to the disk or to the log. */
    method ReleaseSleep(b: int)
      requires Valid() && 0 <= b < NBUF && buf[b].locked && buf[b].valid
      requires pins[b] > 0 || disk[buf[b].blockno] == view[buf[b].blockno]
      modifies this`buf
      ensures Valid() && buf == old(buf)[b := old(buf[b]).(locked := false)]
    {
      UnlockKeeps(buf, order, pins, disk, view, slot, b);
      buf := buf[b := buf[b].(locked := false)];
    }

    /** The rest of brelse(): a client without the lock gives up its reference, and a buffer nobody references
        moves to the front. */
    method DropRef(b: int)
      requires Valid() && 0 <= b < NBUF && Extra(buf, pins, b) > 0
      modifies this`buf, this`order
      ensures Valid()
      ensures SamePayload(old(buf)[b := old(buf[b]).(refcnt := old(buf[b].refcnt) - 1)], buf)
      ensures buf[b].refcnt > 0 ==> order == old(order)
      ensures buf[b].refcnt == 0 ==> exists p :: 0 <= p < NBUF && old(order)[p] == b && order == [b] + RemoveAt(old(order), p)
    {
      hide Unique, LinkFront, Unlink, Names, Held;
      DerefKeeps(buf, order, pins, disk, view, slot, b);
      buf := buf[b := buf[b].(refcnt := buf[b].refcnt - 1)];
      if buf[b].refcnt == 0 {
        assert b in order;
        ghost var p :| 0 <= p < |order| && order[p] == b;
        MoveToFront(buf, order, p);
        MoveKeepsComplete(order, p);
        PayloadKeeps(buf, LinkFront(Unlink(buf, b), b), pins, disk, view, slot);
        buf, order := LinkFront(Unlink(buf, b), b), [b] + RemoveAt(order, p);
      }
    }

    /** brelse() when nobody comes between its two critical sections. */
    method Brelse(b: int)
      requires Valid() && 0 <= b < NBUF && buf[b].locked && buf[b].valid
      requires pins[b] > 0 || disk[buf[b].blockno] == view[buf[b].blockno]
      modifies this`buf, this`order
      ensures Valid()
      ensures SamePayload(old(buf)[b := old(buf[b]).(locked := false, refcnt := old(buf[b].refcnt) - 1)], buf)
      ensures buf[b].refcnt > 0 ==> order == old(order)
      ensures buf[b].refcnt == 0 ==> exists p :: 0 <= p < NBUF && old(order)[p] == b && order == [b] + RemoveAt(old(order), p)
    {
      hide Ring, Complete, Unique, Agrees;
      ReleaseSleep(b);
      DropRef(b);
    }

    /** bpin() by the client that holds the buffer. */
    method Bpin(b: int)
      requires Valid() && 0 <= b < NBUF && pins[b] < buf[b].refcnt
      modifies this`buf, this`pins
      ensures Valid()
      ensures buf == old(buf)[b := old(buf[b]).(refcnt := old(buf[b].refcnt) + 1)] && pins == old(pins)[b := old(pins[b]) + 1]
    {
      PinKeeps(buf, order, pins, disk, view, slot, b, 1);
      buf := buf[b := buf[b].(refcnt := buf[b].refcnt + 1)];
      pins := pins[b := pins[b] + 1];
    }

    /** bunpin(): a pin is dropped only once it exists, and once the block is on the disk. */
    method Bunpin(b: int)
      requires Valid() && 0 <= b < NBUF && pins[b] > 0 && buf[b].locked
      modifies this`buf, this`pins
      ensures Valid()
      ensures buf == old(buf)[b := old(buf[b]).(refcnt := old(buf[b].refcnt) - 1)] && pins == old(pins)[b := old(pins[b]) - 1]
    {
      PinKeeps(buf, order, pins, disk, view, slot, b, -1);
      buf := buf[b := buf[b].(refcnt := buf[b].refcnt - 1)];
      pins := pins[b := pins[b] - 1];
    }
  }

  // ---- Why each of those changes keeps the invariants ----

  lemma SetLockKeeps(buf: seq<Buf>, order: seq<int>, pins: seq<nat>, disk: seq<Block>, view: seq<Block>, slot: seq<int>, b: int)
    requires Ring(buf, order) && Agrees(buf, pins, disk, view, slot) && Counted(buf, pins) && Unique(buf)
    requires 0 <= b < NBUF && pins[b] < buf[b].refcnt
    ensures var r := buf[b := buf[b].(locked := true)];
      Ring(r, order) && Agrees(r, pins, disk, view, slot) && Counted(r, pins) && Unique(r)
  {
    var r := buf[b := buf[b].(locked := true)];
    SameLinksRing(buf, r, order);
    forall n | 0 <= n < |disk| && view[n] != disk[n]
      ensures Held(r, pins, slot[n])
    {
      assert Held(buf, pins, slot[n]);
    }
  }

  lemma FillKeeps(buf: seq<Buf>, order: seq<int>, pins: seq<nat>, disk: seq<Block>, view: seq<Block>, slot: seq<int>, b: int)
    requires Ring(buf, order) && Agrees(buf, pins, disk, view, slot) && Counted(buf, pins) && Unique(buf)
    requires 0 <= b < NBUF && !buf[b].valid && buf[b].dev == ROOTDEV && 0 <= buf[b].blockno < |disk|
    ensures var bn := buf[b].blockno;
      var r := buf[b := buf[b].(valid := true, data := disk[bn])];
      Ring(r, order) && Agrees(r, pins, disk, view, slot[bn := b]) && Counted(r, pins) && Unique(r) && view[bn] == disk[bn]
  {
    var bn := buf[b].blockno;
    var r := buf[b := buf[b].(valid := true, data := disk[bn])];
    SameLinksRing(buf, r, order);
    assert slot[bn] == -1;
    forall n | 0 <= n < |disk| && view[n] != disk[n]
      ensures Held(r, pins, slot[bn := b][n])
    {
      assert Held(buf, pins, slot[n]);
    }
  }

  lemma StoreKeeps(buf: seq<Buf>, order: seq<int>, pins: seq<nat>, disk: seq<Block>, view: seq<Block>, slot: seq<int>, b: int, data: Block)
    requires Ring(buf, order) && Agrees(buf, pins, disk, view, slot) && Counted(buf, pins) && Unique(buf)
    requires 0 <= b < NBUF && buf[b].valid && buf[b].locked
    ensures var r := buf[b := buf[b].(data := data)];
      && 0 <= buf[b].blockno < |view|
      && Ring(r, order) && Agrees(r, pins, disk, view[buf[b].blockno := data], slot) && Counted(r, pins) && Unique(r)
  {
    var r := buf[b := buf[b].(data := data)];
    SameLinksRing(buf, r, order);
    var view' := view[buf[b].blockno := data];
    forall n | 0 <= n < |disk| && view'[n] != disk[n]
      ensures Held(r, pins, slot[n])
    {
      if n != buf[b].blockno {
        assert view[n] != disk[n];
        assert Held(buf, pins, slot[n]);
      }
    }
  }

  lemma WriteKeeps(buf: seq<Buf>, pins: seq<nat>, disk: seq<Block>, view: seq<Block>, slot: seq<int>, b: int)
    requires Agrees(buf, pins, disk, view, slot) && 0 <= b < NBUF && buf[b].valid
    ensures 0 <= buf[b].blockno < |disk|
    ensures Agrees(buf, pins, disk[buf[b].blockno := buf[b].data], view, slot)
  {
  }

  lemma UnlockKeeps(buf: seq<Buf>, order: seq<int>, pins: seq<nat>, disk: seq<Block>, view: seq<Block>, slot: seq<int>, b: int)
    requires Ring(buf, order) && Agrees(buf, pins, disk, view, slot) && Counted(buf, pins) && Unique(buf)
    requires 0 <= b < NBUF && buf[b].locked && buf[b].valid
    requires 0 <= buf[b].blockno < |disk| == |view| && (pins[b] > 0 || disk[buf[b].blockno] == view[buf[b].blockno])
    ensures var r := buf[b := buf[b].(locked := false)];
      Ring(r, order) && Agrees(r, pins, disk, view, slot) && Counted(r, pins) && Unique(r)
  {
    var r := buf[b := buf[b].(locked := false)];
    SameLinksRing(buf, r, order);
    forall n | 0 <= n < |disk| && view[n] != disk[n]
      ensures Held(r, pins, slot[n])
    {
      assert Held(buf, pins, slot[n]);
    }
  }

  lemma DerefKeeps(buf: seq<Buf>, order: seq<int>, pins: seq<nat>, disk: seq<Block>, view: seq<Block>, slot: seq<int>, b: int)
    requires Ring(buf, order) && Agrees(buf, pins, disk, view, slot) && Counted(buf, pins) && Unique(buf)
    requires 0 <= b < NBUF && Extra(buf, pins, b) > 0
    ensures var r := buf[b := buf[b].(refcnt := buf[b].refcnt - 1)];
      Ring(r, order) && Agrees(r, pins, disk, view, slot) && Counted(r, pins) && Unique(r)
  {
    var r := buf[b := buf[b].(refcnt := buf[b].refcnt - 1)];
    SameLinksRing(buf, r, order);
    forall n | 0 <= n < |disk| && view[n] != disk[n]
      ensures Held(r, pins, slot[n])
    {
      assert Held(buf, pins, slot[n]);
    }
  }

  lemma MoveToFront(buf: seq<Buf>, order: seq<int>, p: int)
    requires Ring(buf, order) && 0 <= p < |order|
    ensures var b := order[p];
      && 0 <= buf[b].next < |buf| && 0 <= buf[b].prev < |buf|
      && 0 <= SetPrev(buf, buf[b].next, buf[b].prev)[b].prev < |buf|
      && 0 <= Unlink(buf, b)[HEAD].next < |buf|
      && Ring(LinkFront(Unlink(buf, b), b), [b] + RemoveAt(order, p))
      && SamePayload(buf, LinkFront(Unlink(buf, b), b))
  {
    hide Ring, SamePayload, Unlink, LinkFront, SetPrev;
    UnlinkRing(buf, order, p);
    RemovedNotIn(buf, order, p);
    LinkFrontRing(Unlink(buf, order[p]), RemoveAt(order, p), order[p]);
    SamePayloadTrans(buf, Unlink(buf, order[p]), LinkFront(Unlink(buf, order[p]), order[p]));
  }

  lemma RemovedNotIn(buf: seq<Buf>, order: seq<int>, p: int)
    requires Ring(buf, order) && 0 <= p < |order|
    ensures order[p] !in RemoveAt(order, p) && 0 <= order[p] < NBUF
  {
  }

  lemma SamePayloadTrans(a: seq<Buf>, b: seq<Buf>, c: seq<Buf>)
    requires SamePayload(a, b) && SamePayload(b, c)
    ensures SamePayload(a, c)
  {
    forall i | 0 <= i < |a|
      ensures c[i].(prev := a[i].prev, next := a[i].next) == a[i]
    {
      assert c[i].(prev := b[i].prev, next := b[i].next) == b[i];
      assert b[i].(prev := a[i].prev, next := a[i].next) == a[i];
    }
  }

  lemma MoveKeepsComplete(order: seq<int>, p: int)
    requires Complete(order) && 0 <= p < |order|
    ensures Complete([order[p]] + RemoveAt(order, p))
  {
    var r := [order[p]] + RemoveAt(order, p);
    forall b | 0 <= b < NBUF
      ensures b in r
    {
      assert b in order;
      var q :| 0 <= q < |order| && order[q] == b;
      assert r[if q == p then 0 else if q < p then q + 1 else q] == b;
    }
  }

  lemma PayloadKeeps(buf: seq<Buf>, r: seq<Buf>, pins: seq<nat>, disk: seq<Block>, view: seq<Block>, slot: seq<int>)
    requires Agrees(buf, pins, disk, view, slot) && Counted(buf, pins) && Unique(buf) && SamePayload(buf, r)
    ensures Agrees(r, pins, disk, view, slot) && Counted(r, pins) && Unique(r)
  {
    assert forall b {:trigger r[b]} :: 0 <= b < |buf| ==> r[b].(prev := buf[b].prev, next := buf[b].next) == buf[b];
    forall n | 0 <= n < |disk| && view[n] != disk[n]
      ensures Held(r, pins, slot[n])
    {
      assert Held(buf, pins, slot[n]);
    }
  }

  lemma PinKeeps(buf: seq<Buf>, order: seq<int>, pins: seq<nat>, disk: seq<Block>, view: seq<Block>, slot: seq<int>, b: int, delta: int)
    requires Ring(buf, order) && Agrees(buf, pins, disk, view, slot) && Counted(buf, pins) && Unique(buf)
    requires 0 <= b < NBUF && pins[b] + delta >= 0
    requires delta == 1 || buf[b].locked
    ensures var r, q := buf[b := buf[b].(refcnt := buf[b].refcnt + delta)], pins[b := pins[b] + delta];
      Ring(r, order) && Agrees(r, q, disk, view, slot) && Counted(r, q) && Unique(r)
  {
    var r, q := buf[b := buf[b].(refcnt := buf[b].refcnt + delta)], pins[b := pins[b] + delta];
    SameLinksRing(buf, r, order);
    forall n | 0 <= n < |disk| && view[n] != disk[n]
      ensures Held(r, q, slot[n])
    {
      assert Held(buf, pins, slot[n]);
    }
  }

  lemma TakeKeeps(buf: seq<Buf>, order: seq<int>, pins: seq<nat>, disk: seq<Block>, view: seq<Block>, slot: seq<int>, b: int)
    requires Ring(buf, order) && Agrees(buf, pins, disk, view, slot) && Counted(buf, pins) && Unique(buf) && 0 <= b < NBUF
    ensures var r := Taken(buf, b);
      Ring(r, order) && Agrees(r, pins, disk, view, slot) && Counted(r, pins) && Unique(r)
  {
    var r := Taken(buf, b);
    SameLinksRing(buf, r, order);
    forall n | 0 <= n < |disk| && view[n] != disk[n]
      ensures Held(r, pins, slot[n])
    {
      assert Held(buf, pins, slot[n]);
    }
  }

  lemma ListedInRange(order: seq<int>, i: int)
    requires Distinct(order) && 1 <= i <= |order|
    ensures 0 <= At(order, i) < NBUF && At(order, i) == order[i - 1]
  {
  }

  lemma LeastRecentAt(buf: seq<Buf>, order: seq<int>, i: int)
    requires Distinct(order) && |buf| == NBUF + 1 && 1 <= i <= |order| && buf[At(order, i)].refcnt == 0
    requires forall j :: i < j <= |order| ==> !Unused(buf, At(order, j))
    ensures LeastRecent(buf, order, At(order, i))
  {
    assert order[i - 1] == At(order, i);
    assert forall q :: i - 1 < q < |order| ==> order[q] == At(order, q + 1);
  }

  lemma HeadOnlyAtEnds(order: seq<int>, i: int)
    requires Distinct(order) && 0 <= i <= |order| + 1 && At(order, i) == HEAD
    ensures i == 0 || i == |order| + 1
  {
  }

  lemma NotListed(buf: seq<Buf>, order: seq<int>, dev: int, bn: int)
    requires Complete(order) && forall j :: 1 <= j <= |order| ==> !Names(buf, At(order, j), dev, bn)
    ensures forall b :: 0 <= b < NBUF ==> !Names(buf, b, dev, bn)
  {
    forall b | 0 <= b < NBUF
      ensures !Names(buf, b, dev, bn)
    {
      assert b in order;
      var p :| 0 <= p < |order| && order[p] == b;
      assert At(order, p + 1) == b;
    }
  }

  lemma NoneUnused(buf: seq<Buf>, order: seq<int>)
    requires Complete(order) && forall j :: 1 <= j <= |order| ==> !Unused(buf, At(order, j))
    ensures forall b :: 0 <= b < NBUF ==> !Unused(buf, b)
  {
    forall b | 0 <= b < NBUF
      ensures !Unused(buf, b)
    {
      assert b in order;
      var p :| 0 <= p < |order| && order[p] == b;
      assert At(order, p + 1) == b;
    }
  }

  // ---- Which buffer is recycled ----

  /** The list after the buffer at place p has been moved to its front. */
  function Moved(order: seq<int>, p: int): (r: seq<int>)
    requires 0 <= p < |order|
    ensures |r| == |order|
    ensures forall k {:trigger r[k]} :: 0 <= k < |r| ==> r[k] == if k == 0 then order[p] else if k <= p then order[k - 1] else order[k]
  {
    [order[p]] + RemoveAt(order, p)
  }

  lemma MovedKeeps(order: seq<int>, p: int)
    requires Distinct(order) && 0 <= p < |order|
    ensures Distinct(Moved(order, p))
    ensures forall c {:trigger c in order} :: c in order ==> c in Moved(order, p)
  {
    hide Moved;
    var r := Moved(order, p);
    forall c | c in order
      ensures c in r
    {
      var i :| 0 <= i < |order| && order[i] == c;
      assert r[if i == p then 0 else if i < p then i + 1 else i] == c;
    }
    forall i, j | 0 <= i < j < |r|
      ensures r[i] != r[j]
    {
      assert r[i] == order[if i == 0 then p else if i <= p then i - 1 else i];
      assert r[j] == order[if j <= p then j - 1 else j];
    }
  }

  /** The list after the last references to the buffers of `rs` have been given up, in that order. */
  ghost function Released(order: seq<int>, rs: seq<int>): (r: seq<int>)
    requires Distinct(order) && forall i {:trigger rs[i]} :: 0 <= i < |rs| ==> rs[i] in order
    ensures Distinct(r) && forall b {:trigger b in r} {:trigger b in order} :: b in order ==> b in r
    decreases |rs|
  {
    if rs == [] then order
    else
      var before := Released(order, rs[..|rs| - 1]);
      var p :| 0 <= p < |before| && before[p] == rs[|rs| - 1];
      MovedKeeps(before, p);
      Moved(before, p)
  }

  /** When buffer b was released last, -1 if never. */
  function LastRelease(rs: seq<int>, b: int): (t: int)
    ensures -1 <= t < |rs|
  {
    if rs == [] then -1 else if rs[|rs| - 1] == b then |rs| - 1 else LastRelease(rs[..|rs| - 1], b)
  }

  /** The list is sorted by the time of the last release, the latest first. */
  lemma {:induction false} SortedByRelease(order: seq<int>, rs: seq<int>, i: int, j: int)
    requires Distinct(order) && forall k {:trigger rs[k]} :: 0 <= k < |rs| ==> rs[k] in order
    requires 0 <= i < j < |Released(order, rs)|
    ensures var r := Released(order, rs); LastRelease(rs, r[i]) > LastRelease(rs, r[j]) || LastRelease(rs, r[j]) == -1
    decreases |rs|
  {
    hide Moved, Distinct;
    if rs != [] {
      var was, r := Released(order, rs[..|rs| - 1]), Released(order, rs);
      var p :| 0 <= p < |was| && was[p] == rs[|rs| - 1] && r == Moved(was, p);
      if i > 0 {
        var x, y := if i <= p then i - 1 else i, if j <= p then j - 1 else j;
        MovedAt(was, p, i);
        MovedAt(was, p, j);
        SortedByRelease(order, rs[..|rs| - 1], x, y);
        OnlyOnce(was, p, x);
      }
      MovedAt(was, p, j);
      OnlyOnce(was, p, if j <= p then j - 1 else j);
    }
  }

  lemma MovedAt(order: seq<int>, p: int, k: int)
    requires 0 <= p < |order| && 0 <= k < |order|
    ensures Moved(order, p)[k] == if k == 0 then order[p] else if k <= p then order[k - 1] else order[k]
  {
  }

  lemma OnlyOnce(order: seq<int>, p: int, q: int)
    requires Distinct(order) && 0 <= p < |order| && 0 <= q < |order| && p != q
    ensures order[p] != order[q]
  {
  }

  /** Least recently used: of the buffers nobody references bget() recycles the one whose last reference was given
      up first, or one that never was used. */
  lemma LeastRecentlyReleased(buf: seq<Buf>, order: seq<int>, rs: seq<int>, b: int, c: int)
    requires Distinct(order) && forall k {:trigger rs[k]} :: 0 <= k < |rs| ==> rs[k] in order
    requires LeastRecent(buf, Released(order, rs), b) && Unused(buf, c) && c in order && c != b
    ensures LastRelease(rs, b) < LastRelease(rs, c) || LastRelease(rs, b) == -1
  {
    hide Released, LastRelease, Distinct;
    var r := Released(order, rs);
    var p :| 0 <= p < |r| && r[p] == b && forall q :: p < q < |r| ==> !Unused(buf, r[q]);
    var q :| 0 <= q < |r| && r[q] == c;
    SortedByRelease(order, rs, q, p);
  }
}
