/** log.c on top of bio.c: the log object, its operations, commit and recovery. */
module Log {
  import opened Disk
  import opened RedoLog
  import opened BufferRing
  import opened Sequences
  import opened BufferCache
  import Counting
  import Protocol = LogProtocol

  /** From position t on, buffer home[i] holds the valid contents of logged block lh[i] and is
      pinned once; no other buffer is pinned. */
  predicate PinnedFrom(buf: seq<Buf>, pins: seq<nat>, lh: seq<int>, home: seq<int>, t: nat) {
    && |home| == |lh| && |pins| == NBUF && t <= |lh|
    && (forall i :: t <= i < |home| ==> PinnedOnce(buf, pins, lh[i], home[i]))
    && (forall b :: 0 <= b < NBUF && pins[b] > 0 ==> b in home[t..])
  }

  predicate PinnedOnce(buf: seq<Buf>, pins: seq<nat>, bn: int, b: int) {
    Names(buf, b, ROOTDEV, bn) && buf[b].valid && b < |pins| && pins[b] == 1
  }

  /** Nobody but the log references a buffer. */
  predicate Quiet(buf: seq<Buf>, pins: seq<nat>) {
    && |pins| == NBUF <= |buf|
    && forall b :: 0 <= b < NBUF ==> buf[b].refcnt == pins[b] && !buf[b].locked
  }

  class Log {
    const lay: Layout
    const cache: Cache
    var lh: seq<int>       // the first lh.n entries of lh.block
    var outstanding: nat
    var committing: bool
    ghost var home: seq<int>

    constructor (lay: Layout, cache: Cache)
      ensures this.lay == lay && this.cache == cache && lh == []
      ensures outstanding == 0 && !committing && home == []
    {
      this.lay, this.cache := lay, cache;
      lh, outstanding, committing, home := [], 0, false, [];
    }

    /** Log and cache are consistent; block contents are the cache's business. */
    ghost predicate Valid()
      reads this, cache
    {
      && cache.Valid() && lay.Fits(|cache.disk|)
      && Loggable(lay, |cache.disk|, lh)
      && PinnedFrom(cache.buf, cache.pins, lh, home, 0)
    }

    /** The two bread() calls that open an iteration of write_log() and install_trans(); h is the
        buffer the second block is pinned in, if it is. */
    method BreadTwo(bn: int, bn': int, ghost h: int) returns (a: int, b: int)
      requires cache.Valid() && Quiet(cache.buf, cache.pins)
      requires 0 <= bn < |cache.disk| && 0 <= bn' < |cache.disk| && bn != bn'
      requires h == -1 || PinnedOnce(cache.buf, cache.pins, bn', h)
      modifies cache`buf, cache`slot
      ensures cache.Valid()
      ensures a == -1 <==> old(NoBuffers(cache.buf, ROOTDEV, bn))
      ensures a != -1 ==> 0 <= a < NBUF && Opened(old(cache.buf), old(cache.buf)[a := cache.buf[a]], cache.view, bn, a)
      ensures a != -1 && h != -1 ==> b == h && cache.pins[b] > 0
      ensures a != -1 && b == -1 ==> AllInUse(old(cache.buf), a, bn')
      ensures a != -1 && b != -1 ==>
        && a != b && Opened(old(cache.buf)[a := cache.buf[a]], cache.buf, cache.view, bn', b)
    {
      hide Ring, Complete, Unique, Counted, Agrees, Apply, After, LeastRecent;
      b := -1;
      var asleep;
      a, asleep := cache.Bread(ROOTDEV, bn);
      if a != -1 {
        ghost var mid := cache.buf;
        assert mid == old(cache.buf)[a := mid[a]];
        if h != -1 {
          PinnedNamed(old(cache.buf), mid, cache.pins, cache.view, bn, bn', a, h);
        }
        b, asleep := cache.Bread(ROOTDEV, bn');
        if h != -1 {
          PinnedServes(mid, cache.buf, cache.view, bn', b, h);
        }
        if b == -1 {
          forall c | 0 <= c < NBUF && c != a
            ensures !Unused(old(cache.buf), c) && !Names(old(cache.buf), c, ROOTDEV, bn')
          {
            assert mid[c] == old(cache.buf)[c] && !Names(mid, c, ROOTDEV, bn') && !Unused(mid, c);
          }
        }
      }
    }

    /** memmove, bwrite, bunpin if asked for, and the two brelse() calls: block `from` is copied over
        block `to`. */
    method Transfer(to: int, from: int, unpin: bool, first: int, second: int)
      requires cache.Valid() && 0 <= to < NBUF && 0 <= from < NBUF && to != from
      requires (first == to && second == from) || (first == from && second == to)
      requires cache.buf[to].locked && cache.buf[to].valid && cache.buf[from].locked && cache.buf[from].valid
      requires 0 <= cache.buf[to].blockno < |cache.disk| && 0 <= cache.buf[from].blockno < |cache.disk|
      requires cache.pins[from] > 0 || cache.disk[cache.buf[from].blockno] == cache.view[cache.buf[from].blockno]
      requires cache.buf[to].blockno != cache.buf[from].blockno
      requires unpin ==> cache.pins[to] > 0
      modifies cache`buf, cache`view, cache`disk, cache`writes, cache`order, cache`pins
      ensures cache.Valid()
      ensures cache.pins == if unpin then old(cache.pins)[to := old(cache.pins[to]) - 1] else old(cache.pins)
      ensures var w := Write(old(cache.buf[to].blockno), old(cache.buf[from].data));
        && cache.disk == Put(old(cache.disk), w) && cache.view == Put(old(cache.view), w)
        && cache.writes == old(cache.writes) + [w]
        && SamePayload(Closed(old(cache.buf), to, w.data, unpin, first, second), cache.buf)
    {
      hide Ring, Complete, Unique, Counted, Agrees, Apply, After, LeastRecent, SamePayload, RemoveAt;
      cache.Store(to, cache.buf[from].data);
      cache.Bwrite(to);
      if unpin {
        cache.Bunpin(to);
      }
      ghost var mid := cache.buf;
      ghost var b := old(cache.buf[to]).(data := old(cache.buf[from].data), refcnt := old(cache.buf[to].refcnt) - if unpin then 1 else 0);
      assert mid == old(cache.buf)[to := b];
      cache.Brelse(first);
      ghost var last := cache.buf;
      assert last[second].(prev := 0, next := 0) == mid[second].(prev := 0, next := 0) by {
        PayloadAt(Dropped(mid, first), last, second);
      }
      cache.Brelse(second);
      ReleasedTwo(mid, last, cache.buf, first, second);
    }

    /** Transfer between the two buffers that BreadTwo opened: afterwards nobody but the log holds a
        buffer again, and the pinned buffers still hold their blocks. */
    method CloseTwo(to: int, from: int, unpin: bool, first: int, second: int, a: int, b: int,
                    ghost was: seq<Buf>, ghost mid: seq<Buf>, ghost bn: int, ghost bn': int)
      requires cache.Valid() && Quiet(was, cache.pins) && a != b && bn != bn'
      requires Opened(was, mid, cache.view, bn, a) && Opened(mid, cache.buf, cache.view, bn', b)
      requires (to == a && from == b) || (to == b && from == a)
      requires (first == to && second == from) || (first == from && second == to)
      requires 0 <= bn < |cache.disk| && 0 <= bn' < |cache.disk|
      requires cache.pins[from] > 0 || cache.disk[if from == a then bn else bn'] == cache.view[if from == a then bn else bn']
      requires unpin ==> cache.pins[to] > 0
      modifies cache`buf, cache`view, cache`disk, cache`writes, cache`order, cache`pins
      ensures cache.Valid()
      ensures cache.pins == if unpin then old(cache.pins)[to := old(cache.pins[to]) - 1] else old(cache.pins)
      ensures var w := if to == a then Write(bn, old(cache.view[bn'])) else Write(bn', old(cache.view[bn]));
        && cache.disk == Put(old(cache.disk), w) && cache.view == Put(old(cache.view), w)
        && cache.writes == old(cache.writes) + [w]
      ensures Quiet(cache.buf, cache.pins) && KeepsPinned(was, cache.buf, old(cache.pins))
    {
      hide Ring, Complete, Unique, Counted, Agrees, Apply, After, LeastRecent, SamePayload, Closed, Quiet, KeepsPinned;
      ghost var busy, pins := cache.buf, cache.pins;
      Transfer(to, from, unpin, first, second);
      CloseQuiet(was, mid, busy, cache.buf, pins, cache.pins, busy[from].data, unpin, bn, bn', a, b, to, from, first,
          second, old(cache.view));
    }

    /** The body of write_log()'s loop: copy one logged block from the cache to the log area. */
    method LogBlock(tail: nat) returns (ok: bool)
      requires Valid() && Quiet(cache.buf, cache.pins) && tail < |lh|
      modifies cache`buf, cache`slot, cache`view, cache`disk, cache`writes, cache`order, cache`pins
      ensures ok <==> !old(NoBuffers(cache.buf, ROOTDEV, lay.start + 1 + tail))
      ensures ok ==> var w := Write(lay.start + 1 + tail, old(cache.view)[lh[tail]]);
        && Valid() && Quiet(cache.buf, cache.pins)
        && cache.disk == Put(old(cache.disk), w) && cache.view == Put(old(cache.view), w)
        && cache.writes == old(cache.writes) + [w] && cache.pins == old(cache.pins)
    {
      hide Loggable, Ring, Complete, Unique, Counted, Agrees, Apply, After, LeastRecent, PinnedFrom, Quiet, KeepsPinned, Opened;
      LoggedBlock(lay, |cache.disk|, lh, cache.buf, cache.pins, home, 0, tail);
      var to, from := BreadTwo(lay.start + 1 + tail, lh[tail], home[tail]);
      if to == -1 {
        return false;
      }
      ok := true;
      ghost var was, mid := old(cache.buf), old(cache.buf)[to := cache.buf[to]];
      CloseTwo(to, from, false, from, to, to, from, was, mid, lay.start + 1 + tail, lh[tail]);
      StillPinned(was, cache.buf, cache.pins, lh, home, 0);
    }

    /** Since `view`, `disk` and `writes`, the first k writes of `plan` have been made, through the cache. */
    ghost predicate Done(view: seq<Block>, disk: seq<Block>, writes: seq<Write>, plan: seq<Write>, k: nat)
      requires k <= |plan|
      reads cache
    {
      && cache.view == After(view, plan, k) && cache.disk == After(disk, plan, k)
      && cache.writes == writes + plan[..k]
    }

    /** write_log().  It panics for want of a buffer exactly when every buffer is pinned, that is
        when the transaction has NBUF blocks. */
    method WriteLog() returns (ok: bool)
      requires Valid() && Quiet(cache.buf, cache.pins) && lh != []
      modifies cache`buf, cache`slot, cache`view, cache`disk, cache`writes, cache`order, cache`pins
      ensures ok <==> |lh| < NBUF
      ensures ok ==> Valid() && Quiet(cache.buf, cache.pins) && cache.pins == old(cache.pins) && |cache.disk| == old(|cache.disk|)
      ensures ok ==> Done(old(cache.view), old(cache.disk), old(cache.writes),
                          CommitWrites(lay, lh, old(cache.view), old(cache.view)[lay.start]), |lh|)
    {
      hide Loggable, Ring, Complete, Unique, Counted, Agrees, Apply, After, LeastRecent, NoBuffers, Quiet,
        CommitWrites, EncodeHeader, PinnedFrom;
      ghost var view, disk, writes := cache.view, cache.disk, cache.writes;
      LoggableLength(lay, |disk|, lh);
      NoBuffersIff(cache.buf, cache.pins, lh, home, lay, |cache.disk|, lay.start + 1);
      ghost var plan := CommitWrites(lay, lh, view, view[lay.start]);
      NoWrites(view, disk, writes, plan);
      var tail := 0;
      while tail < |lh|
        invariant 0 <= tail <= |lh| && |cache.disk| == |disk| == |view|
        invariant tail > 0 ==> |lh| < NBUF
        invariant Valid() && Quiet(cache.buf, cache.pins) && cache.pins == old(cache.pins)
        invariant Done(view, disk, writes, plan, tail)
      {
        NoBuffersIff(cache.buf, cache.pins, lh, home, lay, |cache.disk|, lay.start + 1 + tail);
        CommitStep(lay, lh, view, tail);
        ok := LogBlock(tail);
        if !ok {
          return;
        }
        NextWrite(view, disk, writes, plan, tail);
        tail := tail + 1;
      }
      ok := true;
    }

    /** install_trans(): given that write k + tail of the plan is the one iteration `tail` makes, the
        next |lh| writes of the plan are made, and unless recovering every pin is dropped. */
    method InstallTrans(recovering: bool, ghost view: seq<Block>, ghost disk: seq<Block>, ghost writes: seq<Write>,
                        ghost plan: seq<Write>, ghost k: nat, ghost spare: int)
      requires cache.Valid() && Quiet(cache.buf, cache.pins) && lay.Fits(|cache.disk|) && Loggable(lay, |cache.disk|, lh)
      requires PinnedFrom(cache.buf, cache.pins, lh, home, if recovering then |lh| else 0)
      requires 0 <= spare < NBUF && cache.pins[spare] == 0
      requires |view| == |disk| == |cache.disk| && lay.start + 1 + |lh| <= |view| && k + |lh| <= |plan| && Done(view, disk, writes, plan, k)
      requires forall i :: 0 <= i < |lh| ==> plan[k + i] == Write(lh[i], After(view, plan, k + i)[lay.start + 1 + i])
      modifies cache`buf, cache`slot, cache`view, cache`disk, cache`writes, cache`order, cache`pins
      ensures cache.Valid() && Quiet(cache.buf, cache.pins) && |cache.disk| == old(|cache.disk|)
      ensures Done(view, disk, writes, plan, k + |lh|)
      ensures PinnedFrom(cache.buf, cache.pins, lh, home, |lh|)
    {
      hide Loggable, Ring, Complete, Unique, Counted, Agrees, Apply, After, Quiet, PinnedFrom;
      var tail := 0;
      while tail < |lh|
        invariant 0 <= tail <= |lh| && |cache.disk| == |disk|
        invariant cache.Valid() && Quiet(cache.buf, cache.pins) && cache.pins[spare] == 0
        invariant PinnedFrom(cache.buf, cache.pins, lh, home, if recovering then |lh| else tail)
        invariant Done(view, disk, writes, plan, k + tail)
      {
        assert plan[k + tail] == Write(lh[tail], After(view, plan, k + tail)[lay.start + 1 + tail]);
        InstallBlock(tail, recovering, if recovering then |lh| else tail, spare);
        NextWrite(view, disk, writes, plan, k + tail);
        tail := tail + 1;
      }
    }

    /** write_head(): put the in-memory header into the header block. */
    method WriteHead() returns (ok: bool)
      requires cache.Valid() && Quiet(cache.buf, cache.pins) && lay.Fits(|cache.disk|) && |lh| <= LOGSIZE
      modifies cache`buf, cache`slot, cache`view, cache`disk, cache`writes, cache`order
      ensures ok <==> !old(NoBuffers(cache.buf, ROOTDEV, lay.start))
      ensures ok ==> var w := Write(lay.start, EncodeHeader(old(cache.view)[lay.start], lh));
        && cache.Valid() && Quiet(cache.buf, cache.pins) && KeepsPinned(old(cache.buf), cache.buf, cache.pins)
        && cache.disk == Put(old(cache.disk), w) && cache.view == Put(old(cache.view), w)
        && cache.writes == old(cache.writes) + [w]
    {
      hide Ring, Complete, Unique, Counted, Agrees, Apply, After, LeastRecent, EncodeHeader, SamePayload, KeepsPinned;
      var b, asleep := cache.Bread(ROOTDEV, lay.start);
      if b == -1 {
        return false;
      }
      ok := true;
      ghost var busy := cache.buf;
      cache.Store(b, EncodeHeader(cache.buf[b].data, lh));
      cache.Bwrite(b);
      ghost var mid := cache.buf;
      cache.Brelse(b);
      OneQuiet(old(cache.buf), busy, mid, cache.buf, cache.pins, cache.view, lay.start, b);
    }

    /** Copy clean block bn over block bn', and unpin bn' if asked for; h is the buffer bn' is pinned
        in, or -1. */
    method CopyHome(bn: int, bn': int, unpin: bool, ghost h: int)
      requires cache.Valid() && Quiet(cache.buf, cache.pins)
      requires 0 <= bn < |cache.disk| && 0 <= bn' < |cache.disk| && bn != bn'
      requires cache.disk[bn] == cache.view[bn] && !NoBuffers(cache.buf, ROOTDEV, bn)
      requires if h == -1 then Plenty(cache.buf) else PinnedOnce(cache.buf, cache.pins, bn', h)
      requires unpin ==> h != -1
      modifies cache`buf, cache`slot, cache`view, cache`disk, cache`writes, cache`order, cache`pins
      ensures var w := Write(bn', old(cache.view)[bn]);
        && cache.Valid() && Quiet(cache.buf, cache.pins) && KeepsPinned(old(cache.buf), cache.buf, old(cache.pins))
        && cache.disk == Put(old(cache.disk), w) && cache.view == Put(old(cache.view), w)
        && cache.writes == old(cache.writes) + [w]
        && cache.pins == if unpin then old(cache.pins)[h := old(cache.pins[h]) - 1] else old(cache.pins)
    {
      hide Ring, Complete, Unique, Counted, Agrees, Apply, After, LeastRecent, Quiet, KeepsPinned, Opened, NoBuffers, AllInUse, Plenty;
      ghost var was := cache.buf;
      var lbuf, dbuf := BreadTwo(bn, bn', h);
      if h == -1 {
        SecondServed(was, lbuf, bn');
      }
      CloseTwo(dbuf, lbuf, unpin, lbuf, dbuf, lbuf, dbuf, was, was[lbuf := cache.buf[lbuf]], bn, bn');
    }

    /** The body of install_trans()'s loop: copy one log block home, and unpin the home block unless
        recovering.  `spare` is a buffer the log has not pinned. */
    method InstallBlock(tail: nat, recovering: bool, ghost t: nat, ghost spare: int)
      requires cache.Valid() && Quiet(cache.buf, cache.pins) && lay.Fits(|cache.disk|)
      requires Loggable(lay, |cache.disk|, lh) && tail < |lh|
      requires t == if recovering then |lh| else tail
      requires PinnedFrom(cache.buf, cache.pins, lh, home, t)
      requires 0 <= spare < NBUF && cache.pins[spare] == 0
      modifies cache`buf, cache`slot, cache`view, cache`disk, cache`writes, cache`order, cache`pins
      ensures var w := Write(lh[tail], old(cache.view)[lay.start + 1 + tail]);
        && cache.Valid() && Quiet(cache.buf, cache.pins)
        && cache.disk == Put(old(cache.disk), w) && cache.view == Put(old(cache.view), w)
        && cache.writes == old(cache.writes) + [w]
      ensures PinnedFrom(cache.buf, cache.pins, lh, home, if recovering then |lh| else tail + 1)
      ensures cache.pins[spare] == 0
    {
      InstallReads(lay, |cache.disk|, lh, cache.buf, cache.pins, cache.disk, cache.view, cache.slot, home, t, tail, spare);
      hide Ring, Complete, Unique, Counted, Agrees, Apply, After, Quiet, KeepsPinned, PinnedFrom, Loggable, NoBuffers, Plenty;
      ghost var was, pins := cache.buf, cache.pins;
      CopyHome(lay.start + 1 + tail, lh[tail], !recovering, if recovering then -1 else home[tail]);
      StillPinned(was, cache.buf, pins, lh, home, t);
      if !recovering {
        UnpinOne(cache.buf, pins, cache.pins, lh, home, tail, lay, |cache.disk|);
      }
    }

    /** commit().  With nobody else using the cache it panics exactly when the transaction pins every
        buffer; otherwise it makes the writes of CommitWrites, in that order, and drops every pin. */
    method Commit() returns (ok: bool)
      requires Valid() && Quiet(cache.buf, cache.pins)
      modifies this`lh, this`home, cache`buf, cache`slot, cache`view, cache`disk, cache`writes, cache`order, cache`pins
      ensures ok <==> |old(lh)| < NBUF
      ensures ok ==> var plan := CommitPlan(lay, old(lh), old(cache.view));
        Done(old(cache.view), old(cache.disk), old(cache.writes), plan, |plan|)
      ensures ok ==> Valid() && Quiet(cache.buf, cache.pins) && lh == [] && |cache.disk| == old(|cache.disk|)
    {
      hide Loggable, Ring, Complete, Unique, Counted, Agrees, Apply, After, Quiet, PinnedFrom, CommitWrites,
        NoBuffers, EncodeHeader, KeepsPinned;
      ghost var view, disk, writes, was := cache.view, cache.disk, cache.writes, lh;
      ghost var plan := CommitPlan(lay, lh, view);
      NoWrites(view, disk, writes, plan);
      LoggableLength(lay, |disk|, lh);
      ok := true;
      if |lh| > 0 {
        ok := WriteLog();
        if !ok {
          return;
        }
        ghost var spare := Spare(cache.buf, cache.pins, lh, home, lay, |cache.disk|);
        CommitSecondHalf(view, disk, writes, spare);
      }
    }

    /** commit() from the header write on. */
    method CommitSecondHalf(ghost view: seq<Block>, ghost disk: seq<Block>, ghost writes: seq<Write>, ghost spare: int)
      requires Valid() && Quiet(cache.buf, cache.pins) && lh != []
      requires |view| == |disk| == |cache.disk| && 0 <= spare < NBUF && cache.pins[spare] == 0
      requires Done(view, disk, writes, CommitWrites(lay, lh, view, view[lay.start]), |lh|)
      modifies this`lh, this`home, cache`buf, cache`slot, cache`view, cache`disk, cache`writes, cache`order, cache`pins
      ensures Done(view, disk, writes, CommitWrites(lay, old(lh), view, view[lay.start]), 2 * |old(lh)| + 2)
      ensures Valid() && Quiet(cache.buf, cache.pins) && lh == [] && |cache.disk| == old(|cache.disk|)
    {
      hide Loggable, Ring, Complete, Unique, Counted, Agrees, Apply, After, Quiet, PinnedFrom, CommitWrites,
        NoBuffers, EncodeHeader, KeepsPinned, Done;
      ghost var n, plan, was := |lh|, CommitWrites(lay, lh, view, view[lay.start]), lh;
      CommitTail(lay, was, view);
      WriteHeadOfPlan(view, disk, writes, plan, n, spare);
      InstallTrans(false, view, disk, writes, plan, n + 1, spare);
      EraseLog(view, disk, writes, plan, 2 * n + 1, spare);
    }

    /** The last act of commit() and of recovery: the list is emptied and the header written without it. */
    method EraseLog(ghost view: seq<Block>, ghost disk: seq<Block>, ghost writes: seq<Write>, ghost plan: seq<Write>,
                    ghost k: nat, ghost spare: int)
      requires cache.Valid() && Quiet(cache.buf, cache.pins) && lay.Fits(|cache.disk|) && PinnedFrom(cache.buf, cache.pins, lh, home, |lh|)
      requires 0 <= spare < NBUF && k < |plan| && |view| == |disk| == |cache.disk|
      requires Done(view, disk, writes, plan, k)
      requires plan[k] == Write(lay.start, EncodeHeader(After(view, plan, k)[lay.start], []))
      modifies this`lh, this`home, cache`buf, cache`slot, cache`view, cache`disk, cache`writes, cache`order
      ensures Valid() && Quiet(cache.buf, cache.pins) && lh == [] && |cache.disk| == old(|cache.disk|)
      ensures Done(view, disk, writes, plan, k + 1)
    {
      hide Loggable, Ring, Complete, Unique, Counted, Agrees, Apply, After, Quiet, PinnedFrom, NoBuffers, EncodeHeader, KeepsPinned;
      NothingPinned(cache.buf, cache.pins, lh, home);
      lh, home := [], [];
      EmptyLoggable(lay, |disk|);
      WriteHeadOfPlan(view, disk, writes, plan, k, spare);
    }

    /** write_head() as write k of the plan. */
    method WriteHeadOfPlan(ghost view: seq<Block>, ghost disk: seq<Block>, ghost writes: seq<Write>,
                           ghost plan: seq<Write>, ghost k: nat, ghost spare: int)
      requires Valid() && Quiet(cache.buf, cache.pins)
      requires 0 <= spare < NBUF && cache.pins[spare] == 0 && k < |plan| && |view| == |disk| == |cache.disk|
      requires Done(view, disk, writes, plan, k)
      requires plan[k] == Write(lay.start, EncodeHeader(After(view, plan, k)[lay.start], lh))
      modifies cache`buf, cache`slot, cache`view, cache`disk, cache`writes, cache`order
      ensures Valid() && Quiet(cache.buf, cache.pins) && |cache.disk| == old(|cache.disk|)
      ensures Done(view, disk, writes, plan, k + 1)
    {
      hide Loggable, Ring, Complete, Unique, Counted, Agrees, Apply, After, Quiet, PinnedFrom, NoBuffers, EncodeHeader, KeepsPinned;
      LoggableLength(lay, |disk|, lh);
      SpareServes(cache.buf, cache.pins, spare, lay.start);
      ghost var was := cache.buf;
      var ok := WriteHead();
      StillPinned(was, cache.buf, cache.pins, lh, home, 0);
      NextWrite(view, disk, writes, plan, k);
    }

    /** begin_op(), one pass of its loop: false means that the caller sleeps. */
    method BeginOp() returns (admitted: bool)
      modifies this`outstanding
      ensures admitted <==> !committing && Protocol.WorstCaseFits(lh, old(outstanding) + 1)
      ensures outstanding == old(outstanding) + if admitted then 1 else 0
    {
      Protocol.AdmitsExactly(lh, outstanding);
      admitted := !committing && |lh| + (outstanding + 1) * MAXOPBLOCKS <= LOGSIZE;
      if admitted {
        outstanding := outstanding + 1;
      }
    }

    /** log_write()'s search for an entry to absorb the block into. */
    method FindEntry(bn: int) returns (i: nat)
      ensures i <= |lh| && (i < |lh| ==> lh[i] == bn)
      ensures i == |lh| ==> forall j :: 0 <= j < |lh| ==> lh[j] != bn
      ensures i == |lh| <==> IndexOf(lh, bn) < 0
    {
      i := 0;
      while i < |lh| && lh[i] != bn
        invariant 0 <= i <= |lh|
        invariant forall j :: 0 <= j < i ==> lh[j] != bn
      {
        i := i + 1;
      }
      ghost var found := IndexOf(lh, bn);
    }

    /** The branch of log_write() that adds a block: pin its buffer and append its number. */
    method AddEntry(b: int)
      requires Valid() && 0 <= b < NBUF && cache.buf[b].locked && cache.buf[b].valid && cache.buf[b].dev == ROOTDEV
      requires 0 <= cache.buf[b].blockno && !lay.InLog(cache.buf[b].blockno) && !Protocol.TooBig(|lh|, lay.size)
      requires forall j :: 0 <= j < |lh| ==> lh[j] != cache.buf[b].blockno
      modifies this`lh, this`home, cache`buf, cache`pins
      ensures Valid() && lh == old(lh) + [old(cache.buf[b].blockno)] && cache.pins[b] > 0
    {
      hide Ring, Complete, Unique, Counted, Agrees, Apply, After, PinnedFrom, Loggable;
      LockedFacts(cache.buf, cache.pins, cache.disk, cache.view, cache.slot, b);
      NewlyLogged(lay, |cache.disk|, cache.buf, cache.pins, lh, home, b);
      cache.Bpin(b);
      lh, home := lh + [cache.buf[b].blockno], home + [b];
    }

    /** log_write() by a client that holds buffer b; true means panic.  The block is absorbed into an
        existing entry, or else appended and its buffer pinned. */
    method LogWrite(b: int) returns (panic: bool)
      requires Valid() && 0 <= b < NBUF && cache.buf[b].locked && cache.buf[b].valid && cache.buf[b].dev == ROOTDEV
      requires 0 <= cache.buf[b].blockno && !lay.InLog(cache.buf[b].blockno)
      modifies this`lh, this`home, cache`buf, cache`pins
      ensures panic <==> Protocol.TooBig(|old(lh)|, lay.size) || outstanding < 1
      ensures panic ==> lh == old(lh) && cache.buf == old(cache.buf) && cache.pins == old(cache.pins)
      ensures !panic ==> Valid() && lh == Protocol.Absorb(old(lh), old(cache.buf[b].blockno)) && cache.pins[b] > 0
    {
      hide Ring, Complete, Unique, Counted, Agrees, Apply, After, PinnedFrom, Loggable, IndexOf;
      LockedFacts(cache.buf, cache.pins, cache.disk, cache.view, cache.slot, b);
      if |lh| >= LOGSIZE || |lh| >= lay.size - 1 || outstanding < 1 {
        return true;
      }
      panic := false;
      var bn := cache.buf[b].blockno;
      var i := FindEntry(bn);
      if i == |lh| {
        AddEntry(b);
      } else {
        AlreadyLogged(cache.buf, cache.pins, lh, home, i, b);
        assert lh[i := bn] == lh;
        lh := lh[i := bn];
      }
    }

    /** end_op(); true means panic.  The last operation of a group commits it. */
    method EndOp() returns (panic: bool)
      requires Valid() && outstanding >= 1
      requires outstanding == 1 ==> Quiet(cache.buf, cache.pins)
      modifies this`outstanding, this`committing, this`lh, this`home
      modifies cache`buf, cache`slot, cache`view, cache`disk, cache`writes, cache`order, cache`pins
      ensures outstanding == old(outstanding) - 1
      ensures panic <==> old(committing) || (old(outstanding) == 1 && |old(lh)| >= NBUF)
      ensures !panic ==> Valid() && !committing
      ensures !panic && outstanding > 0 ==> lh == old(lh) && cache.disk == old(cache.disk) && cache.view == old(cache.view)
      ensures !panic && outstanding == 0 ==> var plan := CommitPlan(lay, old(lh), old(cache.view));
        lh == [] && Done(old(cache.view), old(cache.disk), old(cache.writes), plan, |plan|)
    {
      hide Loggable, Ring, Complete, Unique, Counted, Agrees, Apply, After, Quiet, PinnedFrom, CommitWrites;
      outstanding := outstanding - 1;
      if committing {
        return true;
      }
      panic := false;
      if outstanding == 0 {
        committing := true;
        var ok := Commit();
        if !ok {
          return true;
        }
        committing := false;
      }
    }

    /** read_head(): take the in-memory list from the header block on the disk. */
    method ReadHead()
      requires cache.Valid() && Quiet(cache.buf, cache.pins) && Plenty(cache.buf)
      requires WellFormed(lay, cache.disk) && cache.view == cache.disk
      modifies this`lh, cache`buf, cache`slot, cache`order
      ensures cache.Valid() && Quiet(cache.buf, cache.pins) && lh == Header(lay, cache.disk)
    {
      hide Ring, Complete, Unique, Counted, Agrees, Apply, After, LeastRecent, EncodeHeader, SamePayload, KeepsPinned, Loggable;
      assert Unused(cache.buf, 0);
      var b, asleep := cache.Bread(ROOTDEV, lay.start);
      ghost var busy := cache.buf;
      var w := cache.buf[b].data.w;
      lh := w[1..1 + w[0]];
      cache.Brelse(b);
      OneQuiet(old(cache.buf), busy, busy, cache.buf, cache.pins, cache.view, lay.start, b);
    }

    /** recover_from_log() on a cold cache makes exactly the writes of RecoverWrites. */
    method RecoverFromLog()
      requires cache.Valid() && Quiet(cache.buf, cache.pins) && Plenty(cache.buf)
      requires WellFormed(lay, cache.disk) && cache.view == cache.disk
      modifies this`lh, this`home, cache`buf, cache`slot, cache`view, cache`disk, cache`writes, cache`order, cache`pins
      ensures var plan := RecoverWrites(lay, old(cache.disk));
        Done(old(cache.view), old(cache.disk), old(cache.writes), plan, |plan|)
      ensures Valid() && Quiet(cache.buf, cache.pins) && lh == []
    {
      hide Ring, Complete, Unique, Counted, Agrees, Apply, After, Quiet, PinnedFrom, EncodeHeader, KeepsPinned,
        Loggable, WellFormed, Header, RecoverWrites;
      ghost var d, writes, plan := cache.disk, cache.writes, RecoverWrites(lay, cache.disk);
      RecoverPlan(lay, d);
      NoWrites(d, d, writes, plan);
      NoPins(cache.buf, cache.pins);
      ReadHead();
      LoggableLength(lay, |d|, lh);
      home := seq(|lh|, _ => 0);
      UnpinnedList(cache.buf, cache.pins, lh, home);
      InstallTrans(true, d, d, writes, plan, 0, 0);
      EraseLog(d, d, writes, plan, |plan| - 1, 0);
    }
  }

  lemma NoPins(buf: seq<Buf>, pins: seq<nat>)
    requires Quiet(buf, pins) && Plenty(buf)
    ensures forall b :: 0 <= b < NBUF ==> pins[b] == 0
  {
    forall b | 0 <= b < NBUF
      ensures pins[b] == 0
    {
      assert Unused(buf, b);
    }
  }

  lemma UnpinnedList(buf: seq<Buf>, pins: seq<nat>, lh: seq<int>, home: seq<int>)
    requires |pins| == NBUF && |home| == |lh| && forall b :: 0 <= b < NBUF ==> pins[b] == 0
    ensures PinnedFrom(buf, pins, lh, home, |lh|)
  {
  }

  /** Recovery computes each write from the cache as it goes; the result is the plan RecoverWrites. */
  lemma RecoverStep(lay: Layout, d: seq<Block>, j: nat)
    requires WellFormed(lay, d) && j <= |Header(lay, d)|
    ensures var plan := RecoverWrites(lay, d);
      var now := After(d, plan, j);
      plan[j] == if j < |Header(lay, d)| then Write(Header(lay, d)[j], now[lay.start + 1 + j])
                 else Write(lay.start, EncodeHeader(now[lay.start], []))
  {
    hide EncodeHeader, After;
    RecoveringBlocks(lay, d, j, lay.start);
    if j < |Header(lay, d)| {
      RecoveringBlocks(lay, d, j, lay.start + 1 + j);
    }
  }

  /** The plan of recovery, in the form install_trans() and write_head() follow it. */
  lemma RecoverPlan(lay: Layout, d: seq<Block>)
    requires WellFormed(lay, d)
    ensures lay.Fits(|d|) && Loggable(lay, |d|, Header(lay, d)) && lay.start + 1 + |Header(lay, d)| <= |d|
    ensures var n, plan := |Header(lay, d)|, RecoverWrites(lay, d);
      && |plan| == n + 1 && plan[n] == Write(lay.start, EncodeHeader(After(d, plan, n)[lay.start], []))
      && forall i :: 0 <= i < n ==> plan[0 + i] == Write(Header(lay, d)[i], After(d, plan, 0 + i)[lay.start + 1 + i])
  {
    var n, plan := |Header(lay, d)|, RecoverWrites(lay, d);
    LoggableLength(lay, |d|, Header(lay, d));
    forall i | 0 <= i < n
      ensures plan[0 + i] == Write(Header(lay, d)[i], After(d, plan, 0 + i)[lay.start + 1 + i])
    {
      RecoverStep(lay, d, i);
    }
    RecoverStep(lay, d, n);
  }

  lemma LockedFacts(buf: seq<Buf>, pins: seq<nat>, disk: seq<Block>, view: seq<Block>, slot: seq<int>, b: int)
    requires Counted(buf, pins) && Agrees(buf, pins, disk, view, slot) && 0 <= b < NBUF && buf[b].locked && buf[b].valid
    ensures pins[b] < buf[b].refcnt && 0 <= buf[b].blockno < |disk|
  {
  }

  lemma NewlyLogged(lay: Layout, blocks: nat, buf: seq<Buf>, pins: seq<nat>, lh: seq<int>, home: seq<int>, b: int)
    requires PinnedFrom(buf, pins, lh, home, 0) && Loggable(lay, blocks, lh) && !Protocol.TooBig(|lh|, lay.size) && |buf| == NBUF + 1
    requires 0 <= b < NBUF && buf[b].valid && buf[b].dev == ROOTDEV
    requires 0 <= buf[b].blockno < blocks && !lay.InLog(buf[b].blockno) && forall j :: 0 <= j < |lh| ==> lh[j] != buf[b].blockno
    ensures Loggable(lay, blocks, lh + [buf[b].blockno])
    ensures PinnedFrom(buf[b := buf[b].(refcnt := buf[b].refcnt + 1)], pins[b := pins[b] + 1], lh + [buf[b].blockno], home + [b], 0)
  {
    var r, p, lh', home' := buf[b := buf[b].(refcnt := buf[b].refcnt + 1)], pins[b := pins[b] + 1], lh + [buf[b].blockno], home + [b];
    assert home[0..] == home && home'[0..] == home';
    assert pins[b] == 0;
    forall i | 0 <= i < |home'|
      ensures PinnedOnce(r, p, lh'[i], home'[i])
    {
      if i < |home| {
        assert PinnedOnce(buf, pins, lh[i], home[i]);
      }
    }
  }

  lemma AlreadyLogged(buf: seq<Buf>, pins: seq<nat>, lh: seq<int>, home: seq<int>, i: nat, b: int)
    requires PinnedFrom(buf, pins, lh, home, 0) && Unique(buf) && i < |lh| && |buf| == NBUF + 1
    requires Names(buf, b, ROOTDEV, lh[i])
    ensures home[i] == b && pins[b] == 1
  {
    assert PinnedOnce(buf, pins, lh[i], home[i]);
  }

  lemma NothingPinned(buf: seq<Buf>, pins: seq<nat>, lh: seq<int>, home: seq<int>)
    requires PinnedFrom(buf, pins, lh, home, |lh|)
    ensures PinnedFrom(buf, pins, [], [], 0) && forall b :: 0 <= b < NBUF ==> pins[b] == 0
  {
  }

  lemma EmptyLoggable(lay: Layout, blocks: nat)
    requires lay.Fits(blocks)
    ensures Loggable(lay, blocks, [])
  {
  }

  lemma SpareServes(buf: seq<Buf>, pins: seq<nat>, spare: int, bn: int)
    requires Quiet(buf, pins) && 0 <= spare < NBUF && pins[spare] == 0
    ensures !NoBuffers(buf, ROOTDEV, bn)
  {
    assert Unused(buf, spare);
  }

  /** The writes of a whole commit(): none when nothing was logged. */
  function CommitPlan(lay: Layout, lh: seq<int>, view: seq<Block>): seq<Write>
    requires lay.start < |view| && Loggable(lay, |view|, lh)
  {
    if lh == [] then [] else CommitWrites(lay, lh, view, view[lay.start])
  }

  lemma LoggableLength(lay: Layout, blocks: nat, lh: seq<int>)
    requires lay.Fits(blocks) && Loggable(lay, blocks, lh)
    ensures |lh| <= LOGSIZE && |lh| < lay.size && lay.start + 1 + |lh| <= blocks
  {
  }

  /** With fewer than NBUF blocks logged, some buffer is not pinned. */
  lemma Spare(buf: seq<Buf>, pins: seq<nat>, lh: seq<int>, home: seq<int>, lay: Layout, blocks: nat) returns (b: int)
    requires PinnedFrom(buf, pins, lh, home, 0) && |lh| < NBUF
    ensures 0 <= b < NBUF && pins[b] == 0
  {
    b := Counting.Missing(home, NBUF);
    assert home[0..] == home;
  }

  /** No buffer is in use. */
  predicate Plenty(buf: seq<Buf>) {
    forall b :: 0 <= b < NBUF ==> Unused(buf, b)
  }

  /** What an iteration of install_trans() finds: the log block is clean, and a buffer is to be had. */
  lemma InstallReads(lay: Layout, blocks: nat, lh: seq<int>, buf: seq<Buf>, pins: seq<nat>, disk: seq<Block>, view: seq<Block>,
                     slot: seq<int>, home: seq<int>, t: nat, i: nat, spare: int)
    requires lay.Fits(blocks) && Loggable(lay, blocks, lh) && PinnedFrom(buf, pins, lh, home, t) && i < |lh|
    requires Quiet(buf, pins) && Agrees(buf, pins, disk, view, slot) && |disk| == blocks
    requires 0 <= spare < NBUF && pins[spare] == 0
    ensures 0 <= lh[i] < blocks && lay.start + 1 + i < blocks && lh[i] != lay.start + 1 + i
    ensures |view| == blocks && view[lay.start + 1 + i] == disk[lay.start + 1 + i]
    ensures !NoBuffers(buf, ROOTDEV, lay.start + 1 + i)
    ensures |home| == |lh| && (t <= i ==> PinnedOnce(buf, pins, lh[i], home[i]))
    ensures t == |lh| ==> Plenty(buf)
  {
    var bn := lay.start + 1 + i;
    assert !lay.InLog(lh[i]) && lay.InLog(bn);
    assert Unused(buf, spare);
    assert view[bn] == disk[bn];
  }

  /** When no buffer was in use, the second bread() of an iteration finds one too. */
  lemma SecondServed(buf: seq<Buf>, a: int, bn: int)
    requires Plenty(buf)
    ensures !AllInUse(buf, a, bn)
  {
    assert Unused(buf, if a == 0 then 1 else 0);
  }

  lemma UnpinOne(buf: seq<Buf>, pins: seq<nat>, pins': seq<nat>, lh: seq<int>, home: seq<int>, t: nat, lay: Layout, blocks: nat)
    requires PinnedFrom(buf, pins, lh, home, t) && t < |lh| && Loggable(lay, blocks, lh)
    requires 0 <= home[t] < NBUF && pins' == pins[home[t] := pins[home[t]] - 1]
    ensures PinnedFrom(buf, pins', lh, home, t + 1)
  {
    assert PinnedOnce(buf, pins, lh[t], home[t]);
    forall i | t + 1 <= i < |home|
      ensures PinnedOnce(buf, pins', lh[i], home[i])
    {
      assert PinnedOnce(buf, pins, lh[i], home[i]);
    }
    assert home[t..] == [home[t]] + home[t + 1..];
  }

  /** The same for one buffer: opened, stored into and released, it leaves the cache quiet. */
  lemma OneQuiet(was: seq<Buf>, busy: seq<Buf>, mid: seq<Buf>, r: seq<Buf>, pins: seq<nat>, view: seq<Block>, bn: int, b: int)
    requires Quiet(was, pins) && |was| == |busy| == NBUF + 1 && Names(busy, b, ROOTDEV, bn) && busy[b].valid
    requires busy[b].refcnt == was[b].refcnt + 1 && (Names(was, b, ROOTDEV, bn) || Unused(was, b))
    requires forall c :: 0 <= c <= NBUF && c != b ==> busy[c] == was[c]
    requires |mid| == NBUF + 1 && mid == busy[b := busy[b].(data := mid[b].data)]
    requires SamePayload(mid[b := mid[b].(locked := false, refcnt := mid[b].refcnt - 1)], r)
    ensures Quiet(r, pins) && KeepsPinned(was, r, pins)
  {
    hide SamePayload;
    PayloadAt(mid[b := mid[b].(locked := false, refcnt := mid[b].refcnt - 1)], r, b);
    forall c | 0 <= c < NBUF
      ensures r[c].refcnt == pins[c] && !r[c].locked
      ensures pins[c] > 0 ==> r[c].dev == was[c].dev && r[c].blockno == was[c].blockno && (was[c].valid ==> r[c].valid)
    {
      PayloadAt(mid[b := mid[b].(locked := false, refcnt := mid[b].refcnt - 1)], r, c);
      assert was[c].refcnt == pins[c];
    }
  }

  lemma NoWrites(view: seq<Block>, disk: seq<Block>, writes: seq<Write>, ws: seq<Write>)
    ensures After(view, ws, 0) == view && After(disk, ws, 0) == disk && writes + ws[..0] == writes
  {
  }

  lemma NextWrite(view: seq<Block>, disk: seq<Block>, writes: seq<Write>, ws: seq<Write>, k: nat)
    requires k < |ws|
    ensures After(view, ws, k + 1) == Put(After(view, ws, k), ws[k])
    ensures After(disk, ws, k + 1) == Put(After(disk, ws, k), ws[k])
    ensures writes + ws[..k + 1] == writes + ws[..k] + [ws[k]]
  {
  }

  /** commit() computes each write from the cache as it goes; the result is the plan CommitWrites. */
  lemma CommitStep(lay: Layout, lh: seq<int>, view: seq<Block>, k: nat)
    requires lay.Fits(|view|) && Loggable(lay, |view|, lh) && k < 2 * |lh| + 2
    ensures var n, ws := |lh|, CommitWrites(lay, lh, view, view[lay.start]);
      var now := After(view, ws, k);
      ws[k] == if k < n then Write(lay.start + 1 + k, now[lh[k]])
               else if k == n then Write(lay.start, EncodeHeader(now[lay.start], lh))
               else if k <= 2 * n then Write(lh[k - n - 1], now[lay.start + 1 + (k - n - 1)])
               else Write(lay.start, EncodeHeader(now[lay.start], []))
  {
    hide EncodeHeader, After;
    var n := |lh|;
    CommittingBlocks(lay, view, lh, view, view[lay.start], k, lay.start);
    if k < n {
      CommittingBlocks(lay, view, lh, view, view[lay.start], k, lh[k]);
    } else if n < k <= 2 * n {
      CommittingBlocks(lay, view, lh, view, view[lay.start], k, lay.start + 1 + (k - n - 1));
    }
  }

  /** The plan of commit() from the header write on, in the form write_head() and install_trans() follow it. */
  lemma CommitTail(lay: Layout, lh: seq<int>, view: seq<Block>)
    requires lay.Fits(|view|) && Loggable(lay, |view|, lh)
    ensures var n, plan := |lh|, CommitWrites(lay, lh, view, view[lay.start]);
      && |plan| == 2 * n + 2 && lay.start + 1 + n <= |view| && n <= LOGSIZE
      && plan[n] == Write(lay.start, EncodeHeader(After(view, plan, n)[lay.start], lh))
      && (forall i :: 0 <= i < n ==> plan[n + 1 + i] == Write(lh[i], After(view, plan, n + 1 + i)[lay.start + 1 + i]))
      && plan[2 * n + 1] == Write(lay.start, EncodeHeader(After(view, plan, 2 * n + 1)[lay.start], []))
  {
    hide EncodeHeader, After, CommitWrites, CommitWrite, Loggable;
    var n, plan := |lh|, CommitWrites(lay, lh, view, view[lay.start]);
    LoggableLength(lay, |view|, lh);
    CommitStep(lay, lh, view, n);
    forall i | 0 <= i < n
      ensures plan[n + 1 + i] == Write(lh[i], After(view, plan, n + 1 + i)[lay.start + 1 + i])
    {
      InstallStep(lay, lh, view, i);
    }
    CommitStep(lay, lh, view, 2 * n + 1);
  }

  lemma InstallStep(lay: Layout, lh: seq<int>, view: seq<Block>, i: nat)
    requires lay.Fits(|view|) && Loggable(lay, |view|, lh) && i < |lh|
    ensures lay.start + 1 + i < |view|
    ensures var n, plan := |lh|, CommitWrites(lay, lh, view, view[lay.start]);
      plan[n + 1 + i] == Write(lh[i], After(view, plan, n + 1 + i)[lay.start + 1 + i])
  {
    hide EncodeHeader, After, CommitWrites, CommitWrite, Loggable;
    LoggableLength(lay, |view|, lh);
    CommitStep(lay, lh, view, |lh| + 1 + i);
  }

  /** Buffers the log had pinned still hold the same blocks. */
  predicate KeepsPinned(was: seq<Buf>, r: seq<Buf>, pins: seq<nat>) {
    && |was| == |r| == NBUF + 1 && |pins| == NBUF
    && forall c {:trigger r[c]} {:trigger pins[c]} :: 0 <= c < NBUF && pins[c] > 0 ==>
      r[c].dev == was[c].dev && r[c].blockno == was[c].blockno && (was[c].valid ==> r[c].valid)
  }

  lemma StillPinned(was: seq<Buf>, r: seq<Buf>, pins: seq<nat>, lh: seq<int>, home: seq<int>, t: nat)
    requires PinnedFrom(was, pins, lh, home, t) && KeepsPinned(was, r, pins)
    ensures PinnedFrom(r, pins, lh, home, t)
  {
    forall i | t <= i < |home|
      ensures PinnedOnce(r, pins, lh[i], home[i])
    {
      assert PinnedOnce(was, pins, lh[i], home[i]);
    }
  }

  lemma LoggedBlock(lay: Layout, blocks: nat, lh: seq<int>, buf: seq<Buf>, pins: seq<nat>, home: seq<int>, t: nat, i: nat)
    requires lay.Fits(blocks) && Loggable(lay, blocks, lh) && PinnedFrom(buf, pins, lh, home, t) && t <= i < |lh|
    ensures 0 <= lh[i] < blocks && !lay.InLog(lh[i]) && lay.start + 1 + i < blocks && lh[i] != lay.start + 1 + i
    ensures lay.InLog(lay.start + 1 + i) && |home| == |lh| && PinnedOnce(buf, pins, lh[i], home[i])
  {
  }

  /** A pinned block is never recycled ... */
  lemma PinnedNamed(was: seq<Buf>, mid: seq<Buf>, pins: seq<nat>, view: seq<Block>, bn: int, bn': int, a: int, h: int)
    requires Opened(was, mid, view, bn, a) && PinnedOnce(was, pins, bn', h) && Quiet(was, pins) && bn != bn'
    ensures Names(mid, h, ROOTDEV, bn') && !NoBuffers(mid, ROOTDEV, bn') && pins[h] > 0
  {
    assert mid[h] == was[h];
    assert Names(mid, h, ROOTDEV, bn');
  }

  /** ... so it is served by the buffer it is pinned in. */
  lemma PinnedServes(mid: seq<Buf>, busy: seq<Buf>, view: seq<Block>, bn: int, b: int, h: int)
    requires Unique(mid) && Names(mid, h, ROOTDEV, bn) && Opened(mid, busy, view, bn, b)
    ensures b == h
  {
  }

  /** Field by field, what Closed() leaves in buffer c. */
  lemma ClosedAt(busy: seq<Buf>, r: seq<Buf>, to: int, data: Block, unpin: bool, first: int, second: int, from: int, c: int)
    requires 0 <= to < |busy| && 0 <= from < |busy| && to != from &&
      ((first == to && second == from) || (first == from && second == to)) && 0 <= c < |busy|
    requires SamePayload(Closed(busy, to, data, unpin, first, second), r)
    ensures |r| == |busy|
    ensures r[c].dev == busy[c].dev && r[c].blockno == busy[c].blockno && r[c].valid == busy[c].valid
    ensures r[c].locked == (busy[c].locked && c != to && c != from)
    ensures r[c].refcnt == busy[c].refcnt - (if c == to || c == from then 1 else 0) - (if c == to && unpin then 1 else 0)
  {
    PayloadAt(Closed(busy, to, data, unpin, first, second), r, c);
  }

  lemma CloseQuiet(was: seq<Buf>, mid: seq<Buf>, busy: seq<Buf>, r: seq<Buf>, pins: seq<nat>, pins': seq<nat>, data: Block, unpin: bool,
                   bn: int, bn': int, a: int, b: int, to: int, from: int, first: int, second: int, view: seq<Block>)
    requires Quiet(was, pins) && a != b && Opened(was, mid, view, bn, a) && Opened(mid, busy, view, bn', b)
    requires (to == a && from == b) || (to == b && from == a)
    requires (first == to && second == from) || (first == from && second == to)
    requires unpin ==> pins[to] > 0
    requires pins' == if unpin then pins[to := pins[to] - 1] else pins
    requires SamePayload(Closed(busy, to, data, unpin, first, second), r)
    ensures Quiet(r, pins') && KeepsPinned(was, r, pins)
  {
    hide SamePayload, Closed;
    ClosedAt(busy, r, to, data, unpin, first, second, from, to);
    forall c | 0 <= c < NBUF
      ensures r[c].refcnt == pins'[c] && !r[c].locked
      ensures pins[c] > 0 ==> r[c].dev == was[c].dev && r[c].blockno == was[c].blockno && (was[c].valid ==> r[c].valid)
    {
      ClosedAt(busy, r, to, data, unpin, first, second, from, c);
      assert was[c].refcnt == pins[c];
    }
  }

  /** No buffer other than a could serve block bn. */
  predicate AllInUse(buf: seq<Buf>, a: int, bn: int) {
    forall c :: 0 <= c < NBUF && c != a ==> !Unused(buf, c) && !Names(buf, c, ROOTDEV, bn)
  }

  /** b's lock and one reference are gone. */
  function Dropped(buf: seq<Buf>, b: int): seq<Buf>
    requires 0 <= b < |buf|
  {
    buf[b := buf[b].(locked := false, refcnt := buf[b].refcnt - 1)]
  }

  /** The buffers after block `to` was stored, unpinned if asked for, and both were released. */
  function Closed(buf: seq<Buf>, to: int, data: Block, unpin: bool, first: int, second: int): (r: seq<Buf>)
    requires 0 <= to < |buf| && 0 <= first < |buf| && 0 <= second < |buf|
  {
    var s := buf[to := buf[to].(data := data, refcnt := buf[to].refcnt - if unpin then 1 else 0)];
    Dropped(Dropped(s, first), second)
  }

  lemma PayloadAt(buf: seq<Buf>, r: seq<Buf>, b: int)
    requires SamePayload(buf, r) && 0 <= b < |buf|
    ensures |r| == |buf| && r[b].(prev := 0, next := 0) == buf[b].(prev := 0, next := 0)
  {
    assert r[b].(prev := buf[b].prev, next := buf[b].next) == buf[b];
  }

  lemma ReleasedTwo(buf: seq<Buf>, mid: seq<Buf>, r: seq<Buf>, first: int, second: int)
    requires 0 <= first < |buf| && 0 <= second < |buf| && first != second
    requires SamePayload(Dropped(buf, first), mid) && SamePayload(Dropped(mid, second), r)
    ensures SamePayload(Dropped(Dropped(buf, first), second), r)
  {
    assert SamePayload(Dropped(Dropped(buf, first), second), Dropped(mid, second)) by {
      assert forall i {:trigger mid[i]} :: 0 <= i < |buf| ==>
        mid[i].(prev := Dropped(buf, first)[i].prev, next := Dropped(buf, first)[i].next) == Dropped(buf, first)[i];
    }
    SamePayloadTrans(Dropped(Dropped(buf, first), second), Dropped(mid, second), r);
  }

  /** bread() gave out buffer b for block bn. */
  predicate Opened(was: seq<Buf>, buf: seq<Buf>, view: seq<Block>, bn: int, b: int) {
    && |was| == |buf| == NBUF + 1 && 0 <= bn < |view|
    && Names(buf, b, ROOTDEV, bn) && buf[b].valid && buf[b].locked && buf[b].data == view[bn]
    && buf[b].refcnt == was[b].refcnt + 1
    && (Names(was, b, ROOTDEV, bn) || (Unused(was, b) && forall c :: 0 <= c < NBUF ==> !Names(was, c, ROOTDEV, bn)))
    && forall c :: 0 <= c <= NBUF && c != b ==> buf[c] == was[c]
  }

  // ---- When bget() runs out of buffers ----

  /** With nobody else using the cache, bread() of a block the log has not pinned panics exactly
      when the log has pinned every buffer. */
  lemma NoBuffersIff(buf: seq<Buf>, pins: seq<nat>, lh: seq<int>, home: seq<int>, lay: Layout, blocks: nat, bn: int)
    requires Quiet(buf, pins) && PinnedFrom(buf, pins, lh, home, 0) && Loggable(lay, blocks, lh) && bn >= 0 && lay.InLog(bn)
    ensures |lh| <= NBUF
    ensures NoBuffers(buf, ROOTDEV, bn) <==> |lh| == NBUF
  {
    forall i | 0 <= i < |home|
      ensures 0 <= home[i] < NBUF && buf[home[i]].blockno == lh[i] && buf[home[i]].refcnt == 1
    {
      assert PinnedOnce(buf, pins, lh[i], home[i]);
    }
    assert home[0..] == home;
    Counting.Pigeonhole(home, NBUF);
    if |home| == NBUF {
      forall b | 0 <= b < NBUF
        ensures !Names(buf, b, ROOTDEV, bn) && !Unused(buf, b)
      {
        assert b in home;
      }
    } else {
      var b := Counting.Missing(home, NBUF);
      assert pins[b] == 0;
      assert Unused(buf, b);
    }
  }

  // ---- Commit through the cache, and crashes ----

  /** When nobody else uses the cache, it differs from the disk only in logged blocks, so commit()
      starts from the state the crash theorems are about. */
  lemma QuietIsReady(lay: Layout, buf: seq<Buf>, pins: seq<nat>, disk: seq<Block>, view: seq<Block>, slot: seq<int>,
                     lh: seq<int>, home: seq<int>)
    requires Agrees(buf, pins, disk, view, slot) && Quiet(buf, pins) && PinnedFrom(buf, pins, lh, home, 0)
    requires WellFormed(lay, disk) && Header(lay, disk) == [] && Loggable(lay, |disk|, lh)
    ensures ReadyToCommit(lay, disk, lh, view)
  {
    forall bn | 0 <= bn < |disk| && IndexOf(lh, bn) < 0
      ensures view[bn] == disk[bn]
    {
      PinnedIsLogged(buf, pins, lh, home, slot[bn]);
    }
  }

  lemma PinnedIsLogged(buf: seq<Buf>, pins: seq<nat>, lh: seq<int>, home: seq<int>, b: int)
    requires PinnedFrom(buf, pins, lh, home, 0) && NBUF <= |buf|
    ensures 0 <= b < NBUF && pins[b] > 0 ==> exists i :: 0 <= i < |lh| && lh[i] == buf[b].blockno
  {
    if 0 <= b < NBUF && pins[b] > 0 {
      assert home[0..] == home;
      var i :| 0 <= i < |home| && home[i] == b;
      assert PinnedOnce(buf, pins, lh[i], home[i]);
    }
  }

  /** The real commit is crash-atomic: `booted` and `writes` are the device at boot and what has been
      written since, commit() appends the writes of CommitPlan, and a crash after k of them followed
      by any interrupted recoveries ends with the home blocks all as in the cache if the header was
      written, and all as on the disk before otherwise. */
  lemma CommitSurvivesCrash(lay: Layout, booted: seq<Block>, writes: seq<Write>, lh: seq<int>, view: seq<Block>, k: nat, stops: seq<nat>)
    requires var d := Apply(booted, writes); lh != [] && ReadyToCommit(lay, d, lh, view)
    requires k <= |CommitPlan(lay, lh, view)|
    ensures var d := Apply(booted, writes);
      var crashed := After(booted, writes + CommitPlan(lay, lh, view), |writes| + k);
      && WellFormed(lay, crashed)
      && forall bn {:trigger Recovered(lay, crashed, stops)[bn]} :: 0 <= bn < |d| && !lay.InLog(bn) ==>
           Recovered(lay, crashed, stops)[bn] == if k > |lh| then view[bn] else d[bn]
  {
    AfterConcat(booted, writes, CommitPlan(lay, lh, view), k);
    CommitIsAtomic(lay, Apply(booted, writes), lh, view, view[lay.start], k, stops);
  }

  /** A commit that returns has put the cached contents of every home block on the disk and erased
      the log. */
  lemma CommitInstalls(lay: Layout, disk: seq<Block>, lh: seq<int>, view: seq<Block>)
    requires lh != [] && ReadyToCommit(lay, disk, lh, view)
    ensures var e, v := Apply(disk, CommitPlan(lay, lh, view)), Apply(view, CommitPlan(lay, lh, view));
      && WellFormed(lay, e) && Header(lay, e) == []
      && forall bn {:trigger e[bn]} {:trigger v[bn]} :: 0 <= bn < |disk| && !lay.InLog(bn) ==> e[bn] == v[bn] == view[bn]
  {
    hide EncodeHeader;
    var plan := CommitPlan(lay, lh, view);
    CommitPrefix(lay, disk, lh, view, view[lay.start], |plan|);
    forall bn | 0 <= bn < |disk| && !lay.InLog(bn)
      ensures Apply(view, plan)[bn] == view[bn]
    {
      CommittingBlocks(lay, view, lh, view, view[lay.start], |plan|, bn);
    }
  }
}
