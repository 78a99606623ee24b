/** The on-disk redo log of log.c: its layout, the writes made by commit() and
    by recovery, and what a crash between any two of those writes leaves behind. */
module RedoLog {
  import opened Disk

  const MAXOPBLOCKS := 10
  const LOGSIZE := MAXOPBLOCKS * 3

  /** sb.logstart and sb.nlog: the header block is `start`, the log blocks follow it. */
  datatype Layout = Layout(start: nat, size: nat) {
    predicate InLog(bn: nat) {
      start <= bn < start + size
    }

    /** There is a header block, and the log lies on the device; it may well be smaller than a full header. */
    predicate Fits(blocks: nat) {
      0 < size && start + size <= blocks
    }
  }

  /** Block numbers a transaction may log: pairwise distinct blocks outside the log area, as many as the
      header and the log blocks can take. */
  predicate Loggable(lay: Layout, blocks: nat, lh: seq<int>) {
    && |lh| <= LOGSIZE && |lh| < lay.size
    && (forall i :: 0 <= i < |lh| ==> 0 <= lh[i] < blocks && !lay.InLog(lh[i]))
    && (forall i, j :: 0 <= i < j < |lh| ==> lh[i] != lh[j])
  }

  // ---- The header block ----

  /** write_head(): word 0 is n, words 1..n are the block numbers; later words keep what they held. */
  function EncodeHeader(was: Block, lh: seq<int>): (b: Block)
    requires |lh| <= LOGSIZE
  {
    Words([|lh|] + lh + was.w[1 + |lh|..])
  }

  predicate HeaderOk(b: Block) {
    0 <= b.w[0] <= LOGSIZE
  }

  /** read_head(): word 0 says how many of the words after it are the list. */
  function DecodeHeader(b: Block): (lh: seq<int>)
    requires HeaderOk(b)
  {
    b.w[1..1 + b.w[0]]
  }

  lemma HeaderRoundTrip(was: Block, lh: seq<int>)
    requires |lh| <= LOGSIZE
    ensures HeaderOk(EncodeHeader(was, lh))
    ensures DecodeHeader(EncodeHeader(was, lh)) == lh
  {
    var b := EncodeHeader(was, lh);
    assert b.w[1..1 + |lh|] == lh;
  }

  /** The format of the header block: the count, the block numbers, and what was there. */
  lemma HeaderWords(was: Block, lh: seq<int>, k: nat)
    requires |lh| <= LOGSIZE && k < BLOCK_WORDS
    ensures EncodeHeader(was, lh).w[k] == if k == 0 then |lh| else if k <= |lh| then lh[k - 1] else was.w[k]
  {
  }

  // ---- The state of a device ----

  /** The device carries a log that recovery can read. */
  predicate WellFormed(lay: Layout, d: seq<Block>) {
    && lay.Fits(|d|)
    && HeaderOk(d[lay.start])
    && Loggable(lay, |d|, DecodeHeader(d[lay.start]))
  }

  function Header(lay: Layout, d: seq<Block>): seq<int>
    requires WellFormed(lay, d)
  {
    DecodeHeader(d[lay.start])
  }

  /** Position of the first entry naming block `bn`, or -1: the search in log_write(). */
  function IndexOf(lh: seq<int>, bn: int): (i: int)
    ensures -1 <= i < |lh|
    ensures i >= 0 ==> lh[i] == bn
    ensures i == -1 ==> forall k :: 0 <= k < |lh| ==> lh[k] != bn
  {
    if lh == [] then -1
    else if lh[0] == bn then 0
    else
      var i := IndexOf(lh[1..], bn);
      if i < 0 then -1 else i + 1
  }

  /** The contents block `bn` will have once recovery has finished: the logged copy if the
      header names the block, else the home copy. */
  function Logical(lay: Layout, d: seq<Block>, bn: nat): Block
    requires WellFormed(lay, d) && bn < |d|
  {
    var i := IndexOf(Header(lay, d), bn);
    if i >= 0 then d[lay.start + 1 + i] else d[bn]
  }

  /** Two devices agree on what every home block is going to be. */
  ghost predicate SameLogical(lay: Layout, d: seq<Block>, e: seq<Block>)
    requires WellFormed(lay, d) && WellFormed(lay, e) && |d| == |e|
  {
    forall bn {:trigger Logical(lay, d, bn)} {:trigger Logical(lay, e, bn)} :: 0 <= bn < |d| && !lay.InLog(bn) ==>
      Logical(lay, d, bn) == Logical(lay, e, bn)
  }

  // ---- The writes ----

  /** Write number k of commit() with a non-empty header: log the n blocks, write the header,
      install the n blocks, erase the header.  `src` is what the cache holds for every block and
      `head` what it holds for the header block. */
  function CommitWrite(lay: Layout, lh: seq<int>, src: seq<Block>, head: Block, k: nat): Write
    requires Loggable(lay, |src|, lh) && k < 2 * |lh| + 2
  {
    var n := |lh|;
    if k < n then Write(lay.start + 1 + k, src[lh[k]])
    else if k == n then Write(lay.start, EncodeHeader(head, lh))
    else if k <= 2 * n then Write(lh[k - n - 1], src[lh[k - n - 1]])
    else Write(lay.start, EncodeHeader(EncodeHeader(head, lh), []))
  }

  function CommitWrites(lay: Layout, lh: seq<int>, src: seq<Block>, head: Block): (ws: seq<Write>)
    requires Loggable(lay, |src|, lh)
    ensures |ws| == 2 * |lh| + 2
    ensures forall k :: 0 <= k < |ws| ==> ws[k] == CommitWrite(lay, lh, src, head, k)
  {
    seq(2 * |lh| + 2, k requires 0 <= k < 2 * |lh| + 2 => CommitWrite(lay, lh, src, head, k))
  }

  /** Write number j of recover_from_log(): install what the header names, then clear the header. */
  function RecoverWrite(lay: Layout, d: seq<Block>, j: nat): Write
    requires WellFormed(lay, d) && j <= |Header(lay, d)|
  {
    if j < |Header(lay, d)| then Write(Header(lay, d)[j], d[lay.start + 1 + j])
    else Write(lay.start, EncodeHeader(d[lay.start], []))
  }

  function RecoverWrites(lay: Layout, d: seq<Block>): (ws: seq<Write>)
    requires WellFormed(lay, d)
    ensures |ws| == |Header(lay, d)| + 1
    ensures forall j :: 0 <= j < |ws| ==> ws[j] == RecoverWrite(lay, d, j)
  {
    seq(|Header(lay, d)| + 1, j requires 0 <= j <= |Header(lay, d)| => RecoverWrite(lay, d, j))
  }

  // ---- Crashes during recovery ----

  /** Block `bn` after the first j writes of a recovery of `d`. */
  function RecoveringBlock(lay: Layout, d: seq<Block>, j: nat, bn: nat): Block
    requires WellFormed(lay, d) && bn < |d|
  {
    var i := IndexOf(Header(lay, d), bn);
    if bn == lay.start then (if j > |Header(lay, d)| then EncodeHeader(d[bn], []) else d[bn])
    else if 0 <= i < j then d[lay.start + 1 + i]
    else d[bn]
  }

  lemma {:induction false} RecoveringBlocks(lay: Layout, d: seq<Block>, j: nat, bn: nat)
    requires WellFormed(lay, d) && j <= |Header(lay, d)| + 1 && bn < |d|
    ensures After(d, RecoverWrites(lay, d), j)[bn] == RecoveringBlock(lay, d, j, bn)
  {
    hide EncodeHeader, RecoverWrite, Loggable;
    if j > 0 {
      RecoveringBlocks(lay, d, j - 1, bn);
      assert RecoverWrites(lay, d)[j - 1] == RecoverWrite(lay, d, j - 1);
      RecoveringStep(lay, d, j, bn);
    }
  }

  /** Write number j - 1 of recovery changes the one block it is for. */
  lemma RecoveringStep(lay: Layout, d: seq<Block>, j: nat, bn: nat)
    requires WellFormed(lay, d) && 0 < j <= |Header(lay, d)| + 1 && bn < |d|
    ensures var w := RecoverWrite(lay, d, j - 1);
      RecoveringBlock(lay, d, j, bn) == if w.bn == bn then w.data else RecoveringBlock(lay, d, j - 1, bn)
  {
    hide EncodeHeader;
    var lh, i := Header(lay, d), IndexOf(Header(lay, d), bn);
    if j <= |lh| {
      assert !lay.InLog(lh[j - 1]) && (bn == lh[j - 1] <==> i == j - 1);
    }
  }

  /** A device whose log is that of `d` has the same header. */
  lemma SameLogSameHeader(lay: Layout, d: seq<Block>, e: seq<Block>)
    requires WellFormed(lay, d) && |e| == |d| && e[lay.start] == d[lay.start]
    ensures WellFormed(lay, e) && Header(lay, e) == Header(lay, d)
  {
  }

  lemma ErasedHeader(lay: Layout, d: seq<Block>, was: Block)
    requires lay.Fits(|d|) && d[lay.start] == EncodeHeader(was, [])
    ensures WellFormed(lay, d) && Header(lay, d) == []
  {
    HeaderRoundTrip(was, []);
  }

  lemma RecoveringLogical(lay: Layout, d: seq<Block>, j: nat, bn: nat)
    requires WellFormed(lay, d) && j <= |Header(lay, d)| && bn < |d|
    ensures var e := After(d, RecoverWrites(lay, d), j);
      WellFormed(lay, e) && Header(lay, e) == Header(lay, d) && Logical(lay, e, bn) == Logical(lay, d, bn)
  {
    hide EncodeHeader, After;
    var e := After(d, RecoverWrites(lay, d), j);
    RecoveringBlocks(lay, d, j, lay.start);
    SameLogSameHeader(lay, d, e);
    RecoveringBlocks(lay, d, j, bn);
    var i := IndexOf(Header(lay, d), bn);
    if i >= 0 {
      var b := lay.start + 1 + i;
      assert lay.InLog(b);
      RecoveringBlocks(lay, d, j, b);
    }
  }

  /** A recovery stopped after j of its writes has not changed what any home block will be;
      a recovery that finishes has made it so and left an empty log. */
  lemma RecoverPrefix(lay: Layout, d: seq<Block>, j: nat)
    requires WellFormed(lay, d) && j <= |RecoverWrites(lay, d)|
    ensures var e := After(d, RecoverWrites(lay, d), j);
      && WellFormed(lay, e) && SameLogical(lay, d, e)
      && (j == |RecoverWrites(lay, d)| ==>
        && Header(lay, e) == []
        && forall bn {:trigger e[bn]} :: 0 <= bn < |d| && !lay.InLog(bn) ==> e[bn] == Logical(lay, d, bn))
  {
    var e := After(d, RecoverWrites(lay, d), j);
    if j <= |Header(lay, d)| {
      RecoveringLogical(lay, d, j, 0);
      forall bn | 0 <= bn < |d| && !lay.InLog(bn)
        ensures Logical(lay, d, bn) == Logical(lay, e, bn)
      {
        RecoveringLogical(lay, d, j, bn);
      }
    } else {
      RecoveringBlocks(lay, d, j, lay.start);
      ErasedHeader(lay, e, d[lay.start]);
      forall bn | 0 <= bn < |d| && !lay.InLog(bn)
        ensures e[bn] == Logical(lay, d, bn) == Logical(lay, e, bn)
      {
        RecoveringBlocks(lay, d, j, bn);
      }
    }
  }

  /** The device after recoveries that were each stopped after some number of writes. */
  ghost function AfterRecoveries(lay: Layout, d: seq<Block>, stops: seq<nat>): (e: seq<Block>)
    requires WellFormed(lay, d)
    ensures WellFormed(lay, e) && |e| == |d|
    decreases |stops|
  {
    if stops == [] then d else
    var ws := RecoverWrites(lay, d);
    var j := if stops[0] <= |ws| then stops[0] else |ws|;
    RecoverPrefix(lay, d, j);
    AfterRecoveries(lay, After(d, ws, j), stops[1..])
  }

  /** The device after those recoveries and then one that runs to its end. */
  ghost function Recovered(lay: Layout, d: seq<Block>, stops: seq<nat>): (e: seq<Block>)
    requires WellFormed(lay, d)
    ensures |e| == |d|
  {
    var c := AfterRecoveries(lay, d, stops);
    Apply(c, RecoverWrites(lay, c))
  }

  lemma {:induction false} AbortedRecoveriesKeepLogical(lay: Layout, d: seq<Block>, stops: seq<nat>)
    requires WellFormed(lay, d)
    ensures SameLogical(lay, d, AfterRecoveries(lay, d, stops))
    decreases |stops|
  {
    if stops != [] {
      var ws := RecoverWrites(lay, d);
      var j := if stops[0] <= |ws| then stops[0] else |ws|;
      RecoverPrefix(lay, d, j);
      AbortedRecoveriesKeepLogical(lay, After(d, ws, j), stops[1..]);
    }
  }

  /** However many recoveries are cut short and wherever, the first one that finishes leaves every
      home block with the contents the crashed device already determined, and an empty log. */
  lemma RecoveryCompletes(lay: Layout, d: seq<Block>, stops: seq<nat>)
    requires WellFormed(lay, d)
    ensures WellFormed(lay, Recovered(lay, d, stops)) && Header(lay, Recovered(lay, d, stops)) == []
    ensures forall bn {:trigger Recovered(lay, d, stops)[bn]} ::
      0 <= bn < |d| && !lay.InLog(bn) ==> Recovered(lay, d, stops)[bn] == Logical(lay, d, bn)
  {
    AbortedRecoveriesKeepLogical(lay, d, stops);
    var c := AfterRecoveries(lay, d, stops);
    RecoverPrefix(lay, c, |RecoverWrites(lay, c)|);
  }

  // ---- Crashes during commit ----

  /** What commit() starts from: an erased log on disk, and a cache (`src`) that differs from the
      disk only in the home blocks that were logged. */
  ghost predicate ReadyToCommit(lay: Layout, d: seq<Block>, lh: seq<int>, src: seq<Block>) {
    && WellFormed(lay, d) && Header(lay, d) == []
    && |src| == |d| && Loggable(lay, |d|, lh)
    && forall bn {:trigger IndexOf(lh, bn)} :: 0 <= bn < |d| && !lay.InLog(bn) && IndexOf(lh, bn) < 0 ==> src[bn] == d[bn]
  }

  /** Block `bn` after the first k writes of a commit. */
  function CommittingBlock(lay: Layout, d: seq<Block>, lh: seq<int>, src: seq<Block>, head: Block, k: nat, bn: nat): Block
    requires |src| == |d| && Loggable(lay, |d|, lh) && bn < |d|
  {
    var n := |lh|;
    var i := IndexOf(lh, bn);
    if bn == lay.start then
      if k <= n then d[bn] else if k <= 2 * n + 1 then EncodeHeader(head, lh) else EncodeHeader(EncodeHeader(head, lh), [])
    else if lay.start < bn <= lay.start + n && bn - lay.start <= k then src[lh[bn - lay.start - 1]]
    else if 0 <= i && n + 1 + i < k then src[bn]
    else d[bn]
  }

  lemma {:induction false} CommittingBlocks(lay: Layout, d: seq<Block>, lh: seq<int>, src: seq<Block>, head: Block, k: nat, bn: nat)
    requires lay.Fits(|d|) && |src| == |d| && Loggable(lay, |d|, lh) && bn < |d| && k <= 2 * |lh| + 2
    ensures After(d, CommitWrites(lay, lh, src, head), k)[bn] == CommittingBlock(lay, d, lh, src, head, k, bn)
  {
    hide EncodeHeader, CommitWrite, Loggable;
    if k > 0 {
      CommittingBlocks(lay, d, lh, src, head, k - 1, bn);
      assert CommitWrites(lay, lh, src, head)[k - 1] == CommitWrite(lay, lh, src, head, k - 1);
      CommittingStep(lay, d, lh, src, head, k, bn);
    }
  }

  /** Write number k - 1 changes the one block it is for. */
  lemma CommittingStep(lay: Layout, d: seq<Block>, lh: seq<int>, src: seq<Block>, head: Block, k: nat, bn: nat)
    requires lay.Fits(|d|) && |src| == |d| && Loggable(lay, |d|, lh) && bn < |d| && 0 < k <= 2 * |lh| + 2
    ensures var w := CommitWrite(lay, lh, src, head, k - 1);
      CommittingBlock(lay, d, lh, src, head, k, bn) ==
        if w.bn == bn then w.data else CommittingBlock(lay, d, lh, src, head, k - 1, bn)
  {
    hide EncodeHeader;
    var n, i := |lh|, IndexOf(lh, bn);
    if k <= n {
      assert !lay.InLog(lh[k - 1]);
    } else if n + 1 < k <= 2 * n + 1 {
      assert !lay.InLog(lh[k - n - 2]) && (bn == lh[k - n - 2] <==> i == k - n - 2);
    }
  }

  /** What a crash after k writes of commit() has decided: the old contents while the header write
      (write number |lh|) is still to come, the new contents from then on. */
  lemma CommittingLogical(lay: Layout, d: seq<Block>, lh: seq<int>, src: seq<Block>, head: Block, k: nat, bn: nat)
    requires ReadyToCommit(lay, d, lh, src) && k <= 2 * |lh| + 2 && bn < |d| && !lay.InLog(bn)
    ensures var e := After(d, CommitWrites(lay, lh, src, head), k);
      && WellFormed(lay, e)
      && Header(lay, e) == (if |lh| < k <= 2 * |lh| + 1 then lh else [])
      && Logical(lay, e, bn) == (if k > |lh| then src[bn] else d[bn])
      && (k == 2 * |lh| + 2 ==> e[bn] == src[bn])
  {
    hide EncodeHeader, After;
    var e := After(d, CommitWrites(lay, lh, src, head), k);
    CommittingBlocks(lay, d, lh, src, head, k, lay.start);
    CommittingBlocks(lay, d, lh, src, head, k, bn);
    HeaderRoundTrip(head, lh);
    HeaderRoundTrip(EncodeHeader(head, lh), []);
    var i := IndexOf(lh, bn);
    if i >= 0 {
      CommittingBlocks(lay, d, lh, src, head, k, lay.start + 1 + i);
    }
  }

  lemma CommitPrefix(lay: Layout, d: seq<Block>, lh: seq<int>, src: seq<Block>, head: Block, k: nat)
    requires ReadyToCommit(lay, d, lh, src) && k <= 2 * |lh| + 2
    ensures var e := After(d, CommitWrites(lay, lh, src, head), k);
      && WellFormed(lay, e)
      && Header(lay, e) == (if |lh| < k <= 2 * |lh| + 1 then lh else [])
      && (forall bn {:trigger Logical(lay, e, bn)} :: 0 <= bn < |d| && !lay.InLog(bn) ==>
            Logical(lay, e, bn) == if k > |lh| then src[bn] else d[bn])
      && (k == 2 * |lh| + 2 ==>
            forall bn {:trigger e[bn]} :: 0 <= bn < |d| && !lay.InLog(bn) ==> e[bn] == src[bn])
  {
    var e := After(d, CommitWrites(lay, lh, src, head), k);
    CommittingBlocks(lay, d, lh, src, head, k, lay.start);
    HeaderRoundTrip(head, lh);
    HeaderRoundTrip(EncodeHeader(head, lh), []);
    assert WellFormed(lay, e);
    forall bn | 0 <= bn < |d| && !lay.InLog(bn)
      ensures Logical(lay, e, bn) == if k > |lh| then src[bn] else d[bn]
      ensures k == 2 * |lh| + 2 ==> e[bn] == src[bn]
    {
      CommittingLogical(lay, d, lh, src, head, k, bn);
    }
  }

  /** Commit is atomic: stop it after any k writes, stop any number of recoveries anywhere, and the
      first recovery that finishes leaves the home blocks all new if the header write (write number
      |lh|) was done, and all old otherwise. */
  lemma CommitIsAtomic(lay: Layout, d: seq<Block>, lh: seq<int>, src: seq<Block>, head: Block, k: nat, stops: seq<nat>)
    requires ReadyToCommit(lay, d, lh, src) && k <= 2 * |lh| + 2
    ensures var e := After(d, CommitWrites(lay, lh, src, head), k);
      && WellFormed(lay, e)
      && (forall bn {:trigger Recovered(lay, e, stops)[bn]} :: 0 <= bn < |d| && !lay.InLog(bn) ==>
            Recovered(lay, e, stops)[bn] == if k > |lh| then src[bn] else d[bn])
      && WellFormed(lay, Recovered(lay, e, stops)) && Header(lay, Recovered(lay, e, stops)) == []
  {
    CommitPrefix(lay, d, lh, src, head, k);
    RecoveryCompletes(lay, After(d, CommitWrites(lay, lh, src, head), k), stops);
  }
}
