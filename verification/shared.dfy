/** commit() of log.c while other processes read through the cache. A step is one critical section of the
    committing process or of a reader; no operation is outstanding, so nobody else writes. */
module SharedCommit {
  import opened Disk
  import opened RedoLog
  import opened BufferRing
  import opened Sequences
  import opened BufferCache
  import Counting
  import Log

  // ---- The cache and its critical sections ----

  datatype CacheState = CacheState(buf: seq<Buf>, order: seq<int>, pins: seq<nat>, disk: seq<Block>, view: seq<Block>, slot: seq<int>)

  ghost predicate CacheOk(c: CacheState) {
    && |c.buf| == NBUF + 1 && |c.pins| == NBUF && |c.disk| == |c.view| == |c.slot|
    && Ring(c.buf, c.order) && Complete(c.order) && Unique(c.buf) && Counted(c.buf, c.pins)
    && Agrees(c.buf, c.pins, c.disk, c.view, c.slot)
  }

  /** bget(): b gets a reference for block bn. */
  ghost predicate Looks(c: CacheState, c': CacheState, bn: int, b: int) {
    && 0 <= b < NBUF == |c.buf| - 1
    && if Names(c.buf, b, ROOTDEV, bn) then c' == c.(buf := Taken(c.buf, b))
       else
         && (forall x :: 0 <= x < NBUF ==> !Names(c.buf, x, ROOTDEV, bn)) && LeastRecent(c.buf, c.order, b)
         && c' == c.(buf := Recycled(c.buf, b, ROOTDEV, bn), slot := Evicted(c.slot, b))
  }

  /** The rest of bread(): the lock, and the contents from the disk unless they are there. */
  ghost predicate Enters(c: CacheState, c': CacheState, b: int) {
    && 0 <= b < NBUF == |c.buf| - 1 && !c.buf[b].locked && c.buf[b].dev == ROOTDEV && 0 <= c.buf[b].blockno < |c.disk| == |c.slot|
    && var r := c.buf[b].(locked := true);
       if r.valid then c' == c.(buf := c.buf[b := r])
       else c' == c.(buf := c.buf[b := r.(valid := true, data := c.disk[r.blockno])], slot := c.slot[r.blockno := b])
  }

  /** releasesleep() in brelse(). */
  ghost predicate Unlocks(c: CacheState, c': CacheState, b: int) {
    && 0 <= b < NBUF == |c.buf| - 1 && c.buf[b].locked && c.buf[b].valid
    && c' == c.(buf := c.buf[b := c.buf[b].(locked := false)])
  }

  function LessOne(buf: seq<Buf>, b: int): seq<Buf>
    requires 0 <= b < |buf|
  {
    buf[b := buf[b].(refcnt := buf[b].refcnt - 1)]
  }

  /** The rest of brelse(). */
  ghost predicate Derefs(c: CacheState, c': CacheState, b: int) {
    && 0 <= b < NBUF == |c.buf| - 1
    && c' == c.(buf := c'.buf, order := c'.order) && SamePayload(LessOne(c.buf, b), c'.buf)
    && Ring(c'.buf, c'.order) && Complete(c'.order)
    && if c.buf[b].refcnt > 1 then c'.order == c.order
       else exists p :: 0 <= p < |c.order| && c.order[p] == b && c'.order == [b] + RemoveAt(c.order, p)
  }

  // ---- What a process that holds buffers can count on ----

  /** The cache after a step that is not the holder's: the buffers in `locks` are locked by it, and it has a
      reference to `ref` (-1: none). */
  ghost predicate Rely(c: CacheState, c': CacheState, locks: set<int>, ref: int) {
    && CacheOk(c') && c'.pins == c.pins && c'.disk == c.disk && c'.view == c.view
    && Log.KeepsPinned(c.buf, c'.buf, c.pins)
    && (forall b {:trigger b in locks} :: b in locks ==> 0 <= b < NBUF && StillHeld(c.buf[b], c'.buf[b]))
    && (ref != -1 ==>
        && 0 <= ref < NBUF && c'.buf[ref].dev == c.buf[ref].dev && c'.buf[ref].blockno == c.buf[ref].blockno
        && |c'.pins| == NBUF && Extra(c'.buf, c'.pins, ref) > 0)
  }

  predicate StillHeld(b: Buf, b': Buf) {
    b' == b.(refcnt := b'.refcnt, prev := b'.prev, next := b'.next)
  }

  predicate Grip(c: CacheState, locks: set<int>, ref: int) {
    && |c.buf| == NBUF + 1 && |c.pins| == NBUF
    && (forall b {:trigger b in locks} :: b in locks ==> 0 <= b < NBUF && c.buf[b].locked)
    && (ref != -1 ==> 0 <= ref < NBUF && Extra(c.buf, c.pins, ref) > 0)
  }

  lemma LookRely(c: CacheState, c': CacheState, bn: int, b: int, locks: set<int>, ref: int)
    requires CacheOk(c) && Looks(c, c', bn, b) && Grip(c, locks, ref)
    ensures Rely(c, c', locks, ref) && Waiting(c', b, bn)
  {
    hide Ring, Complete, Agrees;
    if Names(c.buf, b, ROOTDEV, bn) {
      TakeKeeps(c.buf, c.order, c.pins, c.disk, c.view, c.slot, b);
    } else {
      RecycleKeeps(c.buf, c.pins, c.disk, c.view, c.slot, b, bn);
      SameLinksRing(c.buf, c'.buf, c.order);
    }
  }

  lemma EnterRely(c: CacheState, c': CacheState, b: int, locks: set<int>, ref: int)
    requires CacheOk(c) && Enters(c, c', b) && Grip(c, locks, ref) && Extra(c.buf, c.pins, b) > if b == ref then 1 else 0
    ensures Rely(c, c', locks, ref) && |c'.buf| == |c.buf| && c'.buf[b].locked && c'.buf[b].valid
    ensures c'.buf[b].dev == c.buf[b].dev && c'.buf[b].blockno == c.buf[b].blockno
  {
    hide Ring, Complete, Agrees, Unique;
    SetLockKeeps(c.buf, c.order, c.pins, c.disk, c.view, c.slot, b);
    var r := c.buf[b := c.buf[b].(locked := true)];
    if !c.buf[b].valid {
      FillKeeps(r, c.order, c.pins, c.disk, c.view, c.slot, b);
      assert c'.buf == r[b := r[b].(valid := true, data := c.disk[r[b].blockno])];
    }
  }

  lemma UnlockRely(c: CacheState, c': CacheState, b: int, locks: set<int>, ref: int)
    requires CacheOk(c) && Unlocks(c, c', b) && b !in locks
    requires Grip(c, locks, if ref == b then -1 else ref)
    requires 0 <= c.buf[b].blockno < |c.disk| && (c.pins[b] > 0 || c.disk[c.buf[b].blockno] == c.view[c.buf[b].blockno])
    ensures Rely(c, c', locks, ref)
  {
    hide Ring, Complete, Agrees, Unique;
    UnlockKeeps(c.buf, c.order, c.pins, c.disk, c.view, c.slot, b);
  }

  lemma DerefRely(c: CacheState, c': CacheState, b: int, locks: set<int>, ref: int)
    requires CacheOk(c) && Derefs(c, c', b) && Grip(c, locks, ref) && Extra(c.buf, c.pins, b) > if b == ref then 1 else 0
    ensures Rely(c, c', locks, ref)
  {
    hide Ring, Complete, Agrees, Unique, SamePayload;
    DerefKeeps(c.buf, c.order, c.pins, c.disk, c.view, c.slot, b);
    PayloadKeeps(LessOne(c.buf, b), c'.buf, c.pins, c.disk, c.view, c.slot);
    forall x | 0 <= x < NBUF
      ensures c'.buf[x] == LessOne(c.buf, b)[x].(prev := c'.buf[x].prev, next := c'.buf[x].next)
    {
      Log.PayloadAt(LessOne(c.buf, b), c'.buf, x);
    }
  }

  // ---- The committing process ----

  /** What commit() starts from: the list, and the cached and stored contents of every block. */
  datatype Job = Job(lay: Layout, lh: seq<int>, view0: seq<Block>, disk0: seq<Block>)

  /** Where it is in write k: waiting for the first buffer's lock, having it, and so on to the last brelse().
      `Left` has given up the lock of buffer a and not yet its reference; b is the buffer it has still locked. */
  datatype Pc =
    | Ready
    | Waits1(b: int)
    | Has1(a: int)
    | Waits2(a: int, b: int)
    | Has2(a: int, b: int)
    | Copied(a: int, b: int)
    | Wrote(a: int, b: int)
    | Unpinned(a: int, b: int)
    | Left(a: int, b: int)
    | Drops(b: int)

  datatype State = State(c: CacheState, home: seq<int>, k: nat, pc: Pc)

  ghost predicate JobOk(j: Job) {
    && j.lh != [] && ReadyToCommit(j.lay, j.disk0, j.lh, j.view0)
    && forall bn {:trigger IndexOf(j.lh, bn)} :: 0 <= bn < |j.disk0| && IndexOf(j.lh, bn) < 0 ==> j.view0[bn] == j.disk0[bn]
  }

  function Plan(j: Job): seq<Write>
    requires j.lay.start < |j.view0| && Loggable(j.lay, |j.view0|, j.lh)
  {
    CommitWrites(j.lay, j.lh, j.view0, j.view0[j.lay.start])
  }

  predicate IsHead(j: Job, k: nat) { k == |j.lh| || k == 2 * |j.lh| + 1 }

  predicate Installs(j: Job, k: nat) { |j.lh| < k <= 2 * |j.lh| }

  /** The block of the first bread() of write k, ... */
  function First(j: Job, k: nat): int {
    if k < |j.lh| then j.lay.start + 1 + k else if Installs(j, k) then j.lay.start + 1 + (k - |j.lh| - 1) else j.lay.start
  }

  /** ... of the second, ... */
  function Second(j: Job, k: nat): int {
    if k < |j.lh| then j.lh[k] else if Installs(j, k) then j.lh[k - |j.lh| - 1] else -1
  }

  /** ... and the one that is written. */
  function To(j: Job, k: nat): int {
    if Installs(j, k) then Second(j, k) else First(j, k)
  }

  function ToBuf(j: Job, k: nat, a: int, b: int): int { if Installs(j, k) then b else a }

  function FromBuf(j: Job, k: nat, a: int, b: int): int { if Installs(j, k) then a else b }

  predicate Holding(c: CacheState, b: int, bn: int) {
    Names(c.buf, b, ROOTDEV, bn) && c.buf[b].locked && c.buf[b].valid
  }

  predicate Waiting(c: CacheState, b: int, bn: int) {
    Names(c.buf, b, ROOTDEV, bn) && b < |c.pins| && Extra(c.buf, c.pins, b) > 0
  }

  function Locks(pc: Pc): set<int> {
    match pc
    case Ready => {}
    case Waits1(_) => {}
    case Has1(a) => {a}
    case Waits2(a, _) => {a}
    case Drops(b) => {b}
    case Left(_, b) => if b == -1 then {} else {b}
    case Has2(a, b) => if b == -1 then {a} else {a, b}
    case Copied(a, b) => if b == -1 then {a} else {a, b}
    case Wrote(a, b) => if b == -1 then {a} else {a, b}
    case Unpinned(a, b) => if b == -1 then {a} else {a, b}
  }

  function Ref(pc: Pc): int {
    match pc
    case Waits1(b) => b
    case Waits2(_, b) => b
    case Left(a, _) => a
    case _ => -1
  }

  /** New data in a buffer the process holds. */
  function Stored(c: CacheState, b: int, data: Block): CacheState
    requires 0 <= b < |c.buf| && 0 <= c.buf[b].blockno < |c.view|
  {
    c.(buf := c.buf[b := c.buf[b].(data := data)], view := c.view[c.buf[b].blockno := data])
  }

  /** The disk after bwrite() of buffer b. */
  function Written(c: CacheState, b: int): CacheState
    requires 0 <= b < |c.buf| && 0 <= c.buf[b].blockno < |c.disk|
  {
    c.(disk := c.disk[c.buf[b].blockno := c.buf[b].data])
  }

  /** The cache after the log has given back its reference to buffer b. */
  function Freed(c: CacheState, b: int): CacheState
    requires 0 <= b < |c.buf| && b < |c.pins| && c.pins[b] > 0
  {
    c.(buf := c.buf[b := c.buf[b].(refcnt := c.buf[b].refcnt - 1)], pins := c.pins[b := c.pins[b] - 1])
  }

  predicate InReach(c: CacheState, b: int) {
    0 <= b < |c.buf| && b < |c.pins| && 0 <= c.buf[b].blockno < |c.view| == |c.disk|
  }

  /** bget() of the first block, or of the second. */
  ghost predicate LooksFor(j: Job, s: State, s': State) {
    && s' == s.(c := s'.c, pc := s'.pc)
    && if s.pc.Ready? then s'.pc.Waits1? && Looks(s.c, s'.c, First(j, s.k), s'.pc.b)
       else s.pc.Has1? && !IsHead(j, s.k) && s'.pc.Waits2? && s'.pc.a == s.pc.a && Looks(s.c, s'.c, Second(j, s.k), s'.pc.b)
  }

  /** The rest of bread(). */
  ghost predicate Gets(s: State, s': State) {
    && (s.pc.Waits1? || s.pc.Waits2?) && Enters(s.c, s'.c, s.pc.b)
    && s' == s.(c := s'.c, pc := if s.pc.Waits1? then Has1(s.pc.b) else Has2(s.pc.a, s.pc.b))
  }

  /** The stores of write_head(), and memmove(). */
  ghost predicate Copies(j: Job, s: State, s': State) {
    if s.pc.Has1? then
      && IsHead(j, s.k) && InReach(s.c, s.pc.a) && |j.lh| <= LOGSIZE
      && s' == s.(c := Stored(s.c, s.pc.a, EncodeHeader(s.c.buf[s.pc.a].data, if s.k == |j.lh| then j.lh else [])),
          pc := Copied(s.pc.a, -1))
    else
      && s.pc.Has2? && InReach(s.c, ToBuf(j, s.k, s.pc.a, s.pc.b)) && InReach(s.c, FromBuf(j, s.k, s.pc.a, s.pc.b))
      && s' == s.(c := Stored(s.c, ToBuf(j, s.k, s.pc.a, s.pc.b), s.c.buf[FromBuf(j, s.k, s.pc.a, s.pc.b)].data),
          pc := Copied(s.pc.a, s.pc.b))
  }

  ghost predicate Writes(j: Job, s: State, s': State) {
    s.pc.Copied? && InReach(s.c, ToBuf(j, s.k, s.pc.a, s.pc.b)) &&
      s' == s.(c := Written(s.c, ToBuf(j, s.k, s.pc.a, s.pc.b)), pc := Wrote(s.pc.a, s.pc.b))
  }

  ghost predicate Unpinning(j: Job, s: State, s': State) {
    && s.pc.Wrote?
    && if Installs(j, s.k) then
         && InReach(s.c, s.pc.b) && s.c.pins[s.pc.b] > 0
         && s' == s.(c := Freed(s.c, s.pc.b), pc := Unpinned(s.pc.a, s.pc.b))
       else s' == s.(pc := Unpinned(s.pc.a, s.pc.b))
  }

  /** The buffer that brelse() unlocks next, and where that leaves commit(). */
  function Leaving(j: Job, s: State): (int, Pc)
    requires s.pc.Unpinned? || s.pc.Drops?
  {
    if s.pc.Drops? then (s.pc.b, Left(s.pc.b, -1))
    else if s.pc.b == -1 then (s.pc.a, Left(s.pc.a, -1))
    else (FromBuf(j, s.k, s.pc.a, s.pc.b), Left(FromBuf(j, s.k, s.pc.a, s.pc.b), ToBuf(j, s.k, s.pc.a, s.pc.b)))
  }

  ghost predicate Leaves(j: Job, s: State, s': State) {
    && (s.pc.Unpinned? || s.pc.Drops?)
    && var (b, pc) := Leaving(j, s);
       Unlocks(s.c, s'.c, b) && s' == s.(c := s'.c, pc := pc)
  }

  /** The state after the reference has gone too, but for the cache. */
  function AfterLeft(s: State): State
    requires s.pc.Left?
  {
    if s.pc.b == -1 then s.(k := s.k + 1, pc := Ready) else s.(pc := Drops(s.pc.b))
  }

  ghost predicate GivesUp(s: State, s': State) {
    s.pc.Left? && Derefs(s.c, s'.c, s.pc.a) && s' == AfterLeft(s).(c := s'.c)
  }

  /** A step of commit(). */
  ghost predicate CommitDoes(j: Job, s: State, s': State) {
    && s.k < 2 * |j.lh| + 2
    && (LooksFor(j, s, s') || Gets(s, s') || Copies(j, s, s') || Writes(j, s, s') || Unpinning(j, s, s') ||
        Leaves(j, s, s') || GivesUp(s, s'))
  }

  /** A step of a reader with buffer b: a reference for any block, the lock of one, or either half of
      brelse(). Lock and reference are its own, not the committing process's. */
  ghost predicate ReaderDoes(s: State, s': State, b: int, bn: int) {
    && s' == s.(c := s'.c)
    && (|| (Looks(s.c, s'.c, bn, b) && 0 <= bn < |s.c.disk|)
        || (ReaderHas(s, b) && (Enters(s.c, s'.c, b) || Derefs(s.c, s'.c, b)))
        || (b !in Locks(s.pc) && Unlocks(s.c, s'.c, b)))
  }

  /** A reader has a reference to b, without the lock. */
  predicate ReaderHas(s: State, b: int) {
    0 <= b < |s.c.buf| && b < |s.c.pins| && Extra(s.c.buf, s.c.pins, b) > (if b == Ref(s.pc) then 1 else 0)
  }

  ghost predicate Step(j: Job, s: State, s': State) {
    CommitDoes(j, s, s') || exists b, bn :: ReaderDoes(s, s', b, bn)
  }

  ghost predicate Start(j: Job, s: State) {
    && JobOk(j) && CacheOk(s.c) && s.c.view == j.view0 && s.c.disk == j.disk0 && s.k == 0 && s.pc == Ready
    && Log.PinnedFrom(s.c.buf, s.c.pins, j.lh, s.home, 0)
  }

  /** Nobody is in the middle of a change: the blocks that clients have locked and the log has not pinned
      are as on the disk. */
  predicate OnlyReaders(c: CacheState) {
    forall b {:trigger c.buf[b]} :: 0 <= b < NBUF && b < |c.buf| && b < |c.pins| ==>
      c.buf[b].locked && c.buf[b].valid && c.pins[b] == 0 ==> Clean(c, c.buf[b].blockno)
  }

  predicate Clean(c: CacheState, bn: int) {
    0 <= bn < |c.view| && bn < |c.disk| ==> c.view[bn] == c.disk[bn]
  }

  /** commit() as end_op() calls it, while others at most read, starts such a job. */
  lemma CommitStarts(l: Log.Log)
    requires l.Valid() && OnlyReaders(Of(l.cache)) && l.lh != []
    requires WellFormed(l.lay, l.cache.disk) && Header(l.lay, l.cache.disk) == []
    ensures Start(Job(l.lay, l.lh, l.cache.view, l.cache.disk), State(Of(l.cache), l.home, 0, Ready))
  {
    var c := l.cache;
    hide Ring, Complete, Unique, Counted, WellFormed, Header;
    forall bn | 0 <= bn < |c.disk| && IndexOf(l.lh, bn) < 0
      ensures c.view[bn] == c.disk[bn]
    {
      Log.PinnedIsLogged(c.buf, c.pins, l.lh, l.home, c.slot[bn]);
    }
  }

  ghost function Of(c: Cache): CacheState
    reads c
  {
    CacheState(c.buf, c.order, c.pins, c.disk, c.view, c.slot)
  }

  // ---- The invariant ----

  predicate InView(pc: Pc) { pc.Copied? || OnDisk(pc) }

  predicate OnDisk(pc: Pc) { pc.Wrote? || PinGone(pc) }

  predicate PinGone(pc: Pc) { pc.Unpinned? || pc.Left? || pc.Drops? }

  /** How many writes the cache and the disk have, and how many pins are gone. */
  function Viewed(s: State): nat { if InView(s.pc) then s.k + 1 else s.k }

  function Disked(s: State): nat { if OnDisk(s.pc) then s.k + 1 else s.k }

  function Gone(j: Job, k: nat): nat { if k <= |j.lh| then 0 else if k <= 2 * |j.lh| + 1 then k - |j.lh| - 1 else |j.lh| }

  function Unpins(j: Job, s: State): nat {
    Gone(j, s.k) + if Installs(j, s.k) && PinGone(s.pc) then 1 else 0
  }

  predicate PcOk(j: Job, c: CacheState, k: nat, pc: Pc) {
    match pc
    case Ready => true
    case Waits1(b) => Waiting(c, b, First(j, k))
    case Has1(a) => Holding(c, a, First(j, k))
    case Waits2(a, b) => !IsHead(j, k) && Holding(c, a, First(j, k)) && Waiting(c, b, Second(j, k))
    case Has2(a, b) => !IsHead(j, k) && Both(j, c, k, a, b)
    case Copied(a, b) => Both(j, c, k, a, b)
    case Wrote(a, b) => Both(j, c, k, a, b)
    case Unpinned(a, b) => Both(j, c, k, a, b)
    case Left(a, b) => 0 <= a < |c.buf| && a < NBUF && a < |c.pins| && Extra(c.buf, c.pins, a) > 0 &&
      (b != -1 ==> !IsHead(j, k) && Holding(c, b, To(j, k)))
    case Drops(b) => !IsHead(j, k) && Holding(c, b, To(j, k))
  }

  predicate Both(j: Job, c: CacheState, k: nat, a: int, b: int) {
    Holding(c, a, First(j, k)) && if IsHead(j, k) then b == -1 else Holding(c, b, Second(j, k))
  }

  /** v writes of the plan are in the cache and d on the disk, and g blocks are no longer pinned. */
  ghost predicate Core(j: Job, c: CacheState, home: seq<int>, v: nat, d: nat, g: nat) {
    && JobOk(j) && CacheOk(c) && |c.disk| == |j.disk0| && v <= 2 * |j.lh| + 2 && d <= 2 * |j.lh| + 2
    && c.view == After(j.view0, Plan(j), v) && c.disk == After(j.disk0, Plan(j), d)
    && Log.PinnedFrom(c.buf, c.pins, j.lh, home, g)
  }

  ghost predicate Inv(j: Job, s: State) {
    && s.k <= 2 * |j.lh| + 2 && (s.pc != Ready ==> s.k < 2 * |j.lh| + 2)
    && Core(j, s.c, s.home, Viewed(s), Disked(s), Unpins(j, s))
    && PcOk(j, s.c, s.k, s.pc)
  }

  /** The blocks of write k. */
  lemma JobBlocks(j: Job, k: nat)
    requires JobOk(j) && k < 2 * |j.lh| + 2
    ensures 0 <= First(j, k) < |j.disk0| && j.lay.InLog(First(j, k)) && |j.lh| <= LOGSIZE
    ensures !IsHead(j, k) ==> 0 <= Second(j, k) < |j.disk0| && !j.lay.InLog(Second(j, k))
  {
    hide After;
  }

  lemma CoreRely(j: Job, c: CacheState, c': CacheState, home: seq<int>, v: nat, d: nat, g: nat, locks: set<int>, ref: int)
    requires Core(j, c, home, v, d, g) && Rely(c, c', locks, ref)
    ensures Core(j, c', home, v, d, g)
  {
    hide CacheOk, JobOk, After, Plan;
    Log.StillPinned(c.buf, c'.buf, c.pins, j.lh, home, g);
  }

  /** What other processes do keeps the invariant. */
  lemma RelyKeeps(j: Job, s: State, c': CacheState)
    requires Inv(j, s) && Rely(s.c, c', Locks(s.pc), Ref(s.pc))
    ensures Inv(j, s.(c := c'))
  {
    hide Core, Rely, PcOk;
    CoreRely(j, s.c, c', s.home, Viewed(s), Disked(s), Unpins(j, s), Locks(s.pc), Ref(s.pc));
    RelyPc(j, s, c');
  }

  lemma RelyPc(j: Job, s: State, c': CacheState)
    requires PcOk(j, s.c, s.k, s.pc) && Rely(s.c, c', Locks(s.pc), Ref(s.pc))
    ensures PcOk(j, c', s.k, s.pc)
  {
    hide Ring, Complete, Unique, Counted, Agrees;
  }

  // ---- What differs between cache and disk ----

  lemma PlanTarget(j: Job, k: nat)
    requires JobOk(j) && k < 2 * |j.lh| + 2
    ensures |Plan(j)| == 2 * |j.lh| + 2 && Plan(j)[k].bn == To(j, k) && 0 <= To(j, k) < |j.disk0|
  {
    JobBlocks(j, k);
    assert Plan(j)[k] == CommitWrite(j.lay, j.lh, j.view0, j.view0[j.lay.start], k);
  }

  /** A block the cache and the disk disagree on is still to be installed, or is the one just copied. */
  lemma Differs(j: Job, s: State, bn: int)
    requires Inv(j, s) && 0 <= bn < |j.disk0| && s.c.view[bn] != s.c.disk[bn]
    ensures (s.pc.Copied? && bn == To(j, s.k)) || exists i :: Unpins(j, s) <= i < |j.lh| && j.lh[i] == bn
  {
    hide CacheOk, After, PcOk, EncodeHeader;
    if s.pc.Copied? {
      PlanTarget(j, s.k);
      Log.NextWrite(j.view0, j.disk0, [], Plan(j), s.k);
    }
    assert s.c.view[bn] == After(j.view0, Plan(j), Disked(s))[bn] || (s.pc.Copied? && bn == To(j, s.k));
    CommittingBlocks(j.lay, j.view0, j.lh, j.view0, j.view0[j.lay.start], Disked(s), bn);
    CommittingBlocks(j.lay, j.disk0, j.lh, j.view0, j.view0[j.lay.start], Disked(s), bn);
    var i := IndexOf(j.lh, bn);
    if !(s.pc.Copied? && bn == To(j, s.k)) {
      assert s.c.view[bn] == CommittingBlock(j.lay, j.view0, j.lh, j.view0, j.view0[j.lay.start], Disked(s), bn);
      assert i >= 0 && j.lh[i] == bn;
      assert |j.lh| + 1 + i >= Disked(s);
    }
  }

  /** Whoever holds a buffer, other than one just copied into, can release it: its block is pinned or on the disk. */
  lemma ReleaseSafe(j: Job, s: State, b: int)
    requires Inv(j, s) && 0 <= b < NBUF && s.c.buf[b].locked && s.c.buf[b].valid
    requires s.pc.Copied? ==> s.c.buf[b].blockno != To(j, s.k)
    ensures var bn := s.c.buf[b].blockno; 0 <= bn < |s.c.disk| && (s.c.pins[b] > 0 || s.c.disk[bn] == s.c.view[bn])
  {
    hide Ring, Complete, Counted, Unique, After, Plan, JobOk, PcOk;
    var bn := s.c.buf[b].blockno;
    if s.c.disk[bn] != s.c.view[bn] {
      Differs(j, s, bn);
      var i :| Unpins(j, s) <= i < |j.lh| && j.lh[i] == bn;
      assert Log.PinnedOnce(s.c.buf, s.c.pins, j.lh[i], s.home[i]);
    }
  }

  // ---- Readers ----

  lemma GripOk(j: Job, s: State)
    requires Inv(j, s)
    ensures Grip(s.c, Locks(s.pc), Ref(s.pc))
  {
    hide Ring, Complete, Unique, Counted, Agrees, JobOk, After, Plan;
  }

  lemma ReaderKeeps(j: Job, s: State, s': State, b: int, bn: int)
    requires Inv(j, s) && ReaderDoes(s, s', b, bn)
    ensures Inv(j, s')
  {
    hide Ring, Complete, Unique, Agrees, JobOk, After, Plan;
    GripOk(j, s);
    hide PcOk;
    if Looks(s.c, s'.c, bn, b) {
      LookRely(s.c, s'.c, bn, b, Locks(s.pc), Ref(s.pc));
    } else if ReaderHas(s, b) && Enters(s.c, s'.c, b) {
      EnterRely(s.c, s'.c, b, Locks(s.pc), Ref(s.pc));
    } else if ReaderHas(s, b) && Derefs(s.c, s'.c, b) {
      DerefRely(s.c, s'.c, b, Locks(s.pc), Ref(s.pc));
    } else {
      NotTheCopied(j, s, b);
      ReleaseSafe(j, s, b);
      UnlockRely(s.c, s'.c, b, Locks(s.pc), Ref(s.pc));
    }
    RelyKeeps(j, s, s'.c);
  }

  /** A buffer that is not held by the committing process is not the one just copied into. */
  lemma NotTheCopied(j: Job, s: State, b: int)
    requires Inv(j, s) && 0 <= b < NBUF && s.c.buf[b].valid && b !in Locks(s.pc)
    ensures s.pc.Copied? ==> s.c.buf[b].blockno != To(j, s.k)
  {
    hide Ring, Complete, Unique, Counted, JobOk, After, Plan;
  }

  // ---- The committing process ----

  lemma LookKeeps(j: Job, s: State, s': State)
    requires Inv(j, s) && LooksFor(j, s, s') && s.k < 2 * |j.lh| + 2
    ensures Inv(j, s')
  {
    hide Core, CacheOk, Looks, Rely, Grip, First, Second, Waiting, Holding, Installs, Gone;
    GripOk(j, s);
    CoreCache(j, s);
    LookRely(s.c, s'.c, if s.pc.Ready? then First(j, s.k) else Second(j, s.k), s'.pc.b, Locks(s.pc), -1);
    RelyKeeps(j, s, s'.c);
  }

  lemma CoreCache(j: Job, s: State)
    requires Inv(j, s)
    ensures CacheOk(s.c)
  {
  }

  lemma EnterKeeps(j: Job, s: State, s': State)
    requires Inv(j, s) && Gets(s, s')
    ensures Inv(j, s')
  {
    hide Core, CacheOk, Enters, Rely, First, Second, Installs, Gone, Holding, Waiting, Grip;
    var s0 := s.(pc := if s.pc.Waits1? then Ready else Has1(s.pc.a));
    CoreCache(j, s);
    WaitingFacts(j, s);
    GripOk(j, s0);
    EntersWhat(s.c, s'.c, s.pc.b);
    EnterRely(s.c, s'.c, s.pc.b, Locks(s0.pc), -1);
    NowHolding(s.c, s'.c, s.pc.b, if s.pc.Waits1? then First(j, s.k) else Second(j, s.k));
    RelyKeeps(j, s0, s'.c);
  }

  lemma WaitingFacts(j: Job, s: State)
    requires Inv(j, s) && (s.pc.Waits1? || s.pc.Waits2?)
    ensures Waiting(s.c, s.pc.b, if s.pc.Waits1? then First(j, s.k) else Second(j, s.k))
    ensures 0 <= s.pc.b < NBUF && |s.c.buf| == NBUF + 1 && |s.c.pins| == NBUF && Extra(s.c.buf, s.c.pins, s.pc.b) > 0
  {
    hide Ring, Complete, Unique, Counted, Agrees, JobOk, After, Plan, First, Second;
  }

  lemma EntersWhat(c: CacheState, c': CacheState, b: int)
    requires Enters(c, c', b)
    ensures |c'.buf| == |c.buf|
  {
  }

  lemma NowHolding(c: CacheState, c': CacheState, b: int, bn: int)
    requires Waiting(c, b, bn) && |c'.buf| == |c.buf| && c'.buf[b].locked && c'.buf[b].valid
    requires c'.buf[b].dev == c.buf[b].dev && c'.buf[b].blockno == c.buf[b].blockno
    ensures Holding(c', b, bn)
  {
  }

  /** What a buffer that is held contains. */
  lemma HeldFacts(j: Job, s: State, b: int, bn: int)
    requires Inv(j, s) && Holding(s.c, b, bn)
    ensures |s.c.disk| == |s.c.view| == |j.disk0| && 0 <= bn < |s.c.view| && s.c.buf[b].data == s.c.view[bn] &&
      b < |s.c.pins| && |s.c.buf| == NBUF + 1
  {
    hide Ring, Complete, Unique, Counted, JobOk, After, Plan;
  }

  /** memmove() puts into the cache what write k of the plan says. */
  lemma CopyIsPlanned(j: Job, s: State)
    requires Inv(j, s) && s.k < 2 * |j.lh| + 2 && (if IsHead(j, s.k) then s.pc.Has1? else s.pc.Has2?)
    ensures var w := Plan(j)[s.k];
      if s.pc.Has1? then w.data == EncodeHeader(s.c.buf[s.pc.a].data, if s.k == |j.lh| then j.lh else [])
      else w.data == s.c.buf[FromBuf(j, s.k, s.pc.a, s.pc.b)].data
  {
    hide CacheOk, After, EncodeHeader;
    JobBlocks(j, s.k);
    Log.CommitStep(j.lay, j.lh, j.view0, s.k);
    HeldFacts(j, s, s.pc.a, First(j, s.k));
    if s.pc.Has2? {
      HeldFacts(j, s, s.pc.b, Second(j, s.k));
    }
  }

  lemma CoreStore(j: Job, c: CacheState, home: seq<int>, k: nat, g: nat, b: int)
    requires Core(j, c, home, k, k, g) && k < 2 * |j.lh| + 2 && Holding(c, b, To(j, k)) && InReach(c, b)
    ensures Core(j, Stored(c, b, Plan(j)[k].data), home, k + 1, k, g)
  {
    PlanTarget(j, k);
    Log.NextWrite(j.view0, j.disk0, [], Plan(j), k);
    hide Ring, Complete, Unique, Counted, Agrees, JobOk, After, Plan;
    StoreKeeps(c.buf, c.order, c.pins, c.disk, c.view, c.slot, b, Plan(j)[k].data);
    Log.StillPinned(c.buf, Stored(c, b, Plan(j)[k].data).buf, c.pins, j.lh, home, g);
  }

  lemma CopyKeeps(j: Job, s: State, s': State)
    requires Inv(j, s) && Copies(j, s, s')
    ensures Inv(j, s')
  {
    if s.pc.Has1? {
      CopyHead(j, s, s');
    } else {
      CopyBlock(j, s, s');
    }
  }

  lemma StoredKeepsNames(c: CacheState, b: int, data: Block)
    requires 0 <= b < |c.buf| && 0 <= c.buf[b].blockno < |c.view|
    ensures forall x, bn {:trigger Holding(Stored(c, b, data), x, bn)} :: Holding(c, x, bn) ==> Holding(Stored(c, b, data), x, bn)
  {
  }

  lemma CopyHead(j: Job, s: State, s': State)
    requires Inv(j, s) && Copies(j, s, s') && s.pc.Has1?
    ensures Inv(j, s')
  {
    hide Core, EncodeHeader, Plan, Gone, Names;
    CopyIsPlanned(j, s);
    CoreStore(j, s.c, s.home, s.k, Unpins(j, s), s.pc.a);
    StoredKeepsNames(s.c, s.pc.a, EncodeHeader(s.c.buf[s.pc.a].data, if s.k == |j.lh| then j.lh else []));
  }

  lemma CopyBlock(j: Job, s: State, s': State)
    requires Inv(j, s) && Copies(j, s, s') && s.pc.Has2?
    ensures Inv(j, s')
  {
    hide Core, EncodeHeader, Plan, First, Second, Gone, IsHead, Holding;
    CopyIsPlanned(j, s);
    CoreStore(j, s.c, s.home, s.k, Unpins(j, s), ToBuf(j, s.k, s.pc.a, s.pc.b));
    StoredKeepsNames(s.c, ToBuf(j, s.k, s.pc.a, s.pc.b), s.c.buf[FromBuf(j, s.k, s.pc.a, s.pc.b)].data);
  }

  lemma CoreWrite(j: Job, c: CacheState, home: seq<int>, k: nat, g: nat, b: int)
    requires Core(j, c, home, k + 1, k, g) && Holding(c, b, To(j, k)) && InReach(c, b)
    ensures Core(j, Written(c, b), home, k + 1, k + 1, g)
  {
    PlanTarget(j, k);
    Log.NextWrite(j.view0, j.disk0, [], Plan(j), k);
    WriteKeeps(c.buf, c.pins, c.disk, c.view, c.slot, b);
    hide Ring, Complete, Unique, Counted, JobOk, After, Plan;
  }

  lemma WriteStepKeeps(j: Job, s: State, s': State)
    requires Inv(j, s) && Writes(j, s, s')
    ensures Inv(j, s')
  {
    hide Core;
    CoreWrite(j, s.c, s.home, s.k, Unpins(j, s), ToBuf(j, s.k, s.pc.a, s.pc.b));
  }

  lemma CoreUnpin(j: Job, c: CacheState, home: seq<int>, v: nat, d: nat, g: nat, b: int)
    requires Core(j, c, home, v, d, g) && g < |j.lh| && Holding(c, b, j.lh[g]) && b < |c.pins| && c.pins[b] > 0
    ensures Core(j, Freed(c, b), home, v, d, g + 1)
  {
    hide Ring, Complete, Unique, Counted, Agrees, After, Plan, Stored, JobOk;
    IsHome(j, c, home, g, b);
    JobLoggable(j);
    PinKeeps(c.buf, c.order, c.pins, c.disk, c.view, c.slot, b, -1);
    Log.StillPinned(c.buf, Freed(c, b).buf, c.pins, j.lh, home, g);
    Log.UnpinOne(Freed(c, b).buf, c.pins, Freed(c, b).pins, j.lh, home, g, j.lay, |j.disk0|);
  }

  lemma JobLoggable(j: Job)
    requires JobOk(j)
    ensures |j.view0| == |j.disk0| && Loggable(j.lay, |j.disk0|, j.lh) && j.lay.start < |j.view0|
  {
  }

  /** The home block's buffer is the one it is pinned in. */
  lemma IsHome(j: Job, c: CacheState, home: seq<int>, g: nat, b: int)
    requires CacheOk(c) && Log.PinnedFrom(c.buf, c.pins, j.lh, home, g) && g < |j.lh| && Holding(c, b, j.lh[g])
    ensures g < |home| && home[g] == b
  {
    hide Ring, Complete, Counted, Agrees;
    assert Log.PinnedOnce(c.buf, c.pins, j.lh[g], home[g]);
  }

  lemma UnpinKeeps(j: Job, s: State, s': State)
    requires Inv(j, s) && Unpinning(j, s, s')
    ensures Inv(j, s')
  {
    hide Core;
    if Installs(j, s.k) {
      CoreUnpin(j, s.c, s.home, Viewed(s), Disked(s), Unpins(j, s), s.pc.b);
    }
  }

  /** releasesleep() of the buffer copied from, and of the one copied to. */
  lemma LeaveKeeps(j: Job, s: State, s': State)
    requires Inv(j, s) && Leaves(j, s, s')
    ensures Inv(j, s')
  {
    hide Inv, CacheOk, Rely, Grip, Unlocks;
    var (b, pc) := Leaving(j, s);
    LeavingOk(j, s);
    CoreCache(j, s);
    var s0 := s.(pc := if pc.b == -1 then Ready else Drops(pc.b), k := if pc.b == -1 then s.k + 1 else s.k);
    GripOk(j, s0);
    ReleaseSafe(j, s0, b);
    UnlockRely(s.c, s'.c, b, Locks(pc), b);
    StillLeft(j, s, s0, s'.c);
  }

  /** Without the buffer that is left, commit() is as far as after its last brelse(). */
  lemma LeavingOk(j: Job, s: State)
    requires Inv(j, s) && (s.pc.Unpinned? || s.pc.Drops?)
    ensures var (b, pc) := Leaving(j, s);
      var s0 := s.(pc := if pc.b == -1 then Ready else Drops(pc.b), k := if pc.b == -1 then s.k + 1 else s.k);
      && Inv(j, s0) && Ref(s0.pc) == -1 && !s0.pc.Copied? && Locks(s0.pc) == Locks(pc)
      && 0 <= b < NBUF && b !in Locks(pc) && |s.c.buf| == NBUF + 1 && s.c.buf[b].locked && s.c.buf[b].valid
  {
    hide Core, First, Second, To, Gone, Installs, Holding;
    LeavingBuffer(j, s);
    LeavingNumbers(j, s);
  }

  /** The buffer that is left is held, and the one kept is the one written to. */
  lemma LeavingBuffer(j: Job, s: State)
    requires Inv(j, s) && (s.pc.Unpinned? || s.pc.Drops?)
    ensures var (b, pc) := Leaving(j, s);
      && 0 <= b < NBUF && b !in Locks(pc) && |s.c.buf| == NBUF + 1 && s.c.buf[b].locked && s.c.buf[b].valid
      && (pc.b != -1 ==> !IsHead(j, s.k) && Holding(s.c, pc.b, To(j, s.k)))
      && (IsHead(j, s.k) || s.pc.Drops? || s.pc.b != -1)
  {
    hide Core, IndexOf;
    CoreBlocks(j, s);
  }

  lemma LeavingNumbers(j: Job, s: State)
    requires (s.pc.Unpinned? || s.pc.Drops? || s.pc.Left?) && s.k < 2 * |j.lh| + 2
    ensures var t := s.(k := s.k + 1, pc := Ready);
      Viewed(t) == Viewed(s) && Disked(t) == Disked(s) && Unpins(j, t) == Unpins(j, s)
    ensures forall pc :: PinGone(pc) ==> var t := s.(pc := pc);
      Viewed(t) == Viewed(s) && Disked(t) == Disked(s) && Unpins(j, t) == Unpins(j, s)
  {
  }

  lemma StillLeft(j: Job, s: State, s0: State, c': CacheState)
    requires Inv(j, s) && Inv(j, s0) && (s.pc.Unpinned? || s.pc.Drops?)
    requires var (b, pc) := Leaving(j, s);
      && s0 == s.(pc := if pc.b == -1 then Ready else Drops(pc.b), k := if pc.b == -1 then s.k + 1 else s.k)
      && Rely(s.c, c', Locks(pc), b) && 0 <= b < NBUF
    ensures var (b, pc) := Leaving(j, s); Inv(j, s.(c := c', pc := pc))
  {
    hide Core, First, Second, Gone, Installs, Holding, Grip;
    var (b, pc) := Leaving(j, s);
    RelyLess(s.c, c', Locks(pc), b);
    hide Rely;
    RelyKeeps(j, s0, c');
    LeavingNumbers(j, s);
    LeavingBuffer(j, s);
  }

  lemma RelyLess(c: CacheState, c': CacheState, locks: set<int>, ref: int)
    requires Rely(c, c', locks, ref)
    ensures Rely(c, c', locks, -1)
    ensures ref != -1 ==> |c'.buf| == NBUF + 1 && |c'.pins| == NBUF && 0 <= ref < NBUF && Extra(c'.buf, c'.pins, ref) > 0
  {
    hide Ring, Complete, Unique, Counted, Agrees;
  }

  /** The rest of brelse(). */
  lemma GiveUpKeeps(j: Job, s: State, s': State)
    requires Inv(j, s) && GivesUp(s, s') && s.k < 2 * |j.lh| + 2
    ensures Inv(j, s')
  {
    hide Core, CacheOk, Rely, Grip, Derefs, First, Second, Gone, Installs, Holding;
    var s0 := AfterLeft(s);
    LeavingNumbers(j, s);
    CoreCache(j, s);
    GripOk(j, s0);
    CoreSizes(s.c);
    DerefRely(s.c, s'.c, s.pc.a, Locks(s0.pc), -1);
    RelyKeeps(j, s0, s'.c);
  }

  lemma CoreSizes(c: CacheState)
    requires CacheOk(c)
    ensures |c.buf| == NBUF + 1 && |c.pins| == NBUF
  {
  }

  lemma CoreBlocks(j: Job, s: State)
    requires Inv(j, s) && s.k < 2 * |j.lh| + 2
    ensures JobOk(j) && |j.lh| <= LOGSIZE && |s.c.buf| == NBUF + 1 && j.lay.InLog(First(j, s.k)) &&
      (!IsHead(j, s.k) ==> !j.lay.InLog(Second(j, s.k)))
  {
    JobBlocks(j, s.k);
  }

  lemma CommitKeeps(j: Job, s: State, s': State)
    requires Inv(j, s) && CommitDoes(j, s, s')
    ensures Inv(j, s')
  {
    hide Inv, LooksFor, Gets, Copies, Writes, Unpinning, Leaves, GivesUp;
    if LooksFor(j, s, s') {
      LookKeeps(j, s, s');
    } else if Gets(s, s') {
      EnterKeeps(j, s, s');
    } else if Copies(j, s, s') {
      CopyKeeps(j, s, s');
    } else if Writes(j, s, s') {
      WriteStepKeeps(j, s, s');
    } else if Unpinning(j, s, s') {
      UnpinKeeps(j, s, s');
    } else if Leaves(j, s, s') {
      LeaveKeeps(j, s, s');
    } else {
      GiveUpKeeps(j, s, s');
    }
  }

  // ---- Panics and waits ----

  /** bget() finds no buffer for the block commit() asks for next. */
  predicate Panics(j: Job, s: State) {
    && s.k < 2 * |j.lh| + 2
    && if s.pc.Ready? then NoBuffers(s.c.buf, ROOTDEV, First(j, s.k))
       else s.pc.Has1? && !IsHead(j, s.k) && NoBuffers(s.c.buf, ROOTDEV, Second(j, s.k))
  }

  /** A reader has the lock commit() waits for. */
  predicate Blocked(s: State) {
    (s.pc.Waits1? || s.pc.Waits2?) && 0 <= s.pc.b < |s.c.buf| && s.c.buf[s.pc.b].locked
  }

  /** Some process other than the committing one references buffer b. */
  predicate Borrowed(s: State, b: int) {
    0 <= b < NBUF <= |s.c.buf| && |s.c.pins| == NBUF && b !in Locks(s.pc) && s.c.buf[b].refcnt > s.c.pins[b]
  }

  /** A home block that is not installed yet has a buffer, so only the first bread() of a write can panic. */
  lemma SecondNeverPanics(j: Job, s: State)
    requires Inv(j, s) && s.pc.Has1? && !IsHead(j, s.k)
    ensures !Panics(j, s)
  {
    hide CacheOk, JobOk, After, Plan;
    var t := if s.k < |j.lh| then s.k else s.k - |j.lh| - 1;
    assert Log.PinnedOnce(s.c.buf, s.c.pins, j.lh[t], s.home[t]);
    assert Names(s.c.buf, s.home[t], ROOTDEV, Second(j, s.k));
  }

  /** With fewer than NBUF blocks logged it panics only while readers reference buffers. */
  lemma PanicMeansBorrowed(j: Job, s: State)
    requires Inv(j, s) && Panics(j, s) && |j.lh| < NBUF
    ensures exists b :: Borrowed(s, b)
  {
    if s.pc.Has1? {
      SecondNeverPanics(j, s);
    }
    hide Ring, Complete, Unique, Agrees, JobOk, After, Plan;
    var b := Counting.Missing(s.home, NBUF);
    assert s.c.pins[b] == 0 by {
      assert forall x :: x in s.home[Unpins(j, s)..] ==> x in s.home;
    }
    assert !Unused(s.c.buf, b);
    assert Borrowed(s, b);
  }

  /** With NBUF blocks logged it panics at once, whatever the readers do. */
  lemma FullPanics(j: Job, s: State)
    requires Inv(j, s) && s.k == 0 && s.pc == Ready && |j.lh| == NBUF
    ensures Panics(j, s)
  {
    JobBlocks(j, 0);
    hide Ring, Complete, Unique, Agrees, After, Plan;
    var lh, home := j.lh, s.home;
    forall i | 0 <= i < |home|
      ensures 0 <= home[i] < NBUF && s.c.buf[home[i]].blockno == lh[i] && s.c.buf[home[i]].refcnt > 0
    {
      assert Log.PinnedOnce(s.c.buf, s.c.pins, lh[i], home[i]);
    }
    Counting.Pigeonhole(home, NBUF);
    forall b | 0 <= b < NBUF
      ensures !Names(s.c.buf, b, ROOTDEV, First(j, 0)) && !Unused(s.c.buf, b)
    {
      assert b in home;
    }
  }

  // ---- Nothing else stops it ----

  lemma {:induction false} LastUnused(buf: seq<Buf>, order: seq<int>, n: nat) returns (b: int)
    requires n <= |order| && (forall q :: n <= q < |order| ==> !Unused(buf, order[q])) && exists p :: 0 <= p < n && Unused(buf, order[p])
    ensures LeastRecent(buf, order, b)
    decreases n
  {
    if Unused(buf, order[n - 1]) {
      b := order[n - 1];
    } else {
      b := LastUnused(buf, order, n - 1);
    }
  }

  lemma CanLook(c: CacheState, bn: int) returns (c': CacheState, b: int)
    requires CacheOk(c) && !NoBuffers(c.buf, ROOTDEV, bn)
    ensures Looks(c, c', bn, b) && c' == c.(buf := c'.buf, slot := c'.slot)
  {
    hide Ring, Unique, Counted, Agrees;
    if x :| 0 <= x < NBUF && Names(c.buf, x, ROOTDEV, bn) {
      b, c' := x, c.(buf := Taken(c.buf, x));
    } else {
      var x :| 0 <= x < NBUF && Unused(c.buf, x);
      assert x in c.order;
      b := LastUnused(c.buf, c.order, |c.order|);
      c' := c.(buf := Recycled(c.buf, b, ROOTDEV, bn), slot := Evicted(c.slot, b));
    }
  }

  lemma CanDeref(c: CacheState, b: int) returns (c': CacheState)
    requires CacheOk(c) && 0 <= b < NBUF
    ensures Derefs(c, c', b) && c' == c.(buf := c'.buf, order := c'.order)
  {
    hide Unique, Counted, Agrees, Ring, SamePayload, Unlink, LinkFront;
    var r := LessOne(c.buf, b);
    SameLinksRing(c.buf, r, c.order);
    if c.buf[b].refcnt > 1 {
      c' := c.(buf := r);
      PayloadSelf(r);
    } else {
      assert b in c.order;
      var p :| 0 <= p < |c.order| && c.order[p] == b;
      MoveToFront(r, c.order, p);
      MoveKeepsComplete(c.order, p);
      c' := c.(buf := LinkFront(Unlink(r, b), b), order := [b] + RemoveAt(c.order, p));
    }
  }

  lemma PayloadSelf(r: seq<Buf>)
    ensures SamePayload(r, r)
  {
  }

  /** A commit that is not over can go on unless a reader has a lock it waits for or bget() has no buffer. */
  lemma CommitCanStep(j: Job, s: State)
    requires Inv(j, s) && s.k < 2 * |j.lh| + 2 && !Panics(j, s) && !Blocked(s)
    ensures exists s' :: CommitDoes(j, s, s')
  {
    hide Core, Looks, Derefs, Enters, IndexOf, EncodeHeader;
    CoreCache(j, s);
    CoreBlocks(j, s);
    if s.pc.Ready? || (s.pc.Has1? && !IsHead(j, s.k)) {
      var c', b := CanLook(s.c, if s.pc.Ready? then First(j, s.k) else Second(j, s.k));
      var s' := s.(c := c', pc := if s.pc.Ready? then Waits1(b) else Waits2(s.pc.a, b));
      assert LooksFor(j, s, s') && CommitDoes(j, s, s');
    } else if s.pc.Waits1? || s.pc.Waits2? {
      var c' := CanEnter(j, s);
      var s' := s.(c := c', pc := if s.pc.Waits1? then Has1(s.pc.b) else Has2(s.pc.a, s.pc.b));
      assert Gets(s, s') && CommitDoes(j, s, s');
    } else if s.pc.Unpinned? || s.pc.Drops? {
      LeavingBuffer(j, s);
      var (b, pc) := Leaving(j, s);
      var s' := s.(c := s.c.(buf := s.c.buf[b := s.c.buf[b].(locked := false)]), pc := pc);
      assert Leaves(j, s, s') && CommitDoes(j, s, s');
    } else if s.pc.Left? {
      var c' := CanDeref(s.c, s.pc.a);
      var s' := AfterLeft(s).(c := c');
      assert GivesUp(s, s') && CommitDoes(j, s, s');
    } else {
      CanWrite(j, s);
    }
  }

  lemma CanEnter(j: Job, s: State) returns (c': CacheState)
    requires Inv(j, s) && (s.pc.Waits1? || s.pc.Waits2?) && !Blocked(s)
    ensures Enters(s.c, c', s.pc.b) && c' == s.c.(buf := c'.buf, slot := c'.slot)
  {
    JobBlocks(j, s.k);
    hide Ring, Complete, Unique, Counted, Agrees, JobOk, After, Plan, First, Second;
    var b := s.pc.b;
    var r := s.c.buf[b].(locked := true);
    c' := if r.valid then s.c.(buf := s.c.buf[b := r])
          else s.c.(buf := s.c.buf[b := r.(valid := true, data := s.c.disk[r.blockno])], slot := s.c.slot[r.blockno := b]);
  }

  lemma CanWrite(j: Job, s: State)
    requires Inv(j, s) && s.k < 2 * |j.lh| + 2 && ((s.pc.Has1? && IsHead(j, s.k)) || s.pc.Has2? || s.pc.Copied? || s.pc.Wrote?)
    ensures exists s' :: CommitDoes(j, s, s')
  {
    hide Core, First, Second, Gone;
    CoreBlocks(j, s);
    HeldFacts(j, s, s.pc.a, First(j, s.k));
    if !IsHead(j, s.k) && !s.pc.Has1? {
      HeldFacts(j, s, s.pc.b, Second(j, s.k));
    }
    if s.pc.Wrote? && Installs(j, s.k) {
      StillPinnedHome(j, s);
    }
    CanWriteHere(j, s);
  }

  lemma StillPinnedHome(j: Job, s: State)
    requires Inv(j, s) && s.pc.Wrote? && Installs(j, s.k)
    ensures 0 <= s.pc.b < |s.c.pins| && s.c.pins[s.pc.b] > 0
  {
    hide Ring, Complete, Unique, Counted, Agrees, JobOk, After, Plan;
    var t := s.k - |j.lh| - 1;
    IsHome(j, s.c, s.home, t, s.pc.b);
    assert Log.PinnedOnce(s.c.buf, s.c.pins, j.lh[t], s.home[t]);
  }

  lemma CanWriteHere(j: Job, s: State)
    requires s.k < 2 * |j.lh| + 2 && ((s.pc.Has1? && IsHead(j, s.k)) || s.pc.Has2? || s.pc.Copied? || s.pc.Wrote?)
    requires |j.lh| <= LOGSIZE && InReach(s.c, s.pc.a) && (!s.pc.Has1? && !IsHead(j, s.k) ==> InReach(s.c, s.pc.b))
    requires s.pc.Has2? ==> !IsHead(j, s.k)
    requires s.pc.Wrote? && Installs(j, s.k) ==> s.c.pins[s.pc.b] > 0
    ensures exists s' :: CommitDoes(j, s, s')
  {
    hide EncodeHeader, Looks, Enters, Derefs;
    var to := if s.pc.Has1? then s.pc.a else ToBuf(j, s.k, s.pc.a, s.pc.b);
    var s' :=
      if s.pc.Has1? then
        var head := EncodeHeader(s.c.buf[s.pc.a].data, if s.k == |j.lh| then j.lh else []);
        s.(c := Stored(s.c, s.pc.a, head), pc := Copied(s.pc.a, -1))
      else if s.pc.Has2? then s.(c := Stored(s.c, to, s.c.buf[FromBuf(j, s.k, s.pc.a, s.pc.b)].data), pc := Copied(s.pc.a, s.pc.b))
      else if s.pc.Copied? then s.(c := Written(s.c, to), pc := Wrote(s.pc.a, s.pc.b))
      else s.(c := if Installs(j, s.k) then Freed(s.c, s.pc.b) else s.c, pc := Unpinned(s.pc.a, s.pc.b));
    assert CommitDoes(j, s, s');
  }

  // ---- Nor does anything stop readers ----

  /** The buffer that bget() gives a reader is not one the committing process counts on. */
  lemma LookedFacts(c: CacheState, c': CacheState, bn: int, b: int, locks: set<int>, ref: int)
    requires CacheOk(c) && Looks(c, c', bn, b) && Grip(c, locks, ref)
    requires forall x {:trigger Names(c.buf, x, ROOTDEV, bn)} :: Names(c.buf, x, ROOTDEV, bn) ==> !c.buf[x].locked
    ensures 0 <= b < NBUF && b !in locks && Names(c'.buf, b, ROOTDEV, bn) && !c'.buf[b].locked
    ensures |c'.pins| == NBUF && Extra(c'.buf, c'.pins, b) > if b == ref then 1 else 0
    ensures c' == c.(buf := c'.buf, slot := c'.slot)
  {
    hide Ring, Complete, Unique, Agrees;
  }

  lemma EnterHere(c: CacheState, b: int) returns (c': CacheState)
    requires CacheOk(c) && 0 <= b < NBUF && !c.buf[b].locked && c.buf[b].dev == ROOTDEV && 0 <= c.buf[b].blockno < |c.disk|
    ensures Enters(c, c', b) && c' == c.(buf := c'.buf, slot := c'.slot) && |c'.buf| == NBUF + 1
    ensures c'.buf[b] == c.buf[b].(locked := true, valid := true, data := c'.buf[b].data)
  {
    hide Ring, Complete, Unique, Counted, Agrees;
    var r := c.buf[b].(locked := true);
    c' := if r.valid then c.(buf := c.buf[b := r])
          else c.(buf := c.buf[b := r.(valid := true, data := c.disk[r.blockno])], slot := c.slot[r.blockno := b]);
  }

  lemma LatestIn(c: CacheState, b: int, bn: int)
    requires CacheOk(c) && Holding(c, b, bn)
    ensures 0 <= bn < |c.view| && c.buf[b].data == c.view[bn]
  {
    hide Ring, Complete, Unique, Counted;
  }

  /** A reader that nobody comes between can read any block at any moment of a commit, unless bget() has no buffer for
      it or somebody has its lock: it gets the latest contents, and leaves disk, contents and commit as they were. */
  lemma ReaderReads(j: Job, s: State, bn: int) returns (b: int, s1: State, s2: State, s3: State, s4: State)
    requires Inv(j, s) && 0 <= bn < |s.c.disk| && !NoBuffers(s.c.buf, ROOTDEV, bn)
    requires forall x {:trigger Names(s.c.buf, x, ROOTDEV, bn)} :: Names(s.c.buf, x, ROOTDEV, bn) ==> !s.c.buf[x].locked
    ensures ReaderDoes(s, s1, b, bn) && ReaderDoes(s1, s2, b, bn) && ReaderDoes(s2, s3, b, bn) && ReaderDoes(s3, s4, b, bn)
    ensures Holding(s2.c, b, bn) && bn < |s2.c.view| && s2.c.buf[b].data == s2.c.view[bn]
    ensures s2.c.view == s.c.view
    ensures s4 == s.(c := s4.c) && s4.c.disk == s.c.disk && s4.c.view == s.c.view && s4.c.pins == s.c.pins
  {
    hide Inv, CacheOk, Looks, Enters, Derefs, NoBuffers;
    CoreCache(j, s);
    GripOk(j, s);
    var c1;
    c1, b := CanLook(s.c, bn);
    s1 := s.(c := c1);
    LookedFacts(s.c, c1, bn, b, Locks(s.pc), Ref(s.pc));
    ReaderKeeps(j, s, s1, b, bn);
    CoreCache(j, s1);
    var c2 := EnterHere(c1, b);
    s2 := s.(c := c2);
    ReaderKeeps(j, s1, s2, b, bn);
    CoreCache(j, s2);
    LatestIn(c2, b, bn);
    s3 := s.(c := c2.(buf := c2.buf[b := c2.buf[b].(locked := false)]));
    assert Unlocks(c2, s3.c, b);
    ReaderKeeps(j, s2, s3, b, bn);
    CoreCache(j, s3);
    var c4 := CanDeref(s3.c, b);
    s4 := s.(c := c4);
  }

  // ---- Runs ----

  ghost predicate IsRun(j: Job, states: seq<State>) {
    states != [] && Start(j, states[0]) && forall i :: 0 <= i < |states| - 1 ==> Step(j, states[i], states[i + 1])
  }

  lemma StartInv(j: Job, s: State)
    requires Start(j, s)
    ensures Inv(j, s)
  {
    hide Ring, Complete, Unique, Counted, Agrees;
  }

  lemma StepKeepsInv(j: Job, s: State, s': State)
    requires Inv(j, s) && Step(j, s, s')
    ensures Inv(j, s')
  {
    hide Inv, CommitDoes, ReaderDoes;
    if CommitDoes(j, s, s') {
      CommitKeeps(j, s, s');
    } else {
      var b, bn :| ReaderDoes(s, s', b, bn);
      ReaderKeeps(j, s, s', b, bn);
    }
  }

  lemma {:induction false} RunKeepsInv(j: Job, states: seq<State>, i: nat)
    requires IsRun(j, states) && i < |states|
    ensures Inv(j, states[i])
  {
    hide Inv, Step, Start;
    if i == 0 {
      StartInv(j, states[0]);
    } else {
      RunKeepsInv(j, states, i - 1);
      assert Step(j, states[i - 1], states[i]);
      StepKeepsInv(j, states[i - 1], states[i]);
    }
  }

  /** However readers come between its critical sections, commit() writes its plan in order, so a crash at any
      moment, followed by any interrupted recoveries, ends with the home blocks all new or all old. */
  lemma CommitAmongReaders(j: Job, states: seq<State>, i: nat, stops: seq<nat>)
    requires IsRun(j, states) && i < |states|
    ensures var s := states[i];
      && JobOk(j) && Disked(s) <= |Plan(j)| && s.c.disk == After(j.disk0, Plan(j), Disked(s)) && WellFormed(j.lay, s.c.disk)
      && forall bn {:trigger Recovered(j.lay, s.c.disk, stops)[bn]} :: 0 <= bn < |j.disk0| && !j.lay.InLog(bn) ==>
           Recovered(j.lay, s.c.disk, stops)[bn] == if Disked(s) > |j.lh| then j.view0[bn] else j.disk0[bn]
  {
    RunKeepsInv(j, states, i);
    var s := states[i];
    hide IsRun, CacheOk, PcOk, WellFormed, Loggable, After;
    CommitIsAtomic(j.lay, j.disk0, j.lh, j.view0, j.view0[j.lay.start], Disked(s), stops);
  }

  /** All the while a reader finds in a valid buffer of a home block the latest contents of that block. */
  lemma ReadersSeeLatest(j: Job, states: seq<State>, i: nat, b: int)
    requires IsRun(j, states) && i < |states| && 0 <= b < NBUF && b < |states[i].c.buf|
    ensures var x := states[i].c.buf[b];
      x.valid ==> 0 <= x.blockno < |j.view0| && (!j.lay.InLog(x.blockno) ==> x.data == j.view0[x.blockno])
  {
    RunKeepsInv(j, states, i);
    var s := states[i];
    hide IsRun, Ring, Complete, Unique, Counted, PcOk, After, EncodeHeader;
    if s.c.buf[b].valid {
      CommittingBlocks(j.lay, j.view0, j.lh, j.view0, j.view0[j.lay.start], Viewed(s), s.c.buf[b].blockno);
    }
  }

  /** The pinned buffers are at every moment those of the blocks not installed yet, once each. */
  lemma PinsAreExact(j: Job, states: seq<State>, i: nat, b: int)
    requires IsRun(j, states) && i < |states| && 0 <= b < NBUF
    ensures var s := states[i];
      && |s.c.pins| == NBUF && |s.home| == |j.lh| && Unpins(j, s) <= |j.lh| && s.c.pins[b] == (if b in s.home[Unpins(j, s)..] then 1 else 0)
      && forall t :: Unpins(j, s) <= t < |j.lh| ==> Names(s.c.buf, s.home[t], ROOTDEV, j.lh[t])
  {
    RunKeepsInv(j, states, i);
    var s := states[i];
    hide IsRun, CacheOk, JobOk, PcOk, After, Plan;
    forall t | Unpins(j, s) <= t < |j.lh|
      ensures Log.PinnedOnce(s.c.buf, s.c.pins, j.lh[t], s.home[t])
    {
    }
  }

  /** When the last write is done every home block is on the disk, the log is erased and no pin is left. */
  lemma CommitFinishes(j: Job, states: seq<State>, i: nat)
    requires IsRun(j, states) && i < |states| && states[i].k == 2 * |j.lh| + 2
    ensures var s := states[i];
      && |s.c.disk| == |j.disk0| == |j.view0| && WellFormed(j.lay, s.c.disk) && Header(j.lay, s.c.disk) == []
      && (forall bn {:trigger s.c.disk[bn]} :: 0 <= bn < |j.disk0| && !j.lay.InLog(bn) ==> s.c.disk[bn] == j.view0[bn])
      && forall b {:trigger s.c.pins[b]} :: 0 <= b < |s.c.pins| ==> s.c.pins[b] == 0
  {
    RunKeepsInv(j, states, i);
    var s := states[i];
    hide IsRun, CacheOk, WellFormed, Header, Loggable, After;
    CommitPrefix(j.lay, j.disk0, j.lh, j.view0, j.view0[j.lay.start], s.k);
  }
}
