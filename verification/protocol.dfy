/** Group commit (begin_op, log_write, end_op, commit) as a state machine: any number of callers,
    any interleaving, one disk write per step, and a crash possible in every state. */
module LogProtocol {
  import opened Disk
  import opened RedoLog
  import Counting

  /** One log_write: operation `op` gave block `bn` the contents `data`. */
  datatype Event = Event(op: nat, bn: int, data: Block)

  /** An operation between its begin_op and its end_op, with the blocks it has logged. */
  datatype Operation = Operation(op: nat, blocks: set<int>)

  /** Committing: commit() was entered with `before` on disk and `src` in the cache, and has made k writes. */
  datatype Phase = Idle | Committing(k: nat, before: seq<Block>, src: seq<Block>)

  /** `disk` and `cache` are the device and what bread() returns; `lh` is the in-memory header;
      `active` are the outstanding operations.  The rest is history: the groups committed since
      `init`, the group still open, and the group each operation belongs to. */
  datatype State = State(
    lay: Layout, disk: seq<Block>, cache: seq<Block>, lh: seq<int>, active: seq<Operation>, phase: Phase,
    init: seq<Block>, groups: seq<seq<Event>>, open: seq<Event>, groupOf: map<nat, nat>)

  datatype Step =
    | BeginOp(op: nat)
    | LogWrite(i: nat, bn: int, data: Block)
    | EndOp(i: nat)
    | WriteBlock
    | FinishCommit
    | Crash(stops: seq<nat>)

  // ---- Pieces of the code ----

  /** begin_op() lets the caller in. */
  predicate Admits(n: nat, outstanding: nat) {
    n + (outstanding + 1) * MAXOPBLOCKS <= LOGSIZE
  }

  /** log_write()'s two size checks; either one panics, absorbed or not. */
  predicate TooBig(n: nat, size: nat) {
    n >= LOGSIZE || n >= size - 1
  }

  /** log_write()'s loop: absorb into an existing entry, else append. */
  function Absorb(lh: seq<int>, bn: int): (r: seq<int>) {
    if IndexOf(lh, bn) >= 0 then lh else lh + [bn]
  }

  /** The number of disk writes of commit(): none when nothing was logged. */
  function CommitLength(lh: seq<int>): nat {
    if lh == [] then 0 else 2 * |lh| + 2
  }

  // ---- The history ----

  /** Home contents after the first k events of a group. */
  function Replay(home: seq<Block>, g: seq<Event>, k: nat): (r: seq<Block>)
    requires k <= |g|
    ensures |r| == |home|
    decreases k
  {
    if k == 0 then home else Put(Replay(home, g, k - 1), Write(g[k - 1].bn, g[k - 1].data))
  }

  /** Home contents after the first j groups. */
  function Committed(init: seq<Block>, groups: seq<seq<Event>>, j: nat): (r: seq<Block>)
    requires j <= |groups|
    ensures |r| == |init|
    decreases j
  {
    if j == 0 then init else Replay(Committed(init, groups, j - 1), groups[j - 1], |groups[j - 1]|)
  }

  lemma {:induction false} ReplayExtend(home: seq<Block>, g: seq<Event>, e: Event, k: nat)
    requires k <= |g|
    ensures Replay(home, g + [e], k) == Replay(home, g, k)
  {
    if k > 0 {
      ReplayExtend(home, g, e, k - 1);
    }
  }

  lemma {:induction false} CommittedPrefix(init: seq<Block>, groups: seq<seq<Event>>, more: seq<seq<Event>>, j: nat)
    requires j <= |groups|
    ensures Committed(init, groups + more, j) == Committed(init, groups, j)
  {
    if j > 0 {
      CommittedPrefix(init, groups, more, j - 1);
      assert (groups + more)[j - 1] == groups[j - 1];
    }
  }

  // ---- Steps ----

  /** When a step can be taken.  log_write asks to be called inside an operation, on a block outside the
      log; where its size checks fail it panics, and a machine that has panicked takes no step but a crash.
      WriteBlock and Crash need a loggable header and a readable log; NeverUnreadable shows that
      every reachable state has them. */
  ghost predicate Enabled(s: State, step: Step) {
    match step
    case BeginOp(op) => s.phase.Idle? && Admits(|s.lh|, |s.active|) && op !in s.groupOf
    case LogWrite(i, bn, data) =>
      i < |s.active| && !TooBig(|s.lh|, s.lay.size) && 0 <= bn < |s.cache| && !s.lay.InLog(bn)
    case EndOp(i) => i < |s.active|
    case WriteBlock =>
      && s.phase.Committing? && s.phase.k < CommitLength(s.lh)
      && Loggable(s.lay, |s.phase.src|, s.lh) && s.lay.start < |s.phase.src|
    case FinishCommit => s.phase.Committing? && s.phase.k == CommitLength(s.lh)
    case Crash(_) => WellFormed(s.lay, s.disk)
  }

  ghost function Do(s: State, step: Step): State
    requires Enabled(s, step)
  {
    match step
    case BeginOp(op) =>
      s.(active := s.active + [Operation(op, {})], groupOf := s.groupOf[op := |s.groups|])
    case LogWrite(i, bn, data) =>
      s.(cache := s.cache[bn := data],
         lh := Absorb(s.lh, bn),
         active := s.active[i := s.active[i].(blocks := s.active[i].blocks + {bn})],
         open := s.open + [Event(s.active[i].op, bn, data)])
    case EndOp(i) =>
      var active := s.active[..i] + s.active[i + 1..];
      if active == [] then
        s.(active := active, phase := Committing(0, s.disk, s.cache), groups := s.groups + [s.open], open := [])
      else
        s.(active := active)
    case WriteBlock =>
      var w := CommitWrite(s.lay, s.lh, s.phase.src, s.phase.src[s.lay.start], s.phase.k);
      s.(disk := Put(s.disk, w), cache := Put(s.cache, w), phase := s.phase.(k := s.phase.k + 1))
    case FinishCommit =>
      s.(lh := [], phase := Idle)
    case Crash(stops) =>
      var d := Recovered(s.lay, s.disk, stops);
      s.(disk := d, cache := d, lh := [], active := [], phase := Idle,
         groups := s.groups[..Durable(s)], open := [])
  }

  /** How many groups a crash in this state keeps. */
  function Durable(s: State): nat {
    if s.phase.Committing? && s.groups != [] && s.phase.k <= |s.lh| && s.lh != [] then |s.groups| - 1 else |s.groups|
  }

  // ---- The invariant ----

  predicate Shape(s: State) {
    && s.lay.Fits(|s.disk|) && |s.cache| == |s.disk| == |s.init|
    && Loggable(s.lay, |s.disk|, s.lh)
  }

  /** Every event of a group comes from an operation of that group. */
  predicate Ownership(s: State) {
    && (forall g, k :: 0 <= g < |s.groups| && 0 <= k < |s.groups[g]| ==>
          s.groups[g][k].op in s.groupOf && s.groupOf[s.groups[g][k].op] == g)
    && (forall k :: 0 <= k < |s.open| ==> s.open[k].op in s.groupOf && s.groupOf[s.open[k].op] == |s.groups|)
    && (forall i :: 0 <= i < |s.active| ==> s.active[i].op in s.groupOf && s.groupOf[s.active[i].op] == |s.groups|)
  }

  predicate SameHome(lay: Layout, d: seq<Block>, e: seq<Block>) {
    |d| == |e| && forall bn {:trigger d[bn]} {:trigger e[bn]} :: 0 <= bn < |d| && !lay.InLog(bn) ==> d[bn] == e[bn]
  }

  /** No commit is running: the disk holds the committed groups, the cache the open group on top. */
  ghost predicate IdleInv(s: State)
    requires Shape(s)
  {
    && ReadyToCommit(s.lay, s.disk, s.lh, s.cache)
    && SameHome(s.lay, s.disk, Committed(s.init, s.groups, |s.groups|))
    && SameHome(s.lay, s.cache, Replay(Committed(s.init, s.groups, |s.groups|), s.open, |s.open|))
  }

  /** A commit is running: it began from the previous groups and its cache holds the last one. */
  ghost predicate CommitInv(s: State)
    requires Shape(s) && s.phase.Committing?
  {
    && s.active == [] && s.open == [] && s.groups != []
    && s.phase.k <= CommitLength(s.lh)
    && ReadyToCommit(s.lay, s.phase.before, s.lh, s.phase.src)
    && |s.phase.before| == |s.disk|
    && s.disk == After(s.phase.before, CommitWrites(s.lay, s.lh, s.phase.src, s.phase.src[s.lay.start]), s.phase.k)
    && SameHome(s.lay, s.phase.before, Committed(s.init, s.groups, |s.groups| - 1))
    && SameHome(s.lay, s.phase.src, Committed(s.init, s.groups, |s.groups|))
    && SameHome(s.lay, s.cache, s.phase.src)
  }

  ghost predicate Inv(s: State) {
    && Shape(s) && Ownership(s)
    && (s.phase.Idle? ==> IdleInv(s))
    && (s.phase.Committing? ==> CommitInv(s))
  }

  // ---- Every step keeps the invariant ----

  /** Whatever the state, a restart finds a log it can read, and the logical contents of the home
      blocks are those of a prefix of the groups. */
  lemma DiskReadable(s: State)
    requires Inv(s)
    ensures WellFormed(s.lay, s.disk)
    ensures forall bn {:trigger Logical(s.lay, s.disk, bn)} :: 0 <= bn < |s.disk| && !s.lay.InLog(bn) ==>
      Logical(s.lay, s.disk, bn) == Committed(s.init, s.groups, Durable(s))[bn]
  {
    hide Ownership, Committed, EncodeHeader;
    if s.phase.Committing? && s.lh != [] {
      hide After;
      CommitPrefix(s.lay, s.phase.before, s.lh, s.phase.src, s.phase.src[s.lay.start], s.phase.k);
    } else if s.phase.Committing? {
      forall bn | 0 <= bn < |s.disk| && !s.lay.InLog(bn)
        ensures s.phase.src[bn] == s.phase.before[bn]
      {
        assert IndexOf(s.lh, bn) < 0;
      }
    }
  }

  lemma BeginOpKeepsInv(s: State, op: nat)
    requires Inv(s) && Enabled(s, BeginOp(op))
    ensures Inv(Do(s, BeginOp(op)))
  {
    hide Committed, Replay, ReadyToCommit, SameHome, Loggable;
  }

  // ---- log_write ----

  lemma AbsorbLoggable(lay: Layout, blocks: nat, lh: seq<int>, bn: int)
    requires Loggable(lay, blocks, lh) && !TooBig(|lh|, lay.size) && 0 <= bn < blocks && !lay.InLog(bn)
    ensures Loggable(lay, blocks, Absorb(lh, bn))
    ensures bn in Absorb(lh, bn) && |lh| <= |Absorb(lh, bn)| <= |lh| + 1
  {
    var i := IndexOf(lh, bn);
    if i >= 0 {
      assert lh[i] == bn;
    } else {
      assert (lh + [bn])[|lh|] == bn;
    }
  }

  lemma IndexOfAppend(lh: seq<int>, b: int, bn: int)
    requires IndexOf(lh + [b], bn) < 0
    ensures IndexOf(lh, bn) < 0 && bn != b
  {
    assert (lh + [b])[|lh|] == b;
    assert forall k :: 0 <= k < |lh| ==> lh[k] == (lh + [b])[k];
  }

  /** The cache still differs from the disk only in logged blocks. */
  lemma LogWriteReady(lay: Layout, d: seq<Block>, lh: seq<int>, src: seq<Block>, bn: int, data: Block)
    requires ReadyToCommit(lay, d, lh, src) && !TooBig(|lh|, lay.size) && 0 <= bn < |d| && !lay.InLog(bn)
    ensures ReadyToCommit(lay, d, Absorb(lh, bn), src[bn := data])
  {
    hide WellFormed;
    AbsorbLoggable(lay, |d|, lh, bn);
    var lh' := Absorb(lh, bn);
    forall b | 0 <= b < |d| && !lay.InLog(b) && IndexOf(lh', b) < 0
      ensures src[bn := data][b] == d[b]
    {
      if lh' != lh {
        IndexOfAppend(lh, bn, b);
      } else {
        assert bn in lh;
      }
    }
  }

  lemma LogWriteKeepsOwnership(s: State, i: nat, bn: int, data: Block)
    requires Inv(s) && Enabled(s, LogWrite(i, bn, data))
    ensures Ownership(Do(s, LogWrite(i, bn, data)))
  {
    hide Shape, IdleInv, CommitInv;
  }

  lemma LogWriteKeepsInv(s: State, i: nat, bn: int, data: Block)
    requires Inv(s) && Enabled(s, LogWrite(i, bn, data))
    ensures Inv(Do(s, LogWrite(i, bn, data)))
  {
    LogWriteKeepsOwnership(s, i, bn, data);
    hide Ownership, Committed, ReadyToCommit, Absorb;
    LogWriteReady(s.lay, s.disk, s.lh, s.cache, bn, data);
    AbsorbLoggable(s.lay, |s.disk|, s.lh, bn);
    ReplayExtend(Committed(s.init, s.groups, |s.groups|), s.open, Event(s.active[i].op, bn, data), |s.open|);
  }

  // ---- end_op and commit ----

  /** end_op() never finds `committing` set. */
  lemma EndOpNeverSeesCommitting(s: State, i: nat)
    requires Inv(s) && Enabled(s, EndOp(i))
    ensures s.phase.Idle?
  {
  }

  lemma EndOpKeepsOwnership(s: State, i: nat)
    requires Inv(s) && Enabled(s, EndOp(i))
    ensures Ownership(Do(s, EndOp(i)))
  {
    hide Shape, IdleInv, CommitInv;
    var active := s.active[..i] + s.active[i + 1..];
    assert forall k :: 0 <= k < |active| ==> active[k] in s.active;
  }

  lemma EndOpKeepsInv(s: State, i: nat)
    requires Inv(s) && Enabled(s, EndOp(i))
    ensures Inv(Do(s, EndOp(i)))
  {
    EndOpKeepsOwnership(s, i);
    hide Ownership, ReadyToCommit, Loggable;
    var t := Do(s, EndOp(i));
    if t.phase.Committing? {
      CommittedPrefix(s.init, s.groups, [s.open], |s.groups|);
      assert t.groups[|s.groups|] == s.open;
    }
  }

  lemma WriteBlockKeepsInv(s: State)
    requires Inv(s) && Enabled(s, WriteBlock)
    ensures Inv(Do(s, WriteBlock))
  {
    hide EncodeHeader, Committed, WellFormed, IndexOf;
    var p := s.phase;
    var ws := CommitWrites(s.lay, s.lh, p.src, p.src[s.lay.start]);
    assert ws[p.k] == CommitWrite(s.lay, s.lh, p.src, p.src[s.lay.start], p.k);
  }

  /** When commit() returns, the disk and the cache agree and the log is erased. */
  lemma CommitDone(s: State)
    requires Inv(s) && Enabled(s, FinishCommit)
    ensures WellFormed(s.lay, s.disk) && Header(s.lay, s.disk) == []
    ensures SameHome(s.lay, s.disk, s.phase.src)
  {
    hide Ownership, EncodeHeader, Committed;
    var p := s.phase;
    if s.lh != [] {
      hide After;
      CommitPrefix(s.lay, p.before, s.lh, p.src, p.src[s.lay.start], p.k);
    } else {
      forall bn | 0 <= bn < |s.disk| && !s.lay.InLog(bn)
        ensures p.src[bn] == s.disk[bn]
      {
        assert IndexOf(s.lh, bn) < 0;
      }
    }
  }

  lemma FinishCommitKeepsInv(s: State)
    requires Inv(s) && Enabled(s, FinishCommit)
    ensures Inv(Do(s, FinishCommit))
  {
    CommitDone(s);
    hide Ownership, EncodeHeader, Committed, After, WellFormed, IndexOf;
    var t := Do(s, FinishCommit);
    assert SameHome(t.lay, t.cache, t.disk);
    assert Replay(Committed(t.init, t.groups, |t.groups|), t.open, |t.open|) == Committed(t.init, t.groups, |t.groups|);
  }

  // ---- Crashes ----

  /** Crash anywhere, interrupt any number of recoveries anywhere: the first recovery that finishes
      leaves on the home blocks exactly the first Durable(s) groups, and an empty log. */
  lemma CrashSafety(s: State, stops: seq<nat>)
    requires Inv(s)
    ensures WellFormed(s.lay, s.disk)
    ensures var d := Recovered(s.lay, s.disk, stops);
      && WellFormed(s.lay, d) && Header(s.lay, d) == []
      && SameHome(s.lay, d, Committed(s.init, s.groups, Durable(s)))
    ensures |s.groups| - 1 <= Durable(s) <= |s.groups|
    ensures s.phase.Idle? ==> Durable(s) == |s.groups|
  {
    hide Ownership, IdleInv, CommitInv, Committed;
    DiskReadable(s);
    hide WellFormed;
    RecoveryCompletes(s.lay, s.disk, stops);
    var d := Recovered(s.lay, s.disk, stops);
    forall bn | 0 <= bn < |d| && !s.lay.InLog(bn)
      ensures d[bn] == Committed(s.init, s.groups, Durable(s))[bn]
    {
      assert d[bn] == Logical(s.lay, s.disk, bn);
    }
  }

  lemma CrashKeepsInv(s: State, stops: seq<nat>)
    requires Inv(s) && Enabled(s, Crash(stops))
    ensures Inv(Do(s, Crash(stops)))
  {
    var n := Durable(s);
    CrashSafety(s, stops);
    CommittedPrefix(s.init, s.groups[..n], s.groups[n..], n);
    assert s.groups[..n] + s.groups[n..] == s.groups;
    hide IdleInv, CommitInv, Committed, Durable;
    CrashKeepsHistory(s, stops);
    assert IdleInv(Do(s, Crash(stops))) by {
      var t := Do(s, Crash(stops));
      assert t.groups == s.groups[..n];
      assert ReadyToCommit(t.lay, t.disk, t.lh, t.cache);
    }
  }

  lemma CrashKeepsHistory(s: State, stops: seq<nat>)
    requires Inv(s) && Enabled(s, Crash(stops))
    ensures Ownership(Do(s, Crash(stops)))
  {
    hide Shape, IdleInv, CommitInv;
  }

  // ---- Runs ----

  /** A machine that has just recovered: empty log, cold cache, no history. */
  ghost predicate Boot(s: State) {
    && WellFormed(s.lay, s.disk) && Header(s.lay, s.disk) == []
    && s.cache == s.disk == s.init
    && s.lh == [] && s.active == [] && s.phase == Idle && s.groups == [] && s.open == [] && s.groupOf == map[]
  }

  /** states[0], states[1], ... is what the steps lead to from a booted machine. */
  ghost predicate IsRun(states: seq<State>, steps: seq<Step>) {
    && |states| == |steps| + 1 && Boot(states[0])
    && forall i :: 0 <= i < |steps| ==> Enabled(states[i], steps[i]) && states[i + 1] == Do(states[i], steps[i])
  }

  lemma StepKeepsInv(s: State, step: Step)
    requires Inv(s) && Enabled(s, step)
    ensures Inv(Do(s, step))
  {
    match step {
      case BeginOp(op) => BeginOpKeepsInv(s, op);
      case LogWrite(i, bn, data) => LogWriteKeepsInv(s, i, bn, data);
      case EndOp(i) => EndOpKeepsInv(s, i);
      case WriteBlock => WriteBlockKeepsInv(s);
      case FinishCommit => FinishCommitKeepsInv(s);
      case Crash(stops) => CrashKeepsInv(s, stops);
    }
  }

  lemma {:induction false} RunKeepsInv(states: seq<State>, steps: seq<Step>, i: nat)
    requires IsRun(states, steps) && i < |states|
    ensures Inv(states[i])
    decreases i
  {
    hide Inv, Enabled, Do;
    if i == 0 {
      BootInv(states[0]);
    } else {
      RunKeepsInv(states, steps, i - 1);
      StepKeepsInv(states[i - 1], steps[i - 1]);
    }
  }

  lemma BootInv(s: State)
    requires Boot(s)
    ensures Inv(s)
  {
  }

  /** In every reachable state a restart can read the log, and a running commit can go on. */
  lemma NeverUnreadable(states: seq<State>, steps: seq<Step>, i: nat, stops: seq<nat>)
    requires IsRun(states, steps) && i < |states|
    ensures Enabled(states[i], Crash(stops))
    ensures states[i].phase.Committing? ==> Enabled(states[i], WriteBlock) || Enabled(states[i], FinishCommit)
  {
    RunKeepsInv(states, steps, i);
    hide IsRun;
    DiskReadable(states[i]);
  }

  /** Main safety theorem: crash in any reachable state and recover, however often interrupted;
      the home blocks are the state after a prefix of the commit groups, missing at most the group
      being committed, and missing none when no commit is running. */
  lemma RecoveredDiskIsGroupPrefix(states: seq<State>, steps: seq<Step>, i: nat, stops: seq<nat>)
    requires IsRun(states, steps) && i < |states|
    ensures var s := states[i];
      && WellFormed(s.lay, s.disk)
      && |s.groups| - 1 <= Durable(s) <= |s.groups|
      && (s.phase.Idle? ==> Durable(s) == |s.groups|)
      && SameHome(s.lay, Recovered(s.lay, s.disk, stops), Committed(s.init, s.groups, Durable(s)))
  {
    RunKeepsInv(states, steps, i);
    hide IsRun, Inv;
    CrashSafety(states[i], stops);
  }

  /** All writes of one operation lie in one group, the one it belongs to, so a crash keeps all of
      them or none. */
  lemma OperationsAreNotSplit(states: seq<State>, steps: seq<Step>, i: nat, op: nat, g: nat, k: nat, h: nat, l: nat)
    requires IsRun(states, steps) && i < |states|
    requires var gs := states[i].groups + [states[i].open];
      && g < |gs| && k < |gs[g]| && h < |gs| && l < |gs[h]|
      && gs[g][k].op == gs[h][l].op == op
    ensures g == h
  {
    RunKeepsInv(states, steps, i);
    hide IsRun, Shape, IdleInv, CommitInv;
  }

  /** Between commits, what bread() returns is the committed groups with the open group on top. */
  lemma CacheIsLatest(states: seq<State>, steps: seq<Step>, i: nat)
    requires IsRun(states, steps) && i < |states|
    ensures var s := states[i];
      SameHome(s.lay, s.cache, Replay(Committed(s.init, s.groups, |s.groups|), s.open, |s.open|))
  {
    RunKeepsInv(states, steps, i);
    hide IsRun, Committed;
  }

  // ---- What was written ----

  /** None of the steps from a up to b is a log_write of block bn, or a crash. */
  predicate LeavesAlone(steps: seq<Step>, a: nat, b: nat, bn: int)
    requires b <= |steps|
  {
    forall i {:trigger steps[i]} :: a <= i < b ==> !steps[i].Crash? && !(steps[i].LogWrite? && steps[i].bn == bn)
  }

  lemma StepLeavesBlock(s: State, step: Step, bn: int)
    requires Inv(s) && Enabled(s, step) && !step.Crash? && !(step.LogWrite? && step.bn == bn)
    requires 0 <= bn < |s.cache| && !s.lay.InLog(bn)
    ensures var t := Do(s, step); |t.cache| == |s.cache| && t.lay == s.lay && t.cache[bn] == s.cache[bn]
  {
    StepKeepsInv(s, step);
    if step.WriteBlock? {
      hide Ownership, ReadyToCommit, After, Committed;
    }
  }

  lemma {:induction false} StaysWritten(states: seq<State>, steps: seq<Step>, a: nat, b: nat, bn: int)
    requires IsRun(states, steps) && a <= b <= |steps| && LeavesAlone(steps, a, b, bn)
    requires 0 <= bn < |states[a].cache| && !states[a].lay.InLog(bn)
    ensures |states[b].cache| == |states[a].cache| && states[b].lay == states[a].lay && states[b].cache[bn] == states[a].cache[bn]
    decreases b - a
  {
    hide Inv, Enabled, Do, Boot;
    if a < b {
      StaysWritten(states, steps, a, b - 1, bn);
      RunKeepsInv(states, steps, b - 1);
      assert Enabled(states[b - 1], steps[b - 1]) && states[b] == Do(states[b - 1], steps[b - 1]);
      StepLeavesBlock(states[b - 1], steps[b - 1], bn);
    }
  }

  /** What log_write() was given is what bread() returns, until the block is logged again or the machine crashes; and
      once its group has been committed, a crash does not matter: recovery leaves it on the disk. */
  lemma WrittenIsKept(states: seq<State>, steps: seq<Step>, a: nat, b: nat, stops: seq<nat>)
    requires IsRun(states, steps) && a < b <= |steps| && steps[a].LogWrite? && LeavesAlone(steps, a + 1, b, steps[a].bn)
    ensures var s, bn := states[b], steps[a].bn; 0 <= bn < |s.cache| && s.cache[bn] == steps[a].data
    ensures var s, bn := states[b], steps[a].bn;
      s.phase.Idle? && s.lh == [] ==>
        WellFormed(s.lay, s.disk) && bn < |s.disk| && s.disk[bn] == Recovered(s.lay, s.disk, stops)[bn] == steps[a].data
  {
    assert Enabled(states[a], steps[a]) && states[a + 1] == Do(states[a], steps[a]);
    var s, bn := states[b], steps[a].bn;
    RunKeepsInv(states, steps, a);
    StaysWritten(states, steps, a + 1, b, bn);
    RunKeepsInv(states, steps, b);
    if s.phase.Idle? && s.lh == [] {
      DiskReadable(s);
      RecoveryCompletes(s.lay, s.disk, stops);
      assert IndexOf(s.lh, bn) < 0;
    }
  }

  // ---- Admission ----

  function Flat(lists: seq<seq<int>>): seq<int> {
    if lists == [] then [] else Flat(lists[..|lists| - 1]) + lists[|lists| - 1]
  }

  /** What `ops` operations might log at worst: ten blocks each, all of them different and none logged before. */
  ghost predicate WorstCase(lh: seq<int>, ops: nat, news: seq<seq<int>>) {
    && |news| == ops && (forall k {:trigger news[k]} :: 0 <= k < ops ==> |news[k]| == MAXOPBLOCKS)
    && Counting.AllDifferent(Flat(news)) && forall k {:trigger Flat(news)[k]} :: 0 <= k < |Flat(news)| ==> Flat(news)[k] !in lh
  }

  /** Whatever `ops` operations log within their budgets, the header can hold it. */
  ghost predicate WorstCaseFits(lh: seq<int>, ops: nat) {
    forall news {:trigger WorstCase(lh, ops, news)} :: WorstCase(lh, ops, news) ==> |lh + Flat(news)| <= LOGSIZE
  }

  lemma {:induction false} FlatLength(lists: seq<seq<int>>)
    requires forall k {:trigger lists[k]} :: 0 <= k < |lists| ==> |lists[k]| == MAXOPBLOCKS
    ensures |Flat(lists)| == |lists| * MAXOPBLOCKS
    decreases |lists|
  {
    if lists != [] {
      FlatLength(lists[..|lists| - 1]);
    }
  }

  /** There is such a list of blocks: numbers above all that are logged. */
  lemma {:induction false} WorstCaseExists(lh: seq<int>, ops: nat, above: int) returns (news: seq<seq<int>>)
    requires forall k :: 0 <= k < |lh| ==> lh[k] < above
    ensures WorstCase(lh, ops, news)
    ensures forall k :: 0 <= k < |Flat(news)| ==> above <= Flat(news)[k] < above + ops * MAXOPBLOCKS
  {
    if ops == 0 {
      news := [];
    } else {
      var rest := WorstCaseExists(lh, ops - 1, above);
      var next := seq(MAXOPBLOCKS, j requires 0 <= j => above + (ops - 1) * MAXOPBLOCKS + j);
      news := rest + [next];
      assert news[..ops - 1] == rest;
      assert forall k :: 0 <= k < |Flat(news)| ==> above <= Flat(news)[k];
    }
  }

  lemma {:induction false} Above(lh: seq<int>) returns (above: int)
    ensures forall k :: 0 <= k < |lh| ==> lh[k] < above
  {
    if lh == [] {
      above := 0;
    } else {
      above := Above(lh[1..]);
      above := if lh[0] < above then above else lh[0] + 1;
      assert forall k :: 1 <= k < |lh| ==> lh[k] == lh[1..][k - 1];
    }
  }

  /** begin_op()'s test is right about the worst case of the operations that are in and the caller. */
  lemma AdmitsExactly(lh: seq<int>, outstanding: nat)
    ensures Admits(|lh|, outstanding) <==> WorstCaseFits(lh, outstanding + 1)
  {
    forall news | WorstCase(lh, outstanding + 1, news)
      ensures |lh + Flat(news)| == |lh| + (outstanding + 1) * MAXOPBLOCKS
    {
      FlatLength(news);
    }
    var above := Above(lh);
    var news := WorstCaseExists(lh, outstanding + 1, above);
  }

  /** While no commit runs, a caller of begin_op() is refused exactly when operations that keep their budgets, those
      that are in and the caller, could log more than the header holds. */
  lemma RefusedExactly(s: State, op: nat)
    requires s.phase.Idle? && op !in s.groupOf
    ensures !Enabled(s, BeginOp(op)) <==>
      exists news {:trigger WorstCase(s.lh, |s.active| + 1, news)} ::
        WorstCase(s.lh, |s.active| + 1, news) && |s.lh + Flat(news)| > LOGSIZE
  {
    AdmitsExactly(s.lh, |s.active|);
  }

  // ---- Budgets ----

  /** What an operation may log: blocks it has logged before, and up to MAXOPBLOCKS different ones. */
  predicate WithinBudget(s: State, i: nat, bn: int) {
    i < |s.active| && (bn in s.active[i].blocks || |s.active[i].blocks| < MAXOPBLOCKS)
  }

  /** The different blocks the outstanding operations may still log. */
  function Unspent(active: seq<Operation>): int {
    if active == [] then 0
    else Unspent(active[..|active| - 1]) + MAXOPBLOCKS - |active[|active| - 1].blocks|
  }

  /** The header holds what the operations have logged, and has room for everything they may still log. */
  predicate Budget(s: State) {
    && (forall i {:trigger s.active[i]} :: 0 <= i < |s.active| ==>
        |s.active[i].blocks| <= MAXOPBLOCKS && forall bn :: bn in s.active[i].blocks ==> bn in s.lh)
    && |s.lh| + Unspent(s.active) <= LOGSIZE
  }

  lemma {:induction false} UnspentUpdate(active: seq<Operation>, i: nat, o: Operation)
    requires i < |active|
    ensures Unspent(active[i := o]) == Unspent(active) + |active[i].blocks| - |o.blocks|
    decreases |active|
  {
    var last := |active| - 1;
    if i < last {
      UnspentUpdate(active[..last], i, o);
      assert active[i := o][..last] == active[..last][i := o];
    } else {
      assert active[i := o][..last] == active[..last];
    }
  }

  lemma {:induction false} UnspentRemove(active: seq<Operation>, i: nat)
    requires i < |active|
    ensures Unspent(active[..i] + active[i + 1..]) == Unspent(active) - MAXOPBLOCKS + |active[i].blocks|
    decreases |active|
  {
    var last := |active| - 1;
    var rest := active[..i] + active[i + 1..];
    if i < last {
      UnspentRemove(active[..last], i);
      assert rest[..|rest| - 1] == active[..last][..i] + active[..last][i + 1..];
    } else {
      assert rest == active[..last];
    }
  }

  lemma {:induction false} UnspentBound(active: seq<Operation>)
    requires forall i {:trigger active[i]} :: 0 <= i < |active| ==> |active[i].blocks| <= MAXOPBLOCKS
    ensures 0 <= Unspent(active) <= |active| * MAXOPBLOCKS
    ensures forall i {:trigger active[i]} :: 0 <= i < |active| ==> MAXOPBLOCKS - |active[i].blocks| <= Unspent(active)
    decreases |active|
  {
    if active != [] {
      UnspentBound(active[..|active| - 1]);
      forall i | 0 <= i < |active|
        ensures MAXOPBLOCKS - |active[i].blocks| <= Unspent(active)
      {
        if i < |active| - 1 {
          assert active[..|active| - 1][i] == active[i];
        }
      }
    }
  }

  /** A run in which every operation keeps its budget. */
  ghost predicate IsBudgetedRun(states: seq<State>, steps: seq<Step>) {
    && IsRun(states, steps)
    && forall i {:trigger steps[i]} :: 0 <= i < |steps| && steps[i].LogWrite? ==> WithinBudget(states[i], steps[i].i, steps[i].bn)
  }

  lemma BeginOpKeepsBudget(s: State, op: nat)
    requires Budget(s) && Enabled(s, BeginOp(op))
    ensures Budget(Do(s, BeginOp(op)))
  {
    var t := Do(s, BeginOp(op));
    assert t.active[..|s.active|] == s.active;
    UnspentBound(s.active);
  }

  lemma LogWriteKeepsBudget(s: State, i: nat, bn: int, data: Block)
    requires Budget(s) && Enabled(s, LogWrite(i, bn, data)) && WithinBudget(s, i, bn)
    ensures Budget(Do(s, LogWrite(i, bn, data)))
  {
    var t, blocks := Do(s, LogWrite(i, bn, data)), s.active[i].blocks;
    UnspentUpdate(s.active, i, s.active[i].(blocks := blocks + {bn}));
    if bn in blocks {
      assert blocks + {bn} == blocks;
      var k := IndexOf(s.lh, bn);
    }
    forall k | 0 <= k < |t.active|
      ensures |t.active[k].blocks| <= MAXOPBLOCKS && forall x :: x in t.active[k].blocks ==> x in t.lh
    {
      var own := s.active[k];
      if IndexOf(s.lh, bn) < 0 {
        assert t.lh[|s.lh|] == bn;
      } else {
        assert s.lh[IndexOf(s.lh, bn)] == bn;
      }
    }
  }

  lemma EndOpKeepsBudget(s: State, i: nat)
    requires Budget(s) && Enabled(s, EndOp(i))
    ensures Budget(Do(s, EndOp(i)))
  {
    UnspentRemove(s.active, i);
    var own := s.active[i];
    var active := s.active[..i] + s.active[i + 1..];
    forall k | 0 <= k < |active|
      ensures |active[k].blocks| <= MAXOPBLOCKS && forall bn :: bn in active[k].blocks ==> bn in s.lh
    {
      assert active[k] == s.active[if k < i then k else k + 1];
    }
  }

  lemma StepKeepsBudget(s: State, step: Step)
    requires Budget(s) && Inv(s) && Enabled(s, step) && (step.LogWrite? ==> WithinBudget(s, step.i, step.bn))
    ensures Budget(Do(s, step))
  {
    match step {
      case BeginOp(op) => BeginOpKeepsBudget(s, op);
      case LogWrite(i, bn, data) => LogWriteKeepsBudget(s, i, bn, data);
      case EndOp(i) => EndOpKeepsBudget(s, i);
      case WriteBlock =>
      case FinishCommit => assert s.active == [];
      case Crash(stops) =>
    }
  }

  lemma {:induction false} BudgetOnRuns(states: seq<State>, steps: seq<Step>, i: nat)
    requires IsBudgetedRun(states, steps) && i < |states|
    ensures Budget(states[i])
    decreases i
  {
    hide Inv, Enabled, Do, WithinBudget;
    if i > 0 {
      hide Boot;
      BudgetOnRuns(states, steps, i - 1);
      RunKeepsInv(states, steps, i - 1);
      assert Enabled(states[i - 1], steps[i - 1]) && states[i] == Do(states[i - 1], steps[i - 1]);
      StepKeepsBudget(states[i - 1], steps[i - 1]);
    }
  }

  /** Ten different blocks an operation, admitted as begin_op() does: then on every run the header has room
      for all of them, and so has the log area if it is larger than a header's worth; logged block numbers stay
      distinct and their log blocks inside the log area. */
  lemma LogNeverOverflows(states: seq<State>, steps: seq<Step>, i: nat)
    requires IsBudgetedRun(states, steps) && i < |states|
    ensures Budget(states[i]) && |states[i].lh| + Unspent(states[i].active) <= LOGSIZE
    ensures states[i].lay.size > LOGSIZE ==> |states[i].lh| + Unspent(states[i].active) < states[i].lay.size
    ensures states[i].lay.InLog(states[i].lay.start + |states[i].lh|)
    ensures forall a, b :: 0 <= a < b < |states[i].lh| ==> states[i].lh[a] != states[i].lh[b]
  {
    BudgetOnRuns(states, steps, i);
    RunKeepsInv(states, steps, i);
    hide IsRun, IdleInv, CommitInv, Ownership;
  }

  /** The most blocks that can be logged: what the header holds, or what the log area does. */
  function Capacity(lay: Layout): int {
    if lay.size > LOGSIZE then LOGSIZE else lay.size - 1
  }

  /** When log_write() panics for size in such a run: exactly when the log is at its capacity. If the header is
      what is full, then the block is one the operation has logged itself, so it would have been absorbed; every
      outstanding operation has logged its ten; and a block that is new to the operation never meets the panic. */
  lemma PanicIsAbsorbed(states: seq<State>, steps: seq<Step>, n: nat, i: nat, bn: int)
    requires IsBudgetedRun(states, steps) && n < |states| && WithinBudget(states[n], i, bn)
    ensures var s := states[n];
      && (TooBig(|s.lh|, s.lay.size) <==> |s.lh| == Capacity(s.lay))
      && (|s.lh| == LOGSIZE ==>
            && bn in s.active[i].blocks && IndexOf(s.lh, bn) >= 0
            && forall k {:trigger s.active[k]} :: 0 <= k < |s.active| ==> |s.active[k].blocks| == MAXOPBLOCKS)
  {
    BudgetOnRuns(states, steps, n);
    RunKeepsInv(states, steps, n);
    var s := states[n];
    hide IsRun, IdleInv, CommitInv, Ownership;
    UnspentBound(s.active);
    if |s.lh| == LOGSIZE {
      assert Unspent(s.active) == 0;
      assert |s.active[i].blocks| == MAXOPBLOCKS;
      assert bn in s.lh;
    }
  }

  // ---- Which groups there can be ----

  lemma RunExtends(states: seq<State>, steps: seq<Step>, step: Step)
    requires IsBudgetedRun(states, steps) && Enabled(states[|steps|], step)
    requires step.LogWrite? ==> WithinBudget(states[|steps|], step.i, step.bn)
    ensures IsBudgetedRun(states + [Do(states[|steps|], step)], steps + [step])
  {
    hide Boot, Enabled, Do, WithinBudget;
    var more, all := states + [Do(states[|steps|], step)], steps + [step];
    forall i | 0 <= i < |all|
      ensures Enabled(more[i], all[i]) && more[i + 1] == Do(more[i], all[i])
      ensures all[i].LogWrite? ==> WithinBudget(more[i], all[i].i, all[i].bn)
    {
      if i < |steps| {
        assert Enabled(states[i], steps[i]) && states[i + 1] == Do(states[i], steps[i]);
      }
    }
  }

  /** Operations join a group that has blocks already: a second one begins after the first has logged a block, and a
      third after the first has ended. */
  lemma JoinsAGroup(boot: State, bn: int, data: Block) returns (states: seq<State>, steps: seq<Step>)
    requires Boot(boot) && 0 <= bn < |boot.disk| && !boot.lay.InLog(bn) && boot.lay.size > 1
    ensures IsBudgetedRun(states, steps) && states[0] == boot
    ensures var s := states[|steps|]; s.phase.Idle? && s.lh == [bn] && s.active == [Operation(1, {}), Operation(2, {})]
  {
    states, steps := [boot], [];
    var todo := [BeginOp(0), LogWrite(0, bn, data), BeginOp(1), EndOp(0), BeginOp(2)];
    var a := boot;
    var b := Do(a, BeginOp(0));
    var c := Do(b, LogWrite(0, bn, data));
    assert c.active[0].blocks == {bn};
    var d := Do(c, BeginOp(1));
    assert d.active == [Operation(0, {bn}), Operation(1, {})];
    var e := Do(d, EndOp(0));
    assert e.active == [Operation(1, {})];
    var f := Do(e, BeginOp(2));
    states := [a, b, c, d, e, f];
    steps := todo;
  }

  /** Entries [a, b) of a list of blocks. */
  function Those(bns: seq<int>, a: int, b: int): (r: set<int>)
    requires 0 <= a <= b <= |bns|
    ensures forall x :: x in r <==> exists k :: a <= k < b && bns[k] == x
  {
    set k | a <= k < b :: bns[k]
  }

  lemma ThoseMore(bns: seq<int>, a: int, b: int)
    requires 0 <= a <= b < |bns| && forall i, j :: 0 <= i < j < |bns| ==> bns[i] != bns[j]
    ensures Those(bns, a, b + 1) == Those(bns, a, b) + {bns[b]}
    ensures |Those(bns, a, b + 1)| == |Those(bns, a, b)| + 1
  {
    assert bns[b] !in Those(bns, a, b);
    assert Those(bns, a, b + 1) == Those(bns, a, b) + {bns[b]};
  }

  lemma {:induction false} ThoseCount(bns: seq<int>, a: int, b: int)
    requires 0 <= a <= b <= |bns| && forall i, j :: 0 <= i < j < |bns| ==> bns[i] != bns[j]
    ensures |Those(bns, a, b)| == b - a
    decreases b
  {
    if a < b {
      ThoseCount(bns, a, b - 1);
      ThoseMore(bns, a, b - 1);
    } else {
      assert Those(bns, a, b) == {};
    }
  }

  /** The blocks operation number g has logged when the first n are, ten to an operation. */
  function Share(bns: seq<int>, n: int, g: nat): set<int>
    requires 0 <= n <= |bns| <= LOGSIZE && g < 3
  {
    var a := g * MAXOPBLOCKS;
    if n <= a then {} else Those(bns, a, if n < a + MAXOPBLOCKS then n else a + MAXOPBLOCKS)
  }

  /** Three operations are in, and the first n of the blocks have been logged. */
  predicate Filling(s: State, boot: State, bns: seq<int>, n: nat)
    requires n <= |bns| <= LOGSIZE
  {
    && s.lay == boot.lay && |s.cache| == |boot.cache| && s.phase.Idle? && s.lh == bns[..n]
    && s.active == [Operation(0, Share(bns, n, 0)), Operation(1, Share(bns, n, 1)), Operation(2, Share(bns, n, 2))]
  }

  lemma ShareNext(bns: seq<int>, n: nat, g: nat)
    requires n < |bns| <= LOGSIZE && g < 3 && forall i, j :: 0 <= i < j < |bns| ==> bns[i] != bns[j]
    ensures Share(bns, n + 1, g) == if g == n / MAXOPBLOCKS then Share(bns, n, g) + {bns[n]} else Share(bns, n, g)
    ensures g == n / MAXOPBLOCKS ==> |Share(bns, n, g)| < MAXOPBLOCKS
  {
    if g == n / MAXOPBLOCKS {
      ThoseMore(bns, g * MAXOPBLOCKS, n);
      ThoseCount(bns, g * MAXOPBLOCKS, n);
      assert Those(bns, n, n) == {};
    }
  }

  lemma FillNext(s: State, boot: State, bns: seq<int>, n: nat, data: Block)
    requires Boot(boot) && Loggable(boot.lay, |boot.disk|, bns) && n < |bns| && Filling(s, boot, bns, n)
    ensures var step := LogWrite(n / MAXOPBLOCKS, bns[n], data);
      Enabled(s, step) && WithinBudget(s, step.i, step.bn) && Filling(Do(s, step), boot, bns, n + 1)
  {
    hide Loggable, Boot, Share, IndexOf;
    FillFacts(boot, bns, n);
    ShareNext(bns, n, 0);
    ShareNext(bns, n, 1);
    ShareNext(bns, n, 2);
    assert n / MAXOPBLOCKS == 0 || n / MAXOPBLOCKS == 1 || n / MAXOPBLOCKS == 2;
  }

  lemma FillFacts(boot: State, bns: seq<int>, n: nat)
    requires Boot(boot) && Loggable(boot.lay, |boot.disk|, bns) && n < |bns|
    ensures 0 <= bns[n] < |boot.cache| && !boot.lay.InLog(bns[n]) && |bns| <= LOGSIZE && |bns| < boot.lay.size
    ensures forall i, j :: 0 <= i < j < |bns| ==> bns[i] != bns[j]
    ensures Absorb(bns[..n], bns[n]) == bns[..n + 1]
  {
    var i := IndexOf(bns[..n], bns[n]);
    assert i < 0;
  }

  /** Whatever blocks these are that the log can take, three admitted operations within their budgets can log
      them, ten to an operation. */
  lemma ListReachable(boot: State, bns: seq<int>, data: Block) returns (states: seq<State>, steps: seq<Step>)
    requires Boot(boot) && Loggable(boot.lay, |boot.disk|, bns)
    ensures IsBudgetedRun(states, steps) && states[0] == boot && Filling(states[|steps|], boot, bns, |bns|)
  {
    hide Loggable, Boot;
    ListLength(boot.lay, |boot.disk|, bns);
    states, steps := AllBegun(boot, bns);
    var n := 0;
    while n < |bns|
      invariant 0 <= n <= |bns| && IsBudgetedRun(states, steps) && states[0] == boot
      invariant Filling(states[|steps|], boot, bns, n)
    {
      var step := LogWrite(n / MAXOPBLOCKS, bns[n], data);
      FillNext(states[|steps|], boot, bns, n, data);
      RunExtends(states, steps, step);
      states, steps, n := states + [Do(states[|steps|], step)], steps + [step], n + 1;
    }
  }

  lemma ListLength(lay: Layout, blocks: nat, bns: seq<int>)
    requires Loggable(lay, blocks, bns)
    ensures |bns| <= LOGSIZE && |bns| < lay.size
  {
  }

  /** The header can fill up, if the log area has a block for each entry: each of three operations then meets the
      panic if it logs one of its own blocks again. */
  lemma FullLogReachable(boot: State, bns: seq<int>, data: Block) returns (states: seq<State>, steps: seq<Step>)
    requires Boot(boot) && |bns| == LOGSIZE && Loggable(boot.lay, |boot.disk|, bns)
    ensures IsBudgetedRun(states, steps) && states[0] == boot
    ensures var s := states[|steps|];
      && s.phase.Idle? && s.lh == bns && |s.active| == 3 && TooBig(|s.lh|, s.lay.size)
      && WithinBudget(s, 0, bns[0]) && WithinBudget(s, 1, bns[10]) && WithinBudget(s, 2, bns[20])
  {
    hide Loggable, Boot;
    states, steps := ListReachable(boot, bns, data);
    var n := |bns|;
    assert bns[..n] == bns;
    assert bns[0] in Share(bns, n, 0) && bns[10] in Share(bns, n, 1) && bns[20] in Share(bns, n, 2);
  }

  /** Whatever blocks these are that the log can take, such operations can commit them as one group. */
  lemma GroupReachable(boot: State, bns: seq<int>, data: Block) returns (states: seq<State>, steps: seq<Step>)
    requires Boot(boot) && Loggable(boot.lay, |boot.disk|, bns)
    ensures IsBudgetedRun(states, steps) && states[0] == boot
    ensures states[|steps|].phase.Committing? && states[|steps|].phase.k == 0 && states[|steps|].lh == bns
  {
    hide Loggable, Boot;
    states, steps := ListReachable(boot, bns, data);
    assert bns[..|bns|] == bns;
    var left := 3;
    while left > 0
      invariant 0 <= left <= 3 && IsBudgetedRun(states, steps) && states[0] == boot
      invariant |states[|steps|].active| == left && states[|steps|].lh == bns
      invariant left == 0 ==> states[|steps|].phase.Committing? && states[|steps|].phase.k == 0
    {
      RunExtends(states, steps, EndOp(0));
      states, steps, left := states + [Do(states[|steps|], EndOp(0))], steps + [EndOp(0)], left - 1;
    }
  }

  lemma AllBegun(boot: State, bns: seq<int>) returns (states: seq<State>, steps: seq<Step>)
    requires Boot(boot) && |bns| <= LOGSIZE
    ensures IsBudgetedRun(states, steps) && states[0] == boot && Filling(states[|steps|], boot, bns, 0)
  {
    states, steps := [boot], [];
    var n := 0;
    while n < 3
      invariant 0 <= n <= 3 && IsBudgetedRun(states, steps) && states[0] == boot
      invariant var s := states[|steps|];
        && s.lay == boot.lay && |s.cache| == |boot.cache| && s.phase.Idle? && s.lh == []
        && s.active == [Operation(0, {}), Operation(1, {}), Operation(2, {})][..n]
        && forall op :: op >= n ==> op !in s.groupOf
    {
      RunExtends(states, steps, BeginOp(n));
      states, steps, n := states + [Do(states[|steps|], BeginOp(n))], steps + [BeginOp(n)], n + 1;
    }
    assert bns[..0] == [];
  }

  // ---- Which logs have room for the budgets ----

  /** Operation i may log block bn within its budget, and has not logged it yet. */
  predicate NewWithinBudget(s: State, i: nat, bn: int) {
    i < |s.active| && bn !in s.active[i].blocks && WithinBudget(s, i, bn) && 0 <= bn < |s.cache| && !s.lay.InLog(bn)
  }

  /** No operation that keeps its budget, among others that do, meets the size panic on a block new to it. */
  ghost predicate NewBlocksNeverPanic(boot: State) {
    forall states: seq<State>, steps: seq<Step>, i: nat,
      bn {:trigger IsBudgetedRun(states, steps), NewWithinBudget(states[|steps|], i, bn)} ::
      IsBudgetedRun(states, steps) && states[0] == boot && NewWithinBudget(states[|steps|], i, bn) ==>
        !TooBig(|states[|steps|].lh|, boot.lay.size)
  }

  lemma {:induction false} RunKeepsLayout(states: seq<State>, steps: seq<Step>, i: nat)
    requires IsRun(states, steps) && i < |states|
    ensures states[i].lay == states[0].lay && states[i].init == states[0].init
    decreases i
  {
    hide Boot, Enabled;
    if i > 0 {
      RunKeepsLayout(states, steps, i - 1);
      assert Enabled(states[i - 1], steps[i - 1]) && states[i] == Do(states[i - 1], steps[i - 1]);
    }
  }

  /** No more blocks can be logged than there are outside the log area. */
  lemma LoggedAreFew(lay: Layout, blocks: nat, lh: seq<int>)
    requires lay.Fits(blocks) && Loggable(lay, blocks, lh)
    ensures |lh| <= blocks - lay.size
  {
    var rank := seq(|lh|, i requires 0 <= i < |lh| => if lh[i] < lay.start then lh[i] else lh[i] - lay.size);
    forall i, j | 0 <= i < j < |rank|
      ensures rank[i] != rank[j]
    {
      assert lh[i] != lh[j];
    }
    Counting.Pigeonhole(rank, blocks - lay.size);
  }

  /** Block number k of those outside the log area. */
  function HomeBlock(lay: Layout, k: nat): (bn: nat)
    ensures lay.size > 0 ==> !lay.InLog(bn)
  {
    if k < lay.start then k else k + lay.size
  }

  /** In a log of at most LOGSIZE blocks that has filled up, an operation meets the panic within its budget on
      any block that it has not logged, whether another operation has or nobody has. */
  lemma SmallLogReachable(boot: State, bns: seq<int>, bn: int, data: Block) returns (states: seq<State>, steps: seq<Step>)
    requires Boot(boot) && Loggable(boot.lay, |boot.disk|, bns) && |bns| == boot.lay.size - 1 < LOGSIZE
    requires 0 <= bn < |boot.disk| && !boot.lay.InLog(bn) && forall k :: 20 <= k < |bns| ==> bns[k] != bn
    ensures IsBudgetedRun(states, steps) && states[0] == boot
    ensures var s := states[|steps|];
      s.phase.Idle? && s.lh == bns && NewWithinBudget(s, 2, bn) && TooBig(|s.lh|, s.lay.size)
  {
    states, steps := ListReachable(boot, bns, data);
    assert bns[..|bns|] == bns;
    ShareOfLast(bns);
  }

  lemma ShareOfLast(bns: seq<int>)
    requires |bns| < LOGSIZE && forall i, j :: 0 <= i < j < |bns| ==> bns[i] != bns[j]
    ensures |Share(bns, |bns|, 2)| < MAXOPBLOCKS
  {
    if |bns| > 20 {
      ThoseCount(bns, 20, |bns|);
    }
  }

  /** Among operations that keep their budgets, a block new to its operation never meets the size panic exactly
      if the log has more than LOGSIZE blocks; or if the device has too few others to fill it, or none. */
  lemma RoomForBudgets(boot: State)
    requires Boot(boot)
    ensures var homes := |boot.disk| - boot.lay.size;
      NewBlocksNeverPanic(boot) <==> boot.lay.size > LOGSIZE || homes < boot.lay.size - 1 || homes == 0
  {
    var lay, homes := boot.lay, |boot.disk| - boot.lay.size;
    if lay.size > LOGSIZE || homes < lay.size - 1 || homes == 0 {
      forall states: seq<State>, steps: seq<Step>, i: nat, bn | IsBudgetedRun(states, steps) && states[0] == boot &&
        NewWithinBudget(states[|steps|], i, bn)
        ensures !TooBig(|states[|steps|].lh|, lay.size)
      {
        NewBlockFits(boot, states, steps, i, bn);
      }
    } else {
      var bns := seq(lay.size - 1, k requires 0 <= k => HomeBlock(lay, k));
      var states, steps := SmallLogReachable(boot, bns, HomeBlock(lay, 0), boot.disk[0]);
    }
  }

  lemma NewBlockFits(boot: State, states: seq<State>, steps: seq<Step>, i: nat, bn: int)
    requires IsBudgetedRun(states, steps) && states[0] == boot && NewWithinBudget(states[|steps|], i, bn)
    requires var homes := |boot.disk| - boot.lay.size; boot.lay.size > LOGSIZE || homes < boot.lay.size - 1 || homes == 0
    ensures !TooBig(|states[|steps|].lh|, boot.lay.size)
  {
    var s, lay := states[|steps|], boot.lay;
    RunKeepsLayout(states, steps, |steps|);
    RunKeepsInv(states, steps, |steps|);
    PanicIsAbsorbed(states, steps, |steps|, i, bn);
    hide IdleInv, CommitInv, Ownership, Enabled, Do;
    LoggedAreFew(lay, |s.disk|, s.lh);
  }

  /** A commit of LOGSIZE blocks happens on some run from this boot. */
  ghost predicate FullGroupHappens(boot: State) {
    exists states, steps {:trigger IsRun(states, steps)} :: IsRun(states, steps) && states[0] == boot && FullCommit(states[|steps|])
  }

  predicate FullCommit(s: State) { s.phase.Committing? && |s.lh| == LOGSIZE }

  /** That takes a log of more than LOGSIZE blocks, and as many other blocks on the device; operations that keep
      their budgets then do it. */
  lemma FullGroupIff(boot: State)
    requires Boot(boot)
    ensures FullGroupHappens(boot) <==> boot.lay.size > LOGSIZE && |boot.disk| - boot.lay.size >= LOGSIZE
  {
    var lay := boot.lay;
    if lay.size > LOGSIZE && |boot.disk| - lay.size >= LOGSIZE {
      var bns := seq(LOGSIZE, k requires 0 <= k => HomeBlock(lay, k));
      var states, steps := GroupReachable(boot, bns, boot.disk[0]);
      assert IsRun(states, steps) && FullCommit(states[|steps|]);
    }
    if states: seq<State>, steps: seq<Step> :| IsRun(states, steps) && states[0] == boot && FullCommit(states[|steps|]) {
      RunKeepsLayout(states, steps, |steps|);
      RunKeepsInv(states, steps, |steps|);
      LoggedAreFew(lay, |boot.disk|, states[|steps|].lh);
    }
  }
}
