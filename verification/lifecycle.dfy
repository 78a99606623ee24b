/** fork(), exit() and wait() of ass1's proc.c as a machine over the process table. A step is what one
    process does between taking and releasing a lock, or one turn of a loop it runs under wait_lock. */
module Lifecycle {

  /** UNUSED, USED, one of RUNNABLE, RUNNING and SLEEPING, or ZOMBIE. */
  datatype Status = Unused | Used | Alive | Zombie

  /** Where a live process is: `Forking(c)` has allocated slot c and released its lock, `Linked(c)` has made
      itself the parent; `Exiting` and `Waiting` hold wait_lock and look at slot k next. */
  datatype Place =
    | Running
    | Forking(c: int)
    | Linked(c: int)
    | Exiting(k: int, status: int)
    | Waiting(k: int, haveKids: bool)
    | Asleep

  datatype Proc = Proc(status: Status, parent: int, pid: int, xstate: int, place: Place)

  /** The table, the holder of wait_lock, allocpid()'s counter, and a history: who forked each pid, the
      status each called exit() with, and the status wait() returned for it. */
  datatype State = State(
    slots: seq<Proc>, waitLock: int, nextPid: int,
    forkedBy: map<int, int>, exited: map<int, int>, reaped: map<int, int>)

  const NONE := -1
  const INIT := 0  // the slot of initproc, which has pid 1

  datatype Step =
    | Alloc(p: int, c: int)
    | ForkFails(p: int)
    | Link(p: int)
    | Start(p: int)
    | Exit(p: int, status: int)
    | Reparent(p: int)
    | Die(p: int)
    | Wait(p: int)
    | Look(p: int, copied: bool)
    | Give(p: int, killed: bool)
    | Wake(p: int)

  predicate InTable(s: State, k: int) { 0 <= k < |s.slots| }

  predicate HoldsWait(x: Place) { x.Exiting? || x.Waiting? }

  predicate Enabled(s: State, step: Step) {
    InTable(s, step.p) && s.slots[step.p].status == Alive &&
    var x := s.slots[step.p].place;
    match step
    case Alloc(p, c) => x == Running && InTable(s, c) && s.slots[c].status == Unused
    case ForkFails(p) => x.Forking? && InTable(s, x.c)
    case Link(p) => x.Forking? && InTable(s, x.c) && s.waitLock == NONE
    case Start(p) => x.Linked? && InTable(s, x.c)
    case Exit(p, status) => x == Running && s.waitLock == NONE && p != INIT
    case Reparent(p) => x.Exiting? && InTable(s, x.k)
    case Die(p) => x.Exiting? && x.k == |s.slots|
    case Wait(p) => x == Running && s.waitLock == NONE
    case Look(p, copied) => x.Waiting? && InTable(s, x.k)
    case Give(p, killed) => x.Waiting? && x.k == |s.slots|
    case Wake(p) => x == Asleep && s.waitLock == NONE
  }

  function Put(s: State, k: int, q: Proc): State
    requires InTable(s, k)
  {
    s.(slots := s.slots[k := q])
  }

  function Go(s: State, p: int, x: Place): State
    requires InTable(s, p)
  {
    Put(s, p, s.slots[p].(place := x))
  }

  const FREE := Proc(Unused, NONE, 0, 0, Running)  // what freeproc() leaves

  /** The child at slot k is a zombie the caller may reap. */
  predicate Reaps(s: State, step: Step) {
    && step.Look? && Enabled(s, step)
    && var k := s.slots[step.p].place.k; s.slots[k].parent == step.p && s.slots[k].status == Zombie && step.copied
  }

  function Do(s: State, step: Step): State
    requires Enabled(s, step)
  {
    var p, x, me := step.p, s.slots[step.p].place, s.slots[step.p];
    match step
    case Alloc(_, c) =>
      Go(Put(s, c, FREE.(status := Used, pid := s.nextPid)), p, Forking(c)).(nextPid := s.nextPid + 1,
          forkedBy := s.forkedBy[s.nextPid := me.pid])
    case ForkFails(_) => Go(Put(s, x.c, FREE), p, Running)
    case Link(_) => Go(Put(s, x.c, s.slots[x.c].(parent := p)), p, Linked(x.c))
    case Start(_) => Go(Put(s, x.c, s.slots[x.c].(status := Alive, place := Running)), p, Running)
    case Exit(_, status) => Go(s, p, Exiting(0, status)).(waitLock := p, exited := s.exited[me.pid := status])
    case Reparent(_) =>
      var t := Go(s, p, Exiting(x.k + 1, x.status));
      if s.slots[x.k].parent == p then Put(t, x.k, t.slots[x.k].(parent := INIT)) else t
    case Die(_) => Put(s, p, me.(status := Zombie, xstate := x.status, place := Running)).(waitLock := NONE)
    case Wait(_) => Go(s, p, Waiting(0, false)).(waitLock := p)
    case Look(_, copied) =>
      var child := s.slots[x.k];
      if child.parent != p then Go(s, p, Waiting(x.k + 1, x.haveKids))
      else if child.status != Zombie then Go(s, p, Waiting(x.k + 1, true))
      else if !copied then Go(s, p, Running).(waitLock := NONE)
      else Go(Put(s, x.k, FREE), p, Running).(waitLock := NONE, reaped := s.reaped[child.pid := child.xstate])
    case Give(_, killed) => Go(s, p, if !x.haveKids || killed then Running else Asleep).(waitLock := NONE)
    case Wake(_) => Go(s, p, Waiting(0, false)).(waitLock := p)
  }

  /** The table when init starts. */
  predicate Boot(s: State) {
    && |s.slots| > 0 && s.waitLock == NONE && s.nextPid == 2
    && s.slots[INIT] == Proc(Alive, NONE, 1, 0, Running)
    && (forall k {:trigger s.slots[k]} :: 0 < k < |s.slots| ==> s.slots[k] == FREE)
    && s.forkedBy == map[] && s.exited == map[] && s.reaped == map[]
  }

  // ---- The invariant ----

  /** The parent of a slot is nobody or a live process, and it is the process that forked it unless that one
      has called exit() and the parent is init. */
  predicate ParentOk(s: State, k: int)
    requires InTable(s, k)
  {
    var q := s.slots[k];
    && (q.status == Unused ==> q == FREE)
    && (q.parent != NONE ==> InTable(s, q.parent) && s.slots[q.parent].status == Alive && q.parent != k)
    && (q.parent != NONE ==>
        && q.pid in s.forkedBy
        && (s.slots[q.parent].pid == s.forkedBy[q.pid] || (q.parent == INIT && s.forkedBy[q.pid] in s.exited)))
    && (q.status == Alive || q.status == Zombie ==> (q.parent == NONE <==> k == INIT))
  }

  /** A process in fork() owns the slot it is filling; one in exit() has no children among the slots behind it. */
  predicate PlaceOk(s: State, p: int)
    requires InTable(s, p)
  {
    var x := s.slots[p].place;
    s.slots[p].status == Alive ==>
      && (HoldsWait(x) <==> s.waitLock == p)
      && (x.Forking? ==>
          && InTable(s, x.c) && s.slots[x.c].status == Used && s.slots[x.c].parent == NONE
          && s.slots[x.c].pid in s.forkedBy && s.forkedBy[s.slots[x.c].pid] == s.slots[p].pid)
      && (x.Linked? ==> InTable(s, x.c) && s.slots[x.c].status == Used && s.slots[x.c].parent == p)
      && (x.Exiting? ==> p != INIT && 0 <= x.k <= |s.slots|)
      && (x.Waiting? ==> 0 <= x.k <= |s.slots|)
  }

  predicate Scanned(s: State, p: int, k: int)
    requires InTable(s, p) && InTable(s, k)
  {
    s.slots[p].status == Alive && s.slots[p].place.Exiting? && k < s.slots[p].place.k ==> s.slots[k].parent != p
  }

  /** Pids in the table are distinct and below the counter, and the history agrees with the table. */
  predicate PidOk(s: State, k: int)
    requires InTable(s, k)
  {
    var q := s.slots[k];
    q.status != Unused ==>
      && 0 < q.pid < s.nextPid && q.pid !in s.reaped
      && (q.pid in s.exited <==> q.status == Zombie || (q.status == Alive && q.place.Exiting?))
      && (q.status == Zombie ==> s.exited[q.pid] == q.xstate)
      && (q.status == Alive && q.place.Exiting? ==> s.exited[q.pid] == q.place.status)
  }

  predicate Apart(s: State, j: int, k: int)
    requires InTable(s, j) && InTable(s, k)
  {
    && (j != k && s.slots[j].status != Unused && s.slots[k].status != Unused ==> s.slots[j].pid != s.slots[k].pid)
    && (j != k && Filling(s, j) && Filling(s, k) ==> s.slots[j].place.c != s.slots[k].place.c)
  }

  predicate Filling(s: State, p: int)
    requires InTable(s, p)
  {
    s.slots[p].status == Alive && (s.slots[p].place.Forking? || s.slots[p].place.Linked?)
  }

  predicate Basic(s: State) {
    && |s.slots| > 0 && s.slots[INIT].status == Alive && s.slots[INIT].pid == 1 && s.nextPid > 1
    && (s.waitLock == NONE || (InTable(s, s.waitLock) && s.slots[s.waitLock].status == Alive && HoldsWait(s.slots[s.waitLock].place)))
  }

  ghost predicate Inv(s: State) {
    && Basic(s)
    && (forall k {:trigger ParentOk(s, k)} :: InTable(s, k) ==> ParentOk(s, k))
    && (forall p {:trigger PlaceOk(s, p)} :: InTable(s, p) ==> PlaceOk(s, p))
    && (forall p, k {:trigger Scanned(s, p, k)} :: InTable(s, p) && InTable(s, k) ==> Scanned(s, p, k))
    && (forall k {:trigger PidOk(s, k)} :: InTable(s, k) ==> PidOk(s, k))
    && (forall j, k {:trigger Apart(s, j, k)} :: InTable(s, j) && InTable(s, k) ==> Apart(s, j, k))
    && (forall pid {:trigger pid in s.forkedBy} :: pid in s.forkedBy ==> pid < s.nextPid)
    && (forall pid {:trigger pid in s.exited} :: pid in s.exited ==> pid < s.nextPid)
    && (forall pid {:trigger pid in s.reaped} :: pid in s.reaped ==> pid in s.exited && s.reaped[pid] == s.exited[pid])
  }

  lemma BootInv(s: State)
    requires Boot(s)
    ensures Inv(s)
  {
  }

  predicate InFork(step: Step) { step.Alloc? || step.ForkFails? || step.Link? || step.Start? }

  predicate InExit(step: Step) { step.Exit? || step.Reparent? || step.Die? }

  predicate InWait(step: Step) { step.Wait? || step.Give? || step.Wake? }

  predicate InLook(step: Step) { step.Look? }

  lemma ForkParent(s: State, step: Step, k: int)
    requires Basic(s) && Enabled(s, step) && InFork(step) && InTable(s, k)
    requires ParentOk(s, k) && PidOk(s, k) && PlaceOk(s, step.p) && PidOk(s, step.p)
    requires forall pid {:trigger pid in s.forkedBy} :: pid in s.forkedBy ==> pid < s.nextPid
    ensures ParentOk(Do(s, step), k)
  {
  }

  lemma ExitParent(s: State, step: Step, k: int)
    requires Basic(s) && Enabled(s, step) && InExit(step) && InTable(s, k)
    requires ParentOk(s, k) && PidOk(s, k) && PlaceOk(s, step.p) && PidOk(s, step.p) && Scanned(s, step.p, k)
    ensures ParentOk(Do(s, step), k)
  {
  }

  lemma WaitParent(s: State, step: Step, k: int)
    requires Basic(s) && Enabled(s, step) && InWait(step) && InTable(s, k)
    requires ParentOk(s, k) && PidOk(s, k)
    ensures ParentOk(Do(s, step), k)
  {
  }

  lemma LookParent(s: State, step: Step, k: int)
    requires Basic(s) && Enabled(s, step) && InLook(step) && InTable(s, k)
    requires ParentOk(s, k) && PidOk(s, k)
    requires var x := s.slots[step.p].place; ParentOk(s, x.k)
    ensures ParentOk(Do(s, step), k)
  {
  }

  lemma AllocPlace(s: State, step: Step, k: int)
    requires Basic(s) && Enabled(s, step) && step.Alloc? && InTable(s, k)
    requires PlaceOk(s, k) && PlaceOk(s, step.p) && Apart(s, step.p, k) && ParentOk(s, step.p) && PidOk(s, step.p)
    requires Filling(s, k) && InTable(s, s.slots[k].place.c) ==> PidOk(s, s.slots[k].place.c)
    requires ParentOk(s, step.c) && PlaceOk(s, step.c)
    ensures PlaceOk(Do(s, step), k)
  {
  }

  lemma LinkPlace(s: State, step: Step, k: int)
    requires Basic(s) && Enabled(s, step) && InFork(step) && !step.Alloc? && InTable(s, k)
    requires PlaceOk(s, k) && PlaceOk(s, step.p) && Apart(s, step.p, k) && ParentOk(s, step.p) && PidOk(s, step.p)
    requires Filling(s, k) && InTable(s, s.slots[k].place.c) ==> PidOk(s, s.slots[k].place.c)
    ensures PlaceOk(Do(s, step), k)
  {
  }

  lemma ForkPlace(s: State, step: Step, k: int)
    requires Basic(s) && Enabled(s, step) && InFork(step) && InTable(s, k)
    requires PlaceOk(s, k) && PlaceOk(s, step.p) && Apart(s, step.p, k) && ParentOk(s, step.p) && PidOk(s, step.p)
    requires Filling(s, k) && InTable(s, s.slots[k].place.c) ==> PidOk(s, s.slots[k].place.c)
    requires step.Alloc? ==> ParentOk(s, step.c) && PlaceOk(s, step.c)
    ensures PlaceOk(Do(s, step), k)
  {
    if step.Alloc? {
      AllocPlace(s, step, k);
    } else {
      LinkPlace(s, step, k);
    }
  }

  lemma ExitPlace(s: State, step: Step, k: int)
    requires Basic(s) && Enabled(s, step) && InExit(step) && InTable(s, k)
    requires PlaceOk(s, k) && PlaceOk(s, step.p) && ParentOk(s, k)
    ensures PlaceOk(Do(s, step), k)
  {
  }

  lemma WaitPlace(s: State, step: Step, k: int)
    requires Basic(s) && Enabled(s, step) && InWait(step) && InTable(s, k)
    requires PlaceOk(s, k) && PlaceOk(s, step.p)
    ensures PlaceOk(Do(s, step), k)
  {
  }

  lemma ReapPlace(s: State, step: Step, k: int)
    requires Basic(s) && Enabled(s, step) && Reaps(s, step) && InTable(s, k)
    requires PlaceOk(s, k) && PlaceOk(s, step.p)
    ensures PlaceOk(Do(s, step), k)
  {
  }

  lemma PassPlace(s: State, step: Step, k: int)
    requires Basic(s) && Enabled(s, step) && InLook(step) && !Reaps(s, step) && InTable(s, k)
    requires PlaceOk(s, k) && PlaceOk(s, step.p)
    ensures PlaceOk(Do(s, step), k)
  {
  }

  lemma LookPlace(s: State, step: Step, k: int)
    requires Basic(s) && Enabled(s, step) && InLook(step) && InTable(s, k)
    requires PlaceOk(s, k) && PlaceOk(s, step.p)
    ensures PlaceOk(Do(s, step), k)
  {
    hide PlaceOk;
    if Reaps(s, step) {
      ReapPlace(s, step, k);
    } else {
      PassPlace(s, step, k);
    }
  }

  lemma ForkScanned(s: State, step: Step, p: int, k: int)
    requires Basic(s) && Enabled(s, step) && InFork(step) && InTable(s, p) && InTable(s, k)
    requires Scanned(s, p, k) && PlaceOk(s, p) && PlaceOk(s, step.p) && ParentOk(s, k)
    ensures Scanned(Do(s, step), p, k)
  {
  }

  lemma ExitScanned(s: State, step: Step, p: int, k: int)
    requires Basic(s) && Enabled(s, step) && InExit(step) && InTable(s, p) && InTable(s, k)
    requires Scanned(s, p, k) && PlaceOk(s, p) && PlaceOk(s, step.p) && ParentOk(s, k)
    ensures Scanned(Do(s, step), p, k)
  {
  }

  lemma WaitScanned(s: State, step: Step, p: int, k: int)
    requires Basic(s) && Enabled(s, step) && InWait(step) && InTable(s, p) && InTable(s, k)
    requires Scanned(s, p, k) && PlaceOk(s, p) && PlaceOk(s, step.p) && ParentOk(s, k)
    ensures Scanned(Do(s, step), p, k)
  {
  }

  lemma LookScanned(s: State, step: Step, p: int, k: int)
    requires Basic(s) && Enabled(s, step) && InLook(step) && InTable(s, p) && InTable(s, k)
    requires Scanned(s, p, k) && PlaceOk(s, p) && PlaceOk(s, step.p) && ParentOk(s, k)
    ensures Scanned(Do(s, step), p, k)
  {
  }

  lemma ForkPid(s: State, step: Step, k: int)
    requires Basic(s) && Enabled(s, step) && InFork(step) && InTable(s, k)
    requires PidOk(s, k) && PidOk(s, step.p) && PlaceOk(s, step.p)
    requires forall pid {:trigger pid in s.exited} :: pid in s.exited ==> pid < s.nextPid
    requires forall pid {:trigger pid in s.reaped} :: pid in s.reaped ==> pid in s.exited
    ensures PidOk(Do(s, step), k)
  {
  }

  lemma ExitPid(s: State, step: Step, k: int)
    requires Basic(s) && Enabled(s, step) && InExit(step) && InTable(s, k)
    requires PidOk(s, k) && PidOk(s, step.p) && Apart(s, step.p, k)
    ensures PidOk(Do(s, step), k)
  {
  }

  lemma WaitPid(s: State, step: Step, k: int)
    requires Basic(s) && Enabled(s, step) && InWait(step) && InTable(s, k)
    requires PidOk(s, k)
    ensures PidOk(Do(s, step), k)
  {
  }

  lemma LookPid(s: State, step: Step, k: int)
    requires Basic(s) && Enabled(s, step) && InLook(step) && InTable(s, k)
    requires PidOk(s, k)
    requires var x := s.slots[step.p].place; PidOk(s, x.k) && Apart(s, x.k, k)
    ensures PidOk(Do(s, step), k)
  {
  }

  lemma ForkApart(s: State, step: Step, j: int, k: int)
    requires Basic(s) && Enabled(s, step) && InFork(step) && InTable(s, j) && InTable(s, k)
    requires Apart(s, j, k) && PidOk(s, j) && PidOk(s, k) && PlaceOk(s, j) && PlaceOk(s, k) && PlaceOk(s, step.p)
    ensures Apart(Do(s, step), j, k)
  {
  }

  lemma ExitApart(s: State, step: Step, j: int, k: int)
    requires Basic(s) && Enabled(s, step) && InExit(step) && InTable(s, j) && InTable(s, k)
    requires Apart(s, j, k) && PidOk(s, j) && PidOk(s, k) && PlaceOk(s, j) && PlaceOk(s, k) && PlaceOk(s, step.p)
    ensures Apart(Do(s, step), j, k)
  {
  }

  lemma WaitApart(s: State, step: Step, j: int, k: int)
    requires Basic(s) && Enabled(s, step) && InWait(step) && InTable(s, j) && InTable(s, k)
    requires Apart(s, j, k) && PidOk(s, j) && PidOk(s, k) && PlaceOk(s, j) && PlaceOk(s, k) && PlaceOk(s, step.p)
    ensures Apart(Do(s, step), j, k)
  {
  }

  lemma LookApart(s: State, step: Step, j: int, k: int)
    requires Basic(s) && Enabled(s, step) && InLook(step) && InTable(s, j) && InTable(s, k)
    requires Apart(s, j, k) && PidOk(s, j) && PidOk(s, k) && PlaceOk(s, j) && PlaceOk(s, k) && PlaceOk(s, step.p)
    ensures Apart(Do(s, step), j, k)
  {
  }

  lemma StepKeepsInv(s: State, step: Step)
    requires Inv(s) && Enabled(s, step)
    ensures Inv(Do(s, step))
  {
    hide ParentOk, PlaceOk, Scanned, PidOk, Apart;
    var u, x := Do(s, step), s.slots[step.p].place;
    StepShape(s, step);
    assert PlaceOk(s, step.p) && PidOk(s, step.p) && ParentOk(s, step.p);
    assert step.Alloc? ==> ParentOk(s, step.c) && PlaceOk(s, step.c);
    assert step.Look? ==> ParentOk(s, x.k) && PidOk(s, x.k);
    forall k | InTable(u, k)
      ensures ParentOk(u, k) && PlaceOk(u, k) && PidOk(u, k)
    {
      assert ParentOk(s, k) && PlaceOk(s, k) && PidOk(s, k) && Scanned(s, step.p, k) && Apart(s, step.p, k);
      assert Filling(s, k) && InTable(s, s.slots[k].place.c) ==> PidOk(s, s.slots[k].place.c);
      assert step.Look? ==> Apart(s, x.k, k);
      if InFork(step) {
        ForkParent(s, step, k);
        ForkPlace(s, step, k);
        ForkPid(s, step, k);
      } else if InExit(step) {
        ExitParent(s, step, k);
        ExitPlace(s, step, k);
        ExitPid(s, step, k);
      } else if InWait(step) {
        WaitParent(s, step, k);
        WaitPlace(s, step, k);
        WaitPid(s, step, k);
      } else {
        LookParent(s, step, k);
        LookPlace(s, step, k);
        LookPid(s, step, k);
      }
    }
    forall p, k | InTable(u, p) && InTable(u, k)
      ensures Scanned(u, p, k) && Apart(u, p, k)
    {
      assert Scanned(s, p, k) && Apart(s, p, k) && PlaceOk(s, p) && PlaceOk(s, k) && PidOk(s, p) && PidOk(s, k) && ParentOk(s, k);
      if InFork(step) {
        ForkScanned(s, step, p, k);
        ForkApart(s, step, p, k);
      } else if InExit(step) {
        ExitScanned(s, step, p, k);
        ExitApart(s, step, p, k);
      } else if InWait(step) {
        WaitScanned(s, step, p, k);
        WaitApart(s, step, p, k);
      } else {
        LookScanned(s, step, p, k);
        LookApart(s, step, p, k);
      }
    }
  }

  lemma StepShape(s: State, step: Step)
    requires Inv(s) && Enabled(s, step)
    ensures var u := Do(s, step);
      && |u.slots| == |s.slots| && Basic(u)
      && (forall pid {:trigger pid in u.forkedBy} :: pid in u.forkedBy ==> pid < u.nextPid)
      && (forall pid {:trigger pid in u.exited} :: pid in u.exited ==> pid < u.nextPid)
      && (forall pid {:trigger pid in u.reaped} :: pid in u.reaped ==> pid in u.exited && u.reaped[pid] == u.exited[pid])
  {
    var x := s.slots[step.p].place;
    assert PlaceOk(s, step.p) && PidOk(s, step.p) && ParentOk(s, INIT);
    assert s.waitLock != NONE ==> PlaceOk(s, s.waitLock);
    assert step.Look? || step.Reparent? ==> PidOk(s, x.k);
    StepBasic(s, step);
  }

  lemma StepBasic(s: State, step: Step)
    requires Basic(s) && Enabled(s, step) && PlaceOk(s, step.p) && ParentOk(s, INIT) && (s.waitLock != NONE ==> PlaceOk(s, s.waitLock))
    ensures Basic(Do(s, step))
  {
  }

  // ---- Runs ----

  ghost predicate IsRun(s: State, steps: seq<Step>)
    decreases |steps|
  {
    steps == [] || (Enabled(s, steps[0]) && IsRun(Do(s, steps[0]), steps[1..]))
  }

  ghost function AfterRun(s: State, steps: seq<Step>): State
    requires IsRun(s, steps)
    decreases |steps|
  {
    if steps == [] then s else AfterRun(Do(s, steps[0]), steps[1..])
  }

  lemma {:induction false} RunKeepsInv(s: State, steps: seq<Step>)
    requires Inv(s) && IsRun(s, steps)
    ensures Inv(AfterRun(s, steps))
    decreases |steps|
  {
    if steps != [] {
      StepKeepsInv(s, steps[0]);
      RunKeepsInv(Do(s, steps[0]), steps[1..]);
    }
  }

  /** In every interleaving, the parent of a slot is nobody or a process that is neither unused nor a
      zombie: so no unused slot is anyone's parent, and the next process in it has no children. */
  lemma ParentIsAlive(s: State, steps: seq<Step>, k: int)
    requires Boot(s) && IsRun(s, steps)
    ensures var u := AfterRun(s, steps);
      InTable(u, k) && u.slots[k].parent != NONE ==> InTable(u, u.slots[k].parent) && u.slots[u.slots[k].parent].status == Alive
  {
    BootInv(s);
    RunKeepsInv(s, steps);
    assert InTable(AfterRun(s, steps), k) ==> ParentOk(AfterRun(s, steps), k);
  }

  /** The process that is given a slot has no children in it: nobody in the table names the slot as parent. */
  lemma ReusedSlotHasNoChildren(s: State, steps: seq<Step>, step: Step, k: int)
    requires Boot(s) && IsRun(s, steps) && step.Alloc? && Enabled(AfterRun(s, steps), step)
    ensures var u := Do(AfterRun(s, steps), step);
      u.slots[step.c].status == Used && u.slots[step.c].parent == NONE && (InTable(u, k) ==> u.slots[k].parent != step.c)
  {
    var u := AfterRun(s, steps);
    if InTable(u, k) {
      ParentIsAlive(s, steps, k);
    }
  }

  /** wait() reaps a zombie once only, in its current parent, which forked it or is init after the one that
      did called exit(); and it returns the status the zombie called exit() with. */
  lemma ReapedOnce(s: State, steps: seq<Step>, step: Step)
    requires Boot(s) && IsRun(s, steps) && Reaps(AfterRun(s, steps), step)
    ensures var u := AfterRun(s, steps);
      var child := u.slots[u.slots[step.p].place.k];
      && child.pid !in u.reaped && child.pid in u.exited && Do(u, step).reaped == u.reaped[child.pid := u.exited[child.pid]]
      && child.pid in u.forkedBy && (u.forkedBy[child.pid] == u.slots[step.p].pid || (step.p == INIT && u.forkedBy[child.pid] in u.exited))
  {
    BootInv(s);
    RunKeepsInv(s, steps);
    var u := AfterRun(s, steps);
    var k := u.slots[step.p].place.k;
    assert ParentOk(u, k) && PidOk(u, k);
  }

  /** Every status wait() has returned is the one its process called exit() with. */
  lemma StatusIsTheExitStatus(s: State, steps: seq<Step>, pid: int)
    requires Boot(s) && IsRun(s, steps)
    ensures var u := AfterRun(s, steps); pid in u.reaped ==> pid in u.exited && u.reaped[pid] == u.exited[pid]
  {
    BootInv(s);
    RunKeepsInv(s, steps);
  }

  // ---- What fork(), exit() and wait() achieve ----

  /** What a process under wait_lock in wait() has seen: whether it has children among the slots looked at, none of
      which is a zombie. */
  predicate KidSeen(s: State, p: int, k: int)
    requires InTable(s, p) && InTable(s, k)
  {
    var x := s.slots[p].place;
    s.slots[p].status == Alive && x.Waiting? && k < x.k && s.slots[k].parent == p ==> x.haveKids && s.slots[k].status != Zombie
  }

  ghost predicate SomeKid(s: State, p: int)
    requires InTable(s, p)
  {
    var x := s.slots[p].place;
    s.slots[p].status == Alive && x.Waiting? && x.haveKids ==> exists k {:trigger s.slots[k]} :: InTable(s, k) && s.slots[k].parent == p
  }

  ghost predicate KidsInv(s: State) {
    && (forall p, k {:trigger KidSeen(s, p, k)} :: InTable(s, p) && InTable(s, k) ==> KidSeen(s, p, k))
    && (forall p {:trigger SomeKid(s, p)} :: InTable(s, p) ==> SomeKid(s, p))
  }

  lemma StepSeen(s: State, step: Step, p: int, k: int)
    requires Basic(s) && Enabled(s, step) && InTable(s, p) && InTable(s, k) && KidSeen(s, p, k)
    requires PlaceOk(s, p) && PlaceOk(s, step.p) && ParentOk(s, k)
    ensures KidSeen(Do(s, step), p, k)
  {
  }

  lemma StepSome(s: State, step: Step, p: int)
    requires Basic(s) && Enabled(s, step) && InTable(s, p) && SomeKid(s, p) && PlaceOk(s, p) && PlaceOk(s, step.p)
    requires forall k {:trigger ParentOk(s, k)} :: InTable(s, k) ==> ParentOk(s, k)
    ensures SomeKid(Do(s, step), p)
  {
    var u := Do(s, step);
    var x, y := s.slots[p].place, u.slots[p].place;
    if u.slots[p].status == Alive && y.Waiting? && y.haveKids {
      if x.Waiting? && x.haveKids && s.slots[p].status == Alive {
        var k :| InTable(s, k) && s.slots[k].parent == p;
        assert ParentOk(s, k);
        assert u.slots[k].parent == p;
      } else {
        assert step.Look? && step.p == p && u.slots[x.k].parent == p;
      }
    }
  }

  lemma StepKeepsKids(s: State, step: Step)
    requires Inv(s) && KidsInv(s) && Enabled(s, step)
    ensures KidsInv(Do(s, step))
  {
    hide Basic, KidSeen, SomeKid, PlaceOk, ParentOk;
    var u := Do(s, step);
    StepShape(s, step);
    assert PlaceOk(s, step.p);
    forall p, k | InTable(u, p) && InTable(u, k)
      ensures KidSeen(u, p, k)
    {
      assert KidSeen(s, p, k) && PlaceOk(s, p) && ParentOk(s, k);
      StepSeen(s, step, p, k);
    }
    forall p | InTable(u, p)
      ensures SomeKid(u, p)
    {
      assert SomeKid(s, p) && PlaceOk(s, p);
      StepSome(s, step, p);
    }
  }

  lemma {:induction false} RunKeepsKids(s: State, steps: seq<Step>)
    requires Inv(s) && KidsInv(s) && IsRun(s, steps)
    ensures KidsInv(AfterRun(s, steps))
    decreases |steps|
  {
    hide KidsInv;
    if steps != [] {
      StepKeepsInv(s, steps[0]);
      StepKeepsKids(s, steps[0]);
      RunKeepsKids(Do(s, steps[0]), steps[1..]);
    }
  }

  lemma BootKids(s: State)
    requires Boot(s)
    ensures KidsInv(s)
  {
  }

  /** How a scan of wait() that reaped nobody ends: the caller goes to sleep exactly if it has children and is not
      killed, and returns exactly if it has none or is; and it never goes to sleep on a zombie. */
  lemma WaitSleepsExactly(s: State, steps: seq<Step>, p: int, killed: bool)
    requires Boot(s) && IsRun(s, steps) && Enabled(AfterRun(s, steps), Give(p, killed))
    ensures var u, v := AfterRun(s, steps), Do(AfterRun(s, steps), Give(p, killed));
      var children := exists k {:trigger u.slots[k]} :: InTable(u, k) && u.slots[k].parent == p;
      && v.slots == u.slots[p := v.slots[p]]
      && (v.slots[p].place == Asleep <==> children && !killed)
      && (v.slots[p].place == Running <==> !children || killed)
      && v.waitLock == NONE && v.reaped == u.reaped
      && forall k {:trigger u.slots[k]} :: InTable(u, k) && u.slots[k].parent == p ==> u.slots[k].status != Zombie
  {
    BootInv(s);
    BootKids(s);
    RunKeepsInv(s, steps);
    RunKeepsKids(s, steps);
    var u := AfterRun(s, steps);
    assert SomeKid(u, p);
    forall k | InTable(u, k) && u.slots[k].parent == p
      ensures u.slots[k].status != Zombie && u.slots[p].place.haveKids
    {
      assert KidSeen(u, p, k);
    }
  }

  /** wait() reaps the first of the caller's zombies, and frees its slot. */
  lemma FirstZombieIsReaped(s: State, steps: seq<Step>, p: int)
    requires Boot(s) && IsRun(s, steps) && Enabled(AfterRun(s, steps), Look(p, true))
    ensures var u, v := AfterRun(s, steps), Do(AfterRun(s, steps), Look(p, true));
      var k := u.slots[p].place.k;
      && (forall j {:trigger u.slots[j]} :: InTable(u, j) && j < k && u.slots[j].parent == p ==> u.slots[j].status != Zombie)
      && (u.slots[k].parent == p && u.slots[k].status == Zombie ==> v.slots[k] == FREE && u.slots[k].pid in v.reaped && v.waitLock == NONE)
      && (!(u.slots[k].parent == p && u.slots[k].status == Zombie) ==> v.reaped == u.reaped && v.slots == u.slots[p := v.slots[p]])
  {
    BootInv(s);
    BootKids(s);
    RunKeepsInv(s, steps);
    RunKeepsKids(s, steps);
    var u := AfterRun(s, steps);
    var k := u.slots[p].place.k;
    assert ParentOk(u, k);
    forall j | InTable(u, j) && j < k && u.slots[j].parent == p
      ensures u.slots[j].status != Zombie
    {
      assert KidSeen(u, p, j);
    }
  }

  /** A process that exits leaves no children behind, and its status for its parent. */
  lemma ExitLeavesNoChildren(s: State, steps: seq<Step>, p: int)
    requires Boot(s) && IsRun(s, steps) && Enabled(AfterRun(s, steps), Die(p))
    ensures var u, v := AfterRun(s, steps), Do(AfterRun(s, steps), Die(p));
      && v.slots[p].status == Zombie && u.slots[p].pid in v.exited && v.slots[p].xstate == v.exited[u.slots[p].pid]
      && v.slots[p].parent != NONE && v.waitLock == NONE
      && forall k {:trigger v.slots[k]} :: InTable(v, k) ==> v.slots[k].parent != p
  {
    BootInv(s);
    RunKeepsInv(s, steps);
    var u, v := AfterRun(s, steps), Do(AfterRun(s, steps), Die(p));
    assert PidOk(u, p) && ParentOk(u, p) && PlaceOk(u, p);
    forall k | InTable(v, k)
      ensures v.slots[k].parent != p
    {
      assert Scanned(u, p, k);
    }
  }

  /** What fork() comes to when the child is started: a process with a pid of its own whose parent is the caller. */
  lemma ForkedIsChild(s: State, steps: seq<Step>, p: int, k: int)
    requires Boot(s) && IsRun(s, steps) && Enabled(AfterRun(s, steps), Start(p))
    ensures var u, v := AfterRun(s, steps), Do(AfterRun(s, steps), Start(p));
      var c := u.slots[p].place.c;
      && InTable(v, c) && c != p && v.slots[c].status == Alive && v.slots[c].parent == p && v.slots[c].place == Running
      && v.slots[p] == u.slots[p].(place := Running)
      && (InTable(v, k) && k != c && v.slots[k].status != Unused ==> v.slots[k].pid != v.slots[c].pid)
  {
    BootInv(s);
    RunKeepsInv(s, steps);
    var u := AfterRun(s, steps);
    var c := u.slots[p].place.c;
    assert PlaceOk(u, p) && ParentOk(u, c);
    assert InTable(u, k) ==> Apart(u, c, k);
  }

  /** Whatever stops a process: exit(), wait(), a fork() about to name the parent, and waking up in wait() need
      wait_lock, a fork() that begins a free slot; nothing else waits. */
  lemma WaitsExactly(s: State, p: int)
    requires Inv(s) && InTable(s, p) && s.slots[p].status == Alive
    ensures var x := s.slots[p].place;
      var free := s.waitLock == NONE;
      && (Enabled(s, Wait(p)) <==> x == Running && free) && (Enabled(s, Exit(p, 0)) <==> x == Running && free && p != INIT)
      && ((exists c :: Enabled(s, Alloc(p, c))) <==>
          x == Running && exists c {:trigger s.slots[c]} :: InTable(s, c) && s.slots[c].status == Unused)
      && (Enabled(s, Link(p)) <==> x.Forking? && free) && (Enabled(s, ForkFails(p)) <==> x.Forking?)
      && (Enabled(s, Start(p)) <==> x.Linked?) && (Enabled(s, Wake(p)) <==> x == Asleep && free)
      && (x.Exiting? ==> Enabled(s, Reparent(p)) || Enabled(s, Die(p)))
      && (x.Waiting? ==> Enabled(s, Look(p, true)) || Enabled(s, Give(p, false)))
  {
    assert PlaceOk(s, p);
    if c :| InTable(s, c) && s.slots[c].status == Unused {
      assert s.slots[p].place == Running ==> Enabled(s, Alloc(p, c));
    }
  }

  /** One step more. */
  lemma {:induction false} Then(s: State, steps: seq<Step>, step: Step)
    requires IsRun(s, steps) && Enabled(AfterRun(s, steps), step)
    ensures IsRun(s, steps + [step]) && AfterRun(s, steps + [step]) == Do(AfterRun(s, steps), step)
    decreases |steps|
  {
    hide Enabled, Do;
    var more := steps + [step];
    if steps == [] {
      assert more[1..] == [];
    } else {
      Then(Do(s, steps[0]), steps[1..], step);
      assert more[1..] == steps[1..] + [step];
    }
  }

  lemma RunNone(s: State)
    ensures IsRun(s, []) && AfterRun(s, []) == s
  {
  }

  /** The slots of the two runs below: init, and a process that runs in its own code. */
  function InitAt(x: Place): Proc { Proc(Alive, NONE, 1, 0, x) }

  function ChildOf(parent: int, pid: int): Proc { Proc(Alive, parent, pid, 0, Running) }

  lemma ChildRuns() returns (s: State, steps: seq<Step>)
    ensures s == State([InitAt(Running), FREE], NONE, 2, map[], map[], map[]) && IsRun(s, steps)
    ensures AfterRun(s, steps) == State([InitAt(Running), ChildOf(0, 2)], NONE, 3, map[2 := 1], map[], map[])
  {
    hide IsRun;
    s, steps := State([InitAt(Running), FREE], NONE, 2, map[], map[], map[]), [];
    RunNone(s);
    Then(s, steps, Alloc(0, 1));
    steps := steps + [Alloc(0, 1)];
    assert AfterRun(s, steps) == State([InitAt(Forking(1)), Proc(Used, NONE, 2, 0, Running)], NONE, 3, map[2 := 1], map[], map[]);
    Then(s, steps, Link(0));
    steps := steps + [Link(0)];
    assert AfterRun(s, steps) == State([InitAt(Linked(1)), Proc(Used, 0, 2, 0, Running)], NONE, 3, map[2 := 1], map[], map[]);
    Then(s, steps, Start(0));
    steps := steps + [Start(0)];
  }

  lemma InitSleeps() returns (s: State, steps: seq<Step>)
    ensures s == State([InitAt(Running), FREE], NONE, 2, map[], map[], map[]) && IsRun(s, steps)
    ensures AfterRun(s, steps) == State([InitAt(Asleep), ChildOf(0, 2)], NONE, 3, map[2 := 1], map[], map[])
  {
    hide IsRun;
    s, steps := ChildRuns();
    Then(s, steps, Wait(0));
    steps := steps + [Wait(0)];
    assert AfterRun(s, steps) == State([InitAt(Waiting(0, false)), ChildOf(0, 2)], 0, 3, map[2 := 1], map[], map[]);
    Then(s, steps, Look(0, true));
    steps := steps + [Look(0, true)];
    assert AfterRun(s, steps) == State([InitAt(Waiting(1, false)), ChildOf(0, 2)], 0, 3, map[2 := 1], map[], map[]);
    Then(s, steps, Look(0, true));
    steps := steps + [Look(0, true)];
    assert AfterRun(s, steps) == State([InitAt(Waiting(2, true)), ChildOf(0, 2)], 0, 3, map[2 := 1], map[], map[]);
    Then(s, steps, Give(0, false));
    steps := steps + [Give(0, false)];
  }

  lemma ChildIsZombie() returns (s: State, steps: seq<Step>)
    ensures s == State([InitAt(Running), FREE], NONE, 2, map[], map[], map[]) && IsRun(s, steps)
    ensures AfterRun(s, steps) == State([InitAt(Asleep), Proc(Zombie, 0, 2, 7, Running)], NONE, 3, map[2 := 1], map[2 := 7], map[])
  {
    hide IsRun;
    s, steps := InitSleeps();
    Then(s, steps, Exit(1, 7));
    steps := steps + [Exit(1, 7)];
    assert AfterRun(s, steps) == State([InitAt(Asleep), Proc(Alive, 0, 2, 0, Exiting(0, 7))], 1, 3, map[2 := 1], map[2 := 7], map[]);
    Then(s, steps, Reparent(1));
    steps := steps + [Reparent(1)];
    assert AfterRun(s, steps) == State([InitAt(Asleep), Proc(Alive, 0, 2, 0, Exiting(1, 7))], 1, 3, map[2 := 1], map[2 := 7], map[]);
    Then(s, steps, Reparent(1));
    steps := steps + [Reparent(1)];
    assert AfterRun(s, steps) == State([InitAt(Asleep), Proc(Alive, 0, 2, 0, Exiting(2, 7))], 1, 3, map[2 := 1], map[2 := 7], map[]);
    Then(s, steps, Die(1));
    steps := steps + [Die(1)];
  }

  /** fork(), exit() and wait() together: init forks a process and waits for it, asleep while it runs; the child exits with
      status 7, and wait() gives init that pid and status and frees the slot. */
  lemma ForkExitWait() returns (s: State, steps: seq<Step>)
    ensures s == State([InitAt(Running), FREE], NONE, 2, map[], map[], map[]) && IsRun(s, steps)
    ensures AfterRun(s, steps) == State([InitAt(Running), FREE], NONE, 3, map[2 := 1], map[2 := 7], map[2 := 7])
  {
    hide IsRun;
    s, steps := ChildIsZombie();
    Then(s, steps, Wake(0));
    steps := steps + [Wake(0)];
    assert AfterRun(s, steps) == State([InitAt(Waiting(0, false)), Proc(Zombie, 0, 2, 7, Running)], 0, 3, map[2 := 1], map[2 := 7], map[]);
    Then(s, steps, Look(0, true));
    steps := steps + [Look(0, true)];
    assert AfterRun(s, steps) == State([InitAt(Waiting(1, false)), Proc(Zombie, 0, 2, 7, Running)], 0, 3, map[2 := 1], map[2 := 7], map[]);
    Then(s, steps, Look(0, true));
    steps := steps + [Look(0, true)];
  }

  lemma FirstChild() returns (s: State, steps: seq<Step>)
    ensures s == State([InitAt(Running), FREE, FREE], NONE, 2, map[], map[], map[]) && IsRun(s, steps)
    ensures AfterRun(s, steps) == State([InitAt(Running), ChildOf(0, 2), FREE], NONE, 3, map[2 := 1], map[], map[])
  {
    hide IsRun;
    s, steps := State([InitAt(Running), FREE, FREE], NONE, 2, map[], map[], map[]), [];
    RunNone(s);
    Then(s, steps, Alloc(0, 1));
    steps := steps + [Alloc(0, 1)];
    assert AfterRun(s, steps) == State([InitAt(Forking(1)), Proc(Used, NONE, 2, 0, Running), FREE], NONE, 3, map[2 := 1], map[], map[]);
    Then(s, steps, Link(0));
    steps := steps + [Link(0)];
    assert AfterRun(s, steps) == State([InitAt(Linked(1)), Proc(Used, 0, 2, 0, Running), FREE], NONE, 3, map[2 := 1], map[], map[]);
    Then(s, steps, Start(0));
    steps := steps + [Start(0)];
  }

  lemma Grandchild() returns (s: State, steps: seq<Step>)
    ensures s == State([InitAt(Running), FREE, FREE], NONE, 2, map[], map[], map[]) && IsRun(s, steps)
    ensures AfterRun(s, steps) == State([InitAt(Running), ChildOf(0, 2), ChildOf(1, 3)], NONE, 4, map[2 := 1, 3 := 2], map[], map[])
  {
    hide IsRun;
    s, steps := FirstChild();
    Then(s, steps, Alloc(1, 2));
    steps := steps + [Alloc(1, 2)];
    assert AfterRun(s, steps) == State([InitAt(Running), Proc(Alive, 0, 2, 0, Forking(2)),
        Proc(Used, NONE, 3, 0, Running)], NONE, 4, map[2 := 1, 3 := 2], map[], map[]);
    Then(s, steps, Link(1));
    steps := steps + [Link(1)];
    assert AfterRun(s, steps) == State([InitAt(Running), Proc(Alive, 0, 2, 0, Linked(2)),
        Proc(Used, 1, 3, 0, Running)], NONE, 4, map[2 := 1, 3 := 2], map[], map[]);
    Then(s, steps, Start(1));
    steps := steps + [Start(1)];
  }

  lemma ParentExits() returns (s: State, steps: seq<Step>)
    ensures s == State([InitAt(Running), FREE, FREE], NONE, 2, map[], map[], map[]) && IsRun(s, steps)
    ensures AfterRun(s, steps) == State([InitAt(Running), Proc(Zombie, 0, 2, 5, Running), ChildOf(0, 3)], NONE, 4,
        map[2 := 1, 3 := 2], map[2 := 5], map[])
  {
    hide IsRun;
    s, steps := Grandchild();
    Then(s, steps, Exit(1, 5));
    steps := steps + [Exit(1, 5)];
    assert AfterRun(s, steps) == State([InitAt(Running), Proc(Alive, 0, 2, 0, Exiting(0, 5)), ChildOf(1, 3)], 1, 4,
        map[2 := 1, 3 := 2], map[2 := 5], map[]);
    Then(s, steps, Reparent(1));
    steps := steps + [Reparent(1)];
    assert AfterRun(s, steps) == State([InitAt(Running), Proc(Alive, 0, 2, 0, Exiting(1, 5)), ChildOf(1, 3)], 1, 4,
        map[2 := 1, 3 := 2], map[2 := 5], map[]);
    Then(s, steps, Reparent(1));
    steps := steps + [Reparent(1)];
    assert AfterRun(s, steps) == State([InitAt(Running), Proc(Alive, 0, 2, 0, Exiting(2, 5)), ChildOf(1, 3)], 1, 4,
        map[2 := 1, 3 := 2], map[2 := 5], map[]);
    Then(s, steps, Reparent(1));
    steps := steps + [Reparent(1)];
    assert AfterRun(s, steps) == State([InitAt(Running), Proc(Alive, 0, 2, 0, Exiting(3, 5)), ChildOf(0, 3)], 1, 4,
        map[2 := 1, 3 := 2], map[2 := 5], map[]);
    Then(s, steps, Die(1));
    steps := steps + [Die(1)];
  }

  /** A process whose parent exits becomes init's child, and init's wait() reaps the parent. */
  lemma OrphanGoesToInit() returns (s: State, steps: seq<Step>)
    ensures s == State([InitAt(Running), FREE, FREE], NONE, 2, map[], map[], map[]) && IsRun(s, steps)
    ensures AfterRun(s, steps) == State([InitAt(Running), FREE, ChildOf(0, 3)], NONE, 4, map[2 := 1, 3 := 2], map[2 := 5], map[2 := 5])
  {
    hide IsRun;
    s, steps := ParentExits();
    Then(s, steps, Wait(0));
    steps := steps + [Wait(0)];
    assert AfterRun(s, steps) == State([InitAt(Waiting(0, false)), Proc(Zombie, 0, 2, 5, Running), ChildOf(0, 3)], 0,
        4, map[2 := 1, 3 := 2], map[2 := 5], map[]);
    Then(s, steps, Look(0, true));
    steps := steps + [Look(0, true)];
    assert AfterRun(s, steps) == State([InitAt(Waiting(1, false)), Proc(Zombie, 0, 2, 5, Running), ChildOf(0, 3)], 0,
        4, map[2 := 1, 3 := 2], map[2 := 5], map[]);
    Then(s, steps, Look(0, true));
    steps := steps + [Look(0, true)];
  }
}
