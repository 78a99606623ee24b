/** The counting semaphores of ass2 over sleep() and wakeup(), as a machine whose steps are the critical
    sections of any number of threads. */
module Semaphore {

  /** Where a thread is. `Dozing` holds the semaphore's lock and its own, `Released` its own only; a
      thread that runs bsem_up() holds wait_lock from `Raising` on. `Scanning(d, k, raised)` looks next
      at thread k, and `raised` says whether its bsem_up() has increased the value. */
  datatype Place =
    | Idle
    | WantsDown(d: int)
    | Checking(d: int)
    | Dozing(d: int)
    | Released(d: int)
    | Asleep(d: int)
    | Woken(d: int)
    | WantsUp(d: int)
    | Raising(d: int)
    | Posting(d: int)
    | Scanning(d: int, k: int, raised: bool)

  /** A semaphore in use: its value and limit, who holds its lock (-1: nobody), and how many downs have
      completed and how many ups have had an effect since it was allocated. */
  datatype Sem = Sem(value: int, max: int, holder: int, downs: nat, ups: nat)

  datatype State = State(sems: seq<Sem>, threads: seq<Place>, waitLock: int)

  datatype Step =
    | CallDown(t: int, d: int)
    | LockDown(t: int)
    | Take(t: int)
    | Doze(t: int)
    | Unlock(t: int)
    | FallAsleep(t: int)
    | Relock(t: int)
    | CallUp(t: int, d: int)
    | LockWait(t: int)
    | LockUp(t: int)
    | Post(t: int)
    | Scan(t: int)
    | Finish(t: int)

  predicate IsSem(s: State, d: int) { 0 <= d < |s.sems| }

  /** A thread that holds its own lock keeps wakeup() waiting. */
  predicate OwnLockHeld(p: Place) { p.Dozing? || p.Released? }

  predicate Enabled(s: State, step: Step) {
    0 <= step.t < |s.threads| &&
    var p := s.threads[step.t];
    match step
    case CallDown(t, d) => p == Idle && IsSem(s, d)
    case LockDown(t) => p.WantsDown? && IsSem(s, p.d) && s.sems[p.d].holder == -1
    case Take(t) => p.Checking? && IsSem(s, p.d) && s.sems[p.d].value > 0
    case Doze(t) => p.Checking? && IsSem(s, p.d) && s.sems[p.d].value <= 0
    case Unlock(t) => p.Dozing? && IsSem(s, p.d)
    case FallAsleep(t) => p.Released?
    case Relock(t) => p.Woken? && IsSem(s, p.d) && s.sems[p.d].holder == -1
    case CallUp(t, d) => p == Idle && IsSem(s, d)
    case LockWait(t) => p.WantsUp? && s.waitLock == -1
    case LockUp(t) => p.Raising? && IsSem(s, p.d) && s.sems[p.d].holder == -1
    case Post(t) => p.Posting? && IsSem(s, p.d)
    case Scan(t) => p.Scanning? && 0 <= p.k < |s.threads| && (p.k == t || !OwnLockHeld(s.threads[p.k]))
    case Finish(t) => p.Scanning? && p.k == |s.threads|
  }

  function Move(s: State, t: int, p: Place): State
    requires 0 <= t < |s.threads|
  {
    s.(threads := s.threads[t := p])
  }

  function Change(s: State, d: int, m: Sem): State
    requires IsSem(s, d)
  {
    s.(sems := s.sems[d := m])
  }

  function Do(s: State, step: Step): State
    requires Enabled(s, step)
  {
    var t, p := step.t, s.threads[step.t];
    match step
    case CallDown(_, d) => Move(s, t, WantsDown(d))
    case LockDown(_) => Change(Move(s, t, Checking(p.d)), p.d, s.sems[p.d].(holder := t))
    case Take(_) => Change(Move(s, t, Idle), p.d,
        s.sems[p.d].(holder := -1, value := s.sems[p.d].value - 1, downs := s.sems[p.d].downs + 1))
    case Doze(_) => Move(s, t, Dozing(p.d))
    case Unlock(_) => Change(Move(s, t, Released(p.d)), p.d, s.sems[p.d].(holder := -1))
    case FallAsleep(_) => Move(s, t, Asleep(p.d))
    case Relock(_) => Change(Move(s, t, Checking(p.d)), p.d, s.sems[p.d].(holder := t))
    case CallUp(_, d) => Move(s, t, WantsUp(d))
    case LockWait(_) => Move(s, t, Raising(p.d)).(waitLock := t)
    case LockUp(_) => Change(Move(s, t, Posting(p.d)), p.d, s.sems[p.d].(holder := t))
    case Post(_) =>
      var m := s.sems[p.d].(holder := -1);
      Change(Move(s, t, Scanning(p.d, 0, m.value < m.max)), p.d, if m.value < m.max then m.(value := m.value + 1, ups := m.ups + 1) else m)
    case Scan(_) =>
      var next := Scanning(p.d, p.k + 1, p.raised);
      if p.k != t && s.threads[p.k] == Asleep(p.d) then Move(Move(s, p.k, Woken(p.d)), t, next) else Move(s, t, next)
    case Finish(_) => Move(s, t, Idle).(waitLock := -1)
  }

  /** Semaphores as bsem_alloc() and ccsem_alloc() leave them, no thread in any of them. */
  predicate Fresh(s: State) {
    && s.waitLock == -1
    && (forall t {:trigger s.threads[t]} :: 0 <= t < |s.threads| ==> s.threads[t] == Idle)
    && (forall d {:trigger s.sems[d]} :: 0 <= d < |s.sems| ==>
        s.sems[d].max >= 0 && s.sems[d] == Sem(s.sems[d].max, s.sems[d].max, -1, 0, 0))
  }

  // ---- The invariant ----

  predicate HoldsSem(p: Place, d: int) {
    p == Checking(d) || p == Dozing(d) || p == Posting(d)
  }

  predicate HoldsWait(p: Place) { p.Raising? || p.Posting? || p.Scanning? }

  /** The locks a thread's place says it holds are its, and a dozing thread has seen the value zero. */
  predicate PlaceOk(s: State, t: int)
    requires 0 <= t < |s.threads|
  {
    var p := s.threads[t];
    && (p != Idle ==> IsSem(s, p.d))
    && (HoldsWait(p) <==> s.waitLock == t)
    && (p.Checking? || p.Dozing? || p.Posting? ==> s.sems[p.d].holder == t)
    && (p.Dozing? ==> s.sems[p.d].value == 0)
    && (p.Scanning? ==> 0 <= p.k <= |s.threads|)
  }

  /** The wakeup() of an effective bsem_up() of d that has not yet looked at thread t. */
  predicate OnTheWay(s: State, d: int, t: int) {
    && 0 <= s.waitLock < |s.threads| && s.threads[s.waitLock].Scanning? && s.threads[s.waitLock].d == d
    && s.threads[s.waitLock].k <= t && s.threads[s.waitLock].raised
  }

  predicate SleeperOk(s: State, t: int)
    requires 0 <= t < |s.threads|
  {
    var p := s.threads[t];
    (p.Asleep? || p.Released?) && IsSem(s, p.d) && s.sems[p.d].value > 0 ==> OnTheWay(s, p.d, t)
  }

  predicate SemOk(s: State, d: int)
    requires IsSem(s, d)
  {
    var m := s.sems[d];
    && 0 <= m.value <= m.max && m.downs - m.ups == m.max - m.value
    && -1 <= m.holder < |s.threads| && (m.holder != -1 ==> HoldsSem(s.threads[m.holder], d))
  }

  ghost predicate Inv(s: State) {
    && -1 <= s.waitLock < |s.threads|
    && (forall t {:trigger PlaceOk(s, t)} :: 0 <= t < |s.threads| ==> PlaceOk(s, t))
    && (forall t {:trigger SleeperOk(s, t)} :: 0 <= t < |s.threads| ==> SleeperOk(s, t))
    && (forall d {:trigger SemOk(s, d)} :: IsSem(s, d) ==> SemOk(s, d))
  }

  lemma FreshInv(s: State)
    requires Fresh(s)
    ensures Inv(s)
  {
  }

  /** Every step keeps each thread's locks right. */
  lemma StepPlaces(s: State, step: Step, t: int)
    requires Inv(s) && Enabled(s, step) && 0 <= t < |s.threads|
    ensures PlaceOk(Do(s, step), t)
  {
    var p := s.threads[step.t];
    assert PlaceOk(s, t) && PlaceOk(s, step.t);
    if p != Idle {
      assert SemOk(s, p.d);
    }
  }

  lemma StepSems(s: State, step: Step, d: int)
    requires Inv(s) && Enabled(s, step) && IsSem(s, d)
    ensures SemOk(Do(s, step), d)
  {
    var p := s.threads[step.t];
    assert SemOk(s, d) && PlaceOk(s, step.t);
  }

  lemma StepSleepers(s: State, step: Step, t: int)
    requires Inv(s) && Enabled(s, step) && 0 <= t < |s.threads|
    ensures SleeperOk(Do(s, step), t)
  {
    var p := s.threads[step.t];
    assert SleeperOk(s, t) && PlaceOk(s, step.t) && PlaceOk(s, t);
    if s.waitLock != -1 {
      assert PlaceOk(s, s.waitLock);
    }
  }

  lemma StepKeepsInv(s: State, step: Step)
    requires Inv(s) && Enabled(s, step)
    ensures Inv(Do(s, step))
  {
    var u := Do(s, step);
    forall t | 0 <= t < |u.threads|
      ensures PlaceOk(u, t) && SleeperOk(u, t)
    {
      StepPlaces(s, step, t);
      StepSleepers(s, step, t);
    }
    forall d | IsSem(u, d)
      ensures SemOk(u, d)
    {
      StepSems(s, step, d);
    }
  }

  // ---- Runs ----

  ghost predicate IsRun(s: State, steps: seq<Step>)
    decreases |steps|
  {
    steps == [] || (Enabled(s, steps[0]) && IsRun(Do(s, steps[0]), steps[1..]))
  }

  ghost function AfterRun(s: State, steps: seq<Step>): State
    requires IsRun(s, steps)
    decreases |steps|
  {
    if steps == [] then s else AfterRun(Do(s, steps[0]), steps[1..])
  }

  lemma {:induction false} RunKeepsInv(s: State, steps: seq<Step>)
    requires Inv(s) && IsRun(s, steps)
    ensures Inv(AfterRun(s, steps))
    decreases |steps|
  {
    if steps != [] {
      StepKeepsInv(s, steps[0]);
      RunKeepsInv(Do(s, steps[0]), steps[1..]);
    }
  }

  /** No wakeup is lost: in every reachable state a thread asleep on a semaphore whose value is positive is
      yet to be looked at by the wakeup() of a bsem_up() that increased the value. */
  lemma NoLostWakeup(s: State, steps: seq<Step>, t: int)
    requires Fresh(s) && IsRun(s, steps)
    ensures var u := AfterRun(s, steps);
      0 <= t < |u.threads| && u.threads[t].Asleep? && IsSem(u, u.threads[t].d) && u.sems[u.threads[t].d].value > 0 ==>
        OnTheWay(u, u.threads[t].d, t)
  {
    FreshInv(s);
    RunKeepsInv(s, steps);
    var u := AfterRun(s, steps);
    assert 0 <= t < |u.threads| ==> SleeperOk(u, t);
  }

  /** The value stays between zero and its limit and is the limit less the downs plus the ups that had an effect. */
  lemma ValueIsAccounted(s: State, steps: seq<Step>, d: int)
    requires Fresh(s) && IsRun(s, steps)
    ensures var u := AfterRun(s, steps);
      IsSem(u, d) ==> 0 <= u.sems[d].value <= u.sems[d].max && u.sems[d].downs - u.sems[d].ups == u.sems[d].max - u.sems[d].value
  {
    FreshInv(s);
    RunKeepsInv(s, steps);
    var u := AfterRun(s, steps);
    assert IsSem(u, d) ==> SemOk(u, d);
  }

  // ---- What bsem_up() and bsem_down() achieve ----

  /** Right after the critical section of a bsem_up() the semaphore is available, if it can be at all: the value has
      grown by one, or was at its limit already. No other semaphore has changed. */
  lemma UpReleases(s: State, steps: seq<Step>, t: int)
    requires Fresh(s) && IsRun(s, steps) && 0 <= t < |AfterRun(s, steps).threads| && AfterRun(s, steps).threads[t].Posting?
    ensures var u := AfterRun(s, steps);
      Enabled(u, Post(t)) && IsSem(u, u.threads[t].d)
    ensures var u, v := AfterRun(s, steps), Do(AfterRun(s, steps), Post(t));
      var d := u.threads[t].d;
      && |v.sems| == |u.sems| && (forall e {:trigger v.sems[e]} :: 0 <= e < |v.sems| && e != d ==> v.sems[e] == u.sems[e])
      && (u.sems[d].max > 0 ==> v.sems[d].value > 0)
      && (u.sems[d].value < u.sems[d].max ==> v.sems[d].value == u.sems[d].value + 1)
      && v.sems[d].holder == -1
  {
    FreshInv(s);
    RunKeepsInv(s, steps);
    var u := AfterRun(s, steps);
    assert PlaceOk(u, t) && SemOk(u, u.threads[t].d);
  }

  /** Whatever stops a thread: one that wants a semaphore's lock or wait_lock waits exactly until it is free, a wakeup
      until the thread it looks at has given up its own lock, a sleeper until it is woken; nothing else waits. */
  lemma WaitsExactly(s: State, t: int)
    requires Inv(s) && 0 <= t < |s.threads|
    ensures var p := s.threads[t];
      var free := p != Idle && IsSem(s, p.d) && s.sems[p.d].holder == -1;
      (exists step :: Enabled(s, step) && step.t == t) <==>
        match p
        case Idle => s.sems != []
        case WantsDown(_) => free
        case Woken(_) => free
        case Raising(_) => free
        case WantsUp(_) => s.waitLock == -1
        case Asleep(_) => false
        case Scanning(_, k, _) => k == t || !(0 <= k < |s.threads| && (s.threads[k].Dozing? || s.threads[k].Released?))
        case _ => true
  {
    var p := s.threads[t];
    assert PlaceOk(s, t);
    match p {
      case Idle => if s.sems != [] { assert Enabled(s, CallDown(t, 0)); }
      case WantsDown(d) => assert Enabled(s, LockDown(t)) <==> s.sems[d].holder == -1;
      case Checking(d) => assert Enabled(s, Take(t)) || Enabled(s, Doze(t));
      case Dozing(d) => assert Enabled(s, Unlock(t));
      case Released(d) => assert Enabled(s, FallAsleep(t));
      case Asleep(d) =>
      case Woken(d) => assert Enabled(s, Relock(t)) <==> s.sems[d].holder == -1;
      case WantsUp(d) => assert Enabled(s, LockWait(t)) <==> s.waitLock == -1;
      case Raising(d) => assert Enabled(s, LockUp(t)) <==> s.sems[d].holder == -1;
      case Posting(d) => assert Enabled(s, Post(t));
      case Scanning(d, k, _) =>
        assert k == |s.threads| ==> Enabled(s, Finish(t));
        assert k < |s.threads| && (k == t || !OwnLockHeld(s.threads[k])) ==> Enabled(s, Scan(t));
    }
  }

  /** There is no deadlock: in every reachable state in which some thread is inside a semaphore and not asleep, some
      thread can go on without a new call. */
  lemma NoDeadlock(s: State, steps: seq<Step>, t: int) returns (step: Step)
    requires Fresh(s) && IsRun(s, steps) && 0 <= t < |AfterRun(s, steps).threads|
    requires AfterRun(s, steps).threads[t] != Idle && !AfterRun(s, steps).threads[t].Asleep?
    ensures Enabled(AfterRun(s, steps), step) && !step.CallDown? && !step.CallUp?
  {
    FreshInv(s);
    RunKeepsInv(s, steps);
    var u := AfterRun(s, steps);
    hide IsRun, AfterRun, Fresh;
    assert PlaceOk(u, t);
    var p := u.threads[t];
    var w := u.waitLock;
    if p.WantsUp? && w != -1 {
      assert PlaceOk(u, w);
      step := GoesOn(u, w);
    } else {
      step := GoesOn(u, t);
    }
  }

  /** The step of thread t, or of the one that keeps it waiting. */
  lemma GoesOn(s: State, t: int) returns (step: Step)
    requires Inv(s) && 0 <= t < |s.threads| && s.threads[t] != Idle && !s.threads[t].Asleep?
    requires s.threads[t].WantsUp? ==> s.waitLock == -1
    ensures Enabled(s, step) && !step.CallDown? && !step.CallUp?
  {
    var p := s.threads[t];
    assert PlaceOk(s, t) && SemOk(s, p.d);
    var h, available := s.sems[p.d].holder, s.sems[p.d].value > 0;
    if p.Scanning? && p.k < |s.threads| && p.k != t && OwnLockHeld(s.threads[p.k]) {
      assert PlaceOk(s, p.k);
      step := if s.threads[p.k].Dozing? then Unlock(p.k) else FallAsleep(p.k);
    } else if (p.WantsDown? || p.Woken? || p.Raising?) && h != -1 {
      assert PlaceOk(s, h);
      step := match s.threads[h]
        case Dozing(_) => Unlock(h)
        case Posting(_) => Post(h)
        case _ => if available then Take(h) else Doze(h);
    } else {
      step := match p
        case WantsDown(_) => LockDown(t)
        case Woken(_) => Relock(t)
        case Raising(_) => LockUp(t)
        case WantsUp(_) => LockWait(t)
        case Posting(_) => Post(t)
        case Dozing(_) => Unlock(t)
        case Released(_) => FallAsleep(t)
        case Scanning(_, k, _) => if k == |s.threads| then Finish(t) else Scan(t)
        case _ => if available then Take(t) else Doze(t);
    }
  }

  /** A bsem_down() of an available semaphore that nobody is in the middle of. */
  lemma DownCompletes(s: State, t: int, d: int) returns (u: State, steps: seq<Step>)
    requires 0 <= t < |s.threads| && s.threads[t] == Idle && IsSem(s, d) && s.sems[d].holder == -1 && s.sems[d].value > 0
    ensures IsRun(s, steps) && AfterRun(s, steps) == u
    ensures u == s.(sems := s.sems[d := s.sems[d].(value := s.sems[d].value - 1, downs := s.sems[d].downs + 1)])
  {
    var a := Do(s, CallDown(t, d));
    var b := Do(a, LockDown(t));
    u := Do(b, Take(t));
    steps := [];
    RunNone(s);
    Then(s, steps, CallDown(t, d));
    Then(s, steps + [CallDown(t, d)], LockDown(t));
    Then(s, steps + [CallDown(t, d)] + [LockDown(t)], Take(t));
    steps := steps + [CallDown(t, d)] + [LockDown(t)] + [Take(t)];
    assert u.threads == s.threads;
    assert u.sems == s.sems[d := s.sems[d].(value := s.sems[d].value - 1, downs := s.sems[d].downs + 1)];
  }

  lemma {:induction false} RunThen(s: State, steps: seq<Step>, more: seq<Step>)
    requires IsRun(s, steps) && IsRun(AfterRun(s, steps), more)
    ensures IsRun(s, steps + more) && AfterRun(s, steps + more) == AfterRun(AfterRun(s, steps), more)
    decreases |steps|
  {
    if steps == [] {
      assert steps + more == more;
    } else {
      RunThen(Do(s, steps[0]), steps[1..], more);
      assert (steps + more)[1..] == steps[1..] + more;
    }
  }

  /** As many bsem_down() calls can complete as the limit and the bsem_up() calls so far allow. */
  lemma {:induction false} DownsReachLimit(s: State, t: int, d: int) returns (steps: seq<Step>)
    requires Inv(s) && 0 <= t < |s.threads| && s.threads[t] == Idle && IsSem(s, d) && s.sems[d].holder == -1
    ensures IsRun(s, steps) && IsSem(AfterRun(s, steps), d)
    ensures var m := AfterRun(s, steps).sems[d]; m.downs == s.sems[d].ups + s.sems[d].max && m.value == 0
    decreases s.sems[d].value
  {
    assert SemOk(s, d);
    steps := [];
    if s.sems[d].value > 0 {
      var u, first := DownCompletes(s, t, d);
      RunKeepsInv(s, first);
      var rest := DownsReachLimit(u, t, d);
      RunThen(s, first, rest);
      steps := first + rest;
    }
  }

  // ---- Who sleeps for good ----

  /** Asleep on d, or about to be: sleep() has given up the semaphore's lock. */
  predicate Sleepy(p: Place, d: int) { p == Asleep(d) || p == Released(d) }

  /** A bsem_up() of d that has still to look at thread t. */
  predicate UpFor(p: Place, d: int, t: int) {
    p == WantsUp(d) || p == Raising(d) || p == Posting(d) || (p.Scanning? && p.d == d && p.k <= t)
  }

  predicate UpComing(s: State, d: int, t: int) {
    exists u {:trigger s.threads[u]} :: 0 <= u < |s.threads| && UpFor(s.threads[u], d, t)
  }

  predicate NoUps(steps: seq<Step>, d: int) {
    forall i {:trigger steps[i]} :: 0 <= i < |steps| && steps[i].CallUp? ==> steps[i].d != d
  }

  /** Whatever the threads do, t sleeps on d as long as nobody calls bsem_up() on it. */
  ghost predicate ForGood(s: State, d: int, t: int)
    requires 0 <= t < |s.threads|
  {
    forall steps :: IsRun(s, steps) && NoUps(steps, d) ==> t < |AfterRun(s, steps).threads| && Sleepy(AfterRun(s, steps).threads[t], d)
  }

  lemma StepLeavesAsleep(s: State, step: Step, d: int, t: int)
    requires Enabled(s, step) && !(step.CallUp? && step.d == d) && 0 <= t < |s.threads|
    requires Sleepy(s.threads[t], d) && !UpComing(s, d, t)
    ensures Sleepy(Do(s, step).threads[t], d) && !UpComing(Do(s, step), d, t)
  {
    var u := Do(s, step);
    assert !UpFor(s.threads[step.t], d, t);
    forall v | 0 <= v < |u.threads|
      ensures !UpFor(u.threads[v], d, t)
    {
      assert !UpFor(s.threads[v], d, t);
    }
  }

  /** With no bsem_up() of d on its way to it, a sleeper stays asleep over every run without a new one. */
  lemma {:induction false} StaysAsleep(s: State, steps: seq<Step>, d: int, t: int)
    requires IsRun(s, steps) && NoUps(steps, d) && 0 <= t < |s.threads| && Sleepy(s.threads[t], d) && !UpComing(s, d, t)
    ensures t < |AfterRun(s, steps).threads| && Sleepy(AfterRun(s, steps).threads[t], d)
    decreases |steps|
  {
    if steps != [] {
      StepLeavesAsleep(s, steps[0], d, t);
      assert forall i :: 0 <= i < |steps| - 1 ==> steps[1..][i] == steps[i + 1];
      StaysAsleep(Do(s, steps[0]), steps[1..], d, t);
    }
  }

  // ---- A bsem_up() on its way arrives ----

  /** The locks a thread's place says it holds are its, and a lock is held by a thread that says so. */
  predicate LockOk(s: State, t: int)
    requires 0 <= t < |s.threads|
  {
    var p := s.threads[t];
    && (p != Idle ==> IsSem(s, p.d)) && (HoldsWait(p) <==> s.waitLock == t)
    && (p.Checking? || p.Dozing? || p.Posting? ==> s.sems[p.d].holder == t)
    && (p.Scanning? ==> 0 <= p.k <= |s.threads|)
  }

  predicate HolderOk(s: State, d: int)
    requires IsSem(s, d)
  {
    var h := s.sems[d].holder;
    -1 <= h < |s.threads| && (h != -1 ==> HoldsSem(s.threads[h], d))
  }

  ghost predicate LocksOk(s: State) {
    && -1 <= s.waitLock < |s.threads|
    && (forall t {:trigger LockOk(s, t)} :: 0 <= t < |s.threads| ==> LockOk(s, t))
    && (forall d {:trigger HolderOk(s, d)} :: IsSem(s, d) ==> HolderOk(s, d))
  }

  lemma StepKeepsLocks(s: State, step: Step)
    requires LocksOk(s) && Enabled(s, step)
    ensures LocksOk(Do(s, step))
  {
    var u, p := Do(s, step), s.threads[step.t];
    assert LockOk(s, step.t);
    forall t | 0 <= t < |u.threads|
      ensures LockOk(u, t)
    {
      LockStays(s, step, t);
    }
    forall d | IsSem(u, d)
      ensures HolderOk(u, d)
    {
      assert HolderOk(s, d);
    }
  }

  lemma LockStays(s: State, step: Step, t: int)
    requires LocksOk(s) && Enabled(s, step) && 0 <= t < |s.threads|
    ensures LockOk(Do(s, step), t)
  {
    var p := s.threads[step.t];
    assert LockOk(s, t) && LockOk(s, step.t);
    if p != Idle {
      assert HolderOk(s, p.d);
    }
  }

  lemma InvLocks(s: State)
    requires Inv(s)
    ensures LocksOk(s)
  {
    forall t | 0 <= t < |s.threads|
      ensures LockOk(s, t)
    {
      assert PlaceOk(s, t);
    }
    forall d | IsSem(s, d)
      ensures HolderOk(s, d)
    {
      assert SemOk(s, d);
    }
  }

  /** How many steps a thread can make before it calls, sleeps or waits for a semaphore's lock. */
  function Rank(p: Place, n: nat): nat {
    match p
    case WantsUp(_) => n + 4
    case Raising(_) => n + 3
    case Posting(_) => n + 2
    case Scanning(_, k, _) => if 0 <= k <= n then n - k + 1 else 0
    case Checking(_) => 3
    case Dozing(_) => 2
    case Released(_) => 1
    case _ => 0
  }

  function Ranks(ps: seq<Place>, n: nat): nat {
    if ps == [] then 0 else Ranks(ps[..|ps| - 1], n) + Rank(ps[|ps| - 1], n)
  }

  lemma {:induction false} RanksUpdate(ps: seq<Place>, n: nat, t: int, p: Place)
    requires 0 <= t < |ps|
    ensures Ranks(ps[t := p], n) == Ranks(ps, n) - Rank(ps[t], n) + Rank(p, n)
    decreases |ps|
  {
    var last := |ps| - 1;
    if t < last {
      RanksUpdate(ps[..last], n, t, p);
      assert ps[t := p][..last] == ps[..last][t := p];
    } else {
      assert ps[t := p][..last] == ps[..last];
    }
  }

  predicate IsCall(step: Step) { step.CallUp? || step.CallDown? || step.LockDown? || step.Relock? }

  /** Every step that is no call and takes no semaphore's lock for a bsem_down() is one of finitely many. */
  lemma StepLowersRanks(s: State, step: Step)
    requires LocksOk(s) && Enabled(s, step) && !IsCall(step)
    ensures Ranks(Do(s, step).threads, |s.threads|) < Ranks(s.threads, |s.threads|)
  {
    var n, t, u := |s.threads|, step.t, Do(s, step);
    var p := s.threads[t];
    assert LockOk(s, t);
    if step.Scan? && p.k != t && s.threads[p.k] == Asleep(p.d) {
      RanksUpdate(s.threads, n, p.k, Woken(p.d));
      RanksUpdate(s.threads[p.k := Woken(p.d)], n, t, u.threads[t]);
    } else {
      RanksUpdate(s.threads, n, t, u.threads[t]);
      assert u.threads == s.threads[t := u.threads[t]];
    }
  }

  /** A step that brings the bsem_up() nearer to thread t. */
  lemma NearerStep(s: State, d: int, t: int) returns (step: Step)
    requires LocksOk(s) && 0 <= t < |s.threads| && Sleepy(s.threads[t], d) && UpComing(s, d, t)
    ensures Enabled(s, step) && !IsCall(step)
  {
    var w := s.waitLock;
    if w == -1 {
      var u :| 0 <= u < |s.threads| && UpFor(s.threads[u], d, t);
      assert LockOk(s, u);
      return LockWait(u);
    }
    assert LockOk(s, w);
    var p := s.threads[w];
    if p.Posting? {
      step := Post(w);
    } else if p.Raising? {
      assert HolderOk(s, p.d);
      var h := s.sems[p.d].holder;
      if h == -1 {
        step := LockUp(w);
      } else {
        assert LockOk(s, h);
        step := if s.threads[h].Dozing? then Unlock(h) else if s.sems[p.d].value > 0 then Take(h) else Doze(h);
      }
    } else if p.k == |s.threads| {
      step := Finish(w);
    } else if p.k != w && OwnLockHeld(s.threads[p.k]) {
      assert LockOk(s, p.k);
      step := if s.threads[p.k].Dozing? then Unlock(p.k) else FallAsleep(p.k);
    } else {
      step := Scan(w);
    }
  }

  /** A step that is no call wakes t, or leaves it asleep and the bsem_up() still on its way. */
  lemma StillComing(s: State, step: Step, d: int, t: int)
    requires LocksOk(s) && Enabled(s, step) && !IsCall(step) && 0 <= t < |s.threads| && Sleepy(s.threads[t], d) && UpComing(s, d, t)
    ensures var u := Do(s, step); u.threads[t] == Woken(d) || (Sleepy(u.threads[t], d) && UpComing(u, d, t))
  {
    var v :| 0 <= v < |s.threads| && UpFor(s.threads[v], d, t);
    var u := Do(s, step);
    assert LockOk(s, v) && LockOk(s, step.t);
    assert u.threads[t] != Woken(d) ==> UpFor(u.threads[v], d, t);
  }

  /** A sleeper that a bsem_up() is on its way to can be woken without any new call. */
  lemma {:induction false} CanBeWoken(s: State, d: int, t: int) returns (steps: seq<Step>)
    requires LocksOk(s) && 0 <= t < |s.threads| && Sleepy(s.threads[t], d) && UpComing(s, d, t)
    ensures IsRun(s, steps) && (forall i {:trigger steps[i]} :: 0 <= i < |steps| ==> !IsCall(steps[i]))
    ensures t < |AfterRun(s, steps).threads| && AfterRun(s, steps).threads[t] == Woken(d)
    decreases Ranks(s.threads, |s.threads|)
  {
    var step := NearerStep(s, d, t);
    var u := Do(s, step);
    StepKeepsLocks(s, step);
    StepLowersRanks(s, step);
    StillComing(s, step, d, t);
    if u.threads[t] == Woken(d) {
      steps := [step];
      assert IsRun(u, steps[1..]);
    } else {
      var rest := CanBeWoken(u, d, t);
      steps := [step] + rest;
      assert steps[1..] == rest;
    }
  }

  /** A sleeper sleeps for good exactly if no bsem_up() of its semaphore is on its way to it. */
  lemma SleepsForGood(s: State, d: int, t: int)
    requires LocksOk(s) && 0 <= t < |s.threads| && Sleepy(s.threads[t], d)
    ensures ForGood(s, d, t) <==> !UpComing(s, d, t)
  {
    if UpComing(s, d, t) {
      var steps := CanBeWoken(s, d, t);
      assert NoUps(steps, d);
    } else {
      forall steps | IsRun(s, steps) && NoUps(steps, d)
        ensures t < |AfterRun(s, steps).threads| && Sleepy(AfterRun(s, steps).threads[t], d)
      {
        StaysAsleep(s, steps, d, t);
      }
    }
  }

  // ---- bsem_free() ----

  /** bsem_free(): the value is reset, and nobody is woken. */
  function Freed(s: State, d: int): State
    requires IsSem(s, d)
  {
    Change(s, d, s.sems[d].(value := s.sems[d].max))
  }

  /** Thread t sleeps on d for good although its value is positive. */
  ghost predicate LosesWakeup(s: State, d: int, t: int) {
    0 <= t < |s.threads| && IsSem(s, d) && Sleepy(s.threads[t], d) && s.sems[d].value > 0 && ForGood(s, d, t)
  }

  /** bsem_free() makes a thread sleep for good on a positive value exactly if the limit is positive and some
      thread sleeps on the semaphore that no bsem_up() is on its way to. */
  lemma FreeLosesWakeups(s: State, d: int)
    requires Inv(s) && IsSem(s, d)
    ensures (exists t :: LosesWakeup(Freed(s, d), d, t)) <==>
            s.sems[d].max > 0 && exists t {:trigger s.threads[t]} :: 0 <= t < |s.threads| && Sleepy(s.threads[t], d) && !UpComing(s, d, t)
  {
    InvLocks(s);
    var u := Freed(s, d);
    FreedLocks(s, d);
    assert forall t :: UpComing(u, d, t) <==> UpComing(s, d, t);
    forall t | 0 <= t < |s.threads| && Sleepy(s.threads[t], d)
      ensures LosesWakeup(u, d, t) <==> s.sems[d].max > 0 && !UpComing(s, d, t)
    {
      SleepsForGood(u, d, t);
    }
    if t :| LosesWakeup(u, d, t) {
      assert Sleepy(s.threads[t], d);
    }
    if s.sems[d].max > 0 {
      if t :| 0 <= t < |s.threads| && Sleepy(s.threads[t], d) && !UpComing(s, d, t) {
        assert LosesWakeup(u, d, t);
      }
    }
  }

  lemma FreedLocks(s: State, d: int)
    requires LocksOk(s) && IsSem(s, d)
    ensures LocksOk(Freed(s, d))
  {
    var u := Freed(s, d);
    forall t | 0 <= t < |u.threads|
      ensures LockOk(u, t)
    {
      assert LockOk(s, t);
    }
    forall e | IsSem(u, e)
      ensures HolderOk(u, e)
    {
      assert HolderOk(s, e);
    }
  }

  /** Without bsem_free() no thread ever sleeps for good on a positive value. */
  lemma NobodyLosesWakeups(s: State, steps: seq<Step>, d: int, t: int)
    requires Fresh(s) && IsRun(s, steps)
    ensures !LosesWakeup(AfterRun(s, steps), d, t)
  {
    FreshInv(s);
    RunKeepsInv(s, steps);
    var u := AfterRun(s, steps);
    InvLocks(u);
    if LosesWakeup(u, d, t) {
      assert SleeperOk(u, t);
      assert UpFor(u.threads[u.waitLock], d, t);
      SleepsForGood(u, d, t);
    }
  }

  /** One step more. */
  lemma {:induction false} Then(s: State, steps: seq<Step>, step: Step)
    requires IsRun(s, steps) && Enabled(AfterRun(s, steps), step)
    ensures IsRun(s, steps + [step]) && AfterRun(s, steps + [step]) == Do(AfterRun(s, steps), step)
    decreases |steps|
  {
    var more := steps + [step];
    if steps == [] {
      assert IsRun(Do(s, step), more[1..]);
    } else {
      Then(Do(s, steps[0]), steps[1..], step);
      assert more[1..] == steps[1..] + [step];
    }
  }

  /** The first thread takes a binary semaphore. */
  lemma Holds() returns (s: State, steps: seq<Step>)
    ensures s == State([Sem(1, 1, -1, 0, 0)], [Idle, Idle], -1) && IsRun(s, steps)
    ensures AfterRun(s, steps) == State([Sem(0, 1, -1, 1, 0)], [Idle, Idle], -1)
  {
    s, steps := State([Sem(1, 1, -1, 0, 0)], [Idle, Idle], -1), [];
    hide IsRun;
    RunNone(s);
    Then(s, steps, CallDown(0, 0));
    steps := steps + [CallDown(0, 0)];
    assert AfterRun(s, steps) == State([Sem(1, 1, -1, 0, 0)], [WantsDown(0), Idle], -1);
    Then(s, steps, LockDown(0));
    steps := steps + [LockDown(0)];
    assert AfterRun(s, steps) == State([Sem(1, 1, 0, 0, 0)], [Checking(0), Idle], -1);
    Then(s, steps, Take(0));
    steps := steps + [Take(0)];
  }

  lemma RunNone(s: State)
    ensures IsRun(s, []) && AfterRun(s, []) == s
  {
  }

  /** The second thread goes to sleep on it. */
  lemma HoldsAndWaits() returns (s: State, steps: seq<Step>)
    ensures s == State([Sem(1, 1, -1, 0, 0)], [Idle, Idle], -1) && IsRun(s, steps)
    ensures AfterRun(s, steps) == State([Sem(0, 1, -1, 1, 0)], [Idle, Asleep(0)], -1)
  {
    hide IsRun;
    s, steps := Holds();
    Then(s, steps, CallDown(1, 0));
    steps := steps + [CallDown(1, 0)];
    assert AfterRun(s, steps) == State([Sem(0, 1, -1, 1, 0)], [Idle, WantsDown(0)], -1);
    Then(s, steps, LockDown(1));
    steps := steps + [LockDown(1)];
    assert AfterRun(s, steps) == State([Sem(0, 1, 1, 1, 0)], [Idle, Checking(0)], -1);
    Then(s, steps, Doze(1));
    steps := steps + [Doze(1)];
    assert AfterRun(s, steps) == State([Sem(0, 1, 1, 1, 0)], [Idle, Dozing(0)], -1);
    Then(s, steps, Unlock(1));
    steps := steps + [Unlock(1)];
    assert AfterRun(s, steps) == State([Sem(0, 1, -1, 1, 0)], [Idle, Released(0)], -1);
    Then(s, steps, FallAsleep(1));
    steps := steps + [FallAsleep(1)];
  }

  /** bsem_free() does lose a wakeup: one thread holds a binary semaphore, another waits for it, and after
      bsem_free() the semaphore is available and the second thread sleeps for good. */
  lemma FreeLosesAWakeup() returns (s: State, steps: seq<Step>)
    ensures Fresh(s) && s.sems == [Sem(1, 1, -1, 0, 0)] && IsRun(s, steps)
    ensures AfterRun(s, steps).threads == [Idle, Asleep(0)] && IsSem(AfterRun(s, steps), 0)
    ensures LosesWakeup(Freed(AfterRun(s, steps), 0), 0, 1)
  {
    s, steps := HoldsAndWaits();
    FreshInv(s);
    RunKeepsInv(s, steps);
    var w := AfterRun(s, steps);
    hide IsRun, AfterRun, Inv;
    InvLocks(w);
    FreedLocks(w, 0);
    SleepsForGood(Freed(w, 0), 0, 1);
  }

  /** A bsem_up() lets a sleeper go on: one thread holds a binary semaphore, another sleeps on it; the first calls
      bsem_up(), the second wakes up, takes the semaphore and returns. */
  lemma UpLetsSleeperGo() returns (s: State, steps: seq<Step>)
    ensures Fresh(s) && s.sems == [Sem(1, 1, -1, 0, 0)] && IsRun(s, steps)
    ensures AfterRun(s, steps) == State([Sem(0, 1, -1, 2, 1)], [Idle, Idle], -1)
  {
    hide IsRun;
    s, steps := HoldsAndWaits();
    Then(s, steps, CallUp(0, 0));
    steps := steps + [CallUp(0, 0)];
    assert AfterRun(s, steps) == State([Sem(0, 1, -1, 1, 0)], [WantsUp(0), Asleep(0)], -1);
    Then(s, steps, LockWait(0));
    steps := steps + [LockWait(0)];
    assert AfterRun(s, steps) == State([Sem(0, 1, -1, 1, 0)], [Raising(0), Asleep(0)], 0);
    Then(s, steps, LockUp(0));
    steps := steps + [LockUp(0)];
    assert AfterRun(s, steps) == State([Sem(0, 1, 0, 1, 0)], [Posting(0), Asleep(0)], 0);
    Then(s, steps, Post(0));
    steps := steps + [Post(0)];
    assert AfterRun(s, steps) == State([Sem(1, 1, -1, 1, 1)], [Scanning(0, 0, true), Asleep(0)], 0);
    Then(s, steps, Scan(0));
    steps := steps + [Scan(0)];
    assert AfterRun(s, steps) == State([Sem(1, 1, -1, 1, 1)], [Scanning(0, 1, true), Asleep(0)], 0);
    Then(s, steps, Scan(0));
    steps := steps + [Scan(0)];
    steps := Resumes(s, steps);
  }

  /** The end of that run. */
  lemma Resumes(s: State, start: seq<Step>) returns (steps: seq<Step>)
    requires IsRun(s, start) && AfterRun(s, start) == State([Sem(1, 1, -1, 1, 1)], [Scanning(0, 2, true), Woken(0)], 0)
    ensures IsRun(s, steps) && AfterRun(s, steps) == State([Sem(0, 1, -1, 2, 1)], [Idle, Idle], -1)
  {
    hide IsRun;
    Then(s, start, Finish(0));
    steps := start + [Finish(0)];
    assert AfterRun(s, steps) == State([Sem(1, 1, -1, 1, 1)], [Idle, Woken(0)], -1);
    Then(s, steps, Relock(1));
    steps := steps + [Relock(1)];
    assert AfterRun(s, steps) == State([Sem(1, 1, 1, 1, 1)], [Idle, Checking(0)], -1);
    Then(s, steps, Take(1));
    steps := steps + [Take(1)];
  }

  // ---- bsem_alloc() and ccsem_alloc() ----

  /** A thread in an allocation: it looks at entry i without the lock, then takes the lock and the entry. */
  datatype Alloc = Looking(i: int) | Found(i: int) | Got(d: int) | Failed

  datatype Table = Table(free: seq<bool>, callers: seq<Alloc>)

  predicate CanAct(s: Table, t: int) {
    0 <= t < |s.callers| && (s.callers[t].Looking? || s.callers[t].Found?) && 0 <= s.callers[t].i &&
      (s.callers[t].Found? ==> s.callers[t].i < |s.free|)
  }

  function Act(s: Table, t: int): Table
    requires CanAct(s, t)
  {
    match s.callers[t]
    case Looking(i) =>
      s.(callers := s.callers[t := if i >= |s.free| then Failed else if s.free[i] then Found(i) else Looking(i + 1)])
    case Found(i) => Table(s.free[i := false], s.callers[t := Got(i)])
  }

  predicate HasGot(s: Table, d: int) {
    exists t :: 0 <= t < |s.callers| && s.callers[t] == Got(d)
  }

  /** An entry is marked free exactly while nobody has been given it. */
  ghost predicate TableInv(s: Table) {
    forall d {:trigger s.free[d]} :: 0 <= d < |s.free| ==> (s.free[d] <==> !HasGot(s, d))
  }

  lemma ActKeeps(s: Table, t: int)
    requires CanAct(s, t) && TableInv(s)
    ensures TableInv(Act(s, t))
  {
    var u := Act(s, t);
    forall d | 0 <= d < |u.free|
      ensures u.free[d] <==> !HasGot(u, d)
    {
      assert s.free[d] <==> !HasGot(s, d);
      if v :| 0 <= v < |s.callers| && s.callers[v] == Got(d) {
        assert u.callers[v] == Got(d);
      }
      if s.callers[t].Found? {
        assert u.callers[t] == Got(s.callers[t].i);
      }
    }
  }

  /** Any sequence of such steps. */
  ghost predicate IsActing(s: Table, ts: seq<int>)
    decreases |ts|
  {
    ts == [] || (CanAct(s, ts[0]) && IsActing(Act(s, ts[0]), ts[1..]))
  }

  ghost function AfterActs(s: Table, ts: seq<int>): Table
    requires IsActing(s, ts)
    decreases |ts|
  {
    if ts == [] then s else AfterActs(Act(s, ts[0]), ts[1..])
  }

  /** Some step takes an entry that is no longer free now that the lock is held. */
  ghost predicate TakesStale(s: Table, ts: seq<int>)
    requires IsActing(s, ts)
    decreases |ts|
  {
    ts != [] && ((s.callers[ts[0]].Found? && !s.free[s.callers[ts[0]].i]) || TakesStale(Act(s, ts[0]), ts[1..]))
  }

  /** Two callers have been given one entry. */
  ghost predicate Shared(s: Table) {
    exists t, u {:trigger s.callers[t], s.callers[u]} :: 0 <= t < u < |s.callers| && s.callers[t].Got? && s.callers[u] == s.callers[t]
  }

  lemma ActShares(s: Table, t: int)
    requires CanAct(s, t) && TableInv(s)
    ensures Shared(Act(s, t)) <==> Shared(s) || (s.callers[t].Found? && !s.free[s.callers[t].i])
  {
    var u := Act(s, t);
    if x, y :| 0 <= x < y < |s.callers| && s.callers[x].Got? && s.callers[y] == s.callers[x] {
      assert u.callers[x] == s.callers[x] && u.callers[y] == s.callers[y];
    }
    if s.callers[t].Found? {
      var d := s.callers[t].i;
      assert s.free[d] <==> !HasGot(s, d);
      if v :| 0 <= v < |s.callers| && s.callers[v] == Got(d) {
        assert u.callers[v] == Got(d) && u.callers[t] == Got(d) && v != t;
        assert if v < t then u.callers[t] == u.callers[v] else u.callers[v] == u.callers[t];
      }
    }
    if x, y :| 0 <= x < y < |u.callers| && u.callers[x].Got? && u.callers[y] == u.callers[x] {
      var other := if x == t then y else x;
      if x == t || y == t {
        assert s.callers[other] == u.callers[other] == u.callers[t];
        assert s.callers[t].Found? ==> HasGot(s, s.callers[t].i);
      } else {
        assert s.callers[x] == u.callers[x] && s.callers[y] == u.callers[y];
      }
    }
  }

  lemma {:induction false} ActsShare(s: Table, ts: seq<int>)
    requires IsActing(s, ts) && TableInv(s)
    ensures Shared(AfterActs(s, ts)) <==> Shared(s) || TakesStale(s, ts)
    decreases |ts|
  {
    if ts != [] {
      ActKeeps(s, ts[0]);
      ActShares(s, ts[0]);
      ActsShare(Act(s, ts[0]), ts[1..]);
    }
  }

  /** However the callers interleave, two of them are given one semaphore exactly if some caller takes an entry
      that is no longer free when it has the lock, a test the code makes before it has the lock only. */
  lemma SharedExactlyWhenStale(s: Table, ts: seq<int>)
    requires (forall d {:trigger s.free[d]} :: 0 <= d < |s.free| ==> s.free[d])
    requires (forall t {:trigger s.callers[t]} :: 0 <= t < |s.callers| ==> !s.callers[t].Got?)
    requires IsActing(s, ts)
    ensures Shared(AfterActs(s, ts)) <==> TakesStale(s, ts)
  {
    ActsShare(s, ts);
  }

  /** Two callers that look before either takes get the same semaphore. */
  lemma SharedSemaphore()
    ensures var s := Table([true], [Looking(0), Looking(0)]);
      && TableInv(s) && CanAct(s, 0) && CanAct(Act(s, 0), 1)
      && CanAct(Act(Act(s, 0), 1), 0) && CanAct(Act(Act(Act(s, 0), 1), 0), 1)
      && Act(Act(Act(Act(s, 0), 1), 0), 1).callers == [Got(0), Got(0)]
  {
  }

  /** A caller that nobody comes between is given the lowest free entry, or fails exactly if there is none. */
  lemma {:induction false} AloneGetsLowest(s: Table, t: int) returns (ts: seq<int>)
    requires 0 <= t < |s.callers| && s.callers[t].Looking? && 0 <= s.callers[t].i
    requires forall d {:trigger s.free[d]} :: 0 <= d < |s.free| && d < s.callers[t].i ==> !s.free[d]
    ensures IsActing(s, ts) && |AfterActs(s, ts).callers| == |s.callers|
    ensures var r := AfterActs(s, ts).callers[t];
      if r.Got? then 0 <= r.d < |s.free| && s.free[r.d] && forall d {:trigger s.free[d]} :: 0 <= d < r.d ==> !s.free[d]
      else r == Failed && forall d {:trigger s.free[d]} :: 0 <= d < |s.free| ==> !s.free[d]
    decreases if s.callers[t].i < |s.free| then |s.free| - s.callers[t].i else 0
  {
    var u, i := Act(s, t), s.callers[t].i;
    var rest: seq<int> := [];
    if i >= |s.free| {
      NoActs(u);
    } else if s.free[i] {
      NoActs(Act(u, t));
      FirstAct(u, t, []);
      rest := [t];
    } else {
      rest := AloneGetsLowest(u, t);
    }
    FirstAct(s, t, rest);
    ts := [t] + rest;
  }

  lemma NoActs(s: Table)
    ensures IsActing(s, []) && AfterActs(s, []) == s
  {
  }

  lemma FirstAct(s: Table, t: int, rest: seq<int>)
    requires CanAct(s, t) && IsActing(Act(s, t), rest)
    ensures IsActing(s, [t] + rest) && AfterActs(s, [t] + rest) == AfterActs(Act(s, t), rest)
  {
    assert ([t] + rest)[1..] == rest;
  }
}
