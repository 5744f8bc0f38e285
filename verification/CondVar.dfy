/** The condition variable emulated with an auto-reset event and a counter of
    waiters, as interleaved steps of any number of waiters and signallers. */
module CondVar {
  import opened Constants
  import opened Options

  type Tid = nat

  /** Where a thread stands. `mine` tells whether a signaller holds the mutex. */
  datatype Pc =
    | Outside                         // in no function, without the mutex
    | Inside                          // in no function, holding the mutex
    | WaitEnter                       // cond_wait: about to enter the critical section
    | WaitCount                       // about to increment the counter
    | WaitLeave                       // about to leave the critical section
    | WaitRelease                     // about to release the mutex
    | WaitEvent                       // waiting for the event
    | WakeEnter                       // woken, about to enter the critical section
    | WakeUncount                     // about to decrement the counter
    | WakeLeave                       // about to leave the critical section
    | WakeMutex                       // waiting for the mutex
    | SignalEnter(mine: bool)         // cond_signal: about to enter the critical section
    | SignalRead(mine: bool)          // about to read the counter
    | SignalLeave(mine: bool, have: bool)
    | SignalSet(mine: bool, have: bool)

  /** `count`, `lock` and `event` are the fields of the condition variable and
      `mutex` is the caller's. `sets`, `wakes`, `leaked` and `unset` only tally
      what happened: transitions of the event from unset to set, waits for the event
      that succeeded, such waits that failed, and calls of `SetEvent` that failed. */
  datatype State = State(count: nat, lock: Option<Tid>, event: bool, mutex: Option<Tid>, pcs: map<Tid, Pc>,
                         sets: nat, wakes: nat, leaked: nat, unset: nat)

  predicate Init(s: State) {
    && s.count == 0 && s.lock == None && !s.event && s.mutex == None
    && s.sets == 0 && s.wakes == 0 && s.leaked == 0 && s.unset == 0
    && forall t | t in s.pcs :: s.pcs[t] == Outside
  }

  function Move(s: State, t: Tid, pc: Pc): State { s.(pcs := s.pcs[t := pc]) }

  // ------------------------------------------------------------------ the steps

  /** Taking and giving up the caller's mutex outside the two functions, and
      calling them. `cond_wait` is called with the mutex held. */
  predicate CallerStep(s: State, s': State, t: Tid)
    requires t in s.pcs
  {
    match s.pcs[t]
    case Outside =>
      || (s.mutex == None && s' == Move(s, t, Inside).(mutex := Some(t)))
      || s' == Move(s, t, SignalEnter(false))
    case Inside =>
      || s' == Move(s, t, Outside).(mutex := None)
      || s' == Move(s, t, WaitEnter)
      || s' == Move(s, t, SignalEnter(true))
    case _ => false
  }

  /** Entering the critical section, which waits until nobody is in it. */
  predicate EnterStep(s: State, s': State, t: Tid)
    requires t in s.pcs
  {
    && s.lock == None
    && match s.pcs[t]
       case WaitEnter => s' == Move(s, t, WaitCount).(lock := Some(t))
       case WakeEnter => s' == Move(s, t, WakeUncount).(lock := Some(t))
       case SignalEnter(mine) => s' == Move(s, t, SignalRead(mine)).(lock := Some(t))
       case _ => false
  }

  /** Leaving the critical section. */
  predicate LeaveStep(s: State, s': State, t: Tid)
    requires t in s.pcs
  {
    match s.pcs[t]
    case WaitLeave => s' == Move(s, t, WaitRelease).(lock := None)
    case WakeLeave => s' == Move(s, t, WakeMutex).(lock := None)
    case SignalLeave(mine, have) => s' == Move(s, t, SignalSet(mine, have)).(lock := None)
    case _ => false
  }

  /** The accesses to the counter, in unsigned 32-bit arithmetic. */
  predicate CounterStep(s: State, s': State, t: Tid)
    requires t in s.pcs
  {
    match s.pcs[t]
    case WaitCount => s' == Move(s, t, WaitLeave).(count := (s.count + 1) % UINT_RANGE)
    case WakeUncount => s' == Move(s, t, WakeLeave).(count := (s.count + UINT_RANGE - 1) % UINT_RANGE)
    case SignalRead(mine) => s' == Move(s, t, SignalLeave(mine, s.count > 0))
    case _ => false
  }

  /** Waiting for the auto-reset event, which the wait resets, and setting it.
      Either call can fail; a failed wait returns with the counter still raised
      and without the mutex. */
  predicate EventStep(s: State, s': State, t: Tid)
    requires t in s.pcs
  {
    match s.pcs[t]
    case WaitEvent =>
      || (s.event && s' == Move(s, t, WakeEnter).(event := false, wakes := s.wakes + 1))
      || s' == Move(s, t, Outside).(leaked := s.leaked + 1)
    case SignalSet(mine, have) =>
      if have then
        || s' == Move(s, t, Back(mine)).(event := true, sets := if s.event then s.sets else s.sets + 1)
        || s' == Move(s, t, Back(mine)).(unset := s.unset + 1)
      else
        s' == Move(s, t, Back(mine))
    case _ => false
  }

  function Back(mine: bool): Pc { if mine then Inside else Outside }

  /** Releasing and taking back the mutex inside `cond_wait`. */
  predicate MutexStep(s: State, s': State, t: Tid)
    requires t in s.pcs
  {
    match s.pcs[t]
    case WaitRelease => s' == Move(s, t, WaitEvent).(mutex := None)
    case WakeMutex =>
      || (s.mutex == None && s' == Move(s, t, Inside).(mutex := Some(t)))
      || s' == Move(s, t, Outside)
    case _ => false
  }

  predicate StepOf(s: State, s': State, t: Tid)
    requires t in s.pcs
  {
    || CallerStep(s, s', t) || EnterStep(s, s', t) || LeaveStep(s, s', t)
    || CounterStep(s, s', t) || EventStep(s, s', t) || MutexStep(s, s', t)
  }

  ghost predicate Step(s: State, s': State) {
    exists t | t in s.pcs :: StepOf(s, s', t)
  }

  // -------------------------------------------------------------- the invariant

  /** Between its increment and its decrement. */
  predicate Counts(pc: Pc) {
    pc.WaitLeave? || pc.WaitRelease? || pc.WaitEvent? || pc.WakeEnter? || pc.WakeUncount?
  }

  function Counted(s: State): set<Tid> { set t | t in s.pcs && Counts(s.pcs[t]) }

  predicate InCriticalSection(pc: Pc) {
    pc.WaitCount? || pc.WaitLeave? || pc.WakeUncount? || pc.WakeLeave? || pc.SignalRead? || pc.SignalLeave?
  }

  predicate HoldsMutex(pc: Pc) {
    || pc.Inside? || pc.WaitEnter? || pc.WaitCount? || pc.WaitLeave? || pc.WaitRelease?
    || ((pc.SignalEnter? || pc.SignalRead? || pc.SignalLeave? || pc.SignalSet?) && pc.mine)
  }

  predicate CounterRight(s: State) { s.count == (|Counted(s)| + s.leaked) % UINT_RANGE }

  predicate LockRight(s: State) { forall t | t in s.pcs :: InCriticalSection(s.pcs[t]) <==> s.lock == Some(t) }

  predicate MutexRight(s: State) { forall t | t in s.pcs :: HoldsMutex(s.pcs[t]) <==> s.mutex == Some(t) }

  predicate SignalsConserved(s: State) { s.sets == s.wakes + if s.event then 1 else 0 }

  predicate Inv(s: State) { CounterRight(s) && LockRight(s) && MutexRight(s) && SignalsConserved(s) }

  lemma InitInv(s: State)
    requires Init(s)
    ensures Inv(s)
  {
    assert Counted(s) == {};
  }

  lemma CountedMoves(s: State, s': State, t: Tid)
    requires t in s.pcs && t in s'.pcs && s'.pcs == s.pcs[t := s'.pcs[t]]
    ensures |Counted(s')| + (if Counts(s.pcs[t]) then 1 else 0) == |Counted(s)| + if Counts(s'.pcs[t]) then 1 else 0
  {
    var rest := Counted(s) - {t};
    assert Counted(s') - {t} == rest;
    assert Counted(s) == if Counts(s.pcs[t]) then rest + {t} else rest;
    assert Counted(s') == if Counts(s'.pcs[t]) then rest + {t} else rest;
  }

  lemma Successor(n: nat)
    ensures (n % UINT_RANGE + 1) % UINT_RANGE == (n + 1) % UINT_RANGE
  {
  }

  lemma Predecessor(n: nat)
    requires n > 0
    ensures (n % UINT_RANGE + UINT_RANGE - 1) % UINT_RANGE == (n - 1) % UINT_RANGE
  {
  }

  lemma OneThreadMoves(s: State, s': State, t: Tid)
    requires t in s.pcs && StepOf(s, s', t)
    ensures t in s'.pcs && s'.pcs == s.pcs[t := s'.pcs[t]]
  {
  }

  lemma CounterKept(s: State, s': State, t: Tid)
    requires t in s.pcs && StepOf(s, s', t) && CounterRight(s)
    ensures CounterRight(s')
  {
    OneThreadMoves(s, s', t);
    CountedMoves(s, s', t);
    if s.pcs[t].WaitCount? {
      Successor(|Counted(s)| + s.leaked);
    } else if s.pcs[t].WakeUncount? {
      assert t in Counted(s);
      Predecessor(|Counted(s)| + s.leaked);
    } else {
      CounterUntouched(s, s', t);
    }
  }

  lemma CounterUntouched(s: State, s': State, t: Tid)
    requires t in s.pcs && StepOf(s, s', t) && !s.pcs[t].WaitCount? && !s.pcs[t].WakeUncount?
    ensures t in s'.pcs && s'.count == s.count
    ensures s'.leaked == s.leaked + if Counts(s.pcs[t]) && !Counts(s'.pcs[t]) then 1 else 0
    ensures Counts(s'.pcs[t]) ==> Counts(s.pcs[t])
  {
  }

  lemma LockKept(s: State, s': State, t: Tid)
    requires t in s.pcs && StepOf(s, s', t) && LockRight(s)
    ensures LockRight(s')
  {
    OneThreadMoves(s, s', t);
    LockFollows(s, s', t);
  }

  /** How one step changes the lock, from the mover's point of view. */
  lemma LockFollows(s: State, s': State, t: Tid)
    requires t in s.pcs && StepOf(s, s', t)
    ensures t in s'.pcs
    ensures InCriticalSection(s'.pcs[t]) && !InCriticalSection(s.pcs[t]) ==> s.lock == None && s'.lock == Some(t)
    ensures InCriticalSection(s.pcs[t]) && !InCriticalSection(s'.pcs[t]) ==> s'.lock == None
    ensures InCriticalSection(s.pcs[t]) == InCriticalSection(s'.pcs[t]) ==> s'.lock == s.lock
  {
    if !EnterStep(s, s', t) && !LeaveStep(s, s', t) { OthersKeepLock(s, s', t); }
  }

  lemma OthersKeepLock(s: State, s': State, t: Tid)
    requires t in s.pcs && (CallerStep(s, s', t) || CounterStep(s, s', t) || EventStep(s, s', t) || MutexStep(s, s', t))
    ensures t in s'.pcs && InCriticalSection(s'.pcs[t]) == InCriticalSection(s.pcs[t]) && s'.lock == s.lock
  {
  }

  lemma MutexKept(s: State, s': State, t: Tid)
    requires t in s.pcs && StepOf(s, s', t) && MutexRight(s)
    ensures MutexRight(s')
  {
    OneThreadMoves(s, s', t);
    MutexFollows(s, s', t);
  }

  lemma MutexFollows(s: State, s': State, t: Tid)
    requires t in s.pcs && StepOf(s, s', t)
    ensures t in s'.pcs
    ensures HoldsMutex(s'.pcs[t]) && !HoldsMutex(s.pcs[t]) ==> s.mutex == None && s'.mutex == Some(t)
    ensures HoldsMutex(s.pcs[t]) && !HoldsMutex(s'.pcs[t]) ==> s'.mutex == None
    ensures HoldsMutex(s.pcs[t]) == HoldsMutex(s'.pcs[t]) ==> s'.mutex == s.mutex
  {
    if !CallerStep(s, s', t) && !MutexStep(s, s', t) { OthersKeepMutex(s, s', t); }
  }

  lemma OthersKeepMutex(s: State, s': State, t: Tid)
    requires t in s.pcs && (EnterStep(s, s', t) || LeaveStep(s, s', t) || CounterStep(s, s', t) || EventStep(s, s', t))
    ensures t in s'.pcs && HoldsMutex(s'.pcs[t]) == HoldsMutex(s.pcs[t]) && s'.mutex == s.mutex
  {
  }

  lemma SignalsKept(s: State, s': State, t: Tid)
    requires t in s.pcs && StepOf(s, s', t)
    ensures SignalsConserved(s) ==> SignalsConserved(s')
    ensures s'.wakes >= s.wakes
    ensures s.event ==> s'.event || s'.wakes == s.wakes + 1
  {
  }

  lemma InvStep(s: State, s': State)
    requires Inv(s) && Step(s, s')
    ensures Inv(s')
    ensures s'.wakes >= s.wakes
    ensures s.event ==> s'.event || s'.wakes == s.wakes + 1
  {
    var t :| t in s.pcs && StepOf(s, s', t);
    CounterKept(s, s', t);
    LockKept(s, s', t);
    MutexKept(s, s', t);
    SignalsKept(s, s', t);
  }

  // ----------------------------------------------------------------- whole runs

  ghost predicate IsRun(run: seq<State>) {
    run != [] && Init(run[0]) && forall i | 0 <= i < |run| - 1 :: Step(run[i], run[i + 1])
  }

  lemma {:induction false} RunInv(run: seq<State>, i: nat)
    requires IsRun(run) && i < |run|
    ensures Inv(run[i])
  {
    if i == 0 {
      InitInv(run[0]);
    } else {
      RunInv(run, i - 1);
      assert Step(run[i - 1], run[i - 1 + 1]);
      InvStep(run[i - 1], run[i]);
    }
  }

  /** The counter equals the threads between increment and decrement plus the
      failed waits exactly when these fit an unsigned int, and then no decrement
      takes it below zero. */
  lemma CounterIsExact(run: seq<State>, i: nat)
    requires IsRun(run) && i < |run|
    ensures run[i].count == |Counted(run[i])| + run[i].leaked <==> |Counted(run[i])| + run[i].leaked < UINT_RANGE
    ensures |Counted(run[i])| + run[i].leaked < UINT_RANGE ==>
              forall t | t in run[i].pcs && run[i].pcs[t].WakeUncount? :: run[i].count > 0
  {
    RunInv(run, i);
    forall t | t in run[i].pcs && run[i].pcs[t].WakeUncount?
      ensures |Counted(run[i])| > 0
    {
      assert t in Counted(run[i]);
    }
  }

  /** A signaller decides to set the event exactly if, when it reads the counter, some
      thread is waiting or has failed to wait. */
  lemma SignallerDecides(run: seq<State>, i: nat, u: Tid, s': State)
    requires IsRun(run) && i < |run| && |Counted(run[i])| + run[i].leaked < UINT_RANGE
    requires u in run[i].pcs && run[i].pcs[u].SignalRead? && StepOf(run[i], s', u)
    ensures s'.pcs[u] == SignalLeave(run[i].pcs[u].mine, Counted(run[i]) != {} || run[i].leaked > 0)
  {
    CounterIsExact(run, i);
  }

  /** What a signaller has decided goes back to its own reading of the counter. */
  lemma {:induction false} DecidedByReading(run: seq<State>, i: nat, u: Tid) returns (j: nat)
    requires IsRun(run) && i < |run| && u in run[i].pcs && HasDecided(run[i].pcs[u])
    ensures j < i && u in run[j].pcs && run[j].pcs[u] == SignalRead(run[i].pcs[u].mine)
    ensures run[i].pcs[u].have <==> run[j].count > 0
  {
    hide IsRun, Step, StepOf;
    RunStarts(run);
    RunSteps(run, i - 1);
    var t := Mover(run[i - 1], run[i]);
    if t == u { DecisionStep(run[i - 1], run[i], u); }
    if run[i - 1].pcs[u].SignalRead? {
      j := i - 1;
    } else {
      j := DecidedByReading(run, i - 1, u);
    }
  }

  predicate HasDecided(pc: Pc) { pc.SignalLeave? || pc.SignalSet? }

  lemma DecisionStep(s: State, s': State, u: Tid)
    requires u in s.pcs && StepOf(s, s', u) && u in s'.pcs && HasDecided(s'.pcs[u])
    ensures var pc, pc' := s.pcs[u], s'.pcs[u];
            if pc.SignalRead? then pc'.mine == pc.mine && pc'.have == (s.count > 0)
            else HasDecided(pc) && pc'.mine == pc.mine && pc'.have == pc.have
  {
    if !CounterStep(s, s', u) && !LeaveStep(s, s', u) { OthersDecideNothing(s, s', u); }
  }

  lemma OthersDecideNothing(s: State, s': State, u: Tid)
    requires u in s.pcs && (CallerStep(s, s', u) || EnterStep(s, s', u) || EventStep(s, s', u) || MutexStep(s, s', u))
    ensures u in s'.pcs && !HasDecided(s'.pcs[u])
  {
  }

  lemma RunStarts(run: seq<State>)
    requires IsRun(run)
    ensures run != [] && Init(run[0])
  {
  }

  lemma RunSteps(run: seq<State>, i: int)
    requires IsRun(run) && i + 1 < |run|
    ensures i >= 0 ==> Step(run[i], run[i + 1])
  {
  }

  /** The thread that has taken a step; no other has moved. */
  lemma Mover(s: State, s': State) returns (t: Tid)
    requires Step(s, s')
    ensures t in s.pcs && StepOf(s, s', t) && t in s'.pcs && s'.pcs == s.pcs[t := s'.pcs[t]]
  {
    t :| t in s.pcs && StepOf(s, s', t);
    OneThreadMoves(s, s', t);
  }

  /** A signaller that has seen a waiter leaves the event set, unless `SetEvent` fails,
      and one that has seen none leaves it as it was. */
  lemma SignalIsSet(run: seq<State>, i: nat, u: Tid)
    requires IsRun(run) && i + 1 < |run| && u in run[i].pcs && run[i].pcs[u].SignalSet?
    requires u in run[i + 1].pcs && run[i + 1].pcs[u] != run[i].pcs[u]
    ensures var s, s' := run[i], run[i + 1];
            && (s.pcs[u].have ==> s'.event || s'.unset == s.unset + 1)
            && (!s.pcs[u].have ==> s'.event == s.event && s'.sets == s.sets && s'.unset == s.unset)
  {
    hide IsRun, Step;
    RunSteps(run, i);
    var t := Mover(run[i], run[i + 1]);
  }

  /** The event rises only by a signaller that has itself read a positive counter. */
  lemma EventRises(run: seq<State>, i: nat) returns (u: Tid, j: nat)
    requires IsRun(run) && i + 1 < |run| && !run[i].event && run[i + 1].event
    ensures j < i && u in run[j].pcs && run[j].pcs[u].SignalRead? && run[j].count > 0
    ensures u in run[i].pcs && run[i].pcs[u] == SignalSet(run[j].pcs[u].mine, true)
    ensures u in run[i + 1].pcs && run[i + 1].pcs[u] == Back(run[j].pcs[u].mine)
  {
    hide IsRun, Step;
    RunSteps(run, i);
    u := Mover(run[i], run[i + 1]);
    RaisedBySignaller(run[i], run[i + 1], u);
    j := DecidedByReading(run, i, u);
  }

  lemma RaisedBySignaller(s: State, s': State, u: Tid)
    requires u in s.pcs && StepOf(s, s', u) && !s.event && s'.event
    ensures s.pcs[u].SignalSet? && s.pcs[u].have && s' == Move(s, u, Back(s.pcs[u].mine)).(event := true,
                                                                                          sets := s.sets + 1)
  {
  }

  /** A signaller that reads the counter while a thread is waiting sees it, and
      goes on to set the event. */
  lemma SignallerSeesWaiter(run: seq<State>, i: nat, t: Tid, u: Tid, s': State)
    requires IsRun(run) && i < |run| && |Counted(run[i])| + run[i].leaked < UINT_RANGE
    requires t in run[i].pcs && Counts(run[i].pcs[t])
    requires u in run[i].pcs && run[i].pcs[u].SignalRead? && StepOf(run[i], s', u)
    ensures s'.pcs[u] == SignalLeave(run[i].pcs[u].mine, true)
  {
    CounterIsExact(run, i);
    assert t in Counted(run[i]);
  }

  /** From its call of `cond_wait` until it is woken or its wait fails. */
  predicate HasCalledWait(pc: Pc) {
    pc.WaitEnter? || pc.WaitCount? || pc.WaitLeave? || pc.WaitRelease? || pc.WaitEvent?
  }

  /** A signaller that holds the mutex, as it should, sees every thread that has
      called `cond_wait` before, however far that thread has come: the mutex is
      given up only after the counter has been raised. */
  lemma HolderSeesEveryWaiter(run: seq<State>, i: nat, t: Tid, u: Tid, s': State)
    requires IsRun(run) && i < |run| && |Counted(run[i])| + run[i].leaked < UINT_RANGE
    requires t in run[i].pcs && HasCalledWait(run[i].pcs[t])
    requires u in run[i].pcs && run[i].pcs[u] == SignalRead(true) && StepOf(run[i], s', u)
    ensures run[i].pcs[t].WaitEvent? && s'.pcs[u] == SignalLeave(true, true)
  {
    RunInv(run, i);
    assert run[i].mutex == Some(u);
    SignallerSeesWaiter(run, i, t, u, s');
  }

  /** A signal is never lost: from a state with the event set, either a thread
      has been woken since, or the event is still set. */
  lemma {:induction false} SignalPersists(run: seq<State>, i: nat, j: nat)
    requires IsRun(run) && i <= j < |run| && run[i].event
    ensures run[j].event || run[j].wakes > run[i].wakes
    ensures run[j].wakes >= run[i].wakes
    decreases j
  {
    hide IsRun;
    if i == j {
    } else {
      SignalPersists(run, i, j - 1);
      EventFallsByWaking(run, j - 1);
    }
  }

  lemma EventFallsByWaking(run: seq<State>, i: nat)
    requires IsRun(run) && i + 1 < |run|
    ensures run[i + 1].wakes >= run[i].wakes
    ensures run[i].event ==> run[i + 1].event || run[i + 1].wakes == run[i].wakes + 1
  {
    RunInv(run, i);
    assert Step(run[i], run[i + 1]);
    InvStep(run[i], run[i + 1]);
  }

  /** Wakeups never outnumber signals: each needs the event set once more. */
  lemma SignalsAreConserved(run: seq<State>, i: nat)
    requires IsRun(run) && i < |run|
    ensures run[i].sets == run[i].wakes + if run[i].event then 1 else 0
  {
    RunInv(run, i);
  }

  /** At most one thread holds the mutex; in particular a wait that returns
      successfully returns as its only holder. */
  lemma WaiterReturnsWithMutex(run: seq<State>, i: nat, t: Tid, u: Tid)
    requires IsRun(run) && i + 1 < |run| && t in run[i].pcs && u in run[i + 1].pcs
    requires run[i].pcs[t].WakeMutex? && t in run[i + 1].pcs && run[i + 1].pcs[t].Inside?
    ensures run[i + 1].mutex == Some(t)
    ensures HoldsMutex(run[i + 1].pcs[u]) ==> u == t
  {
    RunInv(run, i + 1);
  }

  // ------------------------------------------------------- waiting and signalling

  /** Consecutive steps, from some state on. */
  ghost predicate Steps(path: seq<State>) {
    path != [] && forall i | 0 <= i < |path| - 1 :: Step(path[i], path[i + 1])
  }

  lemma Then(path: seq<State>, s: State, t: Tid)
    requires Steps(path) && t in path[|path| - 1].pcs && StepOf(path[|path| - 1], s, t)
    ensures Steps(path + [s])
  {
    var longer := path + [s];
    forall i | 0 <= i < |longer| - 1
      ensures Step(longer[i], longer[i + 1])
    {
      if i < |path| - 1 { assert longer[i + 1] == path[i + 1]; }
    }
  }

  /** One of the steps, of whatever kind. */
  ghost predicate Moves(s: State, s': State, t: Tid) { t in s.pcs && StepOf(s, s', t) }

  lemma FiveMore(path: seq<State>, t: Tid, a: State, b: State, c: State, d: State, e: State)
    returns (longer: seq<State>)
    requires path != [] && Steps(path)
    requires Moves(path[|path| - 1], a, t) && Moves(a, b, t) && Moves(b, c, t) && Moves(c, d, t) && Moves(d, e, t)
    ensures Steps(longer) && path <= longer && longer[|longer| - 1] == e
  {
    hide Steps, StepOf;
    Then(path, a, t);
    Then(path + [a], b, t);
    Then(path + [a] + [b], c, t);
    Then(path + [a] + [b] + [c], d, t);
    Then(path + [a] + [b] + [c] + [d], e, t);
    longer := path + [a] + [b] + [c] + [d] + [e];
  }

  /** A thread holding the mutex can wait, which gives the mutex up. */
  lemma Waits(path: seq<State>, t: Tid) returns (longer: seq<State>)
    requires path != [] && Steps(path)
    requires var s := path[|path| - 1]; t in s.pcs && s.pcs[t].Inside? && s.lock == None
    ensures Steps(longer) && path <= longer
    ensures var s := path[|path| - 1];
            longer[|longer| - 1] == Move(s, t, WaitEvent).(count := (s.count + 1) % UINT_RANGE, mutex := None)
  {
    hide Steps;
    var s := path[|path| - 1];
    var called := Move(s, t, WaitEnter);
    var entered := Move(called, t, WaitCount).(lock := Some(t));
    var counted := Move(entered, t, WaitLeave).(count := (s.count + 1) % UINT_RANGE);
    var left := Move(counted, t, WaitRelease).(lock := None);
    var waiting := Move(left, t, WaitEvent).(mutex := None);
    assert CallerStep(s, called, t) && EnterStep(called, entered, t) && CounterStep(entered, counted, t);
    assert LeaveStep(counted, left, t) && MutexStep(left, waiting, t);
    longer := FiveMore(path, t, called, entered, counted, left, waiting);
    assert waiting.pcs == s.pcs[t := WaitEvent];
  }

  lemma ReadsCounter(s: State, called: State, entered: State, read: State, u: Tid, mine: bool)
    requires u in s.pcs && s.pcs[u] == Back(mine) && s.lock == None && s.count > 0
    requires called == Move(s, u, SignalEnter(mine)) && entered == Move(called, u, SignalRead(mine)).(lock := Some(u))
    requires read == Move(entered, u, SignalLeave(mine, true))
    ensures Moves(s, called, u) && Moves(called, entered, u) && Moves(entered, read, u)
  {
    assert CallerStep(s, called, u) && EnterStep(called, entered, u) && CounterStep(entered, read, u);
  }

  lemma SetsEvent(read: State, left: State, signalled: State, u: Tid, mine: bool)
    requires u in read.pcs && read.pcs[u] == SignalLeave(mine, true) && !read.event
    requires left == Move(read, u, SignalSet(mine, true)).(lock := None)
    requires signalled == Move(left, u, Back(mine)).(event := true, sets := read.sets + 1)
    ensures Moves(read, left, u) && Moves(left, signalled, u)
  {
    assert LeaveStep(read, left, u) && EventStep(left, signalled, u);
  }

  /** A thread with or without the mutex can signal, which sets the event if the
      counter is positive. */
  lemma Signals(path: seq<State>, u: Tid, mine: bool) returns (longer: seq<State>)
    requires path != [] && Steps(path)
    requires var s := path[|path| - 1];
             u in s.pcs && s.pcs[u] == Back(mine) && s.lock == None && s.count > 0 && !s.event
    ensures Steps(longer) && path <= longer
    ensures var s := path[|path| - 1]; longer[|longer| - 1] == s.(event := true, sets := s.sets + 1)
  {
    hide Steps, Moves;
    var s := path[|path| - 1];
    var called := Move(s, u, SignalEnter(mine));
    var entered := Move(called, u, SignalRead(mine)).(lock := Some(u));
    var read := Move(entered, u, SignalLeave(mine, true));
    var left := Move(read, u, SignalSet(mine, true)).(lock := None);
    var signalled := Move(left, u, Back(mine)).(event := true, sets := s.sets + 1);
    ReadsCounter(s, called, entered, read, u, mine);
    SetsEvent(read, left, signalled, u, mine);
    longer := FiveMore(path, u, called, entered, read, left, signalled);
    assert signalled.pcs == s.pcs;
  }

  /** The same with the mutex taken before and given up afterwards. */
  lemma LocksAndSignals(path: seq<State>, u: Tid) returns (longer: seq<State>)
    requires path != [] && Steps(path)
    requires var s := path[|path| - 1];
             u in s.pcs && s.pcs[u].Outside? && s.lock == None && s.mutex == None && s.count > 0 && !s.event
    ensures Steps(longer) && path <= longer
    ensures var s := path[|path| - 1]; longer[|longer| - 1] == s.(event := true, sets := s.sets + 1)
  {
    hide Steps;
    var s := path[|path| - 1];
    var locked := Move(s, u, Inside).(mutex := Some(u));
    assert CallerStep(s, locked, u);
    Then(path, locked, u);
    var signalled := Signals(path + [locked], u, true);
    var last := signalled[|signalled| - 1];
    var unlocked := Move(last, u, Outside).(mutex := None);
    assert CallerStep(last, unlocked, u);
    Then(signalled, unlocked, u);
    longer := signalled + [unlocked];
    assert unlocked.pcs == s.pcs;
  }

  /** A waiting thread can wake once the event is set, and returns with the mutex. */
  lemma Wakes(path: seq<State>, t: Tid) returns (longer: seq<State>)
    requires path != [] && Steps(path)
    requires var s := path[|path| - 1];
             t in s.pcs && s.pcs[t].WaitEvent? && s.lock == None && s.mutex == None && s.event
    ensures Steps(longer) && path <= longer
    ensures var s := path[|path| - 1];
            longer[|longer| - 1] == Move(s, t, Inside).(count := (s.count + UINT_RANGE - 1) % UINT_RANGE,
                                                        mutex := Some(t), event := false, wakes := s.wakes + 1)
  {
    hide Steps;
    var s := path[|path| - 1];
    var woken := Move(s, t, WakeEnter).(event := false, wakes := s.wakes + 1);
    var entered := Move(woken, t, WakeUncount).(lock := Some(t));
    var uncounted := Move(entered, t, WakeLeave).(count := (s.count + UINT_RANGE - 1) % UINT_RANGE);
    var left := Move(uncounted, t, WakeMutex).(lock := None);
    var back := Move(left, t, Inside).(mutex := Some(t));
    assert EventStep(s, woken, t) && EnterStep(woken, entered, t) && CounterStep(entered, uncounted, t);
    assert LeaveStep(uncounted, left, t) && MutexStep(left, back, t);
    longer := FiveMore(path, t, woken, entered, uncounted, left, back);
    assert back.pcs == s.pcs[t := Inside];
  }

  /** Waiting works: whenever a thread holds the mutex outside the two functions and
      nobody is in the critical section, it can wait, another thread can signal, with
      the mutex or without, and the first returns with the mutex. Nothing but the tallies
      shows that afterwards. */
  lemma CanWaitAndSignal(run: seq<State>, i: nat, t: Tid, u: Tid, locked: bool) returns (path: seq<State>)
    requires IsRun(run) && i < |run| && t in run[i].pcs && u in run[i].pcs
    requires run[i].pcs[t].Inside? && run[i].pcs[u].Outside? && run[i].lock == None && !run[i].event
    requires |Counted(run[i])| + run[i].leaked + 1 < UINT_RANGE
    ensures Steps(path) && path[0] == run[i]
    ensures path[|path| - 1] == run[i].(sets := run[i].sets + 1, wakes := run[i].wakes + 1)
  {
    hide IsRun, Step;
    var s := run[i];
    RunInv(run, i);
    CounterIsExact(run, i);
    path := Waits([s], t);
    if locked { path := LocksAndSignals(path, u); } else { path := Signals(path, u, false); }
    path := Wakes(path, t);
    assert s.pcs[t := WaitEvent][t := Inside] == s.pcs;
  }
}
