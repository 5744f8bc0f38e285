/** `emulate_pthread_mutex_lock`: a mutex whose handle is created by whichever
    thread locks it first, as interleaved steps of any number of threads. */
module LazyMutex {
  import opened Options

  type Tid = nat
  type Handle = nat

  /** Where a thread stands. `Idle` is outside the function, not holding the mutex. */
  datatype Pc =
    | Idle
    | Test                         // about to read the slot
    | Create                       // saw NULL, about to call CreateMutex
    | Swap(made: Option<Handle>)   // about to compare and exchange
    | Close(made: Option<Handle>)  // lost the exchange, about to close its handle
    | Enter                        // about to read the slot for the wait
    | Wait(on: Option<Handle>)     // waiting on the handle it read
    | Holding(h: Handle)
    | Failed                       // the wait returned WAIT_FAILED

  /** `nulls` only tallies the calls of `CreateMutex` that returned NULL. */
  datatype State = State(slot: Option<Handle>, open: set<Handle>, owner: map<Handle, Tid>, pcs: map<Tid, Pc>,
                         nulls: nat)

  predicate Init(s: State) {
    && s.slot == None && s.open == {} && s.owner == map[] && s.nulls == 0
    && forall t | t in s.pcs :: s.pcs[t] == Idle
  }

  function Move(s: State, t: Tid, pc: Pc): State { s.(pcs := s.pcs[t := pc]) }

  // ------------------------------------------------------------------ the steps

  predicate Call(s: State, s': State, t: Tid)
    requires t in s.pcs
  {
    s.pcs[t].Idle? && s' == Move(s, t, Test)
  }

  predicate TestSlot(s: State, s': State, t: Tid)
    requires t in s.pcs
  {
    s.pcs[t].Test? && s' == Move(s, t, if s.slot == None then Create else Enter)
  }

  /** `CreateMutex` returns a handle that is not open, or NULL. A closed handle
      value may be given out again. */
  predicate CreateHandle(s: State, s': State, t: Tid, made: Option<Handle>)
    requires t in s.pcs
  {
    && s.pcs[t].Create?
    && match made
       case None => s' == Move(s, t, Swap(None)).(nulls := s.nulls + 1)
       case Some(h) => h !in s.open && h !in s.owner && s' == Move(s, t, Swap(made)).(open := s.open + {h})
  }

  predicate Exchange(s: State, s': State, t: Tid)
    requires t in s.pcs
  {
    && s.pcs[t].Swap?
    && s' == if s.slot == None then Move(s, t, Enter).(slot := s.pcs[t].made) else Move(s, t, Close(s.pcs[t].made))
  }

  predicate CloseLoser(s: State, s': State, t: Tid)
    requires t in s.pcs
  {
    && s.pcs[t].Close?
    && s' == match s.pcs[t].made
             case None => Move(s, t, Enter)
             case Some(h) => Move(s, t, Enter).(open := s.open - {h})
  }

  predicate ReadSlot(s: State, s': State, t: Tid)
    requires t in s.pcs
  {
    s.pcs[t].Enter? && s' == Move(s, t, Wait(s.slot))
  }

  predicate Acquire(s: State, s': State, t: Tid)
    requires t in s.pcs
  {
    && s.pcs[t].Wait? && s.pcs[t].on.Some?
    && var h := s.pcs[t].on.value;
       h in s.open && h !in s.owner && s' == Move(s, t, Holding(h)).(owner := s.owner[h := t])
  }

  /** A wait can fail; on a handle that is NULL it must. */
  predicate FailWait(s: State, s': State, t: Tid)
    requires t in s.pcs
  {
    s.pcs[t].Wait? && s' == Move(s, t, Failed)
  }

  predicate Return(s: State, s': State, t: Tid)
    requires t in s.pcs
  {
    s.pcs[t].Failed? && s' == Move(s, t, Idle)
  }

  /** `MUTEX_UNLOCK`: `ReleaseMutex` on whatever the slot then holds. */
  predicate Unlock(s: State, s': State, t: Tid)
    requires t in s.pcs
  {
    && s.pcs[t].Holding?
    && s' == Move(s, t, Idle).(owner := if s.slot.Some? then s.owner - {s.slot.value} else s.owner)
  }

  ghost predicate Step(s: State, s': State) {
    exists t | t in s.pcs :: StepOf(s, s', t)
  }

  ghost predicate StepOf(s: State, s': State, t: Tid)
    requires t in s.pcs
  {
    || Call(s, s', t) || TestSlot(s, s', t) || (exists made :: CreateHandle(s, s', t, made)) || Exchange(s, s', t)
    || CloseLoser(s, s', t) || ReadSlot(s, s', t) || Acquire(s, s', t) || FailWait(s, s', t) || Return(s, s', t)
    || Unlock(s, s', t)
  }

  // -------------------------------------------------------------- the invariant

  /** The handle a thread has created and not yet installed or closed. */
  function InFlight(pc: Pc): Option<Handle> {
    if pc.Swap? || pc.Close? then pc.made else None
  }

  /** The handle a thread has chosen to use. */
  function Chosen(pc: Pc): Option<Handle> {
    if pc.Wait? then pc.on else if pc.Holding? then Some(pc.h) else None
  }

  predicate HandlesAccounted(s: State) {
    && (s.slot.Some? ==> s.slot.value in s.open)
    && (forall t | t in s.pcs && InFlight(s.pcs[t]).Some? ::
          InFlight(s.pcs[t]).value in s.open && InFlight(s.pcs[t]) != s.slot)
    && (forall t, u | t in s.pcs && u in s.pcs && t != u && InFlight(s.pcs[t]).Some? ::
          InFlight(s.pcs[t]) != InFlight(s.pcs[u]))
    && (forall h | h in s.open :: Some(h) == s.slot || Carried(s, h))
  }

  predicate Carried(s: State, h: Handle) {
    exists t | t in s.pcs :: InFlight(s.pcs[t]) == Some(h)
  }

  predicate OneHandleUsed(s: State) {
    forall t | t in s.pcs && Chosen(s.pcs[t]).Some? :: Chosen(s.pcs[t]) == s.slot
  }

  predicate OwnersHold(s: State) {
    && (forall t | t in s.pcs && s.pcs[t].Holding? :: s.pcs[t].h in s.owner && s.owner[s.pcs[t].h] == t)
    && (forall h | h in s.owner :: s.owner[h] in s.pcs && s.pcs[s.owner[h]] == Holding(h))
  }

  /** Past the test and the exchange there is a handle, unless none could be created. */
  predicate HasHandle(pc: Pc, slot: Option<Handle>) {
    match pc
    case Swap(made) => made.Some?
    case Close(made) => made.Some? && slot.Some?
    case Enter => slot.Some?
    case Wait(on) => on.Some?
    case _ => true
  }

  predicate SlotFilled(s: State) {
    s.nulls == 0 ==> forall t | t in s.pcs :: HasHandle(s.pcs[t], s.slot)
  }

  predicate Inv(s: State) { HandlesAccounted(s) && OneHandleUsed(s) && OwnersHold(s) && SlotFilled(s) }

  lemma InitInv(s: State)
    requires Init(s)
    ensures Inv(s)
  {
  }

  /** A step that changes only one thread's place, and leaves its in-flight handle. */
  lemma CarriedStays(s: State, s': State, t: Tid, h: Handle)
    requires t in s.pcs && Carried(s, h) && s'.pcs.Keys == s.pcs.Keys
    requires forall u | u in s.pcs && u != t :: s'.pcs[u] == s.pcs[u]
    requires InFlight(s.pcs[t]) == Some(h) ==> InFlight(s'.pcs[t]) == Some(h)
    ensures Carried(s', h)
  {
    var u :| u in s.pcs && InFlight(s.pcs[u]) == Some(h);
    assert u in s'.pcs && InFlight(s'.pcs[u]) == Some(h);
  }

  /** Steps that neither touch a handle nor the slot. */
  lemma HandlesQuiet(s: State, s': State, t: Tid)
    requires t in s.pcs && HandlesAccounted(s) && s'.slot == s.slot && s'.open == s.open
    requires t in s'.pcs && s'.pcs == s.pcs[t := s'.pcs[t]] && InFlight(s'.pcs[t]) == InFlight(s.pcs[t])
    ensures HandlesAccounted(s')
  {
    assert forall u | u in s.pcs :: InFlight(s'.pcs[u]) == InFlight(s.pcs[u]);
    forall h | h in s'.open && Some(h) != s'.slot
      ensures Carried(s', h)
    {
      CarriedStays(s, s', t, h);
    }
  }

  lemma HandlesCreate(s: State, s': State, t: Tid, made: Option<Handle>)
    requires t in s.pcs && HandlesAccounted(s) && CreateHandle(s, s', t, made)
    ensures HandlesAccounted(s')
  {
    if made == None {
      HandlesQuiet(s, s', t);
    } else {
      assert InFlight(s'.pcs[t]) == made;
      forall h | h in s'.open && Some(h) != s'.slot
        ensures Carried(s', h)
      {
        if h in s.open { CarriedStays(s, s', t, h); }
      }
    }
  }

  lemma HandlesExchange(s: State, s': State, t: Tid)
    requires t in s.pcs && HandlesAccounted(s) && Exchange(s, s', t)
    ensures HandlesAccounted(s')
  {
    if s.slot != None || s.pcs[t].made == None {
      HandlesQuiet(s, s', t);
    } else {
      forall h | h in s'.open && Some(h) != s'.slot
        ensures Carried(s', h)
      {
        CarriedStays(s, s', t, h);
      }
    }
  }

  lemma HandlesClose(s: State, s': State, t: Tid)
    requires t in s.pcs && HandlesAccounted(s) && CloseLoser(s, s', t)
    ensures HandlesAccounted(s')
  {
    if s.pcs[t].made == None {
      HandlesQuiet(s, s', t);
    } else {
      forall h | h in s'.open && Some(h) != s'.slot
        ensures Carried(s', h)
      {
        CarriedStays(s, s', t, h);
      }
    }
  }

  lemma HandlesStep(s: State, s': State, t: Tid)
    requires t in s.pcs && HandlesAccounted(s) && StepOf(s, s', t)
    ensures HandlesAccounted(s')
  {
    if s.pcs[t].Create? {
      var made :| CreateHandle(s, s', t, made);
      HandlesCreate(s, s', t, made);
    } else if s.pcs[t].Swap? {
      HandlesExchange(s, s', t);
    } else if s.pcs[t].Close? {
      HandlesClose(s, s', t);
    } else {
      HandlesQuiet(s, s', t);
    }
  }

  lemma OneHandleStep(s: State, s': State, t: Tid)
    requires t in s.pcs && OneHandleUsed(s) && StepOf(s, s', t)
    ensures OneHandleUsed(s')
    ensures s.slot.Some? ==> s'.slot == s.slot
  {
    assert s.slot.Some? ==> s'.slot == s.slot;
  }

  lemma OwnersStep(s: State, s': State, t: Tid)
    requires t in s.pcs && OwnersHold(s) && OneHandleUsed(s) && StepOf(s, s', t)
    ensures OwnersHold(s')
  {
    if s.pcs[t].Holding? {
      assert Chosen(s.pcs[t]) == s.slot;
      OwnersUnlock(s, s', t);
    } else if s.pcs[t].Wait? && s'.pcs[t].Holding? {
      OwnersAcquire(s, s', t);
    } else {
      OwnersQuiet(s, s', t);
    }
  }

  lemma OwnersAcquire(s: State, s': State, t: Tid)
    requires t in s.pcs && OwnersHold(s) && Acquire(s, s', t)
    ensures OwnersHold(s')
  {
  }

  lemma OwnersQuiet(s: State, s': State, t: Tid)
    requires t in s.pcs && OwnersHold(s) && s'.owner == s.owner && !s.pcs[t].Holding?
    requires t in s'.pcs && s'.pcs == s.pcs[t := s'.pcs[t]] && !s'.pcs[t].Holding?
    ensures OwnersHold(s')
  {
  }

  lemma OwnersUnlock(s: State, s': State, t: Tid)
    requires t in s.pcs && OwnersHold(s) && OneHandleUsed(s)
    requires s.pcs[t].Holding? && Chosen(s.pcs[t]) == s.slot && Unlock(s, s', t)
    ensures OwnersHold(s')
  {
    forall u | u in s.pcs && s.pcs[u].Holding?
      ensures u == t
    {
      assert Chosen(s.pcs[u]) == s.slot;
    }
  }

  lemma SlotFilledStep(s: State, s': State, t: Tid)
    requires t in s.pcs && SlotFilled(s) && StepOf(s, s', t)
    ensures SlotFilled(s')
  {
    if s'.nulls == 0 {
      assert HasHandle(s.pcs[t], s.slot);
      assert s.slot.Some? ==> s'.slot == s.slot;
      MoverHasHandle(s, s', t);
    }
  }

  lemma MoverHasHandle(s: State, s': State, t: Tid)
    requires t in s.pcs && HasHandle(s.pcs[t], s.slot) && StepOf(s, s', t) && s'.nulls == s.nulls
    ensures t in s'.pcs && HasHandle(s'.pcs[t], s'.slot) && s'.pcs == s.pcs[t := s'.pcs[t]]
  {
  }

  lemma InvStep(s: State, s': State)
    requires Inv(s) && Step(s, s')
    ensures Inv(s')
    ensures s.slot.Some? ==> s'.slot == s.slot
  {
    var t :| t in s.pcs && StepOf(s, s', t);
    HandlesStep(s, s', t);
    OneHandleStep(s, s', t);
    OwnersStep(s, s', t);
    SlotFilledStep(s, s', t);
  }

  // ----------------------------------------------------------------- whole runs

  ghost predicate IsRun(run: seq<State>) {
    run != [] && Init(run[0]) && forall i | 0 <= i < |run| - 1 :: Step(run[i], run[i + 1])
  }

  lemma {:induction false} RunInv(run: seq<State>, i: nat)
    requires IsRun(run) && i < |run|
    ensures Inv(run[i])
  {
    if i == 0 {
      InitInv(run[0]);
    } else {
      RunInv(run, i - 1);
      assert Step(run[i - 1], run[i - 1 + 1]);
      InvStep(run[i - 1], run[i]);
    }
  }

  lemma SlotStays(run: seq<State>, i: nat)
    requires IsRun(run) && i + 1 < |run|
    ensures run[i].slot.Some? ==> run[i + 1].slot == run[i].slot
  {
    RunInv(run, i);
    assert Step(run[i], run[i + 1]);
    InvStep(run[i], run[i + 1]);
  }

  /** The slot changes from NULL at most once: an installed handle stays. */
  lemma {:induction false} InstalledForGood(run: seq<State>, i: nat, j: nat)
    requires IsRun(run) && i <= j < |run| && run[i].slot.Some?
    ensures run[j].slot == run[i].slot
    decreases j
  {
    if i == j {
    } else {
      InstalledForGood(run, i, j - 1);
      SlotStays(run, j - 1);
    }
  }

  /** Whenever two threads wait for or hold the mutex, in whatever states of a
      run, they use the same handle. */
  lemma OneHandleForAll(run: seq<State>, i: nat, t: Tid, j: nat, u: Tid)
    requires IsRun(run) && i < |run| && j < |run| && t in run[i].pcs && u in run[j].pcs
    requires Chosen(run[i].pcs[t]).Some? && Chosen(run[j].pcs[u]).Some?
    ensures Chosen(run[i].pcs[t]) == Chosen(run[j].pcs[u])
  {
    RunInv(run, i);
    RunInv(run, j);
    if i <= j { InstalledForGood(run, i, j); } else { InstalledForGood(run, j, i); }
  }

  /** At any time at most one thread holds the mutex. */
  lemma MutualExclusion(run: seq<State>, i: nat, t: Tid, u: Tid)
    requires IsRun(run) && i < |run| && t in run[i].pcs && u in run[i].pcs
    requires run[i].pcs[t].Holding? && run[i].pcs[u].Holding?
    ensures t == u
  {
    RunInv(run, i);
    assert Chosen(run[i].pcs[t]) == Chosen(run[i].pcs[u]);
  }

  function Installed(s: State): set<Handle> { if s.slot.Some? then {s.slot.value} else {} }

  function Carriers(s: State): set<Tid> { set t | t in s.pcs && InFlight(s.pcs[t]).Some? }

  /** No handle leaks: the open handles are the installed one and, one each, those
      of threads that have not yet installed or closed theirs. */
  lemma HandlesConserved(run: seq<State>, i: nat)
    requires IsRun(run) && i < |run|
    ensures |run[i].open| == |Installed(run[i])| + |Carriers(run[i])|
  {
    var s := run[i];
    RunInv(run, i);
    var carried := set t | t in Carriers(s) :: InFlight(s.pcs[t]).value;
    assert s.open == Installed(s) + carried by {
      forall h | h in s.open
        ensures h in Installed(s) + carried
      {
        if Some(h) != s.slot {
          var t :| t in s.pcs && InFlight(s.pcs[t]) == Some(h);
          assert t in Carriers(s);
        }
      }
    }
    assert Installed(s) !! carried;
    InjectiveImage(s, Carriers(s), carried);
  }

  lemma {:induction false} InjectiveImage(s: State, ts: set<Tid>, hs: set<Handle>)
    requires ts <= Carriers(s) && hs == set t | t in ts :: InFlight(s.pcs[t]).value
    requires HandlesAccounted(s)
    ensures |hs| == |ts|
  {
    if t :| t in ts {
      var rest := ts - {t};
      var restHs := set u | u in rest :: InFlight(s.pcs[u]).value;
      InjectiveImage(s, rest, restHs);
      assert hs == restHs + {InFlight(s.pcs[t]).value};
    }
  }

  /** Once no thread is between creating and installing or closing, only the
      installed handle is open. */
  lemma QuiescentMeansOneHandle(run: seq<State>, i: nat)
    requires IsRun(run) && i < |run| && forall t | t in run[i].pcs :: !run[i].pcs[t].Swap? && !run[i].pcs[t].Close?
    ensures run[i].open == Installed(run[i])
  {
    RunInv(run, i);
  }

  // -------------------------------------------------------------- locking works

  /** Unless some `CreateMutex` has returned NULL, no thread ever waits on NULL, and a
      thread that is about to read the slot for its wait finds a handle there. */
  lemma WaitsOnHandle(run: seq<State>, i: nat, t: Tid)
    requires IsRun(run) && i < |run| && t in run[i].pcs && run[i].nulls == 0
    ensures run[i].pcs[t].Enter? ==> run[i].slot.Some?
    ensures run[i].pcs[t].Wait? ==> run[i].pcs[t].on == run[i].slot && run[i].slot.Some?
  {
    RunInv(run, i);
    assert HasHandle(run[i].pcs[t], run[i].slot);
    if run[i].pcs[t].Wait? { assert Chosen(run[i].pcs[t]).Some?; }
  }

  /** The steps of one thread while all others stand still. */
  ghost predicate Alone(path: seq<State>, t: Tid) {
    && path != [] && t in path[0].pcs
    && forall i | 0 <= i < |path| - 1 :: t in path[i].pcs && StepOf(path[i], path[i + 1], t)
  }

  lemma OneBefore(s: State, path: seq<State>, t: Tid)
    requires Alone(path, t) && t in s.pcs && StepOf(s, path[0], t)
    ensures Alone([s] + path, t)
  {
    var longer := [s] + path;
    forall i | 0 <= i < |longer| - 1
      ensures t in longer[i].pcs && StepOf(longer[i], longer[i + 1], t)
    {
      if i > 0 { assert longer[i] == path[i - 1] && longer[i + 1] == path[i - 1 + 1]; }
    }
  }

  lemma {:induction false} FreshHandle(open: set<Handle>) returns (h: Handle)
    ensures forall x | x in open :: x < h
  {
    if x :| x in open {
      var h' := FreshHandle(open - {x});
      h := if x < h' then h' else x + 1;
      assert forall y | y in open :: y == x || y in open - {x};
    } else {
      h := 0;
    }
  }

  /** How many steps a thread is away from holding the mutex, at most. */
  function Distance(pc: Pc): nat {
    match pc
    case Failed => 8
    case Idle => 7
    case Test => 6
    case Create => 5
    case Swap(_) => 4
    case Close(_) => 3
    case Enter => 2
    case Wait(_) => 1
    case Holding(_) => 0
  }

  /** Nobody has the mutex but possibly the thread. */
  predicate FreeFor(s: State, t: Tid)
    requires t in s.pcs
  {
    s.owner == match s.pcs[t]
               case Holding(h) => map[h := t]
               case _ => map[]
  }

  /** The next step of a thread towards holding the mutex. */
  lemma NextStep(s: State, t: Tid) returns (s': State)
    requires t in s.pcs && Inv(s) && HasHandle(s.pcs[t], s.slot) && s.owner == map[] && !s.pcs[t].Holding?
    ensures StepOf(s, s', t) && t in s'.pcs && Distance(s'.pcs[t]) < Distance(s.pcs[t])
    ensures HasHandle(s'.pcs[t], s'.slot) && FreeFor(s', t)
  {
    match s.pcs[t]
    case Failed => s' := Move(s, t, Idle);
    case Idle => s' := Move(s, t, Test);
    case Test => s' := Move(s, t, if s.slot == None then Create else Enter);
    case Create =>
      var h := FreshHandle(s.open);
      s' := Move(s, t, Swap(Some(h))).(open := s.open + {h});
      assert CreateHandle(s, s', t, Some(h));
    case Swap(made) =>
      s' := if s.slot == None then Move(s, t, Enter).(slot := made) else Move(s, t, Close(made));
    case Close(made) => s' := Move(s, t, Enter).(open := s.open - {made.value});
    case Enter => s' := Move(s, t, Wait(s.slot));
    case Wait(on) =>
      assert Chosen(s.pcs[t]).Some?;
      s' := Move(s, t, Holding(on.value)).(owner := s.owner[on.value := t]);
  }

  /** Locking is possible: in every state of a run in which nobody owns the mutex, a
      thread can go on to hold it without any help, wherever it stands, unless it is
      past the creation of a handle that could not be created. */
  lemma CanLock(run: seq<State>, i: nat, t: Tid) returns (path: seq<State>)
    requires IsRun(run) && i < |run| && t in run[i].pcs && run[i].owner == map[]
    requires run[i].nulls == 0 || run[i].pcs[t].Idle? || run[i].pcs[t].Test?
    ensures Alone(path, t) && path[0] == run[i]
    ensures var e := path[|path| - 1];
            e.slot.Some? && t in e.pcs && e.pcs[t] == Holding(e.slot.value) && e.owner == map[e.slot.value := t]
  {
    hide Alone;
    RunInv(run, i);
    assert HasHandle(run[i].pcs[t], run[i].slot);
    path := GoesOn(run[i], t);
  }

  lemma {:induction false} GoesOn(s: State, t: Tid) returns (path: seq<State>)
    requires t in s.pcs && Inv(s) && HasHandle(s.pcs[t], s.slot) && FreeFor(s, t)
    ensures path != [] && Alone(path, t) && path[0] == s
    ensures var e := path[|path| - 1];
            e.slot.Some? && t in e.pcs && e.pcs[t] == Holding(e.slot.value) && e.owner == map[e.slot.value := t]
    decreases Distance(s.pcs[t])
  {
    hide StepOf, HandlesAccounted, OwnersHold;
    if s.pcs[t].Holding? {
      assert Chosen(s.pcs[t]).Some?;
      path := [s];
    } else {
      var s' := NextStep(s, t);
      InvStep(s, s');
      path := GoesOn(s', t);
      OneBefore(s, path, t);
      path := [s] + path;
    }
  }

  /** Unlocking gives the mutex up: afterwards nobody owns it, and the next can lock. */
  lemma UnlockFrees(run: seq<State>, i: nat, t: Tid, s': State)
    requires IsRun(run) && i < |run| && t in run[i].pcs && run[i].pcs[t].Holding? && StepOf(run[i], s', t)
    ensures s'.owner == map[] && s'.pcs == run[i].pcs[t := Idle]
  {
    var s := run[i];
    RunInv(run, i);
    assert Chosen(s.pcs[t]) == s.slot;
    forall h | h in s.owner
      ensures Some(h) == s.slot
    {
      assert Chosen(s.pcs[s.owner[h]]) == s.slot;
    }
  }
}
