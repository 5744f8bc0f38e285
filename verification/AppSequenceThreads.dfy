/** The same operations as separate memory accesses of many threads, kept apart
    by the mutex `soap_wsdd_state` alone. */
module AppSequenceThreads {
  import opened AppSequence
  import opened Constants
  import opened Options

  type Tid = nat

  datatype Operation = TakeStamp | SetInstance(instanceId: uint32) | SetSequence(sequenceId: string)

  /** Where a thread stands; inside the lock, with what it has copied so far. */
  datatype Pc =
    | Idle
    | Locking(op: Operation)
    | Locked(op: Operation)
    | HasInstance(i: uint32)
    | HasSequence(i: uint32, q: Option<string>)
    | HasNumber(i: uint32, q: Option<string>, n: uint32)   // read, not yet incremented
    | InstanceWritten(i: uint32)
    | SequenceWritten(s: string)
    | Unlocking(e: Event)

  /** `shared` holds the three static variables; `log` lists the completed
      operations, a stamp as it stands in the header of the thread that took it. */
  datatype State = State(shared: Stamp, lock: Option<Tid>, pcs: map<Tid, Pc>, log: seq<Event>)

  predicate Init(s: State) {
    s.shared == Initial() && s.lock == None && s.log == [] && forall t | t in s.pcs :: s.pcs[t] == Idle
  }

  function Move(s: State, t: Tid, pc: Pc): State { s.(pcs := s.pcs[t := pc]) }

  ghost predicate StepOf(s: State, s': State, t: Tid)
    requires t in s.pcs
  {
    match s.pcs[t]
    case Idle =>
      exists op :: s' == Move(s, t, Locking(op))
    case Locking(op) =>
      s.lock == None && s' == Move(s, t, Locked(op)).(lock := Some(t))
    case Locked(TakeStamp) =>
      s' == Move(s, t, HasInstance(s.shared.instanceId))
    case HasInstance(i) =>
      s' == Move(s, t, HasSequence(i, s.shared.sequenceId))
    case HasSequence(i, q) =>
      s' == Move(s, t, HasNumber(i, q, s.shared.messageNumber))
    case HasNumber(i, q, n) =>
      s' == Move(s, t, Unlocking(Stamped(Stamp(i, q, n)))).(shared := s.shared.(messageNumber := Bump(n)))
    case Locked(SetInstance(i)) =>
      s' == Move(s, t, InstanceWritten(i)).(shared := s.shared.(instanceId := i))
    case InstanceWritten(i) =>
      s' == Move(s, t, Unlocking(InstanceSet(i))).(shared := s.shared.(messageNumber := 1))
    case Locked(SetSequence(q)) =>
      s' == Move(s, t, SequenceWritten(q)).(shared := s.shared.(sequenceId := Some(q)))
    case SequenceWritten(q) =>
      s' == Move(s, t, Unlocking(SequenceSet(q))).(shared := s.shared.(messageNumber := 1))
    case Unlocking(e) =>
      s' == Move(s, t, Idle).(lock := None, log := s.log + [e])
  }

  ghost predicate Step(s: State, s': State) {
    exists t | t in s.pcs :: StepOf(s, s', t)
  }

  // -------------------------------------------------------------- the invariant

  predicate HoldsLock(pc: Pc) { !pc.Idle? && !pc.Locking? }

  predicate LockRight(s: State) {
    && (forall t | t in s.pcs :: HoldsLock(s.pcs[t]) <==> s.lock == Some(t))
    && (s.lock.Some? ==> s.lock.value in s.pcs)
  }

  /** How the shared variables and the copies of the lock's holder relate to the
      state `a` the completed operations have led to. */
  predicate Halfway(pc: Pc, shared: Stamp, a: Stamp) {
    match pc
    case Idle => shared == a
    case Locking(_) => shared == a
    case Locked(_) => shared == a
    case HasInstance(i) => shared == a && i == a.instanceId
    case HasSequence(i, q) => shared == a && i == a.instanceId && q == a.sequenceId
    case HasNumber(i, q, n) => shared == a && a == Stamp(i, q, n)
    case InstanceWritten(i) => shared == a.(instanceId := i)
    case SequenceWritten(q) => shared == a.(sequenceId := Some(q))
    case Unlocking(e) => shared == Apply(a, e) && (e.Stamped? ==> e.stamp == a)
  }

  predicate Refines(s: State) {
    && Atomic(s.log)
    && match s.lock
       case None => s.shared == After(s.log)
       case Some(t) => t in s.pcs && Halfway(s.pcs[t], s.shared, After(s.log))
  }

  lemma LockKept(s: State, s': State, t: Tid)
    requires t in s.pcs && LockRight(s) && StepOf(s, s', t)
    ensures LockRight(s')
  {
  }

  lemma RefinesKept(s: State, s': State, t: Tid)
    requires t in s.pcs && LockRight(s) && Refines(s) && StepOf(s, s', t)
    ensures Refines(s')
  {
    if HoldsLock(s.pcs[t]) {
      assert s.lock == Some(t);
      if s.pcs[t].Unlocking? { HistoryGrows(s.log, s.pcs[t].e); }
    } else {
      OthersWait(s, s', t);
    }
  }

  /** A thread without the lock changes nothing but its place, unless it takes the lock. */
  lemma OthersWait(s: State, s': State, t: Tid)
    requires t in s.pcs && StepOf(s, s', t) && !HoldsLock(s.pcs[t])
    ensures s'.shared == s.shared && s'.log == s.log
    ensures s'.lock == s.lock || (s.lock == None && s'.lock == Some(t) && t in s'.pcs && s'.pcs[t].Locked?)
    ensures forall u | u in s.pcs && u != t :: u in s'.pcs && s'.pcs[u] == s.pcs[u]
  {
  }

  // ----------------------------------------------------------------- whole runs

  ghost predicate IsRun(run: seq<State>) {
    run != [] && Init(run[0]) && forall i | 0 <= i < |run| - 1 :: Step(run[i], run[i + 1])
  }

  lemma {:induction false} RunInv(run: seq<State>, i: nat)
    requires IsRun(run) && i < |run|
    ensures LockRight(run[i]) && Refines(run[i])
  {
    if i == 0 {
    } else {
      RunInv(run, i - 1);
      assert Step(run[i - 1], run[i - 1 + 1]);
      var t :| t in run[i - 1].pcs && StepOf(run[i - 1], run[i], t);
      LockKept(run[i - 1], run[i], t);
      RefinesKept(run[i - 1], run[i], t);
    }
  }

  /** Every interleaving of the separate accesses gives a history of atomic
      operations: no stamp mixes values from before and after another operation. */
  lemma InterleavingsAreAtomic(run: seq<State>, i: nat)
    requires IsRun(run) && i < |run|
    ensures Atomic(run[i].log)
    ensures run[i].lock == None ==> run[i].shared == After(run[i].log)
  {
    RunInv(run, i);
  }

  /** So in every interleaving the stamps delivered are pairwise distinct exactly
      when no epoch takes more than 2^32 of them, given fresh ids at every reset. */
  lemma DeliveredStampsAreDistinct(run: seq<State>, i: nat)
    requires IsRun(run) && i < |run| && FreshResets(run[i].log)
    ensures Distinct(run[i].log) <==> EpochsFit(run[i].log)
  {
    RunInv(run, i);
    DistinctExactlyWhenEpochsFit(run[i].log);
  }

  // ----------------------------------------------------- every operation is served

  /** The operation that a completed event stands for. */
  function Done(e: Event): Operation {
    match e
    case Stamped(_) => TakeStamp
    case InstanceSet(i) => SetInstance(i)
    case SequenceSet(q) => SetSequence(q)
  }

  /** The operation that a thread is at. */
  function Task(pc: Pc): Option<Operation> {
    match pc
    case Idle => None
    case Locking(op) => Some(op)
    case Locked(op) => Some(op)
    case HasInstance(_) => Some(TakeStamp)
    case HasSequence(_, _) => Some(TakeStamp)
    case HasNumber(_, _, _) => Some(TakeStamp)
    case InstanceWritten(i) => Some(SetInstance(i))
    case SequenceWritten(q) => Some(SetSequence(q))
    case Unlocking(e) => Some(Done(e))
  }

  /** In every run a thread goes on with the operation it was called for until that
      is completed, and nothing else is ever completed. */
  lemma OnlyWhatWasAsked(run: seq<State>, i: nat, t: Tid)
    requires IsRun(run) && i + 1 < |run| && t in run[i].pcs && run[i].pcs[t] != Idle
    ensures t in run[i + 1].pcs
    ensures run[i + 1].pcs[t] != Idle ==> Task(run[i + 1].pcs[t]) == Task(run[i].pcs[t])
    ensures run[i + 1].pcs[t] == Idle ==>
              && |run[i + 1].log| == |run[i].log| + 1 && run[i].log <= run[i + 1].log
              && Some(Done(run[i + 1].log[|run[i].log|])) == Task(run[i].pcs[t])
  {
    assert Step(run[i], run[i + 1]);
    var u :| u in run[i].pcs && StepOf(run[i], run[i + 1], u);
    OneMoves(run[i], run[i + 1], u);
    if u == t { TaskKept(run[i], run[i + 1], t); }
  }

  lemma OneMoves(s: State, s': State, u: Tid)
    requires u in s.pcs && StepOf(s, s', u)
    ensures u in s'.pcs && s'.pcs == s.pcs[u := s'.pcs[u]]
  {
  }

  lemma TaskKept(s: State, s': State, t: Tid)
    requires t in s.pcs && StepOf(s, s', t) && s.pcs[t] != Idle
    ensures t in s'.pcs
    ensures s'.pcs[t] != Idle ==> Task(s'.pcs[t]) == Task(s.pcs[t])
    ensures s'.pcs[t] == Idle ==> exists e :: s'.log == s.log + [e] && Some(Done(e)) == Task(s.pcs[t])
  {
  }

  /** The steps of one thread while all others stand still. */
  ghost predicate Alone(path: seq<State>, t: Tid) {
    path != [] && forall i | 0 <= i < |path| - 1 :: t in path[i].pcs && StepOf(path[i], path[i + 1], t)
  }

  lemma OneBefore(s: State, path: seq<State>, t: Tid)
    requires Alone(path, t) && t in s.pcs && StepOf(s, path[0], t)
    ensures Alone([s] + path, t)
  {
    var longer := [s] + path;
    forall i | 0 <= i < |longer| - 1
      ensures t in longer[i].pcs && StepOf(longer[i], longer[i + 1], t)
    {
      if i > 0 { assert longer[i] == path[i - 1] && longer[i + 1] == path[i - 1 + 1]; }
    }
  }

  /** Steps up to the end of an operation. */
  function Distance(pc: Pc): nat {
    match pc
    case Idle => 0
    case Locking(_) => 6
    case Locked(_) => 5
    case HasInstance(_) => 4
    case HasSequence(_, _) => 3
    case HasNumber(_, _, _) => 2
    case InstanceWritten(_) => 2
    case SequenceWritten(_) => 2
    case Unlocking(_) => 1
  }

  lemma NextStep(s: State, t: Tid) returns (s': State)
    requires t in s.pcs && s.pcs[t] != Idle && (s.lock == None || s.lock == Some(t)) && LockRight(s)
    ensures StepOf(s, s', t) && t in s'.pcs && Distance(s'.pcs[t]) < Distance(s.pcs[t])
    ensures s'.lock == if s'.pcs[t] == Idle then None else Some(t)
  {
    match s.pcs[t]
    case Locking(op) => s' := Move(s, t, Locked(op)).(lock := Some(t));
    case Locked(TakeStamp) => s' := Move(s, t, HasInstance(s.shared.instanceId));
    case HasInstance(i) => s' := Move(s, t, HasSequence(i, s.shared.sequenceId));
    case HasSequence(i, q) => s' := Move(s, t, HasNumber(i, q, s.shared.messageNumber));
    case HasNumber(i, q, n) =>
      s' := Move(s, t, Unlocking(Stamped(Stamp(i, q, n)))).(shared := s.shared.(messageNumber := Bump(n)));
    case Locked(SetInstance(i)) => s' := Move(s, t, InstanceWritten(i)).(shared := s.shared.(instanceId := i));
    case InstanceWritten(i) =>
      s' := Move(s, t, Unlocking(InstanceSet(i))).(shared := s.shared.(messageNumber := 1));
    case Locked(SetSequence(q)) => s' := Move(s, t, SequenceWritten(q)).(shared := s.shared.(sequenceId := Some(q)));
    case SequenceWritten(q) =>
      s' := Move(s, t, Unlocking(SequenceSet(q))).(shared := s.shared.(messageNumber := 1));
    case Unlocking(e) => s' := Move(s, t, Idle).(lock := None, log := s.log + [e]);
  }

  /** Every operation can be completed: a thread that finds the lock free, or has it,
      gets through alone, and exactly its operation is added to the history. */
  lemma CanComplete(run: seq<State>, i: nat, t: Tid) returns (path: seq<State>)
    requires IsRun(run) && i < |run| && t in run[i].pcs && run[i].pcs[t] != Idle
    requires run[i].lock == None || run[i].lock == Some(t)
    ensures Alone(path, t) && path[0] == run[i]
    ensures var s, e := run[i], path[|path| - 1];
            && e.pcs == s.pcs[t := Idle] && e.lock == None && e.shared == After(e.log)
            && |e.log| == |s.log| + 1 && s.log <= e.log && Some(Done(e.log[|s.log|])) == Task(s.pcs[t])
  {
    RunInv(run, i);
    path := Completes(run[i], t);
  }

  lemma {:induction false} Completes(s: State, t: Tid) returns (path: seq<State>)
    requires t in s.pcs && s.pcs[t] != Idle && (s.lock == None || s.lock == Some(t)) && LockRight(s) && Refines(s)
    ensures path != [] && Alone(path, t) && path[0] == s
    ensures var e := path[|path| - 1];
            && e.pcs == s.pcs[t := Idle] && e.lock == None && e.shared == After(e.log)
            && |e.log| == |s.log| + 1 && s.log <= e.log && Some(Done(e.log[|s.log|])) == Task(s.pcs[t])
    decreases Distance(s.pcs[t])
  {
    hide StepOf, LockRight, Refines, Alone, Task;
    var s' := NextStep(s, t);
    OneMoves(s, s', t);
    TaskKept(s, s', t);
    LockKept(s, s', t);
    RefinesKept(s, s', t);
    if s'.pcs[t] == Idle {
      path := [s'];
      JustOne(s', t);
      Settled(s');
    } else {
      LogKept(s, s', t);
      path := Completes(s', t);
      assert s'.pcs[t := Idle] == s.pcs[t := Idle];
    }
    OneBefore(s, path, t);
    path := [s] + path;
  }

  lemma JustOne(s: State, t: Tid)
    ensures Alone([s], t)
  {
  }

  lemma Settled(s: State)
    requires Refines(s) && s.lock == None
    ensures s.shared == After(s.log)
  {
  }

  lemma LogKept(s: State, s': State, t: Tid)
    requires t in s.pcs && StepOf(s, s', t) && t in s'.pcs && s.pcs[t] != Idle && s'.pcs[t] != Idle
    ensures s'.log == s.log
  {
  }
}
