/** The application sequence of section 7 of WS-Discovery 1.1: the instance id,
    sequence id and message number that wsddapi.c stamps on outgoing messages. */
module AppSequence {
  import opened Constants
  import opened Options

  /** The stamp put in a header. */
  datatype Stamp = Stamp(instanceId: uint32, sequenceId: Option<string>, messageNumber: uint32)

  /** What happened to the shared state, one entry per locked section. */
  datatype Event =
    | Stamped(stamp: Stamp)
    | InstanceSet(instanceId: uint32)
    | SequenceSet(sequenceId: string)

  /** `n++` on an unsigned int. */
  function Bump(n: uint32): uint32 { if n as int == UINT_RANGE - 1 then 0 else n + 1 }

  /** The shared state is the stamp the next message would get. */
  function Initial(): Stamp { Stamp(0, None, 1) }

  function Apply(next: Stamp, e: Event): Stamp {
    match e
    case Stamped(_) => next.(messageNumber := Bump(next.messageNumber))
    case InstanceSet(i) => next.(instanceId := i, messageNumber := 1)
    case SequenceSet(q) => next.(sequenceId := Some(q), messageNumber := 1)
  }

  /** The state after a history. */
  function After(log: seq<Event>): Stamp {
    if log == [] then Initial() else Apply(After(log[..|log| - 1]), log[|log| - 1])
  }

  /** A history of atomic operations: every stamp is the state it was taken from. */
  predicate Atomic(log: seq<Event>) {
    forall p | 0 <= p < |log| && log[p].Stamped? :: log[p].stamp == After(log[..p])
  }

  /** The stamps since the last reset. */
  function Count(log: seq<Event>): nat {
    if log == [] then 0
    else if log[|log| - 1].Stamped? then Count(log[..|log| - 1]) + 1
    else 0
  }

  // -------------------------------------------------------- the shared variables

  /** The static variables and the operations on them, each under the lock. */
  class SharedState {
    var instanceId: uint32
    var sequenceId: Option<string>
    var messageNumber: uint32
    ghost var log: seq<Event>

    ghost predicate Valid()
      reads this
    {
      Atomic(log) && After(log) == Stamp(instanceId, sequenceId, messageNumber)
    }

    constructor ()
      ensures Valid() && log == [] && instanceId == 0 && sequenceId == None && messageNumber == 1
    {
      instanceId, sequenceId, messageNumber := 0, None, 1;
      log := [];
    }

    /** `soap_wsdd_set_InstanceId`. */
    method SetInstanceId(id: uint32)
      requires Valid()
      modifies this
      ensures Valid() && log == old(log) + [InstanceSet(id)]
      ensures instanceId == id && sequenceId == old(sequenceId) && messageNumber == 1
    {
      instanceId := id;
      messageNumber := 1;
      log := log + [InstanceSet(id)];
      HistoryGrows(old(log), InstanceSet(id));
    }

    /** `soap_wsdd_set_SequenceId`. */
    method SetSequenceId(id: string)
      requires Valid()
      modifies this
      ensures Valid() && log == old(log) + [SequenceSet(id)]
      ensures instanceId == old(instanceId) && sequenceId == Some(id) && messageNumber == 1
    {
      sequenceId := Some(id);
      messageNumber := 1;
      log := log + [SequenceSet(id)];
      HistoryGrows(old(log), SequenceSet(id));
    }

    /** The locked part of `soap_wsdd_set_AppSequence`. */
    method Take() returns (stamp: Stamp)
      requires Valid()
      modifies this
      ensures Valid() && log == old(log) + [Stamped(stamp)] && stamp == After(old(log))
      ensures stamp == Stamp(old(instanceId), old(sequenceId), old(messageNumber))
      ensures instanceId == old(instanceId) && sequenceId == old(sequenceId)
      ensures messageNumber as int == (old(messageNumber) as int + 1) % UINT_RANGE
    {
      stamp := Stamp(instanceId, sequenceId, messageNumber);
      messageNumber := Bump(messageNumber);
      log := log + [Stamped(stamp)];
      HistoryGrows(old(log), Stamped(stamp));
    }
  }

  lemma HistoryGrows(log: seq<Event>, e: Event)
    ensures After(log + [e]) == Apply(After(log), e)
    ensures Atomic(log) && (e.Stamped? ==> e.stamp == After(log)) ==> Atomic(log + [e])
  {
    assert (log + [e])[..|log|] == log;
    forall p | 0 <= p < |log|
      ensures (log + [e])[..p] == log[..p]
    {
    }
  }

  // ------------------------------------------------------------ message numbers

  /** The n-th stamp since the last reset carries the number n: 1, 2, 3, ...
      without gap or repetition, up to the width of an unsigned int. */
  lemma {:induction false} NumberIsCount(log: seq<Event>)
    ensures After(log).messageNumber as int == (Count(log) + 1) % UINT_RANGE
  {
    if log == [] {
    } else {
      NumberIsCount(log[..|log| - 1]);
    }
  }

  lemma StampsAreNumbered(log: seq<Event>, p: nat)
    requires Atomic(log) && p < |log| && log[p].Stamped?
    ensures log[p].stamp.messageNumber as int == Count(log[..p + 1]) % UINT_RANGE
  {
    NumberIsCount(log[..p]);
    assert log[..p + 1][..p] == log[..p];
  }

  // ----------------------------------------------------------------- uniqueness

  /** Instance ids increase and sequence ids are new, as the standard asks. */
  predicate FreshResets(log: seq<Event>) {
    forall p | 0 <= p < |log| :: FreshAt(log, p)
  }

  predicate FreshAt(log: seq<Event>, p: nat)
    requires p < |log|
  {
    match log[p]
    case Stamped(_) => true
    case InstanceSet(i) => i > After(log[..p]).instanceId
    case SequenceSet(q) => forall r | 0 <= r < p :: log[r] != SequenceSet(q)
  }

  predicate Distinct(log: seq<Event>) {
    forall p, r | 0 <= p < r < |log| && log[p].Stamped? && log[r].Stamped? :: log[p].stamp != log[r].stamp
  }

  /** No reset between two positions. */
  predicate SameEpoch(log: seq<Event>, p: nat, r: nat) {
    p <= r <= |log| && forall z | p <= z < r :: log[z].Stamped?
  }

  lemma {:induction false} EpochKeepsIds(log: seq<Event>, p: nat, r: nat)
    requires SameEpoch(log, p, r)
    ensures After(log[..r]).instanceId == After(log[..p]).instanceId
    ensures After(log[..r]).sequenceId == After(log[..p]).sequenceId
    ensures Count(log[..r]) == Count(log[..p]) + (r - p)
    decreases r
  {
    if p == r {
    } else {
      EpochKeepsIds(log, p, r - 1);
      assert log[..r][..r - 1] == log[..r - 1];
    }
  }

  lemma {:induction false} InstanceIdsGrow(log: seq<Event>, p: nat, r: nat)
    requires FreshResets(log) && p <= r <= |log|
    ensures After(log[..p]).instanceId <= After(log[..r]).instanceId
    ensures (exists z | p <= z < r :: log[z].InstanceSet?) ==> After(log[..p]).instanceId < After(log[..r]).instanceId
    decreases r
  {
    if p == r {
    } else {
      InstanceIdsGrow(log, p, r - 1);
      assert log[..r][..r - 1] == log[..r - 1];
      assert FreshAt(log, r - 1);
    }
  }

  /** The current sequence id was set by some earlier event, unless there is none. */
  lemma {:induction false} SequenceIdWasSet(log: seq<Event>, p: nat)
    requires p <= |log| && After(log[..p]).sequenceId.Some?
    ensures exists z | 0 <= z < p :: log[z] == SequenceSet(After(log[..p]).sequenceId.value)
    decreases p
  {
    if p == 0 {
    } else {
      assert log[..p][..p - 1] == log[..p - 1];
      if !log[p - 1].SequenceSet? { SequenceIdWasSet(log, p - 1); }
    }
  }

  /** Without a new instance id, a new sequence id replaces the old one for good. */
  lemma {:induction false} SequenceIdsChange(log: seq<Event>, p: nat, r: nat)
    requires FreshResets(log) && p < r <= |log| && exists z | p <= z < r :: log[z].SequenceSet?
    ensures After(log[..p]).sequenceId != After(log[..r]).sequenceId
    decreases r
  {
    assert log[..r][..r - 1] == log[..r - 1];
    if log[r - 1].SequenceSet? {
      assert FreshAt(log, r - 1);
      if After(log[..p]).sequenceId.Some? { SequenceIdWasSet(log, p); }
    } else {
      SequenceIdsChange(log, p, r - 1);
    }
  }

  /** Stamps from different epochs differ in one of the two ids. */
  lemma EpochsDiffer(log: seq<Event>, p: nat, r: nat)
    requires FreshResets(log) && p < r <= |log| && !SameEpoch(log, p, r)
    ensures After(log[..p]).instanceId != After(log[..r]).instanceId
            || After(log[..p]).sequenceId != After(log[..r]).sequenceId
  {
    var z :| p <= z < r && !log[z].Stamped?;
    if log[z].InstanceSet? { InstanceIdsGrow(log, p, r); } else { SequenceIdsChange(log, p, r); }
  }

  /** Every epoch takes at most 2^32 stamps. */
  predicate EpochsFit(log: seq<Event>) {
    forall r | 0 <= r <= |log| :: Count(log[..r]) <= UINT_RANGE
  }

  /** The stamps of a history are pairwise distinct exactly when no epoch wraps
      the message number around, provided every reset brings a new id. */
  lemma DistinctExactlyWhenEpochsFit(log: seq<Event>)
    requires Atomic(log) && FreshResets(log)
    ensures Distinct(log) <==> EpochsFit(log)
  {
    if EpochsFit(log) {
      forall p, r | 0 <= p < r < |log| && log[p].Stamped? && log[r].Stamped?
        ensures log[p].stamp != log[r].stamp
      {
        FittingStampsDiffer(log, p, r);
      }
    } else {
      var r :| 0 <= r <= |log| && Count(log[..r]) > UINT_RANGE;
      LongEpochRepeats(log, r);
    }
  }

  lemma FittingStampsDiffer(log: seq<Event>, p: nat, r: nat)
    requires Atomic(log) && FreshResets(log) && EpochsFit(log)
    requires p < r < |log| && log[p].Stamped? && log[r].Stamped?
    ensures log[p].stamp != log[r].stamp
  {
    if SameEpoch(log, p, r) {
      EpochKeepsIds(log, p, r);
      NumberIsCount(log[..p]);
      NumberIsCount(log[..r]);
      assert log[..r + 1][..r] == log[..r];
      assert Count(log[..r + 1]) <= UINT_RANGE;
      DifferentRemainders(Count(log[..p]), Count(log[..r]));
    } else {
      EpochsDiffer(log, p, r);
    }
  }

  lemma DifferentRemainders(a: nat, b: nat)
    requires a < b < UINT_RANGE
    ensures (a + 1) % UINT_RANGE != (b + 1) % UINT_RANGE
  {
  }

  /** The stamps just counted lie side by side before the position. */
  lemma {:induction false} CountedStamps(log: seq<Event>, r: nat)
    requires r <= |log|
    ensures Count(log[..r]) <= r && SameEpoch(log, r - Count(log[..r]), r)
    ensures Count(log[..r - Count(log[..r])]) == 0
    decreases r
  {
    if r > 0 {
      assert log[..r][..r - 1] == log[..r - 1];
      CountedStamps(log, r - 1);
    }
  }

  lemma LongEpochRepeats(log: seq<Event>, r: nat)
    requires Atomic(log) && r <= |log| && Count(log[..r]) > UINT_RANGE
    ensures !Distinct(log)
  {
    CountedStamps(log, r);
    var p := r - Count(log[..r]);
    var q := p + UINT_RANGE;
    assert log[p].Stamped? && log[q].Stamped?;
    assert SameEpoch(log, p, q);
    EpochKeepsIds(log, p, q);
    NumberIsCount(log[..p]);
    NumberIsCount(log[..q]);
    assert log[p].stamp == log[q].stamp;
  }
}
