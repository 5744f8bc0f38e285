/** Probes one after the other in one context: what a relayed answer leaves behind. */
module ProbeRuns {
  import opened Addressing
  import opened AppSequence
  import CStrings
  import opened Connections
  import opened Constants
  import opened Conversation
  import opened Discovery
  import opened Options
  import opened ProbeService
  import opened SoapContext

  // --------------------------------------------------- an answer to another place

  lemma SingleTry(e: NetEvent, to: string)
    requires IsCall(e, Some(to)) && ' ' !in to
    ensures |e.tried| == 1 && LastTried(e.tried) == to
  {
    OneEndpoint(to);
  }

  /** The reply is prepared for a new connection. */
  predicate RepliesElsewhere(build: Build, h: Header, canCopy: bool) {
    !AnsweredInPlace(build, h, canCopy) && !ReplySuppressed(build, h)
  }

  /** Once a call has succeeded, the last endpoint tried decides where messages go. */
  lemma CallDecides(t: Transport, e: NetEvent, to: Option<string>)
    requires IsCall(e, to) && e.ok && t.connection == NoConnection
    ensures var after, u := AfterTries(t, e.tried), LastTried(e.tried);
            && (HasHost(u) ==> after.connection == Outgoing(u) && after.datagram == IsDatagram(u))
            && (!HasHost(u) ==> after.connection == NoConnection)
  {
    hide HasHost, IsDatagram, EndpointsOf;
    var n := |e.tried| - 1;
    FailedTriesLeaveNone(t, e.tried[..n]);
  }

  /** A Probe whose ReplyTo is elsewhere and can be reached is answered there if and
      only if the endpoint reached is for datagrams and has a host. Over a stream the
      response callback, exchanged for the relay, refuses to send. */
  lemma RelayedExactly(build: Build, h: Header, stamp: Stamp, uuid: string, canCopy: bool, t: Transport,
                       net: seq<NetEvent>, served: Served)
    requires ServedRight(build, h, stamp, uuid, canCopy, t, net, served)
    requires RepliesElsewhere(build, h, canCopy) && net[0].ok
    ensures var u := LastTried(net[0].tried);
            served == if HasHost(u) && IsDatagram(u) then Relayed(u, Some(AnswerHeader(build, h, stamp, uuid)))
                      else if !HasHost(u) && AfterTries(t, net[0].tried).datagram then Lost
                      else Failed(SOAP_PLUGIN_ERROR)
  {
    hide AnswerHeader, ReplySuppressed, ReplyDestination, FaultTrace, HasHost, IsDatagram, TriedInTurn, AfterTries;
    var aside := t.(connection := NoConnection);
    CallDecides(aside, net[0], ReplyDestination(build, h));
    TriesKeep(aside, net[0].tried);
    ModeByTries(t, aside, net[0].tried);
  }

  lemma {:induction false} ModeByTries(t: Transport, t': Transport, tried: seq<Try>)
    requires t.datagram == t'.datagram
    ensures AfterTries(t, tried).datagram == AfterTries(t', tried).datagram
  {
    if tried == [] {
    } else {
      ModeByTries(t, t', tried[..|tried| - 1]);
    }
  }

  /** So an answer to an address of the form scheme://host that can be reached is sent
      exactly if the scheme is "soap.udp"; to a web address it never is. */
  lemma OnlyDatagramRepliesAreSent(build: Build, h: Header, stamp: Stamp, uuid: string, canCopy: bool, t: Transport,
                                   net: seq<NetEvent>, served: Served, scheme: string, host: string)
    requires ServedRight(build, h, stamp, uuid, canCopy, t, net, served) && RepliesElsewhere(build, h, canCopy)
    requires ':' !in scheme && host != "" && host[0] != '/' && host[0] != ':' && ' ' !in scheme && ' ' !in host
    requires ReplyDestination(build, h) == Some(scheme + ("://" + host)) && net[0].ok
    ensures served == if scheme == "soap.udp" then Relayed(scheme + ("://" + host),
                                                          Some(AnswerHeader(build, h, stamp, uuid)))
                      else Failed(SOAP_PLUGIN_ERROR)
  {
    hide RepliesElsewhere, ServedRight, ReplyDestination, HasHost, IsDatagram, IsCall, AfterTries, AnswerHeader;
    SchemeAndHost(scheme, host);
    RelayIsCalled(build, h, stamp, uuid, canCopy, t, net, served);
    SingleTry(net[0], scheme + ("://" + host));
    RelayedExactly(build, h, stamp, uuid, canCopy, t, net, served);
  }

  lemma RelayIsCalled(build: Build, h: Header, stamp: Stamp, uuid: string, canCopy: bool, t: Transport,
                      net: seq<NetEvent>, served: Served)
    requires ServedRight(build, h, stamp, uuid, canCopy, t, net, served) && RepliesElsewhere(build, h, canCopy)
    ensures net != [] && IsCall(net[0], ReplyDestination(build, h))
  {
    hide AnsweredInPlace, ReplySuppressed, ReplyDestination, AnswerHeader, AfterReply, FaultTrace, IsCall, Sent;
  }

  // -------------------------------------------------- what one Probe leaves behind

  /** Some call for a connection has succeeded. */
  predicate MadeConnection(net: seq<NetEvent>) { exists i | 0 <= i < |net| :: net[i].Connected? && net[i].ok }

  lemma MadeJoins(x: seq<NetEvent>, y: seq<NetEvent>)
    ensures MadeConnection(x + y) <==> MadeConnection(x) || MadeConnection(y)
  {
    if i: nat :| i < |x| && x[i].Connected? && x[i].ok { assert (x + y)[i] == x[i]; }
    if i: nat :| i < |y| && y[i].Connected? && y[i].ok { assert (x + y)[|x| + i] == y[i]; }
  }

  /** What every step keeps of the transport. */
  predicate Keeps(t: Transport, net: seq<NetEvent>, after: Transport) {
    && after.listensOnDatagrams == t.listensOnDatagrams
    && after.exchanged == (t.exchanged || MadeConnection(net))
  }

  lemma FaultKeeps(build: Build, h: Header, net: seq<NetEvent>, t: Transport)
    requires FaultTrace(build, h, net)
    ensures Keeps(t, net, AfterFault(build, h, net, t))
  {
    hide FaultSuppressed, NeedsConnection, FaultDestination, TriedInTurn;
    if |net| == 2 {
      TriesKeep(Closing(t), net[1].tried);
      assert net[1].ok ==> MadeConnection(net);
    }
  }

  lemma AnswerKeeps(build: Build, h: Header, stamp: Stamp, uuid: string, canCopy: bool, t: Transport,
                    net: seq<NetEvent>, served: Served)
    requires ServedRight(build, h, stamp, uuid, canCopy, t, net, served)
    ensures Keeps(t, net, AfterReply(build, h, canCopy, net, t))
  {
    hide FaultTrace, AfterFault, ReplySuppressed, NeedsConnection, ReplyDestination, AnswerHeader, TriedInTurn, Sent;
    if net != [] && net[0].Connected? {
      if net[0].ok {
        TriesKeep(t.(connection := NoConnection), net[0].tried);
        assert MadeConnection(net);
      } else {
        FaultKeeps(build, h, net[1..], t);
        assert net == [net[0]] + net[1..];
        MadeJoins([net[0]], net[1..]);
      }
    }
  }

  lemma StepKeeps(build: Build, a: Arrival, stamp: Stamp, t: Transport, error: int, net: seq<NetEvent>, served: Served,
                  after: Transport)
    requires ProbeStep(build, a, stamp, t, error, net, served, after)
    ensures Keeps(t, net, after) && after.connection == NoConnection
  {
    hide FaultTrace, AfterFault, AfterReply, ServedRight, Overlooked, MadeConnection;
    var h := OldHeader(a.header);
    if Passes(build, h, t.datagram, error) {
      var start := if h.action.Some? then [] else [Accepted];
      var rest := net[|start|..];
      assert net == start + rest;
      NothingMade(start);
      MadeJoins(start, rest);
      PassedKeeps(build, a, h, stamp, t, rest, served, after);
    } else {
      FaultKeeps(build, h, net, t);
    }
  }

  lemma NothingMade(net: seq<NetEvent>)
    requires net == [] || net == [Accepted]
    ensures !MadeConnection(net)
  {
  }

  lemma PassedKeeps(build: Build, a: Arrival, h: Header, stamp: Stamp, t: Transport, net: seq<NetEvent>, served: Served,
                    after: Transport)
    requires PassedStep(build, a, h, stamp, t, net, served, after)
    ensures Keeps(t, net, after) && after.connection == NoConnection
  {
    hide FaultTrace, AfterFault, AfterReply, ServedRight, MadeConnection;
    if !a.present {
      FaultKeeps(build, h, net, t);
    } else if a.handling == Handling(Managed, SOAP_OK) {
      AnswerKeeps(build, h, stamp, a.uuid, a.canCopy, t, net, served);
    } else {
      NothingMade(net);
    }
  }

  lemma RefusesFaultAnswer(build: Build, h: Header, net: seq<NetEvent>, t: Transport, header: Option<Header>)
    requires FaultTrace(build, h, net) && !t.datagram && t.exchanged
    ensures !Sent(AfterFault(build, h, net, t), header).Answered?
  {
    hide FaultSuppressed, NeedsConnection, FaultDestination, TriedInTurn;
    if |net| == 2 { TriesKeep(Closing(t), net[1].tried); }
  }

  lemma RefusesReply(build: Build, h: Header, stamp: Stamp, uuid: string, canCopy: bool, t: Transport,
                     net: seq<NetEvent>, served: Served)
    requires ServedRight(build, h, stamp, uuid, canCopy, t, net, served) && !t.datagram && t.exchanged
    ensures !served.Answered?
  {
    hide FaultTrace, AfterFault, ReplySuppressed, NeedsConnection, ReplyDestination, AnswerHeader, TriedInTurn;
    if net != [] && net[0].Connected? {
      TriesKeep(t.(connection := NoConnection), net[0].tried);
      if !net[0].ok { RefusesFaultAnswer(build, h, net[1..], t, None); }
    }
  }

  /** Over a stream with the callback exchanged, nothing is answered over the Probe's
      connection. */
  lemma RefusesAnswers(build: Build, a: Arrival, stamp: Stamp, t: Transport, error: int, net: seq<NetEvent>,
                       served: Served, after: Transport)
    requires ProbeStep(build, a, stamp, t, error, net, served, after) && !t.datagram && t.exchanged
    ensures !served.Answered?
  {
    hide FaultTrace, ServedRight, AfterReply, AfterFault, Overlooked;
    var h := OldHeader(a.header);
    if ToBeAnswered(build, a, t.datagram, error) {
      var start := if h.action.Some? then [] else [Accepted];
      RefusesReply(build, h, stamp, a.uuid, a.canCopy, t, net[|start|..], served);
    }
  }

  /** After an answer over a new connection the context accepts further Probes if and
      only if that connection is of the kind of its own socket. */
  lemma HeardAfterRelay(build: Build, h: Header, stamp: Stamp, uuid: string, canCopy: bool, t: Transport,
                        net: seq<NetEvent>, served: Served)
    requires ServedRight(build, h, stamp, uuid, canCopy, t, net, served) && t.listening
    requires RepliesElsewhere(build, h, canCopy) && net[0].ok && HasHost(LastTried(net[0].tried))
    ensures CanAccept(Settled(AfterReply(build, h, canCopy, net, t)))
            <==> IsDatagram(LastTried(net[0].tried)) == t.listensOnDatagrams
  {
    hide AnswerHeader, ReplySuppressed, ReplyDestination, FaultTrace, HasHost, IsDatagram, TriedInTurn, Sent,
         AfterTries;
    var aside := t.(connection := NoConnection);
    CallDecides(aside, net[0], ReplyDestination(build, h));
    TriesKeep(aside, net[0].tried);
  }

  /** A fault over a new connection, or the attempt, costs a listener over datagrams its
      own socket, and a stream listener its mode unless the endpoint is for streams. */
  lemma HeardAfterFault(build: Build, h: Header, net: seq<NetEvent>, t: Transport)
    requires FaultTrace(build, h, net) && CanAccept(t) && t.connection == Incoming
    requires |net| == 2 && HasHost(LastTried(net[1].tried))
    ensures CanAccept(Settled(AfterFault(build, h, net, t)))
            <==> !t.listensOnDatagrams && !IsDatagram(LastTried(net[1].tried))
  {
    hide FaultSuppressed, NeedsConnection, FaultDestination, HasHost, IsDatagram, TriedInTurn;
    var tried, closed := net[1].tried, Closing(t);
    TriesKeep(closed, tried);
    if t.listensOnDatagrams { TriesClose(closed, tried); }
    LastDecides(closed, tried);
  }

  lemma LastDecides(t: Transport, tried: seq<Try>)
    requires tried != [] && HasHost(LastTried(tried))
    ensures AfterTries(t, tried).datagram == IsDatagram(LastTried(tried)) && !AfterTries(t, tried).connection.Incoming?
  {
    hide HasHost, IsDatagram;
  }

  // ---------------------------------------------------------------- whole runs

  /** One turn of the listen loop, which accepts a Probe if it can. */
  ghost predicate Turn(build: Build, a: Arrival, t: Transport, net: seq<NetEvent>, served: Served, after: Transport) {
    if CanAccept(t) then
      exists stamp: Stamp :: ProbeStep(build, a, stamp, t.(connection := Incoming), SOAP_OK, net, served, after)
    else
      served == Unheard && net == [] && after == t
  }

  /** `ways` are the transports before, between and after the turns. */
  ghost predicate IsRun(build: Build, arrivals: seq<Arrival>, ways: seq<Transport>, nets: seq<seq<NetEvent>>,
                        out: seq<Served>)
  {
    && |ways| == |arrivals| + 1 && |nets| == |out| == |arrivals|
    && forall i | 0 <= i < |arrivals| :: Turn(build, arrivals[i], ways[i], nets[i], out[i], ways[i + 1])
  }

  lemma TurnKeeps(build: Build, a: Arrival, t: Transport, net: seq<NetEvent>, served: Served, after: Transport)
    requires Turn(build, a, t, net, served, after)
    ensures Keeps(t, net, after)
  {
    hide ProbeStep, MadeConnection;
    if CanAccept(t) {
      var stamp: Stamp :| ProbeStep(build, a, stamp, t.(connection := Incoming), SOAP_OK, net, served, after);
      StepKeeps(build, a, stamp, t.(connection := Incoming), SOAP_OK, net, served, after);
    } else {
      NothingMade(net);
    }
  }

  lemma TurnAt(build: Build, arrivals: seq<Arrival>, ways: seq<Transport>, nets: seq<seq<NetEvent>>, out: seq<Served>,
               i: nat)
    requires IsRun(build, arrivals, ways, nets, out) && i < |arrivals|
    ensures |ways| == |arrivals| + 1 && |nets| == |out| == |arrivals|
    ensures Turn(build, arrivals[i], ways[i], nets[i], out[i], ways[i + 1])
  {
  }

  /** A context that cannot accept does not hear anything any more. */
  lemma {:induction false} DeafForGood(build: Build, arrivals: seq<Arrival>, ways: seq<Transport>,
                                       nets: seq<seq<NetEvent>>, out: seq<Served>, i: nat, j: nat)
    requires IsRun(build, arrivals, ways, nets, out) && i <= j < |arrivals| && !CanAccept(ways[i])
    ensures out[j] == Unheard && ways[j] == ways[i]
    decreases j
  {
    hide IsRun, CanAccept, ProbeStep;
    if i == j {
      TurnAt(build, arrivals, ways, nets, out, j);
    } else {
      DeafForGood(build, arrivals, ways, nets, out, i, j - 1);
      TurnAt(build, arrivals, ways, nets, out, j - 1);
      TurnAt(build, arrivals, ways, nets, out, j);
    }
  }

  /** The callback is exchanged exactly if some earlier turn has made a connection for
      an answer or a fault: nothing sets it back. */
  lemma {:induction false} ExchangedExactly(build: Build, arrivals: seq<Arrival>, ways: seq<Transport>,
                                            nets: seq<seq<NetEvent>>, out: seq<Served>, j: nat)
    requires IsRun(build, arrivals, ways, nets, out) && j <= |arrivals|
    ensures ways[j].listensOnDatagrams == ways[0].listensOnDatagrams
    ensures ways[j].exchanged <==> ways[0].exchanged || exists i | 0 <= i < j :: MadeConnection(nets[i])
  {
    hide IsRun, Turn, MadeConnection;
    if j == 0 {
    } else {
      ExchangedExactly(build, arrivals, ways, nets, out, j - 1);
      TurnAt(build, arrivals, ways, nets, out, j - 1);
      TurnKeeps(build, arrivals[j - 1], ways[j - 1], nets[j - 1], out[j - 1], ways[j]);
    }
  }

  /** The Probe has an action and a body, is handled in managed mode, and wants its
      answer over its own connection. */
  predicate WantsReplyInPlace(build: Build, a: Arrival) {
    && a.header.Some? && a.header.value.action.Some? && a.present && a.handling == Handling(Managed, SOAP_OK)
    && AnsweredInPlace(build, a.header.value, a.canCopy)
  }

  lemma PlainTurn(build: Build, a: Arrival, t: Transport, net: seq<NetEvent>, served: Served, after: Transport)
    requires Turn(build, a, t, net, served, after) && WantsReplyInPlace(build, a)
    ensures !CanAccept(t) ==> served == Unheard
    ensures CanAccept(t) && !t.datagram && t.exchanged ==> served == Failed(SOAP_PLUGIN_ERROR)
    ensures CanAccept(t) && (t.datagram || !t.exchanged) ==>
              served.Answered? && served.header.Some? && served.header.value.relatesTo == a.header.value.messageID
  {
    hide AnsweredInPlace, ReplyDestination, CanAccept, AfterReply;
    if CanAccept(t) {
      var stamp: Stamp :| ProbeStep(build, a, stamp, t.(connection := Incoming), SOAP_OK, net, served, after);
      assert net[0..] == net;
    }
  }

  /** What becomes of the j-th Probe of a run if it wants its answer in place: it is
      answered exactly if it is heard, and the context serves datagrams or no earlier
      Probe has had a connection made for it. */
  lemma AnsweredExactly(build: Build, arrivals: seq<Arrival>, ways: seq<Transport>, nets: seq<seq<NetEvent>>,
                        out: seq<Served>, j: nat)
    requires IsRun(build, arrivals, ways, nets, out) && j < |arrivals| && WantsReplyInPlace(build, arrivals[j])
    requires !ways[0].exchanged
    ensures out[j].Answered? <==>
              CanAccept(ways[j])
              && (ways[0].listensOnDatagrams || forall i | 0 <= i < j :: !MadeConnection(nets[i]))
    ensures CanAccept(ways[j]) && !out[j].Answered? ==> out[j] == Failed(SOAP_PLUGIN_ERROR)
  {
    hide IsRun, Turn, MadeConnection, WantsReplyInPlace;
    TurnAt(build, arrivals, ways, nets, out, j);
    ExchangedExactly(build, arrivals, ways, nets, out, j);
    PlainTurn(build, arrivals[j], ways[j], nets[j], out[j], ways[j + 1]);
  }

  /** Once a stream listener has had a connection made, no later Probe of any kind is
      answered over its own connection. */
  lemma NoAnswerAfterRelay(build: Build, arrivals: seq<Arrival>, ways: seq<Transport>, nets: seq<seq<NetEvent>>,
                           out: seq<Served>, i: nat, j: nat)
    requires IsRun(build, arrivals, ways, nets, out) && i < j < |arrivals|
    requires !ways[0].listensOnDatagrams && MadeConnection(nets[i])
    ensures !out[j].Answered?
  {
    hide IsRun, MadeConnection, ProbeStep;
    TurnAt(build, arrivals, ways, nets, out, j);
    ExchangedExactly(build, arrivals, ways, nets, out, j);
    var t := ways[j];
    if CanAccept(t) {
      var stamp: Stamp :|
        ProbeStep(build, arrivals[j], stamp, t.(connection := Incoming), SOAP_OK, nets[j], out[j], ways[j + 1]);
      RefusesAnswers(build, arrivals[j], stamp, t.(connection := Incoming), SOAP_OK, nets[j], out[j], ways[j + 1]);
    }
  }

  /** The Probe is to be answered over a new connection. */
  predicate WantsReplyElsewhere(build: Build, a: Arrival) {
    && a.header.Some? && a.header.value.action.Some? && a.present && a.handling == Handling(Managed, SOAP_OK)
    && RepliesElsewhere(build, a.header.value, a.canCopy)
  }

  /** A call that has reached an endpoint for streams. */
  predicate ReachedStream(e: NetEvent) {
    e.Connected? && e.ok && e.tried != [] && HasHost(LastTried(e.tried)) && !IsDatagram(LastTried(e.tried))
  }

  lemma WebReplyTurn(build: Build, a: Arrival, t: Transport, net: seq<NetEvent>, served: Served, after: Transport)
    requires Turn(build, a, t, net, served, after) && CanAccept(t) && t.listensOnDatagrams
    requires WantsReplyElsewhere(build, a) && net != [] && ReachedStream(net[0])
    ensures served == Failed(SOAP_PLUGIN_ERROR) && !CanAccept(after)
  {
    hide RepliesElsewhere, ServedRight, HasHost, IsDatagram, AfterReply;
    var accepted := t.(connection := Incoming);
    var stamp: Stamp :| ProbeStep(build, a, stamp, accepted, SOAP_OK, net, served, after);
    assert net[0..] == net;
    assert ServedRight(build, a.header.value, stamp, a.uuid, a.canCopy, accepted, net, served);
    RelayedExactly(build, a.header.value, stamp, a.uuid, a.canCopy, accepted, net, served);
    HeardAfterRelay(build, a.header.value, stamp, a.uuid, a.canCopy, accepted, net, served);
  }

  /** In the shipped configuration, which listens for datagrams, one Probe whose ReplyTo
      can be reached over a stream is not answered, and is the last one that is heard. */
  lemma WebReplyEndsDiscovery(build: Build, arrivals: seq<Arrival>, ways: seq<Transport>, nets: seq<seq<NetEvent>>,
                              out: seq<Served>, i: nat, j: nat)
    requires IsRun(build, arrivals, ways, nets, out) && i < j < |arrivals|
    requires ways[0].listensOnDatagrams && CanAccept(ways[i]) && WantsReplyElsewhere(build, arrivals[i])
    requires nets[i] != [] && ReachedStream(nets[i][0])
    ensures out[i] == Failed(SOAP_PLUGIN_ERROR) && out[j] == Unheard
  {
    hide IsRun, Turn, WantsReplyElsewhere, ReachedStream, CanAccept;
    TurnAt(build, arrivals, ways, nets, out, i);
    ExchangedExactly(build, arrivals, ways, nets, out, i);
    WebReplyTurn(build, arrivals[i], ways[i], nets[i], out[i], ways[i + 1]);
    DeafForGood(build, arrivals, ways, nets, out, i + 1, j);
  }

  /** The listen loop for a run of Probes. The application enters it again in the same
      context when an error has ended it. */
  method ServeRun(soap: Soap, shared: SharedState, arrivals: seq<Arrival>)
    returns (out: seq<Served>, ghost ways: seq<Transport>, ghost nets: seq<seq<NetEvent>>)
    requires shared.Valid() && forall a | a in arrivals :: WellAddressed(a)
    modifies soap, shared
    ensures shared.Valid()
    ensures IsRun(soap.build, arrivals, ways, nets, out) && ways[0] == Settled(old(soap.Way()))
  {
    hide ProbeStep, WellAddressed;
    out, ways, nets := [], [Settled(soap.Way())], [];
    for i := 0 to |arrivals|
      invariant shared.Valid() && |ways| == i + 1 && |nets| == |out| == i
      invariant ways[0] == Settled(old(soap.Way())) && ways[i] == Settled(soap.Way())
      invariant forall k | 0 <= k < i :: Turn(soap.build, arrivals[k], ways[k], nets[k], out[k], ways[k + 1])
    {
      ghost var before := soap.net;
      var accepted := soap.Accept(arrivals[i].header);
      var served := Unheard;
      if accepted {
        ghost var stamp := After(shared.log);
        served := ServeProbe(soap, shared, arrivals[i]);
        assert ProbeStep(soap.build, arrivals[i], stamp, ways[i].(connection := Incoming), SOAP_OK,
                         soap.net[|before|..],
                         served, Settled(soap.Way()));
      }
      ghost var net := soap.net[|before|..];
      assert Turn(soap.build, arrivals[i], ways[i], net, served, Settled(soap.Way()));
      out, ways, nets := out + [served], ways + [Settled(soap.Way())], nets + [net];
    }
  }
}
