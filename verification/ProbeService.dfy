/** `__wsdd__Probe`: what becomes of one Probe that a context has accepted. */
module ProbeService {
  import opened Addressing
  import opened AppSequence
  import opened Connections
  import opened Constants
  import opened Conversation
  import opened Discovery
  import opened Options
  import opened SoapContext

  /** What the application's handler `wsdd_event_Probe` decides: the mode in which
      to answer, and the error it leaves. It does not touch the header. */
  datatype Handling = Handling(mode: Mode, error: int)

  /** A Probe as it arrives: its header, whether it has a body, how the application
      handles it, the message id drawn for the answer, whether it came over HTTP, and
      whether there is memory for a copy of the context. */
  datatype Arrival = Arrival(header: Option<Header>, present: bool, handling: Handling, uuid: string, overHttp: bool,
                             canCopy: bool)

  /** What becomes of a Probe. */
  datatype Served =
    | Unheard                                              // the context does not accept it
    | Failed(code: int)                                    // an error or a fault instead of an answer
    | Deferred                                             // the application answers by itself
    | Answered(header: Option<Header>)                     // over the connection of the Probe
    | Relayed(endpoint: string, header: Option<Header>)    // over a connection to the endpoint
    | Lost                                                 // written where there is no connection

  /** The header of the answer to a Probe with header `h`. */
  function AnswerHeader(build: Build, h: Header, stamp: Stamp, uuid: string): Header {
    ReplyHeader(build, h.(appSequence := Some(stamp)), Some(uuid), Some(NAMESPACE + "/ProbeMatches"))
  }

  /** An answer over the Probe's own connection, unless ReplyTo asks for none or
      names another place that needs a connection of its own. */
  predicate AnsweredInPlace(build: Build, h: Header, canCopy: bool) {
    !ReplySuppressed(build, h) && !(NeedsConnection(h, h.replyTo) && canCopy)
  }

  /** Where a message with the header ends up if it is sent now: over a stream the
      response callback is asked first, and the one that has replaced it refuses. */
  function Sent(t: Transport, header: Option<Header>): Served {
    if !t.datagram && t.exchanged then Failed(SOAP_PLUGIN_ERROR)
    else match t.connection
      case NoConnection => Lost
      case Incoming => Answered(header)
      case Outgoing(e) => Relayed(e, header)
  }

  /** How a Probe is answered, by what happens on the network meanwhile. Without a reply
      to send, the answer is sent all the same, but has no header. */
  predicate ServedRight(build: Build, h: Header, stamp: Stamp, uuid: string, canCopy: bool, t: Transport,
                        net: seq<NetEvent>, served: Served)
  {
    var answer := Some(AnswerHeader(build, h, stamp, uuid));
    var after := AfterReply(build, h, canCopy, net, t);
    if AnsweredInPlace(build, h, canCopy) then
      net == [] && served == Sent(t, answer)
    else if ReplySuppressed(build, h) then
      net == [Accepted] && served == Sent(after, None)
    else
      && net != [] && IsCall(net[0], ReplyDestination(build, h))
      && if net[0].ok then
           net[1..] == (if t.connection != NoConnection then [Accepted] else []) && served == Sent(after, answer)
         else
           FaultTrace(build, h, net[1..]) && served == Sent(after, None)
  }

  /** The Probe gets past the check of its header. */
  predicate Passes(build: Build, h: Header, datagram: bool, error: int) {
    h.action.Some? || Overlooked(build, h, datagram, error)
  }

  /** A fault may have to be issued for the Probe. */
  predicate MayFault(h: Header, a: Arrival) {
    || h.action.None? || !a.present
    || (a.handling == Handling(Managed, SOAP_OK) && NeedsConnection(h, h.replyTo) && a.canCopy)
  }

  predicate WellAddressed(a: Arrival) {
    a.header.Some? && MayFault(a.header.value, a) ==> FaultAddressed(a.header.value)
  }

  /** The Probe is to be answered right away. */
  predicate ToBeAnswered(build: Build, a: Arrival, datagram: bool, error: int) {
    a.present && Passes(build, OldHeader(a.header), datagram, error) && a.handling == Handling(Managed, SOAP_OK)
  }

  /** What is left of a context's transport once its connection is given up. */
  function Settled(t: Transport): Transport { t.(connection := NoConnection) }

  /** What a Probe with header `h` does that is past the check: to the network, to the
      transport, and as an answer. */
  predicate PassedStep(build: Build, a: Arrival, h: Header, stamp: Stamp, t: Transport, net: seq<NetEvent>,
                       served: Served, after: Transport)
  {
    if !a.present then
      FaultTrace(build, h, net) && served.Failed? && after == Settled(AfterFault(build, h, net, t))
    else if a.handling == Handling(Managed, SOAP_OK) then
      && ServedRight(build, h, stamp, a.uuid, a.canCopy, t, net, served)
      && after == Settled(AfterReply(build, h, a.canCopy, net, t))
    else
      && net == (if a.handling.error == SOAP_OK && a.overHttp then [Accepted] else [])
      && served == (if a.handling.error == SOAP_OK then Deferred else Failed(a.handling.error))
      && after == Settled(t)
  }

  /** The same for any Probe, in a context with the given error. A fault that has been
      overlooked comes first. */
  predicate ProbeStep(build: Build, a: Arrival, stamp: Stamp, t: Transport, error: int, net: seq<NetEvent>,
                      served: Served, after: Transport)
  {
    var h := OldHeader(a.header);
    var start := if h.action.Some? then [] else [Accepted];
    if Passes(build, h, t.datagram, error) then
      start <= net && PassedStep(build, a, h, stamp, t, net[|start|..], served, after)
    else
      FaultTrace(build, h, net) && served.Failed? && after == Settled(AfterFault(build, h, net, t))
  }

  /** The stand-in for FaultTo changes neither where faults go nor where replies do. */
  lemma StandingIsStable(build: Build, h: Header)
    requires FaultAddressed(h)
    ensures FaultAddressed(Standing(h)) && FaultTarget(Standing(h)) == FaultTarget(h)
    ensures FaultDestination(build, Standing(h)) == FaultDestination(build, h)
    ensures ReplyDestination(build, Standing(h)) == ReplyDestination(build, h)
  {
    hide NoneUri, AnonymousUri, IsAnonymous;
    FaultTargetIsFirstElsewhere(build, h);
    FaultTargetIsFirstElsewhere(build, Standing(h));
  }

  lemma StandingRoutes(build: Build, h: Header, stamp: Stamp, canCopy: bool, net: seq<NetEvent>, t: Transport)
    requires FaultAddressed(h)
    ensures var sent := Standing(h).(appSequence := Some(stamp));
            && AfterFault(build, sent, net, t) == AfterFault(build, h, net, t)
            && AfterReply(build, sent, canCopy, net, t) == AfterReply(build, h, canCopy, net, t)
  {
    hide NoneUri, AnonymousUri, IsAnonymous, AfterCall, Closing;
    StandingIsStable(build, h);
    var sent := Standing(h).(appSequence := Some(stamp));
    assert FaultTarget(sent) == FaultTarget(Standing(h));
  }

  lemma StampRoutes(build: Build, h: Header, stamp: Stamp, canCopy: bool, net: seq<NetEvent>, t: Transport)
    ensures var sent := h.(appSequence := Some(stamp));
            && AfterFault(build, sent, net, t) == AfterFault(build, h, net, t)
            && AfterReply(build, sent, canCopy, net, t) == AfterReply(build, h, canCopy, net, t)
  {
    hide NoneUri, AnonymousUri, IsAnonymous, AfterCall, Closing;
    var sent := h.(appSequence := Some(stamp));
    assert FaultTarget(sent) == FaultTarget(h);
  }

  /** `h` itself, or with ReplyTo standing in for FaultTo. */
  predicate SameRoutes(h: Header, passed: Header) { passed == h || (FaultAddressed(h) && passed == Standing(h)) }

  lemma RoutesPassOn(build: Build, h: Header, passed: Header, stamp: Stamp, canCopy: bool, net: seq<NetEvent>,
                     t: Transport)
    requires SameRoutes(h, passed)
    ensures AfterReply(build, passed.(appSequence := Some(stamp)), canCopy, net, t)
            == AfterReply(build, h, canCopy, net, t)
  {
    hide AfterReply, AfterFault, Standing;
    if passed == h {
      StampRoutes(build, h, stamp, canCopy, net, t);
    } else {
      StandingRoutes(build, h, stamp, canCopy, net, t);
    }
  }

  /** What the preparation of the reply leaves decides how the Probe is answered. */
  lemma ReplyServes(build: Build, h: Header, passed: Header, stamp: Stamp, uuid: string, canCopy: bool, t: Transport,
                    net: seq<NetEvent>, result: Option<Header>, served: Served)
    requires SameRoutes(h, passed)
    requires ReplyOutcome(build, passed.(appSequence := Some(stamp)), Some(uuid), Some(NAMESPACE + "/ProbeMatches"),
                          canCopy,
                          t.connection != NoConnection, net, result)
    requires served == Sent(AfterReply(build, h, canCopy, net, t), result)
    ensures ServedRight(build, h, stamp, uuid, canCopy, t, net, served)
  {
    hide NoneUri, AnonymousUri, IsAnonymous, FaultAction, Sent, AfterCall, TriedInTurn;
    if passed != h { StandingIsStable(build, h); }
    var sent := passed.(appSequence := Some(stamp));
    assert FaultTarget(sent) == FaultTarget(h) && FaultDestination(build, sent) == FaultDestination(build, h);
    assert ReplyHeader(build, sent, Some(uuid), Some(NAMESPACE + "/ProbeMatches"))
           == AnswerHeader(build, h, stamp, uuid);
  }

  /** `soap_send___wsdd__ProbeMatches` to "http://", which names no host, with
      `soap_wsdd_http` in place of the callback for posting. */
  method SendAnswer(soap: Soap) returns (served: Served)
    modifies soap`error, soap`endpoint, soap`action, soap`connection
    ensures served == Sent(old(soap.Way()), soap.header)
    ensures Settled(soap.Way()) == Settled(old(soap.Way()))
    ensures soap.endpoint == "http://" && soap.action == Some(NAMESPACE + "/ProbeMatches")
    ensures served.Failed? ==> served.code == soap.error
  {
    soap.endpoint, soap.action, soap.error := "http://", Some(NAMESPACE + "/ProbeMatches"), SOAP_OK;
    if !soap.datagram {
      soap.error := soap.Response(true);
      if soap.error != SOAP_OK {
        soap.connection := NoConnection;
        return Failed(soap.error);
      }
    }
    match soap.connection {
      case NoConnection => return Lost;
      case Incoming => return Answered(soap.header);
      case Outgoing(e) => return Relayed(e, soap.header);
    }
  }

  /** The managed answer: stamp, reply, and message. `h` is the header as received. */
  method AnswerNow(soap: Soap, shared: SharedState, ghost h: Header, uuid: string, canCopy: bool)
    returns (served: Served)
    requires shared.Valid() && soap.header.Some? && SameRoutes(h, soap.header.value) && !soap.keepAlive
    requires NeedsConnection(h, h.replyTo) && canCopy ==> FaultAddressed(h)
    modifies soap, shared
    ensures shared.Valid() && shared.log == old(shared.log) + [Stamped(After(old(shared.log)))]
    ensures old(soap.net) <= soap.net
    ensures ServedRight(soap.build, h, After(old(shared.log)), uuid, canCopy, old(soap.Way()),
                        soap.net[|old(soap.net)|..],
                        served)
    ensures Settled(soap.Way())
            == Settled(AfterReply(soap.build, h, canCopy, soap.net[|old(soap.net)|..], old(soap.Way())))
    ensures served.Failed? ==> served.code == soap.error
  {
    hide NoneUri, AnonymousUri, IsAnonymous, FaultAction, ReplyOutcome, ServedRight, UnreachableFault, AfterReply,
         AfterFault, FaultTrace, FaultRecorded, Sent, FaultTarget;
    ghost var passed, way, net, stamp := soap.header.value, soap.Way(), soap.net, After(shared.log);
    if passed != h { StandingIsStable(soap.build, h); }
    SetAppSequence(soap, shared);
    StampedIsAddressed(passed, stamp);
    var code := soap.Reply(Some(uuid), Some(NAMESPACE + "/ProbeMatches"), canCopy);
    // whatever the preparation of the reply has returned
    RoutesPassOn(soap.build, h, passed, stamp, canCopy, soap.net[|net|..], way);
    ghost var result := soap.header;
    served := SendAnswer(soap);
    ReplyServes(soap.build, h, passed, stamp, uuid, canCopy, way, soap.net[|net|..], result, served);
  }

  lemma StampedIsAddressed(h: Header, stamp: Stamp)
    ensures FaultAddressed(h.(appSequence := Some(stamp))) == FaultAddressed(h)
  {
  }

  predicate HasAnswer(served: Served) { (served.Answered? || served.Relayed?) && served.header.Some? }

  /** The header of every answer names the Probe it is for, carries the stamp, and is for
      where the Probe wants its reply, and has nothing else of the Probe's addresses. */
  lemma AnswerSays(build: Build, a: Arrival, h: Header, stamp: Stamp, t: Transport, net: seq<NetEvent>,
                   served: Served, after: Transport)
    requires PassedStep(build, a, h, stamp, t, net, served, after) && HasAnswer(served)
    ensures var m := served.header.value;
            && m.messageID == Some(a.uuid) && m.relatesTo == h.messageID
            && m.action == Some(NAMESPACE + "/ProbeMatches")
            && m.to == ReplyDestination(build, h) && m.appSequence == Some(stamp)
            && m.from == None && m.replyTo == None && m.faultTo == None
  {
    hide ReplySuppressed, NeedsConnection, FaultTrace, AfterReply, AfterFault, IsCall, IsAnonymous, AnonymousUri;
  }

  /** The fault for a Probe without a body. */
  method RefuseIncomplete(soap: Soap, ghost h: Header) returns (served: Served)
    requires soap.header.Some? && SameRoutes(h, soap.header.value) && !soap.keepAlive && FaultAddressed(h)
    modifies soap
    ensures old(soap.net) <= soap.net && served == Failed(soap.error)
    ensures FaultTrace(soap.build, h, soap.net[|old(soap.net)|..])
    ensures Settled(soap.Way())
            == Settled(AfterFault(soap.build, h, soap.net[|old(soap.net)|..], old(soap.Way())))
    ensures !FaultSuppressed(soap.build, h) && soap.error == SOAP_FAULT ==> soap.fault == Some(Fault(true, None))
  {
    hide NoneUri, AnonymousUri, IsAnonymous, FaultAction, AfterFault, FaultTrace, FaultRecorded, FaultTarget,
         SaysOnlyFault, FaultResult;
    ghost var way, passed := soap.Way(), soap.header.value;
    if passed != h { StandingIsStable(soap.build, h); }
    var code := soap.FaultSubcodeAction(Fault(true, None), None);
    FaultPassesOn(soap.build, h, passed, soap.net[|old(soap.net)|..], way);
    return Failed(soap.error);
  }

  /** What follows the check. */
  method ServePassed(soap: Soap, shared: SharedState, a: Arrival, ghost h: Header) returns (served: Served)
    requires shared.Valid() && soap.header.Some? && SameRoutes(h, soap.header.value) && !soap.keepAlive
    requires MayFault(h, a) ==> FaultAddressed(h)
    modifies soap, shared
    ensures shared.Valid() && old(soap.net) <= soap.net
    ensures shared.log == if a.present && a.handling == Handling(Managed, SOAP_OK)
                          then old(shared.log) + [Stamped(After(old(shared.log)))] else old(shared.log)
    ensures PassedStep(soap.build, a, h, After(old(shared.log)), old(soap.Way()), soap.net[|old(soap.net)|..], served,
                       Settled(soap.Way()))
    ensures served.Failed? ==> served.code == soap.error
    ensures !a.present && !FaultSuppressed(soap.build, h) && soap.error == SOAP_FAULT ==>
              soap.fault == Some(Fault(true, None))
  {
    hide NoneUri, AnonymousUri, IsAnonymous, FaultAction, ServedRight, AfterReply, AfterFault, FaultTrace,
         FaultSuppressed, NeedsConnection, FaultTarget;
    if !a.present {
      served := RefuseIncomplete(soap, h);
      return;
    }
    soap.error := a.handling.error;
    if soap.error != SOAP_OK {
      return Failed(soap.error);
    }
    if a.handling.mode == AdHoc {
      if a.overHttp {
        var code := soap.SendEmptyResponse();
      }
      return Deferred;
    }
    served := AnswerNow(soap, shared, h, a.uuid, a.canCopy);
  }

  /** `__wsdd__Probe` for a Probe that has just been accepted. */
  method ServeProbe(soap: Soap, shared: SharedState, a: Arrival) returns (served: Served)
    requires shared.Valid() && WellAddressed(a)
    requires soap.header == a.header && soap.connection == Incoming && !soap.keepAlive
    modifies soap, shared
    ensures shared.Valid() && old(soap.net) <= soap.net
    ensures shared.log == if ToBeAnswered(soap.build, a, old(soap.datagram), old(soap.error))
                          then old(shared.log) + [Stamped(After(old(shared.log)))] else old(shared.log)
    ensures ProbeStep(soap.build, a, After(old(shared.log)), old(soap.Way()), old(soap.error),
                      soap.net[|old(soap.net)|..],
                      served, Settled(soap.Way()))
    ensures served.Failed? ==> served.code == soap.error
    ensures HasAnswer(served) ==>
              var h, m := OldHeader(a.header), served.header.value;
              && m.messageID == Some(a.uuid) && m.relatesTo == h.messageID
              && m.action == Some(NAMESPACE + "/ProbeMatches")
              && m.to == ReplyDestination(soap.build, h) && m.appSequence == Some(After(old(shared.log)))
              && m.from == None && m.replyTo == None && m.faultTo == None
    ensures var h := OldHeader(a.header);
            !FaultSuppressed(soap.build, h) && soap.error == SOAP_FAULT && (h.action.None? || !a.present) ==>
              soap.fault == Some(Fault(true, if h.action.None? then Some(HeaderRequired) else None))
  {
    hide NoneUri, AnonymousUri, IsAnonymous, FaultAction, AfterFault, FaultTrace, FaultRecorded, PassedStep,
         FaultSuppressed, FaultAddressed, NeedsConnection, FaultTarget;
    ghost var h, way, net := OldHeader(soap.header), soap.Way(), soap.net;
    NoHeaderIsNoOversight(soap.build);
    var code := soap.Check();
    if code != SOAP_OK {
      return Failed(soap.error);
    }
    ghost var start := if h.action.Some? then [] else [Accepted];
    if h.action.None? { OverlookedKeeps(soap.build, h, soap.net[|net|..], way); }
    assert soap.net == net + start && soap.Way() == way;
    served := ServePassed(soap, shared, a, h);
    NetSplits(net, start, soap.net);
    if HasAnswer(served) {
      AnswerSays(soap.build, a, h, After(old(shared.log)), way, soap.net[|net + start|..], served,
                 Settled(soap.Way()));
    }
  }

  lemma NoHeaderIsNoOversight(build: Build)
    ensures FaultAddressed(DEFAULT_HEADER) && !FaultSuppressed(build, DEFAULT_HEADER)
  {
  }

  lemma NetSplits(net: seq<NetEvent>, start: seq<NetEvent>, all: seq<NetEvent>)
    requires net + start <= all
    ensures net <= all && start <= all[|net|..] && all[|net|..][|start|..] == all[|net + start|..]
  {
  }

  lemma OverlookedKeeps(build: Build, h: Header, net: seq<NetEvent>, t: Transport)
    requires FaultSuppressed(build, h) && FaultTrace(build, h, net) && t.datagram
    ensures net == [Accepted] && AfterFault(build, h, net, t) == t
  {
  }

  lemma FaultPassesOn(build: Build, h: Header, passed: Header, net: seq<NetEvent>, t: Transport)
    requires SameRoutes(h, passed)
    requires FaultTrace(build, passed, net)
    ensures FaultTrace(build, h, net) && AfterFault(build, passed, net, t) == AfterFault(build, h, net, t)
  {
    hide NoneUri, AnonymousUri, IsAnonymous, AfterCall, Closing, TriedInTurn;
    if passed != h { StandingIsStable(build, h); }
  }
}
