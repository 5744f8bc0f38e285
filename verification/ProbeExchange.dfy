/** A Probe sent in managed mode, its handling at the other end, and the answer. */
module ProbeExchange {
  import opened Addressing
  import opened AppSequence
  import opened Connections
  import opened Constants
  import opened Conversation
  import opened Discovery
  import opened Options
  import opened ProbeService
  import opened SoapContext

  /** What the client's handler `wsdd_event_ProbeMatches` is called with. */
  datatype MatchEvent = MatchEvent(stamp: Stamp, messageID: Option<string>, relatesTo: Option<string>)

  /** Without an application sequence the handler gets zeros and no sequence id. */
  function EventOf(h: Header): MatchEvent {
    MatchEvent(if h.appSequence.Some? then h.appSequence.value else Stamp(0, None, 0), h.messageID, h.relatesTo)
  }

  /** The context answers over the Probe's connection, as it should: it accepts the
      Probe, and its response callback is asked for nothing or is still its own. */
  predicate Answers(t: Transport) { CanAccept(t) && (t.datagram || !t.exchanged) }

  /** What comes back over the Probe's connection is the answer exactly if it is to be
      given in place and can be sent. */
  lemma AnswerComesBack(build: Build, h: Header, stamp: Stamp, uuid: string, canCopy: bool, t: Transport,
                        net: seq<NetEvent>, served: Served)
    requires ServedRight(build, h, stamp, uuid, canCopy, t, net, served) && t.connection == Incoming
    ensures served.Answered? && served.header.Some?
            <==> AnsweredInPlace(build, h, canCopy) && (t.datagram || !t.exchanged)
    ensures served.Answered? && served.header.Some? ==> served.header == Some(AnswerHeader(build, h, stamp, uuid))
  {
    hide ReplySuppressed, NeedsConnection, ReplyDestination, FaultTrace, AnswerHeader, TriedInTurn, AfterFault;
    if net != [] && net[0].Connected? { TriesKeep(t.(connection := NoConnection), net[0].tried); }
  }

  /** The client's side of the answer: a message without a header is a fault. */
  method Receive(client: Soap, served: Served) returns (event: Option<MatchEvent>)
    modifies client
    ensures event == if served.Answered? && served.header.Some? then Some(EventOf(served.header.value)) else None
  {
    hide EventOf, FaultTrace, FaultResult, FaultSuppressed;
    event := None;
    if served.Answered? {
      client.header := served.header;
      if client.header.None? {
        var code := client.FaultSubcodeAction(Fault(true, None), None);
      } else {
        event := Some(EventOf(client.header.value));
      }
    }
  }

  /** A Probe with header `sent` reaches the server, which accepts it or does not. */
  method Deliver(server: Soap, shared: SharedState, sent: Header, handling: Handling, uuid: string, overHttp: bool,
                 canCopy: bool) returns (served: Served)
    requires shared.Valid() && sent.action.Some? && FaultAddressed(sent)
    modifies server, shared
    ensures served.Answered? && served.header.Some? <==>
              && Answers(old(server.Way())) && handling == Handling(Managed, SOAP_OK)
              && AnsweredInPlace(server.build, sent, canCopy)
    ensures served.Answered? && served.header.Some? ==>
              served.header.value == AnswerHeader(server.build, sent, After(old(shared.log)), uuid)
  {
    hide AnsweredInPlace, AnswerHeader, ServedRight, AfterReply, AfterFault, FaultTrace, FaultAddressed,
         FaultSuppressed, ReplyDestination, Overlooked, MayFault, HasAnswer, IsAnonymous;
    ghost var stamp, before := After(shared.log), server.net;
    served := Unheard;
    var accepted := server.Accept(Some(sent));
    if accepted {
      ghost var way := server.Way();
      served := ServeProbe(server, shared, Arrival(Some(sent), true, handling, uuid, overHttp, canCopy));
      if handling == Handling(Managed, SOAP_OK) {
        assert server.net[|before|..][0..] == server.net[|before|..];
        AnswerComesBack(server.build, sent, stamp, uuid, canCopy, way, server.net[|before|..], served);
      }
    }
  }

  /** `soap_wsdd_Probe` in managed mode against `ServeProbe`, over a channel that
      delivers what is sent on the client's connection. */
  method ManagedProbe(client: Soap, server: Soap, shared: SharedState, receiver: Receiver, endpoint: Option<string>,
                      id: string, replyTo: Option<string>, handling: Handling, uuid: string,
                      overHttp: bool, canCopy: bool)
    returns (event: Option<MatchEvent>)
    requires shared.Valid() && client != server && client.build == server.build
    modifies client, server, shared
    ensures event.Some? ==> event.value == MatchEvent(After(old(shared.log)), Some(uuid), Some(id))
    ensures event.Some? <==>
              && Answers(old(server.Way())) && handling == Handling(Managed, SOAP_OK)
              && AnsweredInPlace(client.build, ProbeHeader(client.build, receiver, endpoint, id, replyTo), canCopy)
    ensures Answers(old(server.Way())) && handling == Handling(Managed, SOAP_OK)
            && (replyTo.None? || IsAnonymous(replyTo)) ==>
              event.Some?
  {
    hide NoneUri, AnonymousUri, IsAnonymous, OutHeader, FaultAddressed, AnsweredInPlace, ProbeHeader, AnswerHeader,
         Relevant, EventOf, IsFor;
    ProbeAction(client.build, receiver, endpoint, id, replyTo);
    SendRequest(client, receiver, endpoint, Some(id), replyTo, NAMESPACE + "/Probe");
    ghost var stamp := After(shared.log);
    ProbeArrives(client.build, receiver, endpoint, id, replyTo, client.header.value, canCopy, stamp, uuid);
    if replyTo.None? || IsAnonymous(replyTo) {
      AnonymousNeedsNoConnection(client.build, receiver, endpoint, id, replyTo, canCopy);
    }
    var served := Deliver(server, shared, client.header.value, handling, uuid, overHttp, canCopy);
    event := Receive(client, served);
  }

  lemma ProbeAction(build: Build, receiver: Receiver, endpoint: Option<string>, id: string, replyTo: Option<string>)
    ensures ProbeHeader(build, receiver, endpoint, id, replyTo)
            == OutHeader(build, Probe(receiver, endpoint, Some(id), replyTo),
                         Initial()).(action := Some(NAMESPACE + "/Probe"))
  {
    hide AnonymousUri, TargetServices;
  }

  /** What the serving side needs to know of a Probe's header, and what its answer
      carries. */
  lemma ProbeArrives(build: Build, receiver: Receiver, endpoint: Option<string>, id: string, replyTo: Option<string>,
                     sent: Header, canCopy: bool, stamp: Stamp, uuid: string)
    requires Relevant(sent) == ProbeHeader(build, receiver, endpoint, id, replyTo)
    ensures sent.action.Some? && FaultAddressed(sent)
    ensures AnsweredInPlace(build, sent, canCopy)
            <==> AnsweredInPlace(build, ProbeHeader(build, receiver, endpoint, id, replyTo), canCopy)
    ensures EventOf(AnswerHeader(build, sent, stamp, uuid)) == MatchEvent(stamp, Some(uuid), Some(id))
  {
    hide NoneUri, AnonymousUri, IsAnonymous, TargetServices;
  }

  function ProbeHeader(build: Build, receiver: Receiver, endpoint: Option<string>, id: string,
                       replyTo: Option<string>): Header {
    OutHeader(build, Probe(receiver, endpoint, Some(id), replyTo), Initial())
  }

  lemma AnonymousNeedsNoConnection(build: Build, receiver: Receiver, endpoint: Option<string>, id: string,
                                   replyTo: Option<string>, canCopy: bool)
    requires replyTo.None? || IsAnonymous(replyTo)
    ensures AnsweredInPlace(build, ProbeHeader(build, receiver, endpoint, id, replyTo), canCopy)
  {
    NoneIsNotAnonymous(build);
    AnonymousIsAnonymous(build);
  }
}
