/** A request and its answer: where the addresses that a client puts into its
    header make the server send the reply, and the fault if that fails. */
module Conversation {
  import opened Addressing
  import opened Connections
  import opened Constants
  import opened Options
  import opened SoapContext

  /** Where an answer goes: it is suppressed, it takes the connection of the
      request, or it takes a new connection. */
  datatype Route = Nowhere | SameConnection | NewConnection(to: string)

  /** The route to an address, seen from the client's own address. */
  function RouteTo(build: Build, from: Option<string>, address: Option<string>): Route {
    if address == Some(NoneUri(build)) then Nowhere
    else if address.None? || IsAnonymous(address) || address == from then SameConnection
    else NewConnection(address.value)
  }

  /** Faults take the route to FaultTo unless that is missing or anonymous, and
      otherwise the route of replies. */
  function FaultRoute(build: Build, from: Option<string>, replyTo: Option<string>, faultTo: Option<string>): Route {
    RouteTo(build, from, if faultTo.Some? && !IsAnonymous(faultTo) then faultTo else replyTo)
  }

  lemma ReplyRouteAgrees(build: Build, h: Header)
    ensures var route := RouteTo(build, Address(h.from), Address(h.replyTo));
            && (route == Nowhere <==> ReplySuppressed(build, h))
            && (route.NewConnection? <==> !ReplySuppressed(build, h) && NeedsConnection(h, h.replyTo))
            && (route.NewConnection? ==> ReplyDestination(build, h) == Some(route.to))
  {
    hide NoneUri, AnonymousUri, IsAnonymous;
  }

  /** The fault's own target, and what the two lookups of the address come to. */
  lemma TargetAddress(build: Build, h: Header)
    requires FaultAddressed(h)
    ensures var faultTo := Address(h.faultTo);
            var chosen := if faultTo.Some? && !IsAnonymous(faultTo) then faultTo else Address(h.replyTo);
            chosen == Address(FaultTarget(h)) || (chosen.None? && IsAnonymous(Address(FaultTarget(h))))
  {
    hide NoneUri, AnonymousUri, IsAnonymous;
  }

  lemma FaultRouteAgrees(build: Build, h: Header)
    requires FaultAddressed(h)
    ensures var route := FaultRoute(build, Address(h.from), Address(h.replyTo), Address(h.faultTo));
            && (route == Nowhere <==> FaultSuppressed(build, h))
            && (route.NewConnection? <==> !FaultSuppressed(build, h) && NeedsConnection(h, FaultTarget(h)))
            && (route.NewConnection? ==> FaultDestination(build, h) == Some(route.to))
  {
    hide NoneUri, AnonymousUri, IsAnonymous, FaultTarget;
    NoneIsNotAnonymous(build);
    TargetAddress(build, h);
    FaultTargetIsFirstElsewhere(build, h);
  }

  /** The routes, read off the addresses, are what the code's tests on the header
      come to: for replies, and for faults after ReplyTo has stood in for FaultTo. */
  lemma RoutesAgree(build: Build, h: Header)
    ensures var route := RouteTo(build, Address(h.from), Address(h.replyTo));
            && (route == Nowhere <==> ReplySuppressed(build, h))
            && (route.NewConnection? <==> !ReplySuppressed(build, h) && NeedsConnection(h, h.replyTo))
            && (route.NewConnection? ==> ReplyDestination(build, h) == Some(route.to))
    ensures FaultAddressed(h) ==>
            var route := FaultRoute(build, Address(h.from), Address(h.replyTo), Address(h.faultTo));
            && (route == Nowhere <==> FaultSuppressed(build, h))
            && (route.NewConnection? <==> !FaultSuppressed(build, h) && NeedsConnection(h, FaultTarget(h)))
            && (route.NewConnection? ==> FaultDestination(build, h) == Some(route.to))
  {
    hide NoneUri, AnonymousUri, IsAnonymous, RouteTo, FaultRoute, FaultTarget;
    ReplyRouteAgrees(build, h);
    if FaultAddressed(h) { FaultRouteAgrees(build, h); }
  }

  /** What a client asks for with its ReplyTo: no reply, or one to an address. */
  datatype Wish = NoReply | ReplyAt(replyTo: Option<string>)

  function WishedAddress(build: Build, wish: Wish): Option<string> {
    match wish
    case NoReply => Some(NoneUri(build))
    case ReplyAt(replyTo) => replyTo
  }

  /** The request: every address is the client's choice. */
  method Ask(client: Soap, id: Option<string>, to: Option<string>, action: string, from: Option<string>, wish: Wish,
             faultTo: Option<string>)
    modifies client
    ensures client.header.Some? && client.net == old(client.net)
    ensures var h := client.header.value;
            && h.messageID == id && Address(h.from) == from && Address(h.faultTo) == faultTo && FaultAddressed(h)
            && Sender(client.build, h) == (if from.Some? then from else Some(AnonymousUri(client.build)))
            && RouteTo(client.build, from, Address(h.replyTo))
               == RouteTo(client.build, from, WishedAddress(client.build, wish))
            && FaultRoute(client.build, from, Address(h.replyTo), faultTo)
               == FaultRoute(client.build, from, WishedAddress(client.build, wish), faultTo)
  {
    hide NoneUri, IsAnonymous;
    AnonymousIsAnonymous(client.build);
    NoneIsNotAnonymous(client.build);
    var code := client.Request(id, to, action);
    if from.Some? {
      code := client.AddFrom(from);
    }
    match wish {
      case NoReply => code := client.AddNoReply();
      case ReplyAt(replyTo) => code := client.AddReplyTo(replyTo);
    }
    code := client.AddFaultTo(faultTo);
  }

  /** The reply is prepared: its header relates to the request, and nothing of the
      request's own addresses is left in it. Whether it is sent is up to the response
      callback. */
  predicate Ready(h: Option<Header>, id: Option<string>, replyId: Option<string>, replyAction: Option<string>,
                  to: Option<string>)
  {
    && h.Some? && h.value.relatesTo == id && h.value.messageID == replyId && h.value.action == replyAction
    && h.value.to == to && h.value.from == None && h.value.replyTo == None && h.value.faultTo == None
  }

  /** What the server prepares for a reply by the given route, and for a fault by the
      other one if it cannot get there. `sender` is the client's own address. */
  predicate Prepared(route: Route, faultRoute: Route, id: Option<string>, replyId: Option<string>,
                     replyAction: Option<string>, sender: Option<string>, canCopy: bool, live: bool, net: seq<NetEvent>,
                     before: AnswerState, after: AnswerState)
  {
    match route
    case Nowhere =>
      net == [Accepted] && after.header == None && SameFault(before, after)
    case SameConnection =>
      net == [] && Ready(after.header, id, replyId, replyAction, sender) && SameFault(before, after)
    case NewConnection(to) =>
      if !canCopy then
        net == [] && Ready(after.header, id, replyId, replyAction, Some(to)) && SameFault(before, after)
      else
        && net != [] && IsCall(net[0], Some(to))
        && if net[0].ok then
             && net[1..] == (if live then [Accepted] else [])
             && Ready(after.header, id, replyId, replyAction, Some(to))
             && after.relayed && after.endpoint == LastTried(net[0].tried) && after.fault == before.fault
           else
             after.header == None && Refused(faultRoute, net[1..], before, after)
  }

  /** What the server does for the fault that replaces an undeliverable reply. */
  predicate Refused(route: Route, net: seq<NetEvent>, before: AnswerState, after: AnswerState) {
    match route
    case Nowhere =>
      net == [Accepted] && SameFault(before, after)
    case SameConnection =>
      && net == [] && after.fault == Some(FaultOf(DestinationUnreachable))
      && after.relayed == before.relayed && after.endpoint == before.endpoint
    case NewConnection(to) =>
      && |net| == 2 && net[0] == Accepted && IsCall(net[1], Some(to))
      && if net[1].ok then
           after.fault == Some(FaultOf(DestinationUnreachable)) && after.relayed && after.endpoint == to
         else
           SameFault(before, after) && after.error == SOAP_STOP
  }

  /** What preparing a reply leaves in the context of a request with header `h`. */
  predicate ReplyLeaves(build: Build, h: Header, replyAction: Option<string>, net: seq<NetEvent>, before: AnswerState,
                        after: AnswerState)
  {
    match after.header
    case Some(_) =>
      && after.fault == before.fault
      && if net == [] then after.relayed == before.relayed
         else after.relayed && net[0].Connected? && net[0].tried != [] && after.endpoint == LastTried(net[0].tried)
    case None =>
      if ReplySuppressed(build, h) then SameFault(before, after)
      else UnreachableFault(build, h, replyAction, net, before, after)
  }

  lemma FaultIsRouted(build: Build, h: Header, f: Fault, net: seq<NetEvent>, before: AnswerState, after: AnswerState)
    requires f == FaultOf(DestinationUnreachable) && FaultAddressed(h) && FaultTrace(build, h, net)
    requires FaultRecorded(build, h, f, None, net, before, after)
    ensures Refused(FaultRoute(build, Address(h.from), Address(h.replyTo), Address(h.faultTo)), net, before, after)
  {
    hide IsAnonymous, NoneUri, AnonymousUri, FaultAction, FaultRoute, FaultSuppressed, NeedsConnection,
         FaultDestination, TriedInTurn;
    RoutesAgree(build, h);
  }

  lemma ReplyIsRouted(build: Build, h: Header, replyId: Option<string>, replyAction: Option<string>, canCopy: bool,
                      live: bool, net: seq<NetEvent>, before: AnswerState, after: AnswerState)
    requires FaultAddressed(h) && ReplyOutcome(build, h, replyId, replyAction, canCopy, live, net, after.header)
    requires ReplyLeaves(build, h, replyAction, net, before, after)
    ensures Prepared(RouteTo(build, Address(h.from), Address(h.replyTo)),
                     FaultRoute(build, Address(h.from), Address(h.replyTo), Address(h.faultTo)),
                     h.messageID, replyId, replyAction, Sender(build, h), canCopy, live, net, before, after)
  {
    hide IsAnonymous, NoneUri, AnonymousUri, RouteTo, FaultRoute, FaultTrace, FaultRecorded, ReplySuppressed,
         NeedsConnection, ReplyDestination, Refused, Sender, TriedInTurn;
    RoutesAgree(build, h);
    if RouteTo(build, Address(h.from), Address(h.replyTo)) == SameConnection { SameConnectionIsSender(build, h); }
    if after.header.None? && !ReplySuppressed(build, h) {
      var given := before.(action := replyAction, header := None, error := SOAP_OK);
      FaultIsRouted(build, h, FaultOf(DestinationUnreachable), net[1..], given, after);
      RefusedIgnores(FaultRoute(build, Address(h.from), Address(h.replyTo), Address(h.faultTo)), net[1..],
                     given, before, after);
    }
  }

  lemma SameConnectionIsSender(build: Build, h: Header)
    requires RouteTo(build, Address(h.from), Address(h.replyTo)) == SameConnection
    ensures ReplyDestination(build, h) == Sender(build, h)
  {
    hide NoneUri, AnonymousUri, IsAnonymous;
  }

  lemma RefusedIgnores(route: Route, net: seq<NetEvent>, given: AnswerState, before: AnswerState, after: AnswerState)
    requires Refused(route, net, given, after)
    requires given.fault == before.fault && given.relayed == before.relayed && given.endpoint == before.endpoint
    ensures Refused(route, net, before, after)
  {
  }

  /** A request and the preparation of its reply, over a channel that delivers the
      header unchanged: the addresses given to the client decide what is done. */
  method Converse(client: Soap, server: Soap, id: Option<string>, to: Option<string>, action: string,
                  from: Option<string>,
                  wish: Wish, faultTo: Option<string>, replyId: Option<string>, replyAction: Option<string>,
                  canCopy: bool) returns (code: int)
    requires client != server && client.build == server.build
    modifies client, server
    ensures old(server.net) <= server.net
    ensures var wished := WishedAddress(client.build, wish);
            Prepared(RouteTo(client.build, from, wished), FaultRoute(client.build, from, wished, faultTo),
                     id, replyId, replyAction, if from.Some? then from else Some(AnonymousUri(client.build)),
                     canCopy, old(server.connection) != NoConnection,
                     server.net[|old(server.net)|..], old(server.Answer()), server.Answer())
  {
    hide IsAnonymous, NoneUri, AnonymousUri, RouteTo, FaultRoute, FaultTrace, FaultRecorded, ReplySuppressed,
         NeedsConnection, ReplyDestination, FaultAddressed, Sender, Prepared;
    ghost var before := server.Answer();
    Ask(client, id, to, action, from, wish, faultTo);
    server.header := client.header;
    ghost var h := client.header.value;
    code := server.Reply(replyId, replyAction, canCopy);
    ReplyIsRouted(server.build, h, replyId, replyAction, canCopy, old(server.connection) != NoConnection,
                  server.net[|old(server.net)|..],
                  before, server.Answer());
  }
}
