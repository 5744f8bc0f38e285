/** The outbound messages of wsddapi.c and the exchange of a managed Probe. */
module Discovery {
  import opened Addressing
  import opened AppSequence
  import opened Constants
  import opened Options
  import opened SoapContext

  datatype Mode = Managed | AdHoc

  datatype Receiver = ToProxy | ToService

  const NAMESPACE := "http://schemas.xmlsoap.org/ws/2005/04/discovery"

  /** `to_ts_URL`. */
  function TargetServices(build: Build): string {
    match build
    case Wsa2005 => "urn:schemas-xmlsoap-org:ws:2005:04:discovery"
    case Wsa200408 => "urn:docs-oasis-open-org:ws-dd:ns:discovery:2009:01"
  }

  /** An outbound call, with the arguments that end up in its header. */
  datatype Call =
    | Hello(mode: Mode, endpoint: Option<string>, id: Option<string>, relatesTo: Option<string>)
    | Bye(mode: Mode, endpoint: Option<string>, id: Option<string>)
    | Probe(receiver: Receiver, endpoint: Option<string>, id: Option<string>, replyTo: Option<string>)
    | Resolve(receiver: Receiver, endpoint: Option<string>, id: Option<string>, replyTo: Option<string>)
    | ProbeMatches(id: Option<string>, relatesTo: Option<string>, to: Option<string>)
    | ResolveMatches(id: Option<string>, relatesTo: Option<string>, to: Option<string>)

  // ------------------------------------------------------- what a message says

  function ActionOf(call: Call): string {
    match call
    case Hello(_, _, _, _) => NAMESPACE + "/Hello"
    case Bye(_, _, _) => NAMESPACE + "/Bye"
    case Probe(_, _, _, _) => NAMESPACE + "/Probe"
    case Resolve(_, _, _, _) => NAMESPACE + "/Resolve"
    case ProbeMatches(_, _, _) => NAMESPACE + "/ProbeMatches"
    case ResolveMatches(_, _, _) => NAMESPACE + "/ResolveMatches"
  }

  /** The addressee: the target services at large, an endpoint, or whoever asked. */
  function ToOf(build: Build, call: Call): string {
    var multicast := ((call.Hello? || call.Bye?) && call.mode == AdHoc)
                     || ((call.Probe? || call.Resolve?) && call.receiver == ToService);
    var named := if call.ProbeMatches? || call.ResolveMatches? then call.to else call.endpoint;
    if multicast then TargetServices(build)
    else if named.Some? then named.value
    else AnonymousUri(build)
  }

  function RelatesToOf(call: Call): Option<string> {
    if call.Hello? || call.ProbeMatches? || call.ResolveMatches? then call.relatesTo else None
  }

  function ReplyToOf(build: Build, call: Call): Option<Endpoint> {
    RequestReplyTo(build, if call.Probe? || call.Resolve? then call.replyTo else None)
  }

  /** Whether a message carries an application sequence, and so uses up a number:
      answers always do, requests never, and announcements as the build and the
      mode decide. */
  predicate IsSequenced(build: Build, call: Call) {
    match call
    case Hello(mode, _, _, _) => build == Wsa2005 || mode == AdHoc
    case Bye(mode, _, _) => build == Wsa2005 || mode == AdHoc
    case Probe(_, _, _, _) => false
    case Resolve(_, _, _, _) => false
    case ProbeMatches(_, _, _) => true
    case ResolveMatches(_, _, _) => true
  }

  /** The header a call sends, given the next stamp of the shared sequence. */
  function OutHeader(build: Build, call: Call, next: Stamp): Header {
    Header(call.id, RelatesToOf(call), None, ReplyToOf(build, call), None, Some(ToOf(build, call)),
           Some(ActionOf(call)),
           if IsSequenced(build, call) then Some(next) else None, None)
  }

  /** The shared history once a call has been made. */
  function LogAfter(build: Build, call: Call, log: seq<Event>): seq<Event> {
    if IsSequenced(build, call) then log + [Stamped(After(log))] else log
  }

  /** The addressing and sequence members of a header. */
  function Relevant(h: Header): Header { h.(channel := None) }

  // ------------------------------------------------------------ the operations

  /** The addressee of a message: everybody who listens, or one endpoint, or the other
      end of the connection. */
  predicate IsFor(build: Build, m: Header, everybody: bool, endpoint: Option<string>) {
    m.to == Some(if everybody then
                   (if build.Wsa2005? then "urn:schemas-xmlsoap-org:ws:2005:04:discovery"
                    else "urn:docs-oasis-open-org:ws-dd:ns:discovery:2009:01")
                 else if endpoint.Some? then endpoint.value
                 else if build.Wsa2005? then ANONYMOUS_2005 else ANONYMOUS_200408)
  }

  /** `soap_wsdd_set_AppSequence`. */
  method SetAppSequence(soap: Soap, shared: SharedState)
    requires shared.Valid()
    modifies soap`header, shared
    ensures shared.Valid() && shared.log == old(shared.log) + [Stamped(After(old(shared.log)))]
    ensures soap.header == Some(OldHeader(old(soap.header)).(appSequence := Some(After(old(shared.log)))))
  {
    if soap.header.None? {
      soap.header := Some(DEFAULT_HEADER);
    }
    var stamp := shared.Take();
    soap.header := Some(soap.header.value.(appSequence := Some(stamp)));
  }

  /** `soap_wsdd_reset_AppSequence`. */
  method ResetAppSequence(soap: Soap)
    modifies soap`header
    ensures soap.header == if old(soap.header).Some? then Some(old(soap.header).value.(appSequence := None)) else None
  {
    if soap.header.Some? {
      soap.header := Some(soap.header.value.(appSequence := None));
    }
  }

  /** The announcements' choice between the two, by build and mode. */
  method SequenceAnnouncement(soap: Soap, shared: SharedState, mode: Mode)
    requires shared.Valid() && soap.header.Some?
    modifies soap`header, shared
    ensures shared.Valid()
    ensures var stamped := soap.build == Wsa2005 || mode == AdHoc;
            && shared.log == (if stamped then old(shared.log) + [Stamped(After(old(shared.log)))] else old(shared.log))
            && soap.header
               == Some(old(soap.header).value.(appSequence := if stamped then Some(After(old(shared.log))) else None))
  {
    if soap.build == Wsa2005 {
      SetAppSequence(soap, shared);
    } else if mode == AdHoc {
      SetAppSequence(soap, shared);
    } else {
      ResetAppSequence(soap);
    }
  }

  /** What the steps of an announcement come to. */
  lemma AnnouncementSays(build: Build, call: Call, h: Header, to: Option<string>, m: Header, next: Stamp)
    requires call.Hello? || call.Bye?
    requires to == if call.mode == AdHoc then Some(TargetServices(build)) else call.endpoint
    requires m == RequestHeader(build, h, call.id, to, ActionOf(call)).(
                    relatesTo := RelatesToOf(call),
                    appSequence := if IsSequenced(build, call) then Some(next) else None)
    ensures Relevant(m) == OutHeader(build, call, next) && IsFor(build, m, call.mode == AdHoc, call.endpoint)
  {
  }

  /** The header part of `soap_wsdd_Hello`. */
  method SendHello(soap: Soap, shared: SharedState, mode: Mode, endpoint: Option<string>, id: Option<string>,
                   relatesTo: Option<string>)
    requires shared.Valid()
    modifies soap, shared
    ensures Sends(soap, shared, Hello(mode, endpoint, id, relatesTo), old(shared.log))
    ensures var m := soap.header.value;
            && IsFor(soap.build, m, mode == AdHoc, endpoint) && m.messageID == id && m.relatesTo == relatesTo
            && m.action == Some(NAMESPACE + "/Hello")
            && m.appSequence == if soap.build == Wsa2005 || mode == AdHoc then Some(After(old(shared.log))) else None
  {
    hide IsFor, RequestHeader, OutHeader, AnonymousUri, TargetServices;
    var to := endpoint;
    if mode == AdHoc {
      to := Some(TargetServices(soap.build));
    }
    var code := soap.Request(id, to, NAMESPACE + "/Hello");
    code := soap.AddRelatesTo(relatesTo);
    SequenceAnnouncement(soap, shared, mode);
    AnnouncementSays(soap.build, Hello(mode, endpoint, id, relatesTo), OldHeader(old(soap.header)), to,
                     soap.header.value, After(old(shared.log)));
  }

  /** The header part of `soap_wsdd_Bye`. */
  method SendBye(soap: Soap, shared: SharedState, mode: Mode, endpoint: Option<string>, id: Option<string>)
    requires shared.Valid()
    modifies soap, shared
    ensures Sends(soap, shared, Bye(mode, endpoint, id), old(shared.log))
    ensures var m := soap.header.value;
            && IsFor(soap.build, m, mode == AdHoc, endpoint) && m.messageID == id && m.relatesTo == None
            && m.action == Some(NAMESPACE + "/Bye")
            && m.appSequence == if soap.build == Wsa2005 || mode == AdHoc then Some(After(old(shared.log))) else None
  {
    hide IsFor, RequestHeader, OutHeader, AnonymousUri, TargetServices;
    var to := endpoint;
    if mode == AdHoc {
      to := Some(TargetServices(soap.build));
    }
    var code := soap.Request(id, to, NAMESPACE + "/Bye");
    SequenceAnnouncement(soap, shared, mode);
    AnnouncementSays(soap.build, Bye(mode, endpoint, id), OldHeader(old(soap.header)), to, soap.header.value,
                     After(old(shared.log)));
  }

  /** The header part of `soap_wsdd_Probe` and, with another action, of
      `soap_wsdd_Resolve`. */
  method SendRequest(soap: Soap, receiver: Receiver, endpoint: Option<string>, id: Option<string>,
                     replyTo: Option<string>,
                     action: string)
    modifies soap
    ensures soap.header.Some? && soap.net == old(soap.net)
    ensures Relevant(soap.header.value)
            == OutHeader(soap.build, Probe(receiver, endpoint, id, replyTo), Initial()).(action := Some(action))
    ensures var m := soap.header.value;
            && IsFor(soap.build, m, receiver == ToService, endpoint) && m.messageID == id && m.relatesTo == None
            && m.action == Some(action) && m.appSequence == None
            && m.replyTo == if replyTo.Some? then Some(Endpoint(replyTo, None)) else if soap.build.Wsa2005? then None
                            else Some(Endpoint(Some(ANONYMOUS_200408), None))
  {
    var to := endpoint;
    if receiver == ToService {
      to := Some(TargetServices(soap.build));
    }
    var code := soap.Request(id, to, action);
    code := soap.AddReplyTo(replyTo);
    ResetAppSequence(soap);
  }

  /** The header part of `soap_wsdd_ProbeMatches` and `soap_wsdd_ResolveMatches`. */
  method SendMatches(soap: Soap, shared: SharedState, id: Option<string>, relatesTo: Option<string>, to: Option<string>,
                     action: string)
    requires shared.Valid()
    modifies soap, shared
    ensures shared.Valid() && shared.log == old(shared.log) + [Stamped(After(old(shared.log)))]
    ensures soap.header.Some?
    ensures Relevant(soap.header.value)
            == OutHeader(soap.build, ProbeMatches(id, relatesTo, to), After(old(shared.log))).(action := Some(action))
    ensures var m := soap.header.value;
            && IsFor(soap.build, m, false, to) && m.messageID == id && m.relatesTo == relatesTo
            && m.action == Some(action) && m.appSequence == Some(After(old(shared.log)))
  {
    var code := soap.Request(id, to, action);
    code := soap.AddRelatesTo(relatesTo);
    SetAppSequence(soap, shared);
  }

  /** The context holds exactly the header of the call, and the shared sequence
      has moved on accordingly. */
  ghost predicate Sends(soap: Soap, shared: SharedState, call: Call, log: seq<Event>)
    reads soap, shared
  {
    && shared.Valid() && shared.log == LogAfter(soap.build, call, log)
    && soap.header.Some? && Relevant(soap.header.value) == OutHeader(soap.build, call, After(log))
  }

  method Send(soap: Soap, shared: SharedState, call: Call)
    requires shared.Valid()
    modifies soap, shared
    ensures Sends(soap, shared, call, old(shared.log))
    ensures var m, everybody := soap.header.value, if call.Hello? || call.Bye? then call.mode == AdHoc
                                                   else (call.Probe? || call.Resolve?) && call.receiver == ToService;
            && IsFor(soap.build, m, everybody, if call.ProbeMatches? || call.ResolveMatches? then call.to
                                               else call.endpoint)
            && m.action == Some(NAMESPACE + match call
                                            case Hello(_, _, _, _) => "/Hello"
                                            case Bye(_, _, _) => "/Bye"
                                            case Probe(_, _, _, _) => "/Probe"
                                            case Resolve(_, _, _, _) => "/Resolve"
                                            case ProbeMatches(_, _, _) => "/ProbeMatches"
                                            case ResolveMatches(_, _, _) => "/ResolveMatches")
  {
    match call {
      case Hello(mode, endpoint, id, relatesTo) => SendHello(soap, shared, mode, endpoint, id, relatesTo);
      case Bye(mode, endpoint, id) => SendBye(soap, shared, mode, endpoint, id);
      case Probe(receiver, endpoint, id, replyTo) =>
        SendRequest(soap, receiver, endpoint, id, replyTo, NAMESPACE + "/Probe");
      case Resolve(receiver, endpoint, id, replyTo) =>
        SendRequest(soap, receiver, endpoint, id, replyTo, NAMESPACE + "/Resolve");
      case ProbeMatches(id, relatesTo, to) =>
        SendMatches(soap, shared, id, relatesTo, to, NAMESPACE + "/ProbeMatches");
      case ResolveMatches(id, relatesTo, to) =>
        SendMatches(soap, shared, id, relatesTo, to, NAMESPACE + "/ResolveMatches");
    }
  }

  // ----------------------------------------------------------- runs of messages

  /** The headers a run of calls sends, from the calls and the shared history alone. */
  function Outbox(build: Build, calls: seq<Call>, log: seq<Event>): (out: seq<Header>)
    ensures |out| == |calls|
  {
    if calls == [] then []
    else [OutHeader(build, calls[0], After(log))] + Outbox(build, calls[1..], LogAfter(build, calls[0], log))
  }

  function LogAfterAll(build: Build, calls: seq<Call>, log: seq<Event>): seq<Event> {
    if calls == [] then log else LogAfterAll(build, calls[1..], LogAfter(build, calls[0], log))
  }

  lemma RunStep(build: Build, calls: seq<Call>, i: nat, log: seq<Event>)
    requires i < |calls|
    ensures var next := LogAfter(build, calls[i], log);
            && Outbox(build, calls[i..], log)
               == [OutHeader(build, calls[i], After(log))] + Outbox(build, calls[i + 1..], next)
            && LogAfterAll(build, calls[i..], log) == LogAfterAll(build, calls[i + 1..], next)
  {
    assert calls[i..][0] == calls[i] && calls[i..][1..] == calls[i + 1..];
  }

  /** Whatever header the context holds before each call, left by earlier calls or
      by messages received meanwhile, nothing of it shows in what is sent. */
  method SendAll(soap: Soap, shared: SharedState, calls: seq<Call>) returns (out: seq<Header>)
    requires shared.Valid()
    modifies soap, shared
    ensures out == Outbox(soap.build, calls, old(shared.log))
    ensures shared.Valid() && shared.log == LogAfterAll(soap.build, calls, old(shared.log))
  {
    out := [];
    for i := 0 to |calls|
      invariant shared.Valid()
      invariant out + Outbox(soap.build, calls[i..], shared.log) == Outbox(soap.build, calls, old(shared.log))
      invariant LogAfterAll(soap.build, calls[i..], shared.log) == LogAfterAll(soap.build, calls, old(shared.log))
    {
      ghost var before := shared.log;
      soap.header := *;
      Send(soap, shared, calls[i]);
      RunStep(soap.build, calls, i, before);
      out := out + [Relevant(soap.header.value)];
    }
  }

  /** How many of the calls use up a number. */
  function Sequenced(build: Build, calls: seq<Call>): nat {
    if calls == [] then 0 else (if IsSequenced(build, calls[0]) then 1 else 0) + Sequenced(build, calls[1..])
  }

  /** The messages of a run that are sequenced are numbered consecutively from the
      shared counter on, under unchanged ids; the others do not touch it. */
  lemma {:induction false} RunIsNumbered(build: Build, calls: seq<Call>, log: seq<Event>, i: nat)
    requires i < |calls|
    ensures var h := Outbox(build, calls, log)[i];
            match h.appSequence
            case None => !IsSequenced(build, calls[i])
            case Some(stamp) =>
              && IsSequenced(build, calls[i])
              && stamp.instanceId == After(log).instanceId && stamp.sequenceId == After(log).sequenceId
              && stamp.messageNumber as int == (Count(log) + 1 + Sequenced(build, calls[..i])) % UINT_RANGE
  {
    if i == 0 {
      NumberIsCount(log);
    } else {
      var next := LogAfter(build, calls[0], log);
      RunIsNumbered(build, calls[1..], next, i - 1);
      assert calls[..i][1..] == calls[1..][..i - 1];
      StampCounts(log);
    }
  }

  lemma StampCounts(log: seq<Event>)
    ensures var next := log + [Stamped(After(log))];
            && Count(next) == Count(log) + 1
            && After(next).instanceId == After(log).instanceId && After(next).sequenceId == After(log).sequenceId
  {
    HistoryGrows(log, Stamped(After(log)));
    assert (log + [Stamped(After(log))])[..|log|] == log;
  }
}
