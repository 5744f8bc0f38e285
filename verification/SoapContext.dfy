/** The functions of wsaapi.c that set up, check and rebuild the header of a context. */
module SoapContext {
  import opened Addressing
  import opened AppSequence
  import opened CStrings
  import opened Connections
  import opened Constants
  import opened Options

  /** The faults raised by the library itself. */
  datatype WsaFault = InvalidHeader | HeaderRequired | DestinationUnreachable | ActionNotSupported | EndpointUnavailable

  /** A SOAP Fault: blamed on the sender or on the receiver. */
  datatype Fault = Fault(sender: bool, subcode: Option<WsaFault>)

  /** The fault a code stands for: only an unavailable endpoint is the receiver's fault. */
  function FaultOf(code: WsaFault): Fault { Fault(!code.EndpointUnavailable?, Some(code)) }

  class Soap {
    const build: Build
    var header: Option<Header>
    var action: Option<string>
    var endpoint: string
    var keepAlive: bool
    /** The kind of the bound socket, and whether it is still open. */
    const listensOnDatagrams: bool
    var listening: bool
    /** `SOAP_IO_UDP`: messages go out as datagrams. */
    var datagram: bool
    var connection: Connection
    /** The response callback is `soap_wsa_response`, and nothing sets it back. */
    var relayed: bool
    var error: int
    var fault: Option<Fault>
    /** What has been done with connections. */
    ghost var net: seq<NetEvent>

    constructor (build: Build, listensOnDatagrams: bool)
      ensures this.build == build && this.listensOnDatagrams == listensOnDatagrams
      ensures header == None && error == SOAP_OK && fault == None && net == []
      ensures Way() == Transport(listensOnDatagrams, true, listensOnDatagrams, NoConnection, false)
    {
      this.build, this.listensOnDatagrams := build, listensOnDatagrams;
      header, action, endpoint, keepAlive, relayed := None, None, "", false, false;
      listening, datagram, connection := true, listensOnDatagrams, NoConnection;
      error, fault, net := SOAP_OK, None, [];
    }

    /** Where the next message goes. */
    ghost function Way(): Transport
      reads this
    {
      Transport(listensOnDatagrams, listening, datagram, connection, relayed)
    }

    // --------------------------------------------------------- the runtime below

    /** `soap_accept`, and the start of serving a message with header `h`. The listen
        loop clears `keep_alive` before every request. */
    method Accept(h: Option<Header>) returns (accepted: bool)
      modifies this
      ensures accepted == (old(listening) && old(datagram) == listensOnDatagrams) && net == old(net)
      ensures accepted ==> header == h && error == SOAP_OK && !keepAlive
      ensures Way() == old(Way()).(connection := if accepted then Incoming else NoConnection)
    {
      accepted := listening && datagram == listensOnDatagrams;
      connection := if accepted then Incoming else NoConnection;
      if accepted {
        header, action, endpoint, fault, error, keepAlive := h, None, "", None, SOAP_OK, false;
      }
    }

    /** `soap_try_connect_command` for a connection that is not kept alive. */
    method TryConnect(e: string, action: Option<string>) returns (code: int)
      modifies this`error, this`endpoint, this`action, this`datagram, this`connection, this`listening, this`keepAlive
      ensures code == error && endpoint == e && this.action == action
      ensures Way() == AfterTry(old(Way()), Try(e, code))
      ensures HasHost(e) ==>
                && datagram == IsDatagram(e) && connection == (if code == SOAP_OK then Outgoing(e) else NoConnection)
                && listening == (old(listening) && !(listensOnDatagrams && old(connection) == Incoming))
      ensures !HasHost(e) ==> datagram == old(datagram) && connection == old(connection) && listening == old(listening)
    {
      endpoint, this.action := e, action;
      code := *;
      if HasHost(e) {
        if listensOnDatagrams && connection == Incoming {
          listening := false;  // the socket in use is the bound one, and is closed
        }
        datagram := IsDatagram(e);
        connection := if code == SOAP_OK then Outgoing(e) else NoConnection;
        keepAlive := *;
      }
      error := code;
    }

    /** `soap_connect`: tries the endpoints of the address one after the other. */
    method Connect(to: string, action: Option<string>) returns (code: int, ghost tried: seq<Try>)
      modifies this`net, this`error, this`endpoint, this`action, this`datagram, this`connection, this`listening,
               this`keepAlive
      ensures code == error && net == old(net) + [Connected(to, tried, code == SOAP_OK)]
      ensures IsCall(Connected(to, tried, code == SOAP_OK), Some(to))
      ensures endpoint == LastTried(tried) && this.action == action
      ensures Way() == AfterTries(old(Way()), tried)
    {
      hide EndpointsOf, TriedInTurn, TriedUpTo, FirstWord, SkipSpaces, AfterTry, AfterTries;
      var rest, e := to, FirstWord(to);
      code := TryConnect(e, action);
      tried := [Try(e, code)];
      StartTrying(to, tried[0]);
      OneTry(old(Way()), tried[0]);
      while code == SOAP_TCP_ERROR && |FirstWord(rest)| < |rest|
        invariant TriedUpTo(to, rest, tried) && tried != [] && tried[|tried| - 1].code == code == error
        invariant endpoint == LastTried(tried) && this.action == action && net == old(net)
        invariant Way() == AfterTries(old(Way()), tried)
        decreases |rest|
      {
        var next := SkipSpaces(rest[|FirstWord(rest)|..]);
        e := FirstWord(next);
        code := TryConnect(e, action);
        GoOnTrying(to, rest, tried, next, Try(e, code));
        OneMoreTry(old(Way()), tried, Try(e, code));
        rest, tried := next, tried + [Try(e, code)];
      }
      StopTrying(to, rest, tried);
      net := net + [Connected(to, tried, code == SOAP_OK)];
    }

    /** `soap_send_empty_response`: nothing is sent for a datagram, whose error is
        kept; otherwise some error is left even if the response was sent. */
    method SendEmptyResponse() returns (code: int)
      modifies this`net, this`error, this`connection
      ensures code == error && net == old(net) + [Accepted]
      ensures error == SOAP_OK <==> datagram && old(error) == SOAP_OK
      ensures datagram ==> error == old(error)
      ensures !datagram && relayed ==> error == SOAP_PLUGIN_ERROR
      ensures connection == if datagram || keepAlive then old(connection) else NoConnection
      ensures !keepAlive ==> Way() == Closing(old(Way()))
    {
      if !datagram {
        var writable := *;
        error := Response(writable);
        if error == SOAP_OK {
          error := SOAP_STOP;  // stops the server's processing of the request
        }
        if !keepAlive {
          connection := NoConnection;
        }
      }
      net := net + [Accepted];
      code := error;
    }

    /** The callback `fresponse`, which writes the head of a response over a stream.
        What has replaced it asks for a plug-in that is not registered. */
    method Response(writable: bool) returns (code: int)
      ensures code == SOAP_OK <==> !relayed && writable
      ensures relayed ==> code == SOAP_PLUGIN_ERROR
    {
      code := if relayed then SOAP_PLUGIN_ERROR else if writable then SOAP_OK else SOAP_EOM;
    }

    /** The same on a copy of the context that holds the current connection. */
    method SendEmptyResponseOnCopy()
      modifies this`net
      ensures net == old(net) + [Accepted]
    {
      net := net + [Accepted];
    }

    // ---------------------------------------------------------- request headers

    /** `soap_wsa_request`: sets every addressing property, whatever was there. */
    method Request(id: Option<string>, to: Option<string>, action: string) returns (code: int)
      modifies this
      ensures code == SOAP_OK && net == old(net)
      ensures header == Some(RequestHeader(build, OldHeader(old(header)), id, to, action))
      ensures Answer() == old(Answer()).(header := header)
      ensures var m := header.value;
              && m.messageID == id && m.action == Some(action)
              && m.relatesTo == None && m.from == None && m.faultTo == None
              && m.to == (if to.Some? then to else Some(if build.Wsa2005? then ANONYMOUS_2005 else ANONYMOUS_200408))
              && m.replyTo == (if build.Wsa2005? then None else Some(Endpoint(Some(ANONYMOUS_200408), None)))
              && m.appSequence == OldHeader(old(header)).appSequence
    {
      if header.None? {
        header := Some(DEFAULT_HEADER);
      }
      header := Some(header.value.(messageID := id));
      header := Some(header.value.(to := if to.Some? then to else Some(AnonymousUri(build))));
      header := Some(header.value.(action := Some(action)));
      header := Some(header.value.(relatesTo := None));
      header := Some(header.value.(from := None));
      header := Some(header.value.(faultTo := None));
      code := AddReplyTo(None);
      code := Check();
    }

    /** `soap_wsa_add_From`. */
    method AddFrom(from: Option<string>) returns (code: int)
      modifies this`header
      ensures code == (if old(header).None? then SOAP_ERR else SOAP_OK)
      ensures header == if old(header).None? then None else Some(old(header).value.(from := Some(Endpoint(from, None))))
    {
      if header.None? {
        return SOAP_ERR;
      }
      header := Some(header.value.(from := Some(Endpoint(from, None))));
      return SOAP_OK;
    }

    /** `soap_wsa_add_NoReply`. */
    method AddNoReply() returns (code: int)
      modifies this`header
      ensures code == (if old(header).None? then SOAP_ERR else SOAP_OK)
      ensures header.Some? ==> ReplySuppressed(build, header.value)
      ensures header == if old(header).None? then None
                        else Some(old(header).value.(replyTo := Some(Endpoint(Some(NoneUri(build)), None))))
      ensures header.Some? ==>
                Address(header.value.replyTo) == Some(if build.Wsa2005? then "http://www.w3.org/2005/08/addressing/none"
                                                      else "addressing/none not supported")
    {
      code := AddReplyTo(Some(NoneUri(build)));
    }

    /** `soap_wsa_add_ReplyTo`. Before the 2005 schema a missing address stands for anonymous. */
    method AddReplyTo(replyTo: Option<string>) returns (code: int)
      modifies this`header
      ensures code == (if old(header).None? then SOAP_ERR else SOAP_OK)
      ensures header == if old(header).None? then None
                        else Some(old(header).value.(replyTo := RequestReplyTo(build, replyTo)))
      ensures header.Some? && replyTo.Some? ==> header.value.replyTo == Some(Endpoint(replyTo, None))
    {
      if header.None? {
        return SOAP_ERR;
      }
      var address := replyTo;
      if build != Wsa2005 && address.None? {
        address := Some(AnonymousUri(build));
      }
      if address.Some? {
        header := Some(header.value.(replyTo := Some(Endpoint(address, None))));
      } else {
        header := Some(header.value.(replyTo := None));
      }
      return SOAP_OK;
    }

    /** `soap_wsa_add_FaultTo`. */
    method AddFaultTo(faultTo: Option<string>) returns (code: int)
      modifies this`header
      ensures code == (if old(header).None? then SOAP_ERR else SOAP_OK)
      ensures header == if old(header).None? then None
                        else Some(old(header).value.(faultTo := if faultTo.Some? then Some(Endpoint(faultTo, None))
                                                     else None))
    {
      if header.None? {
        return SOAP_ERR;
      }
      header := Some(header.value.(faultTo := if faultTo.Some? then Some(Endpoint(faultTo, None)) else None));
      return SOAP_OK;
    }

    /** `soap_wsa_add_RelatesTo`: a missing id changes nothing. */
    method AddRelatesTo(relatesTo: Option<string>) returns (code: int)
      modifies this`header
      ensures code == (if old(header).None? then SOAP_ERR else SOAP_OK)
      ensures header == if old(header).None? || relatesTo.None? then old(header)
                        else Some(old(header).value.(relatesTo := relatesTo))
    {
      if header.None? {
        return SOAP_ERR;
      }
      if relatesTo.Some? {
        header := Some(header.value.(relatesTo := relatesTo));
      }
      return SOAP_OK;
    }

    // -------------------------------------------------------- replies and faults

    /** `soap_wsa_check`: a header without an action is a fault, unless it gets
        overlooked together with that fault. */
    method Check() returns (code: int)
      requires header.Some? && header.value.action.None? ==> FaultAddressed(header.value)
      modifies this
      ensures var h := OldHeader(old(header));
              if h.action.Some? then
                code == SOAP_OK && Answer() == old(Answer()) && net == old(net)
              else
                && old(net) <= net && FaultTrace(build, h, net[|old(net)|..])
                && FaultResult(build, h, FaultOf(HeaderRequired), None, net[|old(net)|..], old(Answer()), Answer())
                && (code == SOAP_OK <==> Overlooked(build, h, old(datagram), old(error)))
                && (!old(keepAlive) ==> Way() == AfterFault(build, h, net[|old(net)|..], old(Way())))
      ensures OldHeader(old(header)).action.None? && !FaultSuppressed(build, OldHeader(old(header))) ==>
                error == SOAP_FAULT ==> fault == Some(Fault(true, Some(HeaderRequired)))
      ensures OldHeader(old(header)).action.Some? ==> Way() == old(Way()) && keepAlive == old(keepAlive)
      ensures code == SOAP_OK ==> keepAlive == old(keepAlive)
    {
      if header.None? || header.value.action.None? {
        code := WsaError(HeaderRequired);
        return;
      }
      return SOAP_OK;
    }

    /** `soap_wsa_error`. Under the 2005 schema it reports a fault whatever became
        of the attempt to issue it. */
    method WsaError(which: WsaFault) returns (code: int)
      requires header.Some? ==> FaultAddressed(header.value)
      modifies this
      ensures old(net) <= net && FaultTrace(build, OldHeader(old(header)), net[|old(net)|..])
      ensures FaultResult(build, OldHeader(old(header)), FaultOf(which), None, net[|old(net)|..], old(Answer()),
                          Answer())
      ensures !FaultSuppressed(build, OldHeader(old(header))) ==>
                && header.Some? && header.value.relatesTo == OldHeader(old(header)).messageID
                && (error == SOAP_FAULT ==> fault == Some(Fault(which != EndpointUnavailable, Some(which))))
      ensures code == if build.Wsa2005? then SOAP_FAULT else error
      ensures code == SOAP_OK <==> Overlooked(build, OldHeader(old(header)), old(datagram), old(error))
      ensures !old(keepAlive) ==> Way() == AfterFault(build, OldHeader(old(header)), net[|old(net)|..], old(Way()))
      ensures code == SOAP_OK ==> keepAlive == old(keepAlive)
    {
      code := FaultSubcodeAction(FaultOf(which), None);
      if build.Wsa2005? {
        code := SOAP_FAULT;
      }
    }

    /** No FaultTo: use ReplyTo. */
    method LetReplyToTakeFaults()
      modifies this`header
      ensures header == if old(header).None? then None else Some(Standing(old(header).value))
    {
      if header.Some? && header.value.replyTo.Some?
         && (header.value.faultTo.None? || IsAnonymous(header.value.faultTo.value.address))
      {
        if header.value.faultTo.None? {
          header := Some(header.value.(faultTo := Some(Endpoint(None, None))));
        }
        var e := header.value.faultTo.value.(address := header.value.replyTo.value.address);
        header := Some(header.value.(faultTo := Some(e)));
      }
    }

    /** (Re)connecting to the FaultTo endpoint. */
    method RelayFault(newheader: Header, faultAction: Option<string>) returns (ok: bool, ghost more: seq<NetEvent>)
      requires newheader.to.Some?
      modifies this`keepAlive, this`net, this`error, this`endpoint, this`action, this`datagram, this`connection,
               this`listening, this`relayed
      ensures net == old(net) + more && |more| == 2 && more[0] == Accepted
      ensures IsCall(more[1], newheader.to) && more[1].ok == ok
      ensures Way() == AfterCall(Closing(old(Way())), more[1].tried, ok)
      ensures ok ==> action == (if faultAction.Some? then faultAction else newheader.action) && relayed
                     && Some(endpoint) == newheader.to
      ensures !ok ==> error == SOAP_STOP && relayed == old(relayed)
    {
      var to := newheader.to.value;
      keepAlive := false;
      var ignored := SendEmptyResponse();
      ghost var closed := Way();
      var failed;
      ghost var tried;
      failed, tried := Connect(to, newheader.action);
      AppendTwo(old(net), Accepted, Connected(to, tried, failed == SOAP_OK));
      more := [Accepted, Connected(to, tried, failed == SOAP_OK)];
      TriesKeep(closed, tried);
      if failed != SOAP_OK {
        error := SOAP_STOP;  // nowhere to go
        return false, more;
      }
      endpoint := to;
      action := if faultAction.Some? then faultAction else newheader.action;
      relayed := true;
      return true, more;
    }

    /** The new header of a fault, once ReplyTo has stood in for FaultTo. */
    method RebuildForFault(oldheader: Header) returns (newheader: Header)
      ensures newheader == DEFAULT_HEADER.(relatesTo := oldheader.messageID, action := Some(FaultAction(build)),
                                           to := if Elsewhere(oldheader.faultTo).Some? then Elsewhere(oldheader.faultTo)
                                                 else Sender(build, oldheader))
    {
      newheader := DEFAULT_HEADER;
      if oldheader.messageID.Some? {
        newheader := newheader.(relatesTo := oldheader.messageID);
      }
      newheader := newheader.(action := Some(FaultAction(build)));
      if Elsewhere(oldheader.faultTo).Some? {
        newheader := newheader.(to := oldheader.faultTo.value.address);
      } else if oldheader.from.Some? {
        newheader := newheader.(to := oldheader.from.value.address);
      } else {
        newheader := newheader.(to := Some(AnonymousUri(build)));
      }
    }

    /** `soap_wsa_fault_subcode_action`. */
    method FaultSubcodeAction(f: Fault, faultAction: Option<string>) returns (code: int)
      requires header.Some? ==> FaultAddressed(header.value)
      modifies this
      ensures code == error
      ensures old(net) <= net && FaultTrace(build, OldHeader(old(header)), net[|old(net)|..])
      ensures FaultResult(build, OldHeader(old(header)), f, faultAction, net[|old(net)|..], old(Answer()), Answer())
      ensures !FaultSuppressed(build, OldHeader(old(header))) ==>
                && header.Some? && SaysOnlyFault(build, OldHeader(old(header)), header.value)
                && (error == SOAP_FAULT ==> fault == Some(f))
      ensures error == SOAP_OK
              <==> FaultSuppressed(build, OldHeader(old(header))) && old(datagram) && old(error) == SOAP_OK
      ensures !old(keepAlive) ==> Way() == AfterFault(build, OldHeader(old(header)), net[|old(net)|..], old(Way()))
      ensures error == SOAP_OK ==> keepAlive == old(keepAlive)
    {
      hide NoneUri, AnonymousUri, FaultAction, IsAnonymous, TriedInTurn, AfterCall, Closing, FaultTrace, FaultResult,
           SaysOnlyFault;
      ghost var h, before, way := OldHeader(header), Answer(), Way();
      LetReplyToTakeFaults();
      var oldheader := OldHeader(header);
      assert oldheader == Standing(h);
      if Address(oldheader.faultTo) == Some(NoneUri(build)) {
        code := SendEmptyResponse();
        assert net[|old(net)|..] == [Accepted];
        SuppressedIsRecorded(build, h, f, faultAction, before, Answer());
        return;
      }
      var newheader := RebuildForFault(oldheader);
      FaultTargetIsFirstElsewhere(build, h);
      assert newheader == FaultHeader(build, h);
      FaultHeaderSays(build, h);
      // (re)connect to the FaultTo endpoint if From != FaultTo
      ghost var more;
      code, more := SendFault(newheader, NeedsConnection(oldheader, oldheader.faultTo), f, faultAction);
      assert net[|old(net)|..] == more;
      FaultIsRecorded(build, h, newheader, f, faultAction, more, before, Answer());
    }

    /** Issuing a fault with its new header, over a connection of its own or not.
        `more` is what happens on the network. */
    method SendFault(newheader: Header, elsewhere: bool, f: Fault, faultAction: Option<string>)
      returns (code: int, ghost more: seq<NetEvent>)
      requires elsewhere ==> newheader.to.Some?
      modifies this
      ensures code == error && (error == SOAP_FAULT || error == SOAP_STOP) && header == Some(newheader)
      ensures net == old(net) + more
      ensures if elsewhere then
                && |more| == 2 && more[0] == Accepted && IsCall(more[1], newheader.to)
                   && more[1].ok == (error == SOAP_FAULT)
                && Way() == AfterCall(Closing(old(Way())), more[1].tried, more[1].ok)
              else
                && more == [] && error == SOAP_FAULT && action == old(action) && endpoint == old(endpoint)
                && Way() == old(Way())
      ensures error == SOAP_FAULT ==> fault == Some(f)
      ensures elsewhere && error == SOAP_FAULT ==>
                && relayed && action == (if faultAction.Some? then faultAction else newheader.action)
                && Some(endpoint) == newheader.to
      ensures error == SOAP_STOP ==> SameFault(old(Answer()), Answer())
    {
      hide IsCall, AfterCall, Closing;
      header := Some(newheader);
      more := [];
      if elsewhere {
        var ok;
        ok, more := RelayFault(newheader, faultAction);
        if !ok {
          return error, more;
        }
      }
      fault, error := Some(f), SOAP_FAULT;
      code := error;
    }

    /** The part of the context that decides how the answer goes out. */
    ghost function Answer(): AnswerState
      reads this
    {
      AnswerState(header, action, endpoint, relayed, error, fault)
    }

    /** The new header of a reply: members are copied, except the addressing data. */
    method RebuildForReply(oldheader: Header, id: Option<string>, replyAction: Option<string>)
      returns (newheader: Header)
      ensures newheader == ReplyHeader(build, oldheader, id, replyAction)
    {
      newheader := oldheader.(messageID := id, action := replyAction, relatesTo := None, from := None, to := None,
                              replyTo := None, faultTo := None);
      if oldheader.messageID.Some? {
        newheader := newheader.(relatesTo := oldheader.messageID);
      }
      if build.Wsa2005? && oldheader.replyTo.Some? && oldheader.replyTo.value.channel.Some? {
        newheader := newheader.(channel := Some(Channel(oldheader.replyTo.value.channel.value, true)));
      }
      if Elsewhere(oldheader.replyTo).Some? {
        newheader := newheader.(to := oldheader.replyTo.value.address);
      } else if oldheader.from.Some? {
        newheader := newheader.(to := oldheader.from.value.address);
      } else {
        newheader := newheader.(to := Some(AnonymousUri(build)));
      }
    }

    /** `soap_wsa_reply`. */
    method Reply(id: Option<string>, replyAction: Option<string>, canCopy: bool) returns (code: int)
      requires header.Some? && NeedsConnection(header.value, header.value.replyTo) && canCopy ==>
                 FaultAddressed(header.value)
      modifies this
      ensures old(net) <= net
      ensures ReplyOutcome(build, OldHeader(old(header)), id, replyAction, canCopy, old(connection) != NoConnection,
                           net[|old(net)|..], header)
      ensures !old(keepAlive) ==>
                Way() == AfterReply(build, OldHeader(old(header)), canCopy, net[|old(net)|..], old(Way()))
      ensures header.Some? ==>
                var h, m := OldHeader(old(header)), header.value;
                && m.messageID == id && m.relatesTo == h.messageID && m.action == replyAction
                && m.from == None && m.replyTo == None && m.faultTo == None
                && m.to == ReplyDestination(build, h) && m.appSequence == h.appSequence
                && m.channel == if build.Wsa2005? && h.replyTo.Some? && h.replyTo.value.channel.Some?
                                then Some(Channel(h.replyTo.value.channel.value, true)) else h.channel
      ensures header.Some? ==>
                && code == SOAP_OK && action == replyAction && fault == old(fault)
                && (if net == old(net) then Way() == old(Way()) && endpoint == old(endpoint) && error == old(error)
                    else relayed && net[|old(net)|].Connected? && net[|old(net)|].tried != []
                         && endpoint == LastTried(net[|old(net)|].tried) && error == SOAP_OK)
      ensures header.None? ==>
                var h := OldHeader(old(header));
                if ReplySuppressed(build, h) then
                  && Answer() == old(Answer()).(header := None, error := error)
                  && (code == SOAP_OK <==> old(datagram) && old(error) == SOAP_OK)
                else
                  && UnreachableFault(build, h, replyAction, net[|old(net)|..], old(Answer()), Answer())
                  && code == (if build.Wsa2005? then SOAP_FAULT else error) != SOAP_OK
    {
      hide NoneUri, AnonymousUri, FaultAction, IsAnonymous, AfterTries, AfterFault, TriedInTurn;
      var original := header;
      var oldheader := OldHeader(header);
      header := None;
      // if the endpoint address for the reply is 'none' return immediately
      if Address(oldheader.replyTo) == Some(NoneUri(build)) {
        code := SendEmptyResponse();
        assert net[|old(net)|..] == [Accepted];
        return;
      }
      var newheader := RebuildForReply(oldheader, id, replyAction);
      // (re)connect to the ReplyTo endpoint if From != ReplyTo
      if NeedsConnection(oldheader, oldheader.replyTo) && canCopy {
        var ok;
        ghost var call, more;
        ok, code, call, more := RelayReply(newheader.to.value, newheader.action, original);
        AfterAttempt(old(net), call, more);
        if !ok {
          return;
        }
      } else {
        assert net[|old(net)|..] == [];
      }
      header := Some(newheader);
      action := newheader.action;
      return SOAP_OK;
    }

    /** Connecting to the ReplyTo endpoint, or issuing a fault for the request over the
        connection that was put aside. `call` is the attempt, and `more` what happens
        on the network after it. */
    method RelayReply(to: string, replyAction: Option<string>, original: Option<Header>)
      returns (ok: bool, code: int, ghost call: NetEvent, ghost more: seq<NetEvent>)
      requires original.Some? ==> FaultAddressed(original.value)
      modifies this
      ensures net == old(net) + [call] + more && IsCall(call, Some(to)) && call.ok == ok
      ensures ok ==> more == (if old(connection) != NoConnection then [Accepted] else [])
      ensures ok ==> relayed && endpoint == LastTried(call.tried) && error == SOAP_OK && fault == old(fault)
      ensures ok ==> Way() == AfterCall(old(Way()).(connection := NoConnection), call.tried, true)
      ensures !ok ==>
                && header == None && FaultTrace(build, OldHeader(original), more)
                && FaultRecorded(build, OldHeader(original), FaultOf(DestinationUnreachable), None, more,
                                 old(Answer()).(action := replyAction, header := None, error := SOAP_OK), Answer())
                && code == (if build.Wsa2005? then SOAP_FAULT else error) != SOAP_OK
                && (!old(keepAlive) ==> Way() == AfterFault(build, OldHeader(original), more, old(Way())))
    {
      hide FaultTrace, FaultRecorded, AfterFault, AfterTries, TriedInTurn, FaultAddressed, EndpointsOf;
      // soap_copy_stream(reply_soap, soap); soap_free_stream(soap);
      var stream, mode, alive, peer := connection, datagram, keepAlive, endpoint;
      connection := NoConnection;
      ghost var aside := Way();
      var failed;
      ghost var tried;
      failed, tried := Connect(to, replyAction);
      call := Connected(to, tried, failed == SOAP_OK);
      TriesKeep(aside, tried);
      if failed != SOAP_OK {
        // soap_copy_stream(soap, reply_soap);
        code, more := TakeUpAgain(stream, mode, alive, peer, original);
        return false, code, call, more;
      }
      more := [];
      if stream != NoConnection {
        SendEmptyResponseOnCopy();
        more := [Accepted];
      }
      relayed := true;
      return true, SOAP_OK, call, more;
    }

    /** The connection that was put aside is taken up again, for the fault. */
    method TakeUpAgain(stream: Connection, mode: bool, alive: bool, peer: string, original: Option<Header>)
      returns (code: int, ghost more: seq<NetEvent>)
      requires original.Some? ==> FaultAddressed(original.value)
      requires error != SOAP_OK
      modifies this
      ensures net == old(net) + more && FaultTrace(build, OldHeader(original), more)
      ensures FaultRecorded(build, OldHeader(original), FaultOf(DestinationUnreachable), None, more,
                            old(Answer()).(endpoint := peer, header := None, error := SOAP_OK), Answer())
      ensures header == None && code == (if build.Wsa2005? then SOAP_FAULT else error) != SOAP_OK
      ensures !alive ==>
                Way() == AfterFault(build, OldHeader(original), more,
                                    old(Way()).(connection := stream, datagram := mode))
    {
      hide FaultTrace, FaultRecorded, AfterFault, FaultAddressed;
      connection, datagram, keepAlive, endpoint := stream, mode, alive, peer;
      code, more := FaultInstead(original);
    }

    /** The fault issued for a request that cannot be answered. */
    method FaultInstead(original: Option<Header>) returns (code: int, ghost more: seq<NetEvent>)
      requires original.Some? ==> FaultAddressed(original.value)
      requires error != SOAP_OK
      modifies this
      ensures net == old(net) + more && FaultTrace(build, OldHeader(original), more)
      ensures FaultRecorded(build, OldHeader(original), FaultOf(DestinationUnreachable), None, more,
                            old(Answer()).(header := None, error := SOAP_OK), Answer())
      ensures header == None && code == (if build.Wsa2005? then SOAP_FAULT else error) != SOAP_OK
      ensures !old(keepAlive) ==> Way() == AfterFault(build, OldHeader(original), more, old(Way()))
    {
      hide FaultTrace, FaultRecorded, AfterFault;
      header := original;
      ghost var before := Answer();
      code := WsaError(DestinationUnreachable);
      more := net[|old(net)|..];
      ghost var after := Answer();
      header := None;
      RecordIgnores(build, OldHeader(original), FaultOf(DestinationUnreachable), None, more, before, after, Answer());
    }
  }

  lemma AfterAttempt(before: seq<NetEvent>, e: NetEvent, more: seq<NetEvent>)
    ensures var net := before + [e] + more;
            before <= net && net[|before|..] == [e] + more && net[|before|..][0] == e && net[|before|..][1..] == more
  {
  }

  lemma AppendTwo(before: seq<NetEvent>, e: NetEvent, f: NetEvent)
    ensures before + [e] + [f] == before + [e, f]
  {
  }

  /** The header of a fault relates to the request, has the action of faults, is for
      the first of FaultTo and ReplyTo elsewhere or else for the sender, and names no
      endpoint itself. */
  predicate SaysOnlyFault(build: Build, h: Header, m: Header) {
    && m.relatesTo == h.messageID && m.messageID == None
    && m.from == None && m.replyTo == None && m.faultTo == None && m.appSequence == None && m.channel == None
    && m.action == Some(match build
                        case Wsa200408 => "http://schemas.xmlsoap.org/ws/2004/08/addressing/fault"
                        case Wsa2005 => "http://www.w3.org/2005/08/addressing/soap/fault")
    && m.to == if Elsewhere(h.faultTo).Some? then h.faultTo.value.address
               else if Elsewhere(h.replyTo).Some? then h.replyTo.value.address
               else if h.from.Some? then h.from.value.address
               else Some(if build.Wsa2005? then ANONYMOUS_2005 else ANONYMOUS_200408)
  }

  lemma FaultHeaderSays(build: Build, h: Header)
    ensures SaysOnlyFault(build, h, FaultHeader(build, h))
  {
    hide IsAnonymous;
  }

  /** The header of a request, with ReplyTo standing in for FaultTo. */
  function Standing(h: Header): Header { h.(faultTo := FaultTarget(h)) }

  /** How an answer goes out: with which header and action, where to, over a new
      connection or not, and as what fault. */
  datatype AnswerState = AnswerState(header: Option<Header>, action: Option<string>, endpoint: string, relayed: bool,
                                     error: int, fault: Option<Fault>)

  /** What issuing the fault `f` leaves in the context: the header of the fault, or
      of the request if faults are suppressed, and the record of the fault. */
  predicate FaultResult(build: Build, h: Header, f: Fault, faultAction: Option<string>, net: seq<NetEvent>,
                        before: AnswerState, after: AnswerState)
  {
    && after.header == Some(if FaultSuppressed(build, h) then Standing(h) else FaultHeader(build, h))
    && FaultRecorded(build, h, f, faultAction, net, before, after)
  }

  /** The fault is recorded unless faults are suppressed or their endpoint cannot be
      reached, and goes out over a new connection if one was made. */
  predicate FaultRecorded(build: Build, h: Header, f: Fault, faultAction: Option<string>, net: seq<NetEvent>,
                          before: AnswerState, after: AnswerState)
  {
    if FaultSuppressed(build, h) then
      SameFault(before, after) && after.action == before.action && after.endpoint == before.endpoint
    else if net == [] then
      && after.fault == Some(f) && after.error == SOAP_FAULT
      && after.relayed == before.relayed && after.action == before.action && after.endpoint == before.endpoint
    else if FaultReached(net) then
      && after.fault == Some(f) && after.error == SOAP_FAULT
      && after.relayed && Some(after.endpoint) == FaultDestination(build, h)
      && after.action == Some(if faultAction.Some? then faultAction.value else FaultAction(build))
    else
      SameFault(before, after) && after.error == SOAP_STOP
  }

  lemma SuppressedIsRecorded(build: Build, h: Header, f: Fault, faultAction: Option<string>, before: AnswerState,
                             after: AnswerState)
    requires FaultSuppressed(build, h) && after == before.(header := Some(Standing(h)), error := after.error)
    ensures FaultTrace(build, h, [Accepted]) && FaultResult(build, h, f, faultAction, [Accepted], before, after)
  {
    hide FaultSuppressed;
  }

  lemma FaultIsRecorded(build: Build, h: Header, newheader: Header, f: Fault, faultAction: Option<string>,
                        net: seq<NetEvent>, before: AnswerState, after: AnswerState)
    requires !FaultSuppressed(build, h) && newheader == FaultHeader(build, h) && after.header == Some(newheader)
    requires if NeedsConnection(h, FaultTarget(h)) then
               && |net| == 2 && net[0] == Accepted && IsCall(net[1], newheader.to)
               && if net[1].ok then
                    && after.error == SOAP_FAULT && after.relayed && Some(after.endpoint) == newheader.to
                    && after.action == if faultAction.Some? then faultAction else newheader.action
                  else
                    after.error == SOAP_STOP && SameFault(before, after)
             else
               && net == [] && after.error == SOAP_FAULT
               && after.relayed == before.relayed && after.action == before.action && after.endpoint == before.endpoint
    requires after.error == SOAP_FAULT ==> after.fault == Some(f)
    ensures FaultTrace(build, h, net) && FaultResult(build, h, f, faultAction, net, before, after)
  {
    hide FaultAction, FaultSuppressed, NeedsConnection, FaultDestination, FaultTarget, TriedInTurn;
    assert newheader.to == FaultDestination(build, h) && newheader.action == Some(FaultAction(build));
  }

  /** Which header and error a context had before, and which header it has after,
      is not part of the record. */
  lemma RecordIgnores(build: Build, h: Header, f: Fault, faultAction: Option<string>, net: seq<NetEvent>,
                      before: AnswerState, after: AnswerState, after': AnswerState)
    requires FaultRecorded(build, h, f, faultAction, net, before, after) && after' == after.(header := None)
    ensures FaultRecorded(build, h, f, faultAction, net, before.(header := None, error := SOAP_OK), after')
  {
  }

  predicate SameFault(before: AnswerState, after: AnswerState) {
    after.fault == before.fault && after.relayed == before.relayed
  }

  /** A connection for a fault was asked for and made. */
  predicate FaultReached(net: seq<NetEvent>) { |net| == 2 && net[1].Connected? && net[1].ok }

  /** A fault passes for success exactly if it is suppressed and nothing is sent
      either way, in a context that reports no other error. */
  predicate Overlooked(build: Build, h: Header, datagram: bool, error: int) {
    build.Wsa200408? && FaultSuppressed(build, h) && datagram && error == SOAP_OK
  }

  /** The reply could not be relayed: the fault recorded instead. */
  predicate UnreachableFault(build: Build, h: Header, replyAction: Option<string>, net: seq<NetEvent>,
                             before: AnswerState, after: AnswerState)
  {
    && net != [] && net[0].Connected?
    && FaultRecorded(build, h, FaultOf(DestinationUnreachable), None, net[1..],
                     before.(action := replyAction, header := None, error := SOAP_OK), after)
  }

  /** The ReplyTo endpoint a request names. */
  function RequestReplyTo(build: Build, replyTo: Option<string>): Option<Endpoint> {
    if replyTo.Some? then Some(Endpoint(replyTo, None))
    else if build.Wsa2005? then None
    else Some(Endpoint(Some(AnonymousUri(build)), None))
  }

  /** The header of a request: only what is not addressing is left of the old one. */
  function RequestHeader(build: Build, h: Header, id: Option<string>, to: Option<string>, action: string): Header {
    Header(id, None, None, RequestReplyTo(build, None), None, if to.Some? then to else Some(AnonymousUri(build)),
           Some(action), h.appSequence, h.channel)
  }
}
