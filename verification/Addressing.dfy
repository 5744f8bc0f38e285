/** The WS-Addressing headers of wsaapi.c as values, and where a reply or a fault
    to a message with such a header has to go (section 3.4 of WS-Addressing 1.0 - Core). */
module Addressing {
  import opened AppSequence
  import opened Connections
  import opened CStrings
  import opened Options

  /** The two schema variants the library is built for here. */
  datatype Build = Wsa200408 | Wsa2005

  function AnonymousUri(build: Build): string {
    match build
    case Wsa200408 => ANONYMOUS_200408
    case Wsa2005 => ANONYMOUS_2005
  }

  function NoneUri(build: Build): string {
    match build
    case Wsa200408 => "addressing/none not supported"
    case Wsa2005 => "http://www.w3.org/2005/08/addressing/none"
  }

  function FaultAction(build: Build): string {
    match build
    case Wsa200408 => "http://schemas.xmlsoap.org/ws/2004/08/addressing/fault"
    case Wsa2005 => "http://www.w3.org/2005/08/addressing/soap/fault"
  }

  const XMLSOAP := "http://schemas." + "xmlsoap.org/ws/"
  const ANONYMOUS_200403 := XMLSOAP + "2004/03/addressing" + "/role/anonymous"
  const ANONYMOUS_200408 := XMLSOAP + "2004/08/addressing" + "/role/anonymous"
  const ANONYMOUS_2005 := "http://www.w3.org/" + "2005/08/addressing" + "/anonymous"

  /** The anonymous addresses of all schemas: a reply to one of these goes back
      over the connection the request came from. */
  const ANONYMOUS_WORDS := [ANONYMOUS_200403, ANONYMOUS_200408, ANONYMOUS_2005]

  predicate IsAnonymous(address: Option<string>) {
    address.Some? && TagSearch(Join(ANONYMOUS_WORDS), address.value)
  }

  lemma WordOfThree(a: string, b: string, c: string)
    requires ' ' !in a && ' ' !in b && ' ' !in c && c != "" && c[|c| - 1] != ':'
    ensures IsWord(a + b + c)
  {
    var w := a + b + c;
    assert w[|w| - 1] == c[|c| - 1];
  }

  lemma AnonymousAreWords()
    ensures AllWords(ANONYMOUS_WORDS)
  {
    XmlsoapIsWord("2004/03/addressing");
    XmlsoapIsWord("2004/08/addressing");
    WordOfThree("http://www.w3.org/", "2005/08/addressing", "/anonymous");
  }

  lemma XmlsoapIsWord(schema: string)
    requires ' ' !in schema
    ensures IsWord(XMLSOAP + schema + "/role/anonymous")
  {
    assert ' ' !in XMLSOAP;
    WordOfThree(XMLSOAP, schema, "/role/anonymous");
  }

  /** What the search takes for anonymous, among all strings: one of the three
      URIs, or neighbours of the list joined by a blank. */
  lemma AnonymousUris(uri: string)
    ensures IsAnonymous(Some(uri)) <==>
            uri in ANONYMOUS_WORDS
                + [ANONYMOUS_200403 + " " + ANONYMOUS_200408, ANONYMOUS_200408 + " " + ANONYMOUS_2005,
                                      ANONYMOUS_200403 + " " + (ANONYMOUS_200408 + " " + ANONYMOUS_2005)]
    ensures ' ' !in uri ==> (IsAnonymous(Some(uri)) <==> uri in ANONYMOUS_WORDS)
  {
    AnonymousAreWords();
    AnonymousAreDistinct();
    SearchFindsRuns(ANONYMOUS_WORDS, uri);
    RunsOfThree(ANONYMOUS_200403, ANONYMOUS_200408, ANONYMOUS_2005, uri);
    BlankInside(ANONYMOUS_200403, ANONYMOUS_200408, ANONYMOUS_2005);
  }

  lemma BlankInside(a: string, b: string, c: string)
    ensures ' ' in a + " " + b && ' ' in b + " " + c && ' ' in a + " " + (b + " " + c)
  {
    assert (a + " " + b)[|a|] == ' ' && (b + " " + c)[|b|] == ' ' && (a + " " + (b + " " + c))[|a|] == ' ';
  }

  lemma AnonymousAreDistinct()
    ensures DistinctWords(ANONYMOUS_WORDS)
  {
    assert |XMLSOAP| == 30;
    assert ANONYMOUS_200403[36] == '3' && ANONYMOUS_200408[36] == '8';
    assert ANONYMOUS_200403[7] == 's' && ANONYMOUS_200408[7] == 's' && ANONYMOUS_2005[7] == 'w';
  }

  lemma NoneIsNotAnonymous(build: Build)
    ensures !IsAnonymous(Some(NoneUri(build)))
  {
    match build
    case Wsa200408 =>
      if IsAnonymous(Some(NoneUri(Wsa200408))) { AnonymousStarts(NoneUri(Wsa200408)); }
    case Wsa2005 =>
      NoneIsNoWord();
      WithoutBlanks(NoneUri(Wsa2005));
  }

  lemma NoneIsNoWord()
    ensures ' ' !in NoneUri(Wsa2005)
    ensures forall w | w in ANONYMOUS_WORDS :: w != NoneUri(Wsa2005)
  {
    assert |NoneUri(Wsa2005)| == 41 && |XMLSOAP| == 30;
    assert |ANONYMOUS_2005| == 46 && |ANONYMOUS_200403| > 50 && |ANONYMOUS_200408| > 50;
  }

  lemma WithoutBlanks(uri: string)
    requires ' ' !in uri
    ensures IsAnonymous(Some(uri)) <==> uri in ANONYMOUS_WORDS
  {
    AnonymousUris(uri);
  }

  lemma AnonymousStarts(uri: string)
    requires IsAnonymous(Some(uri))
    ensures uri != "" && uri[0] == 'h'
  {
    AnonymousUris(uri);
    var a, b, c := ANONYMOUS_200403, ANONYMOUS_200408, ANONYMOUS_2005;
    assert a[0] == b[0] == c[0] == 'h';
    RunsStartAlike(a, b, c, uri, 'h');
  }

  lemma RunsStartAlike(a: string, b: string, c: string, t: string, k: char)
    requires a != "" && b != "" && c != "" && a[0] == b[0] == c[0] == k
    requires t in [a, b, c] + [a + " " + b, b + " " + c, a + " " + (b + " " + c)]
    ensures t != "" && t[0] == k
  {
    assert (a + " " + b)[0] == k && (b + " " + c)[0] == k && (a + " " + (b + " " + c))[0] == k;
  }

  lemma AnonymousIsAnonymous(build: Build)
    ensures IsAnonymous(Some(AnonymousUri(build)))
  {
    AnonymousAreWords();
    assert AnonymousUri(build) in ANONYMOUS_WORDS;
    WordIsAnonymous(AnonymousUri(build));
  }

  lemma WordIsAnonymous(uri: string)
    requires uri in ANONYMOUS_WORDS
    ensures IsAnonymous(Some(uri))
  {
    AnonymousUris(uri);
  }

  // ---------------------------------------------------------------- the headers

  /** An endpoint reference: its address, and the WCF channel instance among its
      reference parameters. */
  datatype Endpoint = Endpoint(address: Option<string>, channel: Option<int>)

  datatype Channel = Channel(item: int, isReferenceParameter: bool)

  datatype Header = Header(messageID: Option<string>, relatesTo: Option<string>, from: Option<Endpoint>,
                           replyTo: Option<Endpoint>, faultTo: Option<Endpoint>, to: Option<string>,
                           action: Option<string>, appSequence: Option<Stamp>, channel: Option<Channel>)

  const DEFAULT_HEADER := Header(None, None, None, None, None, None, None, None, None)

  function Address(e: Option<Endpoint>): Option<string> { if e.Some? then e.value.address else None }

  /** The address of an endpoint other than the sender's own connection. */
  function Elsewhere(e: Option<Endpoint>): Option<string> {
    if Address(e).Some? && !IsAnonymous(Address(e)) then Address(e) else None
  }

  // ------------------------------------------------------------------- routing

  /** Where to answer when no other endpoint is named: the sender. */
  function Sender(build: Build, h: Header): Option<string> {
    if h.from.Some? then h.from.value.address else Some(AnonymousUri(build))
  }

  /** A reply goes to the ReplyTo endpoint if that is elsewhere, else to the sender. */
  function ReplyDestination(build: Build, h: Header): Option<string> {
    if Elsewhere(h.replyTo).Some? then Elsewhere(h.replyTo) else Sender(build, h)
  }

  /** A fault goes to the first of FaultTo and ReplyTo that is elsewhere, else to the sender. */
  function FaultDestination(build: Build, h: Header): Option<string> {
    if Elsewhere(h.faultTo).Some? then Elsewhere(h.faultTo)
    else if Elsewhere(h.replyTo).Some? then Elsewhere(h.replyTo)
    else Sender(build, h)
  }

  predicate ReplySuppressed(build: Build, h: Header) { Address(h.replyTo) == Some(NoneUri(build)) }

  /** The endpoint a fault is meant for: FaultTo, or ReplyTo's address in its place
      where FaultTo is missing or anonymous. */
  function FaultTarget(h: Header): Option<Endpoint> {
    if h.replyTo.Some? && (h.faultTo.None? || IsAnonymous(h.faultTo.value.address)) then
      var e := if h.faultTo.Some? then h.faultTo.value else Endpoint(None, None);
      Some(e.(address := h.replyTo.value.address))
    else h.faultTo
  }

  /** The fault code compares this address without a test for NULL. */
  predicate FaultAddressed(h: Header) { FaultTarget(h).Some? ==> FaultTarget(h).value.address.Some? }

  /** What that takes: a FaultTo has an address, and a ReplyTo without one is
      covered by a FaultTo elsewhere. */
  lemma AddressedExactly(h: Header)
    ensures FaultAddressed(h) <==>
            && (h.faultTo.Some? ==> Address(h.faultTo).Some?)
            && (h.replyTo.Some? && Address(h.replyTo).None? ==> Elsewhere(h.faultTo).Some?)
    ensures !FaultAddressed(DEFAULT_HEADER.(faultTo := Some(Endpoint(None, None))))
  {
  }

  predicate FaultSuppressed(build: Build, h: Header) { Address(FaultTarget(h)) == Some(NoneUri(build)) }

  /** An answer needs a connection of its own if it goes elsewhere and the sender
      is not there. */
  predicate NeedsConnection(h: Header, target: Option<Endpoint>) {
    Elsewhere(target).Some? && Address(h.from) != Elsewhere(target)
  }

  /** The two readings of the fault rules agree: after ReplyTo has stood in for
      FaultTo, the target is elsewhere exactly when one of the two was. */
  lemma FaultTargetIsFirstElsewhere(build: Build, h: Header)
    requires FaultAddressed(h)
    ensures FaultDestination(build, h) == if Elsewhere(FaultTarget(h)).Some? then Elsewhere(FaultTarget(h))
            else Sender(build, h)
  {
  }

  // ------------------------------------------------------------ rebuilt headers

  function OldHeader(h: Option<Header>): Header { if h.Some? then h.value else DEFAULT_HEADER }

  /** The header of a reply: everything outside WS-Addressing is kept. */
  function ReplyHeader(build: Build, h: Header, id: Option<string>, action: Option<string>): Header {
    Header(id, h.messageID, None, None, None, ReplyDestination(build, h), action, h.appSequence,
           ReplyChannel(build, h))
  }

  function ReplyChannel(build: Build, h: Header): Option<Channel> {
    if build.Wsa2005? && h.replyTo.Some? && h.replyTo.value.channel.Some?
    then Some(Channel(h.replyTo.value.channel.value, true))
    else h.channel
  }

  /** The header of a fault: nothing but the relation to the request is kept. */
  function FaultHeader(build: Build, h: Header): Header {
    DEFAULT_HEADER.(relatesTo := h.messageID, action := Some(FaultAction(build)), to := FaultDestination(build, h))
  }

  // ------------------------------------------------------------- on the network

  /** Calls of `soap_connect`. */
  function Calls(net: seq<NetEvent>): nat {
    if net == [] then 0 else (if net[0].Connected? then 1 else 0) + Calls(net[1..])
  }

  /** Endpoints tried by these calls. */
  function Tries(net: seq<NetEvent>): nat {
    if net == [] then 0 else (if net[0].Connected? then |net[0].tried| else 0) + Tries(net[1..])
  }

  /** What issuing a fault for a request with header `h` does on the network. */
  predicate FaultTrace(build: Build, h: Header, net: seq<NetEvent>) {
    if FaultSuppressed(build, h) then net == [Accepted]
    else if NeedsConnection(h, FaultTarget(h)) then
      |net| == 2 && net[0] == Accepted && IsCall(net[1], FaultDestination(build, h))
    else net == []
  }

  /** What preparing a reply does on the network and to the outgoing header.
      `canCopy` is whether the context can be copied to keep the current connection
      aside, and `live` whether there is one. */
  predicate ReplyOutcome(build: Build, h: Header, id: Option<string>, action: Option<string>, canCopy: bool, live: bool,
                         net: seq<NetEvent>, result: Option<Header>)
  {
    if ReplySuppressed(build, h) then
      result == None && net == [Accepted]
    else if NeedsConnection(h, h.replyTo) && canCopy then
      && net != [] && IsCall(net[0], ReplyDestination(build, h))
      && if net[0].ok then
           result == Some(ReplyHeader(build, h, id, action)) && net[1..] == if live then [Accepted] else []
         else
           result == None && FaultTrace(build, h, net[1..])
    else
      result == Some(ReplyHeader(build, h, id, action)) && net == []
  }

  lemma NoEvents()
    ensures Calls([]) == 0 && Tries([]) == 0
  {
  }

  lemma OneEvent(e: NetEvent, rest: seq<NetEvent>)
    ensures Calls([e] + rest) == (if e.Connected? then 1 else 0) + Calls(rest)
    ensures Tries([e] + rest) == (if e.Connected? then |e.tried| else 0) + Tries(rest)
  {
    assert ([e] + rest)[1..] == rest;
  }

  lemma CallTries(e: NetEvent, to: Option<string>)
    requires IsCall(e, to)
    ensures e.Connected? && 1 <= |e.tried| <= EndpointCount(to)
  {
    hide EndpointsOf;
  }

  lemma FaultCalls(build: Build, h: Header, net: seq<NetEvent>)
    requires FaultTrace(build, h, net)
    ensures Calls(net) <= 1 && Tries(net) <= EndpointCount(FaultDestination(build, h))
    ensures Calls(net) == 1 ==> |net| == 2 && net[0] == Accepted && IsCall(net[1], FaultDestination(build, h))
    ensures Calls(net) == 0 ==> Tries(net) == 0
    ensures Calls(net) <= Tries(net)
  {
    hide FaultSuppressed, NeedsConnection, FaultDestination, EndpointCount, IsCall, Calls, Tries;
    NoEvents();
    if |net| == 2 {
      CallTries(net[1], FaultDestination(build, h));
      assert net == [net[0]] + ([net[1]] + []);
      OneEvent(net[0], [net[1]] + []);
      OneEvent(net[1], []);
    } else if |net| == 1 {
      assert net == [net[0]] + [];
      OneEvent(net[0], []);
    }
  }

  function EndpointCount(to: Option<string>): nat { if to.Some? then |EndpointsOf(to.value)| else 0 }

  /** Preparing a reply calls for a connection at most twice: a second time, for where
      faults go, only after the first call, for where the reply goes, has failed. Each
      call tries every endpoint of its address at most once, and exactly the one
      endpoint of an address without blanks. */
  lemma AtMostTwoCalls(build: Build, h: Header, id: Option<string>, action: Option<string>, canCopy: bool, live: bool,
                       net: seq<NetEvent>, result: Option<Header>)
    requires ReplyOutcome(build, h, id, action, canCopy, live, net, result)
    ensures Calls(net) <= 2
    ensures Calls(net) == 2 ==>
              && |net| == 3 && IsCall(net[0], ReplyDestination(build, h)) && !net[0].ok
              && net[1] == Accepted && IsCall(net[2], FaultDestination(build, h))
    ensures Tries(net) <= EndpointCount(ReplyDestination(build, h)) + EndpointCount(FaultDestination(build, h))
    ensures EndpointCount(ReplyDestination(build, h)) <= 1 && EndpointCount(FaultDestination(build, h)) <= 1 ==>
              Tries(net) == Calls(net)
  {
    hide ReplySuppressed, FaultSuppressed, NeedsConnection, FaultDestination, ReplyDestination, FaultTrace, ReplyHeader,
         TriedInTurn;
    if net != [] {
      if net[0].Connected? { CallTries(net[0], ReplyDestination(build, h)); }
      var rest := net[1..];
      assert net == [net[0]] + rest;
      OneEvent(net[0], rest);
      if net[0].Connected? && !net[0].ok {
        FaultCalls(build, h, rest);
      } else if rest != [] {
        assert rest == [Accepted] + [];
        OneEvent(Accepted, []);
      }
    }
  }

  lemma BlankFreeIsOne(to: Option<string>)
    requires to.Some? ==> ' ' !in to.value
    ensures EndpointCount(to) <= 1
  {
    if to.Some? { OneEndpoint(to.value); }
  }

  // ------------------------------------------------ where the next message goes

  /** Where messages go once a fault has been issued for a request with header `h`. */
  function AfterFault(build: Build, h: Header, net: seq<NetEvent>, t: Transport): Transport {
    if FaultSuppressed(build, h) then Closing(t)
    else if |net| == 2 && net[1].Connected? then AfterCall(Closing(t), net[1].tried, net[1].ok)
    else t
  }

  /** Where messages go once a reply has been prepared: a call for ReplyTo leaves the
      connection of the request alone, which is taken up again should the call fail. */
  function AfterReply(build: Build, h: Header, canCopy: bool, net: seq<NetEvent>, t: Transport): Transport {
    if ReplySuppressed(build, h) then Closing(t)
    else if NeedsConnection(h, h.replyTo) && canCopy && net != [] && net[0].Connected? then
      if net[0].ok then AfterCall(t.(connection := NoConnection), net[0].tried, true)
      else AfterFault(build, h, net[1..], t)
    else t
  }
}
