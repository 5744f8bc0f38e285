/** The connections of a context: the endpoints an address names, what trying them
    does, and where a message that is sent next goes. */
module Connections {
  import opened Constants
  import opened CStrings
  import opened Options

  // ---------------------------------------------------------------- endpoints

  function SkipSpaces(t: string): (r: string)
    ensures |r| <= |t| && (t != "" && t[0] == ' ' ==> |r| < |t|)
  {
    if t != "" && t[0] == ' ' then SkipSpaces(t[1..]) else t
  }

  /** The blank-separated endpoints of an address. */
  function EndpointsOf(to: string): (es: seq<string>)
    ensures es != []
    decreases |to|
  {
    var e := FirstWord(to);
    if |e| == |to| then [to] else [e] + EndpointsOf(SkipSpaces(to[|e|..]))
  }

  lemma OneEndpoint(to: string)
    requires ' ' !in to
    ensures EndpointsOf(to) == [to]
  {
    assert to + "" == to;
    FirstWordOf(to, "");
  }

  predicate AllBlanks(t: string) { forall c | c in t :: c == ' ' }

  lemma {:induction false} SpacesSkipped(blanks: string, rest: string)
    requires AllBlanks(blanks) && (rest == "" || rest[0] != ' ')
    ensures SkipSpaces(blanks + rest) == rest
  {
    if blanks == "" {
      assert blanks + rest == rest;
    } else {
      assert blanks[0] in blanks && (blanks + rest)[1..] == blanks[1..] + rest;
      assert forall c | c in blanks[1..] :: c in blanks;
      SpacesSkipped(blanks[1..], rest);
    }
  }

  /** Any number of blanks ends an endpoint; without blanks the address is its one
      endpoint (`OneEndpoint`). Together the two determine the endpoints of any address. */
  lemma EndpointsSplit(e: string, blanks: string, rest: string)
    requires ' ' !in e && blanks != "" && AllBlanks(blanks) && (rest == "" || rest[0] != ' ')
    ensures EndpointsOf(e + blanks + rest) == [e] + EndpointsOf(rest)
  {
    var to := e + (blanks + rest);
    assert to == e + blanks + rest && blanks[0] in blanks;
    FirstWordOf(e, blanks + rest);
    assert to[|e|..] == blanks + rest;
    SpacesSkipped(blanks, rest);
  }

  /** The endpoint takes datagrams, not a stream. */
  predicate IsDatagram(e: string) { "soap.udp:" <= e }

  /** What `soap_set_endpoint` looks for the host in. */
  function Authority(e: string): string {
    match StrChr(e, ':')
    case Some(t) => if |t| >= 3 && t[1] == '/' && t[2] == '/' then t[3..] else e
    case None => e
  }

  /** An endpoint without a host is taken over, but no connection is opened. */
  predicate HasHost(e: string) {
    var s := Authority(e);
    s != "" && s[0] != '/' && s[0] != ':'
  }

  /** Of an address of the form scheme://rest exactly those with the scheme "soap.udp"
      are for datagrams, and the rest tells whether there is a host. */
  lemma SchemeAndHost(scheme: string, rest: string)
    requires ':' !in scheme
    ensures IsDatagram(scheme + ("://" + rest)) <==> scheme == "soap.udp"
    ensures HasHost(scheme + ("://" + rest)) <==> rest != "" && rest[0] != '/' && rest[0] != ':'
  {
    var e, udp := scheme + ("://" + rest), "soap.udp:";
    StrChrSkips(scheme, "://" + rest, ':');
    assert ("://" + rest)[3..] == rest;
    assert e[|scheme|] == ':' && e[..|scheme|] == scheme;
    if IsDatagram(e) {
      assert e[..9] == udp;
      FirstColon(scheme, "://" + rest, "soap.udp", e[8..]);
    }
  }

  /** Two ways to split a text at its first colon are the same. */
  lemma FirstColon(a: string, b: string, c: string, d: string)
    requires a + b == c + d && ':' !in a && ':' !in c && b != "" && b[0] == ':' && d != "" && d[0] == ':'
    ensures a == c
  {
    assert (a + b)[|a|] == ':' && (c + d)[|c|] == ':';
    assert forall i | 0 <= i < |a| :: (a + b)[i] == a[i];
    assert forall i | 0 <= i < |c| :: (c + d)[i] == c[i];
    assert a == (a + b)[..|a|] && c == (c + d)[..|c|];
  }

  // --------------------------------------------------------------- the network

  datatype Try = Try(endpoint: string, code: int)

  /** What is done with connections: a call of `soap_connect`, with the endpoints it
      tried, or an empty "accepted" response on the current connection. */
  datatype NetEvent = Connected(endpoint: string, tried: seq<Try>, ok: bool) | Accepted

  /** The endpoints are tried in turn, until one does not fail with a TCP error. */
  predicate TriedInTurn(endpoints: seq<string>, tried: seq<Try>) {
    && 0 < |tried| <= |endpoints|
    && (forall i | 0 <= i < |tried| :: tried[i].endpoint == endpoints[i])
    && (forall i | 0 <= i < |tried| - 1 :: tried[i].code == SOAP_TCP_ERROR)
    && (tried[|tried| - 1].code == SOAP_TCP_ERROR ==> |tried| == |endpoints|)
  }

  /** A call of `soap_connect` for the address, which succeeds if its last try does. */
  predicate IsCall(e: NetEvent, to: Option<string>) {
    && e.Connected? && Some(e.endpoint) == to && e.tried != [] && TriedInTurn(EndpointsOf(e.endpoint), e.tried)
    && (e.ok <==> e.tried[|e.tried| - 1].code == SOAP_OK)
  }

  /** `tried` is what has been tried of the address so far, up to the first endpoint
      of `rest`, and nothing but TCP errors has come before. */
  predicate TriedUpTo(to: string, rest: string, tried: seq<Try>) {
    && 0 < |tried| <= |EndpointsOf(to)| && EndpointsOf(to)[|tried| - 1..] == EndpointsOf(rest)
    && (forall i | 0 <= i < |tried| :: tried[i].endpoint == EndpointsOf(to)[i])
    && (forall i | 0 <= i < |tried| - 1 :: tried[i].code == SOAP_TCP_ERROR)
  }

  lemma FirstEndpoint(to: string)
    ensures EndpointsOf(to)[0] == FirstWord(to)
  {
  }

  lemma StartTrying(to: string, y: Try)
    requires y.endpoint == FirstWord(to)
    ensures TriedUpTo(to, to, [y])
  {
    FirstEndpoint(to);
    assert EndpointsOf(to)[0..] == EndpointsOf(to);
  }

  lemma GoOnTrying(to: string, rest: string, tried: seq<Try>, next: string, y: Try)
    requires TriedUpTo(to, rest, tried) && tried[|tried| - 1].code == SOAP_TCP_ERROR && |FirstWord(rest)| < |rest|
    requires next == SkipSpaces(rest[|FirstWord(rest)|..]) && y.endpoint == FirstWord(next)
    ensures |next| < |rest| && TriedUpTo(to, next, tried + [y])
  {
    hide SkipSpaces, FirstWord;
    var es, n := EndpointsOf(to), |tried|;
    assert EndpointsOf(rest) == [FirstWord(rest)] + EndpointsOf(next);
    assert es[n - 1..][1..] == es[n..] == EndpointsOf(next);
    FirstEndpoint(next);
    assert es[n] == es[n..][0];
  }

  lemma StopTrying(to: string, rest: string, tried: seq<Try>)
    requires TriedUpTo(to, rest, tried)
    requires tried[|tried| - 1].code == SOAP_TCP_ERROR ==> |FirstWord(rest)| == |rest|
    ensures TriedInTurn(EndpointsOf(to), tried)
  {
    hide SkipSpaces, FirstWord;
    var es, n := EndpointsOf(to), |tried|;
    if tried[n - 1].code == SOAP_TCP_ERROR { assert |es[n - 1..]| == 1; }
  }

  function LastTried(tried: seq<Try>): string
    requires tried != []
  {
    tried[|tried| - 1].endpoint
  }

  // -------------------------------------------------- where the next message goes

  /** The peer of the context's socket. */
  datatype Connection = NoConnection | Incoming | Outgoing(endpoint: string)

  /** `listensOnDatagrams` is the kind of the bound socket and `listening` whether it
      is still open. `datagram` is the mode `SOAP_IO_UDP`, and `exchanged` whether the
      response callback has been replaced by `soap_wsa_response`. */
  datatype Transport = Transport(listensOnDatagrams: bool, listening: bool, datagram: bool, connection: Connection,
                                 exchanged: bool)

  /** A message can be accepted: from a listener over datagrams the bound socket itself
      is taken, and a stream listener is asked for a connection, if the mode says so. */
  predicate CanAccept(t: Transport) { t.listening && t.datagram == t.listensOnDatagrams }

  /** The connection is closed, unless it is for datagrams. */
  function Closing(t: Transport): Transport { if t.datagram then t else t.(connection := NoConnection) }

  /** One try. It closes the socket that it finds, which for a message accepted over
      datagrams is the bound one. */
  function AfterTry(t: Transport, y: Try): Transport {
    if !HasHost(y.endpoint) then t
    else t.(listening := t.listening && !(t.listensOnDatagrams && t.connection.Incoming?),
            datagram := IsDatagram(y.endpoint),
            connection := if y.code == SOAP_OK then Outgoing(y.endpoint) else NoConnection)
  }

  function AfterTries(t: Transport, tried: seq<Try>): Transport {
    if tried == [] then t else AfterTry(AfterTries(t, tried[..|tried| - 1]), tried[|tried| - 1])
  }

  lemma OneTry(t: Transport, y: Try)
    ensures AfterTries(t, [y]) == AfterTry(t, y)
  {
    assert [y][..0] == [];
    assert AfterTries(t, []) == t;
  }

  lemma OneMoreTry(t: Transport, tried: seq<Try>, y: Try)
    ensures AfterTries(t, tried + [y]) == AfterTry(AfterTries(t, tried), y)
  {
    assert (tried + [y])[..|tried|] == tried;
  }

  /** A call for an answer, which exchanges the callback if it succeeds. */
  function AfterCall(t: Transport, tried: seq<Try>, ok: bool): Transport {
    AfterTries(t, tried).(exchanged := t.exchanged || ok)
  }

  lemma {:induction false} TriesKeep(t: Transport, tried: seq<Try>)
    ensures AfterTries(t, tried).exchanged == t.exchanged
    ensures AfterTries(t, tried).listensOnDatagrams == t.listensOnDatagrams
    ensures AfterTries(t, tried).listening ==> t.listening
    ensures !t.connection.Incoming? ==> AfterTries(t, tried).listening == t.listening
    ensures !t.connection.Incoming? ==> !AfterTries(t, tried).connection.Incoming?
  {
    if tried == [] {
    } else {
      TriesKeep(t, tried[..|tried| - 1]);
    }
  }

  /** Tries that all fail leave no connection if there was none. */
  lemma {:induction false} FailedTriesLeaveNone(t: Transport, tried: seq<Try>)
    requires t.connection == NoConnection && forall y | y in tried :: y.code != SOAP_OK
    ensures AfterTries(t, tried).connection == NoConnection
  {
    if tried == [] {
    } else {
      FailedTriesLeaveNone(t, tried[..|tried| - 1]);
      assert tried[|tried| - 1] in tried;
    }
  }

  /** A message accepted over datagrams is given up only together with the bound socket. */
  lemma {:induction false} TriesClose(t: Transport, tried: seq<Try>)
    requires t.listensOnDatagrams && t.connection.Incoming?
    ensures AfterTries(t, tried).connection.Incoming? || !AfterTries(t, tried).listening
  {
    if tried == [] {
    } else {
      TriesKeep(t, tried[..|tried| - 1]);
      TriesClose(t, tried[..|tried| - 1]);
    }
  }
}
