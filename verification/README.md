# Verified model of the discovery and addressing core of the camera's ONVIF server

The repository's ONVIF server sits on a few hand-written pieces of gSOAP plug-in
code. This project models those pieces in Dafny and proves what they promise:

* `DurationSpec`, `DurationScan`, `DurationValue`, `DurationCodec`, `DurationRoundTrip`,
  `DurationExchange`, `DurationLanguage`, `DurationMeaning`, `DurationCanonical`: the
  xsd:duration printer and parser (section 3.2.6 of XML Schema Part 2: Datatypes), how they
  compose, which texts the parser accepts and what they are worth, and which of these are
  durations.
* `AppSequence`, `AppSequenceThreads`: the application sequence shared by all
  senders (section 7 of WS-Discovery 1.1), first as a history of atomic
  operations, then as separate memory accesses of many threads under one lock.
* `MatchArray`: the growable array of probe matches, whose capacity is never stored.
* `Addressing`, `SoapContext`, `Conversation`: where replies and faults go, how request,
  reply and fault headers are built (section 3.4 of WS-Addressing 1.0 - Core), and what
  the addresses in a request make the other side do.
* `Connections`: what an address names, what trying it does to a context, and where the
  next message goes.
* `Discovery`, `ProbeService`, `ProbeRuns`, `ProbeExchange`: the headers of the outbound
  messages, what becomes of one Probe and of a run of Probes in one context, and a managed
  Probe from the client's call to its match handler.
* `Uuid`: the random UUID text and its generator (section 4.4 of RFC 4122).
* `LazyMutex`, `CondVar`: the emulated mutex and condition variable, as
  interleaved steps of any number of threads.
* `Alignment`: the alignment macros.
* `Bitwise`, `Digits`, `CStrings`, `Options`, `Constants`: two's-complement bit operations,
  digit strings, string searches, optional values and constants used by the others.

Code that updates state is modelled by methods on classes or arrays, proved against
functions on values; the properties are lemmas about those functions. The threads are
step relations, with an invariant proved for every state of every run.

What the code gets from elsewhere appears as a parameter or a free choice:
`sscanf("%g")` is the function `readFloat`; memory (`available`, `canCopy`), the clock
and random words, and the decisions of the application's handlers (`Handling`) are
parameters; how each try of `soap_connect` ends is a free choice recorded in the trace
`net`. `Build` selects the WS-Addressing schema; the shipped configuration is `Wsa200408`
(application/onvifSrv/soapStub.h:15).

## Results that differ from what the code's comments say

* duration.c announces millisecond resolution, but the fraction is read into a
  single-precision `float` and then truncated. `ExactlyWhatSurvives` gives the exact
  condition under which a duration is read back unchanged, and
  `FiveMillisecondsBecomeFour` the smallest case in which it is not. Whole seconds
  always survive.
* The parser accepts more than the lexical form of xsd:duration. `AcceptedLanguage` gives
  the accepted texts exactly: blanks and signs before every number, any order, repetitions,
  empty parts, and anything behind a readable fraction. `ExactlyTheDurations` says which of
  them are durations, by a condition on the text; `AcceptedButNoDuration` gives two that are not.
* The UUID generator does stick: `SticksExactlyAt` shows that 248996806 is the one state in
  [0, 2^28) that a draw leaves unchanged.
* The anonymous address is searched for in a list of three URIs joined by blanks. Besides the
  three, neighbours of the list joined by a blank are taken for anonymous as well
  (`AnonymousUris`).
* A message without an addressing action is not always refused: with the 2004/08 schema,
  over datagrams, the fault is suppressed together with the refusal if faults go to the
  'none' address (`SoapContext.Soap.Check`), and a Probe is then answered (`ServeProbe`).
* The alignment macros state no precondition; `ExactlyPowersOfTwo` shows that they do
  what their names say for all arguments exactly if the alignment is a power of two.
* Message numbers are 32 bits wide: stamps are pairwise distinct exactly as long as no
  epoch takes more than 2^32 of them (`DistinctExactlyWhenEpochsFit`).
* wsaapi.c promises to relay a reply to the ReplyTo address. It exchanges the response
  callback for one that asks for a plug-in that nothing registers, and never sets it back.
  So an answer relayed to a stream endpoint is refused when it is sent (`RelayedExactly`,
  `OnlyDatagramRepliesAreSent`); only a "soap.udp:" endpoint gets it. After that a stream listener
  answers no Probe in place any more (`AnsweredExactly`, `NoAnswerAfterRelay`), and a
  datagram listener, whose mode the relay has changed, hears none (`WebReplyEndsDiscovery`).
* The result of preparing a reply is ignored by the Probe handler, so after a failed
  relay, or with the 'none' address, it sends an answer without a header: over the Probe's
  connection, where the fault went, or nowhere (`ProbeService.ServedRight`).

## Model

| member | source | states |
|---|---|---|
| DurationCodec.Converter.Duration2s | application/onvifSrv/duration.c:71-108 | for every count but the minimum, the 1024-byte buffer afterwards holds the NUL-terminated text `Text(a)`, with every write in bounds and no 64-bit overflow |
| DurationCodec.Converter.S2Duration | application/onvifSrv/duration.c:117-190 | returns the total of the reading that the grammar `Parse` gives the text; a text without a reading sets `SOAP_TYPE` and leaves 0; a missing text leaves 0 and the error as it was; every number scanned on the way, kept or not, fits its 64-bit variable; the total is the sum of the items in their units and of the milliseconds of the fraction, negative exactly if the text begins with a minus sign |
| DurationCodec.Converter.DatePart | application/onvifSrv/duration.c:128-155 | the first loop accepts exactly the date parts of the grammar, ends on the right cursor, and keeps the last number of each of Y, M, D |
| DurationCodec.Converter.TimePart | application/onvifSrv/duration.c:156-185 | the second loop likewise for H, M, S and the fraction, which ends the scan |
| DurationCodec.Combine | application/onvifSrv/duration.c:186-187 | the nested multiply-and-add in 64-bit arithmetic gives the sum of the numbers times the milliseconds in their units, and of the truncated milliseconds of the fraction, times the sign, with no intermediate overflow |
| DurationValue.ValueIsSum | application/onvifSrv/duration.c:128-187 | the value of every accepted text, items in any order, signed or repeated: the sum of each item in its unit, the last of several for a designator, plus the milliseconds of the fraction, and negative exactly if the text begins with a minus sign |
| DurationValue.MinusNegates | application/onvifSrv/duration.c:121-124 | a minus sign in front of any accepted text without one gives an accepted text with the negated value |
| DurationScan.CursorLands | application/onvifSrv/duration.c:136-138 | after a number and a designator are scanned, searching for the designator finds exactly the place after the number |
| DurationScan.SplitInSteps | application/onvifSrv/duration.c:83-90 | the step-by-step divisions give the mixed-radix digits of the count |
| DurationScan.SplitRecombines | application/onvifSrv/duration.c:83-90 | the digits are in range and recombine to the count |
| DurationRoundTrip.TextReads | application/onvifSrv/duration.c:71-190 | every printed text is accepted and lists exactly the parts printed, in order |
| DurationRoundTrip.WholeSecondsSurvive | application/onvifSrv/duration.c:71-190 | a count divisible by 1000 is read back exactly, whatever the C library makes of fractions, and no intermediate result exceeds it in magnitude |
| DurationRoundTrip.MillisecondsNearlySurvive | application/onvifSrv/duration.c:96-97 | if fractions are read with relative error at most 2^-24, every count is read back with the same sign or as zero, at most one millisecond short and never larger |
| DurationRoundTrip.ExactlyWhatSurvives | application/onvifSrv/duration.c:172-187 | with correct rounding to single precision, a count is read back unchanged if and only if the scaled fraction modulo 125 is 0 or at least 63, and otherwise loses exactly one millisecond |
| DurationRoundTrip.FiveMillisecondsBecomeFour | application/onvifSrv/duration.c:172-187 | 5 ms print as PT0H0M0.005S and are read back as 4 ms |
| DurationRoundTrip.NearestIsClose | application/onvifSrv/duration.c:174 | correct rounding has relative error at most 2^-24 on every printed fraction |
| DurationRoundTrip.ReadsBackFits | application/onvifSrv/duration.c:131-187 | a text that was printed and is read back meets the parser's preconditions: no number scanned and no intermediate result overflows |
| DurationRoundTrip.NearestCanBeRead | application/onvifSrv/duration.c:174 | the assumption of correct rounding to single precision can be met |
| DurationExchange.PrintAndParse | application/onvifSrv/duration.c:71-190 | printing into the buffer and parsing what it holds gives back every count but the minimum: exactly for whole seconds, whatever the library makes of fractions, and otherwise exactly what survives correct rounding |
| DurationRoundTrip.ExactReadingRecovers | application/onvifSrv/duration.c:83-107 | read with exact decimals, the text gives back the count, milliseconds included |
| DurationRoundTrip.TextIsInjective | application/onvifSrv/duration.c:83-107 | distinct counts print differently |
| DurationRoundTrip.RenderedReads | application/onvifSrv/duration.c:128-185 | parsing inverts rendering for every list of date items and time items, in every order and with repetitions |
| DurationMeaning.OrderIsIrrelevant | application/onvifSrv/duration.c:129-187 | accepted texts that list the same items, each designator once, in any order have the same value |
| DurationLanguage.WrittenIsAccepted | application/onvifSrv/duration.c:117-190 | every text made of a sign, P, numbers with Y, M, D and, after a T, numbers with H, M, S and a readable fraction is accepted and lists its numbers; each number may have blanks and a sign |
| DurationLanguage.AcceptedIsWritten | application/onvifSrv/duration.c:117-190 | every accepted text is of that form: taking it apart and writing it out again gives the same text |
| DurationLanguage.AcceptedLanguage | application/onvifSrv/duration.c:117-190 | the accepted language: a text is accepted if and only if it is of that form |
| DurationMeaning.EarlierNumberIsIgnored | application/onvifSrv/duration.c:141-182 | any number whose designator comes again later in its part can be taken out of an accepted text without changing the value |
| DurationMeaning.FixedCalendar | application/onvifSrv/duration.c:13-16 | n months read as 30n days and n years as 12n months, for every n |
| DurationMeaning.MinutesAfterT | application/onvifSrv/duration.c:156-171 | after a T the letter M counts minutes |
| DurationMeaning.TextIsDuration | application/onvifSrv/duration.c:5 | every printed text has the lexical form of xsd:duration, at most 29 characters and at most 106751991167 days |
| DurationMeaning.DurationsAreAccepted | application/onvifSrv/duration.c:117-190 | every text of the lexical form whose fraction the library reads is accepted, with the value of the fixed calendar plus the fraction cut to milliseconds, negated exactly if the duration is negative |
| DurationCanonical.DurationIsCanonical | application/onvifSrv/duration.c:5 | every xsd:duration, accepted or not, is in canonical form: no blank and no sign after the P, letters in order and each at most once, at least one of them, none of them a dangling T, and digits and a final S behind a decimal point |
| DurationCanonical.ExactlyTheDurations | application/onvifSrv/duration.c:117-190 | an accepted text is an xsd:duration if and only if it is in canonical form, which can be read off the text before it is parsed |
| DurationCanonical.AcceptedButNoDuration | application/onvifSrv/duration.c:126-157 | P and P-5D are accepted, as nothing and as minus five days, and are no durations |
| LazyMutex.InvStep | application/onvifSrv/threads.c:63-74 | every step of every thread keeps the account of handles, the single handle in use and the owner, and never changes an installed handle; it also keeps that past the test, the creation and the exchange there is a handle, unless some creation has returned NULL |
| LazyMutex.InstalledForGood | application/onvifSrv/threads.c:69 | in every run the slot changes from NULL at most once |
| LazyMutex.OneHandleForAll | application/onvifSrv/threads.c:73 | all threads that ever wait for or hold the mutex use the same handle |
| LazyMutex.MutualExclusion | application/onvifSrv/threads.c:73 | at most one thread holds the mutex |
| LazyMutex.HandlesConserved | application/onvifSrv/threads.c:67-70 | the open handles are the installed one plus one per thread still carrying its own |
| LazyMutex.QuiescentMeansOneHandle | application/onvifSrv/threads.c:69-70 | once no thread is about to install or close a handle, only the installed one is open |
| LazyMutex.WaitsOnHandle | application/onvifSrv/threads.c:65-73 | in every run in which no creation has returned NULL, a thread about to read the slot finds a handle there, and every wait is on the installed handle |
| LazyMutex.CanLock | application/onvifSrv/threads.c:63-74 | from every state of a run in which nobody owns the mutex, a thread can go on to hold it without help, wherever it stands, unless it carries on after a creation that returned NULL |
| LazyMutex.UnlockFrees | application/onvifSrv/threads.h:114 | unlocking leaves the mutex without an owner |
| CondVar.InvStep | application/onvifSrv/threads.c:93-129 | every step keeps the counter, the critical section, the mutex and the balance of signals right |
| CondVar.CounterIsExact | application/onvifSrv/threads.c:111-124 | in every run the counter equals the threads between increment and decrement plus the failed waits if and only if these fit 32 bits, and then a decrement never underflows |
| CondVar.SignallerDecides | application/onvifSrv/threads.c:97-101 | a signaller decides to set the event if and only if some thread is waiting, or has failed to wait, when it reads the counter |
| CondVar.SignallerSeesWaiter | application/onvifSrv/threads.c:97-101 | a signaller that reads the counter while a thread is waiting decides to set the event |
| CondVar.HolderSeesEveryWaiter | application/onvifSrv/threads.c:97-117 | a signaller that holds the mutex sees every thread that has called the wait function and has neither been woken nor failed, however far that thread has come |
| CondVar.EventRises | application/onvifSrv/threads.c:97-102 | in every run the event rises only by a signaller that has itself read a positive counter before |
| CondVar.SignalIsSet | application/onvifSrv/threads.c:101-104 | a signaller that has seen a waiter leaves the event set unless setting it fails, and one that has seen none leaves it as it was |
| CondVar.SignalPersists | application/onvifSrv/threads.c:102 | once the event is set, it stays set until a waiter has been woken |
| CondVar.SignalsAreConserved | application/onvifSrv/threads.c:102-117 | in every run the event was set once per wakeup, plus once if it is still set |
| CondVar.WaiterReturnsWithMutex | application/onvifSrv/threads.c:125-128 | a successful wait returns as the only holder of the mutex |
| CondVar.CanWaitAndSignal | application/onvifSrv/threads.c:93-129 | from every state of a run in which a thread holds the mutex, the critical section is free and the event unset, it can wait, another thread can signal, with the mutex or without, and the first return with the mutex, leaving everything as it was |
| AppSequence.SharedState.SetInstanceId | application/onvifSrv/wsddapi.c:1504-1511 | sets the id, restarts the numbers, keeps the sequence id, and extends the history by exactly that |
| AppSequence.SharedState.SetSequenceId | application/onvifSrv/wsddapi.c:1518-1527 | likewise for the sequence id, keeping the instance id |
| AppSequence.SharedState.Take | application/onvifSrv/wsddapi.c:1543-1547 | hands out the three variables, which is the stamp the history leads to, increments the number modulo 2^32, and extends the history by the stamp |
| AppSequence.NumberIsCount | application/onvifSrv/wsddapi.c:394-398 | the next number is one more than the stamps since the last reset, modulo 2^32 |
| AppSequence.StampsAreNumbered | application/onvifSrv/wsddapi.c:1546 | the n-th stamp since a reset carries n: no gap, no repetition |
| AppSequence.EpochsDiffer | application/onvifSrv/wsddapi.c:1504-1527 | stamps from different epochs differ in instance id or sequence id, if every reset brings a new one |
| AppSequence.DistinctExactlyWhenEpochsFit | application/onvifSrv/wsddapi.c:1504-1547 | the stamps of a history are pairwise distinct if and only if no epoch takes more than 2^32 |
| AppSequenceThreads.InterleavingsAreAtomic | application/onvifSrv/wsddapi.c:1504-1547 | every interleaving of the separate reads and writes under the lock yields a history of atomic operations |
| AppSequenceThreads.DeliveredStampsAreDistinct | application/onvifSrv/wsddapi.c:1533-1548 | so in every interleaving the delivered stamps are pairwise distinct exactly when the epochs fit |
| AppSequenceThreads.OnlyWhatWasAsked | application/onvifSrv/wsddapi.c:1504-1547 | in every run a thread completes the operation it was called for and no other |
| AppSequenceThreads.CanComplete | application/onvifSrv/wsddapi.c:1504-1547 | in every run a thread that finds the lock free, or has it, can complete its operation without help, and exactly this operation is added to the history |
| MatchArray.ProbeMatches.Add | application/onvifSrv/wsddapi.c:769-812 | appends one entry with the endpoint, types, addresses and version passed in, and with scopes and their matching rule exactly if scopes are given; the entries before it are unchanged and every write is in bounds; growth happens exactly when the array is full; without memory nothing changes and `SOAP_EOM` is returned; a replaced array is left as it was |
| MatchArray.WriteEntry | application/onvifSrv/wsddapi.c:793-809 | fills the members of the new entry from the arguments, and no other entry |
| MatchArray.CapacityIsLeast | application/onvifSrv/wsddapi.c:774-778 | the implicit capacity is the least power of two that holds the entries and at least four |
| MatchArray.FullMeansNoRoom | application/onvifSrv/wsddapi.c:777 | the bit test holds exactly when the size equals the capacity |
| MatchArray.CapacityGrows | application/onvifSrv/wsddapi.c:774-778 | one more entry needs twice the room exactly when the bit test holds |
| MatchArray.CostIsCapacity | application/onvifSrv/wsddapi.c:780-789 | n adds copy capacity - 4 old entries and request 2 * capacity - 4 slots in total |
| MatchArray.LinearCost | application/onvifSrv/wsddapi.c:780-789 | n adds copy fewer than 2n old entries and request at most 4n slots |
| CStrings.SearchIsGreedy | application/onvifSrv/stdsoap2.c:9203-9224 | for every list of words and every text, the search through the joined list is a search in terms of words: a run of words at the first word is found, and otherwise the search goes on behind the word at which the text departs from the list |
| Addressing.AnonymousUris | application/onvifSrv/wsaapi.c:544-545 | among all strings, exactly six count as anonymous: the three listed URIs and the three ways to join neighbours of the list by a blank |
| Addressing.AddressedExactly | application/onvifSrv/wsaapi.c:984-996 | the address compared without a test for NULL is there exactly if a FaultTo has an address and a ReplyTo without one is covered by a FaultTo elsewhere; a header with a FaultTo without address fails this |
| Addressing.FaultTargetIsFirstElsewhere | application/onvifSrv/wsaapi.c:984-991 | after ReplyTo has stood in for FaultTo, a fault goes to the first of FaultTo and ReplyTo that is not anonymous, else to From, else to the anonymous address |
| Addressing.AtMostTwoCalls | application/onvifSrv/wsaapi.c:837-942 | one reply calls for a connection at most twice, and the second call goes to the fault destination after the first, to the reply destination, has failed; each call tries every endpoint of its address at most once, and exactly one of an address without blanks |
| SoapContext.Soap.Request | application/onvifSrv/wsaapi.c:626-642 | sets every addressing member, whatever was there, with the anonymous address of the schema for a missing addressee and, in 2004/08, as ReplyTo, and leaves the rest |
| SoapContext.Soap.AddNoReply | application/onvifSrv/wsaapi.c:673-676 | makes the header one whose reply is suppressed |
| SoapContext.Soap.AddReplyTo | application/onvifSrv/wsaapi.c:687-703 | sets ReplyTo; a missing address means anonymous before the 2005 schema and no ReplyTo with it |
| SoapContext.Soap.AddRelatesTo | application/onvifSrv/wsaapi.c:737-747 | sets RelatesTo; a missing id changes nothing |
| SoapContext.Soap.Check | application/onvifSrv/wsaapi.c:813-825 | a header with an action passes unchanged; otherwise the fault of a missing header is issued as routed and recorded, and the check passes all the same exactly if that fault is suppressed, in a datagram context without error, under the 2004/08 schema |
| SoapContext.Soap.WsaError | application/onvifSrv/wsaapi.c:1217-1341 | issues and records the fault asked for, as routed; the 2005 schema reports a fault in any case, the other one reports the error left; the fault is blamed on the receiver exactly if the endpoint is unavailable, and relates to the request |
| SoapContext.Soap.FaultSubcodeAction | application/onvifSrv/wsaapi.c:976-1036 | does on the network exactly what the fault's route asks for and leaves the fault header, or the request header if faults are suppressed; the fault is recorded unless it is suppressed or its endpoint is unreachable, which stops processing; no error is reported exactly if a fault is suppressed in a datagram context without error; the fault header relates to the request, has the action of faults and nothing else of the request, and is for the first endpoint elsewhere or the sender |
| SoapContext.Soap.Reply | application/onvifSrv/wsaapi.c:837-942 | does on the network exactly what the reply's route asks for; the rebuilt header relates to the request, has no From, ReplyTo or FaultTo, and keeps what is not addressing; the response callback is exchanged exactly if a connection was made; after a failed call the connection, endpoint and mode of the request are taken up again, the unreachable destination is the fault recorded, routed as a fault, and an error is reported |
| SoapContext.Soap.Connect | application/onvifSrv/stdsoap2.c:15317-15342 | tries the endpoints of a blank-separated address in turn, up to the first that does not fail with a TCP error; the mode follows the last endpoint with a host |
| SoapContext.Soap.TryConnect | application/onvifSrv/stdsoap2.c:15348-15383 | one try: "soap.udp:" makes the context one for datagrams and any other endpoint with a host one for streams, and the socket in use is closed, be it the bound one |
| SoapContext.Soap.SendEmptyResponse | application/onvifSrv/stdsoap2.c:16131-16150 | sends nothing and keeps the error for datagrams; over a stream some error is left in any case, the plug-in error once the callback is exchanged, and the connection is closed |
| SoapContext.Soap.Accept | application/onvifSrv/wsddapi.c:942-956 | a message is accepted exactly if the bound socket is still open and the context's mode is still of its kind |
| Connections.EndpointsSplit | application/onvifSrv/stdsoap2.c:15317-15338 | any number of blanks ends an endpoint, and the others follow |
| Connections.SchemeAndHost | application/onvifSrv/stdsoap2.c:15238-15299 | of the addresses scheme://rest exactly those with the scheme soap.udp are for datagrams, and one has a host exactly if the rest does not begin with / or : and is not empty |
| Conversation.RoutesAgree | application/onvifSrv/wsaapi.c:900-1008 | the tests on the header come to a route read off the addresses: nowhere for the 'none' address, the same connection if there is no address, an anonymous one or the sender's own, else a new connection; faults take the route to FaultTo unless that is missing or anonymous, and otherwise the route of replies |
| Conversation.Ask | application/onvifSrv/wsaapi.c:626-726 | whatever addresses a client puts into its request with the functions for From, ReplyTo, no reply and FaultTo, the header built routes replies and faults as these addresses say, and never lacks the address a fault needs |
| Conversation.Converse | application/onvifSrv/wsaapi.c:626-942 | a request delivered unchanged and the preparation of its reply: the reply prepared relates to the request, is for ReplyTo and names no endpoint of the client itself, FaultTo is called only after ReplyTo has failed and with the unreachable destination as the fault recorded, and nothing else is connected to |
| Discovery.SetAppSequence | application/onvifSrv/wsddapi.c:1533-1548 | puts the next stamp into the header and consumes it |
| Discovery.ResetAppSequence | application/onvifSrv/wsddapi.c:1550-1555 | removes the stamp and consumes nothing |
| Discovery.SendHello | application/onvifSrv/wsddapi.c:449-461 | the header is for the target services exactly in ad-hoc mode, and else for the endpoint or the anonymous address; it relates to the given message, carries a stamp exactly under the 2005 schema or in ad-hoc mode, and depends on nothing but the arguments and the shared counter |
| Discovery.SendBye | application/onvifSrv/wsddapi.c:515-526 | likewise, relating to nothing |
| Discovery.SendRequest | application/onvifSrv/wsddapi.c:586-591 | likewise for Probe and Resolve, which are for the target services exactly if sent to all, carry no stamp, and name the ReplyTo given |
| Discovery.SendMatches | application/onvifSrv/wsddapi.c:838-841 | likewise for the two kinds of matches, which are for the given addressee, relate to the given message and always carry a stamp |
| Discovery.SendAll | application/onvifSrv/wsddapi.c:441-915 | over any sequence of calls, with any header in the context before each, what is sent is a function of the calls and the shared history |
| Discovery.RunIsNumbered | application/onvifSrv/wsddapi.c:454-461 | in such a run the sequenced messages are numbered consecutively under unchanged ids and the others carry no number |
| ProbeService.ServeProbe | application/onvifSrv/wsddapi.c:1251-1313 | a Probe gets exactly one stamp and is answered right away if and only if its header passes the check, it has a body and the handler answers it in managed mode without error; where the answer ends up, in place, at the ReplyTo or fault endpoint, nowhere, or refused with the plug-in error, is decided by the header, the context's transport and the connections made; every answer with a header relates to the Probe, carries that stamp, is for the place the Probe wants, and has nothing else of its addresses |
| ProbeService.SendAnswer | application/onvifSrv/wsddapi.c:1241-1311 | the answer goes to the peer of the socket, except that over a stream the exchanged callback refuses it |
| ProbeRuns.RelayedExactly | application/onvifSrv/wsaapi.c:904-932 | a Probe whose ReplyTo is elsewhere and reachable, at one endpoint or several, is answered there if and only if the endpoint reached is for datagrams and has a host; over a stream it ends with the plug-in error |
| ProbeRuns.OnlyDatagramRepliesAreSent | application/onvifSrv/wsaapi.c:1469-1476 | the answer to a Probe whose ReplyTo is scheme://host and can be reached is sent exactly if the scheme is soap.udp; otherwise it ends with the plug-in error |
| ProbeRuns.HeardAfterRelay | application/onvifSrv/stdsoap2.c:15368-15375 | after an answer over a new connection the context accepts further messages if and only if the endpoint reached is of the kind of its own socket |
| ProbeRuns.HeardAfterFault | application/onvifSrv/wsaapi.c:1008-1015 | after a fault for which a new connection was tried it does if and only if its own socket and the endpoint tried last are for streams |
| ProbeRuns.ServeRun | application/onvifSrv/wsddapi.c:939-978 | the listen loop, entered again after an error, makes every sequence of Probes a run of turns in one context, each Probe served as `ServeProbe` says or unheard |
| ProbeRuns.ExchangedExactly | application/onvifSrv/wsaapi.c:930-931 | in every run the callback is exchanged exactly if some earlier turn has made a connection: nothing sets it back |
| ProbeRuns.AnsweredExactly | application/onvifSrv/wsddapi.c:1241-1311 | in every run a Probe that wants its answer in place gets it if and only if it is heard and the context serves datagrams or no earlier turn has made a connection; otherwise it ends with the plug-in error |
| ProbeRuns.NoAnswerAfterRelay | application/onvifSrv/wsaapi.c:924-931 | once a stream listener has made a connection for an answer or a fault, no later Probe of any kind is answered over its own connection |
| ProbeRuns.DeafForGood | application/onvifSrv/stdsoap2.c:4868-4902 | a context that cannot accept does not hear anything any more |
| ProbeRuns.WebReplyEndsDiscovery | application/onvifSrv/stdsoap2.c:15368-15375 | in the shipped configuration, which listens for datagrams, a Probe whose ReplyTo is reached over a stream is not answered and is the last one heard |
| ProbeExchange.ManagedProbe | application/onvifSrv/wsddapi.c:574-647 | the match handler is called if and only if the serving context accepts the Probe and can answer over its connection, and the answer is to be given there, and then with the Probe's message id as RelatesTo and the stamp taken before the header was rebuilt; an absent or anonymous ReplyTo suffices |
| Uuid.Schrage | application/onvifSrv/wsaapi.c:584-595 | for every 32-bit state, the negative seed included, Schrage's expression has no 32-bit overflow and gives 16807k modulo 2^31 - 1 in [1, 2^31 - 1] |
| Uuid.MaskedState | application/onvifSrv/wsaapi.c:597 | the mask keeps the low 28 bits of the state |
| Uuid.SticksExactlyAt | application/onvifSrv/wsaapi.c:583-597 | among all states that a draw can leave, exactly one is left unchanged by the next draw: 248996806 |
| Uuid.StuckStays | application/onvifSrv/wsaapi.c:593-597 | that state does stay, and every draw from it returns 1591174086 before the noise is added |
| Uuid.Generator.Draw | application/onvifSrv/wsaapi.c:583-598 | advances the static state and returns the random word with the noise added, congruent to the sum modulo 2^32 |
| Uuid.NoiseShows | application/onvifSrv/wsaapi.c:598 | words drawn from the same state with different noise differ |
| Uuid.Generator.RandUuid | application/onvifSrv/wsaapi.c:575-605 | returns a valid random UUID that shows the four words, the second one modulo 2^32 |
| Uuid.WordsReadBack | application/onvifSrv/wsaapi.c:602 | the fields of the text read back as r1, the upper 28 bits of r2 around the version, the lower 30 bits of r3 behind the variant, and r4, each in its own place |
| Uuid.AlwaysValid | application/onvifSrv/wsaapi.c:602 | for all words the text has 45 characters and the form of a version 4, variant 10 UUID |
| Uuid.ShowsExactly | application/onvifSrv/wsaapi.c:602 | two quadruples give the same text if and only if they agree on r1, the top 28 bits of r2, the low 30 bits of r3, and r4 |
| Alignment.MacrosRound | common/include/common.h:98-100 | for a power of two the macros give the largest multiple below, the smallest multiple above, and divisibility |
| Alignment.MacrosStayInt32 | common/include/common.h:98-99 | the results stay in the type as long as the macro's own addition does |
| Alignment.ExactlyPowersOfTwo | common/include/common.h:98-100 | each macro is right for all arguments if and only if the alignment is a power of two |
| Bitwise.PowerOfTwoTest | application/onvifSrv/wsddapi.c:777 | `k & (k - 1)` is zero exactly for powers of two |

## Left out

- DurationCodec.Converter.S2Duration: requires that every number scanned and the arithmetic of an accepted text fit 64 bits, because C leaves overflow undefined; `sscanf("%g")` is a parameter and the double-precision product by 1000 is taken as exact, which it is for single-precision factors.
- DurationCodec.Converter.Duration2s: excludes the minimum 64-bit count, whose negation C leaves undefined.
- MatchArray.ProbeMatches.Add: requires fewer than 2^30 entries, beyond which the doubled size overflows an int; the small allocation for the scopes, which the code does not check, is taken to succeed.
- SoapContext.Soap.FaultSubcodeAction: requires that the endpoint a fault goes to has an address, which the code reads without a test (`Addressing.AddressedExactly` says when); header allocation is taken to succeed; the wording of fault reasons and details is not modelled.
- SoapContext.Soap.SendEmptyResponse: closing a connection is taken to report no error of its own, which holds for the callbacks installed by default.
- SoapContext.Soap.TryConnect: a try that fails is taken to leave no connection, and the context not to keep connections alive, as the listen loop sees to.
- SoapContext.Soap.Reply: the WS-Addressing plug-in is taken not to be registered, as nothing in the repository does; its callback would read a field that nothing sets.
- ProbeService.SendAnswer: writing to an open connection is taken to succeed; an answer with no connection is written to the standard output by the code.
- ProbeService.ServeProbe: requires an accepted connection that is not kept alive, which the listen loop provides; sending the fault that a failed Probe has left is not modelled.
- ProbeRuns.ServeRun: only Probes are in a run; other messages received in the same context, and a Hello or Bye that the application sends through it between two turns, are not.
- Uuid.Generator.Draw: the addition of the noise word wraps around, as on the usual targets; the OpenSSL branch, which draws all words from the library, and unlocked concurrent draws are not modelled.
- AppSequence.SharedState.SetSequenceId: strings are values, so a header that still points to a freed sequence id does not occur in the model.
- LazyMutex: covers the Windows branch of threads.c; a thread that locks the mutex again while holding it, abandoned mutexes, and destroying a mutex in use are not modelled.
- CondVar: set-up and destruction are not steps; fairness, and which waiter a signal wakes, are not modelled, because signals coalesce in the auto-reset event.
- The two older WS-Addressing schemas of 2003 and 2004/03, which the repository does not build.
- Message bodies, XML and HTTP input and output, sockets, and the random delay before matches are sent.
- The serving side of Hello, Bye, Resolve and the two kinds of matches: they repeat the shape of the Probe handler or only pass values on; the listen loop's timeout and its dispatch to other handlers.
- The generated dispatch and serialisation code, and the camera's own libraries for buffers, capture, encoding and streaming.
