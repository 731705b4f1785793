# Models of aioxmpp's stateful cores

Dafny models of the parts of aioxmpp, an XMPP client library for Python, which keep state or
transform data in ways that are hard to get right, with proofs of what each part promises.
`dafny verify dfyconfig.toml` checks everything.

Each component comes as values and functions with the theorems about them and, where the Python
code updates objects in place, as a class or as methods with loops.  A method's contract equates
the new state with a function of the old state, or states the property outright; so the theorems
about the functions hold of the objects.

**Stream management** (XEP-0198, sections 4 and 5).  `SmClient` is what a `StanzaStream` keeps
across disconnects, `StanzaStream` the same with token objects and fields, `SmProtocol` adds an
honest server and two FIFO channels.  One broker turn is one step, and so is a teardown.  A step
may be an enqueue, an abort, a broker turn in either direction, an ack, a disconnect at any moment
(what is in a channel may be lost from any point on), a resumption whose response arrives or not,
a refused resumption with or without a counter, stopping management, or closing.  `SmSafety` has
the invariant and its preservation by every step, `SmRuns` the theorems about all runs, `SmOrder`
those about order, `SmOutcome` what becomes of each
token in each of these events, and `SmFaults` three places at which the code does less than it promises, each
with its exact condition.  Of runs it is assumed that fewer than 2^32 elements are unacknowledged in
either direction (`Bounded`), and what "Left out" says about steps.

**XML generator**.  `XmlGen` is the namespace-prefix compiler `XMPPXMLGenerator` as functions that
append tokens (start tag with its declarations and attributes, end tag, text); `XmlReader` is a
reader written from the grammars of XML 1.0 and Namespaces in XML 1.0: it has its own characters and
names, and refuses documents that break them.
`XmlTag` says exactly when one start tag reads back as asked for and when its end tag carries the
same name; `XmlTree` lifts this to arbitrarily nested documents; `XmlAccept` says exactly which
documents are refused; `XmlLimits` gives, for each limit, the calls that write a document beyond it,
and documents that are within the limits by their looks; `XmlForm` says which prefixes and declarations are
written and when an element is one tag.  `XmlGenerator` is the object, with prefix sets that the stack saved by
`buffer()` shares.  `XmlProcessor` and `XmlStreamProcessor` are the receiving side.

**Others**.  `LruCache` and `LruDict` (dictionary over a circular doubly linked list), `JidEscape`, `JidSpaces` and
`JidCodes` (the result character by character, from the codes),
`Languages` (filtering and lookup of RFC 4647), `ServiceGraph` and `Services` (order of service
classes, and summoning), `SrvOrder`, `NmToken`, `StateWaiters` and `StateMachine` (the ordered
state machine and its waiters).

What the code does and its documentation does not say, or says otherwise:

- `_resume_sm` requeues the unacknowledged stanzas in reverse (`SmOrder.ResumeQueue`); the
  documentation of `Client.enqueue` (aioxmpp/node.py:1224) says that ordering is always preserved.
- Aborted tokens become DISCONNECTED when the queue is destroyed, although ABORTED is documented
  as a final state: exactly those that wait when state is destroyed (`SmOutcome.AbortedIsLeftIff`).
- `close()` is documented to ignore errors while the stream stops; one that ends the broker task is
  raised, and the stream is left torn down but not closed (`SmOutcome.RaisingCloseFinishesIff`).
- If writing the final ack request of a broker turn raises, a token that was already processed is
  put back into the queue (`SmFaults.RaisingTurnKeepsTokensIff`) and can be delivered twice
  (`SmFaults.DuplicateDelivery`).
- Enabling stream management while received stanzas still wait in the queue makes the inbound
  counter too high (`SmFaults.LeftoverStanzasLoseRetransmission`).
- Prefixes of the form `ns<n>` are documented to cost performance; declared by the caller they can
  change what an attribute means (`XmlLimits.StolenPrefix`).
- An attribute in the namespace of an unprefixed element makes the end tag differ from the start
  tag (`XmlLimits.MismatchedEndTag`).
- The guard against elements without a namespace inside a default namespace looks for the prefix
  among namespace names and never fires for an inherited one (`XmlLimits.CapturedElement`).
- Namespaces that must not be declared, and names in the namespace of declarations, are written
  without complaint (`XmlLimits.IllegalDeclarationIsWritten`, `XmlLimits.XmlnsElementIsWritten`,
  `XmlLimits.XmlnsAttributeIsWritten`).
- Attribute values are not checked at all, and U+FFFE and U+FFFF pass the check of texts, so
  documents are written that are not XML (`XmlLimits.IllegalValueIsWritten`,
  `XmlLimits.NoncharacterIsWritten`).
- A failed `buffer()` block which ended a mapping of an outer element does not restore it
  (`XmlGenerator.XMPPXMLGenerator.Buffer`; `XmlLimits.LeakingBlock` is such a block).
- A service class declared both before and after the same class is accepted
  (`Services.SharedMemberIsAccepted`).
- `basic_filter_languages` is documented as duplicate-free, but repeats what it is given if a
  wildcard is among the ranges (`Languages.BasicFilterLanguages`); a range such as `*-a-b` turns
  into a wildcard when it is stripped (`Languages.StrippedToWildcardIff`).
- `jid_escape` is documented to raise ValueError for a leading or trailing space; it escapes them, and
  the result has the sequence that XEP-0106 forbids there (`JidSpaces.SpacesAtEndsIff`).
- The stream processor's documentation speaks of any exception while an element is parsed; one
  that a text raises is not held back (`XmlProcessor.IsolatedIff`).

## Model

| member | source | states |
|---|---|---|
| SmRuns.ReceivedAtMostOnce | aioxmpp/stream.py:2372-2382 | over every run with any disconnects and resumptions the server never receives a token's stanza twice |
| SmRuns.AckedMeansReceived | aioxmpp/stream.py:2529-2536 | a token in state ACKED was received by the server |
| SmRuns.UndeliveredMeansNeverReceived | aioxmpp/stream.py:242-282 | a token reported aborted, dropped, disconnected or failed is not received, then or at any later point of the run |
| SmRuns.UnackedWindow | aioxmpp/stream.py:1260-1262 | while management is enabled the unacked list is exactly: received but not acknowledged to the client, then in flight, then lost; nothing is lost while connected |
| SmRuns.InboundExactlyOnce | aioxmpp/stream.py:1178-1181 | the client has processed a prefix of what the server sent in the session, in order, its counter is that number mod 2^32, and while connected the rest is arriving |
| SmRuns.HonestCountersAccepted | aioxmpp/stream.py:2513-2527 | a counter of an honest server is never rejected, in an ack, a resumption or a refusal, through any number of wraps |
| SmRuns.TokenConservation | aioxmpp/stream.py:1222-1264 | every accepted token is in exactly one of queue-or-slot, unacked list and finished; unacked ones are SENT, waiting ones ACTIVE, ABORTED or SENT |
| SmRuns.FinalStatesAreFinal | aioxmpp/stream.py:436-448 | over any stretch of a run ACKED, SENT_WITHOUT_SM, DROPPED, DISCONNECTED and FAILED are never left, and ABORTED only for DISCONNECTED |
| SmRuns.CloseFinishesEverything | aioxmpp/stream.py:1960-1975 | after a close that does not raise every token is in a final state and nothing is queued, unacknowledged or managed |
| SmRuns.RunInv | aioxmpp/stream.py:1990-2076 | the invariant of client, server and channels holds in every state of every run |
| SmRuns.RunDevelops | aioxmpp/stream.py:427-434 | between any two points of a run every token has only moved forward in its life cycle |
| SmSafety.NextKeepsInv | aioxmpp/stream.py:1990-2076 | each of the twenty kinds of step preserves the invariant |
| SmSafety.SendTurnKeepsInv | aioxmpp/stream.py:1266-1285 | a broker turn which sends the whole queue preserves the invariant for any outcome of filters and writes |
| SmSafety.ReceiveTurnKeepsInv | aioxmpp/stream.py:1145-1193 | processing one received element succeeds and preserves the invariant |
| SmSafety.DisconnectKeepsInv | aioxmpp/stream.py:2023-2073 | the teardown preserves the invariant: what is drained is not counted, what the broker holds goes back |
| SmSafety.CloseKeepsInv | aioxmpp/stream.py:1927-1975 | closing preserves the invariant and leaves no token waiting or unacknowledged |
| SmSafety.ResumeKeepsInv | aioxmpp/stream.py:2460-2464 | a resumption succeeds and preserves the invariant |
| SmSafety.RefuseKeepsInv | aioxmpp/stream.py:2444-2458 | a refused resumption is handled, with or without a counter, and preserves the invariant |
| SmSafety.StopManagementKeepsInv | aioxmpp/stream.py:2466-2482 | stopping management preserves the invariant |
| SmSafety.EnableSmKeepsInv | aioxmpp/stream.py:2195-2223 | enabling management with empty queues begins a session in which both totals are zero |
| SmSafety.HonestAckWindow | aioxmpp/stream.py:2517-2531 | the 32-bit difference is exactly the number of newly acknowledged tokens, these are the oldest ones received, and the base is the new total mod 2^32 |
| SmSafety.RestNeverReceived | aioxmpp/stream.py:2377-2382 | what an exchange of counters leaves unacknowledged was never received by the server |
| SmSafety.ServerLearns | aioxmpp/stream.py:2432-2437 | from the counter in the resume request the server learns exactly how many stanzas the client has processed |
| SmOutcome.TurnOutcome | aioxmpp/stream.py:1266-1285 | a broker turn writes exactly the tokens that are neither aborted, dropped nor failing, in the order in which they waited, and after them one request for an ack if management is enabled and none otherwise; with management it appends them to the unacked list in that order, and it gives every token the state its outcome calls for |
| SmOutcome.InboundTurn | aioxmpp/stream.py:1145-1193 | in every run a turn that takes an ack request writes, with management on, exactly one answer with the number of stanzas processed so far mod 2^32, and nothing with management off; a stanza is processed and not answered; queue, slot and, but for an ack, tokens stay as they are |
| SmOutcome.ResumptionSettles | aioxmpp/stream.py:2372-2382 | after a resumption exactly those unacknowledged tokens that the server received are ACKED, exactly the others wait to be sent again, and no other token changes |
| SmOutcome.RefusalSettles | aioxmpp/stream.py:2444-2458 | after a refusal with a counter every unacknowledged token is ACKED or DISCONNECTED as the server did or did not receive it, without a counter SENT_WITHOUT_SM; queued ones are DISCONNECTED |
| SmOutcome.DisconnectSettles | aioxmpp/stream.py:2023-2073 | a resumable stream keeps every token, the one the broker held at the head of the queue, and does not count what it drains; any other stream settles every token |
| SmOutcome.CloseSettles | aioxmpp/stream.py:1960-1975 | closing, connected or not, resumable or not, makes every unacknowledged token SENT_WITHOUT_SM and every waiting one DISCONNECTED, and changes no other |
| SmOutcome.StopSettles | aioxmpp/stream.py:2466-2482 | stopping management does the same on a stopped stream |
| SmOutcome.RaisingCloseFinishesIff | aioxmpp/stream.py:1968-1971 | if the broker task ends with an exception, close leaves the stream unclosed; all tokens are finished nevertheless if and only if it was not resumable or had nothing unacknowledged and nothing but aborted tokens waiting |
| SmOutcome.AbortedIsLeftIff | aioxmpp/stream.py:918-920 | in any step from any state of the invariant an aborted token leaves its state if and only if it is in queue or slot and the step is a close, the end of management, a refused resumption, or a disconnect of a stream that is not resumable |
| SmOutcome.AbortedIsLeft | aioxmpp/stream.py:918-920 | a run of four steps in which it does |
| SmOutcome.ServerSplits | aioxmpp/stream.py:2517-2531 | the server's counter splits the unacked list: the front was received, the rest never was |
| SmOrder.DeliveredInOrder | aioxmpp/stream.py:2372-2382 | in runs whose resumptions each leave at most one stanza to retransmit, the server receives stanzas in the order in which they were enqueued |
| SmOrder.ResumptionKeepsOrderIff | aioxmpp/stream.py:2380-2382 | a resumption keeps the order of what waits if and only if it leaves at most one stanza to retransmit |
| SmOrder.ResumeQueue | aioxmpp/custom_queue.py:47-49 | after a resumption the queue is the reversed remainder of the unacked list followed by the old queue |
| SmOrder.NextKeepsOrder | aioxmpp/stream.py:1266-1285 | every step but an ungentle resumption keeps tokens, channel and server in order of acceptance |
| SmFaults.RaisingTurnKeepsTokensIff | aioxmpp/stream.py:2054-2055 | if the ack request cannot be written on a resumable stream, every token stays in one place if and only if the first one sent was aborted |
| SmFaults.RaisingTurnSettles | aioxmpp/stream.py:2054-2071 | on a managed stream that is not resumable such a turn settles every token as the turn decided, but the first one, if it was dropped or failed, is reported as DISCONNECTED |
| SmFaults.OneTakenIsReachable | aioxmpp/stream.py:1993-2014 | a run that leads to the state before such a failure |
| SmFaults.DuplicateDelivery | aioxmpp/stream.py:2054-2055 | from the start to a broker turn of which the ack request cannot be written, and on through one resumption: the token is ACKED, leaves that state, and is received twice |
| SmFaults.ResumeAfterRaise | aioxmpp/stream.py:2372-2382 | the resumption in between: the same token is acknowledged and queued |
| SmFaults.TwoLostIsReachable | aioxmpp/stream.py:1266-1285 | a run that ends with two stanzas in flight when the connection breaks |
| SmFaults.ReversedRetransmission | aioxmpp/stream.py:2380-2382 | of two stanzas lost in flight the later one is retransmitted first |
| SmFaults.LeftoverStanzasLoseRetransmission | aioxmpp/stream.py:2200-2203 | with any number of new stanzas processed before the connection breaks, the server believes the counter of the resumption and retransmits exactly what was lost if and only if no stanza waited when management was enabled |
| SmFaults.QueuedStanzasAreCounted | aioxmpp/stream.py:1178-1181 | processing n stanzas advances the counter by n mod 2^32 |
| Common.WrapIsLow32 | aioxmpp/stream.py:1180-1181 | counters are kept as the one number below 2^32 that differs from what is counted by a multiple of 2^32 |
| StanzaStreams.StanzaToken.Abort | aioxmpp/stream.py:436-448 | aborting succeeds exactly in ACTIVE and ABORTED |
| StanzaStreams.StanzaStream.Enqueue | aioxmpp/stream.py:2087-2097 | refused exactly on a closed stream; else a fresh active token at the end of the queue |
| StanzaStreams.StanzaStream.ProcessOutgoing | aioxmpp/stream.py:1266-1285 | the loop over the queue with tokens updated in place is the function of SmClient, and writes the same elements |
| StanzaStreams.StanzaStream.SendStanza | aioxmpp/stream.py:1214-1264 | sending one token object in place is `SmClient.SendSlot`: aborted tokens are skipped, others end dropped, failed, or sent with or without management |
| StanzaStreams.StanzaStream.ProcessIncoming | aioxmpp/stream.py:1145-1193 | processing one received element in place is `SmClient.ProcessIncoming`: a request is answered with the inbound counter exactly if management is on, every stanza is handed on once, an ack is never answered, and without management it changes nothing and is no error |
| StanzaStreams.StanzaStream.SmAck | aioxmpp/stream.py:2499-2536 | acknowledging in place is `SmClient.SmAck`; a rejected counter changes nothing at all |
| StanzaStreams.StanzaStream.ResumeSm | aioxmpp/stream.py:2372-2382 | the loop that pushes the unacked tokens to the left of the queue, after the ack, is `SmClient.ResumeSm`; a rejected counter changes nothing |
| StanzaStreams.StanzaStream.ResumeRefused | aioxmpp/stream.py:2444-2458 | a refusal, with or without a counter, is `SmClient.ResumeRefused` on the token objects |
| StanzaStreams.StanzaStream.ClearUnacked | aioxmpp/stream.py:2384-2387 | the loop gives exactly the unacked tokens the new state and empties the list |
| StanzaStreams.StanzaStream.StopSm | aioxmpp/stream.py:2466-2482 | stopping management settles unacked and queued tokens as `SmClient.StopSm` says |
| StanzaStreams.StanzaStream.DestroyStreamState | aioxmpp/stream.py:907-920 | the loop empties the queue and puts exactly its tokens into DISCONNECTED |
| StanzaStreams.StanzaStream.DrainIncoming | aioxmpp/stream.py:1977-1988 | the received elements are dropped and nothing else changes |
| StanzaStreams.StanzaStream.Teardown | aioxmpp/stream.py:2023-2073 | the end of the broker task is the function of SmClient |
| StanzaStreams.StanzaStream.Close | aioxmpp/stream.py:1960-1975 | closing is `SmClient.Close` with the last ack that is sent; if the task raises, it is the teardown alone, and raises |
| StanzaStreams.StanzaStream.HandleEnabled | aioxmpp/stream.py:2195-2207 | management is on, resumable as the server says, with both counters at zero and nothing unacknowledged |
| XmlTag.StartTagReadsBackIff | aioxmpp/xml.py:406-473 | a start tag reads back as the element and attributes asked for if and only if no prefix its names inherit is declared anew by it, an element without namespace is not inside a default namespace, and the attribute values are text of XML |
| XmlTag.EndTagMatchesIff | aioxmpp/xml.py:475-492 | the end tag carries the name of the start tag if and only if the prefix the element inherited is not declared anew and no attribute is given a prefix of its own for the namespace of the element |
| XmlTag.QualifyMeans | aioxmpp/xml.py:264-299 | a qualified name resolves, at that point, to the name asked for, but for an element without namespace inside a default namespace |
| XmlTag.LaterNames | aioxmpp/xml.py:264-299 | exactly when the rest of the tag leaves the meaning of a name alone |
| XmlTag.AttributesMean | aioxmpp/xml.py:425-432 | all attributes resolve to what was asked for if and only if none of the prefixes they inherit is declared anew |
| XmlTag.NeededSuffices | aioxmpp/xml.py:322-352 | leaving out declarations already in force establishes the same scope |
| XmlTag.NewMapBound | aioxmpp/xml.py:322-347 | after pinning, every entry of the namespace map resolves to its namespace in the new scope |
| XmlTag.NamesAgree | aioxmpp/xml.py:66-112 | the check of names accepts exactly the NCNames of Namespaces in XML 1.0, whose productions the reader spells out |
| XmlTree.TextsAgree | aioxmpp/xml.py:115-125 | the check of texts accepts exactly the characters of XML 1.0, and U+FFFE and U+FFFF |
| XmlTree.WriteReadsBack | aioxmpp/xml.py:406-492 | for every tree of calls within the limits, each of which a lemma of XmlLimits shows to be needed, the generator's stack, map, counter and floating sets are as before, and reading the tokens gives back exactly the events asked for if all texts and values are text of XML, and fails otherwise |
| XmlTree.WriteRestores | aioxmpp/xml.py:475-499 | whatever the texts and values are, a tree within the limits leaves everything but the output as it was |
| XmlTree.DocumentReadsBack | aioxmpp/xml.py:218-249 | the same for a whole document from a new generator: every tag closed, nothing left over |
| XmlTree.CoveredHonours | aioxmpp/xml.py:251-262 | if the counter covers all automatic prefixes in scope, and the caller declares none of that form, a tag never declares a prefix anew that its names inherit |
| XmlTree.InnerCovered | aioxmpp/xml.py:251-262 | the counter covers all automatic prefixes in scope inside of an element as well |
| XmlTree.EndingReads | aioxmpp/xml.py:475-499 | closing an element restores everything but the output, and reads back as its end |
| XmlTree.CallersPrefixes | aioxmpp/xml.py:314-320 | the prefixes that must be ended are exactly those the caller started |
| XmlAccept.WriteAcceptedIff | aioxmpp/xml.py:364-404 | within the limits, and with any texts and values, the generator raises for exactly the documents with a name or prefix that is no NCName, a prefix xml or xmlns, a prefix declared twice on one element, an attribute xmlns, a text with a control character, or a default namespace declared on an element without namespace; names are those of the grammar in XmlReader |
| XmlAccept.OpeningAcceptedIff | aioxmpp/xml.py:406-434 | the same for one start tag: it is written if its names and prefixes are NCNames and none of the other reasons applies, and refused otherwise |
| XmlLimits.MismatchedEndTag | aioxmpp/xml.py:404-404 | the calls for an element and an attribute of one namespace, with a text inside: accepted, and whatever follows no reader accepts the output |
| XmlLimits.StolenPrefix | aioxmpp/xml.py:255-261 | the calls for a document in which a caller's prefix ns0 is shadowed by an automatic one: accepted, and an element and an attribute read back in another namespace |
| XmlLimits.CapturedElement | aioxmpp/xml.py:293-297 | the calls for an element without namespace inside one with a default namespace: accepted, and it reads back in that namespace |
| XmlLimits.IllegalDeclarationIsWritten | aioxmpp/xml.py:392-404 | any valid prefix may be declared for a reserved namespace, or for none, and no reader accepts the document, whatever follows |
| XmlLimits.XmlnsElementIsWritten | aioxmpp/xml.py:286-288 | an element in the namespace of declarations is given a declaration that no reader accepts |
| XmlLimits.XmlnsAttributeIsWritten | aioxmpp/xml.py:286-288 | so is an attribute in that namespace, on any element |
| XmlLimits.IllegalValueIsWritten | aioxmpp/xml.py:459-468 | any attribute value that is not text of XML is written, and no reader accepts the document, whatever follows |
| XmlLimits.NoncharacterIsWritten | aioxmpp/xml.py:115-125 | a text with U+FFFE or U+FFFF passes the check and is written, and no reader accepts it anywhere |
| XmlLimits.PlainDocument | aioxmpp/xml.py:406-492 | a tree in which every element has a namespace that none of its attributes has, and that declares nothing reserved and no ns<n>, is written exactly if it is acceptable, and then reads back as what was written if and only if its texts and values are text of XML |
| XmlLimits.LeakingBlock | aioxmpp/xml.py:494-499 | a block which closes an outer element, ends its mapping and then fails: by the contract of Buffer the state before is not restored |
| XmlForm.AutomaticIff | aioxmpp/xml.py:251-262 | the prefixes made up are exactly ns followed by a decimal number without leading zeros |
| XmlForm.XmlNamesNeedNoDeclaration | aioxmpp/xml.py:271-273 | in any state a name in the namespace of XML has the prefix xml, which every document binds to it, and nothing is declared |
| XmlForm.DeclaredPrefixIsUsed | aioxmpp/xml.py:274-291 | inside of an element that declares a prefix, names in its namespace take that prefix and nothing is declared for them |
| XmlForm.RepeatedIsDropped | aioxmpp/xml.py:322-345 | a declaration is written on an element exactly if it is not in force there, so repeating it directly inside writes nothing |
| XmlForm.EmptyElement | aioxmpp/xml.py:470-489 | an element that is ended right after its start is written as one tag exactly if short tags are asked for, and as two if there was a flush in between |
| XmlForm.UnendedMappingIsRefused | aioxmpp/xml.py:307-309 | while a mapping of the element closed last is not ended, no element starts and none ends |
| XmlGenerator.XMPPXMLGenerator.Buffer | aioxmpp/xml.py:609-660 | on failure nothing reaches the sink and the whole state is as before if and only if the block did not end a mapping of an element opened outside of it; on success the output is appended in one piece |
| XmlGenerator.XMPPXMLGenerator.Run | aioxmpp/xml.py:494-499 | of the prefix sets shared with the outside a block only removes, and removes something exactly if it ends a mapping of an element opened outside of it |
| XmlGenerator.XMPPXMLGenerator.StartElementNS | aioxmpp/xml.py:406-473 | the method on dictionaries and shared sets does what the function of XmlGen does, also when it raises |
| XmlGenerator.XMPPXMLGenerator.EndElementNS | aioxmpp/xml.py:475-492 | popping the stack, with the shared prefix set, is `XmlGen.EndElement`, also when it raises |
| XmlGenerator.XMPPXMLGenerator.EndPrefixMapping | aioxmpp/xml.py:494-499 | removing a prefix from the set shared with the saved stack is `XmlGen.EndPrefixMapping`; an unknown prefix raises and changes nothing |
| XmlGenerator.XMPPXMLGenerator.StartPrefixMapping | aioxmpp/xml.py:364-404 | declaring a prefix in the floating dictionaries is `XmlGen.StartPrefixMapping`, with its three reasons to raise |
| XmlGenerator.XMPPXMLGenerator.Qname | aioxmpp/xml.py:264-299 | the nested lookups with their exceptions compute `XmlGen.Qualify` |
| XmlGenerator.XMPPXMLGenerator.RollPrefix | aioxmpp/xml.py:251-262 | the search for a free number ends and finds the first one above the counter that no floating prefix has; only an element may get the default namespace, and only if that is not taken |
| XmlGenerator.XMPPXMLGenerator.MergeMaps | aioxmpp/xml.py:322-345 | the loop over the old map gives the merged map and the declarations to write |
| XmlGenerator.XMPPXMLGenerator.Pin | aioxmpp/xml.py:307-352 | pinning pushes one entry and leaves the merged map; it raises exactly if a prefix was not ended |
| XmlGenerator.XMPPXMLGenerator.Characters | aioxmpp/xml.py:509-524 | text is written after finishing the open tag, and refused exactly for control characters |
| XmlProcessor.StreamElementIsolated | aioxmpp/xml.py:943-954 | a stream-level element with failures anywhere reports nothing before its end and exactly its first failure there, or raises it if nobody listens; depth, state and what the parser saw are as for one that ends there; a failing text is raised on the spot |
| XmlProcessor.IsolatedIff | aioxmpp/xml.py:908-914 | an element is isolated if and only if a text is not the first thing in it to fail |
| XmlProcessor.EveryElementReportsOnce | aioxmpp/xml.py:1013-1043 | over any series of elements each failing one reports once, in order, and depth 1 in the header state is restored |
| XmlProcessor.WholeStream | aioxmpp/xml.py:916-935 | from document start to document end nothing but the elements' exceptions is reported |
| XmlProcessor.ContentParsed | aioxmpp/xml.py:943-1043 | inside an element the depth tracks nesting for arbitrary trees, and the first failure decides what the parser sees |
| XmlProcessor.BackoffSkips | aioxmpp/xml.py:952-954 | while an exception is held back whole elements pass without effect |
| XmlStreamProcessor.XMPPXMLProcessor.StartElementNS | aioxmpp/xml.py:943-1011 | the handler acts as the function; before the header only its check decides, out of place it is a RuntimeError that changes nothing, else the depth grows by one and the element parser sees the element unless an exception is held back |
| XmlStreamProcessor.XMPPXMLProcessor.EndElementNS | aioxmpp/xml.py:1022-1043 | the end handler acts as `XmlProcessor.ProcessEnd`; the depth falls by one, the end of the root is the footer and is not passed on, and out of place it is a RuntimeError that changes nothing |
| XmlStreamProcessor.XMPPXMLProcessor.EndElementExceptionHandling | aioxmpp/xml.py:1013-1020 | the stored exception is cleared, then passed on or raised |
| XmlStreamProcessor.XMPPXMLProcessor.Characters | aioxmpp/xml.py:908-914 | text is dropped in backoff, passed on after the header with what the parser raises, and otherwise a RuntimeError that changes nothing |
| XmlStreamProcessor.XMPPXMLProcessor.StartDocument | aioxmpp/xml.py:916-921 | only a clean processor starts, at depth zero; otherwise a RuntimeError that changes nothing |
| XmlStreamProcessor.XMPPXMLProcessor.EndDocument | aioxmpp/xml.py:931-935 | only after the footer does the document end; otherwise a RuntimeError that changes nothing |
| JidEscape.RoundTrip | aioxmpp/structs.py:1385-1428 | unescaping undoes escaping, for every string |
| JidEscape.PassesAreSimultaneous | aioxmpp/structs.py:1386-1392 | replacing one sequence after the other equals one simultaneous pass, for rules whose sequences do not interfere |
| JidEscape.GuardsIndependent | aioxmpp/structs.py:1386-1388 | the ten passes which guard existing sequences do not interfere |
| JidEscape.EscapesIndependent | aioxmpp/structs.py:1391-1392 | nor do the nine which escape characters |
| JidEscape.UnescapesIndependent | aioxmpp/structs.py:1419-1420 | nor do the nine which unescape |
| JidEscape.UnguardsIndependent | aioxmpp/structs.py:1422-1426 | nor do the ten which remove the guards |
| JidEscape.EscapedIsAllowed | aioxmpp/structs.py:1391-1392 | an escaped string contains none of the characters which a localpart must not contain |
| JidSpaces.SpacesAtEndsIff | aioxmpp/structs.py:1367-1367 | for every string, the escaped one begins with the sequence for a space exactly if the string begins with a space, and ends with it exactly if it ends with one |
| JidSpaces.EscapingCodes | aioxmpp/structs.py:1391-1392 | the nine escaping passes write each character by itself |
| JidSpaces.GuardingKeepsEnds | aioxmpp/structs.py:1386-1388 | the ten guarding passes leave the first and the last character as they are |
| JidEscape.GuardingCleans | aioxmpp/structs.py:1386-1388 | after guarding, no escape sequence of a forbidden character is left, for every string |
| JidEscape.UnescapeUndoesEscape | aioxmpp/structs.py:1419-1420 | the unescaping passes undo the escaping passes on every string without such sequences |
| JidEscape.UnguardUndoesGuard | aioxmpp/structs.py:1422-1426 | the last passes undo the guarding, for every string |
| JidEscape.Escape | aioxmpp/structs.py:1356-1394 | the two loops over the codepoints compute the escaped string, which `JidCodes.EscapedIsSpelled` determines |
| JidEscape.Unescape | aioxmpp/structs.py:1397-1428 | the two loops over the codepoints compute the unescaped string, which `JidCodes.UnescapedIsRead` determines |
| JidCodes.Hex2IsCode | aioxmpp/structs.py:1387-1387 | the two digits written for a character are those whose value, with digits by their code points, is its code, and no others are |
| JidCodes.EscapableIff | aioxmpp/structs.py:1353-1353 | the escapable characters are exactly the nine of XEP-0106, by their codes |
| JidCodes.EscapedAtOnce | aioxmpp/structs.py:1385-1394 | all nineteen passes of escaping together are one simultaneous pass |
| JidCodes.UnescapedAtOnce | aioxmpp/structs.py:1417-1428 | and so are those of unescaping |
| JidCodes.EscapedIsSpelled | aioxmpp/structs.py:1385-1394 | for every string the escaped one is, position by position: a disallowed character as a backslash and its code, a backslash before a known code as its own sequence, anything else as it is |
| JidCodes.SpelledOnce | aioxmpp/structs.py:1385-1394 | this determines the escaped string |
| JidCodes.UnescapedIsRead | aioxmpp/structs.py:1417-1428 | for every string the unescaped one is, position by position: the sequence of a disallowed character as that character, a guarded sequence as the sequence, anything else as it is |
| JidCodes.EscapedIsAllowedText | aioxmpp/structs.py:1391-1392 | an escaped string has none of the nine characters, by their codes |
| LruCache.RecencyIsLastTouch | aioxmpp/cache.py:156-171 | after any history the recency sequence is strictly ordered by when a key was last fetched or created, and the limit holds |
| LruCache.PurgesLeastRecent | aioxmpp/cache.py:120-126 | whatever is purged was touched before everything that stays, no more is purged than the limit requires, and a key just written survives |
| LruCache.OverwritingIsNoUse | aioxmpp/cache.py:157-158 | overwriting a value changes neither the order nor when anything was last touched |
| LruCache.HeldIsLastWritten | aioxmpp/cache.py:167-171 | after any history a key that is held has, and fetching it returns, the value last written to it |
| LruCache.LimitIsKept | aioxmpp/cache.py:143-148 | after any history the limit is one, or the last one asked for that was None or positive, and there are never more keys than that |
| LruCache.HeldAfter | aioxmpp/cache.py:156-179 | which keys are held after one more operation: fetching and overwriting lose none, deleting and clearing lose theirs, and a new key in a full cache displaces exactly the one that was touched longest ago |
| LruCache.HeldAfterLimit | aioxmpp/cache.py:120-126 | a new limit keeps exactly as many of the keys touched last as it allows |
| LruDicts.RemoveNode | aioxmpp/cache.py:50-53 | unlinking a node from the middle of a chain leaves a chain of the others, linked both ways, even if its neighbours are one node |
| LruDicts.InsertNode | aioxmpp/cache.py:56-60 | linking a node after another one of a chain gives the chain with the node in between |
| LruDicts.LRUDict.GetItem | aioxmpp/cache.py:167-171 | fetching moves the node to the front of the ring and returns the value held for the key; a missing key changes nothing |
| LruDicts.LRUDict.SetItem | aioxmpp/cache.py:156-165 | overwriting leaves the ring alone, a new key is linked in front and then the ring is purged; either way the key then has the value |
| LruDicts.LRUDict.DelItem | aioxmpp/cache.py:173-175 | deleting removes exactly the key's node from ring and dict, and is an error exactly for a key that is not there |
| LruDicts.LRUDict.Purge | aioxmpp/cache.py:120-126 | the loop keeps the front of the ring up to the limit, and ring and dict in step |
| LruDicts.LRUDict.SetMaxsize | aioxmpp/cache.py:143-148 | a limit is refused exactly if it is not positive; else it is the new limit and the ring is purged to it |
| LruDicts.LRUDict.Clear | aioxmpp/cache.py:177-179 | an empty dict and a new ring, with the limit as it was |
| LruDicts.LRUDict.Length | aioxmpp/cache.py:150-151 | the size of the dict is the length of the ring |
| LruDicts.LRUDict.constructor | aioxmpp/cache.py:105-110 | an empty ring with the limit one |
| Services.Registry.OrdersAfterAny | aioxmpp/service.py:607-632 | true if and only if a member of the set other than the class itself can be reached by one or more edges; on an acyclic graph, any member |
| Services.Registry.Search | aioxmpp/service.py:618-632 | one search with a shared set of visited classes: sound, and if it finds nothing all that its new classes lead to is visited and none of it sought |
| Services.Registry.OrdersAfter | aioxmpp/service.py:595-605 | true if and only if the other class can be reached |
| Services.Registry.IndependentFrom | aioxmpp/service.py:634-646 | true if and only if the classes differ and neither can be reached from the other |
| Services.Registry.NoLoop | aioxmpp/service.py:508-513 | with disjoint ORDER_BEFORE and ORDER_AFTER, searches sharing their visited set, in any order, refuse exactly if a class in ORDER_AFTER leads to one in ORDER_BEFORE |
| Services.Registry.Define | aioxmpp/service.py:579-582 | an accepted definition of a class keeps an acyclic graph acyclic if and only if ORDER_BEFORE and ORDER_AFTER are disjoint |
| ServiceGraph.ExtendedAcyclicIff | aioxmpp/service.py:502-513 | adding a class to an acyclic graph gives an acyclic graph if and only if the sets are disjoint and no class it comes after leads to one it comes before |
| Services.SharedMemberIsAccepted | aioxmpp/service.py:508-513 | a class declared before and after the same class passes the check, and then neither of the two can be summoned |
| Services.Client.Summon | aioxmpp/node.py:1095-1106 | fails if and only if a cycle of classes not yet summoned can be reached; else the services grow by exactly the unsummoned classes that can be reached, and none is replaced |
| Services.Client.SummonWith | aioxmpp/node.py:1068-1093 | the recursion ends; every class is instantiated once, with the instances of exactly its dependencies and an index above theirs; classes being summoned all lead to the current one |
| Services.AcyclicNeverFails | aioxmpp/node.py:1068-1093 | over an acyclic graph summoning never fails |
| Services.SummonedLeadsToNoCycle | aioxmpp/node.py:1078-1083 | what can be reached from a summoned class is summoned, and contains no cycle |
| SrvOrder.GroupAndOrder | aioxmpp/network.py:399-435 | for every generator of numbers: a permutation of the records by ascending priority, within one priority in the order that the draws determine |
| SrvOrder.OrderGroup | aioxmpp/network.py:417-435 | the loop always picks and ends, because the total is always the sum of the weights that are left |
| SrvOrder.PickedInProportion | aioxmpp/network.py:427-435 | of the values that can be drawn, a record is picked by exactly as many as its weight, the first by one more |
| SrvOrder.Pick | aioxmpp/network.py:428-435 | the first record at which the running sum reaches the value |
| SrvOrder.OnePlace | aioxmpp/network.py:429-431 | a value picks one record only |
| SrvOrder.DrawnOnce | aioxmpp/network.py:422-435 | the numbers drawn determine the order of a group |
| SrvOrder.OrderedAscends | aioxmpp/network.py:411-415 | the order of the groups is ascending in priority |
| SrvOrder.OrderedPermutes | aioxmpp/network.py:411-435 | every record occurs as often as before |
| SrvOrder.YieldedOnce | aioxmpp/network.py:411-435 | the records and the numbers drawn determine what is yielded |
| SrvOrder.SortIsStable | aioxmpp/network.py:411-411 | records of one priority and weight stay in the order in which they came |
| SrvOrder.SortSorts | aioxmpp/network.py:411-411 | the sort is a permutation by ascending priority, and within one priority by ascending weight |
| NmToken.Injective | aioxmpp/utils.py:325-349 | two different tokens, numbers and byte strings taken together, never have the same NMTOKEN |
| NmToken.TokenReadsBack | aioxmpp/utils.py:337-349 | a decoder gives back the number or the byte string from its NMTOKEN |
| NmToken.IsNmtoken | aioxmpp/utils.py:325-349 | the result consists of letters, digits and the characters - _ : . only, and is not empty |
| NmToken.BytesReadBack | aioxmpp/utils.py:338-341 | as many bytes as the bit length calls for are enough to read the number back |
| NmToken.FewestBytes | aioxmpp/utils.py:338-341 | a number is written in the fewest bytes: none for zero, otherwise the most significant, the last, is not zero |
| NmToken.TextIsNumber | aioxmpp/utils.py:342-342 | the text, read as a number of base 64, is the bytes, read as a number of base 256, with as few zero bits as fill the last digit |
| NmToken.EncodedReadsBack | aioxmpp/utils.py:342-342 | what base64 writes without its padding still decodes, and contains only characters of the alphabet |
| NmToken.ToNmtoken | aioxmpp/utils.py:337-351 | exactly the negative numbers are refused |
| StateWaiters.FirstStateDecides | aioxmpp/statemachine.py:100-129 | over any operations the first state assigned at or above its target decides a waiter, whether the machine is rewound in between or not |
| StateWaiters.WaitForSucceedsIff | aioxmpp/statemachine.py:151-169 | waiting for a state succeeds if and only if the first state assigned at or above it is that state |
| StateWaiters.WaitForAtLeastSucceedsIff | aioxmpp/statemachine.py:171-181 | waiting for at least a state succeeds if and only if any state at or above it is assigned |
| StateWaiters.RunKeepsAllAbove | aioxmpp/statemachine.py:100-149 | whoever still waits, waits for a state above the current one |
| StateMachines.OrderedStateMachine.SetState | aioxmpp/statemachine.py:100-129 | refused exactly if it goes back, and then nothing changes; else the state is the new one, the two loops complete every future as the value model says, and keep exactly the waiters that still wait |
| StateMachines.OrderedStateMachine.SettleLeast | aioxmpp/statemachine.py:108-116 | the first loop settles exactly the pending waiters of its kind |
| StateMachines.OrderedStateMachine.SettleExact | aioxmpp/statemachine.py:118-129 | the second loop settles exactly the pending waiters for one state, by returning or by raising |
| StateMachines.OrderedStateMachine.Rewind | aioxmpp/statemachine.py:131-149 | refused exactly if it goes forward; else the state is the new one; no future is touched |
| StateMachines.OrderedStateMachine.WaitFor | aioxmpp/statemachine.py:151-169 | returns or raises at once if the state is reached or passed, else registers a new future |
| StateMachines.OrderedStateMachine.WaitForAtLeast | aioxmpp/statemachine.py:171-181 | returns at once if the state is reached or passed, else registers a new future |
| StateMachines.OrderedStateMachine.Cancel | aioxmpp/statemachine.py:110-121 | a future cancelled from outside is cancelled exactly if it was pending, and is left alone by assignments from then on |
| Languages.BasicFilterLanguages | aioxmpp/structs.py:1232-1273 | without a wildcard exactly the first matches of all matched tags, by priority of the range and then by position; no tag comes twice if and only if no wildcard is asked for or none was given twice |
| Languages.LookupLanguage | aioxmpp/structs.py:1276-1298 | the first language accepted by the earliest candidate, in order of range and number of strips, that accepts any; none if no candidate does |
| Languages.LookupIsUnique | aioxmpp/structs.py:1276-1298 | this determines the result |
| Languages.LookupRange | aioxmpp/structs.py:1286-1298 | the loop that strips one range ends and tries its candidates in order |
| Languages.MatchesIff | aioxmpp/structs.py:1258-1271 | as section 3.3.1 of RFC 4647 says: a range matches a tag if and only if the parts of the lower-cased range are a prefix of the parts of the lower-cased tag |
| Languages.SameTagIff | aioxmpp/structs.py:1108-1112 | tags are the same exactly if they differ in the case of letters at most |
| Languages.WildcardIff | aioxmpp/structs.py:1229-1229 | the wildcard is the asterisk alone |
| Languages.StripsIff | aioxmpp/structs.py:1213-1226 | exactly what is left of a range: a text that is not empty, such that its last part and separator were cut off, with a single character that was a part before it; and an error if there is no such text |
| Languages.CandidatesInOrder | aioxmpp/structs.py:1285-1298 | all that lookup tries for one range comes after all that it tries for earlier ranges and before all that it tries for later ones |
| Languages.StrippingShortens | aioxmpp/structs.py:1213-1226 | stripping takes away the last part and at most one part of one character before it, so the range gets shorter |
| Languages.StrippedToWildcardIff | aioxmpp/structs.py:1220-1226 | stripping makes a wildcard of exactly the ranges of three parts which begin with one and have a single character in the middle |
| Languages.FirstMatchExists | aioxmpp/structs.py:1254-1273 | every tag that is matched at all has a first match |

## Left out

- Scheduling, futures, cancellation and locks: a broker turn and a teardown are one step each, and the lock is taken to be free at teardown.
- Runs do not contain a broker turn whose ack request raises; `SmFaults` is about such turns.  Nor do they contain `start()` on a stopped stream with management still enabled, which the code accepts (aioxmpp/stream.py:1879-1893) and with which client and server no longer agree on a session.
- SmRuns.CloseFinishesEverything: a close out of which the exception of the broker task escapes is a disconnect step in runs; `SmOutcome.RaisingCloseFinishesIff` says what it leaves.
- Stanza filters and the serialiser: an arbitrary outcome per token (forwarded, dropped, failed).  Handlers for IQ, message and presence stanzas, stanzas received with errors (they count like others), and `flush_incoming`.
- Pings, soft limits and timeouts of the XML stream: an ack request that the soft limit triggers is a step, what triggers it is not modelled.
- The last ack that closing sends (aioxmpp/stream.py:1962-1966) is part of `StanzaStreams.StanzaStream.Close`; in runs it is an ack step before the closing one.
- Negotiation of stream management before the response, the session's id, location and maximum: the exchange of a resume request and its response is one step, or one whose response is lost.
- SmFaults.LeftoverStanzasLoseRetransmission: runs assume that no stanza waits when management is enabled; this lemma is about the other case, before the client has answered any ack request of the new session.
- Callbacks (`on_state_change`, signals, constructors of services): taken not to call back into the object.
- Escaping and encoding of text: texts and values are sequences of characters, written as they are.  Namespace names are opaque but for the three that are reserved or empty.  `sorted_attributes` and `additional_escapes`, which change neither names nor scopes, and `startDocument`.
- XmlTree.WriteReadsBack: assumes what reading back needs: no declared prefix has the form `ns<n>`; no attribute is given a prefix for the namespace of its unprefixed element unless the tag is closed empty; an element without namespace is not inside a default namespace; no reserved namespace is declared, no prefix is declared for the empty namespace, and no name is in the namespace of declarations.  For each there is a document in XmlLimits that is written and does not read back.  That attributes have different names is what a dictionary of attributes gives.
- XmlTree.DocumentReadsBack: the same limits, from a new generator; `XmlLimits.PlainDocument` states them of the tree alone.
- XmlAccept.WriteAcceptedIff: the same limits; beyond them only the documents in XmlLimits are considered.
- XMPPXMLProcessor: the checks of the stream header (name, version, from, id, language) are one outcome, and its attributes are not kept; processing instructions, which always raise.
- XMLStreamWriter, the XSO package, and expat.
- JIDs themselves: stringprep and the rules for their parts.
- LRUDict: iteration order of the dict, and what its base class derives from the modelled methods.
- Meta: the checks of handlers, descriptors and base classes; ORDER_AFTER is taken to name classes already defined, as Python requires.  Classes defined after a summoning: the graph is fixed while a class is summoned.
- Services.Registry.Define: for a class declared before and after the same class whether the definition is refused depends on the iteration order of a set; only what follows from acceptance is stated.
- SRV records are those of DNS: weights and priorities are not negative.  The rest of aioxmpp/network.py is DNS and I/O.
- OrderedStateMachine: states are integers, standing for any total order.
- Languages: lower-casing is that of ASCII letters.
- to_nmtoken: arguments of other types, which raise TypeError.
- Connecting, TLS, SASL, presence, the dispatcher, trackers, hashes and tasks: I/O or small lookups.
