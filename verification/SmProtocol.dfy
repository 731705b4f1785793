// Runs of a stanza stream against an honest XEP-0198 server.
//
// The two directions are FIFO channels.  Whatever is still in a channel when the next
// connection is made never arrives, so a disconnect loses an arbitrary suffix: the peer may
// have read any prefix before.  A connection which is dead without the client noticing is one
// on which the server takes no further step.

module SmProtocol {
  import opened Common
  import opened SmClient

  datatype Server = Server(
    session: bool,
    received: seq<nat>,     // tokens, over all sessions
    start: nat,             // |received| when the session began
    sent: seq<string>,      // stanzas sent in the session
    acked: nat)             // how many of those the client acknowledged

  datatype System = System(
    client: Client,
    server: Server,
    c2s: seq<Outgoing>,
    s2c: seq<Incoming>,
    acked: nat,             // bookkeeping: tokens of this session acknowledged to the client
    processed: seq<string>) // bookkeeping: stanzas of this session processed by the client

  const START := System(INITIAL, Server(false, [], 0, [], 0), [], [], 0, [])

  datatype Step =
    | EnqueueStanza | AbortToken(token: nat)
    | Take | SendTurn(outcomes: nat -> SendOutcome) | ReceiveTurn | Announce | SoftLimit
    | Disconnect | CloseStream | StopManagement
    | Connect | EnableSm(resumable: bool)
    | Resume | ResumeResponseLost | Refuse(withCounter: bool)
    | ServerReads | ServerSends(payload: string) | ServerAnswers | ServerAsks | Deliver

  // ---------------------------------------------------------------- the server

  /** The total which the server announces. */
  function Count(v: Server): (n: nat) {
    if v.start <= |v.received| then |v.received| - v.start else 0
  }

  /** An honest server applies the client's counter as section 4 of XEP-0198 says. */
  function ServerAck(v: Server, h: int): Server {
    var k := Wrap(h - v.acked);
    if v.acked + k <= |v.sent| then v.(acked := v.acked + k) else v
  }

  function Outstanding(v: Server): seq<string> {
    if v.acked <= |v.sent| then v.sent[v.acked..] else []
  }

  function AsIncoming(payloads: seq<string>): seq<Incoming> {
    if payloads == [] then [] else [Stanza(payloads[0])] + AsIncoming(payloads[1..])
  }

  function ServerHandles(s: System, m: Outgoing): System {
    match m
    case TokenStanza(token) => s.(server := s.server.(received := s.server.received + [token]))
    case Answer(h) => s.(server := ServerAck(s.server, h))
    case Request => if s.server.session then ToClient(s, Acknowledgement(Wrap(Count(s.server)))) else s
  }

  // ---------------------------------------------------------------- steps

  /** What the server writes reaches the client only while it is connected. */
  function ToClient(s: System, m: Incoming): System {
    if s.client.running then s.(s2c := s.s2c + [m]) else s
  }

  function Transmit(s: System, r: (Client, seq<Outgoing>)): System {
    s.(client := r.0, c2s := s.c2s + r.1)
  }

  function NewlyAcked(c: Client): nat {
    if c.incoming != [] && c.incoming[0].Acknowledgement? && c.smEnabled then ToDrop(c, c.incoming[0].h) else 0
  }

  predicate Enabled(s: System, step: Step) {
    var c := s.client;
    match step
    case EnqueueStanza => true
    case AbortToken(token) => token < |c.states|
    case Take => c.running && c.slot == None && c.queue != []
    case SendTurn(_) =>
      c.running && c.slot.Some? && c.slot.value < |c.states| && forall t <- c.queue :: t < |c.states|
    case ReceiveTurn => c.running && c.incoming != []
    case Announce => c.running && c.smEnabled
    case SoftLimit => c.running && c.smEnabled
    case Disconnect => c.running
    case CloseStream => true
    case StopManagement => !c.running && c.smEnabled
    case Connect => !c.running && !c.smEnabled
    // The channels are FIFO: all that was sent earlier has arrived when the response does.
    case EnableSm(_) => c.running && !c.smEnabled && s.c2s == [] && s.s2c == [] && c.incoming == []
    case Resume => !c.running && c.smEnabled
    case ResumeResponseLost => !c.running && c.smEnabled
    case Refuse(_) => !c.running && c.smEnabled
    case ServerReads => s.c2s != []
    case ServerSends(_) => s.server.session || c.running
    case ServerAnswers => s.server.session
    case ServerAsks => s.server.session
    case Deliver => c.running && s.s2c != []
  }

  function Next(s: System, step: Step): System
    requires Enabled(s, step)
  {
    var c, v := s.client, s.server;
    match step
    case EnqueueStanza => (match Enqueue(c) case Some(d) => s.(client := d) case None => s)
    case AbortToken(token) => (match Abort(c, token) case Some(d) => s.(client := d) case None => s)
    case Take => s.(client := TakeSlot(c))
    case SendTurn(outcomes) => Transmit(s, ProcessOutgoing(c, outcomes))
    case ReceiveTurn =>
      var r := ProcessIncoming(c);
      if !r.ok then s.(client := Teardown(r.client), s2c := [])
      else s.(client := r.client, c2s := s.c2s + r.out, acked := s.acked + NewlyAcked(c),
              processed := if c.smEnabled && r.delivered.Some? then s.processed + [r.delivered.value] else s.processed)
    case Announce => s.(c2s := s.c2s + [Answer(c.inboundCtr)])
    case SoftLimit => s.(c2s := s.c2s + [Request])
    case Disconnect => s.(client := Teardown(c), s2c := [])
    case CloseStream => s.(client := Close(c), s2c := [])
    case StopManagement => s.(client := StopSm(c))
    case Connect => s.(client := Start(c), c2s := [], s2c := [], server := v.(session := false))
    case EnableSm(resumable) =>
      s.(client := SmEnabled(c, resumable),
         server := v.(session := true, start := |v.received|, sent := [], acked := 0),
         acked := 0, processed := [])
    case Resume => Resumed(s)
    case ResumeResponseLost => s.(server := ServerAck(v, c.inboundCtr), c2s := [], s2c := [])
    case Refuse(withCounter) =>
      (match ResumeRefused(c, if withCounter then Some(Wrap(Count(v))) else None)
       case Some(d) => s.(client := d, server := v.(session := false), c2s := [], s2c := [])
       case None => s.(server := v.(session := false), c2s := [], s2c := []))
    case ServerReads => ServerHandles(s.(c2s := s.c2s[1..]), s.c2s[0])
    case ServerSends(payload) =>
      ToClient(if v.session then s.(server := v.(sent := v.sent + [payload])) else s, Stanza(payload))
    case ServerAnswers => ToClient(s, Acknowledgement(Wrap(Count(v))))
    case ServerAsks => ToClient(s, AckRequest)
    case Deliver => s.(client := c.(incoming := c.incoming + [s.s2c[0]]), s2c := s.s2c[1..])
  }

  /** A successful resumption: both sides exchange counters and the server retransmits. */
  function Resumed(s: System): System {
    var v := ServerAck(s.server, s.client.inboundCtr);
    match ResumeSm(s.client, Wrap(Count(v)))
    case Some(d) =>
      s.(client := d.(running := true), server := v, c2s := [], s2c := AsIncoming(Outstanding(v)),
         acked := s.acked + ToDrop(s.client, Wrap(Count(v))))
    case None => s.(server := v, c2s := [], s2c := [])
  }

  // ---------------------------------------------------------------- projections of the channels

  function Tokens(ms: seq<Outgoing>): seq<nat> {
    if ms == [] then [] else if ms[0].TokenStanza? then [ms[0].token] + Tokens(ms[1..]) else Tokens(ms[1..])
  }

  function Answers(ms: seq<Outgoing>): seq<int> {
    if ms == [] then [] else if ms[0].Answer? then [ms[0].h] + Answers(ms[1..]) else Answers(ms[1..])
  }

  function Payloads(ms: seq<Incoming>): seq<string> {
    if ms == [] then [] else if ms[0].Stanza? then [ms[0].payload] + Payloads(ms[1..]) else Payloads(ms[1..])
  }

  function Heights(ms: seq<Incoming>): seq<int> {
    if ms == [] then [] else if ms[0].Acknowledgement? then [ms[0].h] + Heights(ms[1..]) else Heights(ms[1..])
  }

  lemma {:induction false} OutgoingConcat(a: seq<Outgoing>, b: seq<Outgoing>)
    ensures Tokens(a + b) == Tokens(a) + Tokens(b)
    ensures Answers(a + b) == Answers(a) + Answers(b)
  {
    if a == [] {
      assert a + b == b;
    } else {
      assert (a + b)[1..] == a[1..] + b;
      OutgoingConcat(a[1..], b);
    }
  }

  lemma {:induction false} IncomingConcat(a: seq<Incoming>, b: seq<Incoming>)
    ensures Payloads(a + b) == Payloads(a) + Payloads(b)
    ensures Heights(a + b) == Heights(a) + Heights(b)
  {
    if a == [] {
      assert a + b == b;
    } else {
      assert (a + b)[1..] == a[1..] + b;
      IncomingConcat(a[1..], b);
    }
  }

  lemma {:induction false} Retransmission(ps: seq<string>)
    ensures Payloads(AsIncoming(ps)) == ps && Heights(AsIncoming(ps)) == []
  {
    if ps != [] {
      Retransmission(ps[1..]);
      assert AsIncoming(ps)[1..] == AsIncoming(ps[1..]);
    }
  }

  // ---------------------------------------------------------------- counters in flight

  /** Unwrapping `hs` one after the other from the total `a` gives totals which never exceed `r`. */
  predicate CountersOk(hs: seq<int>, a: nat, r: nat) {
    if hs == [] then a <= r
    else 0 <= hs[0] < WRAP && CountersOk(hs[1..], a + Wrap(hs[0] - a), r)
  }

  lemma {:induction false} CountersBelow(hs: seq<int>, a: nat, r: nat)
    requires CountersOk(hs, a, r)
    ensures a <= r
  {
    if hs != [] {
      CountersBelow(hs[1..], a + Wrap(hs[0] - a), r);
    }
  }

  lemma {:induction false} CountersGrow(hs: seq<int>, a: nat, r: nat, r': nat)
    requires CountersOk(hs, a, r) && r <= r'
    ensures CountersOk(hs, a, r')
  {
    if hs != [] {
      CountersGrow(hs[1..], a + Wrap(hs[0] - a), r, r');
    }
  }

  lemma {:induction false} CountersAppend(hs: seq<int>, a: nat, r: nat)
    requires CountersOk(hs, a, r) && r - a < WRAP
    ensures CountersOk(hs + [Wrap(r)], a, r)
  {
    if hs == [] {
      Unwrap(a, r);
      assert CountersOk([], r, r);
      assert ([] + [Wrap(r)])[1..] == [];
    } else {
      var t := a + Wrap(hs[0] - a);
      CountersBelow(hs[1..], t, r);
      CountersAppend(hs[1..], t, r);
      assert (hs + [Wrap(r)])[1..] == hs[1..] + [Wrap(r)];
    }
  }

  /** A wrapped total unwraps to itself from any earlier total less than 2^32 below. */
  lemma Unwrap(a: nat, r: nat)
    requires a <= r
    ensures Wrap(Wrap(r) - a) == Wrap(r - a)
    ensures r - a < WRAP ==> a + Wrap(Wrap(r) - a) == r
  {
    WrapDistance(a, r);
    ModShift(Wrap(r) - a, a / WRAP);
  }

  lemma Rewrap(a: nat, h: int)
    requires 0 <= h < WRAP
    ensures Wrap(a + Wrap(h - a)) == h
    ensures Wrap(h - Wrap(a)) == Wrap(h - a)
  {
    var q := (h - a) / WRAP;
    assert a + Wrap(h - a) == h + (-q) * WRAP;
    ModShift(h, -q);
    assert h - Wrap(a) == (h - a) + (a / WRAP) * WRAP;
    ModShift(h - a, a / WRAP);
  }

}
