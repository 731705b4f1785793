// Three promises which the stream does not keep on all inputs: where exactly each one fails,
// and a run in which it does.

module SmFaults {
  import opened Common
  import opened SmClient
  import opened SmProtocol
  import opened SmSafety
  import opened SmRuns
  import opened SmOutcome

  const ALL_FORWARDED: nat -> SendOutcome := t => Forwarded

  // ---------------------------------------------------------------- the request for an ack fails

  /**
   * A broker turn in which writing the final request raises: the tokens have been sent, but the
   * broker still holds the future whose token it processed first, and puts it back.
   */
  function TurnRaises(c: Client, outcomes: nat -> SendOutcome): (Client, seq<Outgoing>)
    requires c.slot.Some? && c.slot.value < |c.states| && forall t <- c.queue :: t < |c.states|
  {
    var (sent, out) := SendSlot(c, outcomes(c.slot.value));
    var (rest, more) := SendQueue(sent, outcomes);
    (Teardown(rest.(slot := c.slot)), out + more)
  }

  lemma SendSlotElsewhere(c: Client, outcome: SendOutcome, t: nat)
    requires c.slot.Some? && c.slot.value < |c.states| && c.slot.value != t && t < |c.states|
    ensures var d := SendSlot(c, outcome).0;
            && d.states[t] == c.states[t] && multiset(d.unacked)[t] == multiset(c.unacked)[t]
            && d.resumable == c.resumable
  {
  }

  /** Sending the queue does not concern a token which is not in it. */
  lemma {:induction false} SendQueueElsewhere(c: Client, outcomes: nat -> SendOutcome, t: nat)
    requires c.slot == None && (forall x <- c.queue :: x < |c.states|) && t !in c.queue && t < |c.states|
    ensures var d := SendQueue(c, outcomes).0;
            && |d.states| == |c.states| && d.states[t] == c.states[t]
            && multiset(d.unacked)[t] == multiset(c.unacked)[t]
            && d.resumable == c.resumable
    decreases |c.queue|
  {
    hide SendSlot;
    if c.queue != [] {
      var taken := TakeSlot(c);
      assert taken.slot.value in c.queue && forall x <- taken.queue :: x in c.queue;
      SendSlotElsewhere(taken, outcomes(taken.slot.value), t);
      SendQueueElsewhere(SendSlot(taken, outcomes(taken.slot.value)).0, outcomes, t);
    }
  }

  lemma PutBackPlaced(states: seq<StanzaState>, u: multiset<nat>, t: nat)
    requires Placed(states, multiset([]), u, true) && t < |states|
    requires states[t] != ACTIVE
    ensures Placed(states, multiset([t]), u, true) <==> states[t] == ABORTED
  {
    assert multiset([t])[t] == 1;
    if states[t] == SENT {
      assert t in u;
      assert multiset([t])[t] + u[t] > 1;
    } else {
      assert t !in u;
    }
    if !MayWait(states[t], true) {
      assert t in multiset([t]);
    }
  }

  /** On a resumable stream each token stays in one place if and only if the first one was aborted. */
  lemma RaisingTurnKeepsTokensIff(s: System, outcomes: nat -> SendOutcome)
    requires Inv(s) && Enabled(s, SendTurn(outcomes)) && s.client.smEnabled && s.client.resumable
    ensures ClientTokens(TurnRaises(s.client, outcomes).0)
       <==> s.client.states[s.client.slot.value] == ABORTED
  {
    hide Inv, Placed, SendSlot, SendQueue, Teardown;
    var c, t := s.client, s.client.slot.value;
    var outcome := outcomes(t);
    assert CanSend(s);
    SlotOutOfQueue(s);
    SendSlotKeepsInv(s, outcome);
    var sent := Transmit(s, SendSlot(c, outcome));
    SendQueueKeepsInv(sent, outcomes);
    var rest := Transmit(sent, SendQueue(sent.client, outcomes));
    SendQueueElsewhere(sent.client, outcomes, t);
    InvTokens(rest);
    SendSlotShape(c, outcome);
    PutBackPlaced(rest.client.states, multiset(rest.client.unacked), t);
    TornDownWithSlot(rest.client, t);
  }

  lemma TornDownWithSlot(c: Client, t: nat)
    requires c.queue == [] && c.smEnabled && c.resumable
    ensures var d := Teardown(c.(slot := Some(t)));
            Waiting(d) == [t] && d.states == c.states && d.unacked == c.unacked && d.smEnabled
  {
    TeardownFrame(c.(slot := Some(t)));
  }

  lemma SlotOutOfQueue(s: System)
    requires CanSend(s)
    ensures s.client.slot.value !in s.client.queue
    ensures s.client.states[s.client.slot.value] in {ACTIVE, ABORTED, SENT}
  {
    hide Session;
    var t := s.client.slot.value;
    assert Waiting(s.client) == [t] + s.client.queue;
    assert t in multiset(Waiting(s.client));
    SlotOnce(s, multiset(s.client.queue));
  }

  /** A stream with management enabled and one stanza in the broker's slot. */
  const ONE_TAKEN := System(
    Client([ACTIVE], [], Some(0), [], [], true, true, 0, 0, true, false),
    Server(true, [], 0, [], 0), [], [], 0, [])

  lemma Extend(run: seq<System>, steps: seq<Step>, step: Step, s: System) returns (run': seq<System>, steps': seq<Step>)
    requires IsRun(run, steps) && Enabled(run[|run| - 1], step) && Next(run[|run| - 1], step) == s && Bounded(s)
    ensures IsRun(run', steps') && run'[|run'| - 1] == s
  {
    run', steps' := run + [s], steps + [step];
    hide Next, Enabled, Bounded;
    assert Bounded(s);
    forall i | 0 <= i < |steps'| ensures Enabled(run'[i], steps'[i]) && run'[i + 1] == Next(run'[i], steps'[i]) {
      if i < |steps| {
        assert run'[i] == run[i] && run'[i + 1] == run[i + 1] && steps'[i] == steps[i];
      }
    }
  }

  lemma ManagedRun() returns (run: seq<System>, steps: seq<Step>)
    ensures IsRun(run, steps)
    ensures run[|run| - 1] == System(INITIAL.(smEnabled := true, resumable := true, running := true),
                                     Server(true, [], 0, [], 0), [], [], 0, [])
  {
    run, steps := [START], [];
    run, steps := Extend(run, steps, Connect, Next(START, Connect));
    run, steps := Extend(run, steps, EnableSm(true), Next(Next(START, Connect), EnableSm(true)));
  }

  lemma OneTakenIsReachable() returns (run: seq<System>, steps: seq<Step>)
    ensures IsRun(run, steps) && run[|run| - 1] == ONE_TAKEN
  {
    run, steps := ManagedRun();
    var s := run[|run| - 1];
    run, steps := Extend(run, steps, EnqueueStanza, Next(s, EnqueueStanza));
    run, steps := Extend(run, steps, Take, ONE_TAKEN);
  }

  /** The raising turn: the token is in the unacked list and in the queue. */
  const TORN := System(
    Client([SENT], [0], None, [0], [], true, true, 0, 0, false, false),
    Server(true, [], 0, [], 0), [TokenStanza(0)], [], 0, [])

  /** The server has read it, and the client has resumed: the token is acknowledged and in the queue. */
  const REQUEUED := System(
    Client([ACKED], [0], None, [], [], true, true, 1, 0, true, false),
    Server(true, [0], 0, [], 0), [], [], 1, [])

  const READ := TORN.(server := Server(true, [0], 0, [], 0), c2s := [])

  lemma RaisingTurnOnOne()
    ensures var (torn, out) := TurnRaises(ONE_TAKEN.client, ALL_FORWARDED);
            ONE_TAKEN.(client := torn, c2s := out) == TORN
  {
  }

  lemma ServerReadsTorn()
    ensures Enabled(TORN, ServerReads) && Next(TORN, ServerReads) == READ
  {
  }

  lemma ResumeAfterRaise()
    ensures Enabled(READ, Resume) && Next(READ, Resume) == REQUEUED
  {
    var u: seq<nat> := [0];
    assert u[..1] == u && u[1..] == [];
    assert SetStates([SENT], u, ACKED) == [ACKED];
    assert SmAck(READ.client, 1) == Some(READ.client.(unacked := [], base := 1, states := [ACKED]));
    assert Reverse<nat>([]) + u == u;
  }

  lemma SentAgain()
    ensures Enabled(REQUEUED, Take) && Enabled(Next(REQUEUED, Take), SendTurn(ALL_FORWARDED))
    ensures var s := Next(Next(REQUEUED, Take), SendTurn(ALL_FORWARDED));
            && s.client.states == [SENT] && s.c2s == [TokenStanza(0), Request]
            && s.server == REQUEUED.server
  {
  }

  /** The state after some steps, if they can be taken. */
  function Play(s: System, steps: seq<Step>): Option<System>
    decreases |steps|
  {
    if steps == [] then Some(s)
    else if Enabled(s, steps[0]) then Play(Next(s, steps[0]), steps[1..])
    else None
  }

  lemma PlayOne(s: System, step: Step, rest: seq<Step>)
    requires Enabled(s, step)
    ensures Play(s, [step] + rest) == Play(Next(s, step), rest)
  {
    assert ([step] + rest)[1..] == rest;
  }

  const UNTIL_ACKED := [ServerReads, Resume]
  const UNTIL_TWICE := [ServerReads, Resume, Take, SendTurn(ALL_FORWARDED), ServerReads]

  lemma PlayTorn()
    ensures Play(TORN, UNTIL_ACKED) == Some(REQUEUED)
    ensures Enabled(REQUEUED, Take) && Enabled(Next(REQUEUED, Take), SendTurn(ALL_FORWARDED))
    ensures var sent := Next(Next(REQUEUED, Take), SendTurn(ALL_FORWARDED));
      Enabled(sent, ServerReads) && Play(TORN, UNTIL_TWICE) == Some(Next(sent, ServerReads))
  {
    ServerReadsTorn();
    ResumeAfterRaise();
    SentAgain();
    ReadsFirst(Next(Next(REQUEUED, Take), SendTurn(ALL_FORWARDED)));
    PlayTwo(TORN, ServerReads, Resume, []);
    PlayFive(TORN, REQUEUED, ServerReads, Resume, Take, SendTurn(ALL_FORWARDED), ServerReads);
  }

  lemma PlayFive(s: System, t: System, a: Step, b: Step, c: Step, d: Step, e: Step)
    requires Enabled(s, a) && Enabled(Next(s, a), b) && Next(Next(s, a), b) == t
    requires Enabled(t, c) && Enabled(Next(t, c), d) && Enabled(Next(Next(t, c), d), e)
    ensures Play(s, [a, b, c, d, e]) == Some(Next(Next(Next(t, c), d), e))
  {
    hide Next, Enabled, Play;
    assert [a, b, c, d, e] == [a] + ([b] + ([c] + ([d] + ([e] + []))));
    PlayTwo(s, a, b, [c] + ([d] + ([e] + [])));
    PlayTwo(t, c, d, [e] + []);
    PlayOne(Next(Next(t, c), d), e, []);
    PlayNothing(Next(Next(Next(t, c), d), e));
  }

  lemma PlayNothing(s: System)
    ensures Play(s, []) == Some(s)
  {
  }

  lemma PlayTwo(s: System, a: Step, b: Step, rest: seq<Step>)
    requires Enabled(s, a) && Enabled(Next(s, a), b)
    ensures Play(s, [a] + ([b] + rest)) == Play(Next(Next(s, a), b), rest)
    ensures Play(s, [a, b]) == Some(Next(Next(s, a), b))
  {
    hide Next, Enabled;
    PlayOne(s, a, [b] + rest);
    PlayOne(Next(s, a), b, rest);
    assert [a, b] == [a] + ([b] + []);
    PlayOne(s, a, [b] + []);
    PlayOne(Next(s, a), b, []);
  }

  /**
   * From the start to a broker turn of which the ack request cannot be written, and on through one resumption: the
   * token is ACKED, leaves that state, and is received twice.
   */
  lemma DuplicateDelivery() returns (run: seq<System>, steps: seq<Step>)
    ensures IsRun(run, steps) && run[|run| - 1] == ONE_TAKEN
    ensures var (torn, out) := TurnRaises(ONE_TAKEN.client, ALL_FORWARDED);
      var s := ONE_TAKEN.(client := torn, c2s := out);
      && Play(s, UNTIL_ACKED).Some? && Play(s, UNTIL_ACKED).value.client.states == [ACKED]
      && Play(s, UNTIL_TWICE).Some? && Play(s, UNTIL_TWICE).value.client.states == [SENT]
      && Play(s, UNTIL_TWICE).value.server.received == [0, 0]
  {
    RaisingTurnOnOne();
    PlayTorn();
    SentAgain();
    hide IsRun, TurnRaises, Play, Next, Enabled;
    run, steps := OneTakenIsReachable();
    ReadsFirst(Next(Next(REQUEUED, Take), SendTurn(ALL_FORWARDED)));
  }

  lemma ReadsFirst(s: System)
    requires s.c2s == [TokenStanza(0), Request] && s.server == REQUEUED.server
    ensures Enabled(s, ServerReads) && Next(s, ServerReads).server.received == [0, 0]
    ensures Next(s, ServerReads).client == s.client
  {
  }

  // ---------------------------------------------------------------- the request fails on a stream that cannot resume

  lemma {:induction false} DueMembers(states: seq<StanzaState>, ts: seq<nat>, outcomes: nat -> SendOutcome, t: nat)
    requires forall q <- ts :: q < |states|
    ensures t in Due(states, ts, outcomes) <==> t in ts && states[t] != ABORTED && outcomes(t) == Forwarded
  {
    if ts != [] {
      assert ts[0] in ts && forall q <- ts[1..] :: q in ts;
      DueMembers(states, ts[1..], outcomes, t);
      assert t in ts <==> t == ts[0] || t in ts[1..];
    }
  }

  lemma TornWithoutResumption(e: Client, first: nat, t: nat)
    requires e.queue == [] && e.slot == None && e.smEnabled && !e.resumable && t < |e.states|
    ensures var d := Teardown(e.(slot := Some(first)));
      && |d.states| == |e.states| && Waiting(d) == [] && d.unacked == []
      && d.states[t] == (if t in e.unacked then SENT_WITHOUT_SM else if t == first then DISCONNECTED else e.states[t])
  {
    assert [first] + [] == [first];
  }

  /** What the turn itself makes of a token. */
  function TurnFate(c: Client, outcomes: nat -> SendOutcome, t: nat): StanzaState
    requires t < |c.states|
  {
    if t in Waiting(c) then Fate(c.states[t], outcomes(t), c.smEnabled) else c.states[t]
  }

  /**
   * On a managed stream that is not resumable every token is finished, as the turn decided, but what is unacknowledged
   * as SENT_WITHOUT_SM; the first token, though, if it was aborted, dropped or failed, is reported as DISCONNECTED.
   */
  lemma RaisingTurnSettles(s: System, outcomes: nat -> SendOutcome, t: nat)
    requires Inv(s) && Enabled(s, SendTurn(outcomes)) && s.client.smEnabled && !s.client.resumable
    requires t < |s.client.states|
    ensures var c, d := s.client, TurnRaises(s.client, outcomes).0;
      var fate := TurnFate(c, outcomes, t);
      && |d.states| == |c.states| && Waiting(d) == [] && d.unacked == []
      && d.states[t] == (if fate == SENT then SENT_WITHOUT_SM else if t == c.slot.value then DISCONNECTED else fate)
  {
    hide Inv, SendSlot, SendQueue, Teardown;
    TurnOutcome(s, outcomes);
    var c := s.client;
    var e := ProcessOutgoing(c, outcomes).0;
    DueMembers(c.states, Waiting(c), outcomes, t);
    if t in Waiting(c) {
      NotBoth(s, t);
    } else {
      SentIsUnacked(s, t);
    }
    SameMode(c, outcomes);
    TornWithoutResumption(e, c.slot.value, t);
  }

  lemma SameMode(c: Client, outcomes: nat -> SendOutcome)
    requires c.slot.Some? && c.slot.value < |c.states| && forall t <- c.queue :: t < |c.states|
    ensures var e := ProcessOutgoing(c, outcomes).0;
      && e.queue == [] && e.slot == None && e.smEnabled == c.smEnabled && e.resumable == c.resumable
      && TurnRaises(c, outcomes).0 == Teardown(e.(slot := c.slot))
  {
    hide Teardown;
    SendQueueMode(SendSlot(c, outcomes(c.slot.value)).0, outcomes);
  }

  lemma {:induction false} SendQueueMode(c: Client, outcomes: nat -> SendOutcome)
    requires c.slot == None && forall t <- c.queue :: t < |c.states|
    ensures SendQueue(c, outcomes).0.resumable == c.resumable
    decreases |c.queue|
  {
    if c.queue != [] {
      var taken := TakeSlot(c);
      assert taken.slot.value in c.queue && forall t <- taken.queue :: t in c.queue;
      SendQueueMode(SendSlot(taken, outcomes(taken.slot.value)).0, outcomes);
    }
  }

  lemma SentIsUnacked(s: System, t: nat)
    requires Inv(s) && t < |s.client.states| && t !in Waiting(s.client)
    ensures t in s.client.unacked <==> s.client.states[t] == SENT
  {
    UnackedDistinct(s);
    if t !in s.client.unacked {
      PlaceOf(s, t);
    }
  }

  // ---------------------------------------------------------------- reversed retransmission

  /** Two stanzas in flight when the connection breaks. */
  const TWO_LOST := System(
    Client([SENT, SENT], [], None, [0, 1], [], true, true, 0, 0, false, false),
    Server(true, [], 0, [], 0), [TokenStanza(0), TokenStanza(1), Request], [], 0, [])

  /** As TWO_LOST, before the broker's turn. */
  const TWO_QUEUED := System(
    Client([ACTIVE, ACTIVE], [1], Some(0), [], [], true, true, 0, 0, true, false),
    Server(true, [], 0, [], 0), [], [], 0, [])

  lemma SendBoth()
    ensures Enabled(TWO_QUEUED, SendTurn(ALL_FORWARDED))
    ensures Next(TWO_QUEUED, SendTurn(ALL_FORWARDED)) == TWO_LOST.(client := TWO_LOST.client.(running := true))
  {
    var c := TWO_QUEUED.client;
    var d := Client([SENT, ACTIVE], [1], None, [0], [], true, true, 0, 0, true, false);
    var f := Client([SENT, SENT], [], None, [0, 1], [], true, true, 0, 0, true, false);
    assert c.states[0 := SENT] == d.states && c.unacked + [0] == d.unacked;
    assert SendSlot(c, Forwarded) == (d, [TokenStanza(0)]);
    assert d.states[1 := SENT] == f.states && d.unacked + [1] == f.unacked && d.queue[1..] == [];
    assert SendSlot(TakeSlot(d), Forwarded) == (f, [TokenStanza(1)]);
    assert SendQueue(f, ALL_FORWARDED) == (f, []);
    assert SendQueue(d, ALL_FORWARDED) == (f, [TokenStanza(1)] + []);
  }

  lemma TwoLostIsReachable() returns (run: seq<System>, steps: seq<Step>)
    ensures IsRun(run, steps) && run[|run| - 1] == TWO_LOST
  {
    run, steps := ManagedRun();
    var s := Next(run[|run| - 1], EnqueueStanza);
    run, steps := Extend(run, steps, EnqueueStanza, s);
    var t := s.(client := Client([ACTIVE, ACTIVE], [0, 1], None, [], [], true, true, 0, 0, true, false));
    run, steps := Extend(run, steps, EnqueueStanza, t);
    run, steps := Extend(run, steps, Take, TWO_QUEUED);
    SendBoth();
    run, steps := Extend(run, steps, SendTurn(ALL_FORWARDED), TWO_LOST.(client := TWO_LOST.client.(running := true)));
    run, steps := Extend(run, steps, Disconnect, TWO_LOST);
  }

  /** The stanza which was enqueued second is retransmitted first. */
  lemma ReversedRetransmission()
    ensures Enabled(TWO_LOST, Resume) && Next(TWO_LOST, Resume).client.queue == [1, 0]
  {
    var c := TWO_LOST.client;
    assert c.unacked[0..] == c.unacked;
    assert ToDrop(c, 0) == 0;
    ReverseTwo();
  }

  lemma ReverseTwo()
    ensures Reverse<nat>([0, 1]) == [1, 0]
  {
  }

  // ---------------------------------------------------------------- enabling with stanzas still queued

  /** The broker works off `n` queued entries. */
  function ReceiveAll(c: Client, n: nat): Client
    requires n <= |c.incoming|
    decreases n
  {
    if n == 0 then c else ReceiveAll(ProcessIncoming(c).client, n - 1)
  }

  lemma {:induction false} QueuedStanzasAreCounted(c: Client, n: nat)
    requires n <= |c.incoming| && c.smEnabled && (forall m <- c.incoming :: m.Stanza?) && c.inboundCtr < WRAP
    ensures ReceiveAll(c, n).inboundCtr == Wrap(c.inboundCtr + n)
    ensures ReceiveAll(c, n).smEnabled
    decreases n
  {
    hide SmAck;
    if n > 0 {
      assert c.incoming[0] in c.incoming && forall m <- c.incoming[1..] :: m in c.incoming;
      var d := ProcessIncoming(c).client;
      assert d.incoming == c.incoming[1..] && d.inboundCtr == Wrap(c.inboundCtr + 1);
      QueuedStanzasAreCounted(d, n - 1);
      CountOnFrom(c.inboundCtr, n - 1);
    }
  }

  lemma CountOnFrom(a: nat, n: nat)
    ensures Wrap(Wrap(a + 1) + n) == Wrap(a + 1 + n)
  {
    ModShift(Wrap(a + 1) + n, (a + 1) / WRAP);
  }

  lemma {:induction false} StanzasOnly(ps: seq<string>)
    ensures |AsIncoming(ps)| == |ps| && forall m <- AsIncoming(ps) :: m.Stanza?
  {
    if ps != [] {
      StanzasOnly(ps[1..]);
    }
  }

  /** The client counts no more than was sent to it; anything else is an error to the server. */
  predicate Believable(v: Server, h: int) {
    v.acked + Wrap(h - v.acked) <= |v.sent|
  }

  /** The counter once what waited and then `j` stanzas of the session have been processed. */
  function CounterAfter(c: Client, resumable: bool, sent: seq<string>, j: nat): nat
    requires j <= |sent|
  {
    var d := ReceiveAll(SmEnabled(c, resumable), |c.incoming|).(incoming := AsIncoming(sent[..j]));
    StanzasOnly(sent[..j]);
    ReceiveAll(d, j).inboundCtr
  }

  /**
   * Stream management is enabled while stanzas from before still wait to be processed; then the server sends `sent`,
   * of which `j` arrive and are processed before the connection breaks.  On resumption the server believes the client
   * and retransmits exactly the rest if and only if nothing was waiting.
   */
  lemma LeftoverStanzasLoseRetransmission(c: Client, v: Server, resumable: bool, j: nat)
    requires !c.smEnabled && forall m <- c.incoming :: m.Stanza?
    requires v.acked == 0 && j <= |v.sent| && |c.incoming| + |v.sent| < WRAP
    ensures var h := CounterAfter(c, resumable, v.sent, j);
      Believable(v, h) && Outstanding(ServerAck(v, h)) == v.sent[j..] <==> |c.incoming| == 0
  {
    hide CounterAfter;
    CounterIs(c, resumable, v.sent, j);
    BelievedIff(v, |c.incoming|, j);
  }

  lemma CounterIs(c: Client, resumable: bool, sent: seq<string>, j: nat)
    requires !c.smEnabled && forall m <- c.incoming :: m.Stanza?
    requires j <= |sent| && |c.incoming| + |sent| < WRAP
    ensures CounterAfter(c, resumable, sent, j) == |c.incoming| + j
  {
    hide ProcessIncoming;
    var e, k := SmEnabled(c, resumable), |c.incoming|;
    QueuedStanzasAreCounted(e, k);
    var d := ReceiveAll(e, k).(incoming := AsIncoming(sent[..j]));
    StanzasOnly(sent[..j]);
    QueuedStanzasAreCounted(d, j);
  }

  lemma BelievedIff(v: Server, k: nat, j: nat)
    requires v.acked == 0 && j <= |v.sent| && k + |v.sent| < WRAP
    ensures Believable(v, k + j) && Outstanding(ServerAck(v, k + j)) == v.sent[j..] <==> k == 0
  {
    if 0 < k && k + j <= |v.sent| {
      assert |v.sent[k + j..]| < |v.sent[j..]|;
    }
  }
}
