// What becomes of each token in a broker turn, a disconnect, a resumption and a refused resumption, and what a turn
// writes.

module SmOutcome {
  import opened Common
  import opened SmClient
  import opened SmProtocol
  import opened SmSafety
  import opened SmRuns

  // ---------------------------------------------------------------- a broker turn

  /** The tokens of a list which are written, in order: neither aborted, nor dropped, nor failing. */
  function Due(states: seq<StanzaState>, ts: seq<nat>, outcomes: nat -> SendOutcome): seq<nat>
    requires forall t <- ts :: t < |states|
  {
    if ts == [] then []
    else
      assert ts[0] in ts && forall t <- ts[1..] :: t in ts;
      (if states[ts[0]] != ABORTED && outcomes(ts[0]) == Forwarded then [ts[0]] else []) + Due(states, ts[1..],
          outcomes)
  }

  /** The state in which a token leaves the turn. */
  function Fate(state: StanzaState, outcome: SendOutcome, smEnabled: bool): StanzaState {
    if state == ABORTED then ABORTED
    else match outcome
      case DroppedByFilter => DROPPED
      case SendFailed => FAILED
      case Forwarded => if smEnabled then SENT else SENT_WITHOUT_SM
  }

  lemma {:induction false} DueElsewhere(states: seq<StanzaState>, ts: seq<nat>, outcomes: nat -> SendOutcome,
                                        t: nat, x: StanzaState)
    requires (forall q <- ts :: q < |states|) && t < |states| && t !in ts
    ensures Due(states[t := x], ts, outcomes) == Due(states, ts, outcomes)
  {
    if ts != [] {
      assert ts[0] in ts && forall q <- ts[1..] :: q in ts;
      DueElsewhere(states, ts[1..], outcomes, t, x);
    }
  }

  function Stanzas(ts: seq<nat>): seq<Outgoing> {
    if ts == [] then [] else [TokenStanza(ts[0])] + Stanzas(ts[1..])
  }

  lemma {:induction false} StanzasTogether(a: seq<nat>, b: seq<nat>)
    ensures Stanzas(a + b) == Stanzas(a) + Stanzas(b)
  {
    if a == [] {
      assert a + b == b;
    } else {
      assert (a + b)[1..] == a[1..] + b;
      StanzasTogether(a[1..], b);
    }
  }

  /** The client after a list of tokens has been sent, and what was written. */
  ghost predicate SentAll(c: Client, ts: seq<nat>, outcomes: nat -> SendOutcome, d: Client, out: seq<Outgoing>)
    requires forall t <- ts :: t < |c.states|
  {
    && out == Stanzas(Due(c.states, ts, outcomes))
    && d.unacked == c.unacked + (if c.smEnabled then Due(c.states, ts, outcomes) else [])
    && |d.states| == |c.states|
    && (forall t: nat :: t < |c.states| ==>
        d.states[t] == (if t in ts then Fate(c.states[t], outcomes(t), c.smEnabled) else c.states[t]))
  }

  lemma SendOne(c: Client, outcomes: nat -> SendOutcome)
    requires c.slot.Some? && c.slot.value < |c.states|
    ensures var (d, out) := SendSlot(c, outcomes(c.slot.value)); SentAll(c, [c.slot.value], outcomes, d, out)
  {
    var t := c.slot.value;
    assert [t][1..] == [];
    var (d, out) := SendSlot(c, outcomes(t));
    assert c.unacked + [] == c.unacked;
    assert Due(c.states, [t], outcomes) == if c.states[t] != ABORTED && outcomes(t) == Forwarded then [t] else [];
  }

  lemma {:induction false} DueOfOne(states: seq<StanzaState>, t: nat, outcomes: nat -> SendOutcome)
    requires t < |states|
    ensures Due(states, [t], outcomes) == if states[t] != ABORTED && outcomes(t) == Forwarded then [t] else []
  {
    assert [t][1..] == [];
  }

  lemma {:induction false} DueThen(states: seq<StanzaState>, t: nat, ts: seq<nat>, outcomes: nat -> SendOutcome,
                                   x: StanzaState)
    requires t < |states| && t !in ts && forall q <- ts :: q < |states|
    ensures forall q <- [t] + ts :: q < |states|
    ensures Due(states, [t] + ts, outcomes) == Due(states, [t], outcomes) + Due(states[t := x], ts, outcomes)
  {
    DueElsewhere(states, ts, outcomes, t, x);
    DueOfOne(states, t, outcomes);
    assert ([t] + ts)[0] == t && ([t] + ts)[1..] == ts;
  }

  lemma SentThen(c: Client, t: nat, ts: seq<nat>, outcomes: nat -> SendOutcome, d: Client, out: seq<Outgoing>,
                 e: Client, more: seq<Outgoing>)
    requires t < |c.states| && t !in ts && (forall q <- ts :: q < |c.states|) && d.smEnabled == c.smEnabled
    requires SentAll(c, [t], outcomes, d, out) && SentAll(d, ts, outcomes, e, more)
    ensures forall q <- [t] + ts :: q < |c.states|
    ensures SentAll(c, [t] + ts, outcomes, e, out + more)
  {
    hide Due, Stanzas, Fate;
    assert d.states == c.states[t := d.states[t]];
    DueThen(c.states, t, ts, outcomes, d.states[t]);
    var due, rest := Due(c.states, [t], outcomes), Due(d.states, ts, outcomes);
    StanzasTogether(due, rest);
    assert c.unacked + due + rest == c.unacked + (due + rest);
  }

  lemma {:induction false} QueueSent(c: Client, outcomes: nat -> SendOutcome)
    requires c.slot == None && (forall t <- c.queue :: t < |c.states|) && NoDup(c.queue)
    ensures var (d, out) := SendQueue(c, outcomes); SentAll(c, c.queue, outcomes, d, out)
    decreases |c.queue|
  {
    hide SendSlot, SentAll;
    if c.queue == [] {
      NothingSent(c, outcomes);
    } else {
      var taken, t := TakeSlot(c), c.queue[0];
      assert t in c.queue && forall q <- taken.queue :: q in c.queue;
      assert forall j :: 0 <= j < |taken.queue| ==> taken.queue[j] == c.queue[j + 1] != t;
      assert NoDup(taken.queue);
      var (d, out) := SendSlot(taken, outcomes(t));
      SendOne(taken, outcomes);
      QueueSent(d, outcomes);
      var (e, more) := SendQueue(d, outcomes);
      assert c.queue == [t] + taken.queue;
      SentThen(taken, t, taken.queue, outcomes, d, out, e, more);
      SentFrom(c, taken, c.queue, outcomes, e, out + more);
    }
  }

  lemma NothingSent(c: Client, outcomes: nat -> SendOutcome)
    ensures SentAll(c, [], outcomes, c, [])
  {
    assert c.unacked + [] == c.unacked;
  }

  lemma SentFrom(c: Client, taken: Client, ts: seq<nat>, outcomes: nat -> SendOutcome, d: Client, out: seq<Outgoing>)
    requires taken == c.(slot := taken.slot, queue := taken.queue) && forall t <- ts :: t < |c.states|
    requires SentAll(taken, ts, outcomes, d, out)
    ensures SentAll(c, ts, outcomes, d, out)
  {
  }

  lemma WaitingDistinct(s: System)
    requires Inv(s)
    ensures NoDup(Waiting(s.client)) && forall t <- Waiting(s.client) :: t < |s.client.states|
  {
    hide Session, ServerTokens;
    var w := multiset(Waiting(s.client));
    assert forall t: nat :: w[t] + multiset(s.client.unacked)[t] <= 1;
    CountsGiveNoDup(Waiting(s.client));
    forall t | t in Waiting(s.client) ensures t < |s.client.states| {
      assert t in w;
    }
  }

  /**
   * A turn empties slot and queue: exactly the tokens which are neither aborted, dropped nor failing are written, in
   * the order in which they waited, followed by a request for an ack if management is enabled, and then they become
   * unacknowledged in that order.
   */
  lemma TurnOutcome(s: System, outcomes: nat -> SendOutcome)
    requires Inv(s) && Enabled(s, SendTurn(outcomes))
    ensures forall t <- Waiting(s.client) :: t < |s.client.states|
    ensures var (d, out) := ProcessOutgoing(s.client, outcomes);
      var written := Stanzas(Due(s.client.states, Waiting(s.client), outcomes));
      && SentAll(s.client, Waiting(s.client), outcomes, d, written) && Waiting(d) == []
      && out == written + if s.client.smEnabled then [Request] else []
  {
    hide Inv, SendSlot, SendQueue, SentAll;
    WaitingDistinct(s);
    var c, t := s.client, s.client.slot.value;
    var (d, out) := SendSlot(c, outcomes(t));
    NoDupConcat([t], c.queue);
    SendOne(c, outcomes);
    QueueSent(d, outcomes);
    var (e, more) := SendQueue(d, outcomes);
    SentThen(c, t, c.queue, outcomes, d, out, e, more);
    WrittenIs(c, Waiting(c), outcomes, e, out + more);
  }

  lemma WrittenIs(c: Client, ts: seq<nat>, outcomes: nat -> SendOutcome, d: Client, out: seq<Outgoing>)
    requires (forall t <- ts :: t < |c.states|) && SentAll(c, ts, outcomes, d, out)
    ensures out == Stanzas(Due(c.states, ts, outcomes))
  {
  }

  // ---------------------------------------------------------------- an inbound turn

  /**
   * A turn takes one element.  A stanza is processed and nothing written; a request is answered with the number of
   * stanzas processed so far; an ack is not answered; and without management neither of the latter does anything.
   */
  lemma InboundTurn(run: seq<System>, steps: seq<Step>, k: nat)
    requires IsRun(run, steps) && k < |steps| && steps[k] == ReceiveTurn
    ensures run[k].client.incoming != []
    ensures var s, s', entry := run[k], run[k + 1], run[k].client.incoming[0];
      var managed := s.client.smEnabled;
      && s'.client.incoming == s.client.incoming[1..] && s'.s2c == s.s2c && s'.server == s.server
      && s'.client.running && s'.client.queue == s.client.queue && s'.client.slot == s.client.slot
      && s'.c2s == s.c2s + (if entry == AckRequest && managed then [Answer(Wrap(|s.processed|))] else [])
      && s'.processed == s.processed + (if entry.Stanza? && managed then [entry.payload] else [])
      && (!managed || !entry.Acknowledgement? ==>
          s'.client.states == s.client.states && s'.client.unacked == s.client.unacked)
  {
    hide Inv, Session, SmAck;
    RunInv(run, steps, k);
    assert Enabled(run[k], steps[k]) && run[k + 1] == Next(run[k], steps[k]);
    var s := run[k];
    ReceiveTurnKeepsInv(s);
    if s.client.smEnabled {
      CountsProcessed(s);
    }
    assert s.c2s + [] == s.c2s && s.processed + [] == s.processed;
    var c := s.client.(incoming := s.client.incoming[1..]);
    if c.smEnabled && s.client.incoming[0].Acknowledgement? {
      AckFields(c, s.client.incoming[0].h);
    }
  }

  lemma CountsProcessed(s: System)
    requires Inv(s) && s.client.smEnabled
    ensures s.client.inboundCtr == Wrap(|s.processed|)
  {
    hide Window, Placed, OnServer, CountersOk;
  }

  // ---------------------------------------------------------------- settling accounts

  /** The server's total splits the unacked list: the front was received, the rest never was. */
  lemma ServerSplits(s: System)
    requires Inv(s) && Bounded(s) && s.client.smEnabled
    ensures var c, h := s.client, Wrap(Count(s.server));
      && SmAck(c, h).Some? && ToDrop(c, h) <= |c.unacked|
      && (forall t <- c.unacked[..ToDrop(c, h)] :: t in s.server.received)
      && (forall t <- c.unacked[ToDrop(c, h)..] :: t !in s.server.received)
  {
    hide Placed, OnServer, CountersOk, Inbound, Waiting, Window;
    ServerTotal(s);
    var c, h := s.client, Wrap(Count(s.server));
    HonestAckWindow(s, h);
    RestNeverReceived(s);
    var rest := SmAck(c, h).value.unacked;
    assert rest == c.unacked[ToDrop(c, h)..];
    forall t | t in rest ensures t !in s.server.received {
      assert t in multiset(rest);
    }
    var front := Untold(s.server, s.acked)[..ToDrop(c, h)];
    assert forall t <- front :: t in s.server.received;
  }

  lemma UnackedDistinct(s: System)
    requires Inv(s)
    ensures forall t <- s.client.unacked :: t < |s.client.states| && s.client.states[t] == SENT && t !in s.client.queue
  {
    hide Session, ServerTokens;
    var c := s.client;
    forall t | t in c.unacked ensures t < |c.states| && c.states[t] == SENT && t !in c.queue {
      assert t in multiset(c.unacked);
      assert multiset(Waiting(c))[t] + multiset(c.unacked)[t] <= 1;
      assert t in c.queue ==> t in Waiting(c) && t in multiset(Waiting(c));
    }
  }

  /** In the unacked list, being received decides on which side of the server's total a token is. */
  lemma Sides(unacked: seq<nat>, n: nat, received: seq<nat>, t: nat)
    requires n <= |unacked| && t in unacked
    requires forall q <- unacked[..n] :: q in received
    requires forall q <- unacked[n..] :: q !in received
    ensures t in received <==> t in unacked[..n]
    ensures t !in received <==> t in unacked[n..]
  {
    assert unacked == unacked[..n] + unacked[n..];
  }

  /** A resumption: what the server received is acknowledged, and exactly the rest waits to be sent again. */
  lemma ResumptionSettles(s: System, t: nat)
    requires Inv(s) && Bounded(s) && Enabled(s, Resume) && t < |s.client.states|
    ensures var d := Next(s, Resume).client;
      && |d.states| == |s.client.states|
      && d.states[t] == (if t in s.client.unacked && t in s.server.received then ACKED else s.client.states[t])
      && (t in d.queue <==> t in s.client.queue || (t in s.client.unacked && t !in s.server.received))
      && d.unacked == [] && d.running
  {
    hide Inv, Session, ToDrop;
    var c, h := s.client, Wrap(Count(s.server));
    ServerSplits(s);
    ResumeShape(s);
    var n := ToDrop(c, h);
    if t in c.unacked {
      Sides(c.unacked, n, s.server.received, t);
    } else {
      assert t !in c.unacked[..n] && t !in c.unacked[n..];
    }
    var rest := c.unacked[n..];
    ReverseMembers(rest);
    ResumedClient(s);
  }

  lemma ResumedClient(s: System)
    requires Inv(s) && Bounded(s) && Enabled(s, Resume)
    ensures SmAck(s.client, Wrap(Count(s.server))).Some?
    ensures var c, n := s.client, ToDrop(s.client, Wrap(Count(s.server)));
      && n <= |c.unacked|
      && Next(s, Resume).client == c.(
        running := true, base := Wrap(Count(s.server)), unacked := [],
        states := SetStates(c.states, c.unacked[..n], ACKED), queue := Reverse(c.unacked[n..]) + c.queue)
  {
    hide Inv, ToDrop;
    ResumeShape(s);
    ServerAckFields(s.server, s.client.inboundCtr);
  }

  /**
   * A refused resumption: with the server's counter every unacknowledged token is ACKED or DISCONNECTED as the server
   * did or did not receive it; without one it stays open, as SENT_WITHOUT_SM.  What was queued is DISCONNECTED.
   */
  lemma RefusalSettles(s: System, withCounter: bool, t: nat)
    requires Inv(s) && Bounded(s) && Enabled(s, Refuse(withCounter)) && t < |s.client.states|
    ensures var d := Next(s, Refuse(withCounter)).client;
      && |d.states| == |s.client.states| && d.queue == [] && d.unacked == [] && !d.smEnabled
      && d.states[t] ==
           (if t in s.client.unacked then
             if !withCounter then SENT_WITHOUT_SM else if t in s.server.received then ACKED else DISCONNECTED
           else if t in s.client.queue then DISCONNECTED
           else s.client.states[t])
  {
    hide Inv, Session, ToDrop;
    var c, h := s.client, Wrap(Count(s.server));
    ServerSplits(s);
    UnackedDistinct(s);
    var n := ToDrop(c, h);
    if t in c.unacked {
      Sides(c.unacked, n, s.server.received, t);
    } else {
      assert t !in c.unacked[..n] && t !in c.unacked[n..];
    }
  }

  /**
   * A disconnect: a resumable stream keeps every token, with the one in the broker's slot back at the head of the
   * queue; on any other stream what was written without an acknowledgement stays open and what was waiting is
   * DISCONNECTED.  Nothing that arrived is processed.
   */
  lemma DisconnectSettles(s: System, t: nat)
    requires Inv(s) && Enabled(s, Disconnect) && t < |s.client.states|
    ensures var c, d := s.client, Next(s, Disconnect).client;
      && |d.states| == |c.states| && d.slot == None && d.incoming == [] && !d.running
      && (if c.smEnabled && c.resumable then
            d.queue == Waiting(c) && d.unacked == c.unacked && d.states == c.states && d.inboundCtr == c.inboundCtr
          else
            && d.queue == [] && d.unacked == [] && !d.smEnabled
            && d.states[t] == (if t in c.unacked then SENT_WITHOUT_SM
                               else if t in Waiting(c) then DISCONNECTED else c.states[t]))
  {
    hide Session, ServerTokens, Placed;
    var c := s.client;
    NotBoth(s, t);
    if !(c.smEnabled && c.resumable) && !c.smEnabled {
      assert c.unacked == [];
    }
  }

  lemma NotBoth(s: System, t: nat)
    requires Inv(s)
    ensures t in s.client.unacked ==> t !in Waiting(s.client)
  {
    hide Session, ServerTokens;
    var c := s.client;
    assert multiset(Waiting(c))[t] + multiset(c.unacked)[t] <= 1;
    assert t in Waiting(c) <==> t in multiset(Waiting(c));
    assert t in c.unacked <==> t in multiset(c.unacked);
  }

  /** Stopping management: what was written stays open as SENT_WITHOUT_SM, what waits is DISCONNECTED. */
  lemma StopSettles(s: System, t: nat)
    requires Inv(s) && Enabled(s, StopManagement) && t < |s.client.states|
    ensures var c, d := s.client, Next(s, StopManagement).client;
      && |d.states| == |c.states| && Waiting(d) == [] && d.unacked == [] && !d.smEnabled
      && d.states[t] == Settled(c, t)
  {
    hide Session, ServerTokens, Placed;
    NotBoth(s, t);
  }

  /** The states in which tokens are left when nothing more can become of them. */
  function Settled(c: Client, t: nat): StanzaState
    requires t < |c.states|
  {
    if t in c.unacked then SENT_WITHOUT_SM else if t in Waiting(c) then DISCONNECTED else c.states[t]
  }

  /** Closing does the same, connected or not, resumable or not. */
  lemma CloseSettles(s: System, t: nat)
    requires Inv(s) && t < |s.client.states|
    ensures var c, d := s.client, Next(s, CloseStream).client;
      && |d.states| == |c.states| && Waiting(d) == [] && d.unacked == [] && !d.smEnabled && d.closed && !d.running
      && d.states[t] == Settled(c, t)
  {
    hide Session, ServerTokens, Placed;
    NotBoth(s, t);
    if s.client.running {
      DisconnectSettles(s, t);
    }
  }

  ghost predicate AllFinal(states: seq<StanzaState>) {
    forall t :: 0 <= t < |states| ==> Final(states[t])
  }

  /** Nothing is left to be sent or acknowledged. */
  predicate NothingOpen(c: Client)
    requires forall t <- Waiting(c) :: t < |c.states|
  {
    c.unacked == [] && forall t <- Waiting(c) :: c.states[t] == ABORTED
  }

  /**
   * If stopping the task raises, close() ends there: the stream is torn down but not closed.  All tokens are finished
   * nevertheless if and only if the stream was not resumable or had nothing left to send or to wait for.
   */
  lemma RaisingCloseFinishesIff(s: System)
    requires Inv(s) && s.client.running
    ensures forall t <- Waiting(s.client) :: t < |s.client.states|
    ensures var c, d := s.client, Teardown(s.client);
      !d.closed && (AllFinal(d.states) <==> !(c.smEnabled && c.resumable) || NothingOpen(c))
  {
    hide Inv, Teardown, Waiting, AllFinal, NothingOpen;
    WaitingDistinct(s);
    TeardownUnclosed(s);
    var c := s.client;
    if c.smEnabled && c.resumable {
      OpenTokens(s);
      TeardownFrame(c);
    } else {
      TornDown(s);
    }
  }

  lemma TornDown(s: System)
    requires Inv(s) && s.client.running && !(s.client.smEnabled && s.client.resumable)
    ensures AllFinal(Teardown(s.client).states)
  {
    hide Inv, Teardown, Waiting;
    TeardownUnclosed(s);
    forall t | 0 <= t < |Teardown(s.client).states| ensures Final(Teardown(s.client).states[t]) {
      DisconnectSettles(s, t);
      if t !in s.client.unacked && t !in Waiting(s.client) {
        PlaceOf(s, t);
      }
    }
  }

  lemma TeardownUnclosed(s: System)
    requires Inv(s) && s.client.running
    ensures !Teardown(s.client).closed && |Teardown(s.client).states| == |s.client.states|
  {
    hide Session, ServerTokens, Placed;
  }

  /** A token which is nowhere is finished. */
  lemma PlaceOf(s: System, t: nat)
    requires Inv(s) && t < |s.client.states| && t !in s.client.unacked && t !in Waiting(s.client)
    ensures Final(s.client.states[t])
  {
    hide Session, ServerTokens;
    assert t !in multiset(s.client.unacked) && t !in multiset(Waiting(s.client));
  }

  /** The tokens which are not finished are the unacknowledged ones and those that wait without being aborted. */
  lemma OpenTokens(s: System)
    requires Inv(s) && forall t <- Waiting(s.client) :: t < |s.client.states|
    ensures AllFinal(s.client.states) <==> NothingOpen(s.client)
  {
    var c := s.client;
    UnackedDistinct(s);
    forall t | t in Waiting(c) ensures MayWait(c.states[t], c.smEnabled) {
      assert t in multiset(Waiting(c));
    }
    assert c.unacked != [] ==> c.unacked[0] < |c.states| && c.states[c.unacked[0]] == SENT;
    if !AllFinal(c.states) {
      var t :| 0 <= t < |c.states| && !Final(c.states[t]);
      if t !in c.unacked && t !in Waiting(c) {
        PlaceOf(s, t);
      }
    }
  }

  // ---------------------------------------------------------------- when ABORTED is not final

  /** The steps which destroy the stream's state. */
  predicate Destroys(c: Client, step: Step) {
    step == CloseStream || step == StopManagement || step.Refuse?
    || (step == Disconnect && !(c.smEnabled && c.resumable))
  }

  lemma AbortedIsNotUnacked(s: System, t: nat)
    requires Inv(s) && t < |s.client.states| && s.client.states[t] == ABORTED
    ensures t !in s.client.unacked
  {
    UnackedDistinct(s);
  }

  lemma AckLeavesAborted(c: Client, h: int, t: nat)
    requires SmAck(c, h).Some? && t !in c.unacked && t < |c.states|
    ensures |SmAck(c, h).value.states| == |c.states| && SmAck(c, h).value.states[t] == c.states[t]
  {
    assert forall q <- c.unacked[..ToDrop(c, h)] :: q in c.unacked;
  }

  lemma ReceiveLeavesAborted(s: System, t: nat)
    requires Inv(s) && Bounded(s) && Enabled(s, ReceiveTurn) && t < |s.client.states| && t !in s.client.unacked
    ensures var d := Next(s, ReceiveTurn).client; |d.states| == |s.client.states| && d.states[t] == s.client.states[t]
  {
    hide Inv, SmAck;
    ReceiveTurnKeepsInv(s);
    var c := s.client.(incoming := s.client.incoming[1..]);
    if s.client.incoming[0].Acknowledgement? && c.smEnabled {
      AckLeavesAborted(c, s.client.incoming[0].h, t);
    }
  }

  lemma SendLeavesAborted(s: System, outcomes: nat -> SendOutcome, t: nat)
    requires Inv(s) && Enabled(s, SendTurn(outcomes)) && t < |s.client.states| && s.client.states[t] == ABORTED
    ensures var d := Next(s, SendTurn(outcomes)).client; |d.states| == |s.client.states| && d.states[t] == ABORTED
  {
    hide Inv, Due;
    TurnOutcome(s, outcomes);
  }

  /** The steps which settle nothing. */
  predicate Quiet(step: Step) {
    !step.SendTurn? && !step.ReceiveTurn? && !step.Disconnect? && !step.CloseStream? && !step.StopManagement?
    && !step.Resume? && !step.Refuse?
  }

  lemma QuietLeavesAborted(s: System, step: Step, t: nat)
    requires Enabled(s, step) && Quiet(step) && t < |s.client.states| && s.client.states[t] == ABORTED
    ensures t < |Next(s, step).client.states| && Next(s, step).client.states[t] == ABORTED
  {
    hide ServerAck, Wrap, Count;
  }

  lemma RefusedAborted(s: System, withCounter: bool, t: nat)
    requires Inv(s) && Bounded(s) && Enabled(s, Refuse(withCounter)) && t < |s.client.states|
    requires s.client.states[t] == ABORTED && t !in s.client.unacked
    ensures var d := Next(s, Refuse(withCounter)).client;
      t < |d.states| && (d.states[t] != ABORTED <==> t in Waiting(s.client))
  {
    RefusalSettles(s, withCounter, t);
    hide Next, Inv;
    StoppedWaits(s);
  }

  lemma ResumedAborted(s: System, t: nat)
    requires Inv(s) && Bounded(s) && Enabled(s, Resume) && t < |s.client.states|
    requires s.client.states[t] == ABORTED && t !in s.client.unacked
    ensures t < |Next(s, Resume).client.states| && Next(s, Resume).client.states[t] == ABORTED
  {
    ResumptionSettles(s, t);
  }

  lemma DisconnectedAborted(s: System, t: nat)
    requires Inv(s) && Enabled(s, Disconnect) && t < |s.client.states|
    requires s.client.states[t] == ABORTED && t !in s.client.unacked
    ensures var d := Next(s, Disconnect).client;
      t < |d.states| && (d.states[t] != ABORTED <==> t in Waiting(s.client) && Destroys(s.client, Disconnect))
  {
    DisconnectSettles(s, t);
    hide Next, Inv, Waiting;
  }

  /**
   * An aborted token leaves its state, which is documented as final, if and only if it waits when state is
   * destroyed.
   */
  lemma AbortedIsLeftIff(s: System, step: Step, t: nat)
    requires Inv(s) && Bounded(s) && Enabled(s, step) && t < |s.client.states| && s.client.states[t] == ABORTED
    ensures var d := Next(s, step).client;
      && t < |d.states|
      && (d.states[t] != ABORTED <==> t in Waiting(s.client) && Destroys(s.client, step))
  {
    hide Inv, Next, Waiting, Bounded, Enabled;
    AbortedIsNotUnacked(s, t);
    match step
    case SendTurn(outcomes) => SendLeavesAborted(s, outcomes, t);
    case ReceiveTurn => ReceiveLeavesAborted(s, t);
    case Disconnect => DisconnectedAborted(s, t);
    case CloseStream => CloseSettles(s, t);
    case StopManagement => StopSettles(s, t);
    case Resume => ResumedAborted(s, t);
    case Refuse(withCounter) => RefusedAborted(s, withCounter, t);
    case _ => QuietLeavesAborted(s, step, t);
  }

  lemma StoppedWaits(s: System)
    requires Inv(s) && !s.client.running
    ensures Waiting(s.client) == s.client.queue
  {
  }

  const ABORTING := [Connect, EnqueueStanza, AbortToken(0), Disconnect]

  /** A run in which it does. */
  lemma AbortedIsLeft() returns (run: seq<System>)
    ensures IsRun(run, ABORTING) && run[3].client.states == [ABORTED] && run[4].client.states == [DISCONNECTED]
  {
    var s1 := Next(START, Connect);
    var s2 := Next(s1, EnqueueStanza);
    var s3 := Next(s2, AbortToken(0));
    var s4 := Next(s3, Disconnect);
    run := [START, s1, s2, s3, s4];
  }
}
