// Theorems about every run of a stanza stream against an honest server, with arbitrary
// disconnects, resumptions, refused resumptions and restarts.

module SmRuns {
  import opened Common
  import opened SmClient
  import opened SmProtocol
  import opened SmSafety

  // ---------------------------------------------------------------- life cycle of a token

  /** How the state of a token may develop over any number of steps. */
  predicate Allowed(before: StanzaState, after: StanzaState) {
    || before == after
    || before == ACTIVE
    || (before == SENT && after != ACTIVE && after != ABORTED)
    || (before == ABORTED && after == DISCONNECTED)
  }

  predicate Develops(states: seq<StanzaState>, states': seq<StanzaState>) {
    |states| <= |states'| && forall t: nat :: t < |states| ==> Allowed(states[t], states'[t])
  }

  lemma DevelopsTransitive(a: seq<StanzaState>, b: seq<StanzaState>, c: seq<StanzaState>)
    requires Develops(a, b) && Develops(b, c)
    ensures Develops(a, c)
  {
    forall t: nat | t < |a| ensures Allowed(a[t], c[t]) {
      assert Allowed(a[t], b[t]) && Allowed(b[t], c[t]);
    }
  }

  lemma FinishDevelops(states: seq<StanzaState>, done: seq<nat>, x: StanzaState)
    requires forall t: nat :: t in multiset(done) && t < |states| ==> Allowed(states[t], x)
    ensures Develops(states, SetStates(states, done, x))
  {
    forall t: nat | t < |states| ensures Allowed(states[t], SetStates(states, done, x)[t]) {
      assert t in done <==> t in multiset(done);
    }
  }

  lemma SendSlotDevelops(s: System, outcome: SendOutcome)
    requires CanSend(s) && s.client.slot.value < |s.client.states|
    ensures Develops(s.client.states, SendSlot(s.client, outcome).0.states)
  {
    var t := s.client.slot.value;
    assert t in multiset(Waiting(s.client));
    assert MayWait(s.client.states[t], s.client.smEnabled);
  }

  lemma {:induction false} SendQueueDevelops(s: System, outcomes: nat -> SendOutcome)
    requires Inv(s) && s.client.running && s.client.slot == None && forall t <- s.client.queue :: t < |s.client.states|
    ensures Develops(s.client.states, SendQueue(s.client, outcomes).0.states)
    decreases |s.client.queue|
  {
    hide Inv, SendSlot, Develops;
    if s.client.queue == [] {
      SameDevelops(s.client.states);
    } else {
      var taken := s.(client := TakeSlot(s.client));
      TakeKeepsInv(s);
      assert taken.client.slot.value in s.client.queue && forall t <- taken.client.queue :: t in s.client.queue;
      var outcome := outcomes(taken.client.slot.value);
      SendSlotKeepsInv(taken, outcome);
      SendSlotDevelops(taken, outcome);
      var sent := Transmit(taken, SendSlot(taken.client, outcome));
      SendQueueDevelops(sent, outcomes);
      DevelopsTransitive(s.client.states, sent.client.states, SendQueue(s.client, outcomes).0.states);
    }
  }

  lemma SameDevelops(states: seq<StanzaState>)
    ensures Develops(states, states)
  {
  }

  lemma SendTurnDevelops(s: System, outcomes: nat -> SendOutcome)
    requires Inv(s) && Enabled(s, SendTurn(outcomes))
    ensures Develops(s.client.states, Next(s, SendTurn(outcomes)).client.states)
  {
    hide Inv, SendSlot, SendQueue, Develops;
    var outcome := outcomes(s.client.slot.value);
    assert CanSend(s);
    SendSlotKeepsInv(s, outcome);
    SendSlotDevelops(s, outcome);
    var sent := Transmit(s, SendSlot(s.client, outcome));
    SendQueueDevelops(sent, outcomes);
    DevelopsTransitive(s.client.states, sent.client.states, SendQueue(sent.client, outcomes).0.states);
  }

  lemma AckDevelops(c: Client, h: int)
    requires ClientTokens(c) && SmAck(c, h).Some?
    ensures Develops(c.states, SmAck(c, h).value.states)
  {
    hide Develops;
    var gone := c.unacked[..ToDrop(c, h)];
    assert c.unacked == gone + c.unacked[ToDrop(c, h)..];
    assert multiset(gone) <= multiset(c.unacked);
    FinishDevelops(c.states, gone, ACKED);
  }

  lemma DestroyDevelops(c: Client)
    requires ClientTokens(c)
    ensures Develops(c.states, DestroyStreamState(c).states)
  {
    hide Develops;
    assert multiset(c.queue) <= multiset(Waiting(c));
    FinishDevelops(c.states, c.queue, DISCONNECTED);
  }

  lemma ClearDevelops(c: Client, x: StanzaState)
    requires ClientTokens(c) && (x == SENT_WITHOUT_SM || x == DISCONNECTED)
    ensures Develops(c.states, ClearUnacked(c, x).states)
  {
    hide Develops;
    FinishDevelops(c.states, c.unacked, x);
  }

  lemma StopDevelops(c: Client)
    requires ClientTokens(c) && c.slot == None
    ensures Develops(c.states, StopSm(c).states)
  {
    hide Develops;
    var d := ClearUnacked(c.(smEnabled := false, base := 0, inboundCtr := 0), SENT_WITHOUT_SM);
    assert d.states == SetStates(c.states, c.unacked, SENT_WITHOUT_SM);
    ClearDevelops(c, SENT_WITHOUT_SM);
    forall t: nat | t in multiset(d.queue) && t < |d.states| ensures Allowed(d.states[t], DISCONNECTED) {
      assert t in multiset(Waiting(c)) && t in c.unacked <==> t in multiset(c.unacked);
      assert MayWait(c.states[t], c.smEnabled);
    }
    FinishDevelops(d.states, d.queue, DISCONNECTED);
    DevelopsTransitive(c.states, d.states, StopSm(c).states);
  }

  lemma TeardownDevelops(c: Client, v: Server, c2s: seq<Outgoing>)
    requires ClientTokens(c) && ServerTokens(c, v, c2s)
    ensures Develops(c.states, Teardown(c).states)
  {
    hide Develops, Placed, OnServer, StopSm, DestroyStreamState;
    var d := PutBack(c.(incoming := []));
    assert Waiting(d) == Waiting(c);
    TeardownFrame(c);
    SameDevelops(c.states);
    if !(c.smEnabled && c.resumable) {
      DestroyDevelops(d);
      DestroyFields(d);
      if c.smEnabled {
        DestroyKeepsTokens(d, v, c2s);
        StopDevelops(DestroyStreamState(d));
        DevelopsTransitive(c.states, DestroyStreamState(d).states, StopSm(DestroyStreamState(d)).states);
      }
    }
  }

  lemma CloseDevelops(s: System)
    requires Inv(s)
    ensures Develops(s.client.states, Close(s.client).states)
  {
    hide Develops, Session, ClientTokens, ServerTokens, Teardown, StopSm, DestroyStreamState;
    var s1 := if s.client.running then s.(client := Teardown(s.client), s2c := []) else s;
    SameDevelops(s.client.states);
    if s.client.running {
      DisconnectKeepsInv(s);
      TeardownDevelops(s.client, s.server, s.c2s);
    }
    var s2 := s1.(client := s1.client.(closed := true));
    TokensFrame(s1, s2) by { assert Waiting(s1.client) == Waiting(s2.client); }
    DestroyKeepsTokens(s2.client, s.server, s.c2s);
    DestroyFields(s2.client);
    DestroyDevelops(s2.client);
    var d := DestroyStreamState(s2.client);
    DevelopsTransitive(s.client.states, s1.client.states, d.states);
    if d.smEnabled {
      StopDevelops(d);
      DevelopsTransitive(s.client.states, d.states, StopSm(d).states);
    }
  }

  lemma RefuseDevelops(s: System, withCounter: bool)
    requires Inv(s) && Bounded(s) && !s.client.running && s.client.smEnabled
    ensures Develops(s.client.states, Next(s, Refuse(withCounter)).client.states)
  {
    hide Develops, Session, ClientTokens, ServerTokens, StopSm, SmAck, ClearUnacked;
    RefuseKeepsInv(s, withCounter);
    var c := s.client;
    if !withCounter {
      StopDevelops(c);
    } else {
      var h := Wrap(Count(s.server));
      RestNeverReceived(s);
      AckDevelops(c, h);
      AckFields(c, h);
      var d := SmAck(c, h).value;
      ClearDevelops(d, DISCONNECTED);
      ClearDisconnected(d, s.server, s.c2s);
      var e := ClearUnacked(d, DISCONNECTED);
      StopDevelops(e);
      DevelopsTransitive(c.states, d.states, e.states);
      DevelopsTransitive(c.states, e.states, StopSm(e).states);
    }
  }

  /** Whatever the step, tokens only move forward in their life cycle. */
  lemma NextDevelops(s: System, step: Step)
    requires Inv(s) && Bounded(s) && Enabled(s, step)
    ensures Develops(s.client.states, Next(s, step).client.states)
  {
    hide Inv, Session, Develops, ProcessOutgoing, Teardown, Close, StopSm, SmAck;
    var c := s.client;
    SameDevelops(c.states);
    match step
    case EnqueueStanza => EnqueueDevelops(c);
    case AbortToken(token) => AbortDevelops(c, token);
    case SendTurn(outcomes) => SendTurnDevelops(s, outcomes);
    case ReceiveTurn => ReceiveDevelops(s);
    case Disconnect => InvTokens(s); TeardownDevelops(c, s.server, s.c2s);
    case CloseStream => CloseDevelops(s);
    case StopManagement => InvTokens(s); StopDevelops(c);
    case Resume =>
      InvTokens(s);
      ResumeShape(s);
      AckDevelops(c, Wrap(Count(s.server)));
    case Refuse(withCounter) => RefuseDevelops(s, withCounter);
    case ServerReads =>
    case _ =>
  }

  lemma InvTokens(s: System)
    requires Inv(s)
    ensures ClientTokens(s.client) && ServerTokens(s.client, s.server, s.c2s)
    ensures !s.client.running ==> s.client.slot == None
  {
  }

  lemma EnqueueDevelops(c: Client)
    ensures Enqueue(c).Some? ==> Develops(c.states, Enqueue(c).value.states)
  {
  }

  lemma AbortDevelops(c: Client, token: nat)
    requires token < |c.states|
    ensures Abort(c, token).Some? ==> Develops(c.states, Abort(c, token).value.states)
  {
  }

  lemma ReceiveDevelops(s: System)
    requires Inv(s) && Bounded(s) && s.client.running && s.client.incoming != []
    ensures ProcessIncoming(s.client).ok
    ensures Develops(s.client.states, ProcessIncoming(s.client).client.states)
  {
    hide Inv, Develops, SmAck;
    ReceiveTurnKeepsInv(s);
    SameDevelops(s.client.states);
    if s.client.smEnabled && s.client.incoming[0].Acknowledgement? {
      var d := s.client.(incoming := s.client.incoming[1..]);
      InvTokens(s);
      assert Waiting(d) == Waiting(s.client);
      AckDevelops(d, s.client.incoming[0].h);
    }
  }

  // ---------------------------------------------------------------- runs

  ghost predicate IsRun(run: seq<System>, steps: seq<Step>) {
    && |run| == |steps| + 1
    && run[0] == START
    && (forall i :: 0 <= i < |run| ==> Bounded(run[i]))
    && (forall i :: 0 <= i < |steps| ==> Enabled(run[i], steps[i]) && run[i + 1] == Next(run[i], steps[i]))
  }

  lemma {:induction false} RunInv(run: seq<System>, steps: seq<Step>, k: nat)
    requires IsRun(run, steps) && k < |run|
    ensures Inv(run[k])
    decreases k
  {
    hide Inv, Next, Enabled;
    if k == 0 {
      StartInv();
    } else {
      RunInv(run, steps, k - 1);
      assert Enabled(run[k - 1], steps[k - 1]) && run[k - 1 + 1] == Next(run[k - 1], steps[k - 1]);
      NextKeepsInv(run[k - 1], steps[k - 1]);
    }
  }

  lemma {:induction false} RunDevelops(run: seq<System>, steps: seq<Step>, i: nat, j: nat)
    requires IsRun(run, steps) && i <= j < |run|
    ensures Develops(run[i].client.states, run[j].client.states)
    decreases j
  {
    hide Inv, Next, Enabled, Develops;
    if i == j {
      SameDevelops(run[i].client.states);
    } else {
      RunDevelops(run, steps, i, j - 1);
      RunInv(run, steps, j - 1);
      assert Enabled(run[j - 1], steps[j - 1]) && run[j - 1 + 1] == Next(run[j - 1], steps[j - 1]);
      NextDevelops(run[j - 1], steps[j - 1]);
      DevelopsTransitive(run[i].client.states, run[j - 1].client.states, run[j].client.states);
    }
  }

  /** The states which the documentation calls final, except for ABORTED. */
  predicate TrulyFinal(state: StanzaState) {
    state in {ACKED, SENT_WITHOUT_SM, DROPPED, DISCONNECTED, FAILED}
  }

  /** Final states are never left, and ABORTED only for DISCONNECTED. */
  lemma FinalStatesAreFinal(run: seq<System>, steps: seq<Step>, i: nat, j: nat, t: nat)
    requires IsRun(run, steps) && i <= j < |run| && t < |run[i].client.states|
    ensures t < |run[j].client.states|
    ensures TrulyFinal(run[i].client.states[t]) ==> run[j].client.states[t] == run[i].client.states[t]
    ensures run[i].client.states[t] == ABORTED ==> run[j].client.states[t] in {ABORTED, DISCONNECTED}
  {
    RunDevelops(run, steps, i, j);
    assert Allowed(run[i].client.states[t], run[j].client.states[t]);
  }

  /** The server never reads the stanza of a token twice. */
  lemma ReceivedAtMostOnce(run: seq<System>, steps: seq<Step>, k: nat)
    requires IsRun(run, steps) && k < |run|
    ensures NoDup(run[k].server.received)
  {
    hide Session;
    RunInv(run, steps, k);
    var got := multiset(run[k].server.received);
    forall t | t in got ensures got[t] <= 1 {
      assert got[t] + multiset(Tokens(run[k].c2s))[t] <= 1;
    }
    CountsGiveNoDup(run[k].server.received);
  }

  /** An acknowledged token was received. */
  lemma AckedMeansReceived(run: seq<System>, steps: seq<Step>, k: nat, t: nat)
    requires IsRun(run, steps) && k < |run| && t < |run[k].client.states|
    requires run[k].client.states[t] == ACKED
    ensures t in run[k].server.received
  {
    hide Session;
    RunInv(run, steps, k);
    assert t in multiset(run[k].server.received);
  }

  /** A token reported as aborted, dropped, disconnected or failed is never received, then or later. */
  lemma UndeliveredMeansNeverReceived(run: seq<System>, steps: seq<Step>, i: nat, j: nat, t: nat)
    requires IsRun(run, steps) && i <= j < |run| && t < |run[i].client.states|
    requires run[i].client.states[t] in {ABORTED, DROPPED, DISCONNECTED, FAILED}
    ensures t !in run[j].server.received
  {
    hide Session;
    FinalStatesAreFinal(run, steps, i, j, t);
    RunInv(run, steps, j);
    assert t in run[j].server.received <==> t in multiset(run[j].server.received);
  }

  /** Every token is in exactly one of slot-or-queue, unacked and finished. */
  lemma TokenConservation(run: seq<System>, steps: seq<Step>, k: nat, t: nat)
    requires IsRun(run, steps) && k < |run| && t < |run[k].client.states|
    ensures var c := run[k].client;
            var waiting, unacked := multiset(Waiting(c))[t], multiset(c.unacked)[t];
            && waiting + unacked + (if Final(c.states[t]) && waiting == 0 then 1 else 0) == 1
            && (unacked == 1 ==> c.states[t] == SENT)
            && (waiting == 1 ==> c.states[t] in {ACTIVE, ABORTED, SENT})
  {
    hide Session;
    RunInv(run, steps, k);
    var c := run[k].client;
    assert multiset(Waiting(c))[t] + multiset(c.unacked)[t] <= 1;
    assert t in multiset(c.unacked) ==> c.states[t] == SENT;
    assert t in multiset(Waiting(c)) ==> MayWait(c.states[t], c.smEnabled);
    assert t !in multiset(Waiting(c)) && t !in multiset(c.unacked) ==> Final(c.states[t]);
  }

  lemma SplitWindow(unacked: seq<nat>, received: seq<nat>, untold: seq<nat>, flying: seq<nat>, running: bool)
    returns (lost: seq<nat>)
    requires Window(unacked, multiset(received), untold, flying, running)
    ensures unacked == untold + flying + lost
    ensures running ==> lost == []
    ensures forall t <- lost :: t !in received
  {
    var tail := unacked[|untold|..];
    lost := tail[|flying|..];
    assert unacked == untold + tail && tail == flying + lost;
    forall t | t in lost ensures t !in received {
      assert t in tail;
      assert t in multiset(tail) && t !in multiset(received);
    }
  }

  /** The unacked list is what was received untold, followed by what is in flight, followed by what is lost. */
  lemma UnackedWindow(run: seq<System>, steps: seq<Step>, k: nat) returns (lost: seq<nat>)
    requires IsRun(run, steps) && k < |run| && run[k].client.smEnabled
    ensures var s := run[k];
            && s.server.start + s.acked <= |s.server.received|
            && s.client.unacked == s.server.received[s.server.start + s.acked..] + Tokens(s.c2s) + lost
            && (s.client.running ==> lost == [])
            && forall t <- lost :: t !in s.server.received
  {
    hide Placed, OnServer, CountersOk, Inbound, Window;
    RunInv(run, steps, k);
    var s := run[k];
    lost := SplitWindow(s.client.unacked, s.server.received, Untold(s.server, s.acked), Tokens(s.c2s),
        s.client.running);
  }

  /** Stanzas from the server are processed at most once and in order, and the counter counts them. */
  lemma InboundExactlyOnce(run: seq<System>, steps: seq<Step>, k: nat)
    requires IsRun(run, steps) && k < |run| && run[k].client.smEnabled
    ensures var s := run[k];
            && s.processed <= s.server.sent
            && s.client.inboundCtr == Wrap(|s.processed|)
            && s.server.acked <= |s.processed|
            && (s.client.running ==> s.processed + Payloads(Arriving(s)) == s.server.sent)
  {
    hide Placed, OnServer, Window;
    RunInv(run, steps, k);
    CountersBelow(Answers(run[k].c2s), run[k].server.acked, |run[k].processed|);
  }

  /** An honest server's counters are never rejected. */
  lemma HonestCountersAccepted(run: seq<System>, steps: seq<Step>, k: nat)
    requires IsRun(run, steps) && k < |steps|
    ensures steps[k] == ReceiveTurn ==> ProcessIncoming(run[k].client).ok
    ensures steps[k] == Resume ==> ResumeSm(run[k].client, Wrap(Count(run[k].server))).Some?
    ensures steps[k].Refuse? ==> ResumeRefused(run[k].client, Some(Wrap(Count(run[k].server)))).Some?
  {
    hide Inv, ProcessIncoming, ResumeSm, ResumeRefused;
    RunInv(run, steps, k);
    assert Enabled(run[k], steps[k]);
    if steps[k] == ReceiveTurn {
      ReceiveTurnKeepsInv(run[k]);
    } else if steps[k] == Resume {
      ResumeKeepsInv(run[k]);
    } else if steps[k].Refuse? {
      RefuseKeepsInv(run[k], true);
    }
  }

  /** After close() every token is finished and nothing is queued, unacknowledged or managed. */
  lemma CloseFinishesEverything(run: seq<System>, steps: seq<Step>, k: nat, t: nat)
    requires IsRun(run, steps) && k < |steps| && steps[k] == CloseStream
    requires t < |run[k + 1].client.states|
    ensures Final(run[k + 1].client.states[t])
    ensures run[k + 1].client.queue == [] && run[k + 1].client.unacked == [] && !run[k + 1].client.smEnabled
  {
    hide Session, Next, Enabled;
    RunInv(run, steps, k);
    RunInv(run, steps, k + 1);
    assert run[k + 1] == Next(run[k], steps[k]);
    hide Inv;
    CloseKeepsInv(run[k]);
    FinalWhenNowhere(run[k + 1].client, t);
  }

  lemma FinalWhenNowhere(c: Client, t: nat)
    requires ClientTokens(c) && t < |c.states| && Waiting(c) == [] && c.unacked == []
    ensures Final(c.states[t]) && c.queue == []
  {
  }
}
