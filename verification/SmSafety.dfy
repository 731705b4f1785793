// What every reachable state of the protocol keeps: where each token is, what the server has
// received, and what the client has processed.

module SmSafety {
  import opened Common
  import opened SmClient
  import opened SmProtocol

  predicate Final(state: StanzaState) {
    state != ACTIVE && state != SENT
  }

  predicate MayWait(state: StanzaState, smEnabled: bool) {
    state == ACTIVE || state == ABORTED || (state == SENT && smEnabled)
  }

  /** The states of a token which was written to the stream. */
  predicate Written(state: StanzaState) {
    state == SENT || state == ACKED || state == SENT_WITHOUT_SM
  }

  function Waiting(c: Client): seq<nat> {
    match c.slot
    case None => c.queue
    case Some(token) => [token] + c.queue
  }

  // ---------------------------------------------------------------- invariants
  // Sets of tokens are multisets: being nowhere twice is a bound on a sum of counts.

  /** Each token is in exactly one of waiting (slot or queue), unacked, or finished. */
  ghost predicate Placed(states: seq<StanzaState>, w: multiset<nat>, u: multiset<nat>, smEnabled: bool) {
    && (forall t: nat :: w[t] + u[t] <= 1)
    && (forall t: nat :: t in w ==> t < |states| && MayWait(states[t], smEnabled))
    && (forall t: nat :: t in u ==> t < |states| && states[t] == SENT)
    && (forall t: nat :: t < |states| && t !in w && t !in u ==> Final(states[t]))
  }

  /** The tokens which the server has read, and those it may still read. */
  ghost predicate OnServer(states: seq<StanzaState>, w: multiset<nat>, got: multiset<nat>, flying: multiset<nat>) {
    && (forall t: nat :: got[t] + flying[t] <= 1)
    && (forall t: nat :: t in got || t in flying ==> t < |states| && Written(states[t]) && t !in w)
    && (forall t: nat :: t < |states| && states[t] == ACKED ==> t in got)
  }

  /** unacked is what the server received and did not yet tell, then what is in flight, then what was lost. */
  ghost predicate Window(unacked: seq<nat>, got: multiset<nat>, untold: seq<nat>, flying: seq<nat>, running: bool) {
    && |untold| <= |unacked| && untold == unacked[..|untold|]
    && flying <= unacked[|untold|..]
    && (running ==> flying == unacked[|untold|..])
    && (forall t: nat :: t in multiset(unacked[|untold|..]) ==> t !in got)
  }

  ghost predicate Inbound(ctr: nat, running: bool, sent: seq<string>, arriving: seq<string>, processed: seq<string>) {
    && ctr == Wrap(|processed|)
    && processed + arriving <= sent
    && (running ==> processed + arriving == sent)
  }

  predicate Modes(c: Client, v: Server, s2c: seq<Incoming>) {
    && (!c.smEnabled ==> c.unacked == [])
    && (!c.running ==> c.slot == None && c.incoming == [] && s2c == [])
    && (c.closed ==> !c.running && c.queue == [] && !c.smEnabled)
    && (c.smEnabled && !c.running ==> c.resumable)
    && (c.smEnabled ==> v.session)
    && (c.running && !c.smEnabled ==> !v.session)
    && v.start <= |v.received|
  }

  function Untold(v: Server, acked: nat): seq<nat>
    requires v.start + acked <= |v.received|
  {
    v.received[v.start + acked..]
  }

  function Arriving(s: System): seq<Incoming> {
    s.client.incoming + s.s2c
  }

  /** What holds between client and server while stream management is on. */
  ghost predicate Session(s: System) {
    var c, v := s.client, s.server;
    && v.start + s.acked <= |v.received|
    && c.base == Wrap(s.acked)
    && Window(c.unacked, multiset(v.received), Untold(v, s.acked), Tokens(s.c2s), c.running)
    && CountersOk(Heights(Arriving(s)), s.acked, Count(v))
    && Inbound(c.inboundCtr, c.running, v.sent, Payloads(Arriving(s)), s.processed)
    && CountersOk(Answers(s.c2s), v.acked, |s.processed|)
  }

  ghost predicate ClientTokens(c: Client) {
    Placed(c.states, multiset(Waiting(c)), multiset(c.unacked), c.smEnabled)
  }

  ghost predicate ServerTokens(c: Client, v: Server, c2s: seq<Outgoing>) {
    OnServer(c.states, multiset(Waiting(c)), multiset(v.received), multiset(Tokens(c2s)))
  }

  ghost predicate Inv(s: System) {
    && Modes(s.client, s.server, s.s2c)
    && ClientTokens(s.client)
    && ServerTokens(s.client, s.server, s.c2s)
    && (if s.client.smEnabled then Session(s) else Heights(Arriving(s)) == [])
  }

  /** Fewer than 2^32 elements are unacknowledged in either direction. */
  predicate Bounded(s: System) {
    |s.client.unacked| < WRAP && |s.server.sent| - s.server.acked < WRAP
  }

  lemma StartInv()
    ensures Inv(START)
  {
  }

  // ---------------------------------------------------------------- changes of state

  function One(t: nat): multiset<nat> {
    multiset{t}
  }

  lemma PlacedNew(states: seq<StanzaState>, w: multiset<nat>, u: multiset<nat>, smEnabled: bool)
    requires Placed(states, w, u, smEnabled)
    ensures Placed(states + [ACTIVE], w + One(|states|), u, smEnabled)
  {
    assert |states| !in w && |states| !in u;
  }

  lemma OnServerNew(states: seq<StanzaState>, w: multiset<nat>, got: multiset<nat>, flying: multiset<nat>)
    requires OnServer(states, w, got, flying)
    ensures OnServer(states + [ACTIVE], w + One(|states|), got, flying)
  {
  }

  lemma PlacedAbort(states: seq<StanzaState>, w: multiset<nat>, u: multiset<nat>, smEnabled: bool, token: nat)
    requires Placed(states, w, u, smEnabled)
    requires token < |states| && (states[token] == ACTIVE || states[token] == ABORTED)
    ensures Placed(states[token := ABORTED], w, u, smEnabled)
  {
  }

  lemma OnServerAbort(states: seq<StanzaState>, w: multiset<nat>, got: multiset<nat>, flying: multiset<nat>, token: nat)
    requires OnServer(states, w, got, flying)
    requires token < |states| && (states[token] == ACTIVE || states[token] == ABORTED)
    ensures OnServer(states[token := ABORTED], w, got, flying)
  {
  }

  // ---------------------------------------------------------------- application steps

  /** A session does not depend on the queue or on the states. */
  lemma SessionFrame(s: System, s': System)
    requires s' == s.(client := s'.client)
    requires s'.client == s.client.(states := s'.client.states, queue := s'.client.queue, slot := s'.client.slot)
    ensures Session(s) == Session(s') && Arriving(s) == Arriving(s')
  {
  }

  lemma EnqueueWaiting(c: Client)
    requires !c.closed
    ensures multiset(Waiting(Enqueue(c).value)) == multiset(Waiting(c)) + One(|c.states|)
  {
    assert Waiting(Enqueue(c).value) == Waiting(c) + [|c.states|];
  }

  lemma EnqueueKeepsInv(s: System)
    requires Inv(s)
    ensures Inv(Next(s, EnqueueStanza))
  {
    hide Session, Arriving, Placed, OnServer, Waiting;
    var c := s.client;
    if !c.closed {
      EnqueueWaiting(c);
      SessionFrame(s, Next(s, EnqueueStanza));
      PlacedNew(c.states, multiset(Waiting(c)), multiset(c.unacked), c.smEnabled);
      OnServerNew(c.states, multiset(Waiting(c)), multiset(s.server.received), multiset(Tokens(s.c2s)));
    }
  }

  lemma AbortKeepsInv(s: System, token: nat)
    requires Inv(s) && token < |s.client.states|
    ensures Inv(Next(s, AbortToken(token)))
  {
    hide Session, Arriving, Placed, OnServer;
    var c := s.client;
    if Abort(c, token).Some? {
      SessionFrame(s, Next(s, AbortToken(token)));
      PlacedAbort(c.states, multiset(Waiting(c)), multiset(c.unacked), c.smEnabled, token);
      OnServerAbort(c.states, multiset(Waiting(c)), multiset(s.server.received), multiset(Tokens(s.c2s)), token);
    }
  }

  // ---------------------------------------------------------------- outbound turn

  lemma TakeKeepsInv(s: System)
    requires Inv(s) && s.client.running && s.client.slot == None && s.client.queue != []
    ensures Inv(s.(client := TakeSlot(s.client)))
  {
    hide Session, Arriving, Placed, OnServer;
    assert Waiting(TakeSlot(s.client)) == Waiting(s.client);
    SessionFrame(s, s.(client := TakeSlot(s.client)));
  }

  lemma SendSlotShape(c: Client, outcome: SendOutcome)
    requires c.slot.Some? && c.slot.value < |c.states|
    ensures var (d, out) := SendSlot(c, outcome);
            && multiset(Waiting(c)) == One(c.slot.value) + multiset(Waiting(d))
            && d == c.(states := d.states, slot := d.slot, unacked := d.unacked)
            && Answers(out) == []
            && d.states == c.states[c.slot.value := d.states[c.slot.value]]
            && (var x := d.states[c.slot.value];
                && x in {ABORTED, DROPPED, FAILED, if c.smEnabled then SENT else SENT_WITHOUT_SM}
                && (x == ABORTED <==> c.states[c.slot.value] == ABORTED)
                && Tokens(out) == (if Written(x) then [c.slot.value] else [])
                && d.unacked == (if x == SENT then c.unacked + [c.slot.value] else c.unacked))
  {
    var (d, out) := SendSlot(c, outcome);
    assert Waiting(c) == [c.slot.value] + Waiting(d);
  }

  /** The slot token `t` leaves the waiting tokens in state `x`, as `sent` copies on the wire. */
  lemma PlacedSend(states: seq<StanzaState>, w: multiset<nat>, u: multiset<nat>, smEnabled: bool, t: nat,
      x: StanzaState)
    requires Placed(states, One(t) + w, u, smEnabled) && t < |states|
    requires x == SENT || Final(x)
    ensures Placed(states[t := x], w, if x == SENT then u + One(t) else u, smEnabled)
  {
    var u' := if x == SENT then u + One(t) else u;
    assert (One(t) + w)[t] + u[t] <= 1;
    forall k: nat ensures w[k] + u'[k] <= 1 {
      assert (One(t) + w)[k] + u[k] <= 1;
    }
    forall k: nat | k in w || k in u ensures k in One(t) + w || k in u {}
  }

  lemma OnServerSend(states: seq<StanzaState>, w: multiset<nat>, got: multiset<nat>, flying: multiset<nat>,
                     t: nat, x: StanzaState)
    requires OnServer(states, One(t) + w, got, flying) && t < |states|
    requires w[t] == 0 && x != ACKED && x != ACTIVE
    ensures OnServer(states[t := x], w, got, if Written(x) then flying + One(t) else flying)
  {
    assert t in One(t) + w;
    var flying' := if Written(x) then flying + One(t) else flying;
    forall k: nat ensures got[k] + flying'[k] <= 1 {
      assert got[k] + flying[k] <= 1;
    }
  }

  lemma WindowSend(unacked: seq<nat>, got: multiset<nat>, untold: seq<nat>, flying: seq<nat>, t: nat)
    requires Window(unacked, got, untold, flying, true) && t !in got
    ensures Window(unacked + [t], got, untold, flying + [t], true)
  {
    assert (unacked + [t])[|untold|..] == unacked[|untold|..] + [t];
  }

  lemma SendSlotSession(s: System, outcome: SendOutcome)
    requires Session(s) && s.client.running && s.client.smEnabled
    requires s.client.slot.Some? && s.client.slot.value < |s.client.states|
    requires s.client.slot.value !in multiset(s.server.received)
    ensures Session(Transmit(s, SendSlot(s.client, outcome)))
  {
    hide Window, CountersOk, Inbound;
    var c, t := s.client, s.client.slot.value;
    var (d, out) := SendSlot(c, outcome);
    SendSlotShape(c, outcome);
    OutgoingConcat(s.c2s, out);
    assert Answers(s.c2s) + [] == Answers(s.c2s) && Tokens(s.c2s) + [] == Tokens(s.c2s);
    if Written(d.states[t]) {
      WindowSend(c.unacked, multiset(s.server.received), Untold(s.server, s.acked), Tokens(s.c2s), t);
    }
  }

  ghost predicate CanSend(s: System) {
    Inv(s) && s.client.running && s.client.slot.Some?
  }

  lemma SlotIsLive(s: System)
    requires CanSend(s)
    ensures s.client.slot.value < |s.client.states|
    ensures s.client.slot.value !in multiset(s.server.received)
  {
    assert s.client.slot.value in multiset(Waiting(s.client));
  }

  lemma SendSlotTokens(s: System, outcome: SendOutcome)
    requires CanSend(s) && s.client.slot.value < |s.client.states|
    ensures var s' := Transmit(s, SendSlot(s.client, outcome));
            ClientTokens(s'.client) && ServerTokens(s'.client, s'.server, s'.c2s)
  {
    hide Session, Arriving, Modes, Placed, OnServer, Waiting, SendSlot;
    var c, t := s.client, s.client.slot.value;
    var (d, out) := SendSlot(c, outcome);
    var w := multiset(Waiting(d));
    SlotIsLive(s);
    SendSlotShape(c, outcome);
    OutgoingConcat(s.c2s, out);
    PlacedSend(c.states, w, multiset(c.unacked), c.smEnabled, t, d.states[t]);
    SlotOnce(s, w);
    OnServerSend(c.states, w, multiset(s.server.received), multiset(Tokens(s.c2s)), t, d.states[t]);
    assert multiset(c.unacked + [t]) == multiset(c.unacked) + One(t);
    assert multiset(Tokens(s.c2s) + [t]) == multiset(Tokens(s.c2s)) + One(t);
    assert Tokens(s.c2s) + [] == Tokens(s.c2s);
  }

  lemma SendSlotKeepsInv(s: System, outcome: SendOutcome)
    requires CanSend(s) && s.client.slot.value < |s.client.states|
    ensures Inv(Transmit(s, SendSlot(s.client, outcome)))
  {
    hide Session, Arriving, ClientTokens, ServerTokens, Waiting, SendSlot;
    var c := s.client;
    var (d, out) := SendSlot(c, outcome);
    SendSlotShape(c, outcome);
    SendSlotTokens(s, outcome);
    if c.smEnabled {
      SlotIsLive(s);
      SendSlotSession(s, outcome);
    } else {
      ArrivingFrame(s, d, out);
    }
  }

  lemma ArrivingFrame(s: System, d: Client, out: seq<Outgoing>)
    requires d.incoming == s.client.incoming
    ensures Arriving(Transmit(s, (d, out))) == Arriving(s)
  {
  }

  lemma SlotOnce(s: System, w: multiset<nat>)
    requires CanSend(s) && multiset(Waiting(s.client)) == One(s.client.slot.value) + w
    ensures w[s.client.slot.value] == 0
  {
    var t := s.client.slot.value;
    assert multiset(Waiting(s.client))[t] + multiset(s.client.unacked)[t] <= 1;
  }

  lemma {:induction false} SendQueueKeepsInv(s: System, outcomes: nat -> SendOutcome)
    requires Inv(s) && s.client.running && s.client.slot == None && forall t <- s.client.queue :: t < |s.client.states|
    ensures Inv(Transmit(s, SendQueue(s.client, outcomes)))
    decreases |s.client.queue|
  {
    hide Inv, SendSlot;
    if s.client.queue == [] {
      assert s.c2s + [] == s.c2s;
    } else {
      var taken := s.(client := TakeSlot(s.client));
      TakeKeepsInv(s);
      assert taken.client.slot.value in s.client.queue && forall t <- taken.client.queue :: t in s.client.queue;
      var outcome := outcomes(taken.client.slot.value);
      SendSlotKeepsInv(taken, outcome);
      var sent := Transmit(taken, SendSlot(taken.client, outcome));
      SendQueueKeepsInv(sent, outcomes);
      var o1, o2 := SendSlot(taken.client, outcome).1, SendQueue(sent.client, outcomes).1;
      assert s.c2s + o1 + o2 == s.c2s + (o1 + o2);
    }
  }

  /** Elements which are neither stanzas nor counters do not matter to the invariant. */
  lemma RequestKeepsInv(s: System)
    requires Inv(s)
    ensures Inv(s.(c2s := s.c2s + [Request]))
  {
    hide Placed, OnServer, Window, CountersOk, Inbound, Modes;
    OutgoingConcat(s.c2s, [Request]);
    assert Tokens([Request]) == [] && Answers([Request]) == [];
    assert Tokens(s.c2s) + [] == Tokens(s.c2s) && Answers(s.c2s) + [] == Answers(s.c2s);
  }

  lemma SendTurnKeepsInv(s: System, outcomes: nat -> SendOutcome)
    requires Inv(s) && Enabled(s, SendTurn(outcomes))
    ensures Inv(Next(s, SendTurn(outcomes)))
  {
    hide Inv, SendSlot, SendQueue;
    var outcome := outcomes(s.client.slot.value);
    SendSlotKeepsInv(s, outcome) by { assert CanSend(s); }
    var sent := Transmit(s, SendSlot(s.client, outcome));
    SendQueueKeepsInv(sent, outcomes);
    var rest := Transmit(sent, SendQueue(sent.client, outcomes));
    RequestKeepsInv(rest);
    var o1, o2 := SendSlot(s.client, outcome).1, SendQueue(sent.client, outcomes).1;
    assert s.c2s + o1 + o2 + [Request] == s.c2s + (o1 + o2 + [Request]);
    assert s.c2s + o1 + o2 == s.c2s + (o1 + o2 + []);
  }

  lemma AnnounceKeepsInv(s: System)
    requires Inv(s) && s.client.smEnabled && Bounded(s)
    ensures Inv(s.(c2s := s.c2s + [Answer(s.client.inboundCtr)]))
  {
    hide Placed, OnServer, Window, CountersOk, Modes;
    var m, p := Answer(s.client.inboundCtr), |s.processed|;
    OutgoingConcat(s.c2s, [m]);
    assert Tokens([m]) == [] && Answers([m]) == [m.h];
    assert Tokens(s.c2s) + [] == Tokens(s.c2s);
    CountersAppend(Answers(s.c2s), s.server.acked, p);
  }

  // ---------------------------------------------------------------- finishing several tokens at once

  lemma PlacedFinishUnacked(states: seq<StanzaState>, w: multiset<nat>, done: seq<nat>, kept: multiset<nat>,
                            smEnabled: bool, x: StanzaState)
    requires Placed(states, w, multiset(done) + kept, smEnabled) && Final(x)
    ensures Placed(SetStates(states, done, x), w, kept, smEnabled)
  {
    forall t: nat ensures t in done <==> t in multiset(done) {}
    forall t: nat ensures w[t] + kept[t] <= 1 && (t in done ==> t !in w && t !in kept) {
      assert w[t] + (multiset(done) + kept)[t] <= 1;
    }
    forall t: nat ensures t in kept ==> t in multiset(done) + kept {}
  }

  lemma PlacedFinishWaiting(states: seq<StanzaState>, done: seq<nat>, u: multiset<nat>, smEnabled: bool,
                            x: StanzaState, smEnabled': bool)
    requires Placed(states, multiset(done), u, smEnabled) && Final(x)
    ensures Placed(SetStates(states, done, x), multiset{}, u, smEnabled')
  {
    forall t: nat ensures t in done <==> t in multiset(done) {}
    forall t: nat ensures multiset(done)[t] + u[t] <= 1 {}
  }

  /** Tokens which the server has, or may have, read are marked as such. */
  lemma OnServerFinishWritten(states: seq<StanzaState>, w: multiset<nat>, got: multiset<nat>, flying: multiset<nat>,
                              done: seq<nat>, x: StanzaState)
    requires OnServer(states, w, got, flying) && Written(x)
    requires x == ACKED ==> forall t: nat :: t in multiset(done) ==> t in got
    ensures OnServer(SetStates(states, done, x), w, got, flying)
  {
    forall t: nat ensures t in done <==> t in multiset(done) {}
  }

  /** Tokens which the server cannot have read are marked as undelivered. */
  lemma OnServerFinishUnwritten(states: seq<StanzaState>, w: multiset<nat>, got: multiset<nat>, flying: multiset<nat>,
                                done: seq<nat>, x: StanzaState)
    requires OnServer(states, w, got, flying) && Final(x) && !Written(x)
    requires forall t: nat :: t in multiset(done) ==> t !in got && t !in flying
    ensures OnServer(SetStates(states, done, x), w, got, flying)
  {
    forall t: nat ensures t in done <==> t in multiset(done) {}
  }

  lemma OnServerFewer(states: seq<StanzaState>, w: multiset<nat>, got: multiset<nat>, flying: multiset<nat>,
                      w': multiset<nat>, flying': multiset<nat>)
    requires OnServer(states, w, got, flying) && w' <= w && flying' <= flying
    ensures OnServer(states, w', got, flying')
  {
    forall t: nat ensures got[t] + flying'[t] <= 1 {
      assert got[t] + flying[t] <= 1;
    }
  }

  // ---------------------------------------------------------------- acknowledgements

  lemma WindowAck(unacked: seq<nat>, got: multiset<nat>, untold: seq<nat>, flying: seq<nat>, running: bool, n: nat)
    requires Window(unacked, got, untold, flying, running) && n <= |untold|
    ensures n <= |unacked| && unacked[..n] == untold[..n]
    ensures Window(unacked[n..], got, untold[n..], flying, running)
  {
    assert unacked[n..][|untold| - n..] == unacked[|untold|..];
  }

  lemma UntoldReceived(v: Server, acked: nat, n: nat)
    requires v.start + acked + n <= |v.received|
    ensures Untold(v, acked)[n..] == Untold(v, acked + n)
    ensures forall t: nat :: t in multiset(Untold(v, acked)[..n]) ==> t in multiset(v.received)
  {
    var m := Untold(v, acked);
    forall t: nat | t in multiset(m[..n]) ensures t in multiset(v.received) {
      assert t in m[..n];
      assert t in v.received;
    }
  }

  /** The counter `h` unwraps to a total which the server has received. */
  ghost predicate Honest(s: System, h: int) {
    && s.client.smEnabled && 0 <= h < WRAP
    && s.server.start + s.acked + Wrap(h - s.acked) <= |s.server.received|
  }

  /** An honest counter is accepted, and acknowledges exactly the distance of the two totals. */
  lemma HonestAckWindow(s: System, h: int)
    requires Session(s) && Honest(s, h)
    ensures ToDrop(s.client, h) == Wrap(h - s.acked)
    ensures SmAck(s.client, h).Some?
    ensures var n, d := ToDrop(s.client, h), SmAck(s.client, h).value;
            && d.base == Wrap(s.acked + n)
            && Window(d.unacked, multiset(s.server.received), Untold(s.server, s.acked + n), Tokens(s.c2s), d.running)
            && s.client.unacked[..n] == Untold(s.server, s.acked)[..n]
  {
    hide Window, CountersOk, Inbound, Wrap;
    var c, v := s.client, s.server;
    Rewrap(s.acked, h);
    var n := ToDrop(c, h);
    WindowAck(c.unacked, multiset(v.received), Untold(v, s.acked), Tokens(s.c2s), c.running, n);
    UntoldReceived(v, s.acked, n);
  }

  lemma AckTokens(c: Client, v: Server, c2s: seq<Outgoing>, h: int)
    requires ClientTokens(c) && ServerTokens(c, v, c2s) && SmAck(c, h).Some?
    requires forall t: nat :: t in multiset(c.unacked[..ToDrop(c, h)]) ==> t in multiset(v.received)
    ensures var d := SmAck(c, h).value; ClientTokens(d) && ServerTokens(d, v, c2s)
  {
    hide Placed, OnServer, Waiting;
    var n, d := ToDrop(c, h), SmAck(c, h).value;
    var gone, kept := c.unacked[..n], c.unacked[n..];
    assert c.unacked == gone + kept;
    assert multiset(c.unacked) == multiset(gone) + multiset(kept);
    PlacedFinishUnacked(c.states, multiset(Waiting(c)), gone, multiset(kept), c.smEnabled, ACKED);
    OnServerFinishWritten(c.states, multiset(Waiting(c)), multiset(v.received), multiset(Tokens(c2s)), gone, ACKED);
    AckWaiting(c, h);
  }

  lemma HonestAckTokens(s: System, h: int)
    requires Inv(s) && Honest(s, h)
    ensures SmAck(s.client, h).Some?
    ensures var d := SmAck(s.client, h).value; ClientTokens(d) && ServerTokens(d, s.server, s.c2s)
  {
    hide Session, ClientTokens, ServerTokens, Waiting, Modes;
    HonestAckWindow(s, h);
    UntoldReceived(s.server, s.acked, ToDrop(s.client, h));
    AckTokens(s.client, s.server, s.c2s, h);
  }

  lemma AckWaiting(c: Client, h: int)
    requires SmAck(c, h).Some?
    ensures Waiting(SmAck(c, h).value) == Waiting(c)
  {
  }

  // ---------------------------------------------------------------- inbound turn

  lemma ArrivingHead(s: System)
    requires s.client.incoming != []
    ensures Arriving(s) != [] && Arriving(s)[0] == s.client.incoming[0]
    ensures Arriving(s)[1..] == s.client.incoming[1..] + s.s2c
  {
  }

  lemma ArrivingHonest(s: System)
    requires Session(s) && s.client.smEnabled && s.client.incoming != [] && s.client.incoming[0].Acknowledgement?
    ensures var h := s.client.incoming[0].h;
            && Honest(s, h)
            && CountersOk(Heights(Arriving(s)[1..]), s.acked + Wrap(h - s.acked), Count(s.server))
            && Payloads(Arriving(s)[1..]) == Payloads(Arriving(s))
  {
    hide Window, Inbound, Wrap;
    var h := s.client.incoming[0].h;
    ArrivingHead(s);
    assert Heights(Arriving(s))[1..] == Heights(Arriving(s)[1..]);
    CountersBelow(Heights(Arriving(s)[1..]), s.acked + Wrap(h - s.acked), Count(s.server));
  }

  lemma ReceiveAckSession(s: System)
    requires Session(s) && s.client.smEnabled && s.client.incoming != [] && s.client.incoming[0].Acknowledgement?
    ensures SmAck(s.client, s.client.incoming[0].h).Some?
    ensures var h := s.client.incoming[0].h;
            var d := SmAck(s.client, h).value.(incoming := s.client.incoming[1..]);
            Session(s.(client := d, acked := s.acked + ToDrop(s.client, h)))
  {
    hide Window, Inbound, Wrap;
    var h := s.client.incoming[0].h;
    ArrivingHead(s);
    ArrivingHonest(s);
    HonestAckWindow(s, h);
    var d := SmAck(s.client, h).value.(incoming := s.client.incoming[1..]);
    var s' := s.(client := d, acked := s.acked + ToDrop(s.client, h));
    assert Arriving(s') == Arriving(s)[1..];
  }

  lemma ReceiveAckKeepsInv(s: System)
    requires Inv(s) && s.client.running && s.client.incoming != []
    requires s.client.incoming[0].Acknowledgement? && s.client.smEnabled
    ensures ProcessIncoming(s.client).ok && Inv(Next(s, ReceiveTurn))
  {
    hide Placed, OnServer, Waiting, Session, Arriving, ProcessIncoming;
    var h := s.client.incoming[0].h;
    ArrivingHonest(s);
    ReceiveAckSession(s);
    HonestAckTokens(s, h);
    ReceiveAckFrame(s.client);
    assert s.c2s + [] == s.c2s;
    var d := SmAck(s.client, h).value;
    assert Next(s, ReceiveTurn)
        == s.(client := d.(incoming := s.client.incoming[1..]), acked := s.acked + ToDrop(s.client, h));
  }

  /** Taking the entry off the queue and acknowledging commute. */
  lemma ReceiveAckFrame(c: Client)
    requires c.incoming != [] && c.incoming[0].Acknowledgement? && c.smEnabled && SmAck(c, c.incoming[0].h).Some?
    ensures var d := SmAck(c, c.incoming[0].h).value;
            var r := ProcessIncoming(c);
            && r.ok && r.client == d.(incoming := c.incoming[1..]) && r.out == [] && r.delivered == None
            && Waiting(r.client) == Waiting(d)
  {
  }

  ghost predicate TokensOk(s: System) {
    && ClientTokens(s.client)
    && ServerTokens(s.client, s.server, s.c2s)
  }

  /** Token places depend on the token fields only. */
  lemma TokensFrame(s: System, s': System)
    requires s'.client.states == s.client.states && Waiting(s'.client) == Waiting(s.client)
    requires s'.client.unacked == s.client.unacked && s'.client.smEnabled == s.client.smEnabled
    requires s'.server.received == s.server.received && Tokens(s'.c2s) == Tokens(s.c2s)
    ensures TokensOk(s) == TokensOk(s')
  {
  }

  lemma InboundReceive(ctr: nat, running: bool, sent: seq<string>, payload: string, rest: seq<string>,
      processed: seq<string>)
    requires Inbound(ctr, running, sent, [payload] + rest, processed)
    ensures Inbound(Wrap(ctr + 1), running, sent, rest, processed + [payload])
  {
    assert processed + ([payload] + rest) == (processed + [payload]) + rest;
    WrapNext(|processed|);
  }

  lemma ReceiveStanzaSession(s: System)
    requires Session(s) && s.client.incoming != [] && s.client.incoming[0].Stanza? && s.client.smEnabled
    ensures var c := s.client;
            Session(s.(client := c.(incoming := c.incoming[1..], inboundCtr := Wrap(c.inboundCtr + 1)),
                       processed := s.processed + [c.incoming[0].payload]))
  {
    hide Window, Wrap, Inbound;
    var c, p := s.client, |s.processed|;
    var payload := c.incoming[0].payload;
    ArrivingHead(s);
    var s' := s.(client := c.(incoming := c.incoming[1..], inboundCtr := Wrap(c.inboundCtr + 1)),
                 processed := s.processed + [payload]);
    assert Arriving(s') == Arriving(s)[1..];
    InboundReceive(c.inboundCtr, c.running, s.server.sent, payload, Payloads(Arriving(s')), s.processed);
    CountersGrow(Answers(s.c2s), s.server.acked, p, p + 1);
  }

  lemma DropRequestSession(s: System)
    requires Session(s) && s.client.incoming != [] && s.client.incoming[0].AckRequest?
    ensures Session(s.(client := s.client.(incoming := s.client.incoming[1..])))
  {
    hide Window, Wrap, Inbound;
    ArrivingHead(s);
    var s' := s.(client := s.client.(incoming := s.client.incoming[1..]));
    assert Arriving(s') == Arriving(s)[1..];
  }

  lemma ReceiveTurnKeepsInv(s: System)
    requires Inv(s) && Bounded(s) && s.client.running && s.client.incoming != []
    ensures ProcessIncoming(s.client).ok && Inv(Next(s, ReceiveTurn))
  {
    hide Session, Arriving, ClientTokens, ServerTokens;
    var c := s.client;
    var popped := s.(client := c.(incoming := c.incoming[1..]));
    ArrivingHead(s);
    assert Arriving(popped) == Arriving(s)[1..] by { ArrivingHead(s); PoppedArriving(s); }
    assert s.c2s + [] == s.c2s;
    if !c.smEnabled {
      assert Heights(Arriving(popped)) == [];
      TokensFrame(s, popped);
    } else {
      match c.incoming[0] {
        case Acknowledgement(h) =>
          ReceiveAckKeepsInv(s);
        case AckRequest =>
          DropRequestSession(s);
          TokensFrame(s, popped);
          AnnounceKeepsInv(popped);
        case Stanza(payload) =>
          ReceiveStanzaSession(s);
          TokensFrame(s, Next(s, ReceiveTurn));
      }
    }
  }

  lemma PoppedArriving(s: System)
    requires s.client.incoming != []
    ensures Arriving(s.(client := s.client.(incoming := s.client.incoming[1..]))) == s.client.incoming[1..] + s.s2c
  {
  }

  // ---------------------------------------------------------------- stopping

  /** Stop a client whose slot is empty: nothing is left waiting or unacknowledged. */
  lemma StopTokens(c: Client, v: Server, c2s: seq<Outgoing>)
    requires c.slot == None && ClientTokens(c) && ServerTokens(c, v, c2s)
    ensures ClientTokens(StopSm(c)) && ServerTokens(StopSm(c), v, c2s)
    ensures StopSm(c) == c.(states := StopSm(c).states, queue := [], unacked := [], smEnabled := false, base := 0,
        inboundCtr := 0)
  {
    hide Placed, OnServer;
    var got, flying := multiset(v.received), multiset(Tokens(c2s));
    var states := SetStates(c.states, c.unacked, SENT_WITHOUT_SM);
    assert multiset(c.unacked) == multiset(c.unacked) + multiset([]);
    PlacedFinishUnacked(c.states, multiset(c.queue), c.unacked, multiset([]), c.smEnabled, SENT_WITHOUT_SM);
    OnServerFinishWritten(c.states, multiset(c.queue), got, flying, c.unacked, SENT_WITHOUT_SM);
    DestroyTokens(states, c.queue, [], c.smEnabled, false, got, flying);
  }

  lemma DestroyTokens(states: seq<StanzaState>, queue: seq<nat>, u: seq<nat>, smEnabled: bool, smEnabled': bool,
                      got: multiset<nat>, flying: multiset<nat>)
    requires Placed(states, multiset(queue), multiset(u), smEnabled)
    requires OnServer(states, multiset(queue), got, flying)
    ensures var states' := SetStates(states, queue, DISCONNECTED);
            && Placed(states', multiset([]), multiset(u), smEnabled')
            && OnServer(states', multiset([]), got, flying)
  {
    PlacedFinishWaiting(states, queue, multiset(u), smEnabled, DISCONNECTED, smEnabled');
    forall t: nat | t in multiset(queue) ensures t !in got && t !in flying {}
    OnServerFinishUnwritten(states, multiset(queue), got, flying, queue, DISCONNECTED);
    OnServerFewer(SetStates(states, queue, DISCONNECTED), multiset(queue), got, flying, multiset([]), flying);
  }

  lemma DestroyKeepsTokens(c: Client, v: Server, c2s: seq<Outgoing>)
    requires c.slot == None && ClientTokens(c) && ServerTokens(c, v, c2s)
    ensures ClientTokens(DestroyStreamState(c)) && ServerTokens(DestroyStreamState(c), v, c2s)
  {
    hide Placed, OnServer;
    DestroyTokens(c.states, c.queue, c.unacked, c.smEnabled, c.smEnabled, multiset(v.received), multiset(Tokens(c2s)));
  }

  lemma TeardownTokens(c: Client, v: Server, c2s: seq<Outgoing>)
    requires ClientTokens(c) && ServerTokens(c, v, c2s)
    ensures ClientTokens(Teardown(c)) && ServerTokens(Teardown(c), v, c2s)
  {
    hide Placed, OnServer, StopSm, DestroyStreamState;
    var d := PutBack(c.(incoming := []));
    assert Waiting(d) == Waiting(c);
    if !(c.smEnabled && c.resumable) {
      DestroyKeepsTokens(d, v, c2s);
      if c.smEnabled {
        DestroyFields(d);
        StopTokens(DestroyStreamState(d), v, c2s);
      }
    }
    TeardownFrame(c);
  }

  lemma TeardownFrame(c: Client)
    ensures var d := PutBack(c.(incoming := []));
            Teardown(c) == (if c.smEnabled && c.resumable then d
                            else if c.smEnabled then StopSm(DestroyStreamState(d))
                            else DestroyStreamState(d)).(running := false)
  {
  }

  lemma WindowStopped(unacked: seq<nat>, got: multiset<nat>, untold: seq<nat>, flying: seq<nat>, running: bool)
    requires Window(unacked, got, untold, flying, running)
    ensures Window(unacked, got, untold, flying, false)
  {
  }

  lemma InboundStopped(ctr: nat, running: bool, sent: seq<string>, arriving: seq<string>, processed: seq<string>)
    requires Inbound(ctr, running, sent, arriving, processed)
    ensures Inbound(ctr, false, sent, [], processed)
  {
    assert processed + [] == processed;
  }

  lemma TeardownKeeps(c: Client)
    requires c.smEnabled && c.resumable
    ensures var d := Teardown(c);
            && d.unacked == c.unacked && d.base == c.base && d.inboundCtr == c.inboundCtr
            && d.incoming == [] && !d.running && d.smEnabled
  {
    TeardownFrame(c);
  }

  /** A resumable stream keeps its session over a disconnect. */
  lemma DisconnectSession(s: System)
    requires Session(s) && s.client.smEnabled && s.client.resumable
    ensures Session(s.(client := Teardown(s.client), s2c := []))
  {
    hide CountersOk, Window, Inbound, Teardown, Wrap;
    var c := s.client;
    TeardownKeeps(c);
    CountersBelow(Heights(Arriving(s)), s.acked, Count(s.server));
    EmptyCounters(s.acked, Count(s.server));
    WindowStopped(c.unacked, multiset(s.server.received), Untold(s.server, s.acked), Tokens(s.c2s), c.running);
    InboundStopped(c.inboundCtr, c.running, s.server.sent, Payloads(Arriving(s)), s.processed);
    assert Arriving(s.(client := Teardown(c), s2c := [])) == [];
  }

  lemma EmptyCounters(a: nat, r: nat)
    requires a <= r
    ensures CountersOk([], a, r)
  {
  }

  lemma DisconnectKeepsInv(s: System)
    requires Inv(s) && s.client.running
    ensures Inv(s.(client := Teardown(s.client), s2c := []))
    ensures Teardown(s.client).slot == None && !Teardown(s.client).running
  {
    hide Session, ClientTokens, ServerTokens;
    TeardownTokens(s.client, s.server, s.c2s);
    if s.client.smEnabled && s.client.resumable {
      DisconnectSession(s);
    }
  }

  lemma StopManagementKeepsInv(s: System)
    requires Inv(s) && !s.client.running
    ensures Inv(s.(client := StopSm(s.client)))
  {
    hide Session, ClientTokens, ServerTokens, StopSm;
    StopTokens(s.client, s.server, s.c2s);
  }

  lemma CloseKeepsInv(s: System)
    requires Inv(s)
    ensures Inv(Next(s, CloseStream))
    ensures var d := Next(s, CloseStream).client; Waiting(d) == [] && d.unacked == [] && !d.smEnabled
  {
    hide Session, ClientTokens, ServerTokens, Teardown, StopSm, DestroyStreamState;
    var s1 := if s.client.running then s.(client := Teardown(s.client), s2c := []) else s;
    if s.client.running {
      DisconnectKeepsInv(s);
    }
    var s2 := s1.(client := s1.client.(closed := true));
    TokensFrame(s1, s2) by { assert Waiting(s1.client) == Waiting(s2.client); }
    DestroyKeepsTokens(s2.client, s.server, s.c2s);
    DestroyFields(s2.client);
    if s2.client.smEnabled {
      StopTokens(DestroyStreamState(s2.client), s.server, s.c2s);
    }
    assert s1.s2c == [];
  }

  // ---------------------------------------------------------------- starting

  lemma ConnectKeepsInv(s: System)
    requires Inv(s) && Enabled(s, Connect)
    ensures Inv(Next(s, Connect))
  {
    hide Placed, OnServer, Session, Waiting;
    OnServerFewer(s.client.states, multiset(Waiting(s.client)), multiset(s.server.received), multiset(Tokens(s.c2s)),
                  multiset(Waiting(s.client)), multiset([]));
    StartFrame(s.client);
  }

  lemma StartFrame(c: Client)
    ensures Waiting(Start(c)) == Waiting(c)
  {
  }

  lemma EnabledState(s: System, resumable: bool)
    requires Enabled(s, EnableSm(resumable))
    ensures Next(s, EnableSm(resumable)) == Started(s, resumable)
    ensures s.client.running && !s.client.smEnabled && s.c2s == [] && s.s2c == [] && s.client.incoming == []
  {
  }

  /** Management begins on both sides, with nothing in flight. */
  ghost function Started(s: System, resumable: bool): System {
    s.(client := SmEnabled(s.client, resumable),
       server := Server(true, s.server.received, |s.server.received|, [], 0), acked := 0, processed := [])
  }

  lemma StartedFrame(s: System, resumable: bool)
    requires s.client.running && s.c2s == [] && s.s2c == [] && s.client.incoming == []
    requires Modes(s.client, s.server, s.s2c)
    ensures var s' := Started(s, resumable);
      && Waiting(s'.client) == Waiting(s.client) && s'.client.smEnabled && Modes(s'.client, s'.server, s'.s2c)
      && s'.client.base == 0 && s'.client.unacked == [] && s'.client.inboundCtr == 0 && s'.client.incoming == []
      && s'.client.states == s.client.states && s'.server.received == s.server.received && s'.c2s == s.c2s
  {
  }

  lemma EnableSmKeepsInv(s: System, resumable: bool)
    requires Inv(s) && Enabled(s, EnableSm(resumable))
    ensures Inv(Next(s, EnableSm(resumable)))
  {
    EnabledState(s, resumable);
    hide Next, Enabled, OnServer, Placed, Session, Waiting, Modes;
    StartedFrame(s, resumable);
    PlacedMode(s.client.states, multiset(Waiting(s.client)), multiset(s.client.unacked));
    NoneUnacked(s.client, s.server, s.s2c);
    NewSession(Started(s, resumable));
  }

  lemma NoneUnacked(c: Client, v: Server, s2c: seq<Incoming>)
    requires Modes(c, v, s2c) && !c.smEnabled
    ensures c.unacked == []
  {
  }

  lemma PlacedMode(states: seq<StanzaState>, w: multiset<nat>, u: multiset<nat>)
    requires Placed(states, w, u, false)
    ensures Placed(states, w, u, true)
  {
  }

  lemma NewSession(s: System)
    requires s.client.base == 0 && s.client.unacked == [] && s.client.inboundCtr == 0 && s.client.incoming == []
    requires s.server.start == |s.server.received| && s.server.sent == [] && s.server.acked == 0
    requires s.acked == 0 && s.processed == [] && s.c2s == [] && s.s2c == []
    ensures Session(s)
  {
    assert Untold(s.server, 0) == [];
  }

  // ---------------------------------------------------------------- resumption

  /** After exchanging counters the server knows exactly how much the client has processed. */
  lemma ServerLearns(s: System)
    requires Session(s) && Bounded(s)
    ensures ServerAck(s.server, s.client.inboundCtr) == s.server.(acked := |s.processed|)
    ensures |s.processed| <= |s.server.sent|
  {
    hide Window;
    CountersBelow(Answers(s.c2s), s.server.acked, |s.processed|);
    Unwrap(s.server.acked, |s.processed|);
  }

  lemma ResponseLostKeepsInv(s: System)
    requires Inv(s) && Bounded(s) && !s.client.running && s.client.smEnabled
    ensures Inv(s.(server := ServerAck(s.server, s.client.inboundCtr), c2s := [], s2c := []))
  {
    hide Placed, OnServer;
    ServerLearns(s);
    OnServerFewer(s.client.states, multiset(Waiting(s.client)), multiset(s.server.received), multiset(Tokens(s.c2s)),
                  multiset(Waiting(s.client)), multiset([]));
  }

  /** The total which the server announces is honest, and leaves nothing received unacknowledged. */
  lemma ServerTotal(s: System)
    requires Inv(s) && Bounded(s) && s.client.smEnabled
    ensures var h := Wrap(Count(s.server));
            && Honest(s, h) && s.acked + Wrap(h - s.acked) == Count(s.server)
            && ToDrop(s.client, h) == Count(s.server) - s.acked
  {
    hide Placed, OnServer, CountersOk, Inbound;
    assert Count(s.server) - s.acked == |Untold(s.server, s.acked)| <= |s.client.unacked|;
    Unwrap(s.acked, Count(s.server));
    Rewrap(s.acked, Wrap(Count(s.server)));
  }

  lemma PlacedRequeue(states: seq<StanzaState>, queue: seq<nat>, unacked: seq<nat>)
    requires Placed(states, multiset(queue), multiset(unacked), true)
    ensures Placed(states, multiset(Reverse(unacked) + queue), multiset([]), true)
  {
    ReverseCounts(unacked);
    var w := multiset(Reverse(unacked) + queue);
    assert w == multiset(unacked) + multiset(queue);
    forall t: nat ensures w[t] <= 1 {
      assert multiset(queue)[t] + multiset(unacked)[t] <= 1;
    }
  }

  lemma OnServerRequeue(states: seq<StanzaState>, queue: seq<nat>, unacked: seq<nat>, got: multiset<nat>)
    requires OnServer(states, multiset(queue), got, multiset([]))
    requires forall t: nat :: t in multiset(unacked) ==> t !in got
    ensures OnServer(states, multiset(Reverse(unacked) + queue), got, multiset([]))
  {
    ReverseCounts(unacked);
    assert multiset(Reverse(unacked) + queue) == multiset(unacked) + multiset(queue);
  }

  /** What resumption leaves unacknowledged was never received. */
  lemma RestNeverReceived(s: System)
    requires Inv(s) && Bounded(s) && s.client.smEnabled
    ensures SmAck(s.client, Wrap(Count(s.server))).Some?
    ensures var d := SmAck(s.client, Wrap(Count(s.server))).value;
            && ClientTokens(d) && ServerTokens(d, s.server, s.c2s)
            && d.base == Wrap(Count(s.server))
            && forall t: nat :: t in multiset(d.unacked) ==> t !in multiset(s.server.received)
  {
    hide Placed, OnServer, CountersOk, Inbound, Waiting;
    ServerTotal(s);
    var h := Wrap(Count(s.server));
    HonestAckWindow(s, h);
    HonestAckTokens(s, h);
    var d := SmAck(s.client, h).value;
    assert Untold(s.server, Count(s.server)) == [];
    assert d.unacked[0..] == d.unacked;
  }

  lemma ResumeTokens(s: System)
    requires Inv(s) && Bounded(s) && !s.client.running && s.client.smEnabled
    ensures SmAck(s.client, Wrap(Count(s.server))).Some?
    ensures var d := ResumeSm(s.client, Wrap(Count(s.server))).value;
            ClientTokens(d) && ServerTokens(d, s.server, [])
  {
    hide Placed, OnServer, Session;
    RestNeverReceived(s);
    var d := SmAck(s.client, Wrap(Count(s.server))).value;
    var got := multiset(s.server.received);
    OnServerFewer(d.states, multiset(d.queue), got, multiset(Tokens(s.c2s)), multiset(d.queue), multiset([]));
    PlacedRequeue(d.states, d.queue, d.unacked);
    OnServerRequeue(d.states, d.queue, d.unacked, got);
  }

  /** What a successful resumption leaves, once both counters are known to be honest. */
  lemma ResumeShape(s: System)
    requires Inv(s) && Bounded(s) && !s.client.running && s.client.smEnabled
    ensures ResumeSm(s.client, Wrap(Count(s.server))).Some?
    ensures var d := ResumeSm(s.client, Wrap(Count(s.server))).value;
            && Resumed(s) == s.(client := d.(running := true), server := s.server.(acked := |s.processed|),
                                c2s := [], s2c := AsIncoming(s.server.sent[|s.processed|..]), acked := Count(s.server))
            && d == s.client.(states := d.states, queue := d.queue, unacked := [], base := Wrap(Count(s.server)))
  {
    hide Placed, OnServer, SmAck, Session, Waiting;
    ServerLearns(s);
    ServerTotal(s);
    RestNeverReceived(s);
    AckFields(s.client, Wrap(Count(s.server)));
    var v := ServerAck(s.server, s.client.inboundCtr);
    assert v == s.server.(acked := |s.processed|);
    assert Count(v) == Count(s.server);
    assert Outstanding(v) == s.server.sent[|s.processed|..];
    var d := ResumeSm(s.client, Wrap(Count(v))).value;
    assert Resumed(s).client == d.(running := true);
    assert Resumed(s).acked == Count(v);
  }

  lemma ResumeKeepsInv(s: System)
    requires Inv(s) && Bounded(s) && !s.client.running && s.client.smEnabled
    ensures ResumeSm(s.client, Wrap(Count(s.server))).Some?
    ensures Inv(Resumed(s))
  {
    hide Session, SmAck, Resumed, ResumeSm, Placed, OnServer;
    ResumeShape(s);
    ResumeTokens(s);
    var s' := Resumed(s);
    ResumeFrame(ResumeSm(s.client, Wrap(Count(s.server))).value);
    ResumeSession(s, s');
  }

  lemma ResumeFrame(c: Client)
    ensures Waiting(c.(running := true)) == Waiting(c)
  {
  }

  lemma EmptyWindow(got: multiset<nat>, running: bool)
    ensures Window([], got, [], [], running)
  {
  }

  lemma InboundAll(ctr: nat, running: bool, sent: seq<string>, arriving: seq<string>, processed: seq<string>,
      running': bool)
    requires Inbound(ctr, running, sent, arriving, processed)
    ensures |processed| <= |sent| && processed + sent[|processed|..] == sent
    ensures Inbound(ctr, running', sent, sent[|processed|..], processed)
  {
  }

  lemma ResumeSession(s: System, s': System)
    requires Session(s)
    requires s'.server == s.server.(acked := |s.processed|) && s'.c2s == [] && s'.processed == s.processed
    requires s'.client.incoming == [] && s'.s2c == AsIncoming(s.server.sent[|s.processed|..])
    requires s'.client.unacked == [] && s'.client.base == Wrap(s'.acked) && s'.acked == Count(s.server)
    requires s'.client.inboundCtr == s.client.inboundCtr
    ensures Session(s')
  {
    hide Wrap, Window, CountersOk, Inbound;
    EmptyCounters(Count(s.server), Count(s.server));
    EmptyCounters(|s.processed|, |s.processed|);
    EmptyWindow(multiset(s.server.received), s'.client.running);
    InboundAll(s.client.inboundCtr, s.client.running, s.server.sent, Payloads(Arriving(s)), s.processed,
        s'.client.running);
    Retransmission(s.server.sent[|s.processed|..]);
    assert Arriving(s') == AsIncoming(s.server.sent[|s.processed|..]);
    assert Untold(s'.server, s'.acked) == [];
  }

  /** Unacknowledged tokens which the server has not received are marked as disconnected. */
  lemma ClearDisconnected(c: Client, v: Server, c2s: seq<Outgoing>)
    requires ClientTokens(c) && ServerTokens(c, v, c2s)
    requires forall t: nat :: t in multiset(c.unacked) ==> t !in multiset(v.received)
    ensures var d := ClearUnacked(c, DISCONNECTED);
            && ClientTokens(d) && ServerTokens(d, v, [])
            && d == c.(states := d.states, unacked := [])
  {
    hide Placed, OnServer;
    var w, got, none := multiset(Waiting(c)), multiset(v.received), multiset([]);
    assert Waiting(ClearUnacked(c, DISCONNECTED)) == Waiting(c);
    assert multiset(c.unacked) == multiset(c.unacked) + none;
    PlacedFinishUnacked(c.states, w, c.unacked, none, c.smEnabled, DISCONNECTED);
    OnServerFewer(c.states, w, got, multiset(Tokens(c2s)), w, none);
    OnServerFinishUnwritten(c.states, w, got, none, c.unacked, DISCONNECTED);
  }

  lemma RefuseKeepsInv(s: System, withCounter: bool)
    requires Inv(s) && Bounded(s) && !s.client.running && s.client.smEnabled
    ensures ResumeRefused(s.client, if withCounter then Some(Wrap(Count(s.server))) else None).Some?
    ensures Inv(Next(s, Refuse(withCounter)))
  {
    hide Placed, OnServer, Session, StopSm, SmAck, Waiting, ClearUnacked;
    var c, v, got := s.client, s.server, multiset(s.server.received);
    OnServerFewer(c.states, multiset(Waiting(c)), got, multiset(Tokens(s.c2s)), multiset(Waiting(c)), multiset([]));
    if !withCounter {
      StopTokens(c, v, []);
    } else {
      RestNeverReceived(s);
      var d := SmAck(c, Wrap(Count(v))).value;
      AckFields(c, Wrap(Count(v)));
      ClearDisconnected(d, v, s.c2s);
      StopTokens(ClearUnacked(d, DISCONNECTED), v, []);
    }
  }

  lemma AckFields(c: Client, h: int)
    requires SmAck(c, h).Some?
    ensures var d := SmAck(c, h).value; d == c.(states := d.states, unacked := d.unacked, base := d.base)
  {
  }

  // ---------------------------------------------------------------- the server's steps

  lemma DeliverKeepsInv(s: System)
    requires Inv(s) && s.client.running && s.s2c != []
    ensures Inv(Next(s, Deliver))
  {
    hide Session, ClientTokens, ServerTokens;
    var s' := Next(s, Deliver);
    assert s.client.incoming + s.s2c == (s.client.incoming + [s.s2c[0]]) + s.s2c[1..];
    TokensFrame(s, s') by { assert Waiting(s'.client) == Waiting(s.client); }
    ArrivingSession(s, s');
  }

  /** A session sees the incoming queue and the channel only as one sequence. */
  lemma ArrivingSession(s: System, s': System)
    requires s' == s.(client := s.client.(incoming := s'.client.incoming), s2c := s'.s2c)
    requires Arriving(s) == Arriving(s')
    ensures Session(s) == Session(s')
  {
  }

  lemma ArrivingMore(s: System, m: Incoming)
    ensures Arriving(s.(s2c := s.s2c + [m])) == Arriving(s) + [m]
    ensures Payloads(Arriving(s) + [m]) == Payloads(Arriving(s)) + (if m.Stanza? then [m.payload] else [])
    ensures Heights(Arriving(s) + [m]) == Heights(Arriving(s)) + (if m.Acknowledgement? then [m.h] else [])
  {
    IncomingConcat(Arriving(s), [m]);
  }

  lemma ServerAnswersKeepsInv(s: System)
    requires Inv(s) && Bounded(s) && s.server.session
    ensures Inv(Next(s, ServerAnswers))
  {
    hide ClientTokens, ServerTokens, Inbound;
    var m := Acknowledgement(Wrap(Count(s.server)));
    if s.client.running {
      ArrivingMore(s, m);
      assert |Untold(s.server, s.acked)| <= |s.client.unacked|;
      hide Window, Wrap;
      CountersAppend(Heights(Arriving(s)), s.acked, Count(s.server));
      assert Payloads(Arriving(s)) + [] == Payloads(Arriving(s));
    }
  }

  lemma ServerAsksKeepsInv(s: System)
    requires Inv(s)
    ensures Inv(ToClient(s, AckRequest))
  {
    hide ClientTokens, ServerTokens, Inbound, Window, Wrap, CountersOk;
    if s.client.running {
      ArrivingMore(s, AckRequest);
      assert Payloads(Arriving(s)) + [] == Payloads(Arriving(s));
      assert Heights(Arriving(s)) + [] == Heights(Arriving(s));
    }
  }

  lemma ServerSendsKeepsInv(s: System, payload: string)
    requires Inv(s) && (s.server.session || s.client.running)
    ensures Inv(Next(s, ServerSends(payload)))
  {
    hide ClientTokens, ServerTokens, Window, Wrap, CountersOk;
    ArrivingMore(s, Stanza(payload));
    assert Heights(Arriving(s)) + [] == Heights(Arriving(s));
    assert s.processed + (Payloads(Arriving(s)) + [payload]) == (s.processed + Payloads(Arriving(s))) + [payload];
    TokensFrame(s, Next(s, ServerSends(payload)));
  }

  lemma ReadOnServer(states: seq<StanzaState>, w: multiset<nat>, got: seq<nat>, t: nat, flying: seq<nat>)
    requires OnServer(states, w, multiset(got), multiset([t] + flying))
    ensures OnServer(states, w, multiset(got + [t]), multiset(flying))
  {
    assert multiset([t] + flying) == One(t) + multiset(flying);
    forall k: nat ensures multiset(got + [t])[k] + multiset(flying)[k] <= 1 {
      assert multiset(got)[k] + multiset([t] + flying)[k] <= 1;
    }
  }

  lemma ReadWindow(unacked: seq<nat>, got: seq<nat>, untold: seq<nat>, t: nat, flying: seq<nat>, running: bool)
    requires Window(unacked, multiset(got), untold, [t] + flying, running)
    requires forall k: nat :: multiset(unacked)[k] <= 1
    ensures Window(unacked, multiset(got + [t]), untold + [t], flying, running)
  {
    var tail := unacked[|untold|..];
    assert [t] + flying <= tail;
    assert tail[0] == t;
    var rest := unacked[|untold| + 1..];
    assert tail == [t] + rest;
    assert ([t] + flying)[1..] <= tail[1..];
    assert unacked == unacked[..|untold|] + tail;
    assert multiset(unacked) == multiset(unacked[..|untold|]) + One(t) + multiset(rest);
    forall k: nat | k in multiset(rest) ensures k !in multiset(got + [t]) {
      assert multiset(unacked)[k] <= 1;
      assert k in multiset(tail);
    }
  }

  lemma ReadTokenSession(s: System, t: nat)
    requires Inv(s) && s.client.smEnabled && s.c2s != [] && s.c2s[0] == TokenStanza(t)
    ensures Session(s.(c2s := s.c2s[1..], server := s.server.(received := s.server.received + [t])))
  {
    hide Inbound, CountersOk, OnServer, Wrap, Waiting;
    var v := s.server;
    var s' := s.(c2s := s.c2s[1..], server := v.(received := v.received + [t]));
    assert Untold(s'.server, s.acked) == Untold(v, s.acked) + [t];
    assert forall k: nat :: multiset(s.client.unacked)[k] <= 1 by {
      forall k: nat ensures multiset(s.client.unacked)[k] <= 1 {
        assert multiset(Waiting(s.client))[k] + multiset(s.client.unacked)[k] <= 1;
      }
    }
    hide Window, Placed;
    ReadWindow(s.client.unacked, v.received, Untold(v, s.acked), t, Tokens(s'.c2s), s.client.running);
    CountersGrow(Heights(Arriving(s)), s.acked, Count(v), Count(s'.server));
  }

  lemma ReadAnswerSession(s: System, h: nat)
    requires Session(s) && s.c2s != [] && s.c2s[0] == Answer(h)
    ensures Session(s.(c2s := s.c2s[1..], server := ServerAck(s.server, h)))
  {
    hide Wrap, Window;
    var v, p := s.server, |s.processed|;
    var a := v.acked + Wrap(h - v.acked);
    assert Answers(s.c2s) == [h as int] + Answers(s.c2s[1..]);
    assert Answers(s.c2s)[1..] == Answers(s.c2s[1..]);
    CountersBelow(Answers(s.c2s[1..]), a, p);
  }

  lemma ReadTokenKeepsInv(s: System, t: nat)
    requires Inv(s) && s.c2s != [] && s.c2s[0] == TokenStanza(t)
    ensures Inv(s.(c2s := s.c2s[1..], server := s.server.(received := s.server.received + [t])))
  {
    hide Session, Placed, OnServer, Waiting, Arriving;
    var s' := s.(c2s := s.c2s[1..], server := s.server.(received := s.server.received + [t]));
    assert Tokens(s.c2s) == [t] + Tokens(s'.c2s);
    ReadOnServer(s.client.states, multiset(Waiting(s.client)), s.server.received, t, Tokens(s'.c2s));
    if s.client.smEnabled {
      ReadTokenSession(s, t);
    }
    ArrivingServer(s, s');
  }

  lemma ReadAnswerKeepsInv(s: System, h: nat)
    requires Inv(s) && s.c2s != [] && s.c2s[0] == Answer(h)
    ensures Inv(s.(c2s := s.c2s[1..], server := ServerAck(s.server, h)))
  {
    hide Session, Placed, OnServer, Waiting, Arriving, ServerAck;
    var s' := s.(c2s := s.c2s[1..], server := ServerAck(s.server, h));
    assert Tokens(s.c2s) == Tokens(s'.c2s);
    ServerAckFields(s.server, h);
    if s.client.smEnabled {
      ReadAnswerSession(s, h);
    }
    ArrivingServer(s, s');
  }

  lemma ServerReadsKeepsInv(s: System)
    requires Inv(s) && Bounded(s) && s.c2s != []
    ensures Inv(Next(s, ServerReads))
  {
    hide Inv, ServerAck;
    match s.c2s[0] {
      case TokenStanza(t) =>
        ReadTokenKeepsInv(s, t);
      case Answer(h) =>
        ReadAnswerKeepsInv(s, h);
      case Request =>
        ReadRequest(s);
        if s.server.session {
          ServerAnswersKeepsInv(s.(c2s := s.c2s[1..]));
        }
    }
  }

  lemma ReadRequest(s: System)
    requires Inv(s) && s.c2s != [] && s.c2s[0] == Request
    ensures Inv(s.(c2s := s.c2s[1..]))
  {
    hide Placed, OnServer, Waiting, Window, CountersOk, Inbound;
  }

  lemma ArrivingServer(s: System, s': System)
    requires s'.client == s.client && s'.s2c == s.s2c
    ensures Arriving(s') == Arriving(s)
  {
  }

  lemma ServerAckFields(v: Server, h: int)
    ensures ServerAck(v, h) == v.(acked := ServerAck(v, h).acked)
  {
  }

  // ---------------------------------------------------------------- every step, every run

  lemma NextKeepsInv(s: System, step: Step)
    requires Inv(s) && Bounded(s) && Enabled(s, step)
    ensures Inv(Next(s, step))
  {
    hide Inv, ProcessOutgoing, ProcessIncoming, Teardown, Close, StopSm, ServerHandles, Resumed;
    match step
    case EnqueueStanza => EnqueueKeepsInv(s);
    case AbortToken(token) => AbortKeepsInv(s, token);
    case Take => TakeKeepsInv(s);
    case SendTurn(outcomes) => SendTurnKeepsInv(s, outcomes);
    case ReceiveTurn => ReceiveTurnKeepsInv(s);
    case Announce => AnnounceKeepsInv(s);
    case SoftLimit => RequestKeepsInv(s);
    case Disconnect => DisconnectKeepsInv(s);
    case CloseStream => CloseKeepsInv(s);
    case StopManagement => StopManagementKeepsInv(s);
    case Connect => ConnectKeepsInv(s);
    case EnableSm(resumable) => EnableSmKeepsInv(s, resumable);
    case Resume => ResumeKeepsInv(s);
    case ResumeResponseLost => ResponseLostKeepsInv(s);
    case Refuse(withCounter) => RefuseKeepsInv(s, withCounter);
    case ServerReads => ServerReadsKeepsInv(s);
    case ServerSends(payload) => ServerSendsKeepsInv(s, payload);
    case ServerAnswers => ServerAnswersKeepsInv(s);
    case ServerAsks => ServerAsksKeepsInv(s);
    case Deliver => DeliverKeepsInv(s);
  }
}
