// The stanza stream in its own form: tokens are objects whose state is updated in place, and
// the queue, the unacked list and the counters are fields.  Each method is proved against the
// function of SmClient which gives the new fields from the old ones.

module StanzaStreams {
  import opened Common
  import opened SmClient

  class StanzaToken {
    const serial: nat        // stands for the stanza: the position in the order of acceptance
    var state: StanzaState

    constructor (serial: nat)
      ensures this.serial == serial && state == ACTIVE
    {
      this.serial := serial;
      state := ACTIVE;
    }

    method SetState(newState: StanzaState)
      modifies this
      ensures state == newState
    {
      state := newState;
    }

    /** False is the RuntimeError for a token which was already sent. */
    method Abort() returns (ok: bool)
      modifies this
      ensures ok <==> old(state) == ACTIVE || old(state) == ABORTED
      ensures state == if ok then ABORTED else old(state)
    {
      if state != ACTIVE && state != ABORTED {
        return false;
      }
      SetState(ABORTED);
      return true;
    }
  }

  function Serials(ts: seq<StanzaToken>): (r: seq<nat>)
    ensures |r| == |ts|
  {
    seq(|ts|, i requires 0 <= i < |ts| => ts[i].serial)
  }

  ghost function StatesOf(ts: seq<StanzaToken>): (r: seq<StanzaState>)
    reads ts
    ensures |r| == |ts|
  {
    seq(|ts|, i requires 0 <= i < |ts| reads ts => ts[i].state)
  }

  class StanzaStream {
    ghost var tokens: seq<StanzaToken>   // every token ever accepted

    var nextSerial: nat
    var activeQueue: seq<StanzaToken>
    var slot: StanzaToken?               // the result of the pending get() on the active queue
    var unacked: seq<StanzaToken>
    var incoming: seq<Incoming>
    var smEnabled: bool
    var resumable: bool
    var outboundBase: int
    var inboundCtr: nat
    var running: bool
    var closed: bool
    var written: seq<Outgoing>           // the elements sent over the XML streams
    var delivered: seq<string>           // the stanzas handed to the processing methods

    ghost predicate Known(t: StanzaToken)
      reads `tokens
    {
      t.serial < |tokens| && tokens[t.serial] == t
    }

    ghost predicate Valid()
      reads `tokens, `nextSerial, `activeQueue, `unacked, `slot
    {
      && nextSerial == |tokens|
      && (forall i :: 0 <= i < |tokens| ==> tokens[i].serial == i)
      && (forall t <- activeQueue :: Known(t))
      && (forall t <- unacked :: Known(t))
      && (slot != null ==> Known(slot))
    }

    ghost function Model(): Client
      reads this, tokens
    {
      Client(StatesOf(tokens), Serials(activeQueue), if slot == null then None else Some(slot.serial), Serials(unacked),
             incoming, smEnabled, resumable, outboundBase, inboundCtr, running, closed)
    }

    constructor ()
      ensures Valid() && Model() == INITIAL && written == [] && delivered == []
    {
      tokens, nextSerial, activeQueue, slot, unacked, incoming := [], 0, [], null, [], [];
      smEnabled, resumable, outboundBase, inboundCtr, running, closed := false, false, 0, 0, false, false;
      written, delivered := [], [];
    }

    /** The loops over a list of tokens which put each of them into one state. */
    method SetStates(ts: seq<StanzaToken>, newState: StanzaState)
      requires Valid() && forall t <- ts :: Known(t)
      modifies tokens
      ensures StatesOf(tokens) == SmClient.SetStates(old(StatesOf(tokens)), Serials(ts), newState)
    {
      for k := 0 to |ts|
        invariant forall i :: 0 <= i < |tokens| ==>
          tokens[i].state == if i in Serials(ts[..k]) then newState else old(tokens[i].state)
      {
        assert ts[k] in ts && Known(ts[k]);
        ts[k].SetState(newState);
        assert Serials(ts[..k + 1]) == Serials(ts[..k]) + [ts[k].serial];
      }
      assert ts[..|ts|] == ts;
    }

    // ---------------------------------------------------------------- application side

    /** Null is the exception raised on a closed stream. */
    method Enqueue() returns (token: StanzaToken?)
      requires Valid()
      modifies this
      ensures Valid()
      ensures match SmClient.Enqueue(old(Model()))
              case None => token == null && Model() == old(Model()) && tokens == old(tokens)
              case Some(c) => token != null && fresh(token) && tokens == old(tokens) + [token] && Model() == c
      ensures (token == null) == old(closed)
      ensures token != null ==> activeQueue == old(activeQueue) + [token] && token.state == ACTIVE
      ensures unchanged(`written) && unchanged(`delivered)
    {
      if closed {
        return null;
      }
      token := new StanzaToken(nextSerial);
      nextSerial := nextSerial + 1;
      tokens := tokens + [token];
      activeQueue := activeQueue + [token];
    }

    // ---------------------------------------------------------------- broker, outbound

    method TakeSlot()
      requires Valid() && slot == null && activeQueue != []
      modifies this
      ensures Valid() && tokens == old(tokens) && Model() == SmClient.TakeSlot(old(Model()))
      ensures unchanged(`written) && unchanged(`delivered)
    {
      assert activeQueue[0] in activeQueue && forall t <- activeQueue[1..] :: t in activeQueue;
      slot := activeQueue[0];
      activeQueue := activeQueue[1..];
      assert Serials(activeQueue) == old(Serials(activeQueue))[1..];
    }

    /** Send one token, which the caller has taken out of the slot or the queue. */
    method SendStanza(token: StanzaToken, outcome: SendOutcome)
      requires Valid() && Known(token) && slot == null
      modifies this, tokens
      ensures Valid() && tokens == old(tokens) && activeQueue == old(activeQueue) && slot == null
      ensures var r := SendSlot(old(Model()).(slot := Some(token.serial)), outcome);
              Model() == r.0 && written == old(written) + r.1
      ensures unchanged(`delivered)
    {
      if token.state == ABORTED {
        return;
      }
      match outcome {
        case DroppedByFilter =>
          token.SetState(DROPPED);
        case SendFailed =>
          token.SetState(FAILED);
        case Forwarded =>
          written := written + [TokenStanza(token.serial)];
          if smEnabled {
            token.SetState(SENT);
            unacked := unacked + [token];
          } else {
            token.SetState(SENT_WITHOUT_SM);
          }
      }
      assert StatesOf(tokens) == old(StatesOf(tokens))[token.serial := token.state];
      assert Serials(unacked) == old(Serials(unacked)) + if unacked == old(unacked) then [] else [token.serial];
    }

    /** One outbound turn of the broker. */
    method ProcessOutgoing(outcomes: nat -> SendOutcome)
      requires Valid() && slot != null
      requires Model().slot.value < |Model().states| && forall t <- Model().queue :: t < |Model().states|
      modifies this, tokens
      ensures Valid() && tokens == old(tokens)
      ensures var r := SmClient.ProcessOutgoing(old(Model()), outcomes);
              Model() == r.0 && written == old(written) + r.1
      ensures unchanged(`delivered)
    {
      hide SendSlot, SendQueue, Serials, StatesOf;
      ghost var m, w := Model(), written;
      var token := ReleaseSlot();
      SendStanza(token, outcomes(token.serial));
      SendRest(outcomes);
      if smEnabled {
        written := written + [Request];
      }
      ghost var r := SmClient.ProcessOutgoing(m, outcomes);
      assert written == w + r.1;
    }

    /** The result of the future which the broker waited for. */
    method ReleaseSlot() returns (token: StanzaToken)
      requires Valid() && slot != null
      modifies this
      ensures Valid() && tokens == old(tokens) && slot == null && Known(token)
      ensures Model().(slot := Some(token.serial)) == old(Model())
      ensures unchanged(`written) && unchanged(`delivered)
    {
      token := slot;
      slot := null;
    }

    /** The result of get_nowait() on a queue which is not empty. */
    method PopQueue() returns (token: StanzaToken)
      requires Valid() && slot == null && activeQueue != []
      modifies this
      ensures Valid() && tokens == old(tokens) && slot == null && Known(token)
      ensures |activeQueue| == old(|activeQueue|) - 1
      ensures token.serial == old(Model()).queue[0]
      ensures Model().(slot := Some(token.serial)) == SmClient.TakeSlot(old(Model()))
      ensures unchanged(`written) && unchanged(`delivered)
    {
      assert activeQueue[0] in activeQueue && forall t <- activeQueue[1..] :: t in activeQueue;
      token := activeQueue[0];
      activeQueue := activeQueue[1..];
      assert Serials(activeQueue) == old(Model()).queue[1..];
    }

    /** The bulk loop of the outbound turn. */
    method SendRest(outcomes: nat -> SendOutcome)
      requires Valid() && slot == null && forall t <- Model().queue :: t < |Model().states|
      modifies this, tokens
      ensures Valid() && tokens == old(tokens)
      ensures var r := SendQueue(old(Model()), outcomes);
              Model() == r.0 && written == old(written) + r.1
      ensures unchanged(`delivered)
    {
      hide SendSlot, SendQueue, Serials, StatesOf, Valid, Known;
      ghost var out: seq<Outgoing> := [];
      assert out + SendQueue(Model(), outcomes).1 == SendQueue(Model(), outcomes).1;
      while activeQueue != []
        invariant Valid() && tokens == old(tokens) && slot == null && unchanged(`delivered)
        invariant forall t <- Model().queue :: t < |Model().states|
        invariant written == old(written) + out
        invariant SendQueue(old(Model()), outcomes)
               == (SendQueue(Model(), outcomes).0, out + SendQueue(Model(), outcomes).1)
        decreases |activeQueue|
      {
        ghost var m := Model();
        assert forall t <- m.queue[1..] :: t in m.queue;
        var token := PopQueue();
        SendStanza(token, outcomes(token.serial));
        ghost var o := SendSlot(SmClient.TakeSlot(m), outcomes(token.serial)).1;
        SendQueueStep(m, outcomes, out, o);
        out := out + o;
      }
      SendQueueDone(Model(), outcomes);
      assert out + [] == out;
    }

    static lemma SendQueueDone(m: Client, outcomes: nat -> SendOutcome)
      requires m.slot == None && m.queue == []
      ensures SendQueue(m, outcomes) == (m, [])
    {
    }

    static lemma SendQueueStep(m: Client, outcomes: nat -> SendOutcome, out: seq<Outgoing>, o: seq<Outgoing>)
      requires m.slot == None && m.queue != [] && m.queue[0] < |m.states| && forall t <- m.queue :: t < |m.states|
      requires SendSlot(SmClient.TakeSlot(m), outcomes(m.queue[0])).1 == o
      ensures var sent := SendSlot(SmClient.TakeSlot(m), outcomes(m.queue[0])).0;
              && (forall t <- sent.queue :: t < |sent.states|)
              && SendQueue(m, outcomes).0 == SendQueue(sent, outcomes).0
              && out + SendQueue(m, outcomes).1 == (out + o) + SendQueue(sent, outcomes).1
    {
      hide SendSlot;
      assert forall t <- m.queue[1..] :: t in m.queue;
    }

    // ---------------------------------------------------------------- acknowledgements

    /** False is the StreamNegotiationFailure for a counter beyond what has been sent. */
    method SmAck(h: int) returns (ok: bool)
      requires Valid() && smEnabled
      modifies this, tokens
      ensures Valid() && tokens == old(tokens)
      ensures ok <==> SmClient.SmAck(old(Model()), h).Some?
      ensures Model() == if ok then SmClient.SmAck(old(Model()), h).value else old(Model())
      ensures unchanged(`written) && unchanged(`delivered)
    {
      var toDrop := Wrap(h - outboundBase);
      if toDrop > |unacked| {
        return false;
      }
      var acked := unacked[..toDrop];
      assert forall t <- acked :: t in unacked;
      assert forall t <- unacked[toDrop..] :: t in unacked;
      assert Serials(acked) == Serials(unacked)[..toDrop] && Serials(unacked[toDrop..]) == Serials(unacked)[toDrop..];
      unacked := unacked[toDrop..];
      outboundBase := h;
      SetStates(acked, ACKED);
      return true;
    }

    // ---------------------------------------------------------------- broker, inbound

    /** One inbound turn of the broker; false is an exception which ends the broker task. */
    method ProcessIncoming() returns (ok: bool)
      requires Valid() && incoming != []
      modifies this, tokens
      ensures Valid() && tokens == old(tokens)
      ensures var r := SmClient.ProcessIncoming(old(Model()));
              && ok == r.ok && Model() == r.client && written == old(written) + r.out
              && delivered == old(delivered) + if r.delivered.Some? then [r.delivered.value] else []
      ensures old(incoming[0]).Stanza? ==>
        ok && written == old(written) && delivered == old(delivered) + [old(incoming[0]).payload]
      ensures old(incoming[0]).AckRequest? ==>
        ok && written == old(written) + (if old(smEnabled) then [Answer(old(inboundCtr))] else [])
        && delivered == old(delivered)
      ensures old(incoming[0]).Acknowledgement? ==> written == old(written) && delivered == old(delivered)
      ensures old(incoming[0]).Acknowledgement? && !old(smEnabled) ==>
        ok && Model() == old(Model()).(incoming := old(incoming)[1..])
    {
      hide StatesOf, Serials, Valid, Known, SmClient.SmAck;
      var entry := incoming[0];
      incoming := incoming[1..];
      match entry {
        case Acknowledgement(h) =>
          if !smEnabled {
            return true;
          }
          ok := SmAck(h);
        case AckRequest =>
          if smEnabled {
            written := written + [Answer(inboundCtr)];
          }
          return true;
        case Stanza(payload) =>
          if smEnabled {
            inboundCtr := Wrap(inboundCtr + 1);
          }
          delivered := delivered + [payload];
          return true;
      }
    }

    method DrainIncoming()
      requires Valid()
      modifies this
      ensures Valid() && tokens == old(tokens) && Model() == old(Model()).(incoming := [])
      ensures unchanged(`written) && unchanged(`delivered)
    {
      while incoming != []
        invariant Valid() && tokens == old(tokens) && Model() == old(Model()).(incoming := incoming)
        invariant unchanged(`written) && unchanged(`delivered)
        decreases |incoming|
      {
        incoming := incoming[1..];
      }
    }

    // ---------------------------------------------------------------- stopping

    method DestroyStreamState()
      requires Valid()
      modifies this, tokens
      ensures Valid() && tokens == old(tokens) && Model() == SmClient.DestroyStreamState(old(Model()))
      ensures unchanged(`written) && unchanged(`delivered)
    {
      hide StatesOf, Serials, Valid, Known, SmClient.SetStates;
      ghost var m, n := Model(), 0;
      SetNoStates(m.states, DISCONNECTED);
      assert m.queue[0..] == m.queue;
      while activeQueue != []
        invariant Valid() && tokens == old(tokens) && n <= |m.queue| && |activeQueue| == |m.queue| - n
        invariant unchanged(`written) && unchanged(`delivered)
        invariant Model() == m.(states := SmClient.SetStates(m.states, m.queue[..n], DISCONNECTED),
            queue := m.queue[n..])
        decreases |activeQueue|
      {
        DropHead();
        SetOneMore(m.states, m.queue, n, DISCONNECTED);
        n := n + 1;
      }
      assert m.queue[..n] == m.queue;
    }

    /** One round of the loop above. */
    method DropHead()
      requires Valid() && activeQueue != []
      modifies this, tokens
      ensures Valid() && tokens == old(tokens) && |activeQueue| == old(|activeQueue|) - 1
      ensures var m := old(Model());
              && m.queue != [] && m.queue[0] < |m.states|
              && Model() == m.(states := m.states[m.queue[0] := DISCONNECTED], queue := m.queue[1..])
      ensures unchanged(`written) && unchanged(`delivered)
    {
      assert activeQueue[0] in activeQueue && forall t <- activeQueue[1..] :: t in activeQueue;
      var token := activeQueue[0];
      activeQueue := activeQueue[1..];
      token.SetState(DISCONNECTED);
      assert forall j :: 0 <= j < |activeQueue| ==> activeQueue[j] == old(activeQueue)[j + 1];
      assert Serials(activeQueue) == old(Model()).queue[1..];
      assert StatesOf(tokens) == old(StatesOf(tokens))[token.serial := DISCONNECTED];
    }

    static lemma SetNoStates(states: seq<StanzaState>, x: StanzaState)
      ensures SmClient.SetStates(states, [], x) == states
    {
    }

    static lemma SetOneMore(states: seq<StanzaState>, queue: seq<nat>, n: nat, x: StanzaState)
      requires n < |queue|
      ensures |SmClient.SetStates(states, queue[..n], x)| == |states|
      ensures queue[n..][1..] == queue[n + 1..] && queue[n..][0] == queue[n]
      ensures queue[n] < |states| ==>
        SmClient.SetStates(states, queue[..n], x)[queue[n] := x] == SmClient.SetStates(states, queue[..n + 1], x)
    {
      assert queue[..n + 1] == queue[..n] + [queue[n]];
    }

    method ClearUnacked(newState: StanzaState)
      requires Valid()
      modifies this, tokens
      ensures Valid() && tokens == old(tokens) && Model() == SmClient.ClearUnacked(old(Model()), newState)
      ensures unchanged(`written) && unchanged(`delivered)
    {
      SetStates(unacked, newState);
      unacked := [];
    }

    method StopSm()
      requires Valid() && smEnabled
      modifies this, tokens
      ensures Valid() && tokens == old(tokens) && Model() == SmClient.StopSm(old(Model()))
      ensures unchanged(`written) && unchanged(`delivered)
    {
      hide StatesOf, Serials, Valid, Known, SmClient.ClearUnacked, SmClient.DestroyStreamState;
      smEnabled := false;
      outboundBase, inboundCtr := 0, 0;
      ClearUnacked(SENT_WITHOUT_SM);
      DestroyStreamState();
    }

    /** The final section of the broker task. */
    method Teardown()
      requires Valid()
      modifies this, tokens
      ensures Valid() && tokens == old(tokens) && Model() == SmClient.Teardown(old(Model()))
      ensures unchanged(`written) && unchanged(`delivered)
    {
      hide SmClient.DestroyStreamState, SmClient.StopSm, SmClient.PutBack, StatesOf, Serials, Valid, Known;
      DrainIncoming();
      PutBack();
      if !smEnabled || !resumable {
        DestroyFields(Model());
        DestroyStreamState();
        if smEnabled {
          StopSm();
        }
      }
      running := false;
    }

    /** Rescue the token which the pending get() has already caught. */
    method PutBack()
      requires Valid()
      modifies this
      ensures Valid() && tokens == old(tokens) && Model() == SmClient.PutBack(old(Model()))
      ensures unchanged(`written) && unchanged(`delivered)
    {
      if slot != null {
        assert Serials([slot] + activeQueue) == [slot.serial] + Serials(activeQueue);
        activeQueue := [slot] + activeQueue;
        slot := null;
      }
    }

    /** `stopFails` is whether the broker task ends with an exception, which then leaves the stream unclosed. */
    method Close(stopFails: bool) returns (raised: bool)
      requires Valid()
      modifies this, tokens
      ensures Valid() && tokens == old(tokens)
      ensures raised == (old(running) && stopFails)
      ensures Model() == if raised then SmClient.Teardown(old(Model())) else SmClient.Close(old(Model()))
      ensures written == old(written) + if old(running && smEnabled) then [Answer(old(inboundCtr))] else []
      ensures unchanged(`delivered)
    {
      hide SmClient.DestroyStreamState, SmClient.StopSm, SmClient.Teardown, StatesOf, Serials, Valid, Known;
      if running {
        if smEnabled {
          written := written + [Answer(inboundCtr)];
        }
        Teardown();
        if stopFails {
          return true;
        }
      }
      closed := true;
      DestroyFields(Model());
      DestroyStreamState();
      if smEnabled {
        StopSm();
      }
      raised := false;
    }

    // ---------------------------------------------------------------- starting

    method Start()
      requires Valid() && !running
      modifies this
      ensures Valid() && tokens == old(tokens) && Model() == SmClient.Start(old(Model()))
      ensures running && !closed
      ensures unchanged(`written) && unchanged(`delivered)
    {
      closed := false;
      running := true;
    }

    /** The callback which handles the server's positive response to the request to enable. */
    method HandleEnabled(resume: bool)
      requires Valid() && running && !smEnabled
      modifies this
      ensures Valid() && tokens == old(tokens) && Model() == SmClient.SmEnabled(old(Model()), resume)
      ensures smEnabled && resumable == resume && outboundBase == 0 && inboundCtr == 0 && unacked == []
      ensures unchanged(`written) && unchanged(`delivered)
    {
      outboundBase, inboundCtr, unacked := 0, 0, [];
      smEnabled, resumable := true, resume;
    }

    /** Reinsert what remains unacknowledged; the loop pushes each token to the front. */
    method ResumeSm(h: int) returns (ok: bool)
      requires Valid() && smEnabled
      modifies this, tokens
      ensures Valid() && tokens == old(tokens)
      ensures ok <==> SmClient.ResumeSm(old(Model()), h).Some?
      ensures Model() == if ok then SmClient.ResumeSm(old(Model()), h).value else old(Model())
      ensures unchanged(`written) && unchanged(`delivered)
    {
      ok := SmAck(h);
      if !ok {
        return;
      }
      Requeue();
    }

    /** Push the unacknowledged tokens to the front of the queue, one by one, and forget them. */
    method Requeue()
      requires Valid()
      modifies this
      ensures Valid() && tokens == old(tokens)
      ensures Model() == old(Model()).(queue := Reverse(old(Model()).unacked) + old(Model()).queue, unacked := [])
      ensures unchanged(`written) && unchanged(`delivered)
    {
      ghost var m := Model();
      assert Reverse(m.unacked[..0]) + m.queue == m.queue;
      hide StatesOf, Reverse, Serials;
      var k := 0;
      while k < |unacked|
        invariant k <= |unacked| == |m.unacked|
        invariant Valid() && tokens == old(tokens) && unchanged(`written) && unchanged(`delivered)
        invariant Model() == m.(queue := Reverse(m.unacked[..k]) + m.queue)
      {
        PushLeft(k);
        PushedSoFar(m.unacked, m.queue, k);
        k := k + 1;
      }
      assert m.unacked[..k] == m.unacked;
      ForgetUnacked();
    }

    method ForgetUnacked()
      requires Valid()
      modifies this
      ensures Valid() && tokens == old(tokens) && Model() == old(Model()).(unacked := [])
      ensures unchanged(`written) && unchanged(`delivered)
    {
      unacked := [];
    }

    /** The putleft_nowait() of one unacknowledged token. */
    method PushLeft(k: nat)
      requires Valid() && k < |unacked|
      modifies this
      ensures Valid() && tokens == old(tokens) && unacked == old(unacked)
      ensures Model() == old(Model()).(queue := [old(Model()).unacked[k]] + old(Model()).queue)
      ensures unchanged(`written) && unchanged(`delivered)
    {
      assert unacked[k] in unacked;
      activeQueue := [unacked[k]] + activeQueue;
      assert Serials(activeQueue) == [old(Model()).unacked[k]] + old(Model()).queue;
    }

    /** The refusal branch of the resumption; false is a rejected counter. */
    method ResumeRefused(counter: Option<int>) returns (ok: bool)
      requires Valid() && smEnabled && !running
      modifies this, tokens
      ensures Valid() && tokens == old(tokens)
      ensures ok <==> SmClient.ResumeRefused(old(Model()), counter).Some?
      ensures Model() == if ok then SmClient.ResumeRefused(old(Model()), counter).value else old(Model())
      ensures unchanged(`written) && unchanged(`delivered)
    {
      if counter.Some? {
        ok := SmAck(counter.value);
        if !ok {
          return;
        }
        ClearUnacked(DISCONNECTED);
      }
      StopSm();
      return true;
    }
  }

  lemma PushedSoFar(unacked: seq<nat>, queue: seq<nat>, k: nat)
    requires k < |unacked|
    ensures [unacked[k]] + (Reverse(unacked[..k]) + queue) == Reverse(unacked[..k + 1]) + queue
  {
    ReverseSnoc(unacked[..k], unacked[k]);
    assert unacked[..k + 1] == unacked[..k] + [unacked[k]];
  }

  lemma {:induction false} ReverseSnoc<T>(s: seq<T>, x: T)
    ensures Reverse(s + [x]) == [x] + Reverse(s)
  {
    if s != [] {
      assert (s + [x])[1..] == s[1..] + [x];
      ReverseSnoc(s[1..], x);
    }
  }
}
