// The order of delivery.  Retransmission pushes the unacknowledged tokens one by one to the
// front of the queue, which reverses them; what was enqueued in order is delivered in order
// exactly when no resumption has more than one token to retransmit.

module SmOrder {
  import opened Common
  import opened SmClient
  import opened SmProtocol
  import opened SmSafety
  import opened SmRuns

  predicate Increasing(s: seq<nat>) {
    forall i, j :: 0 <= i < j < |s| ==> s[i] < s[j]
  }

  ghost predicate Below(a: multiset<nat>, b: multiset<nat>) {
    forall x: nat, y: nat :: x in a && y in b ==> x < y
  }

  lemma IncreasingAppend(s: seq<nat>, t: nat)
    requires Increasing(s) && Below(multiset(s), One(t))
    ensures Increasing(s + [t])
  {
    forall i | 0 <= i < |s| ensures s[i] < t {
      assert s[i] in multiset(s) && t in One(t);
    }
  }

  lemma IncreasingHead(t: nat, s: seq<nat>)
    requires Increasing([t] + s)
    ensures Increasing(s) && Below(One(t), multiset(s))
  {
    forall i, j | 0 <= i < j < |s| ensures s[i] < s[j] {
      assert ([t] + s)[i + 1] == s[i] && ([t] + s)[j + 1] == s[j];
    }
    forall y: nat | y in multiset(s) ensures t < y {
      var i :| 0 <= i < |s| && s[i] == y;
      assert ([t] + s)[0] == t && ([t] + s)[i + 1] == y;
    }
  }

  lemma IncreasingPrepend(t: nat, s: seq<nat>)
    requires Increasing(s) && Below(One(t), multiset(s))
    ensures Increasing([t] + s)
  {
    forall i | 0 <= i < |s| ensures t < s[i] {
      assert s[i] in multiset(s) && t in One(t);
    }
  }

  lemma IncreasingSuffix(s: seq<nat>, n: nat)
    requires Increasing(s) && n <= |s|
    ensures Increasing(s[n..]) && multiset(s[n..]) <= multiset(s)
  {
    assert s == s[..n] + s[n..];
  }

  lemma BelowFewer(a: multiset<nat>, b: multiset<nat>, a': multiset<nat>, b': multiset<nat>)
    requires Below(a, b) && a' <= a && b' <= b
    ensures Below(a', b')
  {
  }

  lemma BelowUnion(a: multiset<nat>, a': multiset<nat>, b: multiset<nat>, b': multiset<nat>)
    requires Below(a, b) && Below(a', b) && Below(a, b') && Below(a', b')
    ensures Below(a + a', b + b')
  {
  }

  // ---------------------------------------------------------------- invariant

  /** Tokens are numbered as they are accepted, so order of acceptance is numerical order. */
  ghost predicate InOrder(w: seq<nat>, unacked: seq<nat>, received: seq<nat>, flying: seq<nat>, tail: seq<nat>) {
    && Increasing(w) && Increasing(unacked) && Increasing(received + flying)
    && Below(multiset(received + flying), multiset(w))
    && Below(multiset(unacked), multiset(w))
    && Below(multiset(received), multiset(tail))
  }

  /** The unacknowledged tokens which the server did not receive. */
  function Tail(s: System): seq<nat> {
    if s.client.smEnabled && s.server.start + s.acked <= |s.server.received|
       && |Untold(s.server, s.acked)| <= |s.client.unacked|
    then s.client.unacked[|Untold(s.server, s.acked)|..] else []
  }

  ghost predicate Ordered(s: System) {
    InOrder(Waiting(s.client), s.client.unacked, s.server.received, Tokens(s.c2s), Tail(s))
  }

  /** A resumption which finds at most one token to retransmit. */
  predicate Gentle(s: System, step: Step) {
    step == Resume ==> |s.client.unacked| <= ToDrop(s.client, Wrap(Count(s.server))) + 1
  }

  // ---------------------------------------------------------------- changes of the sequences

  lemma OrderAccept(w: seq<nat>, unacked: seq<nat>, received: seq<nat>, flying: seq<nat>, tail: seq<nat>, t: nat)
    requires InOrder(w, unacked, received, flying, tail)
    requires forall x: nat :: x in multiset(w) || x in multiset(unacked) || x in multiset(received + flying) ==> x < t
    ensures InOrder(w + [t], unacked, received, flying, tail)
  {
    IncreasingAppend(w, t);
  }

  lemma OrderSend(w: seq<nat>, unacked: seq<nat>, received: seq<nat>, flying: seq<nat>, tail: seq<nat>, t: nat)
    requires InOrder([t] + w, unacked, received, flying, tail)
    ensures InOrder(w, unacked, received, flying, tail)
    ensures InOrder(w, unacked, received, flying + [t], tail)
    ensures InOrder(w, unacked + [t], received, flying + [t], tail + [t])
  {
    var none := multiset([]);
    IncreasingHead(t, w);
    var all := multiset([t] + w);
    assert all == One(t) + multiset(w);
    var written := multiset(received + flying);
    assert written == multiset(received) + multiset(flying);
    BelowFewer(written, all, written, One(t));
    BelowFewer(written, all, written, multiset(w));
    BelowFewer(written, all, multiset(received), One(t));
    BelowFewer(multiset(unacked), all, multiset(unacked), One(t));
    BelowFewer(multiset(unacked), all, multiset(unacked), multiset(w));
    IncreasingAppend(received + flying, t);
    IncreasingAppend(unacked, t);
    hide Below, Increasing;
    assert (received + flying) + [t] == received + (flying + [t]);
    assert multiset(received + (flying + [t])) == written + One(t);
    assert multiset(tail + [t]) == multiset(tail) + One(t);
    assert multiset(unacked + [t]) == multiset(unacked) + One(t);
    BelowNothing(multiset(w), none);
    BelowUnion(written, One(t), multiset(w), none) by { BelowNothing(written, none); BelowNothing(One(t), none); }
    BelowUnion(multiset(unacked), One(t), multiset(w), none)
      by { BelowNothing(multiset(unacked), none); BelowNothing(One(t), none); }
    BelowUnion(multiset(received), none, multiset(tail), One(t))
      by { BelowNothing(none, multiset(tail)); BelowNothing(none, One(t)); }
    assert multiset(w) + none == multiset(w) && multiset(received) + none == multiset(received);
  }

  lemma BelowNothing(a: multiset<nat>, b: multiset<nat>)
    ensures a == multiset{} || b == multiset{} ==> Below(a, b)
  {
  }

  lemma OrderAck(w: seq<nat>, unacked: seq<nat>, received: seq<nat>, flying: seq<nat>, tail: seq<nat>, n: nat)
    requires InOrder(w, unacked, received, flying, tail) && n <= |unacked|
    ensures InOrder(w, unacked[n..], received, flying, tail)
  {
    IncreasingSuffix(unacked, n);
    BelowFewer(multiset(unacked), multiset(w), multiset(unacked[n..]), multiset(w));
  }

  lemma OrderRead(w: seq<nat>, unacked: seq<nat>, received: seq<nat>, flying: seq<nat>, tail: seq<nat>, t: nat)
    requires InOrder(w, unacked, received, [t] + flying, [t] + tail)
    requires Increasing([t] + tail)
    ensures InOrder(w, unacked, received + [t], flying, tail)
  {
    assert received + ([t] + flying) == (received + [t]) + flying;
    IncreasingHead(t, tail);
    assert multiset([t] + tail) == One(t) + multiset(tail);
    assert multiset(received + [t]) == multiset(received) + One(t);
    forall x: nat, y: nat | x in multiset(received + [t]) && y in multiset(tail) ensures x < y {
      assert y in multiset([t] + tail);
      assert x in multiset(received) || x in One(t);
    }
  }

  /** As OrderRead, for a stream which no longer tracks what is unacknowledged. */
  lemma OrderReadUntracked(w: seq<nat>, unacked: seq<nat>, received: seq<nat>, flying: seq<nat>, t: nat)
    requires InOrder(w, unacked, received, [t] + flying, [])
    ensures InOrder(w, unacked, received + [t], flying, [])
  {
    assert received + ([t] + flying) == (received + [t]) + flying;
  }

  lemma OrderForget(w: seq<nat>, unacked: seq<nat>, received: seq<nat>, flying: seq<nat>, tail: seq<nat>)
    requires InOrder(w, unacked, received, flying, tail)
    ensures InOrder(w, unacked, received, [], tail)
    ensures InOrder(w, [], received, flying, [])
    ensures InOrder([], [], received, flying, [])
  {
    forall i, j | 0 <= i < j < |received| ensures received[i] < received[j] {
      assert (received + flying)[i] == received[i] && (received + flying)[j] == received[j];
    }
    assert received + [] == received;
    assert multiset(received + flying) == multiset(received) + multiset(flying);
    BelowFewer(multiset(received + flying), multiset(w), multiset(received), multiset(w));
  }

  /** At most one token goes back to the front of the queue. */
  lemma OrderRequeue(queue: seq<nat>, unacked: seq<nat>, received: seq<nat>, flying: seq<nat>, rest: seq<nat>)
    requires InOrder(queue, unacked, received, flying, rest)
    requires |rest| <= 1 && multiset(rest) <= multiset(unacked)
    ensures InOrder(Reverse(rest) + queue, [], received, [], [])
  {
    hide InOrder;
    OrderForget(queue, unacked, received, flying, rest);
    OrderForget(queue, unacked, received, [], rest);
    if rest == [] {
      assert Reverse(rest) + queue == queue;
    } else {
      var t := rest[0];
      assert rest == [t];
      assert Reverse(rest) == [t];
      OrderPrepend(queue, unacked, received, t);
    }
  }

  lemma OrderPrepend(queue: seq<nat>, unacked: seq<nat>, received: seq<nat>, t: nat)
    requires InOrder(queue, unacked, received, [], [t]) && t in multiset(unacked)
    ensures InOrder([t] + queue, [], received, [], [])
  {
    IncreasingPrepend(t, queue);
    assert received + [] == received;
    assert multiset([t] + queue) == multiset([t]) + multiset(queue);
    BelowUnion(multiset(received), multiset([]), multiset([t]), multiset(queue));
    assert multiset(received) + multiset([]) == multiset(received);
  }

  /** Going back reversed keeps the order exactly when there is at most one. */
  lemma RequeueKeepsOrder(queue: seq<nat>, rest: seq<nat>)
    requires Increasing(rest + queue)
    ensures Increasing(Reverse(rest) + queue) <==> |rest| <= 1
  {
    var r := Reverse(rest) + queue;
    if |rest| >= 2 {
      assert r[0] == rest[|rest| - 1] && r[1] == rest[|rest| - 2];
      assert (rest + queue)[|rest| - 2] < (rest + queue)[|rest| - 1];
    } else {
      assert Reverse(rest) == rest;
    }
  }

  // ---------------------------------------------------------------- steps

  lemma EnqueueKeepsOrder(s: System)
    requires Inv(s) && Ordered(s)
    ensures Ordered(Next(s, EnqueueStanza))
  {
    hide Inv, InOrder, Untold;
    var c := s.client;
    if !c.closed {
      var t := |c.states|;
      assert Waiting(Enqueue(c).value) == Waiting(c) + [t];
      NewTokenIsLast(s);
      hide Waiting;
      OrderAccept(Waiting(c), c.unacked, s.server.received, Tokens(s.c2s), Tail(s), t);
    }
  }

  lemma NewTokenIsLast(s: System)
    requires Inv(s)
    ensures forall x: nat ::
      (x in multiset(Waiting(s.client)) || x in multiset(s.client.unacked)
       || x in multiset(s.server.received + Tokens(s.c2s)))
      ==> x < |s.client.states|
  {
    hide Session, Waiting;
    assert multiset(s.server.received + Tokens(s.c2s)) == multiset(s.server.received) + multiset(Tokens(s.c2s));
  }

  /** The token in the slot is sent, dropped or discarded. */
  lemma SendSlotKeepsOrder(s: System, outcome: SendOutcome)
    requires CanSend(s) && Ordered(s) && s.client.slot.value < |s.client.states|
    ensures Ordered(Transmit(s, SendSlot(s.client, outcome)))
  {
    hide Inv, InOrder, SendSlot, Window;
    var c, t := s.client, s.client.slot.value;
    var (d, out) := SendSlot(c, outcome);
    var s' := Transmit(s, (d, out));
    SendSlotShape(c, outcome);
    OutgoingConcat(s.c2s, out);
    SlotFirst(c, d);
    assert Tokens(s.c2s) + [] == Tokens(s.c2s);
    OrderSend(Waiting(d), c.unacked, s.server.received, Tokens(s.c2s), Tail(s), t);
    SessionTail(s);
    if d.unacked != c.unacked {
      var u := Untold(s.server, s.acked);
      assert (c.unacked + [t])[|u|..] == c.unacked[|u|..] + [t];
    }
  }

  lemma SlotFirst(c: Client, d: Client)
    requires c.slot.Some? && d.slot == None && d.queue == c.queue
    ensures Waiting(c) == [c.slot.value] + Waiting(d)
  {
  }

  lemma SessionTail(s: System)
    requires Inv(s)
    ensures s.client.smEnabled ==>
              && s.server.start + s.acked <= |s.server.received|
              && |Untold(s.server, s.acked)| <= |s.client.unacked|
  {
  }

  lemma TakeKeepsOrder(s: System)
    requires Ordered(s) && s.client.slot == None && s.client.queue != []
    ensures Ordered(s.(client := TakeSlot(s.client)))
  {
    assert Waiting(TakeSlot(s.client)) == Waiting(s.client);
    OrderedFrame(s, s.(client := TakeSlot(s.client)));
  }

  lemma {:induction false} SendQueueKeepsOrder(s: System, outcomes: nat -> SendOutcome)
    requires Inv(s) && Ordered(s)
    requires s.client.running && s.client.slot == None && forall t <- s.client.queue :: t < |s.client.states|
    ensures Ordered(Transmit(s, SendQueue(s.client, outcomes)))
    decreases |s.client.queue|
  {
    hide Inv, SendSlot, Ordered;
    if s.client.queue == [] {
      assert s.c2s + [] == s.c2s;
    } else {
      var taken := s.(client := TakeSlot(s.client));
      TakeKeepsInv(s);
      TakeKeepsOrder(s);
      assert taken.client.slot.value in s.client.queue && forall t <- taken.client.queue :: t in s.client.queue;
      var outcome := outcomes(taken.client.slot.value);
      SendSlotKeepsInv(taken, outcome);
      SendSlotKeepsOrder(taken, outcome);
      var sent := Transmit(taken, SendSlot(taken.client, outcome));
      SendQueueKeepsOrder(sent, outcomes);
      var o1, o2 := SendSlot(taken.client, outcome).1, SendQueue(sent.client, outcomes).1;
      assert s.c2s + o1 + o2 == s.c2s + (o1 + o2);
    }
  }

  lemma OrderedFrame(s: System, s': System)
    requires Waiting(s'.client) == Waiting(s.client) && s'.client.unacked == s.client.unacked
    requires s'.client.smEnabled == s.client.smEnabled
    requires s'.server.received == s.server.received && s'.server.start == s.server.start && s'.acked == s.acked
    requires Tokens(s'.c2s) == Tokens(s.c2s)
    ensures Ordered(s) == Ordered(s')
  {
  }

  lemma SendTurnKeepsOrder(s: System, outcomes: nat -> SendOutcome)
    requires Inv(s) && Ordered(s) && Enabled(s, SendTurn(outcomes))
    ensures Ordered(Next(s, SendTurn(outcomes)))
  {
    hide Inv, SendSlot, SendQueue, Ordered;
    var outcome := outcomes(s.client.slot.value);
    assert CanSend(s);
    SendSlotKeepsInv(s, outcome);
    SendSlotKeepsOrder(s, outcome);
    var sent := Transmit(s, SendSlot(s.client, outcome));
    SendQueueKeepsOrder(sent, outcomes);
    var rest := Transmit(sent, SendQueue(sent.client, outcomes));
    var o1, o2 := SendSlot(s.client, outcome).1, SendQueue(sent.client, outcomes).1;
    var last := if rest.client.smEnabled then [Request] else [];
    assert s.c2s + (o1 + o2 + last) == rest.c2s + last;
    OutgoingConcat(rest.c2s, last);
    assert Tokens(rest.c2s) + [] == Tokens(rest.c2s);
    OrderedFrame(rest, Next(s, SendTurn(outcomes)));
  }

  lemma AckKeepsOrder(s: System)
    requires Inv(s) && Ordered(s) && s.client.running && s.client.incoming != []
    requires s.client.smEnabled && s.client.incoming[0].Acknowledgement?
    ensures ProcessIncoming(s.client).ok && Ordered(Next(s, ReceiveTurn))
  {
    hide Inv, InOrder, SmAck, ProcessIncoming, Waiting, Tail;
    var c, h := s.client, s.client.incoming[0].h;
    ReceiveAckKeepsInv(s);
    InvSession(s);
    ArrivingHonest(s);
    HonestAckTokens(s, h);
    ReceiveAckFrame(c);
    AckWaiting(c, h);
    AckTail(s, h);
    var n, s' := ToDrop(c, h), Next(s, ReceiveTurn);
    assert s.c2s + [] == s.c2s;
    AckFields(c, h);
    assert s'.client.unacked == c.unacked[n..] && s'.acked == s.acked + n;
    SessionTailIs(s');
    OrderAck(Waiting(c), c.unacked, s.server.received, Tokens(s.c2s), Tail(s), n);
  }

  lemma SessionTailIs(s: System)
    requires s.client.smEnabled && s.server.start + s.acked <= |s.server.received|
    requires |Untold(s.server, s.acked)| <= |s.client.unacked|
    ensures Tail(s) == s.client.unacked[|Untold(s.server, s.acked)|..]
  {
  }

  lemma InvSession(s: System)
    requires Inv(s) && s.client.smEnabled
    ensures Session(s)
  {
  }

  /** Acknowledging does not touch the tail of tokens which were not received. */
  lemma AckTail(s: System, h: int)
    requires Session(s) && Honest(s, h)
    ensures SmAck(s.client, h).Some?
    ensures var n, d := ToDrop(s.client, h), SmAck(s.client, h).value;
            && d.unacked == s.client.unacked[n..]
            && s.server.start + s.acked + n <= |s.server.received|
            && |Untold(s.server, s.acked + n)| <= |d.unacked|
            && d.unacked[|Untold(s.server, s.acked + n)|..] == Tail(s)
  {
    hide CountersOk, Inbound, Wrap;
    HonestAckWindow(s, h);
    var n, u := ToDrop(s.client, h), |Untold(s.server, s.acked)|;
    assert s.client.unacked[n..][u - n..] == s.client.unacked[u..];
  }

  lemma ReadTokenKeepsOrder(s: System, t: nat)
    requires Inv(s) && Ordered(s) && s.c2s != [] && s.c2s[0] == TokenStanza(t)
    ensures Ordered(s.(c2s := s.c2s[1..], server := s.server.(received := s.server.received + [t])))
  {
    hide InOrder, Placed, OnServer, CountersOk, Inbound, Waiting, Wrap;
    var c, v := s.client, s.server;
    var s' := s.(c2s := s.c2s[1..], server := v.(received := v.received + [t]));
    assert Tokens(s.c2s) == [t] + Tokens(s'.c2s);
    if c.smEnabled {
      var u := Untold(v, s.acked);
      assert Untold(s'.server, s.acked) == u + [t];
      assert Tail(s) == [t] + Tail(s') by { FlyingFirst(s, t); }
      assert Increasing(Tail(s)) by { TailIncreasing(s); }
      OrderRead(Waiting(c), c.unacked, v.received, Tokens(s'.c2s), Tail(s'), t);
    } else {
      OrderReadUntracked(Waiting(c), c.unacked, v.received, Tokens(s'.c2s), t);
    }
  }

  lemma FlyingFirst(s: System, t: nat)
    requires Session(s) && s.c2s != [] && s.c2s[0] == TokenStanza(t)
    ensures var u := |Untold(s.server, s.acked)|;
            u < |s.client.unacked| && s.client.unacked[u..] == [t] + s.client.unacked[u + 1..]
  {
    var u := |Untold(s.server, s.acked)|;
    var tail := s.client.unacked[u..];
    assert Tokens(s.c2s) <= tail && Tokens(s.c2s)[0] == t;
    assert tail[0] == t;
  }

  lemma TailIncreasing(s: System)
    requires Ordered(s)
    ensures Increasing(Tail(s))
  {
  }

  lemma ResumeKeepsOrder(s: System)
    requires Inv(s) && Bounded(s) && Ordered(s) && Enabled(s, Resume) && Gentle(s, Resume)
    ensures Ordered(Resumed(s))
  {
    hide Inv, InOrder, SmAck, Reverse, ResumeSm, Resumed, Untold, Wrap, Count;
    StoppedSlot(s);
    RestIsTail(s);
    ResumeQueue(s);
    var rest := Tail(s);
    OrderRequeue(s.client.queue, s.client.unacked, s.server.received, Tokens(s.c2s), rest);
  }

  /** The queue after a resumption is the reversed remainder, followed by the old queue. */
  lemma ResumeQueue(s: System)
    requires Inv(s) && Bounded(s) && Enabled(s, Resume)
    ensures var s' := Resumed(s);
            && Waiting(s'.client) == Reverse(Tail(s)) + s.client.queue
            && s'.client.unacked == [] && Tail(s') == [] && Tokens(s'.c2s) == []
            && s'.server.received == s.server.received
  {
    hide Inv, SmAck, Reverse, Wrap;
    ResumeShape(s);
    StoppedSlot(s);
    RestIsTail(s);
    AckFields(s.client, Wrap(Count(s.server)));
  }

  lemma StoppedSlot(s: System)
    requires Inv(s) && !s.client.running
    ensures s.client.slot == None && Waiting(s.client) == s.client.queue
  {
  }

  lemma RestIsTail(s: System)
    requires Inv(s) && Bounded(s) && s.client.smEnabled
    ensures SmAck(s.client, Wrap(Count(s.server))).Some?
    ensures var rest := SmAck(s.client, Wrap(Count(s.server))).value.unacked;
            && rest == Tail(s) && multiset(rest) <= multiset(s.client.unacked)
            && |rest| == |s.client.unacked| - ToDrop(s.client, Wrap(Count(s.server)))
  {
    hide Placed, OnServer, CountersOk, Inbound, Waiting, Wrap;
    ServerTotal(s);
    AckTail(s, Wrap(Count(s.server)));
    var u := s.client.unacked;
    var n := |Untold(s.server, s.acked)|;
    assert Untold(s.server, Count(s.server)) == [];
    assert u == u[..n] + u[n..];
  }

  /** Where nothing waits and nothing is unacknowledged, only what was written matters. */
  lemma NothingLeft(s: System, s': System)
    requires Ordered(s)
    requires Waiting(s'.client) == [] && s'.client.unacked == [] && !s'.client.smEnabled
    requires s'.server.received == s.server.received && (s'.c2s == s.c2s || s'.c2s == [])
    ensures Ordered(s')
  {
    hide InOrder, Waiting;
    OrderForget(Waiting(s.client), s.client.unacked, s.server.received, Tokens(s.c2s), Tail(s));
    OrderForget([], [], s.server.received, Tokens(s.c2s), []);
  }

  lemma ForgetFlying(s: System, s': System)
    requires Ordered(s)
    requires Waiting(s'.client) == Waiting(s.client) && s'.client.unacked == s.client.unacked && s'.c2s == []
    requires s'.server.received == s.server.received && Tail(s') == Tail(s)
    ensures Ordered(s')
  {
    hide InOrder, Waiting, Tail;
    OrderForget(Waiting(s.client), s.client.unacked, s.server.received, Tokens(s.c2s), Tail(s));
  }

  lemma TeardownWaiting(c: Client)
    ensures var d := Teardown(c);
            if c.smEnabled && c.resumable then
              Waiting(d) == Waiting(c) && d.unacked == c.unacked && d.smEnabled
            else
              Waiting(d) == [] && !d.smEnabled && (c.smEnabled || c.unacked == [] ==> d.unacked == [])
  {
    hide SetStates;
    TeardownFrame(c);
  }

  lemma DisconnectKeepsOrder(s: System)
    requires Inv(s) && Ordered(s) && s.client.running
    ensures Ordered(Next(s, Disconnect))
  {
    hide Session, ClientTokens, ServerTokens, Teardown, Ordered;
    TeardownWaiting(s.client);
    if s.client.smEnabled && s.client.resumable {
      OrderedFrame(s, Next(s, Disconnect));
    } else {
      NothingLeft(s, Next(s, Disconnect));
    }
  }

  lemma RefuseKeepsOrder(s: System, withCounter: bool)
    requires Inv(s) && Bounded(s) && Ordered(s) && Enabled(s, Refuse(withCounter))
    ensures Ordered(Next(s, Refuse(withCounter)))
  {
    hide Inv, Ordered, StopSm, SmAck, ClearUnacked;
    RefuseKeepsInv(s, withCounter);
    StoppedSlot(s);
    if withCounter {
      AckFields(s.client, Wrap(Count(s.server)));
      ClearedFields(SmAck(s.client, Wrap(Count(s.server))).value);
      StoppedFields(ClearUnacked(SmAck(s.client, Wrap(Count(s.server))).value, DISCONNECTED));
    }
    StoppedFields(s.client);
    NothingLeft(s, Next(s, Refuse(withCounter)));
  }

  lemma ClearedFields(c: Client)
    ensures ClearUnacked(c, DISCONNECTED).slot == c.slot
  {
  }

  lemma StoppedFields(c: Client)
    requires c.slot == None
    ensures Waiting(StopSm(c)) == [] && StopSm(c).unacked == [] && !StopSm(c).smEnabled
  {
  }

  lemma ServerReadsKeepsOrder(s: System)
    requires Inv(s) && Ordered(s) && s.c2s != []
    ensures Ordered(Next(s, ServerReads))
  {
    hide Inv, Ordered, ServerAck;
    match s.c2s[0] {
      case TokenStanza(t) => ReadTokenKeepsOrder(s, t);
      case Answer(h) => ServerAckFields(s.server, h); OrderedFrame(s, Next(s, ServerReads));
      case Request => OrderedFrame(s, Next(s, ServerReads));
    }
  }

  lemma EnableSmKeepsOrder(s: System, resumable: bool)
    requires Inv(s) && Ordered(s) && Enabled(s, EnableSm(resumable))
    ensures Ordered(Next(s, EnableSm(resumable)))
  {
    hide InOrder, Session, ClientTokens, ServerTokens;
    var s' := Next(s, EnableSm(resumable));
    assert Waiting(s'.client) == Waiting(s.client);
    assert Untold(s'.server, 0) == [];
    assert Tail(s') == [] == Tail(s);
  }

  lemma AnswerKeepsOrder(s: System, m: Outgoing)
    requires Ordered(s) && !m.TokenStanza?
    ensures Ordered(s.(c2s := s.c2s + [m]))
  {
    hide Ordered;
    OutgoingConcat(s.c2s, [m]);
    assert Tokens([m]) == [] && Tokens(s.c2s) + [] == Tokens(s.c2s);
    OrderedFrame(s, s.(c2s := s.c2s + [m]));
  }

  lemma ReceiveKeepsOrder(s: System)
    requires Inv(s) && Bounded(s) && Ordered(s) && Enabled(s, ReceiveTurn)
    ensures Ordered(Next(s, ReceiveTurn))
  {
    hide Inv, Ordered, SmAck;
    var c := s.client;
    ReceiveTurnKeepsInv(s);
    assert s.c2s + [] == s.c2s;
    if c.smEnabled && c.incoming[0].Acknowledgement? {
      AckKeepsOrder(s);
    } else {
      var popped := s.(client := c.(incoming := c.incoming[1..]));
      assert Waiting(popped.client) == Waiting(c);
      OrderedFrame(s, popped);
      if c.smEnabled && c.incoming[0].AckRequest? {
        AnswerKeepsOrder(popped, Answer(c.inboundCtr));
      } else {
        OrderedFrame(s, Next(s, ReceiveTurn)) by { assert Waiting(Next(s, ReceiveTurn).client) == Waiting(c); }
      }
    }
  }

  lemma NextKeepsOrder(s: System, step: Step)
    requires Inv(s) && Bounded(s) && Ordered(s) && Enabled(s, step) && Gentle(s, step)
    ensures Ordered(Next(s, step))
  {
    hide Inv, Ordered, ProcessOutgoing, ProcessIncoming, Teardown, Close, StopSm, ServerHandles, Resumed, Gentle;
    match step
    case EnqueueStanza => EnqueueKeepsOrder(s);
    case AbortToken(token) => OrderedFrame(s, Next(s, step));
    case Take => TakeKeepsOrder(s);
    case SendTurn(outcomes) => SendTurnKeepsOrder(s, outcomes);
    case ReceiveTurn => ReceiveKeepsOrder(s);
    case Announce => AnswerKeepsOrder(s, Answer(s.client.inboundCtr));
    case SoftLimit => AnswerKeepsOrder(s, Request);
    case Disconnect => DisconnectKeepsOrder(s);
    case CloseStream => CloseKeepsInv(s); NothingLeft(s, Next(s, step));
    case StopManagement => StoppedSlot(s); StoppedFields(s.client); NothingLeft(s, Next(s, step));
    case Connect => ForgetFlying(s, Next(s, step));
    case EnableSm(resumable) => EnableSmKeepsOrder(s, resumable);
    case Resume => ResumeKeepsOrder(s);
    case ResumeResponseLost => ServerAckFields(s.server, s.client.inboundCtr); ForgetFlying(s, Next(s, step));
    case Refuse(withCounter) => RefuseKeepsOrder(s, withCounter);
    case ServerReads => ServerReadsKeepsOrder(s);
    case ServerSends(_) => OrderedFrame(s, Next(s, step));
    case ServerAnswers => OrderedFrame(s, Next(s, step));
    case ServerAsks => OrderedFrame(s, Next(s, step));
    case Deliver => OrderedFrame(s, Next(s, step)) by { assert Waiting(Next(s, step).client) == Waiting(s.client); }
  }

  // ---------------------------------------------------------------- runs

  lemma {:induction false} RunOrdered(run: seq<System>, steps: seq<Step>, k: nat)
    requires IsRun(run, steps) && k < |run|
    requires forall i :: 0 <= i < |steps| ==> Gentle(run[i], steps[i])
    ensures Ordered(run[k])
    decreases k
  {
    hide Inv, Next, Enabled, Gentle;
    if k > 0 {
      hide Ordered;
      RunInv(run, steps, k - 1);
      RunOrdered(run, steps, k - 1);
      assert Enabled(run[k - 1], steps[k - 1]) && run[k - 1 + 1] == Next(run[k - 1], steps[k - 1]);
      NextKeepsOrder(run[k - 1], steps[k - 1]);
    }
  }

  /** With gentle resumptions only, the server reads stanzas in the order in which they were enqueued. */
  lemma DeliveredInOrder(run: seq<System>, steps: seq<Step>, k: nat)
    requires IsRun(run, steps) && k < |run|
    requires forall i :: 0 <= i < |steps| ==> Gentle(run[i], steps[i])
    ensures Increasing(run[k].server.received)
  {
    hide Below;
    RunOrdered(run, steps, k);
    var s := run[k];
    forall i, j | 0 <= i < j < |s.server.received| ensures s.server.received[i] < s.server.received[j] {
      var all := s.server.received + Tokens(s.c2s);
      assert all[i] == s.server.received[i] && all[j] == s.server.received[j];
    }
  }

  /**
   * One resumption in an ordered state: what waits afterwards is in order if and only if at most
   * one token was left to retransmit.
   */
  lemma ResumptionKeepsOrderIff(s: System)
    requires Inv(s) && Bounded(s) && Ordered(s) && Enabled(s, Resume)
    ensures Increasing(Waiting(Resumed(s).client)) <==> Gentle(s, Resume)
  {
    hide Inv, Resumed, SmAck, Waiting;
    ResumeQueue(s);
    RestIsTail(s);
    StoppedSlot(s);
    RestThenQueue(s);
    RequeueKeepsOrder(s.client.queue, Tail(s));
  }

  lemma RestThenQueue(s: System)
    requires Inv(s) && Bounded(s) && Ordered(s) && Enabled(s, Resume)
    ensures Increasing(Tail(s) + s.client.queue)
  {
    hide Inv, SmAck, Session, Increasing, Below, Untold;
    RestIsTail(s);
    StoppedSlot(s);
    InvSession(s);
    SessionTail(s);
    IncreasingSuffix(s.client.unacked, |Untold(s.server, s.acked)|);
    var rest, queue := Tail(s), s.client.queue;
    BelowFewer(multiset(s.client.unacked), multiset(queue), multiset(rest), multiset(queue));
    IncreasingJoin(rest, queue);
  }

  lemma IncreasingJoin(a: seq<nat>, b: seq<nat>)
    requires Increasing(a) && Increasing(b) && Below(multiset(a), multiset(b))
    ensures Increasing(a + b)
  {
    forall i, j | 0 <= i < |a| && 0 <= j < |b| ensures a[i] < b[j] {
      assert a[i] in multiset(a) && b[j] in multiset(b);
    }
  }
}
