// The client half of XEP-0198 stream management as a value: the fields of a stanza stream
// that survive a disconnect, and what each operation of the stream does to them.
//
// Tokens are numbered in the order in which they were accepted, so a token is an index into
// `states`.  `StanzaStream.dfy` proves the object-oriented form against these functions.

module SmClient {
  import opened Common

  datatype StanzaState =
    | ACTIVE | SENT | ACKED | SENT_WITHOUT_SM
    | ABORTED | DROPPED | DISCONNECTED | FAILED

  /** What the outbound filters and the serialiser make of one stanza. */
  datatype SendOutcome = Forwarded | DroppedByFilter | SendFailed

  /** An entry of the incoming queue. */
  datatype Incoming = Stanza(payload: string) | Acknowledgement(h: int) | AckRequest

  /** A stream-level element written to the XML stream. */
  datatype Outgoing = TokenStanza(token: nat) | Answer(h: nat) | Request

  datatype Client = Client(
    states: seq<StanzaState>,   // of every token ever accepted
    queue: seq<nat>,            // the active queue
    slot: Option<nat>,          // the token the broker has taken from the queue
    unacked: seq<nat>,
    incoming: seq<Incoming>,
    smEnabled: bool,
    resumable: bool,
    base: int,                  // last counter acknowledged by the remote
    inboundCtr: nat,
    running: bool,
    closed: bool)

  const INITIAL := Client([], [], None, [], [], false, false, 0, 0, false, false)

  function SetStates(states: seq<StanzaState>, tokens: seq<nat>, state: StanzaState): (r: seq<StanzaState>)
    ensures |r| == |states|
    ensures forall t :: 0 <= t < |r| ==> r[t] == if t in tokens then state else states[t]
  {
    seq(|states|, t requires 0 <= t < |states| => if t in tokens then state else states[t])
  }

  // ---------------------------------------------------------------- application side

  /** None is the exception raised on a closed stream. */
  function Enqueue(c: Client): Option<Client> {
    if c.closed then None
    else Some(c.(states := c.states + [ACTIVE], queue := c.queue + [|c.states|]))
  }

  /** None is the RuntimeError for a token which already left the active state. */
  function Abort(c: Client, token: nat): Option<Client>
    requires token < |c.states|
  {
    if c.states[token] != ACTIVE && c.states[token] != ABORTED then None
    else Some(c.(states := c.states[token := ABORTED]))
  }

  // ---------------------------------------------------------------- broker, outbound

  function TakeSlot(c: Client): Client
    requires c.slot == None && c.queue != []
  {
    c.(slot := Some(c.queue[0]), queue := c.queue[1..])
  }

  /** Send the token held in the slot. */
  function SendSlot(c: Client, outcome: SendOutcome): (r: (Client, seq<Outgoing>))
    requires c.slot.Some? && c.slot.value < |c.states|
    ensures r.0.slot == None && r.0.queue == c.queue && |r.0.states| == |c.states|
    ensures r.0.smEnabled == c.smEnabled && r.0.running == c.running
  {
    var token := c.slot.value;
    var c := c.(slot := None);
    if c.states[token] == ABORTED then (c, [])
    else match outcome {
      case DroppedByFilter => (c.(states := c.states[token := DROPPED]), [])
      case SendFailed => (c.(states := c.states[token := FAILED]), [])
      case Forwarded =>
        if c.smEnabled then
          (c.(states := c.states[token := SENT], unacked := c.unacked + [token]), [TokenStanza(token)])
        else
          (c.(states := c.states[token := SENT_WITHOUT_SM]), [TokenStanza(token)])
    }
  }

  /** Send everything in the queue, one token at a time. */
  function SendQueue(c: Client, outcomes: nat -> SendOutcome): (r: (Client, seq<Outgoing>))
    requires c.slot == None && forall t <- c.queue :: t < |c.states|
    ensures r.0.slot == None && r.0.queue == [] && r.0.smEnabled == c.smEnabled
    decreases |c.queue|
  {
    if c.queue == [] then (c, [])
    else
      var taken := TakeSlot(c);
      assert taken.slot.value in c.queue && forall t <- taken.queue :: t in c.queue;
      var (sent, out) := SendSlot(taken, outcomes(taken.slot.value));
      var (rest, more) := SendQueue(sent, outcomes);
      (rest, out + more)
  }

  /** One outbound turn of the broker: the slot, then a bulk of the queue, then a request for an ack. */
  function ProcessOutgoing(c: Client, outcomes: nat -> SendOutcome): (Client, seq<Outgoing>)
    requires c.slot.Some? && c.slot.value < |c.states| && forall t <- c.queue :: t < |c.states|
  {
    var (sent, out) := SendSlot(c, outcomes(c.slot.value));
    var (rest, more) := SendQueue(sent, outcomes);
    (rest, out + more + if rest.smEnabled then [Request] else [])
  }

  // ---------------------------------------------------------------- acknowledgements

  /** The number of tokens which the counter `h` acknowledges. */
  function ToDrop(c: Client, h: int): (n: nat) {
    Wrap(h - c.base)
  }

  /** None is the StreamNegotiationFailure for a counter beyond what has been sent. */
  function SmAck(c: Client, h: int): Option<Client> {
    var n := ToDrop(c, h);
    if n > |c.unacked| then None
    else Some(c.(unacked := c.unacked[n..], base := h, states := SetStates(c.states, c.unacked[..n], ACKED)))
  }

  // ---------------------------------------------------------------- broker, inbound

  datatype Received = Received(client: Client, out: seq<Outgoing>, delivered: Option<string>, ok: bool)

  /** One inbound turn of the broker; `ok` is false when the counter was rejected. */
  function ProcessIncoming(c: Client): Received
    requires c.incoming != []
  {
    var entry := c.incoming[0];
    var c := c.(incoming := c.incoming[1..]);
    match entry {
      case Acknowledgement(h) =>
        if !c.smEnabled then Received(c, [], None, true)
        else match SmAck(c, h) {
          case Some(acked) => Received(acked, [], None, true)
          case None => Received(c, [], None, false)
        }
      case AckRequest =>
        Received(c, if c.smEnabled then [Answer(c.inboundCtr)] else [], None, true)
      case Stanza(payload) =>
        Received(if c.smEnabled then c.(inboundCtr := Wrap(c.inboundCtr + 1)) else c, [], Some(payload), true)
    }
  }

  // ---------------------------------------------------------------- stopping

  function DestroyStreamState(c: Client): Client {
    c.(states := SetStates(c.states, c.queue, DISCONNECTED), queue := [])
  }

  lemma DestroyFields(c: Client)
    ensures DestroyStreamState(c) == c.(states := DestroyStreamState(c).states, queue := [])
  {
  }

  function ClearUnacked(c: Client, state: StanzaState): Client {
    c.(states := SetStates(c.states, c.unacked, state), unacked := [])
  }

  /** The counters cease to exist when stream management stops; zero stands for that. */
  function StopSm(c: Client): Client {
    DestroyStreamState(ClearUnacked(c.(smEnabled := false, base := 0, inboundCtr := 0), SENT_WITHOUT_SM))
  }

  function PutBack(c: Client): Client {
    match c.slot
    case None => c
    case Some(token) => c.(slot := None, queue := [token] + c.queue)
  }

  /** What the broker task leaves behind when it terminates. */
  function Teardown(c: Client): Client {
    var c := PutBack(c.(incoming := []));
    var c := if c.smEnabled && c.resumable then c
             else if c.smEnabled then StopSm(DestroyStreamState(c))
             else DestroyStreamState(c);
    c.(running := false)
  }

  function Close(c: Client): Client {
    var c := if c.running then Teardown(c) else c;
    var c := DestroyStreamState(c.(closed := true));
    if c.smEnabled then StopSm(c) else c
  }

  // ---------------------------------------------------------------- starting

  function Start(c: Client): Client {
    c.(running := true, closed := false)
  }

  function SmEnabled(c: Client, resumable: bool): Client {
    c.(base := 0, inboundCtr := 0, unacked := [], smEnabled := true, resumable := resumable)
  }

  /** Acknowledge, then move what is left from the unacked list to the front of the queue. */
  function ResumeSm(c: Client, h: int): Option<Client> {
    match SmAck(c, h)
    case None => None
    case Some(acked) => Some(acked.(queue := Reverse(acked.unacked) + acked.queue, unacked := []))
  }

  /** The server refused to resume, possibly telling how much it had received. */
  function ResumeRefused(c: Client, counter: Option<int>): Option<Client> {
    match counter
    case None => Some(StopSm(c))
    case Some(h) =>
      match SmAck(c, h) {
        case None => None
        case Some(acked) => Some(StopSm(ClearUnacked(acked, DISCONNECTED)))
      }
  }
}
