// The ordered state machine as a value: its state, and everything that was ever made to wait for one.

module StateWaiters {

  import opened Common

  datatype Status = Pending | Returned | Skipped | Cancelled

  datatype Waiter = Waiter(exact: bool, target: int, status: Status)

  datatype Machine = Machine(state: int, waiters: seq<Waiter>)

  /** A state has been assigned: an exact waiter fails if it was passed over, any other returns once it is reached. */
  function Settle(w: Waiter, s: int): Waiter {
    if w.status != Pending || s < w.target then w
    else w.(status := if w.exact && s != w.target then Skipped else Returned)
  }

  datatype Op = Assign(s: int) | Rewind(s: int) | Wait(exact: bool, target: int) | Cancel(i: nat)

  /** Refused operations change nothing; waiting for a state already reached registers nothing. */
  function Apply(m: Machine, op: Op): Machine {
    match op
    case Assign(s) =>
      if s < m.state then m
      else Machine(s, seq(|m.waiters|, i requires 0 <= i < |m.waiters| => Settle(m.waiters[i], s)))
    case Rewind(s) => if s > m.state then m else m.(state := s)
    case Wait(exact, target) =>
      if target <= m.state then m else m.(waiters := m.waiters + [Waiter(exact, target, Pending)])
    case Cancel(i) =>
      if i < |m.waiters| && m.waiters[i].status == Pending
      then m.(waiters := m.waiters[i := m.waiters[i].(status := Cancelled)])
      else m
  }

  function Run(m: Machine, ops: seq<Op>): Machine
    decreases |ops|
  {
    if ops == [] then m else Run(Apply(m, ops[0]), ops[1..])
  }

  /** Whoever still waits, waits for a state above the current one. */
  ghost predicate AllAbove(m: Machine) {
    forall i :: 0 <= i < |m.waiters| && m.waiters[i].status == Pending ==> m.state < m.waiters[i].target
  }

  lemma {:induction false} RunKeepsAllAbove(m: Machine, ops: seq<Op>)
    requires AllAbove(m)
    ensures AllAbove(Run(m, ops))
    decreases |ops|
  {
    if ops != [] {
      RunKeepsAllAbove(Apply(m, ops[0]), ops[1..]);
    }
  }

  lemma {:induction false} DecidedForGood(m: Machine, i: nat, ops: seq<Op>)
    requires i < |m.waiters| && m.waiters[i].status != Pending
    ensures i < |Run(m, ops).waiters| && Run(m, ops).waiters[i] == m.waiters[i]
    decreases |ops|
  {
    if ops != [] {
      DecidedForGood(Apply(m, ops[0]), i, ops[1..]);
    }
  }

  /** The states that assignments set; refused assignments set none. */
  function Assigned(state: int, ops: seq<Op>): seq<int>
    decreases |ops|
  {
    if ops == [] then []
    else
      match ops[0]
      case Assign(s) => if s < state then Assigned(state, ops[1..]) else [s] + Assigned(s, ops[1..])
      case Rewind(s) => Assigned(if s > state then state else s, ops[1..])
      case _ => Assigned(state, ops[1..])
  }

  /** The first state that is not below the target. */
  function FirstAtLeast(states: seq<int>, target: int): (r: Option<int>)
    ensures r.Some? ==> r.value >= target && r.value in states
    ensures r.None? ==> forall j :: 0 <= j < |states| ==> states[j] < target
  {
    if states == [] then None
    else if states[0] >= target then Some(states[0])
    else
      assert states == [states[0]] + states[1..];
      FirstAtLeast(states[1..], target)
  }

  ghost predicate NeverCancelled(i: nat, ops: seq<Op>) {
    forall k :: 0 <= k < |ops| ==> ops[k] != Cancel(i)
  }

  /** One operation, seen by one waiter that it does not cancel. */
  lemma OneOperation(m: Machine, op: Op, i: nat)
    requires i < |m.waiters| && op != Cancel(i)
    ensures i < |Apply(m, op).waiters|
    ensures Apply(m, op).waiters[i] ==
            if op.Assign? && op.s >= m.state then Settle(m.waiters[i], op.s) else m.waiters[i]
  {
  }

  /**
   * Over any operations that follow, the first state assigned at or above its target decides a waiter, whether the
   * machine is rewound in between or not: an exact waiter returns if that state is its target and is told that it
   * was skipped otherwise.
   */
  lemma {:induction false} FirstStateDecides(m: Machine, i: nat, ops: seq<Op>)
    requires i < |m.waiters| && m.waiters[i].status == Pending && NeverCancelled(i, ops)
    ensures i < |Run(m, ops).waiters|
    ensures var w, after := m.waiters[i], Run(m, ops).waiters[i];
      match FirstAtLeast(Assigned(m.state, ops), w.target)
      case None => after == w
      case Some(s) => after == w.(status := if w.exact && s != w.target then Skipped else Returned)
    decreases |ops|
  {
    hide Apply;
    if ops != [] {
      var op, rest := ops[0], ops[1..];
      OneOperation(m, op, i);
      assert NeverCancelled(i, rest);
      if op.Assign? && op.s >= m.state && op.s >= m.waiters[i].target {
        DecidedForGood(Apply(m, op), i, rest);
      } else {
        StateAfter(m, op);
        FirstStateDecides(Apply(m, op), i, rest);
      }
    }
  }

  lemma StateAfter(m: Machine, op: Op)
    ensures Apply(m, op).state ==
            match op case Assign(s) => if s < m.state then m.state else s
                     case Rewind(s) => if s > m.state then m.state else s
                     case _ => m.state
  {
  }

  /**
   * Waiting for exactly one state succeeds if and only if the first state to be assigned at or above it is that
   * state.
   */
  lemma WaitForSucceedsIff(m: Machine, target: int, ops: seq<Op>)
    requires m.state < target && NeverCancelled(|m.waiters|, ops)
    ensures var waiting := Apply(m, Wait(true, target));
      && |m.waiters| < |Run(waiting, ops).waiters|
      && (Run(waiting, ops).waiters[|m.waiters|].status == Returned
          <==> FirstAtLeast(Assigned(m.state, ops), target) == Some(target))
  {
    FirstStateDecides(Apply(m, Wait(true, target)), |m.waiters|, ops);
  }

  /** Waiting for at least a state succeeds if and only if any state is assigned at or above it. */
  lemma WaitForAtLeastSucceedsIff(m: Machine, target: int, ops: seq<Op>)
    requires m.state < target && NeverCancelled(|m.waiters|, ops)
    ensures var waiting := Apply(m, Wait(false, target));
      && |m.waiters| < |Run(waiting, ops).waiters|
      && (Run(waiting, ops).waiters[|m.waiters|].status == Returned
          <==> exists s :: s in Assigned(m.state, ops) && s >= target)
  {
    var waiting := Apply(m, Wait(false, target));
    FirstStateDecides(waiting, |m.waiters|, ops);
    assert waiting.waiters[|m.waiters|] == Waiter(false, target, Pending) && waiting.state == m.state;
    hide Run, Apply, Assigned, FirstAtLeast;
    var states := Assigned(m.state, ops);
    var first := FirstAtLeast(states, target);
    if first.None? {
      forall s | s in states ensures s < target {
        var j :| 0 <= j < |states| && states[j] == s;
      }
    } else {
      var s := first.value;
      assert Run(waiting, ops).waiters[|m.waiters|] == Waiter(false, target, Returned);
      assert s in states && s >= target;
    }
  }
}
