// The ordered state machine as it is stored: lists of waiters, each with the future that it waits on.

module StateMachines {
  import opened Common
  import opened StateWaiters

  class Future {
    var status: Status

    constructor ()
      ensures status == Pending
    {
      status := Pending;
    }
  }

  datatype Entry = Entry(target: int, future: Future)

  /**
   * The list holds, in the order of `ids`, waiters of one kind with their targets and futures, and every such waiter
   * that is still pending.
   */
  ghost predicate Lists(entries: seq<Entry>, ids: seq<nat>, exact: bool, waiters: seq<Waiter>, futures: seq<Future>) {
    && |waiters| == |futures| && |entries| == |ids| && NoDup(ids)
    && (forall j :: 0 <= j < |ids| ==> ids[j] < |waiters|)
    && (forall j :: 0 <= j < |ids| ==>
        waiters[ids[j]].exact == exact && entries[j] == Entry(waiters[ids[j]].target, futures[ids[j]]))
    && (forall i :: 0 <= i < |waiters| && waiters[i].exact == exact && waiters[i].status == Pending ==> i in ids)
  }

  /** Every future shows what has become of its waiter. */
  ghost predicate Shown(futures: seq<Future>, waiters: seq<Waiter>)
    reads futures
  {
    |futures| == |waiters| && forall i :: 0 <= i < |futures| ==> futures[i].status == waiters[i].status
  }

  function SettleKind(waiters: seq<Waiter>, s: int, exact: bool): (r: seq<Waiter>)
    ensures |r| == |waiters|
  {
    seq(|waiters|, i requires 0 <= i < |waiters| => if waiters[i].exact == exact then Settle(waiters[i],
        s) else waiters[i])
  }

  /** A sweep over the first `k` waiters of a list: those were settled, and kept if they still wait. */
  ghost predicate Swept(before: seq<Waiter>, now: seq<Waiter>, s: int, entries: seq<Entry>, ids: seq<nat>, k: nat,
                        kept: seq<Entry>, keptIds: seq<nat>)
  {
    && |now| == |before| && |entries| == |ids| && k <= |ids| && |kept| == |keptIds| && NoDup(keptIds)
    && (forall j :: 0 <= j < |ids| ==> ids[j] < |before|)
    && (forall i :: 0 <= i < |now| ==> now[i] == if i in ids[..k] then Settle(before[i], s) else before[i])
    && (forall j :: 0 <= j < |kept| ==>
        exists q :: 0 <= q < k && keptIds[j] == ids[q] && kept[j] == entries[q])
    && (forall q :: 0 <= q < k && now[ids[q]].status == Pending ==> ids[q] in keptIds)
  }

  lemma SweptStart(before: seq<Waiter>, s: int, entries: seq<Entry>, ids: seq<nat>)
    requires |entries| == |ids| && forall j :: 0 <= j < |ids| ==> ids[j] < |before|
    ensures Swept(before, before, s, entries, ids, 0, [], [])
  {
  }

  lemma PrefixMore(ids: seq<nat>, k: nat)
    requires k < |ids| && NoDup(ids)
    ensures ids[k] !in ids[..k]
    ensures forall i: nat :: i in ids[..k + 1] <==> i in ids[..k] || i == ids[k]
  {
    assert ids[..k + 1] == ids[..k] + [ids[k]];
  }

  lemma SweptKeeps(before: seq<Waiter>, now: seq<Waiter>, s: int, entries: seq<Entry>, ids: seq<nat>, k: nat,
                   kept: seq<Entry>, keptIds: seq<nat>)
    requires Swept(before, now, s, entries, ids, k, kept, keptIds) && k < |ids| && NoDup(ids)
    requires Settle(before[ids[k]], s) == before[ids[k]]
    ensures Swept(before, now, s, entries, ids, k + 1, kept + [entries[k]], keptIds + [ids[k]])
  {
    PrefixMore(ids, k);
    forall j | 0 <= j < |kept| ensures keptIds[j] != ids[k] {
      var q :| 0 <= q < k && keptIds[j] == ids[q] && kept[j] == entries[q];
    }
    var more, moreIds := kept + [entries[k]], keptIds + [ids[k]];
    forall j | 0 <= j < |more|
      ensures exists q :: 0 <= q < k + 1 && moreIds[j] == ids[q] && more[j] == entries[q]
    {
      if j < |kept| {
        var q :| 0 <= q < k && keptIds[j] == ids[q] && kept[j] == entries[q];
        assert moreIds[j] == ids[q] && more[j] == entries[q];
      } else {
        assert moreIds[j] == ids[k] && more[j] == entries[k];
      }
    }
    assert moreIds[|keptIds|] == ids[k];
    forall q | 0 <= q < k + 1 && now[ids[q]].status == Pending ensures ids[q] in moreIds {
    }
  }

  lemma SweptDrops(before: seq<Waiter>, now: seq<Waiter>, s: int, entries: seq<Entry>, ids: seq<nat>, k: nat,
                   kept: seq<Entry>, keptIds: seq<nat>)
    requires Swept(before, now, s, entries, ids, k, kept, keptIds) && k < |ids| && NoDup(ids)
    requires Settle(before[ids[k]], s).status != Pending
    ensures Swept(before, now[ids[k] := Settle(before[ids[k]], s)], s, entries, ids, k + 1, kept, keptIds)
  {
    PrefixMore(ids, k);
    var next := now[ids[k] := Settle(before[ids[k]], s)];
    forall j | 0 <= j < |kept|
      ensures exists q :: 0 <= q < k + 1 && keptIds[j] == ids[q] && kept[j] == entries[q]
    {
      var q :| 0 <= q < k && keptIds[j] == ids[q] && kept[j] == entries[q];
    }
    forall q | 0 <= q < k + 1 && next[ids[q]].status == Pending ensures ids[q] in keptIds {
      assert q != k;
    }
  }

  lemma SweptDone(before: seq<Waiter>, now: seq<Waiter>, s: int, entries: seq<Entry>, ids: seq<nat>,
                  kept: seq<Entry>, keptIds: seq<nat>, exact: bool, futures: seq<Future>)
    requires Swept(before, now, s, entries, ids, |ids|, kept, keptIds)
    requires Lists(entries, ids, exact, before, futures)
    ensures now == SettleKind(before, s, exact)
    ensures Lists(kept, keptIds, exact, now, futures)
  {
    assert ids[..|ids|] == ids;
    forall i | 0 <= i < |now|
      ensures now[i] == if before[i].exact == exact then Settle(before[i], s) else before[i]
    {
      if i in ids {
        var q :| 0 <= q < |ids| && ids[q] == i;
      }
    }
    forall j | 0 <= j < |keptIds|
      ensures keptIds[j] < |now| && now[keptIds[j]].exact == exact
      ensures kept[j] == Entry(now[keptIds[j]].target, futures[keptIds[j]])
    {
      var q :| 0 <= q < |ids| && keptIds[j] == ids[q] && kept[j] == entries[q];
    }
    forall i | 0 <= i < |now| && now[i].exact == exact && now[i].status == Pending ensures i in keptIds {
      assert i in ids;
      var q :| 0 <= q < |ids| && ids[q] == i;
    }
  }

  /** Settling the other kind does not disturb a list. */
  lemma OtherKindSettled(entries: seq<Entry>, ids: seq<nat>, exact: bool, waiters: seq<Waiter>, futures: seq<Future>,
      s: int)
    requires Lists(entries, ids, exact, waiters, futures)
    ensures Lists(entries, ids, exact, SettleKind(waiters, s, !exact), futures)
  {
  }

  /** One kind after the other is everything. */
  lemma BothKinds(m: Machine, s: int)
    requires m.state <= s
    ensures Apply(m, Assign(s)) == Machine(s, SettleKind(SettleKind(m.waiters, s, false), s, true))
  {
  }

  lemma OneMoreKeepsAllAbove(m: Machine, op: Op)
    requires AllAbove(m)
    ensures AllAbove(Apply(m, op))
  {
  }

  lemma ListedMore(entries: seq<Entry>, ids: seq<nat>, exact: bool, waiters: seq<Waiter>, futures: seq<Future>,
                   w: Waiter, future: Future)
    requires Lists(entries, ids, exact, waiters, futures)
    ensures w.exact != exact ==> Lists(entries, ids, exact, waiters + [w], futures + [future])
    ensures w.exact == exact ==>
      Lists(entries + [Entry(w.target, future)], ids + [|waiters|], exact, waiters + [w], futures + [future])
  {
    if w.exact == exact {
      var more := ids + [|waiters|];
      assert more[|ids|] == |waiters|;
      assert forall i: nat :: i in ids ==> i in more;
    }
  }

  class OrderedStateMachine {
    var state: int
    var leastWaiters: seq<Entry>
    var exactWaiters: seq<Entry>

    ghost var futures: seq<Future>
    ghost var leastIds: seq<nat>
    ghost var exactIds: seq<nat>
    /** The machine as a value. */
    ghost var machine: Machine

    ghost predicate Valid()
      reads this, futures
    {
      && state == machine.state && AllAbove(machine)
      && NoDup(futures) && Shown(futures, machine.waiters)
      && Lists(leastWaiters, leastIds, false, machine.waiters, futures)
      && Lists(exactWaiters, exactIds, true, machine.waiters, futures)
    }

    constructor (initial: int)
      ensures Valid() && machine == Machine(initial, []) && futures == []
    {
      state, leastWaiters, exactWaiters := initial, [], [];
      futures, leastIds, exactIds := [], [], [];
      machine := Machine(initial, []);
    }

    /** Completes one future. */
    method Resolve(future: Future, status: Status, ghost id: nat, ghost now: seq<Waiter>)
      requires Shown(futures, now) && NoDup(futures) && id < |futures| && futures[id] == future
      modifies future
      ensures Shown(futures, now[id := now[id].(status := status)])
    {
      future.status := status;
    }

    method SettleLeast(newState: int) returns (ghost now: seq<Waiter>)
      requires NoDup(futures) && Shown(futures, machine.waiters)
      requires Lists(leastWaiters, leastIds, false, machine.waiters, futures)
      modifies futures, `leastWaiters, `leastIds
      ensures now == SettleKind(machine.waiters, newState, false)
      ensures Shown(futures, now) && Lists(leastWaiters, leastIds, false, now, futures)
    {
      ghost var before, keptIds := machine.waiters, [];
      var newWaiters: seq<Entry> := [];
      now := before;
      SweptStart(before, newState, leastWaiters, leastIds);
      for k := 0 to |leastWaiters|
        invariant Shown(futures, now)
        invariant Swept(before, now, newState, leastWaiters, leastIds, k, newWaiters, keptIds)
        modifies futures
      {
        var entry := leastWaiters[k];
        ghost var id := leastIds[k];
        if entry.future.status != Pending {
          SweptDrops(before, now, newState, leastWaiters, leastIds, k, newWaiters, keptIds);
          continue;
        }
        if !(newState < entry.target) {
          Resolve(entry.future, Returned, id, now);
          SweptDrops(before, now, newState, leastWaiters, leastIds, k, newWaiters, keptIds);
          now := now[id := now[id].(status := Returned)];
          continue;
        }
        SweptKeeps(before, now, newState, leastWaiters, leastIds, k, newWaiters, keptIds);
        newWaiters, keptIds := newWaiters + [entry], keptIds + [id];
      }
      SweptDone(before, now, newState, leastWaiters, leastIds, newWaiters, keptIds, false, futures);
      leastWaiters, leastIds := newWaiters, keptIds;
    }

    method SettleExact(newState: int, ghost before: seq<Waiter>) returns (ghost now: seq<Waiter>)
      requires NoDup(futures) && Shown(futures, before)
      requires Lists(exactWaiters, exactIds, true, before, futures)
      modifies futures, `exactWaiters, `exactIds
      ensures now == SettleKind(before, newState, true)
      ensures Shown(futures, now) && Lists(exactWaiters, exactIds, true, now, futures)
    {
      ghost var keptIds := [];
      var newWaiters: seq<Entry> := [];
      now := before;
      SweptStart(before, newState, exactWaiters, exactIds);
      for k := 0 to |exactWaiters|
        invariant Shown(futures, now)
        invariant Swept(before, now, newState, exactWaiters, exactIds, k, newWaiters, keptIds)
        modifies futures
      {
        var entry := exactWaiters[k];
        ghost var id := exactIds[k];
        if entry.future.status != Pending {
          SweptDrops(before, now, newState, exactWaiters, exactIds, k, newWaiters, keptIds);
          continue;
        }
        if entry.target == newState {
          Resolve(entry.future, Returned, id, now);
          SweptDrops(before, now, newState, exactWaiters, exactIds, k, newWaiters, keptIds);
          now := now[id := now[id].(status := Returned)];
          continue;
        }
        if entry.target < newState {
          Resolve(entry.future, Skipped, id, now);
          SweptDrops(before, now, newState, exactWaiters, exactIds, k, newWaiters, keptIds);
          now := now[id := now[id].(status := Skipped)];
          continue;
        }
        SweptKeeps(before, now, newState, exactWaiters, exactIds, k, newWaiters, keptIds);
        newWaiters, keptIds := newWaiters + [entry], keptIds + [id];
      }
      SweptDone(before, now, newState, exactWaiters, exactIds, newWaiters, keptIds, true, futures);
      exactWaiters, exactIds := newWaiters, keptIds;
    }

    /** Assigning the state; refused if it would go back. */
    method SetState(newState: int) returns (ok: bool)
      requires Valid()
      modifies this, futures
      ensures Valid() && futures == old(futures)
      ensures ok <==> newState >= old(state)
      ensures machine == Apply(old(machine), Assign(newState))
      ensures state == if ok then newState else old(state)
    {
      hide Shown, Lists, NoDup, AllAbove, Settle, SettleKind;
      if newState < state {
        return false;
      }
      state := newState;
      ghost var all := machine.waiters;
      ghost var half := SettleLeast(newState);
      OtherKindSettled(exactWaiters, exactIds, true, all, futures, newState);
      ghost var now := SettleExact(newState, half);
      OtherKindSettled(leastWaiters, leastIds, false, half, futures, newState);
      BothKinds(machine, newState);
      OneMoreKeepsAllAbove(machine, Assign(newState));
      machine := Machine(newState, now);
      ok := true;
    }

    /** Waits for exactly a state: what is known at once, or a future. */
    method WaitFor(newState: int) returns (r: Status, future: Future?)
      requires Valid()
      modifies this
      ensures Valid() && machine == Apply(old(machine), Wait(true, newState))
      ensures r == if state == newState then Returned else if state > newState then Skipped else Pending
      ensures if r == Pending then future != null && fresh(future)
          && futures == old(futures) + [future] else futures == old(futures)
    {
      if state == newState {
        return Returned, null;
      }
      if state > newState {
        return Skipped, null;
      }
      future := new Future();
      Register(true, newState, future);
      r := Pending;
    }

    method WaitForAtLeast(newState: int) returns (r: Status, future: Future?)
      requires Valid()
      modifies this
      ensures Valid() && machine == Apply(old(machine), Wait(false, newState))
      ensures r == if state < newState then Pending else Returned
      ensures if r == Pending then future != null && fresh(future)
          && futures == old(futures) + [future] else futures == old(futures)
    {
      if !(state < newState) {
        return Returned, null;
      }
      future := new Future();
      Register(false, newState, future);
      r := Pending;
    }

    method Register(exact: bool, target: int, future: Future)
      requires Valid() && state < target && future.status == Pending && future !in futures
      modifies this
      ensures Valid() && machine == Apply(old(machine), Wait(exact, target)) && futures == old(futures) + [future]
    {
      hide Lists;
      ListedMore(leastWaiters, leastIds, false, machine.waiters, futures, Waiter(exact, target, Pending), future);
      ListedMore(exactWaiters, exactIds, true, machine.waiters, futures, Waiter(exact, target, Pending), future);
      if exact {
        exactWaiters := exactWaiters + [Entry(target, future)];
        exactIds := exactIds + [|machine.waiters|];
      } else {
        leastWaiters := leastWaiters + [Entry(target, future)];
        leastIds := leastIds + [|machine.waiters|];
      }
      futures := futures + [future];
      machine := Apply(machine, Wait(exact, target));
    }

    method Rewind(newState: int) returns (ok: bool)
      requires Valid()
      modifies this
      ensures Valid() && futures == old(futures)
      ensures ok <==> newState <= old(state)
      ensures machine == Apply(old(machine), StateWaiters.Rewind(newState))
      ensures state == if ok then newState else old(state)
    {
      if newState > state {
        return false;
      }
      state := newState;
      machine := machine.(state := newState);
      ok := true;
    }

    /** A waiter is cancelled from outside. */
    method Cancel(future: Future, ghost i: nat)
      requires Valid() && i < |futures| && futures[i] == future
      modifies this, future
      ensures Valid() && futures == old(futures)
      ensures machine == Apply(old(machine), StateWaiters.Cancel(i))
      ensures future.status == if old(future.status) == Pending then Cancelled else old(future.status)
    {
      if future.status == Pending {
        future.status := Cancelled;
        machine := Apply(machine, StateWaiters.Cancel(i));
      }
    }
  }
}
