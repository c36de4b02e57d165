/** What the bus guarantees over every run, however its callbacks act on it while they are being called
    (src/io/bus.cpp). */
module BusSafety {
  import opened Common
  import opened Buses

  /** Every registration in the map was made before. */
  predicate Registered(b: State) {
    forall fd, k :: fd in b.callbackMap && 0 <= k < |b.callbackMap[fd]| ==> b.callbackMap[fd][k].token < b.next
  }

  /** No registration for `fd` made before token `limit` will be called: none is left, or `fd` is marked. */
  predicate Gone(b: State, fd: Fd, limit: nat) {
    fd in b.callbacksToRemove
    || (fd in b.callbackMap ==> forall k :: 0 <= k < |b.callbackMap[fd]| ==> b.callbackMap[fd][k].token >= limit)
  }

  /** No call for `fd` since the first `from` ones went to a registration made before token `limit`. */
  predicate NotCalled(b: State, fd: Fd, limit: nat, from: nat) {
    forall k :: from <= k < |b.calls| && b.calls[k].event.fd == fd ==> b.calls[k].registration.token >= limit
  }

  /** The property carried through a run. */
  predicate Buried(b: State, fd: Fd, limit: nat, from: nat) {
    && Registered(b) && limit <= b.next && from <= |b.calls|
    && Gone(b, fd, limit) && NotCalled(b, fd, limit, from)
  }

  // ---------------------------------------------------------------- deferred removal

  lemma ActBuried(b: State, a: Action, fd: Fd, limit: nat, from: nat)
    requires Buried(b, fd, limit, from)
    ensures Buried(Act(b, a), fd, limit, from)
  {
  }

  lemma {:induction false} ActAllBuried(b: State, actions: seq<Action>, fd: Fd, limit: nat, from: nat)
    requires Buried(b, fd, limit, from)
    ensures Buried(ActAll(b, actions), fd, limit, from)
    ensures b.callbacksToRemove <= ActAll(b, actions).callbacksToRemove
    decreases |actions|
  {
    if actions != [] {
      ActBuried(b, actions[0], fd, limit, from);
      ActAllBuried(Act(b, actions[0]), actions[1..], fd, limit, from);
    }
  }

  /** The list being iterated may still hold old registrations for `fd`, but then `fd` is marked. */
  predicate Skipped(b: State, regs: seq<Registration>, e: Event, fd: Fd, limit: nat) {
    e.fd == fd && fd !in b.callbacksToRemove ==> forall k :: 0 <= k < |regs| ==> regs[k].token >= limit
  }

  lemma {:induction false} InvokeAllBuried(b: State, regs: seq<Registration>, e: Event, beh: Behaviour, fd: Fd,
                                           limit: nat, from: nat)
    requires Buried(b, fd, limit, from) && Skipped(b, regs, e, fd, limit)
    ensures Buried(InvokeAll(b, regs, e, beh), fd, limit, from)
    decreases |regs|
  {
    if regs != [] {
      if e.fd !in b.callbacksToRemove {
        var call := Call(regs[0], e);
        ActAllBuried(b.(calls := b.calls + [call]), beh(|b.calls|, call).actions, fd, limit, from);
      }
      InvokeAllBuried(Invoke(b, regs[0], e, beh), regs[1..], e, beh, fd, limit, from);
    }
  }

  lemma DispatchBuried(b: State, e: Event, beh: Behaviour, fd: Fd, limit: nat, from: nat)
    requires Buried(b, fd, limit, from)
    ensures Buried(Dispatch(b, e, beh), fd, limit, from)
  {
    if e.fd in b.callbackMap {
      InvokeAllBuried(b, b.callbackMap[e.fd], e, beh, fd, limit, from);
    }
  }

  lemma {:induction false} DispatchAllBuried(b: State, es: seq<Event>, beh: Behaviour, fd: Fd, limit: nat, from: nat)
    requires Buried(b, fd, limit, from)
    ensures Buried(DispatchAll(b, es, beh), fd, limit, from)
    decreases |es|
  {
    if es != [] {
      DispatchBuried(b, es[0], beh, fd, limit, from);
      DispatchAllBuried(Dispatch(b, es[0], beh), es[1..], beh, fd, limit, from);
    }
  }

  /** What the owner of the bus does with it: actions from outside, and turns of the reactor. */
  datatype Op = Outside(action: Action) | Wait(poll: Poll)

  function RunOp(b: State, op: Op, beh: Behaviour): State {
    match op
    case Outside(action) => Act(b, action)
    case Wait(poll) => WaitEvents(b, poll, beh)
  }

  function RunOps(b: State, ops: seq<Op>, beh: Behaviour): State
    decreases |ops|
  {
    if ops == [] then b
    else RunOps(RunOp(b, ops[0], beh), ops[1..], beh)
  }

  lemma {:induction false} RunOpsBuried(b: State, ops: seq<Op>, beh: Behaviour, fd: Fd, limit: nat, from: nat)
    requires Buried(b, fd, limit, from)
    ensures Buried(RunOps(b, ops, beh), fd, limit, from)
    decreases |ops|
  {
    if ops != [] {
      match ops[0]
      case Outside(action) =>
        ActBuried(b, action, fd, limit, from);
        RunOpsBuried(Act(b, action), ops[1..], beh, fd, limit, from);
      case Wait(poll) =>
        if poll.Polled? {
          var b' := DispatchAll(b, poll.events, beh);
          DispatchAllBuried(b, poll.events, beh, fd, limit, from);
          DispatchAllBuried(Swap(b'), b'.events, beh, fd, limit, from);
        }
        RunOpsBuried(WaitEvents(b, poll, beh), ops[1..], beh, fd, limit, from);
    }
  }

  /** Tokens tell old registrations from new ones in every run: those in the map are all below the next one. */
  lemma TokensAreFresh(ops: seq<Op>, beh: Behaviour)
    ensures Registered(RunOps(EMPTY, ops, beh))
  {
    RunOpsBuried(EMPTY, ops, beh, 0, 0, 0);
  }

  /** Once a descriptor is deleted, in whichever way and whenever, no callback registered for it before is ever
      called again, whatever callbacks and the owner of the bus do afterwards. */
  lemma DeletedNeverCalled(b: State, delete: Action, ops: seq<Op>, beh: Behaviour)
    requires Registered(b) && (delete.DelFd? || delete.DelFdCallbacks?)
    ensures var end := RunOps(Act(b, delete), ops, beh);
            NotCalled(end, delete.fd, b.next, |b.calls|) && Gone(end, delete.fd, b.next)
  {
    RunOpsBuried(Act(b, delete), ops, beh, delete.fd, b.next, |b.calls|);
  }

  lemma {:induction false} InvokeAllSplit(b: State, xs: seq<Registration>, ys: seq<Registration>, e: Event,
                                          beh: Behaviour)
    ensures InvokeAll(b, xs + ys, e, beh) == InvokeAll(InvokeAll(b, xs, e, beh), ys, e, beh)
    decreases |xs|
  {
    if xs == [] {
      assert xs + ys == ys;
    } else {
      assert (xs + ys)[1..] == xs[1..] + ys;
      InvokeAllSplit(Invoke(b, xs[0], e, beh), xs[1..], ys, e, beh);
    }
  }

  lemma {:induction false} ActAllSplit(b: State, xs: seq<Action>, ys: seq<Action>)
    ensures ActAll(b, xs + ys) == ActAll(ActAll(b, xs), ys)
    decreases |xs|
  {
    if xs == [] {
      assert xs + ys == ys;
    } else {
      assert (xs + ys)[1..] == xs[1..] + ys;
      ActAllSplit(Act(b, xs[0]), xs[1..], ys);
    }
  }

  /** The bus as the callback at `k` in the event's list finds it, its own invocation recorded. */
  function Called(b: State, e: Event, k: nat, beh: Behaviour): State
    requires e.fd in b.callbackMap && k < |b.callbackMap[e.fd]|
  {
    var ahead := InvokeAll(b, b.callbackMap[e.fd][..k], e, beh);
    ahead.(calls := ahead.calls + [Call(b.callbackMap[e.fd][k], e)])
  }

  /** What that callback does. */
  function ReactionAt(b: State, e: Event, k: nat, beh: Behaviour): Reaction
    requires e.fd in b.callbackMap && k < |b.callbackMap[e.fd]|
  {
    beh(|Called(b, e, k, beh).calls| - 1, Call(b.callbackMap[e.fd][k], e))
  }

  /** The same when the `a`-th action of the `k`-th callback called for an event deletes a descriptor: what is left
      of that callback and of the dispatch, the events still to be dispatched in the same turn, and everything
      after it spare the registrations the descriptor had at that point. */
  lemma DeletedInCallbackNeverCalled(b: State, e: Event, k: nat, a: nat, later: seq<Event>, ops: seq<Op>,
                                     beh: Behaviour)
    requires Registered(b) && e.fd in b.callbackMap && k < |b.callbackMap[e.fd]|
    requires e.fd !in Called(b, e, k, beh).callbacksToRemove
    requires var actions := ReactionAt(b, e, k, beh).actions;
             a < |actions| && (actions[a].DelFd? || actions[a].DelFdCallbacks?)
    ensures var reaction := ReactionAt(b, e, k, beh);
            var at := ActAll(Called(b, e, k, beh), reaction.actions[..a]);
            var end := RunOps(DispatchAll(Dispatch(b, e, beh), later, beh), ops, beh);
            && NotCalled(end, reaction.actions[a].fd, at.next, |at.calls|)
            && Gone(end, reaction.actions[a].fd, at.next)
  {
    var regs, reaction := b.callbackMap[e.fd], ReactionAt(b, e, k, beh);
    var ahead, fd := InvokeAll(b, regs[..k], e, beh), reaction.actions[a].fd;
    InvokeAllBuried(b, regs[..k], e, beh, fd, 0, 0);
    var own := DeletionBuries(ahead, regs[k], e, beh, a);
    var at := ActAll(Called(b, e, k, beh), reaction.actions[..a]);
    assert regs == regs[..k] + regs[k..] && regs[k..][0] == regs[k] && regs[k..][1..] == regs[k + 1..];
    InvokeAllSplit(b, regs[..k], regs[k..], e, beh);
    InvokeAllBuried(own, regs[k + 1..], e, beh, fd, at.next, |at.calls|);
    DispatchAllBuried(Dispatch(b, e, beh), later, beh, fd, at.next, |at.calls|);
    RunOpsBuried(DispatchAll(Dispatch(b, e, beh), later, beh), ops, beh, fd, at.next, |at.calls|);
  }

  lemma DeletionBuries(b: State, r: Registration, e: Event, beh: Behaviour, a: nat) returns (b': State)
    requires Registered(b) && e.fd !in b.callbacksToRemove
    requires var actions := beh(|b.calls|, Call(r, e)).actions;
             a < |actions| && (actions[a].DelFd? || actions[a].DelFdCallbacks?)
    ensures b' == Invoke(b, r, e, beh)
    ensures var actions := beh(|b.calls|, Call(r, e)).actions;
            var at := ActAll(b.(calls := b.calls + [Call(r, e)]), actions[..a]);
            Buried(b', actions[a].fd, at.next, |at.calls|) && actions[a].fd in b'.callbacksToRemove
  {
    var called, actions := b.(calls := b.calls + [Call(r, e)]), beh(|b.calls|, Call(r, e)).actions;
    var at, fd := ActAll(called, actions[..a]), actions[a].fd;
    b' := Invoke(b, r, e, beh);
    ActAllBuried(called, actions[..a], fd, 0, 0);
    assert actions == actions[..a] + actions[a..] && actions[a..][0] == actions[a];
    assert actions[a..][1..] == actions[a + 1..];
    ActAllSplit(called, actions[..a], actions[a..]);
    ActAllBuried(Act(at, actions[a]), actions[a + 1..], fd, at.next, |at.calls|);
  }

  // ---------------------------------------------------------------- what is pending

  /** The operation at `i` deletes `fd` from outside, and no event has been dispatched since. */
  predicate DeletedSince(b: State, ops: seq<Op>, beh: Behaviour, fd: Fd, i: nat)
    requires i < |ops|
  {
    && (ops[i] == Outside(DelFd(fd)) || ops[i] == Outside(DelFdCallbacks(fd)))
    && RunOps(b, ops[..i + 1], beh).dispatched == RunOps(b, ops, beh).dispatched
  }

  /** After any run a descriptor is pending removal exactly if it was deleted from outside, or was pending at the
      start, and no event has been dispatched since: deletions by callbacks never outlast their event. */
  lemma {:induction false} PendingExactly(b: State, ops: seq<Op>, beh: Behaviour, fd: Fd)
    ensures var end := RunOps(b, ops, beh);
            fd in end.callbacksToRemove <==>
              || (fd in b.callbacksToRemove && end.dispatched == b.dispatched)
              || exists i: nat | i < |ops| :: DeletedSince(b, ops, beh, fd, i)
    decreases |ops|
  {
    hide RunOp, DeletedSince;
    if ops != [] {
      var b1, rest := RunOp(b, ops[0], beh), ops[1..];
      RunStep(b, ops, beh);
      PendingExactly(b1, rest, beh, fd);
      FirstOpPending(b, ops, beh, fd);
      forall i: nat | i < |rest|
        ensures DeletedSince(b1, rest, beh, fd, i) <==> DeletedSince(b, ops, beh, fd, i + 1)
      {
        LaterDeletion(b, ops, beh, fd, i);
      }
      if i: nat :| i < |ops| && DeletedSince(b, ops, beh, fd, i) && i > 0 {
        assert DeletedSince(b1, rest, beh, fd, i - 1);
      }
    }
  }

  lemma RunStep(b: State, ops: seq<Op>, beh: Behaviour)
    requires ops != []
    ensures RunOps(b, ops, beh) == RunOps(RunOp(b, ops[0], beh), ops[1..], beh)
  {
  }

  lemma LaterDeletion(b: State, ops: seq<Op>, beh: Behaviour, fd: Fd, i: nat)
    requires i + 1 < |ops|
    ensures DeletedSince(RunOp(b, ops[0], beh), ops[1..], beh, fd, i) <==> DeletedSince(b, ops, beh, fd, i + 1)
  {
    hide RunOps, RunOp;
    RunStep(b, ops, beh);
    RunStep(b, ops[..i + 2], beh);
    assert ops[..i + 2][1..] == ops[1..][..i + 1];
  }

  /** What is pending after the first operation counts at the end exactly if no event follows. */
  lemma FirstOpPending(b: State, ops: seq<Op>, beh: Behaviour, fd: Fd)
    requires ops != []
    ensures var b1, end := RunOp(b, ops[0], beh), RunOps(b, ops, beh);
            fd in b1.callbacksToRemove && end.dispatched == b1.dispatched <==>
              || (fd in b.callbacksToRemove && end.dispatched == b.dispatched)
              || DeletedSince(b, ops, beh, fd, 0)
  {
    hide RunOps, WaitEvents;
    RunStep(b, ops, beh);
    RunStep(b, ops[..1], beh);
    assert ops[..1][1..] == [] && ops[..1][0] == ops[0];
    RunNothing(RunOp(b, ops[0], beh), beh);
    RunDispatches(RunOp(b, ops[0], beh), ops[1..], beh);
    match ops[0]
    case Outside(action) =>
    case Wait(poll) => WaitSweeps(b, poll, beh);
  }

  lemma RunNothing(b: State, beh: Behaviour)
    ensures RunOps(b, [], beh) == b
  {
  }

  /** A turn that dispatches an event leaves nothing pending; any other leaves what was. */
  lemma WaitSweeps(b: State, poll: Poll, beh: Behaviour)
    ensures var b' := WaitEvents(b, poll, beh);
            && b.dispatched <= b'.dispatched
            && b'.callbacksToRemove == if b'.dispatched == b.dispatched then b.callbacksToRemove else {}
  {
    if poll.Polled? {
      var polled := DispatchAll(b, poll.events, beh);
      DispatchAllSweeps(b, poll.events, beh);
      DispatchAllSweeps(Swap(polled), polled.events, beh);
      DispatchAllGrows(b, poll.events, beh);
      DispatchAllGrows(Swap(polled), polled.events, beh);
    }
  }

  lemma {:induction false} DispatchAllSweeps(b: State, es: seq<Event>, beh: Behaviour)
    ensures DispatchAll(b, es, beh).callbacksToRemove == if es == [] then b.callbacksToRemove else {}
    decreases |es|
  {
    if es != [] {
      DispatchAllSweeps(Dispatch(b, es[0], beh), es[1..], beh);
    }
  }

  lemma {:induction false} RunDispatches(b: State, ops: seq<Op>, beh: Behaviour)
    ensures b.dispatched <= RunOps(b, ops, beh).dispatched
    decreases |ops|
  {
    hide WaitEvents;
    if ops != [] {
      match ops[0] {
        case Outside(action) =>
        case Wait(poll) => WaitSweeps(b, poll, beh);
      }
      RunDispatches(RunOp(b, ops[0], beh), ops[1..], beh);
    }
  }

  /** A registration made while the removal of its descriptor is pending is lost with the next event. */
  lemma PendingRemovalTakesNew(b: State, fd: Fd, c: CallbackId, e: Event, beh: Behaviour)
    ensures var b' := Act(Act(b, DelFdCallbacks(fd)), AddFd(fd, Some(c)));
            && b'.callbackMap[fd][|b'.callbackMap[fd]| - 1] == Registration(b.next, c)
            && fd !in Dispatch(b', e, beh).callbackMap
  {
    var b' := Act(Act(b, DelFdCallbacks(fd)), AddFd(fd, Some(c)));
    if e.fd in b'.callbackMap {
      MarksStay(b', b'.callbackMap[e.fd], e, beh);
    }
  }

  lemma {:induction false} MarksStay(b: State, regs: seq<Registration>, e: Event, beh: Behaviour)
    ensures b.callbacksToRemove <= InvokeAll(b, regs, e, beh).callbacksToRemove
    decreases |regs|
  {
    if regs != [] {
      if e.fd !in b.callbacksToRemove {
        var call := Call(regs[0], e);
        ActAllGrows(b.(calls := b.calls + [call]), beh(|b.calls|, call).actions);
      }
      MarksStay(Invoke(b, regs[0], e, beh), regs[1..], e, beh);
    }
  }

  // ---------------------------------------------------------------- who is called

  /** The calls an event makes to the first `n` callbacks of a list. */
  function CallsOf(regs: seq<Registration>, n: nat, e: Event): seq<Call>
    requires n <= |regs|
  {
    seq(n, k requires 0 <= k < n => Call(regs[k], e))
  }

  /** An event calls the callbacks of its descriptor, each once and in the order of registration, and no others;
      it stops short only if the descriptor is deleted on the way. */
  lemma DispatchCallsInOrder(b: State, e: Event, beh: Behaviour) returns (n: nat)
    ensures var regs := if e.fd in b.callbackMap then b.callbackMap[e.fd] else [];
            && n <= |regs|
            && Dispatch(b, e, beh).calls == b.calls + CallsOf(regs, n, e)
            && (n < |regs| ==> e.fd !in Dispatch(b, e, beh).callbackMap)
            && (e.fd !in b.callbacksToRemove && regs != [] ==> n > 0)
  {
    if e.fd in b.callbackMap {
      n := InvokeAllCalls(b, b.callbackMap[e.fd], e, beh);
    } else {
      n := 0;
      assert b.calls + [] == b.calls;
    }
  }

  lemma {:induction false} InvokeAllCalls(b: State, regs: seq<Registration>, e: Event, beh: Behaviour) returns (n: nat)
    ensures n <= |regs| && InvokeAll(b, regs, e, beh).calls == b.calls + CallsOf(regs, n, e)
    ensures n < |regs| ==> e.fd in InvokeAll(b, regs, e, beh).callbacksToRemove
    ensures e.fd !in b.callbacksToRemove && regs != [] ==> n > 0
    decreases |regs|
  {
    if regs == [] || e.fd in b.callbacksToRemove {
      n := 0;
      MarkedCallsNone(b, regs, e, beh);
      assert b.calls + CallsOf(regs, 0, e) == b.calls;
    } else {
      var call := Call(regs[0], e);
      ActAllCallsNone(b.(calls := b.calls + [call]), beh(|b.calls|, call).actions);
      var m := InvokeAllCalls(Invoke(b, regs[0], e, beh), regs[1..], e, beh);
      n := m + 1;
      assert CallsOf(regs, n, e) == [call] + CallsOf(regs[1..], m, e);
    }
  }

  lemma {:induction false} ActAllCallsNone(b: State, actions: seq<Action>)
    ensures ActAll(b, actions).calls == b.calls
    decreases |actions|
  {
    if actions != [] {
      ActAllCallsNone(Act(b, actions[0]), actions[1..]);
    }
  }

  lemma {:induction false} MarkedCallsNone(b: State, regs: seq<Registration>, e: Event, beh: Behaviour)
    requires regs == [] || e.fd in b.callbacksToRemove
    ensures InvokeAll(b, regs, e, beh) == b
    decreases |regs|
  {
    if regs != [] {
      MarkedCallsNone(b, regs[1..], e, beh);
    }
  }

  // ---------------------------------------------------------------- the event queue

  /** The history of the bus only grows. */
  predicate Grows(b: State, b': State) {
    && b.events <= b'.events && b.drained == b'.drained && b.next <= b'.next && b.calls <= b'.calls
    && b'.queued == b.queued + b'.events[|b.events|..]
  }

  lemma {:induction false} ActAllGrows(b: State, actions: seq<Action>)
    ensures Grows(b, ActAll(b, actions)) && b.callbacksToRemove <= ActAll(b, actions).callbacksToRemove
    decreases |actions|
  {
    if actions != [] {
      var b1 := Act(b, actions[0]);
      ActAllGrows(b1, actions[1..]);
      GrowsTransitive(b, b1, ActAll(b, actions));
    }
  }

  lemma GrowsTransitive(b: State, b1: State, b2: State)
    requires Grows(b, b1) && Grows(b1, b2)
    ensures Grows(b, b2)
  {
    assert b2.events[|b.events|..] == b1.events[|b.events|..] + b2.events[|b1.events|..];
  }

  lemma {:induction false} InvokeAllGrows(b: State, regs: seq<Registration>, e: Event, beh: Behaviour)
    ensures Grows(b, InvokeAll(b, regs, e, beh))
    decreases |regs|
  {
    if regs != [] {
      var b1 := Invoke(b, regs[0], e, beh);
      if e.fd !in b.callbacksToRemove {
        var call := Call(regs[0], e);
        ActAllGrows(b.(calls := b.calls + [call]), beh(|b.calls|, call).actions);
      }
      assert Grows(b, b1);
      InvokeAllGrows(b1, regs[1..], e, beh);
      GrowsTransitive(b, b1, InvokeAll(b, regs, e, beh));
    }
  }

  lemma {:induction false} DispatchAllGrows(b: State, es: seq<Event>, beh: Behaviour)
    ensures Grows(b, DispatchAll(b, es, beh))
    ensures DispatchAll(b, es, beh).dispatched == b.dispatched + es
    decreases |es|
  {
    if es != [] {
      var b1 := Dispatch(b, es[0], beh);
      if es[0].fd in b.callbackMap {
        InvokeAllGrows(b, b.callbackMap[es[0].fd], es[0], beh);
      }
      assert Grows(b, b1);
      DispatchAllGrows(b1, es[1..], beh);
      GrowsTransitive(b, b1, DispatchAll(b, es, beh));
      assert b.dispatched + [es[0]] + es[1..] == b.dispatched + es;
    }
  }

  /** One turn of the reactor dispatches the polled events, then exactly the events queued before it and those
      queued by the callbacks of the polled events, in order; those queued meanwhile wait for the next turn. */
  lemma WaitDrainsSnapshot(b: State, es: seq<Event>, beh: Behaviour)
    ensures var polled := DispatchAll(b, es, beh);
            var end := WaitEvents(b, Polled(es), beh);
            && end.dispatched == b.dispatched + es + polled.events
            && b.events <= polled.events && end.drained == b.drained + polled.events
            && end.queued == polled.queued + end.events
  {
    var polled := DispatchAll(b, es, beh);
    DispatchAllGrows(b, es, beh);
    DispatchAllGrows(Swap(polled), polled.events, beh);
    var end := WaitEvents(b, Polled(es), beh);
    assert end.events[0..] == end.events;
  }

  /** The events a run dispatches if the turns take `snapshots` off the queue: in each turn the polled events,
      then the snapshot. */
  function InTurns(ops: seq<Op>, snapshots: seq<seq<Event>>): seq<Event>
    requires |ops| == |snapshots|
  {
    if ops == [] then []
    else
      (if ops[0].Wait? && ops[0].poll.Polled? then ops[0].poll.events else [])
      + snapshots[0] + InTurns(ops[1..], snapshots[1..])
  }

  /** `snapshot` is what the `i`-th operation takes off the queue: the whole queue as it is once the polled events
      have been dispatched, and nothing unless the operation is a turn whose poll succeeds. */
  ghost predicate TakenAt(b: State, ops: seq<Op>, beh: Behaviour, i: nat, snapshot: seq<Event>)
    requires i < |ops|
  {
    snapshot == if ops[i].Wait? && ops[i].poll.Polled?
                then DispatchAll(RunOps(b, ops[..i], beh), ops[i].poll.events, beh).events
                else []
  }

  /** In every run the events taken off the queue, followed by those still on it, are the events queued; and what
      is dispatched is, turn by turn, the polled events and all that is queued by the swap, which starts where
      the stretch before ended. So each queued event is dispatched once, and in the order in which it was
      queued. */
  lemma {:induction false} QueueIsFifo(b: State, ops: seq<Op>, beh: Behaviour) returns (snapshots: seq<seq<Event>>)
    requires b.queued == b.drained + b.events
    ensures |snapshots| == |ops|
    ensures var end := RunOps(b, ops, beh);
            && end.queued == b.drained + Flatten(snapshots) + end.events
            && end.drained == b.drained + Flatten(snapshots)
            && end.dispatched == b.dispatched + InTurns(ops, snapshots)
    ensures forall i: nat | i < |ops| :: TakenAt(b, ops, beh, i, snapshots[i])
    decreases |ops|
  {
    hide RunOp, TakenAt;
    if ops == [] {
      snapshots := [];
      assert b.drained + [] == b.drained && b.dispatched + [] == b.dispatched;
    } else {
      var b1 := RunOp(b, ops[0], beh);
      var first := TurnIsFifo(b, ops[0], beh);
      var rest := QueueIsFifo(b1, ops[1..], beh);
      snapshots := [first] + rest;
      forall i: nat | i < |ops|
        ensures TakenAt(b, ops, beh, i, snapshots[i])
      {
        if i == 0 {
          FirstTaken(b, ops, beh, first);
        } else {
          LaterTaken(b, ops, beh, i - 1, rest[i - 1]);
        }
      }
      assert snapshots[1..] == rest;
      var polled := if ops[0].Wait? && ops[0].poll.Polled? then ops[0].poll.events else [];
      assert b.drained + first + Flatten(rest) == b.drained + (first + Flatten(rest));
      assert b.dispatched + polled + first + InTurns(ops[1..], rest)
          == b.dispatched + (polled + first + InTurns(ops[1..], rest));
    }
  }

  lemma TurnIsFifo(b: State, op: Op, beh: Behaviour) returns (snapshot: seq<Event>)
    requires b.queued == b.drained + b.events
    ensures var b' := RunOp(b, op, beh);
            var polled := if op.Wait? && op.poll.Polled? then op.poll.events else [];
            && b'.queued == b'.drained + b'.events
            && b'.drained == b.drained + snapshot
            && b'.dispatched == b.dispatched + polled + snapshot
    ensures snapshot == if op.Wait? && op.poll.Polled? then DispatchAll(b, op.poll.events, beh).events else []
  {
    hide Dispatch, DispatchAll;
    snapshot := [];
    if op.Wait? && op.poll.Polled? {
      var es := op.poll.events;
      var polled := DispatchAll(b, es, beh);
      snapshot := polled.events;
      WaitDrainsSnapshot(b, es, beh);
      DispatchAllGrows(b, es, beh);
      assert polled.events == b.events + polled.events[|b.events|..];
      assert polled.queued == b.drained + polled.events;
    } else if op.Outside? {
      assert b.dispatched + [] + [] == b.dispatched && b.drained + [] == b.drained;
    }
  }

  lemma FirstTaken(b: State, ops: seq<Op>, beh: Behaviour, snapshot: seq<Event>)
    requires ops != []
    requires snapshot == if ops[0].Wait? && ops[0].poll.Polled?
                         then DispatchAll(b, ops[0].poll.events, beh).events
                         else []
    ensures TakenAt(b, ops, beh, 0, snapshot)
  {
    hide DispatchAll;
    assert ops[..0] == [];
    RunNothing(b, beh);
  }

  lemma LaterTaken(b: State, ops: seq<Op>, beh: Behaviour, i: nat, snapshot: seq<Event>)
    requires i + 1 < |ops| && TakenAt(RunOp(b, ops[0], beh), ops[1..], beh, i, snapshot)
    ensures TakenAt(b, ops, beh, i + 1, snapshot)
  {
    hide RunOps, RunOp, DispatchAll;
    assert ops[..i + 1][1..] == ops[1..][..i] && ops[..i + 1][0] == ops[0];
    RunStep(b, ops[..i + 1], beh);
  }
}
