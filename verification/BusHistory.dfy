/** What a run of the bus owes to the actions performed on it: the registrations in its map, the events it queues
    and the errors it reports (src/io/bus.cpp). */
module BusHistory {
  import opened Common
  import opened Buses
  import opened BusSafety

  // ---------------------------------------------------------------- what actions ask for

  /** The event an action queues, if it does. */
  function EnqueuedBy(a: Action): seq<Event> {
    match a
    case Enqueue(event) => [event]
    case _ => []
  }

  /** The registration an action makes, if it does: for which descriptor, and which callback. */
  function RegisteredBy(a: Action): seq<(Fd, CallbackId)> {
    match a
    case AddFd(fd, Some(callback)) => [(fd, callback)]
    case _ => []
  }

  /** The events queued and the registrations made by a list of actions, in order. */
  function Enqueued(actions: seq<Action>): seq<Event> {
    if actions == [] then [] else EnqueuedBy(actions[0]) + Enqueued(actions[1..])
  }

  function Registrations(actions: seq<Action>): seq<(Fd, CallbackId)> {
    if actions == [] then [] else RegisteredBy(actions[0]) + Registrations(actions[1..])
  }

  predicate DeletedBy(actions: seq<Action>, fd: Fd) {
    DelFd(fd) in actions || DelFdCallbacks(fd) in actions
  }

  /** What the callbacks did in all calls but the first `from`, and how many of those calls threw. */
  function Performed(calls: seq<Call>, from: nat, beh: Behaviour): seq<Action>
    requires from <= |calls|
    decreases |calls| - from
  {
    if from == |calls| then [] else beh(from, calls[from]).actions + Performed(calls, from + 1, beh)
  }

  function Thrown(calls: seq<Call>, from: nat, beh: Behaviour): nat
    requires from <= |calls|
    decreases |calls| - from
  {
    if from == |calls| then 0 else (if beh(from, calls[from]).threw then 1 else 0) + Thrown(calls, from + 1, beh)
  }

  lemma {:induction false} EnqueuedConcat(a: seq<Action>, b: seq<Action>)
    ensures Enqueued(a + b) == Enqueued(a) + Enqueued(b)
    decreases |a|
  {
    hide EnqueuedBy;
    if a == [] {
      assert a + b == b && [] + Enqueued(b) == Enqueued(b);
    } else {
      assert (a + b)[1..] == a[1..] + b;
      EnqueuedConcat(a[1..], b);
      var first := EnqueuedBy(a[0]);
      assert first + (Enqueued(a[1..]) + Enqueued(b)) == first + Enqueued(a[1..]) + Enqueued(b);
    }
  }

  lemma {:induction false} RegistrationsConcat(a: seq<Action>, b: seq<Action>)
    ensures Registrations(a + b) == Registrations(a) + Registrations(b)
    decreases |a|
  {
    hide RegisteredBy;
    if a == [] {
      assert a + b == b && [] + Registrations(b) == Registrations(b);
    } else {
      assert (a + b)[1..] == a[1..] + b;
      RegistrationsConcat(a[1..], b);
      var first := RegisteredBy(a[0]);
      assert first + (Registrations(a[1..]) + Registrations(b)) == first + Registrations(a[1..]) + Registrations(b);
    }
  }

  lemma ActionsConcat(a: seq<Action>, b: seq<Action>)
    ensures Enqueued(a + b) == Enqueued(a) + Enqueued(b)
    ensures Registrations(a + b) == Registrations(a) + Registrations(b)
  {
    EnqueuedConcat(a, b);
    RegistrationsConcat(a, b);
  }

  lemma OneAction(a: Action)
    ensures Enqueued([a]) == EnqueuedBy(a) && Registrations([a]) == RegisteredBy(a)
  {
    var one: seq<Action> := [a];
    assert one[1..] == [];
  }

  lemma {:induction false} CallsSplit(calls: seq<Call>, more: seq<Call>, from: nat, beh: Behaviour)
    requires from <= |calls| && calls <= more
    ensures Performed(more, from, beh) == Performed(calls, from, beh) + Performed(more, |calls|, beh)
    ensures Thrown(more, from, beh) == Thrown(calls, from, beh) + Thrown(more, |calls|, beh)
    decreases |calls| - from
  {
    if from == |calls| {
      assert [] + Performed(more, |calls|, beh) == Performed(more, |calls|, beh);
    } else {
      CallsSplit(calls, more, from + 1, beh);
      var actions := beh(from, calls[from]).actions;
      assert actions + (Performed(calls, from + 1, beh) + Performed(more, |calls|, beh))
          == actions + Performed(calls, from + 1, beh) + Performed(more, |calls|, beh);
    }
  }

  // ---------------------------------------------------------------- what they bring about

  /** `made` lists all registrations ever made, and the map holds some of them: each on the list of its own
      descriptor, once, and in the order in which they were made. */
  predicate Holds(b: State, made: seq<(Fd, CallbackId)>) {
    && |made| == b.next
    && (forall fd, k :: fd in b.callbackMap && 0 <= k < |b.callbackMap[fd]| ==>
          var r := b.callbackMap[fd][k]; r.token < |made| && made[r.token] == (fd, r.callback))
    && (forall fd, j, k :: fd in b.callbackMap && 0 <= j < k < |b.callbackMap[fd]| ==>
          b.callbackMap[fd][j].token < b.callbackMap[fd][k].token)
  }

  /** Descriptors nobody deletes keep what is registered for them. */
  ghost predicate Keeps(b: State, b': State, actions: seq<Action>) {
    forall fd :: fd !in b.callbacksToRemove && !DeletedBy(actions, fd) ==>
      && fd !in b'.callbacksToRemove
      && (fd in b.callbackMap ==> fd in b'.callbackMap && b.callbackMap[fd] <= b'.callbackMap[fd])
  }

  /** They also keep what has been registered for them since `b`; `made` lists all registrations by the time of
      `b'`. */
  ghost predicate Gains(b: State, b': State, made: seq<(Fd, CallbackId)>, actions: seq<Action>) {
    forall t: nat | b.next <= t < |made| :: Gained(b, b', made[t].0, Registration(t, made[t].1), actions)
  }

  predicate Gained(b: State, b': State, fd: Fd, r: Registration, actions: seq<Action>) {
    fd !in b.callbacksToRemove && !DeletedBy(actions, fd) ==> fd in b'.callbackMap && r in b'.callbackMap[fd]
  }

  /** Between `b` and `b'` exactly `actions` were performed. */
  ghost predicate Brings(b: State, b': State, made: seq<(Fd, CallbackId)>, actions: seq<Action>) {
    && Holds(b', made + Registrations(actions))
    && b'.queued == b.queued + Enqueued(actions)
    && Keeps(b, b', actions)
    && Gains(b, b', made + Registrations(actions), actions)
  }

  lemma ActBrings(b: State, a: Action, made: seq<(Fd, CallbackId)>)
    requires Holds(b, made)
    ensures Brings(b, Act(b, a), made, [a])
  {
    hide Holds, Keeps, Gains, Enqueued, Registrations;
    OneAction(a);
    ActHolds(b, a, made);
    ActKeeps(b, a);
    ActGains(b, a, made);
    assert a.Enqueue? || b.queued + [] == b.queued;
  }

  lemma ActHolds(b: State, a: Action, made: seq<(Fd, CallbackId)>)
    requires Holds(b, made)
    ensures Holds(Act(b, a), made + RegisteredBy(a))
  {
    if a.AddFd? && a.callback.Some? {
      RegistrationHolds(b, a.fd, a.callback.value, made);
    } else {
      assert made + [] == made;
    }
  }

  lemma RegistrationHolds(b: State, fd: Fd, c: CallbackId, made: seq<(Fd, CallbackId)>)
    requires Holds(b, made)
    ensures Holds(Act(b, AddFd(fd, Some(c))), made + [(fd, c)])
  {
    var b', more := Act(b, AddFd(fd, Some(c))), made + [(fd, c)];
    forall f, k | f in b'.callbackMap && 0 <= k < |b'.callbackMap[f]|
      ensures var r := b'.callbackMap[f][k]; r.token < |more| && more[r.token] == (f, r.callback)
    {
      if f in b.callbackMap && k < |b.callbackMap[f]| {
        assert b'.callbackMap[f][k] == b.callbackMap[f][k];
      }
    }
    forall f, j, k | f in b'.callbackMap && 0 <= j < k < |b'.callbackMap[f]|
      ensures b'.callbackMap[f][j].token < b'.callbackMap[f][k].token
    {
      assert b'.callbackMap[f][j] == b.callbackMap[f][j];
      if k < |b.callbackMap[f]| {
        assert b'.callbackMap[f][k] == b.callbackMap[f][k];
      }
    }
  }

  lemma ActGains(b: State, a: Action, made: seq<(Fd, CallbackId)>)
    requires Holds(b, made)
    ensures Gains(b, Act(b, a), made + RegisteredBy(a), [a])
  {
  }

  lemma ActKeeps(b: State, a: Action)
    ensures Keeps(b, Act(b, a), [a])
  {
    assert a in [a];
  }

  /** No action was performed; at most the pending removals were carried out. */
  predicate SameOrSwept(b: State, b': State) {
    && b'.next == b.next && b'.queued == b.queued
    && (b'.callbackMap, b'.callbacksToRemove) in
         {(b.callbackMap, b.callbacksToRemove), (b.callbackMap - b.callbacksToRemove, {})}
  }

  lemma SameBrings(b: State, b': State, made: seq<(Fd, CallbackId)>)
    requires Holds(b, made) && SameOrSwept(b, b')
    ensures Brings(b, b', made, [])
  {
    assert Registrations([]) == [];
    assert made + [] == made && b.queued + [] == b.queued;
  }

  lemma BringsThen(b: State, b1: State, b2: State, made: seq<(Fd, CallbackId)>, x: seq<Action>, y: seq<Action>)
    requires Brings(b, b1, made, x) && Brings(b1, b2, made + Registrations(x), y)
    ensures Brings(b, b2, made, x + y)
  {
    hide Holds, Keeps, Gains, Enqueued, Registrations;
    HoldsAll(b1, made + Registrations(x));
    GainsThen(b, b1, b2, made + Registrations(x), Registrations(y), x, y);
    ActionsConcat(x, y);
    assert made + Registrations(x) + Registrations(y) == made + (Registrations(x) + Registrations(y));
    assert b.queued + Enqueued(x) + Enqueued(y) == b.queued + (Enqueued(x) + Enqueued(y));
    KeepsThen(b, b1, b2, x, y);
  }

  lemma HoldsAll(b: State, made: seq<(Fd, CallbackId)>)
    requires Holds(b, made)
    ensures |made| == b.next
  {
  }

  lemma GainsThen(b: State, b1: State, b2: State, made: seq<(Fd, CallbackId)>, more: seq<(Fd, CallbackId)>,
                  x: seq<Action>, y: seq<Action>)
    requires |made| == b1.next && Keeps(b, b1, x) && Keeps(b1, b2, y)
    requires Gains(b, b1, made, x) && Gains(b1, b2, made + more, y)
    ensures Gains(b, b2, made + more, x + y)
  {
    hide Keeps;
    forall t: nat | b.next <= t < |made + more|
      ensures Gained(b, b2, (made + more)[t].0, Registration(t, (made + more)[t].1), x + y)
    {
      var (fd, c) := (made + more)[t];
      KeptFor(b, b1, fd, x);
      KeptFor(b1, b2, fd, y);
      if t < |made| {
        assert made[t] == (fd, c);
        assert Gained(b, b1, fd, Registration(t, c), x);
      } else {
        assert Gained(b1, b2, fd, Registration(t, c), y);
      }
    }
  }

  lemma KeptFor(b: State, b': State, fd: Fd, actions: seq<Action>)
    requires Keeps(b, b', actions)
    ensures fd !in b.callbacksToRemove && !DeletedBy(actions, fd) ==>
              && fd !in b'.callbacksToRemove
              && (fd in b.callbackMap ==> fd in b'.callbackMap && b.callbackMap[fd] <= b'.callbackMap[fd])
  {
  }

  lemma KeepsThen(b: State, b1: State, b2: State, x: seq<Action>, y: seq<Action>)
    requires Keeps(b, b1, x) && Keeps(b1, b2, y)
    ensures Keeps(b, b2, x + y)
  {
    forall fd | fd !in b.callbacksToRemove && !DeletedBy(x + y, fd)
      ensures !DeletedBy(x, fd) && !DeletedBy(y, fd)
    {
    }
  }

  lemma {:induction false} ActAllBrings(b: State, actions: seq<Action>, made: seq<(Fd, CallbackId)>)
    requires Holds(b, made)
    ensures Brings(b, ActAll(b, actions), made, actions)
    decreases |actions|
  {
    hide Holds, Keeps, Gains, Act;
    if actions == [] {
      SameBrings(b, b, made);
    } else {
      var b1, one := Act(b, actions[0]), [actions[0]];
      ActBrings(b, actions[0], made);
      ActAllBrings(b1, actions[1..], made + Registrations(one));
      BringsThen(b, b1, ActAll(b, actions), made, one, actions[1..]);
      assert actions == one + actions[1..];
    }
  }

  /** Between `b` and `b'` the bus did what its callbacks asked it to, and reported what they threw. */
  ghost predicate Obeys(b: State, b': State, made: seq<(Fd, CallbackId)>, beh: Behaviour) {
    && b.calls <= b'.calls
    && Brings(b, b', made, Performed(b'.calls, |b.calls|, beh))
    && b'.errors == b.errors + Thrown(b'.calls, |b.calls|, beh)
  }

  /** All registrations made by the time of `b'`. */
  function MadeBy(b: State, b': State, made: seq<(Fd, CallbackId)>, beh: Behaviour): seq<(Fd, CallbackId)>
    requires |b.calls| <= |b'.calls|
  {
    made + Registrations(Performed(b'.calls, |b.calls|, beh))
  }

  lemma ObeysThen(b: State, b1: State, b2: State, made: seq<(Fd, CallbackId)>, beh: Behaviour)
    requires Obeys(b, b1, made, beh) && Obeys(b1, b2, MadeBy(b, b1, made, beh), beh)
    ensures Obeys(b, b2, made, beh) && MadeBy(b, b2, made, beh) == MadeBy(b1, b2, MadeBy(b, b1, made, beh), beh)
  {
    hide Brings, Performed, Thrown, Registrations;
    var x, y := Performed(b1.calls, |b.calls|, beh), Performed(b2.calls, |b1.calls|, beh);
    CallsSplit(b1.calls, b2.calls, |b.calls|, beh);
    BringsThen(b, b1, b2, made, x, y);
    ActionsConcat(x, y);
    assert made + Registrations(x) + Registrations(y) == made + (Registrations(x) + Registrations(y));
  }

  lemma SameObeys(b: State, b': State, made: seq<(Fd, CallbackId)>, beh: Behaviour)
    requires Holds(b, made) && SameOrSwept(b, b') && b'.calls == b.calls && b'.errors == b.errors
    ensures Obeys(b, b', made, beh) && MadeBy(b, b', made, beh) == made
  {
    hide Brings, Holds;
    SameBrings(b, b', made);
    assert Performed(b'.calls, |b.calls|, beh) == [] && Registrations([]) == [];
    assert made + [] == made && b.calls <= b'.calls;
  }

  lemma InvokeObeys(b: State, r: Registration, e: Event, beh: Behaviour, made: seq<(Fd, CallbackId)>)
    requires Holds(b, made)
    ensures Obeys(b, Invoke(b, r, e, beh), made, beh)
  {
    hide Holds, Keeps, Gains, Act;
    if e.fd in b.callbacksToRemove {
      SameObeys(b, b, made, beh);
    } else {
      var call := Call(r, e);
      var called, reaction, b' := b.(calls := b.calls + [call]), beh(|b.calls|, call), Invoke(b, r, e, beh);
      SameHolds(b, called, made);
      ActAllBrings(called, reaction.actions, made);
      ActAllCallsNone(called, reaction.actions);
      ActAllErrorsNone(called, reaction.actions);
      SameView(b, called, ActAll(called, reaction.actions), b', made, reaction.actions);
      assert b'.calls == b.calls + [call] && reaction.actions + [] == reaction.actions;
      assert Performed(b'.calls, |b.calls| + 1, beh) == [] && Thrown(b'.calls, |b.calls| + 1, beh) == 0;
    }
  }

  lemma SameHolds(b: State, b': State, made: seq<(Fd, CallbackId)>)
    requires Holds(b, made) && b'.next == b.next && b'.callbackMap == b.callbackMap
    ensures Holds(b', made)
  {
  }

  lemma SameView(b: State, c: State, c': State, b': State, made: seq<(Fd, CallbackId)>, actions: seq<Action>)
    requires Brings(c, c', made, actions)
    requires c == b.(calls := c.calls) && b' == c'.(errors := b'.errors)
    ensures Brings(b, b', made, actions)
  {
    SameHolds(c', b', made + Registrations(actions));
  }

  lemma {:induction false} ActAllErrorsNone(b: State, actions: seq<Action>)
    ensures ActAll(b, actions).errors == b.errors
    decreases |actions|
  {
    if actions != [] {
      ActAllErrorsNone(Act(b, actions[0]), actions[1..]);
    }
  }

  lemma {:induction false} InvokeAllObeys(b: State, regs: seq<Registration>, e: Event, beh: Behaviour,
                                          made: seq<(Fd, CallbackId)>)
    requires Holds(b, made)
    ensures Obeys(b, InvokeAll(b, regs, e, beh), made, beh)
    decreases |regs|
  {
    hide Holds, Keeps, Gains, Invoke;
    if regs == [] {
      SameObeys(b, b, made, beh);
    } else {
      var b1 := Invoke(b, regs[0], e, beh);
      InvokeObeys(b, regs[0], e, beh, made);
      InvokeAllObeys(b1, regs[1..], e, beh, MadeBy(b, b1, made, beh));
      ObeysThen(b, b1, InvokeAll(b, regs, e, beh), made, beh);
    }
  }

  lemma DispatchObeys(b: State, e: Event, beh: Behaviour, made: seq<(Fd, CallbackId)>)
    requires Holds(b, made)
    ensures Obeys(b, Dispatch(b, e, beh), made, beh)
  {
    hide Holds, Keeps, Gains, InvokeAll;
    var b1 := b;
    if e.fd in b.callbackMap {
      b1 := InvokeAll(b, b.callbackMap[e.fd], e, beh);
      InvokeAllObeys(b, b.callbackMap[e.fd], e, beh, made);
    } else {
      SameObeys(b, b, made, beh);
    }
    SameObeys(b1, Dispatch(b, e, beh), MadeBy(b, b1, made, beh), beh);
    ObeysThen(b, b1, Dispatch(b, e, beh), made, beh);
  }

  lemma {:induction false} DispatchAllObeys(b: State, es: seq<Event>, beh: Behaviour, made: seq<(Fd, CallbackId)>)
    requires Holds(b, made)
    ensures Obeys(b, DispatchAll(b, es, beh), made, beh)
    decreases |es|
  {
    hide Holds, Keeps, Gains, Dispatch;
    if es == [] {
      SameObeys(b, b, made, beh);
    } else {
      var b1 := Dispatch(b, es[0], beh);
      DispatchObeys(b, es[0], beh, made);
      DispatchAllObeys(b1, es[1..], beh, MadeBy(b, b1, made, beh));
      ObeysThen(b, b1, DispatchAll(b, es, beh), made, beh);
    }
  }

  // ---------------------------------------------------------------- runs

  /** All actions performed in a run, from outside and by callbacks, in order. */
  function RunActions(b: State, ops: seq<Op>, beh: Behaviour): seq<Action>
    decreases |ops|
  {
    if ops == [] then []
    else
      var b1 := RunOp(b, ops[0], beh);
      (match ops[0]
       case Outside(a) => [a]
       case Wait(_) => if |b.calls| <= |b1.calls| then Performed(b1.calls, |b.calls|, beh) else [])
      + RunActions(b1, ops[1..], beh)
  }

  function FailedPolls(ops: seq<Op>): nat {
    if ops == [] then 0 else (if ops[0] == Wait(PollFailed) then 1 else 0) + FailedPolls(ops[1..])
  }

  lemma WaitObeys(b: State, es: seq<Event>, beh: Behaviour, made: seq<(Fd, CallbackId)>)
    requires Holds(b, made)
    ensures Obeys(b, WaitEvents(b, Polled(es), beh), made, beh)
  {
    hide Holds, Keeps, Gains, DispatchAll;
    var polled := DispatchAll(b, es, beh);
    DispatchAllObeys(b, es, beh, made);
    var made1 := MadeBy(b, polled, made, beh);
    SameObeys(polled, Swap(polled), made1, beh);
    DispatchAllObeys(Swap(polled), polled.events, beh, made1);
    ObeysThen(b, polled, Swap(polled), made, beh);
    ObeysThen(b, Swap(polled), WaitEvents(b, Polled(es), beh), made, beh);
  }

  lemma OpBrings(b: State, op: Op, beh: Behaviour, made: seq<(Fd, CallbackId)>) returns (actions: seq<Action>)
    requires Holds(b, made)
    ensures var b' := RunOp(b, op, beh);
            && b.calls <= b'.calls && Brings(b, b', made, actions)
            && b'.errors == b.errors + Thrown(b'.calls, |b.calls|, beh) + (if op == Wait(PollFailed) then 1 else 0)
            && actions == if op.Outside? then [op.action] else Performed(b'.calls, |b.calls|, beh)
  {
    hide Holds, Keeps, Gains, DispatchAll;
    match op
    case Outside(a) =>
      ActBrings(b, a, made);
      actions := [a];
    case Wait(poll) =>
      match poll {
        case PollFailed =>
          SameBrings(b, RunOp(b, op, beh), made);
          actions := [];
        case Polled(es) =>
          WaitObeys(b, es, beh, made);
          actions := Performed(RunOp(b, op, beh).calls, |b.calls|, beh);
      }
  }

  lemma NothingAccounted(b: State, made: seq<(Fd, CallbackId)>, beh: Behaviour)
    requires Holds(b, made)
    ensures b.queued == b.queued + Enqueued([]) && Holds(b, made + Registrations([])) && Keeps(b, b, [])
    ensures Gains(b, b, made + Registrations([]), [])
    ensures Thrown(b.calls, |b.calls|, beh) == 0
  {
    SameBrings(b, b, made);
  }

  /** Every run does what is asked of it: the events queued are the events of all Enqueue actions, in order; the
      map holds registrations that were made, each on the list of its own descriptor, once, and in order; those of
      descriptors nobody deleted, old and new, are all there; and each call that threw and each failed poll is
      reported once. */
  lemma {:induction false} RunIsAccounted(b: State, ops: seq<Op>, beh: Behaviour, made: seq<(Fd, CallbackId)>)
    requires Holds(b, made)
    ensures var end, actions := RunOps(b, ops, beh), RunActions(b, ops, beh);
            && b.calls <= end.calls
            && end.queued == b.queued + Enqueued(actions)
            && Holds(end, made + Registrations(actions))
            && Keeps(b, end, actions) && Gains(b, end, made + Registrations(actions), actions)
            && end.errors == b.errors + Thrown(end.calls, |b.calls|, beh) + FailedPolls(ops)
    decreases |ops|
  {
    hide Holds, Keeps, Gains, RunOp, Performed, Thrown, Registrations, Enqueued;
    if ops == [] {
      NothingAccounted(b, made, beh);
    } else {
      var b1, end := RunOp(b, ops[0], beh), RunOps(b, ops, beh);
      var first := OpBrings(b, ops[0], beh, made);
      RunIsAccounted(b1, ops[1..], beh, made + Registrations(first));
      BringsThen(b, b1, end, made, first, RunActions(b1, ops[1..], beh));
      CallsSplit(b1.calls, end.calls, |b.calls|, beh);
    }
  }

  /** From the empty bus: a registration is called for its own descriptor only, and twice for one event never. */
  lemma ListsAreRegistrations(ops: seq<Op>, beh: Behaviour)
    ensures Holds(RunOps(EMPTY, ops, beh), Registrations(RunActions(EMPTY, ops, beh)))
  {
    RunIsAccounted(EMPTY, ops, beh, []);
    assert [] + Registrations(RunActions(EMPTY, ops, beh)) == Registrations(RunActions(EMPTY, ops, beh));
  }

  /** In every run, the events that were on the queue and those of all Enqueue actions, in order, are the events the
      turns take off it, stretch by stretch, and those left on it; and what the turns take off is dispatched. */
  lemma EnqueuedIsDispatched(b: State, ops: seq<Op>, beh: Behaviour, made: seq<(Fd, CallbackId)>)
    returns (snapshots: seq<seq<Event>>)
    requires Holds(b, made) && b.queued == b.drained + b.events
    ensures |snapshots| == |ops|
    ensures var end := RunOps(b, ops, beh);
            && b.events + Enqueued(RunActions(b, ops, beh)) == Flatten(snapshots) + end.events
            && end.dispatched == b.dispatched + InTurns(ops, snapshots)
  {
    hide RunOps, RunActions, InTurns, Holds, Keeps;
    snapshots := QueueIsFifo(b, ops, beh);
    RunIsAccounted(b, ops, beh, made);
    var end, enqueued := RunOps(b, ops, beh), Enqueued(RunActions(b, ops, beh));
    assert b.drained + b.events + enqueued == b.drained + (b.events + enqueued);
    assert b.drained + Flatten(snapshots) + end.events == b.drained + (Flatten(snapshots) + end.events);
    assert b.drained + (b.events + enqueued) == b.drained + (Flatten(snapshots) + end.events);
    Cancel(b.drained, b.events + enqueued, Flatten(snapshots) + end.events);
  }

  lemma Cancel(p: seq<Event>, a: seq<Event>, b: seq<Event>)
    requires p + a == p + b
    ensures a == b
  {
    assert a == (p + a)[|p|..] && b == (p + b)[|p|..];
  }

  /** A descriptor that is added is listed from then on, with or without a callback, and no other is touched. */
  lemma AddedIsListed(b: State, fd: Fd, callback: Option<CallbackId>, other: Fd)
    ensures var b' := Act(b, AddFd(fd, callback));
            && fd in b'.callbackMap
            && (callback.None? ==> Registrations([AddFd(fd, callback)]) == [] && b'.next == b.next)
            && (other in b'.callbackMap <==> other in b.callbackMap || other == fd)
            && (other in b.callbackMap && (other != fd || callback.None?) ==>
                  b'.callbackMap[other] == b.callbackMap[other])
  {
    OneAction(AddFd(fd, callback));
  }

  // ---------------------------------------------------------------- one dispatch

  lemma {:induction false} ActAllEnqueues(b: State, actions: seq<Action>, event: Event)
    requires Enqueue(event) in actions
    ensures event in ActAll(b, actions).events
    decreases |actions|
  {
    var b1 := Act(b, actions[0]);
    ActAllGrows(b1, actions[1..]);
    if actions[0] == Enqueue(event) {
      assert b1.events[|b.events|] == event;
      assert ActAll(b, actions).events[|b.events|] == event;
    } else {
      ActAllEnqueues(b1, actions[1..], event);
    }
  }

  /** What the callback at `k` queues is on the queue when its event has been dispatched. */
  lemma ReactionReachesQueue(b: State, e: Event, k: nat, beh: Behaviour, event: Event)
    requires e.fd in b.callbackMap && k < |b.callbackMap[e.fd]|
    requires e.fd !in Called(b, e, k, beh).callbacksToRemove
    requires Enqueue(event) in ReactionAt(b, e, k, beh).actions
    ensures event in Dispatch(b, e, beh).events
  {
    var regs, called, reaction := b.callbackMap[e.fd], Called(b, e, k, beh), ReactionAt(b, e, k, beh);
    var own := Invoke(InvokeAll(b, regs[..k], e, beh), regs[k], e, beh);
    ActAllEnqueues(called, reaction.actions, event);
    assert regs == regs[..k] + regs[k..] && regs[k..][0] == regs[k] && regs[k..][1..] == regs[k + 1..];
    InvokeAllSplit(b, regs[..k], regs[k..], e, beh);
    InvokeAllGrows(own, regs[k + 1..], e, beh);
    var i :| 0 <= i < |own.events| && own.events[i] == event;
    assert InvokeAll(own, regs[k + 1..], e, beh).events[i] == event;
  }
}
