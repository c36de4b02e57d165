/** A session on the bus: one callback on each of its descriptors that, on an error event, removes the
    callbacks of all of them (src/io/session_base.cpp). */
module Sessions {
  import opened Common
  import opened Buses
  import opened BusSafety
  import opened BusHistory

  /** The session's callback, and the descriptors it answers for. */
  datatype Session = Session(callback: CallbackId, fds: seq<Fd>)

  function Removals(fds: seq<Fd>): seq<Action> {
    seq(|fds|, k requires 0 <= k < |fds| => DelFdCallbacks(fds[k]))
  }

  /** The lambda that `start` installs. */
  function OnEvent(s: Session, flags: Flags): Reaction {
    Reaction(if flags.error then Removals(s.fds) else [], false)
  }

  predicate Deletes(a: Action, s: Session) {
    (a.DelFd? || a.DelFdCallbacks?) && a.fd in s.fds
  }

  /** The session's callback does what it does. */
  ghost predicate OwnBehaves(beh: Behaviour, s: Session) {
    forall k: nat, call: Call | call.registration.callback == s.callback ::
      beh(k, call) == OnEvent(s, call.event.flags)
  }

  /** Moreover no other callback deletes the session's descriptors. */
  ghost predicate Respects(beh: Behaviour, s: Session) {
    && OwnBehaves(beh, s)
    && forall k: nat, call: Call, a | call.registration.callback != s.callback && a in beh(k, call).actions ::
         !Deletes(a, s)
  }

  function Start(b: State, s: Session, fds: seq<Fd>): State
    decreases |fds|
  {
    if fds == [] then b else Start(Act(b, AddFd(fds[0], Some(s.callback))), s, fds[1..])
  }

  class SessionBase {
    const bus: Bus
    const session: Session

    constructor (bus: Bus, session: Session)
      ensures this.bus == bus && this.session == session
    {
      this.bus := bus;
      this.session := session;
    }

    /** Registers the callback on every descriptor of the session. */
    method StartSession()
      modifies bus
      ensures bus.Value() == Start(old(bus.Value()), session, session.fds)
    {
      var fds := session.fds;
      for k := 0 to |fds|
        invariant Start(old(bus.Value()), session, fds) == Start(bus.Value(), session, fds[k..])
      {
        bus.AddFd(fds[k], Some(session.callback));
        assert fds[k..][1..] == fds[k + 1..];
      }
    }
  }

  /** Starting a session makes one registration for each of its descriptors, in order, and does nothing else. */
  lemma {:induction false} StartRegistersOnce(b: State, s: Session, fds: seq<Fd>, made: seq<(Fd, CallbackId)>)
    requires Holds(b, made)
    ensures var b' := Start(b, s, fds);
            && Holds(b', made + seq(|fds|, k requires 0 <= k < |fds| => (fds[k], s.callback)))
            && b' == b.(callbackMap := b'.callbackMap, next := b.next + |fds|)
    decreases |fds|
  {
    hide Holds;
    var all := seq(|fds|, k requires 0 <= k < |fds| => (fds[k], s.callback));
    if fds == [] {
      assert made + all == made;
    } else {
      RegistrationHolds(b, fds[0], s.callback, made);
      var one := made + [(fds[0], s.callback)];
      StartRegistersOnce(Act(b, AddFd(fds[0], Some(s.callback))), s, fds[1..], one);
      assert made + all == one + seq(|fds| - 1, k requires 0 <= k < |fds| - 1 => (fds[1..][k], s.callback));
    }
  }

  // ---------------------------------------------------------------- all or nothing

  predicate Listens(b: State, s: Session, fd: Fd) {
    fd in b.callbackMap && exists k :: 0 <= k < |b.callbackMap[fd]| && b.callbackMap[fd][k].callback == s.callback
  }

  /** The session hears every event on its descriptors. */
  predicate Up(b: State, s: Session) {
    forall fd :: fd in s.fds ==> Listens(b, s, fd) && fd !in b.callbacksToRemove
  }

  /** None of the callbacks registered before token `limit` for any of its descriptors will be called again. */
  predicate Down(b: State, s: Session, limit: nat) {
    forall fd :: fd in s.fds ==> Gone(b, fd, limit)
  }

  predicate UpOrDown(b: State, s: Session, limit: nat) {
    limit <= b.next && (Up(b, s) || Down(b, s, limit))
  }

  lemma GoneStays(b: State, a: Action, fd: Fd, limit: nat)
    requires Gone(b, fd, limit) && limit <= b.next
    ensures Gone(Act(b, a), fd, limit) && limit <= Act(b, a).next
  {
  }

  lemma {:induction false} DownStays(b: State, actions: seq<Action>, s: Session, limit: nat)
    requires Down(b, s, limit) && limit <= b.next
    ensures Down(ActAll(b, actions), s, limit) && limit <= ActAll(b, actions).next
    decreases |actions|
  {
    if actions != [] {
      forall fd | fd in s.fds
        ensures Gone(Act(b, actions[0]), fd, limit)
      {
        GoneStays(b, actions[0], fd, limit);
      }
      assert limit <= Act(b, actions[0]).next;
      DownStays(Act(b, actions[0]), actions[1..], s, limit);
    }
  }

  lemma ListensStays(b: State, a: Action, s: Session, fd: Fd)
    requires Listens(b, s, fd)
    ensures Listens(Act(b, a), s, fd)
  {
    var k :| 0 <= k < |b.callbackMap[fd]| && b.callbackMap[fd][k].callback == s.callback;
    assert Act(b, a).callbackMap[fd][k].callback == s.callback;
  }

  lemma {:induction false} UpStays(b: State, actions: seq<Action>, s: Session)
    requires Up(b, s) && forall a :: a in actions ==> !Deletes(a, s)
    ensures Up(ActAll(b, actions), s) && b.next <= ActAll(b, actions).next
    decreases |actions|
  {
    if actions != [] {
      forall fd | fd in s.fds
        ensures Listens(Act(b, actions[0]), s, fd) && fd !in Act(b, actions[0]).callbacksToRemove
      {
        ListensStays(b, actions[0], s, fd);
        assert !Deletes(actions[0], s);
      }
      UpStays(Act(b, actions[0]), actions[1..], s);
    }
  }

  lemma {:induction false} RemovalsMark(b: State, fds: seq<Fd>)
    ensures var b' := ActAll(b, Removals(fds));
            && (forall fd :: fd in fds ==> fd in b'.callbacksToRemove) && b.callbacksToRemove <= b'.callbacksToRemove
            && b'.next == b.next
    decreases |fds|
  {
    if fds != [] {
      assert Removals(fds)[1..] == Removals(fds[1..]);
      RemovalsMark(Act(b, DelFdCallbacks(fds[0])), fds[1..]);
    }
  }

  /** One callback's turn leaves the session up or takes it down as a whole. */
  lemma InvokeUpOrDown(b: State, r: Registration, e: Event, beh: Behaviour, s: Session, limit: nat)
    requires Respects(beh, s) && UpOrDown(b, s, limit)
    ensures UpOrDown(Invoke(b, r, e, beh), s, limit)
    ensures Down(b, s, limit) ==> Down(Invoke(b, r, e, beh), s, limit)
    ensures e.fd in s.fds && e.flags.error && r.callback == s.callback ==> Down(Invoke(b, r, e, beh), s, limit)
  {
    if e.fd !in b.callbacksToRemove {
      var call := Call(r, e);
      var b1, actions := b.(calls := b.calls + [call]), beh(|b.calls|, call).actions;
      if Down(b, s, limit) {
        DownStays(b1, actions, s, limit);
      }
      if r.callback == s.callback && e.flags.error {
        RemovalsMark(b1, s.fds);
      } else if Up(b, s) {
        UpStays(b1, actions, s);
      }
    }
  }

  lemma {:induction false} InvokeAllUpOrDown(b: State, regs: seq<Registration>, e: Event, beh: Behaviour,
                                             s: Session, limit: nat)
    requires Respects(beh, s) && UpOrDown(b, s, limit)
    ensures UpOrDown(InvokeAll(b, regs, e, beh), s, limit)
    ensures Down(b, s, limit) ==> Down(InvokeAll(b, regs, e, beh), s, limit)
    ensures e.fd in s.fds && e.flags.error && (exists k :: 0 <= k < |regs| && regs[k].callback == s.callback) ==>
              Down(InvokeAll(b, regs, e, beh), s, limit)
    decreases |regs|
  {
    if regs != [] {
      InvokeUpOrDown(b, regs[0], e, beh, s, limit);
      InvokeAllUpOrDown(Invoke(b, regs[0], e, beh), regs[1..], e, beh, s, limit);
      forall k | 0 <= k < |regs| && regs[k].callback == s.callback
        ensures k == 0 || regs[1..][k - 1].callback == s.callback
      {
      }
    }
  }

  lemma SweepUpOrDown(b: State, s: Session, limit: nat)
    requires UpOrDown(b, s, limit)
    ensures UpOrDown(Sweep(b), s, limit) && (Down(b, s, limit) ==> Down(Sweep(b), s, limit))
  {
    if Up(b, s) {
      forall fd | fd in s.fds
        ensures Listens(Sweep(b), s, fd)
      {
        assert Listens(b, s, fd) && Sweep(b).callbackMap[fd] == b.callbackMap[fd];
      }
    }
  }

  /** A dispatch leaves the session up or down as a whole; an error event on any of its descriptors leaves it
      down, no matter which other callbacks ran first, acted on the bus, or threw. */
  lemma DispatchUpOrDown(b: State, e: Event, beh: Behaviour, s: Session, limit: nat)
    requires Respects(beh, s) && UpOrDown(b, s, limit)
    ensures UpOrDown(Dispatch(b, e, beh), s, limit)
    ensures Down(b, s, limit) || (e.fd in s.fds && e.flags.error) ==> Down(Dispatch(b, e, beh), s, limit)
  {
    var b' := b;
    if e.fd in b.callbackMap {
      InvokeAllUpOrDown(b, b.callbackMap[e.fd], e, beh, s, limit);
      b' := InvokeAll(b, b.callbackMap[e.fd], e, beh);
    }
    if e.fd in s.fds && Up(b, s) {
      assert Listens(b, s, e.fd);
    }
    SweepUpOrDown(b'.(dispatched := b.dispatched + [e]), s, limit);
  }

  lemma {:induction false} DispatchAllUpOrDown(b: State, es: seq<Event>, beh: Behaviour, s: Session, limit: nat)
    requires Respects(beh, s) && UpOrDown(b, s, limit)
    ensures UpOrDown(DispatchAll(b, es, beh), s, limit)
    ensures Down(b, s, limit) || (exists k :: 0 <= k < |es| && es[k].fd in s.fds && es[k].flags.error) ==>
              Down(DispatchAll(b, es, beh), s, limit)
    decreases |es|
  {
    if es != [] {
      DispatchUpOrDown(b, es[0], beh, s, limit);
      DispatchAllUpOrDown(Dispatch(b, es[0], beh), es[1..], beh, s, limit);
      forall k | 0 <= k < |es| && es[k].fd in s.fds && es[k].flags.error
        ensures k == 0 || (es[1..][k - 1].fd in s.fds && es[1..][k - 1].flags.error)
      {
      }
    }
  }

  lemma StartIsUp(b: State, s: Session)
    requires forall fd :: fd in s.fds ==> fd !in b.callbacksToRemove
    ensures Up(Start(b, s, s.fds), s)
  {
    StartListens(b, s, s.fds);
  }

  lemma {:induction false} StartListens(b: State, s: Session, fds: seq<Fd>)
    ensures var b' := Start(b, s, fds);
            && b'.callbacksToRemove == b.callbacksToRemove && b.next <= b'.next
            && (forall fd :: fd in fds || Listens(b, s, fd) ==> Listens(b', s, fd))
    decreases |fds|
  {
    if fds != [] {
      var a := AddFd(fds[0], Some(s.callback));
      var b1 := Act(b, a);
      assert b1.callbackMap[fds[0]][|b1.callbackMap[fds[0]]| - 1].callback == s.callback;
      forall fd | Listens(b, s, fd)
        ensures Listens(b1, s, fd)
      {
        ListensStays(b, a, s, fd);
      }
      StartListens(b1, s, fds[1..]);
    }
  }

  // ---------------------------------------------------------------- the end of a session

  /** The session's callback is the one at `k` in the list of the event's descriptor. */
  predicate OwnAt(b: State, e: Event, s: Session, k: nat) {
    e.fd in b.callbackMap && k < |b.callbackMap[e.fd]| && b.callbackMap[e.fd][k].callback == s.callback
  }

  /** The bus once the callbacks ahead of the one at `k` have had their turn. */
  function Ahead(b: State, e: Event, s: Session, k: nat, beh: Behaviour): State
    requires OwnAt(b, e, s, k)
  {
    InvokeAll(b, b.callbackMap[e.fd][..k], e, beh)
  }

  /** The session's callback gets its turn unless a callback ahead of it has deleted the descriptor; if it does
      and there is an error, every descriptor of the session is marked. */
  lemma OwnTurn(b: State, e: Event, beh: Behaviour, s: Session, k: nat)
    requires OwnBehaves(beh, s) && e.flags.error && OwnAt(b, e, s, k)
    ensures var regs, ahead := b.callbackMap[e.fd], Ahead(b, e, s, k, beh);
            var all := InvokeAll(b, regs, e, beh);
            if e.fd in ahead.callbacksToRemove then all == ahead
            else
              && (forall fd :: fd in s.fds ==> fd in all.callbacksToRemove)
              && (e.fd in s.fds ==> all.calls == ahead.calls + [Call(regs[k], e)])
  {
    var regs, ahead := b.callbackMap[e.fd], Ahead(b, e, s, k, beh);
    assert regs == regs[..k] + regs[k..] && regs[k..][0] == regs[k] && regs[k..][1..] == regs[k + 1..];
    InvokeAllSplit(b, regs[..k], regs[k..], e, beh);
    if e.fd in ahead.callbacksToRemove {
      MarkedCallsNone(ahead, regs[k..], e, beh);
    } else {
      var own := Invoke(ahead, regs[k], e, beh);
      var called := ahead.(calls := ahead.calls + [Call(regs[k], e)]);
      RemovalsMark(called, s.fds);
      ActAllCallsNone(called, Removals(s.fds));
      MarksStay(own, regs[k + 1..], e, beh);
      if e.fd in s.fds {
        MarkedCallsNone(own, regs[k + 1..], e, beh);
      }
    }
  }

  /** When a session ends whole: an error event on a descriptor its callback is registered for takes all its
      descriptors off the bus if and only if no callback ahead of the session's own has deleted the event's
      descriptor, or those callbacks have themselves dealt with every descriptor of the session. */
  lemma EndsWholeExactly(b: State, e: Event, beh: Behaviour, s: Session, k: nat)
    requires OwnBehaves(beh, s) && e.flags.error && OwnAt(b, e, s, k)
    ensures var ahead := Ahead(b, e, s, k, beh);
            (forall fd :: fd in s.fds ==> fd !in Dispatch(b, e, beh).callbackMap) <==>
              || e.fd !in ahead.callbacksToRemove
              || forall fd :: fd in s.fds ==> fd in ahead.callbacksToRemove || fd !in ahead.callbackMap
  {
    OwnTurn(b, e, beh, s, k);
  }

  /** An error event that reaches the session's callback ends the session from that dispatch on: the callback is
      the last one called for it, and none registered for any of the session's descriptors by then is ever
      called again, neither by the events still to be dispatched in the same turn nor in any later run; only a
      new registration is. For an event that was polled, the rest of the turn is the first of `ops`. */
  lemma ErrorEndsSession(b: State, e: Event, beh: Behaviour, s: Session, k: nat, later: seq<Event>, ops: seq<Op>,
                         fd: Fd)
    requires OwnBehaves(beh, s) && Registered(b) && e.fd in s.fds && fd in s.fds && e.flags.error
    requires OwnAt(b, e, s, k) && e.fd !in Ahead(b, e, s, k, beh).callbacksToRemove
    ensures var after := Dispatch(b, e, beh);
            && after.calls == Ahead(b, e, s, k, beh).calls + [Call(b.callbackMap[e.fd][k], e)]
            && fd !in after.callbackMap
            && NotCalled(RunOps(DispatchAll(after, later, beh), ops, beh), fd, after.next, |after.calls|)
  {
    var after := Dispatch(b, e, beh);
    OwnTurn(b, e, beh, s, k);
    DispatchBuried(b, e, beh, fd, 0, 0);
    DispatchAllBuried(after, later, beh, fd, after.next, |after.calls|);
    RunOpsBuried(DispatchAll(after, later, beh), ops, beh, fd, after.next, |after.calls|);
  }

  /** If the session is up and other callbacks keep off its descriptors, every error event on one of them does. */
  lemma UpIsReached(b: State, e: Event, beh: Behaviour, s: Session) returns (k: nat)
    requires Respects(beh, s) && Up(b, s) && e.fd in s.fds
    ensures OwnAt(b, e, s, k) && e.fd !in Ahead(b, e, s, k, beh).callbacksToRemove
  {
    assert Listens(b, s, e.fd);
    k := FirstOwn(b.callbackMap[e.fd], s);
    StaysUp(b, b.callbackMap[e.fd][..k], e, beh, s);
  }

  lemma {:induction false} FirstOwn(regs: seq<Registration>, s: Session) returns (k: nat)
    requires exists j :: 0 <= j < |regs| && regs[j].callback == s.callback
    ensures k < |regs| && regs[k].callback == s.callback
    ensures forall j :: 0 <= j < k ==> regs[j].callback != s.callback
    decreases |regs|
  {
    if regs[0].callback == s.callback {
      k := 0;
    } else {
      var j :| 0 <= j < |regs| && regs[j].callback == s.callback;
      assert regs[1..][j - 1].callback == s.callback;
      k := FirstOwn(regs[1..], s);
      k := k + 1;
    }
  }

  lemma {:induction false} StaysUp(b: State, regs: seq<Registration>, e: Event, beh: Behaviour, s: Session)
    requires Respects(beh, s) && Up(b, s)
    requires e.flags.error ==> forall j :: 0 <= j < |regs| ==> regs[j].callback != s.callback
    ensures Up(InvokeAll(b, regs, e, beh), s)
    decreases |regs|
  {
    if regs != [] {
      if e.fd !in b.callbacksToRemove {
        var call := Call(regs[0], e);
        var b1 := b.(calls := b.calls + [call]);
        assert forall fd :: Listens(b, s, fd) ==> Listens(b1, s, fd);
        UpStays(b1, beh(|b.calls|, call).actions, s);
      }
      StaysUp(Invoke(b, regs[0], e, beh), regs[1..], e, beh, s);
    }
  }

  /** So a session that is up ends with the first error event dispatched on any of its descriptors. */
  lemma ErrorEndsUpSession(b: State, e: Event, beh: Behaviour, s: Session, later: seq<Event>, ops: seq<Op>, fd: Fd)
    requires Respects(beh, s) && Up(b, s) && Registered(b) && e.fd in s.fds && fd in s.fds && e.flags.error
    ensures var after := Dispatch(b, e, beh);
            && Down(after, s, after.next)
            && NotCalled(RunOps(DispatchAll(after, later, beh), ops, beh), fd, after.next, |after.calls|)
  {
    var k := UpIsReached(b, e, beh, s);
    forall fd' | fd' in s.fds
      ensures fd' !in Dispatch(b, e, beh).callbackMap
    {
      ErrorEndsSession(b, e, beh, s, k, later, ops, fd');
    }
    ErrorEndsSession(b, e, beh, s, k, later, ops, fd);
  }

  /** Starting a session lasts exactly if none of its descriptors still awaits removal: the next event dispatched,
      if it is not an error, leaves the session's callback on all of them, and otherwise takes every callback off
      those that did await it. */
  lemma StartPutsUp(b: State, s: Session, e: Event, beh: Behaviour)
    requires Respects(beh, s) && !e.flags.error
    ensures var after := Dispatch(Start(b, s, s.fds), e, beh);
            && ((forall fd :: fd in s.fds ==> Listens(after, s, fd)) <==>
                  forall fd :: fd in s.fds ==> fd !in b.callbacksToRemove)
            && (forall fd :: fd in s.fds && fd in b.callbacksToRemove ==> fd !in after.callbackMap)
            && ((forall fd :: fd in s.fds ==> fd !in b.callbacksToRemove) ==> Up(after, s))
  {
    var started := Start(b, s, s.fds);
    var before := started;
    if e.fd in started.callbackMap {
      before := InvokeAll(started, started.callbackMap[e.fd], e, beh);
    }
    StartListens(b, s, s.fds);
    if forall fd :: fd in s.fds ==> fd !in b.callbacksToRemove {
      StartIsUp(b, s);
      if e.fd in started.callbackMap {
        StaysUp(started, started.callbackMap[e.fd], e, beh, s);
      }
      SweepKeepsUp(before.(dispatched := b.dispatched + [e]), s);
    } else if e.fd in started.callbackMap {
      MarksStay(started, started.callbackMap[e.fd], e, beh);
    }
  }

  lemma SweepKeepsUp(b: State, s: Session)
    requires Up(b, s)
    ensures Up(Sweep(b), s)
  {
    SweepUpOrDown(b, s, 0);
    forall fd | fd in s.fds
      ensures Listens(Sweep(b), s, fd)
    {
      assert Listens(b, s, fd) && Sweep(b).callbackMap[fd] == b.callbackMap[fd];
    }
  }

  lemma {:induction false} DispatchAllSplit(b: State, xs: seq<Event>, ys: seq<Event>, beh: Behaviour)
    ensures DispatchAll(b, xs + ys, beh) == DispatchAll(DispatchAll(b, xs, beh), ys, beh)
    decreases |xs|
  {
    if xs == [] {
      assert xs + ys == ys;
    } else {
      assert (xs + ys)[1..] == xs[1..] + ys;
      DispatchAllSplit(Dispatch(b, xs[0], beh), xs[1..], ys, beh);
    }
  }

  /** The bus just after the event at `j` of `es` has been dispatched. */
  function AfterEvent(b: State, es: seq<Event>, j: nat, beh: Behaviour): State
    requires j < |es|
  {
    Dispatch(DispatchAll(b, es[..j], beh), es[j], beh)
  }

  /** An error event in the middle of a list of events: the session is down from its dispatch on. */
  lemma ErrorBuries(b: State, es: seq<Event>, j: nat, beh: Behaviour, s: Session, limit: nat, fd: Fd)
    requires Respects(beh, s) && UpOrDown(b, s, limit) && Registered(b)
    requires j < |es| && es[j].fd in s.fds && es[j].flags.error && fd in s.fds
    ensures var after := AfterEvent(b, es, j, beh);
            Down(after, s, limit) && Buried(DispatchAll(b, es, beh), fd, limit, |after.calls|)
  {
    var before, after := DispatchAll(b, es[..j], beh), AfterEvent(b, es, j, beh);
    DispatchAllUpOrDown(b, es[..j], beh, s, limit);
    DispatchUpOrDown(before, es[j], beh, s, limit);
    assert es == es[..j] + es[j..] && es[j..][1..] == es[j + 1..];
    DispatchAllSplit(b, es[..j], es[j..], beh);
    DispatchAllBuried(b, es[..j], beh, fd, 0, 0);
    DispatchBuried(before, es[j], beh, fd, 0, 0);
    DispatchAllBuried(after, es[j + 1..], beh, fd, limit, |after.calls|);
  }

  /** An error event that the poll yields for one of a session's descriptors ends the session: from its dispatch
      on, the rest of the turn included, none of the callbacks its descriptors had is ever called. */
  lemma PolledErrorEndsSession(b: State, es: seq<Event>, j: nat, beh: Behaviour, s: Session, ops: seq<Op>, fd: Fd)
    requires Respects(beh, s) && Up(b, s) && Registered(b)
    requires j < |es| && es[j].fd in s.fds && es[j].flags.error && fd in s.fds
    ensures var after := AfterEvent(b, es, j, beh);
            && Down(after, s, b.next)
            && NotCalled(RunOps(WaitEvents(b, Polled(es), beh), ops, beh), fd, b.next, |after.calls|)
  {
    var after, polled := AfterEvent(b, es, j, beh), DispatchAll(b, es, beh);
    ErrorBuries(b, es, j, beh, s, b.next, fd);
    DispatchAllBuried(Swap(polled), polled.events, beh, fd, b.next, |after.calls|);
    RunOpsBuried(WaitEvents(b, Polled(es), beh), ops, beh, fd, b.next, |after.calls|);
  }

  /** So does an error event on the queue when it is swapped out. A Terminate message and a failed read queue
      theirs while the polled events are dispatched, so it is dispatched in the same turn; from then on, the
      events queued behind it included, none of those callbacks is ever called. */
  lemma QueuedErrorEndsSession(b: State, es: seq<Event>, j: nat, beh: Behaviour, s: Session, ops: seq<Op>, fd: Fd)
    requires Respects(beh, s) && Up(b, s) && Registered(b) && fd in s.fds
    requires var queue := DispatchAll(b, es, beh).events;
             j < |queue| && queue[j].fd in s.fds && queue[j].flags.error
    ensures var polled := DispatchAll(b, es, beh);
            var after := AfterEvent(Swap(polled), polled.events, j, beh);
            && Down(after, s, b.next)
            && NotCalled(RunOps(WaitEvents(b, Polled(es), beh), ops, beh), fd, b.next, |after.calls|)
  {
    var polled := DispatchAll(b, es, beh);
    DispatchAllUpOrDown(b, es, beh, s, b.next);
    DispatchAllBuried(b, es, beh, fd, 0, 0);
    SwapUpOrDown(polled, s, b.next);
    ErrorBuries(Swap(polled), polled.events, j, beh, s, b.next, fd);
    var after := AfterEvent(Swap(polled), polled.events, j, beh);
    RunOpsBuried(WaitEvents(b, Polled(es), beh), ops, beh, fd, b.next, |after.calls|);
  }

  /** In particular: if a callback that is called for the `i`-th polled event reacts by queueing an error event for
      a descriptor of a session, that event is on the queue at the swap, and the session ends within the turn. */
  lemma ReactionEndsSession(b: State, es: seq<Event>, i: nat, k: nat, beh: Behaviour, s: Session, ops: seq<Op>, fd: Fd,
                            error: Event) returns (j: nat)
    requires Respects(beh, s) && Up(b, s) && Registered(b) && fd in s.fds
    requires i < |es| && error.fd in s.fds && error.flags.error
    requires var before := DispatchAll(b, es[..i], beh);
             && es[i].fd in before.callbackMap && k < |before.callbackMap[es[i].fd]|
             && es[i].fd !in Called(before, es[i], k, beh).callbacksToRemove
             && Enqueue(error) in ReactionAt(before, es[i], k, beh).actions
    ensures var polled := DispatchAll(b, es, beh);
            && j < |polled.events| && polled.events[j] == error
            && var after := AfterEvent(Swap(polled), polled.events, j, beh);
            && Down(after, s, b.next)
            && NotCalled(RunOps(WaitEvents(b, Polled(es), beh), ops, beh), fd, b.next, |after.calls|)
  {
    var after := AfterEvent(b, es, i, beh);
    ReactionReachesQueue(DispatchAll(b, es[..i], beh), es[i], k, beh, error);
    j :| 0 <= j < |after.events| && after.events[j] == error;
    assert es == es[..i] + es[i..] && es[i..][1..] == es[i + 1..];
    DispatchAllSplit(b, es[..i], es[i..], beh);
    DispatchAllGrows(after, es[i + 1..], beh);
    QueuedErrorEndsSession(b, es, j, beh, s, ops, fd);
  }

  lemma SwapUpOrDown(b: State, s: Session, limit: nat)
    requires UpOrDown(b, s, limit)
    ensures UpOrDown(Swap(b), s, limit)
  {
    assert forall fd :: Listens(b, s, fd) ==> Listens(Swap(b), s, fd);
  }

  /** That a session can end by halves: if a callback ahead of the session's own deletes the descriptor an error
      arrives on, the session's callback is skipped and its other descriptors live on. */
  lemma DeleteAheadEndsHalf(b: State, e: Event, beh: Behaviour, s: Session, ahead: Registration, fd: Fd)
    requires Up(b, s) && b.callbacksToRemove == {} && e.fd in s.fds && fd in s.fds && fd != e.fd
    requires b.callbackMap[e.fd] == [ahead, Registration(ahead.token + 1, s.callback)]
    requires beh(|b.calls|, Call(ahead, e)) == Reaction([DelFd(e.fd)], false)
    ensures var after := Dispatch(b, e, beh);
            && after.calls == b.calls + [Call(ahead, e)]
            && e.fd !in after.callbackMap && Listens(after, s, fd) && fd !in after.callbacksToRemove
  {
    var own := Registration(ahead.token + 1, s.callback);
    var regs, b1 := b.callbackMap[e.fd], Invoke(b, ahead, e, beh);
    var one: seq<Action> := [DelFd(e.fd)];
    var called := b.(calls := b.calls + [Call(ahead, e)]);
    assert one[1..] == [] && ActAll(called, one) == ActAll(Act(called, one[0]), []) == Act(called, one[0]);
    assert b1 == Act(called, one[0]);
    assert regs[1..] == [own] && [own][1..] == [];
    assert InvokeAll(b, regs, e, beh) == InvokeAll(b1, [own], e, beh) == InvokeAll(b1, [], e, beh) == b1;
    assert Listens(b, s, fd);
    assert Dispatch(b, e, beh).callbackMap[fd] == b.callbackMap[fd];
  }
}
