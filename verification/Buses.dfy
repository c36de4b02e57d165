/** The reactor's bus: callbacks per descriptor, deferred removal, and an event queue that is drained by
    snapshot (src/io/bus.hpp, src/io/bus.cpp). Callbacks act on the bus while it dispatches to them; what they
    do is given by an arbitrary function. */
module Buses {
  import opened Common

  type Fd = int
  type CallbackId = nat

  datatype Flags = Flags(input: bool, output: bool, error: bool)

  datatype Event = Event(fd: Fd, flags: Flags)

  /** A callback as entered in the map. The token tells apart registrations of the same callback; the program
      has no use for it. */
  datatype Registration = Registration(token: nat, callback: CallbackId)

  /** What a callback, or code outside the dispatch, may do to the bus. */
  datatype Action =
    | AddFd(fd: Fd, callback: Option<CallbackId>)
    | DelFd(fd: Fd)
    | DelFdCallbacks(fd: Fd)
    | Enqueue(event: Event)

  /** One invocation of a callback. */
  datatype Call = Call(registration: Registration, event: Event)

  /** What a callback does when invoked, and whether it ends with an exception. */
  datatype Reaction = Reaction(actions: seq<Action>, threw: bool)

  /** The reactions of all callbacks over a run: to the k-th invocation, given who is called with what. */
  type Behaviour = (nat, Call) -> Reaction

  /** The fields of the bus, the next free token, and the history: callbacks invoked, errors reported, events
      queued, events taken off the queue, and all events dispatched. */
  datatype State = State(
    callbackMap: map<Fd, seq<Registration>>, callbacksToRemove: set<Fd>, events: seq<Event>,
    next: nat, calls: seq<Call>, errors: nat, queued: seq<Event>, drained: seq<Event>, dispatched: seq<Event>)

  const EMPTY := State(map[], {}, [], 0, [], 0, [], [], [])

  function Act(b: State, a: Action): State {
    match a
    case AddFd(fd, callback) =>
      var regs := if fd in b.callbackMap then b.callbackMap[fd] else [];
      (match callback
       case None => b.(callbackMap := b.callbackMap[fd := regs])
       case Some(c) => b.(callbackMap := b.callbackMap[fd := regs + [Registration(b.next, c)]], next := b.next + 1))
    case DelFd(fd) => b.(callbacksToRemove := b.callbacksToRemove + {fd})
    case DelFdCallbacks(fd) => b.(callbacksToRemove := b.callbacksToRemove + {fd})
    case Enqueue(event) => b.(events := b.events + [event], queued := b.queued + [event])
  }

  function ActAll(b: State, actions: seq<Action>): State
    decreases |actions|
  {
    if actions == [] then b else ActAll(Act(b, actions[0]), actions[1..])
  }

  /** One callback's turn: it is skipped once its descriptor is marked for removal. */
  function Invoke(b: State, r: Registration, e: Event, beh: Behaviour): State {
    if e.fd in b.callbacksToRemove then b
    else
      var call := Call(r, e);
      var reaction := beh(|b.calls|, call);
      var b' := ActAll(b.(calls := b.calls + [call]), reaction.actions);
      if reaction.threw then b'.(errors := b'.errors + 1) else b'
  }

  function InvokeAll(b: State, regs: seq<Registration>, e: Event, beh: Behaviour): State
    decreases |regs|
  {
    if regs == [] then b else InvokeAll(Invoke(b, regs[0], e, beh), regs[1..], e, beh)
  }

  function Sweep(b: State): State {
    b.(callbackMap := b.callbackMap - b.callbacksToRemove, callbacksToRemove := {})
  }

  /** One event: its descriptor's callbacks in the order they were registered, then the sweep. */
  function Dispatch(b: State, e: Event, beh: Behaviour): State {
    var b' := if e.fd in b.callbackMap then InvokeAll(b, b.callbackMap[e.fd], e, beh) else b;
    Sweep(b'.(dispatched := b.dispatched + [e]))
  }

  function DispatchAll(b: State, es: seq<Event>, beh: Behaviour): State
    decreases |es|
  {
    if es == [] then b else DispatchAll(Dispatch(b, es[0], beh), es[1..], beh)
  }

  /** What waiting for system events yields: an error, or the events that are ready. */
  datatype Poll = PollFailed | Polled(events: seq<Event>)

  function Swap(b: State): State {
    b.(events := [], drained := b.drained + b.events)
  }

  /** One turn of the reactor: the polled events, then the events queued by then and no later ones. */
  function WaitEvents(b: State, poll: Poll, beh: Behaviour): State {
    match poll
    case PollFailed => b.(errors := b.errors + 1)
    case Polled(es) =>
      var b' := DispatchAll(b, es, beh);
      DispatchAll(Swap(b'), b'.events, beh)
  }

  /** No callback registers another one for the descriptor it is being called for; the program would be
      iterating over the list it appends to. */
  ghost predicate NoSelfAdd(beh: Behaviour) {
    forall k, call, a :: a in beh(k, call).actions && a.AddFd? && a.callback.Some? ==> a.fd != call.event.fd
  }

  // ---------------------------------------------------------------- the object

  class Bus {
    var callbackMap: map<Fd, seq<Registration>>
    var callbacksToRemove: set<Fd>
    var events: seq<Event>
    var next: nat
    var calls: seq<Call>
    var errors: nat
    ghost var queued: seq<Event>
    ghost var drained: seq<Event>
    ghost var dispatched: seq<Event>

    ghost function Value(): State
      reads this
    {
      State(callbackMap, callbacksToRemove, events, next, calls, errors, queued, drained, dispatched)
    }

    constructor ()
      ensures Value() == EMPTY
    {
      callbackMap, callbacksToRemove, events, next := map[], {}, [], 0;
      calls, errors, queued, drained, dispatched := [], 0, [], [], [];
    }

    method AddFd(fd: Fd, callback: Option<CallbackId>)
      modifies this
      ensures Value() == Act(old(Value()), Action.AddFd(fd, callback))
    {
      if fd !in callbackMap {
        callbackMap := callbackMap[fd := []];
      }
      if callback.Some? {
        callbackMap := callbackMap[fd := callbackMap[fd] + [Registration(next, callback.value)]];
        next := next + 1;
      }
    }

    method DelFdCallbacks(fd: Fd)
      modifies this
      ensures Value() == Act(old(Value()), Action.DelFdCallbacks(fd))
    {
      callbacksToRemove := callbacksToRemove + {fd};
    }

    method DelFd(fd: Fd)
      modifies this
      ensures Value() == Act(old(Value()), Action.DelFd(fd))
    {
      callbacksToRemove := callbacksToRemove + {fd};
    }

    method EnqueueEvent(event: Event)
      modifies this
      ensures Value() == Act(old(Value()), Enqueue(event))
    {
      events := events + [event];
      queued := queued + [event];
    }

    /** A callback at work on the bus. */
    method Perform(actions: seq<Action>)
      modifies this
      ensures Value() == ActAll(old(Value()), actions)
    {
      for k := 0 to |actions|
        invariant ActAll(old(Value()), actions) == ActAll(Value(), actions[k..])
      {
        match actions[k] {
          case AddFd(fd, callback) => AddFd(fd, callback);
          case DelFd(fd) => DelFd(fd);
          case DelFdCallbacks(fd) => DelFdCallbacks(fd);
          case Enqueue(event) => EnqueueEvent(event);
        }
        assert actions[k..][1..] == actions[k + 1..];
      }
    }

    /** The dispatch of one event: the loop over the callbacks, catching what they throw, and the sweep. */
    method DispatchEvent(e: Event, beh: Behaviour)
      requires NoSelfAdd(beh)
      modifies this
      ensures Value() == Dispatch(old(Value()), e, beh)
    {
      if e.fd in callbackMap {
        var regs := callbackMap[e.fd];
        ghost var all := InvokeAll(Value(), regs, e, beh);
        var k := 0;
        while k < |regs|
          invariant k <= |regs| && all == InvokeAll(Value(), regs[k..], e, beh)
          invariant e.fd in callbackMap && callbackMap[e.fd] == regs
        {
          assert regs[k..][1..] == regs[k + 1..];
          InvokeKeepsList(Value(), regs[k], e, beh);
          if e.fd !in callbacksToRemove {
            CallBack(regs[k], e, beh);
          }
          k := k + 1;
        }
      }
      callbackMap := callbackMap - callbacksToRemove;
      callbacksToRemove := {};
      dispatched := old(dispatched) + [e];
    }

    /** One callback invoked; an exception becomes a report to the error callback. */
    method CallBack(r: Registration, e: Event, beh: Behaviour)
      requires e.fd !in callbacksToRemove
      modifies this
      ensures Value() == Invoke(old(Value()), r, e, beh)
    {
      var reaction := beh(|calls|, Call(r, e));
      calls := calls + [Call(r, e)];
      Perform(reaction.actions);
      if reaction.threw {
        errors := errors + 1;
      }
    }

    /** Polled events are dispatched first; then the queue is swapped out and the snapshot drained. */
    method WaitForEvents(poll: Poll, beh: Behaviour)
      requires NoSelfAdd(beh)
      modifies this
      ensures Value() == WaitEvents(old(Value()), poll, beh)
    {
      match poll {
        case PollFailed =>
          errors := errors + 1;
        case Polled(ready) =>
          DispatchEvents(ready, beh);
          var snapshot := events;
          drained := drained + events;
          events := [];
          DispatchEvents(snapshot, beh);
      }
    }

    method DispatchEvents(pending: seq<Event>, beh: Behaviour)
      requires NoSelfAdd(beh)
      modifies this
      ensures Value() == DispatchAll(old(Value()), pending, beh)
    {
      var rest := pending;
      while rest != []
        invariant DispatchAll(old(Value()), pending, beh) == DispatchAll(Value(), rest, beh)
        decreases |rest|
      {
        DispatchEvent(rest[0], beh);
        rest := rest[1..];
      }
    }
  }

  /** A callback's turn leaves the list being iterated as it is. */
  lemma InvokeKeepsList(b: State, r: Registration, e: Event, beh: Behaviour)
    requires NoSelfAdd(beh) && e.fd in b.callbackMap
    ensures var b' := Invoke(b, r, e, beh);
            e.fd in b'.callbackMap && b'.callbackMap[e.fd] == b.callbackMap[e.fd]
  {
    if e.fd !in b.callbacksToRemove {
      var call := Call(r, e);
      ActionsKeepList(b.(calls := b.calls + [call]), beh(|b.calls|, call).actions, e.fd);
    }
  }

  lemma {:induction false} ActionsKeepList(b: State, actions: seq<Action>, fd: Fd)
    requires fd in b.callbackMap
    requires forall a :: a in actions && a.AddFd? && a.callback.Some? ==> a.fd != fd
    ensures var b' := ActAll(b, actions); fd in b'.callbackMap && b'.callbackMap[fd] == b.callbackMap[fd]
    decreases |actions|
  {
    if actions != [] {
      ActionsKeepList(Act(b, actions[0]), actions[1..], fd);
    }
  }
}
