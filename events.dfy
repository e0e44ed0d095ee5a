/**
 * The event bus of the visualizer, src/visualizer/src/core/events.py: a
 * dictionary from event names to sets of listener callables. A callable is
 * named by the identity of the object it is (a set of callables compares
 * them by identity), so a listener is a `Callback` number. Calling a
 * listener runs code outside this model: `trigger_event` answers which
 * listeners it calls, each once.
 */
module Events {
  import opened Wrappers

  type Callback = nat

  type Listeners = map<string, set<Callback>>

  /** The `KeyError` of `set.remove` when the callback is not in the event's set. */
  datatype EventError = KeyError

  /** `__listeners.get(event)`, with an absent event read as no listener. */
  function ListenersOf(l: Listeners, event: string): set<Callback>
  {
    if event in l then l[event] else {}
  }

  /**
   * `add_listener`: an absent or empty event gets the set {callback}; a
   * non-empty one gets the callback added. Either way the event ends with
   * its old listeners and the callback, and no other event changes.
   */
  function Added(l: Listeners, event: string, callback: Callback): (r: Listeners)
    ensures r.Keys == l.Keys + {event}
    ensures r[event] == ListenersOf(l, event) + {callback}
    ensures forall e :: e in l && e != event ==> r[e] == l[e]
  {
    if event in l && l[event] != {} then l[event := l[event] + {callback}]
    else l[event := {callback}]
  }

  /**
   * `remove_listener`: nothing for an absent or empty event; otherwise the
   * callback leaves the set, and `set.remove` raises KeyError when it is
   * not there. No event is ever deleted, even when its set empties.
   */
  function Removed(l: Listeners, event: string, callback: Callback): (r: Result<Listeners, EventError>)
    ensures r.Failure? <==> ListenersOf(l, event) != {} && callback !in ListenersOf(l, event)
    ensures r.Success? ==> r.value.Keys == l.Keys
    ensures r.Success? ==> ListenersOf(r.value, event) == ListenersOf(l, event) - {callback}
    ensures r.Success? ==> forall e :: e in l && e != event ==> r.value[e] == l[e]
  {
    if event !in l || l[event] == {} then Success(l)
    else if callback !in l[event] then Failure(KeyError)
    else Success(l[event := l[event] - {callback}])
  }

  /** Adding the same listener twice is adding it once. */
  lemma AddedIdempotent(l: Listeners, event: string, callback: Callback)
    ensures Added(Added(l, event, callback), event, callback) == Added(l, event, callback)
  {
    var once := Added(l, event, callback);
    var twice := Added(once, event, callback);
    assert twice.Keys == once.Keys;
    forall e | e in once
      ensures twice[e] == once[e]
    {
      if e != event {
        assert e in l;
      }
    }
  }

  /**
   * Removing a listener just added gives back the old listeners; the event
   * stays registered, with an empty set if it was not there before.
   */
  lemma AddedThenRemoved(l: Listeners, event: string, callback: Callback)
    requires callback !in ListenersOf(l, event)
    ensures Removed(Added(l, event, callback), event, callback) == Success(l[event := ListenersOf(l, event)])
    ensures event in l ==> Removed(Added(l, event, callback), event, callback) == Success(l)
  {
    var added := Added(l, event, callback);
    var back := Removed(added, event, callback);
    var expected := l[event := ListenersOf(l, event)];
    assert back.Success?;
    assert back.value.Keys == expected.Keys;
    forall e | e in expected
      ensures back.value[e] == expected[e]
    {
      if e != event {
        assert e in l;
      } else {
        assert ListenersOf(back.value, event) == back.value[e];
      }
    }
    assert back.value == expected;
    if event in l {
      assert expected == l;
    }
  }

  /** Removing from an event without listeners changes nothing. */
  lemma RemovedWithoutListeners(l: Listeners, event: string, callback: Callback)
    requires ListenersOf(l, event) == {}
    ensures Removed(l, event, callback) == Success(l)
  {
  }

  /** The class-level dictionary of `EventManager`. */
  class EventManager {
    var listeners: Listeners

    /** The class attribute starts as an empty dictionary. */
    constructor ()
      ensures listeners == map[]
    {
      listeners := map[];
    }

    /** `get_events`: a new set holding every registered event name. */
    method GetEvents() returns (events: set<string>)
      ensures events == listeners.Keys
    {
      events := {};
      var rest := listeners.Keys;
      while rest != {}
        invariant rest <= listeners.Keys
        invariant events == listeners.Keys - rest
        decreases |rest|
      {
        var e :| e in rest;
        events := events + {e};
        rest := rest - {e};
      }
    }

    /** `get_listeners`: a copy of the event's set, or an empty set when it has none. */
    method GetListeners(event: string) returns (r: set<Callback>)
      ensures r == ListenersOf(listeners, event)
    {
      if event in listeners && listeners[event] != {} {
        return listeners[event];
      }
      return {};
    }

    /** `add_listener`. */
    method AddListener(event: string, callback: Callback)
      modifies this
      ensures listeners == Added(old(listeners), event, callback)
    {
      if event in listeners && listeners[event] != {} {
        listeners := listeners[event := listeners[event] + {callback}];
      } else {
        listeners := listeners[event := {callback}];
      }
    }

    /** `remove_listener`, with the KeyError of `set.remove` as a result. */
    method RemoveListener(event: string, callback: Callback) returns (err: Option<EventError>)
      modifies this
      ensures Removed(old(listeners), event, callback).Failure? ==> err == Some(KeyError) && listeners == old(listeners)
      ensures Removed(old(listeners), event, callback).Success? ==> err.None? && listeners == Removed(old(listeners), event, callback).value
    {
      if event in listeners && listeners[event] != {} {
        if callback !in listeners[event] {
          return Some(KeyError);
        }
        listeners := listeners[event := listeners[event] - {callback}];
      }
      return None;
    }

    /**
     * `trigger_event`: the listeners of the event in the set's order, each
     * called once; nothing when there are none.
     */
    method TriggerEvent(event: string) returns (called: seq<Callback>)
      ensures forall c :: c in called <==> c in ListenersOf(listeners, event)
      ensures forall i, j :: 0 <= i < j < |called| ==> called[i] != called[j]
    {
      called := [];
      if event !in listeners || listeners[event] == {} {
        return;
      }
      var rest := listeners[event];
      while rest != {}
        invariant rest <= listeners[event]
        invariant forall c :: c in called <==> c in listeners[event] && c !in rest
        invariant forall i, j :: 0 <= i < j < |called| ==> called[i] != called[j]
        decreases |rest|
      {
        var c :| c in rest;
        called := called + [c];
        rest := rest - {c};
      }
    }
  }
}
