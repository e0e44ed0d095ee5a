/**
 * The keyboard and mouse front of the visualizer,
 * src/visualizer/src/core/input.py: key presses become events named
 * `on_press_<key>`, `on_hold_<key>` and `on_release_<key>` on the event bus,
 * and the set of keys held down is kept between frames. A key is its X11
 * keysym, an unsigned number, and a mouse button its unsigned button number.
 */
module Input {
  import opened Wrappers
  import opened PyInt
  import opened Events

  type Key = nat

  datatype KeyEvent = Press | Hold | Release

  /** The event-name prefix of each kind of key event. */
  function Prefix(kind: KeyEvent): string
  {
    match kind
    case Press => "on_press_"
    case Hold => "on_hold_"
    case Release => "on_release_"
  }

  /** `f"on_press_{key}"` and its hold and release siblings. */
  function EventName(kind: KeyEvent, key: Key): string
  {
    Prefix(kind) + IntToString(key)
  }

  /** Distinct kinds or distinct keys never share an event name. */
  lemma EventNameInjective(k1: KeyEvent, key1: Key, k2: KeyEvent, key2: Key)
    ensures EventName(k1, key1) == EventName(k2, key2) <==> k1 == k2 && key1 == key2
  {
    if EventName(k1, key1) == EventName(k2, key2) {
      assert EventName(k1, key1)[3] == Prefix(k1)[3];
      assert EventName(k2, key2)[3] == Prefix(k2)[3];
      assert k1 == k2;
      var n := |Prefix(k1)|;
      assert IntToString(key1) == EventName(k1, key1)[n..];
      assert IntToString(key2) == EventName(k2, key2)[n..];
      ParseIntToString(key1);
      ParseIntToString(key2);
    }
  }

  /** `keysymdef.XK_Pointer_Button1` of X11's keysymdef.h. */
  const PointerButton1: Key := 0xFEE9

  /** `button + XK_Pointer_Button1 - 1`: mouse button n is the n-th pointer keysym. */
  function ButtonKey(button: nat): Key
  {
    button + PointerButton1 - 1
  }

  /** Button 1 is XK_Pointer_Button1 and distinct buttons are distinct keys. */
  lemma ButtonKeys(b1: nat, b2: nat)
    ensures ButtonKey(1) == PointerButton1
    ensures ButtonKey(b1) == ButtonKey(b2) <==> b1 == b2
    ensures EventName(Press, ButtonKey(b1)) == EventName(Press, ButtonKey(b2)) <==> b1 == b2
  {
    EventNameInjective(Press, ButtonKey(b1), Press, ButtonKey(b2));
  }

  /** The input manager's class attributes: the keys held and the bus it talks to. */
  class InputManager {
    var pressed: set<Key>
    var events: EventManager

    constructor (events: EventManager)
      ensures this.events == events && pressed == {}
    {
      this.events := events;
      pressed := {};
    }

    /**
     * `on_update`: once per held key, in the set's order, the key's hold
     * event fires; no event fires twice and nothing is changed.
     */
    method OnUpdate() returns (keys: seq<Key>, fired: seq<string>)
      ensures forall k :: k in keys <==> k in pressed
      ensures |fired| == |keys|
      ensures forall i :: 0 <= i < |keys| ==> fired[i] == EventName(Hold, keys[i])
      ensures forall i, j :: 0 <= i < j < |fired| ==> fired[i] != fired[j]
    {
      keys, fired := [], [];
      var rest := pressed;
      while rest != {}
        invariant rest <= pressed
        invariant forall k :: k in keys <==> k in pressed && k !in rest
        invariant |fired| == |keys|
        invariant forall i :: 0 <= i < |keys| ==> fired[i] == EventName(Hold, keys[i])
        invariant forall i, j :: 0 <= i < j < |fired| ==> fired[i] != fired[j]
        decreases |rest|
      {
        var key :| key in rest;
        var name := EventName(Hold, key);
        forall i | 0 <= i < |fired|
          ensures fired[i] != name
        {
          EventNameInjective(Hold, keys[i], Hold, key);
        }
        var _ := events.TriggerEvent(name);
        keys, fired := keys + [key], fired + [name];
        rest := rest - {key};
      }
    }

    /** `add_listener_on_press`, `_on_hold` and `_on_release`: only that key event gains the callback. */
    method AddKeyListener(kind: KeyEvent, key: Key, callback: Callback)
      modifies events
      ensures events.listeners == Added(old(events.listeners), EventName(kind, key), callback)
    {
      events.AddListener(EventName(kind, key), callback);
    }

    /** `remove_listener_on_press`, `_on_hold` and `_on_release`, with the bus's KeyError. */
    method RemoveKeyListener(kind: KeyEvent, key: Key, callback: Callback) returns (err: Option<EventError>)
      modifies events
      ensures var r := Removed(old(events.listeners), EventName(kind, key), callback);
        (r.Failure? ==> err == Some(KeyError) && events.listeners == old(events.listeners)) &&
        (r.Success? ==> err.None? && events.listeners == r.value)
    {
      err := events.RemoveListener(EventName(kind, key), callback);
    }

    /** `trigger_press`: the press listeners of the key are called, then the key is held. */
    method TriggerPress(key: Key) returns (called: seq<Callback>)
      modifies this`pressed
      ensures pressed == old(pressed) + {key}
      ensures forall c :: c in called <==> c in ListenersOf(events.listeners, EventName(Press, key))
    {
      called := events.TriggerEvent(EventName(Press, key));
      pressed := pressed + {key};
    }

    /** `trigger_release`: the release listeners are called, then the key is no longer held. */
    method TriggerRelease(key: Key) returns (called: seq<Callback>)
      modifies this`pressed
      ensures pressed == old(pressed) - {key}
      ensures forall c :: c in called <==> c in ListenersOf(events.listeners, EventName(Release, key))
    {
      called := events.TriggerEvent(EventName(Release, key));
      pressed := pressed - {key};
    }

    /** `trigger_button_press`: a mouse button is pressed as its pointer keysym. */
    method TriggerButtonPress(button: nat) returns (called: seq<Callback>)
      modifies this`pressed
      ensures pressed == old(pressed) + {ButtonKey(button)}
      ensures forall c :: c in called <==> c in ListenersOf(events.listeners, EventName(Press, ButtonKey(button)))
    {
      called := TriggerPress(ButtonKey(button));
    }

    /** `trigger_button_release`. */
    method TriggerButtonRelease(button: nat) returns (called: seq<Callback>)
      modifies this`pressed
      ensures pressed == old(pressed) - {ButtonKey(button)}
      ensures forall c :: c in called <==> c in ListenersOf(events.listeners, EventName(Release, ButtonKey(button)))
    {
      called := TriggerRelease(ButtonKey(button));
    }
  }

  /**
   * A listener registered for one key event is seen by that event alone:
   * every other kind or key keeps the listeners it had.
   */
  lemma KeyListenerIsolated(l: Listeners, kind: KeyEvent, key: Key, callback: Callback, other: KeyEvent, otherKey: Key)
    requires other != kind || otherKey != key
    ensures ListenersOf(Added(l, EventName(kind, key), callback), EventName(other, otherKey)) == ListenersOf(l, EventName(other, otherKey))
    ensures callback in ListenersOf(Added(l, EventName(kind, key), callback), EventName(kind, key))
  {
    EventNameInjective(kind, key, other, otherKey);
  }
}
