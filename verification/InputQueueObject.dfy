/** The input queue and the input session as mutable objects: internal/agentapp/input_queue.go and
  internal/agentapp/input.go. */
module InputQueueObjects {
  import opened Wrappers
  import opened InputQueues
  import opened InputSessions

  const NO_ITEM := Item(Message(false, Input, None, None, false), false)

  /** The queue's items fill the beginning of a fixed buffer. */
  class InputQueue {
    const buffer: array<Item>
    var count: nat
    var buttons: set<int>
    var stopped: bool

    constructor ()
      ensures Valid() && fresh(buffer) && View() == EMPTY_QUEUE && !stopped
    {
      buffer := new Item[QUEUE_LIMIT](_ => NO_ITEM);
      count, buttons, stopped := 0, {}, false;
    }

    ghost predicate Valid()
      reads this
    {
      buffer.Length == QUEUE_LIMIT && count <= QUEUE_LIMIT
    }

    ghost function View(): Queue
      reads this, buffer
      requires Valid()
    {
      Queue(buffer[..count], buttons)
    }

    /** The buttons that are down after the events. */
    method TrackAll(events: seq<Event>)
      modifies `buttons
      ensures buttons == Track(old(buttons), events)
    {
      var i := 0;
      assert events[..0] == [];
      while i < |events|
        invariant 0 <= i <= |events| && buttons == Track(old(buttons), events[..i])
      {
        var e := events[i];
        assert events[..i + 1][..i] == events[..i];
        if 1 <= e.button <= 3 {
          if e.kind.Down? {
            buttons := buttons + {e.button};
          } else if e.kind.Up? {
            buttons := buttons - {e.button};
          }
        }
        i := i + 1;
      }
      assert events[..i] == events;
    }

    method Enqueue(m: Message) returns (ok: bool)
      requires Valid()
      modifies this, buffer
      ensures Valid() && stopped == old(stopped)
      ensures ok == (!old(stopped) && Accepts(old(View()), m))
      ensures View() == (if ok then InputQueues.Enqueue(old(View()), m) else old(View()))
    {
      if m.oversize || stopped {
        return false;
      }
      var valid := m.call.Input? && m.events.Some?;
      var hover := valid && buttons == {} && !m.request && |m.events.value| == 1 && m.events.value[0].kind.Move?;
      if hover && count > 0 && buffer[count - 1].hover {
        buffer[count - 1] := Item(m, true);
        return true;
      }
      if count == QUEUE_LIMIT {
        return false;
      }
      if m.call.InputRelease? {
        buttons := {};
      } else if valid {
        TrackAll(m.events.value);
      }
      buffer[count] := Item(m, hover);
      count := count + 1;
      ok := true;
    }

    /** The worker takes the first item; the others move up by one place. */
    method Pop() returns (m: Option<Message>)
      requires Valid()
      modifies this, buffer
      ensures Valid() && stopped == old(stopped)
      ensures m.None? <==> old(stopped) || old(count) == 0
      ensures m.None? ==> View() == old(View())
      ensures m.Some? ==> m.value == old(View()).items[0].message && View() == old(View()).(items := old(View()).items[1..])
    {
      if stopped || count == 0 {
        return None;
      }
      m := Some(buffer[0].message);
      var i := 0;
      while i < count - 1
        invariant Valid() && 0 <= i <= count - 1
        invariant forall k :: 0 <= k < i ==> buffer[k] == old(buffer[k + 1])
        invariant forall k :: i <= k < count ==> buffer[k] == old(buffer[k])
        modifies buffer
      {
        buffer[i] := buffer[i + 1];
        i := i + 1;
      }
      buffer[count - 1] := NO_ITEM;
      count := count - 1;
      assert buffer[..count] == old(buffer[..count])[1..];
    }

    /** What is still queued is dropped, and nothing is accepted any more. */
    method Stop()
      requires Valid()
      modifies this
      ensures Valid() && stopped && count == 0
    {
      stopped, count := true, 0;
    }
  }

  class InputSession {
    var x: int
    var y: int
    var buttons: set<int>
    var keys: map<KeyId, Event>
    var releasePending: bool
    /** What the system was made to do. */
    ghost var trace: seq<Entry>

    constructor ()
      ensures View() == NEW_STATE
    {
      x, y, buttons, keys, releasePending, trace := 0, 0, {}, map[], false, [];
    }

    ghost function View(): State
      reads this
    {
      State(Session(x, y, buttons, keys, releasePending), trace)
    }

    /** releaseLocked: first the buttons, then the keys; what the system does not let go of is kept. */
    method Release(os: System) returns (ok: bool)
      modifies this
      ensures View() == InputSessions.Release(os, old(View())) && ok == !releasePending
    {
      ghost var s := View().session;
      ReleaseButtons(os);
      ReleaseKeys(os);
      ghost var b, k := ReleasedButtons(os, s), ReleasedKeys(os, s);
      Whole(b, s.buttons);
      Whole(k, s.keys.Keys);
      assert keys.Keys == s.keys.Keys - k;
      releasePending := buttons != {} || keys.Keys != {};
      trace := trace + Freeing(os, s);
      ok := !releasePending;
    }

    method ReleaseButtons(os: System)
      modifies `buttons
      ensures buttons == old(buttons) - ReleasedButtons(os, old(View()).session)
    {
      ghost var s := View().session;
      var todo := buttons;
      while todo != {}
        invariant todo <= s.buttons
        invariant buttons == s.buttons - (ReleasedButtons(os, s) - todo)
        decreases |todo|
      {
        SomeIn(todo);
        var b :| b in todo;
        todo := todo - {b};
        if os(Event(Up, b, x, y, 0)) {
          buttons := buttons - {b};
        }
      }
      assert ReleasedButtons(os, s) - todo == ReleasedButtons(os, s);
    }

    method ReleaseKeys(os: System)
      modifies `keys
      ensures keys == old(keys) - ReleasedKeys(os, old(View()).session)
    {
      ghost var s := View().session;
      var todo := keys.Keys;
      while todo != {}
        invariant todo <= s.keys.Keys
        invariant forall k :: k in keys <==> k in s.keys && (k in todo || !os(s.keys[k].(kind := KeyUp)))
        invariant forall k :: k in keys ==> keys[k] == s.keys[k]
        decreases |todo|
      {
        var k :| k in todo;
        todo := todo - {k};
        if os(keys[k].(kind := KeyUp)) {
          keys := keys - {k};
        }
      }
    }

    /** One event, in the coordinates of the screen. */
    method Perform(os: System, e: Event) returns (ok: bool)
      modifies this
      ensures Outcome(View(), ok) == InputSessions.Perform(os, old(View()), e)
    {
      if BadButton(e) {
        return false;
      }
      if OfMouse(e.kind) {
        x, y := e.x, e.y;
      }
      if !os(e) {
        return false;
      }
      trace := trace + [Applied(e, buttons)];
      match e.kind {
        case Down => buttons := buttons + {e.button};
        case KeyDown => keys := keys[e.key := e];
        case Up => buttons := buttons - {e.button};
        case KeyUp => keys := keys - {e.key};
        case _ =>
      }
      ok := true;
    }

    /** handleContext; the context is looked at first and before every event. */
    method Handle(u: Turn) returns (ok: bool)
      modifies this
      ensures Outcome(View(), ok) == InputSessions.Handle(old(View()), u)
    {
      var m := u.message;
      if m.events.None? || m.size.None? || |m.events.value| > EVENTS_LIMIT || !Live(u, 0) {
        return false;
      }
      if releasePending {
        var released := Release(u.os);
        if !released {
          return false;
        }
      }
      var events, i := m.events.value, 0;
      ghost var t := View();
      while i < |events|
        invariant 0 <= i <= |events| && Outcome(View(), true) == PerformAll(u, m.size.value, t, events, i)
      {
        if !Live(u, i + 1) {
          assert !PerformAll(u, m.size.value, t, events, i + 1).ok;
          PerformAllStops(u, m.size.value, t, events, i + 1, |events|);
          return false;
        }
        var done := Perform(u.os, Scaled(u.screen, m.size.value, events[i]));
        i := i + 1;
        if !done {
          PerformAllStops(u, m.size.value, t, events, i, |events|);
          return false;
        }
      }
      ok := true;
    }

    /** What the worker does with a message. */
    method Serve(u: Turn) returns (ok: bool)
      modifies this
      ensures View() == InputSessions.Serve(old(View()), u)
    {
      if u.message.call.InputRelease? {
        ok := Release(u.os);
      } else {
        ok := Handle(u);
        if !ok {
          var _ := Release(u.os);
        }
      }
    }
  }

  lemma SomeIn(s: set<int>)
    requires s != {}
    ensures exists b :: b in s
  {
    assert (forall b :: b !in s) ==> s == {};
  }

  /** After a failure the rest is not looked at. */
  lemma {:induction false} PerformAllStops(u: Turn, size: Size, t: State, events: seq<Event>, i: nat, n: nat)
    requires i <= n <= |events| && !PerformAll(u, size, t, events, i).ok
    ensures PerformAll(u, size, t, events, n) == PerformAll(u, size, t, events, i)
    decreases n
  {
    if i < n {
      PerformAllStops(u, size, t, events, i, n - 1);
    }
  }
}
