/** Remote input as a session applies it to the operating system: internal/agentapp/input.go. */
module InputSessions {
  import opened Wrappers

  const EVENTS_LIMIT: nat := 64

  type KeyId = nat

  datatype Kind = Move | Down | Up | KeyDown | KeyUp | OtherKind

  /** key is the physical code, or the key if there is none. */
  datatype Event = Event(kind: Kind, button: int, x: int, y: int, key: KeyId)

  datatype Size = Size(width: int, height: int)

  datatype Method = Input | InputRelease

  /** events and size are what the parameters decode to, each None if it does not: the queue decodes the events only,
      the session needs both.  oversize if the message is too large for the queue. */
  datatype Message = Message(request: bool, call: Method, events: Option<seq<Event>>, size: Option<Size>, oversize: bool)

  /** Whether the operating system takes an event. */
  type System = Event -> bool

  datatype Geometry = Geometry(width: nat, height: nat)

  /** A message and the world while it is served: what the system takes, the size of the screen, and, if the context is
      cancelled, at which of its checks that is first seen. */
  datatype Turn = Turn(message: Message, os: System, screen: Geometry, cancelled: Option<nat>)

  predicate Live(u: Turn, check: nat) {
    u.cancelled.None? || check < u.cancelled.value
  }

  // ---- the session ----

  datatype Session = Session(x: int, y: int, buttons: set<int>, keys: map<KeyId, Event>, pending: bool)

  const NEW_SESSION := Session(0, 0, {}, map[], false)

  /** What the system was made to do: an event while some buttons were held, or a release of buttons and keys. */
  datatype Entry = Applied(event: Event, held: set<int>) | Released(buttons: set<int>, keys: set<KeyId>)

  datatype State = State(session: Session, trace: seq<Entry>)

  const NEW_STATE := State(NEW_SESSION, [])

  function Clamp(value: int, limit: int): int {
    if value < 0 then 0 else if value > limit - 1 then limit - 1 else value
  }

  function ScaleCoordinate(value: int, from: int, to: int): int {
    if from <= 1 || to <= 1 then 0
    else (Clamp(value, from) * (to - 1) + (from - 1) / 2) / (from - 1)
  }

  predicate OfMouse(k: Kind) {
    k.Move? || k.Down? || k.Up?
  }

  /** The event in the coordinates of the captured screen. */
  function Scaled(g: Geometry, size: Size, e: Event): Event {
    if OfMouse(e.kind) && size.width > 0 && size.height > 0 && g.width > 0 && g.height > 0 then
      e.(x := ScaleCoordinate(e.x, size.width, g.width), y := ScaleCoordinate(e.y, size.height, g.height))
    else e
  }

  function ButtonUp(s: Session, button: int): Event {
    Event(Up, button, s.x, s.y, 0)
  }

  /** releaseLocked: what the system lets go of is forgotten, the rest is owed. */
  function ReleasedButtons(os: System, s: Session): (r: set<int>)
    ensures r <= s.buttons
  {
    set b | b in s.buttons && os(ButtonUp(s, b))
  }

  function ReleasedKeys(os: System, s: Session): (r: set<KeyId>)
    ensures r <= s.keys.Keys
  {
    set k | k in s.keys && os(s.keys[k].(kind := KeyUp))
  }

  /** The session after a release, and what the release adds to the trace. */
  function Freed(os: System, s: Session): Session {
    var buttons, keys := ReleasedButtons(os, s), ReleasedKeys(os, s);
    s.(buttons := s.buttons - buttons, keys := s.keys - keys, pending := buttons != s.buttons || keys != s.keys.Keys)
  }

  function Freeing(os: System, s: Session): seq<Entry> {
    var buttons, keys := ReleasedButtons(os, s), ReleasedKeys(os, s);
    if buttons == {} && keys == {} then [] else [Released(buttons, keys)]
  }

  function Release(os: System, t: State): State {
    State(Freed(os, t.session), t.trace + Freeing(os, t.session))
  }

  /** An event that the system took. */
  function Own(s: Session, e: Event): Session {
    match e.kind
    case Down => s.(buttons := s.buttons + {e.button})
    case Up => s.(buttons := s.buttons - {e.button})
    case KeyDown => s.(keys := s.keys[e.key := e])
    case KeyUp => s.(keys := s.keys - {e.key})
    case _ => s
  }

  predicate BadButton(e: Event) {
    (e.kind.Down? || e.kind.Up?) && !(1 <= e.button <= 3)
  }

  datatype Outcome = Outcome(state: State, ok: bool)

  /** One event of a message, already scaled. */
  function Perform(os: System, t: State, e: Event): Outcome {
    if BadButton(e) then Outcome(t, false)
    else
      var s := if OfMouse(e.kind) then t.session.(x := e.x, y := e.y) else t.session;
      if !os(e) then Outcome(t.(session := s), false)
      else Outcome(State(Own(s, e), t.trace + [Applied(e, s.buttons)]), true)
  }

  /** The first n events, before each of which the context is looked at; a failure ends it. */
  function PerformAll(u: Turn, size: Size, t: State, events: seq<Event>, n: nat): Outcome
    requires n <= |events|
  {
    if n == 0 then Outcome(t, true)
    else
      var before := PerformAll(u, size, t, events, n - 1);
      if !before.ok then before
      else if !Live(u, n) then Outcome(before.state, false)
      else Perform(u.os, before.state, Scaled(u.screen, size, events[n - 1]))
  }

  /** The session can decode the message. */
  predicate Decoded(m: Message) {
    m.events.Some? && m.size.Some? && |m.events.value| <= EVENTS_LIMIT
  }

  /** handleContext: a release that is owed comes first. */
  function Handle(t: State, u: Turn): Outcome {
    if !Decoded(u.message) || !Live(u, 0) then Outcome(t, false)
    else
      var t1 := if t.session.pending then Release(u.os, t) else t;
      if t1.session.pending then Outcome(t1, false)
      else PerformAll(u, u.message.size.value, t1, u.message.events.value, |u.message.events.value|)
  }

  /** What the worker does with a message: after an error everything held is released. */
  function Serve(t: State, u: Turn): State {
    if u.message.call.InputRelease? then Release(u.os, t)
    else
      var o := Handle(t, u);
      if o.ok then o.state else Release(u.os, o.state)
  }

  function ServeAll(t: State, us: seq<Turn>): State {
    if us == [] then t else Serve(ServeAll(t, us[..|us| - 1]), us[|us| - 1])
  }

  lemma ServeSnoc(t: State, us: seq<Turn>, u: Turn)
    ensures ServeAll(t, us + [u]) == Serve(ServeAll(t, us), u)
  {
    assert (us + [u])[..|us|] == us;
  }

  lemma {:induction false} ServeCons(t: State, u: Turn, us: seq<Turn>)
    ensures ServeAll(t, [u] + us) == ServeAll(Serve(t, u), us)
    decreases |us|
  {
    hide Serve;
    if us == [] {
      ServeSnoc(t, [], u);
      assert [u] + us == [] + [u];
    } else {
      var n := |us| - 1;
      ServeCons(t, u, us[..n]);
      assert ([u] + us)[..|[u] + us| - 1] == [u] + us[..n];
    }
  }

  // ---- releases ----

  lemma Whole<T>(a: set<T>, b: set<T>)
    requires a <= b
    ensures b - a == {} <==> a == b
  {
    if b - a == {} {
      forall x | x in b ensures x in a {
        assert x !in b - a;
      }
    }
  }

  lemma OwesWhatIsLeft(os: System, s: Session)
    ensures var r := Freed(os, s); r.pending <==> r.buttons != {} || r.keys.Keys != {}
  {
    Whole(ReleasedButtons(os, s), s.buttons);
    Whole(ReleasedKeys(os, s), s.keys.Keys);
    assert Freed(os, s).keys.Keys == s.keys.Keys - ReleasedKeys(os, s);
  }

  /** A second release lets go of what is left and taken. */
  lemma ReleasedAgain(first: System, second: System, s: Session)
    ensures ReleasedButtons(second, Freed(first, s)) == ReleasedButtons(second, s) - ReleasedButtons(first, s)
    ensures ReleasedKeys(second, Freed(first, s)) == ReleasedKeys(second, s) - ReleasedKeys(first, s)
  {
    var r := Freed(first, s);
    assert forall b :: ButtonUp(r, b) == ButtonUp(s, b);
    assert forall k :: k in r.keys ==> r.keys[k] == s.keys[k];
  }

  lemma ReleaseTwice(os: System, t: State)
    ensures Release(os, Release(os, t)) == Release(os, t)
  {
    var s, r := t.session, Freed(os, t.session);
    ReleasedAgain(os, os, s);
    OwesWhatIsLeft(os, s);
    assert ReleasedButtons(os, r) == {} && ReleasedKeys(os, r) == {};
    assert r.keys - {} == r.keys && r.buttons - {} == r.buttons;
    assert Freeing(os, r) == [] && Freed(os, r) == r;
    assert (t.trace + Freeing(os, s)) + [] == t.trace + Freeing(os, s);
  }

  // ---- what the system holds ----

  function HeldButtons(trace: seq<Entry>): set<int> {
    if trace == [] then {}
    else
      var before := HeldButtons(trace[..|trace| - 1]);
      match trace[|trace| - 1]
      case Applied(e, _) => if e.kind.Down? then before + {e.button} else if e.kind.Up? then before - {e.button} else before
      case Released(buttons, _) => before - buttons
  }

  function HeldKeys(trace: seq<Entry>): set<KeyId> {
    if trace == [] then {}
    else
      var before := HeldKeys(trace[..|trace| - 1]);
      match trace[|trace| - 1]
      case Applied(e, _) => if e.kind.KeyDown? then before + {e.key} else if e.kind.KeyUp? then before - {e.key} else before
      case Released(_, keys) => before - keys
  }

  /** The session knows exactly what the system was made to press and not to let go of. */
  predicate Owns(t: State) {
    t.session.buttons == HeldButtons(t.trace) && t.session.keys.Keys == HeldKeys(t.trace)
  }

  lemma ReleaseOwns(os: System, t: State)
    requires Owns(t)
    ensures Owns(Release(os, t))
  {
    var e := Released(ReleasedButtons(os, t.session), ReleasedKeys(os, t.session));
    assert (t.trace + [e])[..|t.trace|] == t.trace;
    assert t.trace + [] == t.trace;
  }

  lemma PerformOwns(os: System, t: State, e: Event)
    requires Owns(t)
    ensures Owns(Perform(os, t, e).state)
  {
    var s := if OfMouse(e.kind) then t.session.(x := e.x, y := e.y) else t.session;
    assert (t.trace + [Applied(e, s.buttons)])[..|t.trace|] == t.trace;
  }

  lemma {:induction false} PerformAllOwns(u: Turn, size: Size, t: State, events: seq<Event>, n: nat)
    requires Owns(t) && n <= |events|
    ensures Owns(PerformAll(u, size, t, events, n).state)
    decreases n
  {
    hide Owns;
    hide Perform;
    if n > 0 {
      PerformAllOwns(u, size, t, events, n - 1);
      PerformOwns(u.os, PerformAll(u, size, t, events, n - 1).state, Scaled(u.screen, size, events[n - 1]));
    }
  }

  lemma ServeOwns(t: State, u: Turn)
    requires Owns(t)
    ensures Owns(Serve(t, u))
  {
    hide Owns;
    hide Release;
    hide PerformAll;
    ReleaseOwns(u.os, t);
    if u.message.call.Input? {
      if Decoded(u.message) {
        var events := u.message.events.value;
        PerformAllOwns(u, u.message.size.value, t, events, |events|);
        PerformAllOwns(u, u.message.size.value, Release(u.os, t), events, |events|);
      }
      ReleaseOwns(u.os, Handle(t, u).state);
    }
  }

  lemma {:induction false} ServeAllOwns(t: State, us: seq<Turn>)
    requires Owns(t)
    ensures Owns(ServeAll(t, us))
    decreases |us|
  {
    hide Owns;
    hide Serve;
    if us != [] {
      ServeAllOwns(t, us[..|us| - 1]);
      ServeOwns(ServeAll(t, us[..|us| - 1]), us[|us| - 1]);
    }
  }

  /** Whatever messages a session has served, and whatever the system took or refused during each of them, the session
      holds what the system was made to press; after a release that succeeds nothing of that stays down, and one that
      fails is owed, to be tried again when the next message is served. */
  lemma {:induction false} NothingStaysDown(us: seq<Turn>, os: System)
    ensures var t := Release(os, ServeAll(NEW_STATE, us));
            && t.session.buttons == HeldButtons(t.trace) && t.session.keys.Keys == HeldKeys(t.trace)
            && (if t.session.pending then HeldButtons(t.trace) != {} || HeldKeys(t.trace) != {}
                else HeldButtons(t.trace) == {} && HeldKeys(t.trace) == {})
  {
    ServeAllOwns(NEW_STATE, us);
    ReleaseOwns(os, ServeAll(NEW_STATE, us));
    OwesWhatIsLeft(os, ServeAll(NEW_STATE, us).session);
    hide ServeAll;
    hide HeldButtons;
    hide HeldKeys;
    hide Freed;
  }

  /** A release that is owed is made good with the next message that the session decodes and that is served while the
      system lets go of what is still held: then nothing the session pressed before it is down when its events begin. */
  lemma {:induction false} OwedReleaseMadeGood(us: seq<Turn>, u: Turn)
    requires var s := ServeAll(NEW_STATE, us).session;
             && s.pending && (forall b :: b in s.buttons ==> u.os(ButtonUp(s, b)))
             && (forall k :: k in s.keys ==> u.os(s.keys[k].(kind := KeyUp)))
    requires u.message.call.Input? && Decoded(u.message) && Live(u, 0)
    ensures var t := Release(u.os, ServeAll(NEW_STATE, us)); var events := u.message.events.value;
            && HeldButtons(t.trace) == {} && HeldKeys(t.trace) == {} && !t.session.pending
            && Handle(ServeAll(NEW_STATE, us), u) == PerformAll(u, u.message.size.value, t, events, |events|)
  {
    var s := ServeAll(NEW_STATE, us).session;
    NothingStaysDown(us, u.os);
    hide ServeAll;
    hide HeldButtons;
    hide HeldKeys;
    assert ReleasedButtons(u.os, s) == s.buttons && ReleasedKeys(u.os, s) == s.keys.Keys;
  }
}
