/** What serving a message of remote input does to the operating system, said without the session: internal/agentapp/input.go
  and ScaleCoordinate of internal/desktop/encode.go. */
module InputEffects {
  import opened Wrappers
  import opened InputSessions

  // ---- coordinates ----

  /** r is the place among `to` places nearest to that of v among `from`; v is taken into the range first. */
  ghost predicate Nearest(v: int, from: int, to: int, r: int) {
    if from <= 1 || to <= 1 then r == 0
    else
      && 0 <= r < to
      && (v <= 0 ==> r == 0) && (v >= from - 1 ==> r == to - 1)
      && (0 <= v < from ==> 2 * (v * (to - 1)) - (from - 1) < 2 * (r * (from - 1)) <= 2 * (v * (to - 1)) + (from - 1))
  }

  lemma ScaleNearest(v: int, from: int, to: int)
    ensures Nearest(v, from, to, ScaleCoordinate(v, from, to))
  {
    hide Clamp;
    if from > 1 && to > 1 {
      var c, d, m := Clamp(v, from), from - 1, to - 1;
      Clamped(v, from);
      Products(c, d, m);
      Rounded(c * m, d, m);
    }
  }

  lemma Products(c: int, d: int, m: int)
    requires 0 <= c <= d && 0 <= m
    ensures 0 <= c * m <= d * m && (c == 0 ==> c * m == 0)
  {
  }

  lemma Clamped(v: int, from: int)
    requires from > 1
    ensures 0 <= v < from ==> Clamp(v, from) == v
    ensures v <= 0 ==> Clamp(v, from) == 0
    ensures v >= from - 1 ==> Clamp(v, from) == from - 1
    ensures 0 <= Clamp(v, from) <= from - 1
  {
  }

  lemma DivideBack(n: int, d: int)
    requires d > 0
    ensures n - d < (n / d) * d <= n
  {
  }

  /** A quotient lies between two bounds if the number lies between their multiples. */
  lemma QuotientIn(n: int, d: int, low: int, high: int)
    requires d > 0 && low * d <= n < high * d + d
    ensures low <= n / d <= high
  {
    var q := n / d;
    DivideBack(n, d);
    assert q <= low - 1 ==> q * d <= (low - 1) * d == low * d - d;
    assert q >= high + 1 ==> q * d >= (high + 1) * d == high * d + d;
  }

  /** a / d rounded to the nearest, halves up. */
  lemma Rounded(a: int, d: int, m: int)
    requires d > 0 && 0 <= a <= d * m
    ensures var q := (a + d / 2) / d;
            && 0 <= q <= m && 2 * a - d < 2 * (q * d) <= 2 * a + d
            && (a == 0 ==> q == 0) && (a == d * m ==> q == m)
  {
    var n := a + d / 2;
    assert m * d == d * m;
    QuotientIn(n, d, 0, m);
    if a == 0 {
      QuotientIn(n, d, 0, 0);
    }
    if a == d * m {
      QuotientIn(n, d, m, m);
    }
    DivideBack(n, d);
    var q, h := n / d, d / 2;
    assert d == 2 * h || d == 2 * h + 1;
  }

  /** A larger coordinate is not moved before a smaller one, and equal sizes move nothing that is inside. */
  lemma {:induction false} ScaleMonotone(v: int, w: int, from: int, to: int)
    ensures v <= w ==> ScaleCoordinate(v, from, to) <= ScaleCoordinate(w, from, to)
    ensures from == to && 0 <= v < from ==> ScaleCoordinate(v, from, to) == v
  {
    hide Clamp;
    if from > 1 && to > 1 {
      if v <= w {
        ClampMonotone(v, w, from);
        QuotientMonotone(Clamp(v, from), Clamp(w, from), from - 1, to - 1);
      }
      if from == to && 0 <= v < from {
        Clamped(v, from);
        QuotientIn(v * (to - 1) + (from - 1) / 2, from - 1, v, v);
      }
    }
  }

  lemma ClampMonotone(v: int, w: int, from: int)
    requires v <= w && from > 1
    ensures Clamp(v, from) <= Clamp(w, from)
  {
  }

  lemma QuotientMonotone(a: int, b: int, d: int, m: int)
    requires a <= b && d > 0 && m > 0
    ensures (a * m + d / 2) / d <= (b * m + d / 2) / d
  {
    assert a * m <= b * m;
    var h := d / 2;
    DivideMonotone(a * m + h, b * m + h, d);
  }

  lemma DivideMonotone(m: int, n: int, d: int)
    requires d > 0 && m <= n
    ensures m / d <= n / d
  {
    var p, q := m / d, n / d;
    DivideBack(m, d);
    DivideBack(n, d);
    assert p >= q + 1 ==> p * d >= (q + 1) * d == q * d + d;
  }

  /** A mouse event is moved to the nearest place of the screen, across by the widths and down by the heights, if both
      sizes are known; nothing else about an event changes. */
  lemma ScaledPlace(g: Geometry, size: Size, e: Event)
    ensures var s := Scaled(g, size, e);
            && s.kind == e.kind && s.button == e.button && s.key == e.key
            && (if (e.kind == Move || e.kind == Down || e.kind == Up) && size.width > 0 && size.height > 0 && g.width > 0 && g.height > 0 then
                  Nearest(e.x, size.width, g.width, s.x) && Nearest(e.y, size.height, g.height, s.y)
                else s == e)
  {
    ScaleNearest(e.x, size.width, g.width);
    ScaleNearest(e.y, size.height, g.height);
    hide Nearest;
  }

  // ---- a message ----

  /** The i-th event is reached in time, has a button a mouse has, and the system takes it where it belongs. */
  predicate Goes(u: Turn, size: Size, events: seq<Event>, i: nat)
    requires i < |events|
  {
    && (u.cancelled == None || u.cancelled.value > i + 1)
    && (events[i].kind == Down || events[i].kind == Up ==> events[i].button == 1 || events[i].button == 2 || events[i].button == 3)
    && u.os(Scaled(u.screen, size, events[i]))
  }

  /** The trace has grown by the first n events, each scaled and with the buttons that were down. */
  ghost predicate Grown(before: seq<Entry>, after: seq<Entry>, u: Turn, size: Size, events: seq<Event>, n: nat)
    requires n <= |events|
  {
    && |after| == |before| + n && before <= after
    && forall i :: 0 <= i < n ==>
         after[|before| + i] == Applied(Scaled(u.screen, size, events[i]), HeldButtons(after[..|before| + i]))
  }

  /** Where the first events leave the pointer: at the last of them that is the mouse's. */
  function Pointer(s: Session, u: Turn, size: Size, events: seq<Event>, n: nat): (int, int)
    requires n <= |events|
  {
    if n == 0 then (s.x, s.y)
    else if events[n - 1].kind == Move || events[n - 1].kind == Down || events[n - 1].kind == Up then
      (Scaled(u.screen, size, events[n - 1]).x, Scaled(u.screen, size, events[n - 1]).y)
    else Pointer(s, u, size, events, n - 1)
  }

  lemma GrownStep(before: seq<Entry>, after: seq<Entry>, more: seq<Entry>, u: Turn, size: Size, events: seq<Event>, n: nat)
    requires n < |events| && Grown(before, after, u, size, events, n)
    requires more == after + [Applied(Scaled(u.screen, size, events[n]), HeldButtons(after))]
    ensures Grown(before, more, u, size, events, n + 1)
  {
    hide HeldButtons;
    hide Scaled;
    assert more[..|after|] == after;
    forall i | 0 <= i < n + 1
      ensures more[|before| + i] == Applied(Scaled(u.screen, size, events[i]), HeldButtons(more[..|before| + i]))
    {
      assert more[..|before| + i] == after[..|before| + i];
      if i == n {
        assert after[..|before| + n] == after;
      }
    }
  }

  lemma OneApplied(u: Turn, size: Size, t: State, events: seq<Event>, n: nat)
    requires n < |events| && Owns(t) && !t.session.pending && Goes(u, size, events, n)
    ensures Live(u, n + 1)
    ensures var e := Scaled(u.screen, size, events[n]); var o := Perform(u.os, t, e); var s := o.state.session;
            && o.ok && Owns(o.state) && !s.pending && o.state.trace == t.trace + [Applied(e, HeldButtons(t.trace))]
            && (s.x, s.y) == if events[n].kind == Move || events[n].kind == Down || events[n].kind == Up then (e.x, e.y)
                             else (t.session.x, t.session.y)
  {
    hide Scaled;
    hide Nearest;
    hide Owns;
    hide Perform;
    hide HeldButtons;
    var e := Scaled(u.screen, size, events[n]);
    ScaledPlace(u.screen, size, events[n]);
    PerformOwns(u.os, t, e);
    OwnsButtons(t);
    PerformTakes(u.os, t, e);
  }

  lemma PerformTakes(os: System, t: State, e: Event)
    requires os(e) && !BadButton(e)
    ensures var o := Perform(os, t, e); var s := o.state.session;
            && o.ok && s.pending == t.session.pending && o.state.trace == t.trace + [Applied(e, t.session.buttons)]
            && (s.x, s.y) == if e.kind == Move || e.kind == Down || e.kind == Up then (e.x, e.y) else (t.session.x, t.session.y)
  {
  }

  /** As long as events go, they are applied in order. */
  lemma {:induction false} EventsApplied(u: Turn, size: Size, t: State, events: seq<Event>, n: nat)
    requires n <= |events| && Owns(t) && !t.session.pending && forall i :: 0 <= i < n ==> Goes(u, size, events, i)
    ensures var o := PerformAll(u, size, t, events, n);
            && o.ok && Owns(o.state) && !o.state.session.pending && Grown(t.trace, o.state.trace, u, size, events, n)
            && (o.state.session.x, o.state.session.y) == Pointer(t.session, u, size, events, n)
    decreases n
  {
    hide Owns;
    hide Scaled;
    hide Perform;
    hide HeldButtons;
    hide Goes;
    hide Live;
    if n == 0 {
      NoneApplied(u, size, t, events);
    } else {
      hide Grown;
      EventsApplied(u, size, t, events, n - 1);
      var before := PerformAll(u, size, t, events, n - 1).state;
      OneApplied(u, size, before, events, n - 1);
      GrownStep(t.trace, before.trace, PerformAll(u, size, t, events, n).state.trace, u, size, events, n - 1);
    }
  }

  lemma NoneApplied(u: Turn, size: Size, t: State, events: seq<Event>)
    ensures Grown(t.trace, t.trace, u, size, events, 0)
  {
  }

  lemma OwnsButtons(t: State)
    requires Owns(t)
    ensures t.session.buttons == HeldButtons(t.trace)
  {
  }

  /** At the first that does not go nothing more is applied. */
  lemma {:induction false} EventsStop(u: Turn, size: Size, t: State, events: seq<Event>, m: nat, n: nat)
    requires m < n <= |events| && Owns(t) && !t.session.pending
    requires (forall i :: 0 <= i < m ==> Goes(u, size, events, i)) && !Goes(u, size, events, m)
    ensures !PerformAll(u, size, t, events, n).ok
    ensures PerformAll(u, size, t, events, n).state.trace == PerformAll(u, size, t, events, m).state.trace
    decreases n
  {
    hide Owns;
    hide Scaled;
    hide Perform;
    hide Grown;
    hide Goes;
    hide Live;
    if n == m + 1 {
      EventsApplied(u, size, t, events, m);
      OneStops(u, size, PerformAll(u, size, t, events, m).state, events, m);
    } else {
      EventsStop(u, size, t, events, m, n - 1);
    }
  }

  lemma OneStops(u: Turn, size: Size, t: State, events: seq<Event>, m: nat)
    requires m < |events| && !Goes(u, size, events, m)
    ensures Live(u, m + 1) ==>
              var o := Perform(u.os, t, Scaled(u.screen, size, events[m])); !o.ok && o.state.trace == t.trace
  {
    ScaledPlace(u.screen, size, events[m]);
    hide Scaled;
    hide Nearest;
  }

  /** How many events go before the first that does not. */
  function Going(u: Turn, size: Size, events: seq<Event>, n: nat): (m: nat)
    requires n <= |events|
    ensures m <= n && (forall i :: 0 <= i < m ==> Goes(u, size, events, i)) && (m < n ==> !Goes(u, size, events, m))
  {
    if n == 0 then 0
    else
      var before := Going(u, size, events, n - 1);
      if before == n - 1 && Goes(u, size, events, n - 1) then n else before
  }

  /** A message that the session can read, served in time and with no release owed: exactly the events before the first
      that does not go are applied, in order and scaled, and the message succeeds exactly if that is all of them. */
  lemma {:induction false} HandleApplies(t: State, u: Turn)
    requires Owns(t) && !t.session.pending
    requires u.message.events.Some? && |u.message.events.value| <= 64 && u.message.size.Some?
    requires u.cancelled == None || u.cancelled.value > 0
    ensures var o := Handle(t, u); var events, size := u.message.events.value, u.message.size.value;
            var n := Going(u, size, events, |events|);
            && (o.ok <==> n == |events|) && Grown(t.trace, o.state.trace, u, size, events, n)
            && (o.ok ==> (o.state.session.x, o.state.session.y) == Pointer(t.session, u, size, events, n))
  {
    var events, size := u.message.events.value, u.message.size.value;
    var n := Going(u, size, events, |events|);
    EventsApplied(u, size, t, events, n);
    if n < |events| {
      EventsStop(u, size, t, events, n, |events|);
    }
    hide Goes;
    hide Grown;
    hide PerformAll;
    hide Pointer;
  }

  /** One that cannot be read, or comes too late, applies nothing. */
  lemma {:induction false} HandleRefuses(t: State, u: Turn)
    requires u.message.events == None || |u.message.events.value| > 64 || u.message.size == None || u.cancelled == Some(0)
    ensures Handle(t, u) == Outcome(t, false)
  {
  }

  /** While anything stays down that the system does not let go of, an owed release keeps every event back. */
  lemma {:induction false} HandleOwing(t: State, u: Turn)
    requires Owns(t) && t.session.pending
    requires u.message.events.Some? && |u.message.events.value| <= 64 && u.message.size.Some?
    requires u.cancelled == None || u.cancelled.value > 0
    requires HeldButtons(Release(u.os, t).trace) != {} || HeldKeys(Release(u.os, t).trace) != {}
    ensures Handle(t, u) == Outcome(Release(u.os, t), false)
  {
    ReleaseOwns(u.os, t);
    OwesWhatIsLeft(u.os, t.session);
    hide HeldButtons;
    hide HeldKeys;
    hide Freed;
    hide Freeing;
  }

  // ---- a release ----

  /** A release lets go of exactly what is held and the system lets go of: buttons where the pointer is, keys with the
      event that pressed them. */
  lemma {:induction false} ReleaseExactly(os: System, t: State)
    requires Owns(t)
    ensures var t1 := Release(os, t); var s := t.session;
            && HeldButtons(t1.trace) == (set b | b in HeldButtons(t.trace) && !os(Event(Up, b, s.x, s.y, 0)))
            && HeldKeys(t1.trace) == (set k | k in s.keys && !os(s.keys[k].(kind := KeyUp)))
            && t1.session.buttons == HeldButtons(t1.trace) && t1.session.keys.Keys == HeldKeys(t1.trace)
  {
    ReleaseOwns(os, t);
    hide HeldButtons;
    hide HeldKeys;
  }

  /** What serving a message does after the events that go: an error has everything released that the system lets go of. */
  lemma {:induction false} ServeReleases(t: State, u: Turn)
    requires Owns(t)
    ensures Owns(Serve(t, u))
    ensures u.message.call == Input && Handle(t, u).ok ==> Serve(t, u) == Handle(t, u).state
    ensures u.message.call == Input && !Handle(t, u).ok && (forall e: Event :: e.kind == Up || e.kind == KeyUp ==> u.os(e)) ==>
              HeldButtons(Serve(t, u).trace) == {} && HeldKeys(Serve(t, u).trace) == {}
  {
    ServeOwns(t, u);
    hide Handle;
    hide HeldButtons;
    hide HeldKeys;
    if u.message.call == Input && !Handle(t, u).ok && forall e: Event :: e.kind == Up || e.kind == KeyUp ==> u.os(e) {
      HandleOwns(t, u);
      ReleaseExactly(u.os, Handle(t, u).state);
    }
  }

  lemma HandleOwns(t: State, u: Turn)
    requires Owns(t)
    ensures Owns(Handle(t, u).state)
  {
    hide Owns;
    hide Release;
    hide PerformAll;
    ReleaseOwns(u.os, t);
    if Decoded(u.message) {
      var events := u.message.events.value;
      PerformAllOwns(u, u.message.size.value, t, events, |events|);
      PerformAllOwns(u, u.message.size.value, Release(u.os, t), events, |events|);
    }
  }
}
