/** The queue in front of an input session, which replaces hover moves: internal/agentapp/input_queue.go.  When that
  makes a difference to what the session does, and when not. */
module InputQueues {
  import opened Wrappers
  import opened InputSessions

  const QUEUE_LIMIT: nat := 64

  datatype Item = Item(message: Message, hover: bool)

  /** buttons are those that are down once everything queued so far is done. */
  datatype Queue = Queue(items: seq<Item>, buttons: set<int>)

  const EMPTY_QUEUE := Queue([], {})

  /** A single move, as the queue decodes it; whether the session can decode it is another matter. */
  predicate HoverShape(m: Message) {
    m.call.Input? && m.events.Some? && |m.events.value| == 1 && m.events.value[0].kind.Move?
  }

  predicate Hover(q: Queue, m: Message) {
    HoverShape(m) && q.buttons == {} && !m.request
  }

  predicate Replaces(q: Queue, m: Message) {
    Hover(q, m) && q.items != [] && q.items[|q.items| - 1].hover
  }

  predicate Accepts(q: Queue, m: Message) {
    !m.oversize && (Replaces(q, m) || |q.items| < QUEUE_LIMIT)
  }

  function Track(buttons: set<int>, events: seq<Event>): set<int> {
    if events == [] then buttons
    else
      var before, e := Track(buttons, events[..|events| - 1]), events[|events| - 1];
      if !(1 <= e.button <= 3) then before
      else if e.kind.Down? then before + {e.button}
      else if e.kind.Up? then before - {e.button}
      else before
  }

  function Enqueue(q: Queue, m: Message): Queue
    requires Accepts(q, m)
  {
    if Replaces(q, m) then q.(items := q.items[..|q.items| - 1] + [Item(m, true)])
    else
      Queue(q.items + [Item(m, Hover(q, m))],
            if m.call.InputRelease? then {} else if m.events.Some? then Track(q.buttons, m.events.value) else q.buttons)
  }

  // ---- queue and worker together ----

  /** turns are the messages in the queue, each with the world in which it will be served; log is everything that was
      accepted, and served everything that was served, in order. */
  datatype Agent = Agent(queue: Queue, turns: seq<Turn>, state: State, log: seq<Turn>, served: seq<Turn>)

  const NEW_AGENT := Agent(EMPTY_QUEUE, [], NEW_STATE, [], [])

  datatype Step = Accept(turn: Turn) | Work

  predicate Possible(a: Agent, s: Step) {
    match s
    case Accept(u) => Accepts(a.queue, u.message)
    case Work => a.queue.items != [] && a.turns != []
  }

  predicate Replacement(a: Agent, s: Step) {
    s.Accept? && Accepts(a.queue, s.turn.message) && Replaces(a.queue, s.turn.message) && a.turns != []
  }

  function Apply(a: Agent, s: Step): Agent
    requires Possible(a, s)
  {
    match s
    case Accept(u) =>
      var kept := if Replacement(a, s) then a.turns[..|a.turns| - 1] else a.turns;
      Agent(Enqueue(a.queue, u.message), kept + [u], a.state, a.log + [u], a.served)
    case Work =>
      Agent(a.queue.(items := a.queue.items[1..]), a.turns[1..], Serve(a.state, a.turns[0]), a.log, a.served + [a.turns[0]])
  }

  /** What cannot happen is skipped. */
  function Run(steps: seq<Step>): Agent {
    if steps == [] then NEW_AGENT
    else
      var before := Run(steps[..|steps| - 1]);
      if Possible(before, steps[|steps| - 1]) then Apply(before, steps[|steps| - 1]) else before
  }

  // ---- what is seen of a trace ----

  predicate Hovering(e: Entry) {
    e.Applied? && e.event.kind.Move? && e.held == {}
  }

  /** Everything but hover moves, in order, with the position of each event and the buttons held. */
  function Others(trace: seq<Entry>): seq<Entry> {
    if trace == [] then []
    else Others(trace[..|trace| - 1]) + (if Hovering(trace[|trace| - 1]) then [] else [trace[|trace| - 1]])
  }

  lemma {:induction false} OthersAppend(trace: seq<Entry>, more: seq<Entry>)
    ensures Others(trace + more) == Others(trace) + Others(more)
    decreases |more|
  {
    if more == [] {
      assert trace + more == trace;
    } else {
      var n := |more| - 1;
      OthersAppend(trace, more[..n]);
      assert (trace + more)[..|trace + more| - 1] == trace + more[..n];
    }
  }

  lemma OthersOne(e: Entry)
    ensures Others([e]) == if Hovering(e) then [] else [e]
  {
    assert [e][..0] == [];
  }

  /** Of hover moves that follow one another only the last is left. */
  function Thin(trace: seq<Entry>): seq<Entry> {
    if trace == [] then []
    else
      var before, last := Thin(trace[..|trace| - 1]), trace[|trace| - 1];
      if Hovering(last) && before != [] && Hovering(before[|before| - 1]) then before[..|before| - 1] + [last] else before + [last]
  }

  lemma ThinSnoc(trace: seq<Entry>, e: Entry)
    ensures Thin(trace + [e]) ==
            var before := Thin(trace);
            if Hovering(e) && before != [] && Hovering(before[|before| - 1]) then before[..|before| - 1] + [e] else before + [e]
  {
    assert (trace + [e])[..|trace|] == trace;
  }

  /** One hover move after another is as good as the second alone. */
  lemma ThinTwo(trace: seq<Entry>, a: Entry, b: Entry)
    requires Hovering(a) && Hovering(b)
    ensures Thin(trace + [a] + [b]) == Thin(trace + [b])
  {
    ThinSnoc(trace, a);
    ThinSnoc(trace + [a], b);
    ThinSnoc(trace, b);
  }

  /** A trace seen without any hover moves, or with the last of each run of them. */
  function Seen(thin: bool, trace: seq<Entry>): seq<Entry> {
    if thin then Thin(trace) else Others(trace)
  }

  predicate Alike(thin: bool, a: State, b: State) {
    a.session == b.session && Seen(thin, a.trace) == Seen(thin, b.trace)
  }

  // ---- serving does not look at the trace ----

  lemma AlikeEntry(thin: bool, a: State, b: State, s: Session, e: Entry)
    requires Alike(thin, a, b)
    ensures Alike(thin, State(s, a.trace + [e]), State(s, b.trace + [e]))
  {
    if thin {
      ThinSnoc(a.trace, e);
      ThinSnoc(b.trace, e);
    } else {
      OthersAppend(a.trace, [e]);
      OthersAppend(b.trace, [e]);
    }
    hide Thin;
    hide Others;
  }

  lemma ReleaseAlike(thin: bool, os: System, a: State, b: State)
    requires Alike(thin, a, b)
    ensures Alike(thin, Release(os, a), Release(os, b))
  {
    hide Seen;
    AlikeEntry(thin, a, b, Freed(os, a.session), Released(ReleasedButtons(os, a.session), ReleasedKeys(os, a.session)));
    assert a.trace + [] == a.trace && b.trace + [] == b.trace;
    hide Freed;
  }

  lemma PerformAlike(thin: bool, os: System, a: State, b: State, e: Event)
    requires Alike(thin, a, b)
    ensures Alike(thin, Perform(os, a, e).state, Perform(os, b, e).state) && Perform(os, a, e).ok == Perform(os, b, e).ok
  {
    hide Seen;
    var s := if OfMouse(e.kind) then a.session.(x := e.x, y := e.y) else a.session;
    AlikeEntry(thin, a, b, Own(s, e), Applied(e, s.buttons));
    hide Own;
  }

  lemma {:induction false} PerformAllAlike(thin: bool, u: Turn, size: Size, a: State, b: State, events: seq<Event>, n: nat)
    requires Alike(thin, a, b) && n <= |events|
    ensures var oa, ob := PerformAll(u, size, a, events, n), PerformAll(u, size, b, events, n);
            Alike(thin, oa.state, ob.state) && oa.ok == ob.ok
    decreases n
  {
    hide Alike;
    hide Perform;
    if n > 0 {
      PerformAllAlike(thin, u, size, a, b, events, n - 1);
      PerformAlike(thin, u.os, PerformAll(u, size, a, events, n - 1).state, PerformAll(u, size, b, events, n - 1).state,
                   Scaled(u.screen, size, events[n - 1]));
    }
  }

  lemma ServeAlike(thin: bool, a: State, b: State, u: Turn)
    requires Alike(thin, a, b)
    ensures Alike(thin, Serve(a, u), Serve(b, u))
  {
    ReleaseAlike(thin, u.os, a, b);
    hide Seen;
    hide Release;
    hide PerformAll;
    if u.message.call.Input? {
      var oa, ob := Handle(a, u), Handle(b, u);
      if Decoded(u.message) {
        var a1, b1 := if a.session.pending then Release(u.os, a) else a, if b.session.pending then Release(u.os, b) else b;
        PerformAllAlike(thin, u, u.message.size.value, a1, b1, u.message.events.value, |u.message.events.value|);
      }
      ReleaseAlike(thin, u.os, oa.state, ob.state);
    }
  }

  // ---- the buttons that the queue tracks ----

  /** The session holds no other buttons than the queue thinks, or owes a release. */
  predicate Guarded(s: Session, buttons: set<int>) {
    s.pending || s.buttons <= buttons
  }

  lemma {:induction false} PerformGuarded(u: Turn, size: Size, t: State, events: seq<Event>, n: nat, buttons: set<int>)
    requires !t.session.pending && t.session.buttons <= buttons && n <= |events|
    ensures var o := PerformAll(u, size, t, events, n);
            o.ok ==> !o.state.session.pending && o.state.session.buttons <= Track(buttons, events[..n])
    decreases n
  {
    if n > 0 {
      PerformGuarded(u, size, t, events, n - 1, buttons);
      assert events[..n][..n - 1] == events[..n - 1];
      hide ScaleCoordinate;
    }
  }

  /** After a release nothing is held, or something is owed. */
  lemma ReleaseGuards(os: System, s: Session, buttons: set<int>)
    ensures Guarded(Freed(os, s), buttons)
    ensures !Freed(os, s).pending ==> Freed(os, s).buttons == {} && Freed(os, s).keys == map[]
  {
    OwesWhatIsLeft(os, s);
  }

  lemma ServeGuarded(t: State, q: Queue, u: Turn)
    requires Guarded(t.session, q.buttons) && Accepts(q, u.message) && !Replaces(q, u.message)
    ensures Guarded(Serve(t, u).session, Enqueue(q, u.message).buttons)
  {
    var m := u.message;
    var buttons := Enqueue(q, m).buttons;
    ReleaseGuards(u.os, t.session, buttons);
    ReleaseGuards(u.os, t.session, q.buttons);
    hide Freed;
    if m.call.Input? {
      ReleaseGuards(u.os, Handle(t, u).state.session, buttons);
      if Decoded(m) {
        var t1 := if t.session.pending then Release(u.os, t) else t;
        if !t1.session.pending {
          PerformGuarded(u, m.size.value, t1, m.events.value, |m.events.value|, q.buttons);
          assert m.events.value[..|m.events.value|] == m.events.value;
        }
      }
      hide PerformAll;
      hide Track;
    }
  }

  // ---- what a hover move does to a session that holds no button ----

  /** The session gets as far as the move. */
  predicate Readable(u: Turn) {
    Decoded(u.message) && Live(u, 0) && Live(u, 1)
  }

  function MoveOf(u: Turn): Event
    requires HoverShape(u.message) && Decoded(u.message)
  {
    Scaled(u.screen, u.message.size.value, u.message.events.value[0])
  }

  /** The session reads the move and the system takes it. */
  predicate Taken(u: Turn)
    requires HoverShape(u.message)
  {
    Readable(u) && u.os(MoveOf(u))
  }

  function Moved(s: Session, u: Turn): Session
    requires HoverShape(u.message)
  {
    if Readable(u) then s.(x := MoveOf(u).x, y := MoveOf(u).y) else s
  }

  /** Serving the move: a release that is owed is tried first, and an error ends in a release. */
  function After(s: Session, u: Turn): Session
    requires HoverShape(u.message)
  {
    if s.pending then
      var r := Freed(u.os, s);
      if r.pending then r else Moved(r, u)
    else if Taken(u) then Moved(s, u)
    else Freed(u.os, Moved(s, u))
  }

  function Added(s: Session, u: Turn): seq<Entry>
    requires HoverShape(u.message)
  {
    if !s.pending && Taken(u) then [] else Freeing(u.os, s)
  }

  lemma HoverAlone(t: State, u: Turn)
    requires HoverShape(u.message) && Decoded(u.message)
    ensures PerformAll(u, u.message.size.value, t, u.message.events.value, 1) ==
            if Live(u, 1) then Perform(u.os, t, MoveOf(u)) else Outcome(t, false)
  {
    var events, size := u.message.events.value, u.message.size.value;
    assert PerformAll(u, size, t, events, 0) == Outcome(t, true);
  }

  /** With nothing held and nothing owed a release does nothing. */
  lemma FreeNothing(os: System, s: Session)
    requires !s.pending && s.buttons == {} && s.keys == map[]
    ensures Freed(os, s) == s && Freeing(os, s) == []
  {
    assert ReleasedButtons(os, s) == {} && ReleasedKeys(os, s) == {};
    assert s.keys - {} == s.keys;
  }

  lemma HoverServed(t: State, u: Turn)
    requires HoverShape(u.message) && Guarded(t.session, {})
    ensures Serve(t, u).session == After(t.session, u)
    ensures Others(Serve(t, u).trace) == Others(t.trace) + Added(t.session, u)
  {
    if t.session.pending {
      PendingServed(t, u);
    } else {
      FreeServed(t, u);
    }
  }

  /** With nothing owed. */
  lemma FreeServed(t: State, u: Turn)
    requires HoverShape(u.message) && !t.session.pending && t.session.buttons == {}
    ensures Serve(t, u).session == After(t.session, u)
    ensures Serve(t, u).trace == t.trace + (if Taken(u) then [Applied(MoveOf(u), {})] else Freeing(u.os, t.session))
    ensures Others(Serve(t, u).trace) == Others(t.trace) + Added(t.session, u)
  {
    if Decoded(u.message) {
      HoverAlone(t, u);
    }
    SameFreeing(u.os, t.session, Moved(t.session, u));
    hide PerformAll;
    hide Freed;
    hide Freeing;
    if Taken(u) {
      OthersAppend(t.trace, [Applied(MoveOf(u), {})]);
      OthersOne(Applied(MoveOf(u), {}));
    } else {
      OthersAppend(t.trace, Freeing(u.os, t.session));
      FreeingSeen(u.os, t.session);
    }
    hide Others;
  }

  lemma FreeingSeen(os: System, s: Session)
    ensures Others(Freeing(os, s)) == Freeing(os, s)
  {
    OthersOne(Released(ReleasedButtons(os, s), ReleasedKeys(os, s)));
  }

  /** With no button held the position does not matter to a release. */
  lemma SameFreeing(os: System, s: Session, r: Session)
    requires s.buttons == r.buttons == {} && s.keys == r.keys && s.pending == r.pending
    ensures Freeing(os, s) == Freeing(os, r)
    ensures ReleasedButtons(os, s) == ReleasedButtons(os, r) && ReleasedKeys(os, s) == ReleasedKeys(os, r)
  {
    assert ReleasedButtons(os, s) == ReleasedButtons(os, r) == {};
  }

  /** With a release owed. */
  lemma PendingServed(t: State, u: Turn)
    requires HoverShape(u.message) && t.session.pending
    ensures Serve(t, u).session == After(t.session, u)
    ensures Others(Serve(t, u).trace) == Others(t.trace) + Added(t.session, u)
    ensures Freed(u.os, t.session).pending || !Readable(u) ==> Serve(t, u) == Release(u.os, t)
    ensures !Freed(u.os, t.session).pending ==> Serve(t, u) == Serve(Release(u.os, t), u)
  {
    var t1 := Release(u.os, t);
    OthersAppend(t.trace, Freeing(u.os, t.session));
    FreeingSeen(u.os, t.session);
    ReleaseTwice(u.os, t);
    ReleaseGuards(u.os, t.session, {});
    if !t1.session.pending {
      FreeServed(t1, u);
      FreeNothing(u.os, t1.session);
      FreeNothing(u.os, Moved(t1.session, u));
      if Decoded(u.message) {
        HoverAlone(t1, u);
      }
    }
    hide Freed;
    hide Freeing;
    hide PerformAll;
    hide Others;
  }

  // ---- when one hover move may replace another ----

  /** What a system would have the session let go of. */
  function Lets(os: System, s: Session): (set<int>, set<KeyId>) {
    (ReleasedButtons(os, s), ReleasedKeys(os, s))
  }

  predicate At(s: Session, r: Session) {
    s.x == r.x && s.y == r.y
  }

  /** Whether the move a can be dropped when b comes next, for a session that holds no button or owes a release.  If a
      would be taken, b must be read, or a must leave the pointer where it was.  If a would fail, which has everything
      released, then that must be nothing that b does not do: b is taken and no key is held, or b fails too and lets go
      of the same or of what a did not, and the pointer ends at the same place. */
  predicate Harmless(s: Session, a: Turn, b: Turn)
    requires HoverShape(a.message) && HoverShape(b.message)
  {
    var la, lb, all := Lets(a.os, s), Lets(b.os, s), (s.buttons, s.keys.Keys);
    var same := la == ({}, {}) || la == lb;
    if s.pending then same && (la != all || Readable(b) || At(Moved(s, a), s))
    else if Taken(a) then Readable(b) || At(Moved(s, a), s)
    else if Taken(b) then s.keys == map[]
    else same && (if Readable(b) then lb == all || At(Moved(s, a), Moved(s, b)) else At(Moved(s, a), s))
  }

  /** The session ends the same, and the same is added to what is seen. */
  predicate SameEffect(s: Session, a: Turn, b: Turn)
    requires HoverShape(a.message) && HoverShape(b.message)
  {
    After(After(s, a), b) == After(s, b) && Added(s, a) + Added(After(s, a), b) == Added(s, b)
  }

  lemma TakenExact(s: Session, a: Turn, b: Turn)
    requires HoverShape(a.message) && HoverShape(b.message) && !s.pending && s.buttons == {} && Taken(a)
    ensures SameEffect(s, a, b) <==> Readable(b) || At(Moved(s, a), s)
  {
    var s1 := Moved(s, a);
    SameFreeing(b.os, s, s1);
    SameFreeing(b.os, s, Moved(s, b));
    SameFreeing(b.os, s1, Moved(s1, b));
    assert [] + Added(s1, b) == Added(s1, b);
    hide ReleasedButtons;
    hide ReleasedKeys;
    hide Scaled;
  }

  /** Two releases in a row, by sets: the second lets go of what is left. */
  lemma FreedTwice(first: System, second: System, s: Session)
    ensures var r := Freed(second, Freed(first, s));
            && r.buttons == s.buttons - ReleasedButtons(first, s) - ReleasedButtons(second, s)
            && r.keys == s.keys - ReleasedKeys(first, s) - ReleasedKeys(second, s)
            && r.x == s.x && r.y == s.y && (r.pending <==> r.buttons != {} || r.keys.Keys != {})
  {
    ReleasedAgain(first, second, s);
    OwesWhatIsLeft(second, Freed(first, s));
    var rb, sb := ReleasedButtons(first, s), ReleasedButtons(second, s);
    assert s.buttons - rb - (sb - rb) == s.buttons - rb - sb;
    var rk, sk := ReleasedKeys(first, s), ReleasedKeys(second, s);
    assert s.keys - rk - (sk - rk) == s.keys - rk - sk;
  }

  /** What two releases add to the trace is what the second alone adds just when the first adds nothing, or the second
      nothing more. */
  lemma FreeingTwice(first: System, second: System, s: Session)
    ensures Freeing(first, s) + Freeing(second, Freed(first, s)) == Freeing(second, s) <==>
            Lets(first, s) == ({}, {}) || Lets(first, s) == Lets(second, s)
  {
    ReleasedAgain(first, second, s);
    var rb, sb := ReleasedButtons(first, s), ReleasedButtons(second, s);
    var rk, sk := ReleasedKeys(first, s), ReleasedKeys(second, s);
    hide ReleasedButtons;
    hide ReleasedKeys;
    if rb == {} && rk == {} {
      assert sb - rb == sb && sk - rk == sk;
    } else if sb - rb == {} && sk - rk == {} {
      assert Freeing(first, s) + [] == [Released(rb, rk)];
      assert Freeing(second, s) == [Released(rb, rk)] <==> rb == sb && rk == sk;
    } else {
      assert |Freeing(first, s) + Freeing(second, Freed(first, s))| == 2;
      assert |Freeing(second, s)| <= 1;
    }
  }

  /** The keys that are left after both releases are those left after the second alone, if it lets go of what the first
      does or the first of nothing. */
  lemma LeftAlike(first: System, second: System, s: Session)
    requires Lets(first, s) == ({}, {}) || Lets(first, s) == Lets(second, s)
    ensures Freed(second, Freed(first, s)) == Freed(second, s)
  {
    FreedTwice(first, second, s);
    OwesWhatIsLeft(second, s);
    var sb, sk := ReleasedButtons(second, s), ReleasedKeys(second, s);
    assert s.buttons - {} - sb == s.buttons - sb && s.buttons - sb - sb == s.buttons - sb;
    assert s.keys - {} - sk == s.keys - sk && s.keys - sk - sk == s.keys - sk;
  }

  lemma PendingExact(s: Session, a: Turn, b: Turn)
    requires HoverShape(a.message) && HoverShape(b.message) && s.pending
    ensures SameEffect(s, a, b) <==> Harmless(s, a, b)
  {
    var s1 := Freed(a.os, s);
    FreeingTwice(a.os, b.os, s);
    OwesWhatIsLeft(a.os, s);
    OwesWhatIsLeft(b.os, s);
    if s1.pending {
      if Lets(a.os, s) == ({}, {}) || Lets(a.os, s) == Lets(b.os, s) {
        LeftAlike(a.os, b.os, s);
      }
      PendingLeft(a.os, s);
    } else {
      PendingAllFreed(s, a, b);
    }
    hide Freed;
    hide Freeing;
    hide Lets;
  }

  lemma PendingLeft(os: System, s: Session)
    requires Freed(os, s).pending
    ensures Lets(os, s) != (s.buttons, s.keys.Keys)
  {
  }

  /** The first makes good what is owed. */
  lemma PendingAllFreed(s: Session, a: Turn, b: Turn)
    requires HoverShape(a.message) && HoverShape(b.message) && s.pending && !Freed(a.os, s).pending
    ensures SameEffect(s, a, b) <==> Harmless(s, a, b)
  {
    var s1, all := Freed(a.os, s), (s.buttons, s.keys.Keys);
    ReleaseGuards(a.os, s, {});
    ReleaseGuards(b.os, s, {});
    assert Lets(a.os, s) == all;
    var m := Moved(s1, a);
    FreeNothing(b.os, m);
    FreeNothing(b.os, Moved(m, b));
    assert Added(m, b) == [];
    assert Added(s, a) + [] == Added(s, a);
    assert After(m, b) == Moved(m, b);
    assert Freeing(a.os, s) == Freeing(b.os, s) <==> Lets(a.os, s) == Lets(b.os, s) || (Freeing(a.os, s) == [] == Freeing(b.os, s));
    assert Lets(b.os, s) == all <==> !Freed(b.os, s).pending;
  }

  /** The first fails and everything is released, with nothing owed before. */
  lemma FailedExact(s: Session, a: Turn, b: Turn)
    requires HoverShape(a.message) && HoverShape(b.message) && !s.pending && s.buttons == {} && !Taken(a)
    ensures SameEffect(s, a, b) <==> Harmless(s, a, b)
  {
    var m := Moved(s, a);
    SameFreeing(a.os, s, m);
    SameFreeing(b.os, s, m);
    SameFreeing(b.os, s, Moved(s, b));
    FreeingTwice(a.os, b.os, m);
    OwesWhatIsLeft(a.os, m);
    OwesWhatIsLeft(b.os, m);
    OwesWhatIsLeft(b.os, Moved(s, b));
    if Freed(a.os, m).pending {
      FailedOwing(s, a, b);
    } else {
      FailedFreed(s, a, b);
    }
  }

  lemma FailedFreed(s: Session, a: Turn, b: Turn)
    requires HoverShape(a.message) && HoverShape(b.message) && !s.pending && s.buttons == {} && !Taken(a)
    requires !Freed(a.os, Moved(s, a)).pending
    ensures SameEffect(s, a, b) <==> Harmless(s, a, b)
  {
    var m := Moved(s, a);
    var s1 := Freed(a.os, m);
    SameFreeing(a.os, s, m);
    SameFreeing(b.os, s, m);
    SameFreeing(b.os, s, Moved(s, b));
    ReleaseGuards(a.os, m, {});
    ReleaseGuards(b.os, Moved(s, b), {});
    FreeNothing(b.os, s1);
    FreeNothing(b.os, Moved(s1, b));
    assert ReleasedKeys(a.os, s) == s.keys.Keys;
    assert Added(s1, b) == [];
    assert Added(s, a) + [] == Added(s, a);
    assert After(s1, b) == Moved(s1, b);
    assert ReleasedKeys(b.os, s) == s.keys.Keys <==> !Freed(b.os, Moved(s, b)).pending;
    assert s.keys.Keys == {} <==> s.keys == map[];
  }

  lemma FailedOwing(s: Session, a: Turn, b: Turn)
    requires HoverShape(a.message) && HoverShape(b.message) && !s.pending && s.buttons == {} && !Taken(a)
    requires Freed(a.os, Moved(s, a)).pending
    ensures SameEffect(s, a, b) <==> Harmless(s, a, b)
  {
    var m := Moved(s, a);
    var s1 := Freed(a.os, m);
    SameFreeing(a.os, s, m);
    SameFreeing(b.os, s, m);
    SameFreeing(b.os, s, Moved(s, b));
    FreeingTwice(a.os, b.os, m);
    FreedTwice(a.os, b.os, m);
    OwesWhatIsLeft(a.os, m);
    OwesWhatIsLeft(b.os, Moved(s, b));
    assert Lets(a.os, m) == Lets(a.os, s) && Lets(b.os, m) == Lets(b.os, s);
    assert s.keys.Keys == {} ==> ReleasedKeys(a.os, s) == {};
    assert s.keys.Keys != {};
    if Lets(a.os, m) == ({}, {}) || Lets(a.os, m) == Lets(b.os, m) {
      LeftAlike(a.os, b.os, m);
    }
    assert ReleasedKeys(b.os, s) == s.keys.Keys <==> !Freed(b.os, Moved(s, b)).pending;
    assert Added(s1, b) == Freeing(b.os, s1);
    if Taken(b) {
      assert !Harmless(s, a, b);
      assert After(s, b).keys == s.keys && !After(s, b).pending;
    }
  }

  lemma {:induction false} HarmlessExactly(s: Session, a: Turn, b: Turn)
    requires HoverShape(a.message) && HoverShape(b.message) && Guarded(s, {})
    ensures SameEffect(s, a, b) <==> Harmless(s, a, b)
  {
    if s.pending {
      PendingExact(s, a, b);
    } else if Taken(a) {
      TakenExact(s, a, b);
    } else {
      FailedExact(s, a, b);
    }
  }

  /** With no button held, or a release owed, serving one hover move after another is as good as serving the second
      alone if and only if dropping the first is harmless. */
  lemma {:induction false} TwoHovers(t: State, a: Turn, b: Turn)
    requires Guarded(t.session, {}) && HoverShape(a.message) && HoverShape(b.message)
    ensures Alike(false, Serve(Serve(t, a), b), Serve(t, b)) <==> Harmless(t.session, a, b)
    ensures Guarded(Serve(t, b).session, {})
  {
    hide Serve;
    hide Others;
    hide Harmless;
    hide Added;
    hide After;
    HarmlessExactly(t.session, a, b);
    HoverServed(t, a);
    HoverServed(t, b);
    AfterGuarded(t.session, a);
    AfterGuarded(t.session, b);
    HoverServed(Serve(t, a), b);
    var seen := Others(t.trace);
    var one, two := Added(t.session, a) + Added(After(t.session, a), b), Added(t.session, b);
    assert (seen + Added(t.session, a)) + Added(After(t.session, a), b) == seen + one;
    assert seen + one == seen + two ==> (seen + one)[|seen|..] == one && (seen + two)[|seen|..] == two;
  }

  lemma AfterGuarded(s: Session, u: Turn)
    requires HoverShape(u.message) && Guarded(s, {})
    ensures Guarded(After(s, u), {})
  {
    ReleaseGuards(u.os, s, {});
    ReleaseGuards(u.os, Moved(s, u), {});
  }

  /** If both moves are taken, then even what is seen of the hover moves is the same. */
  lemma {:induction false} TwoTaken(t: State, a: Turn, b: Turn)
    requires Guarded(t.session, {}) && HoverShape(a.message) && HoverShape(b.message) && Taken(a) && Taken(b)
    requires Harmless(t.session, a, b)
    ensures Alike(true, Serve(Serve(t, a), b), Serve(t, b))
  {
    if t.session.pending {
      PendingServed(t, a);
      PendingServed(t, b);
      ReleaseGuards(a.os, t.session, {});
      if Freed(a.os, t.session).pending {
        LeftAlike(a.os, b.os, t.session);
        FreeingTwice(a.os, b.os, t.session);
        TwoReleases(t, a, b);
      } else {
        AllFreedAlike(a.os, b.os, t);
        TwoFree(Release(a.os, t), a, b);
      }
    } else {
      TwoFree(t, a, b);
    }
    hide Serve;
    hide Thin;
    hide Freed;
    hide Freeing;
  }

  lemma AllFreedAlike(first: System, second: System, t: State)
    requires Lets(first, t.session) == ({}, {}) || Lets(first, t.session) == Lets(second, t.session)
    requires !Freed(first, t.session).pending
    ensures Release(first, t) == Release(second, t)
  {
    if Lets(first, t.session) == ({}, {}) {
      OwesWhatIsLeft(first, t.session);
      assert ReleasedButtons(second, t.session) == {} && ReleasedKeys(second, t.session) == {};
    }
  }

  lemma TwoReleases(t: State, a: Turn, b: Turn)
    requires HoverShape(a.message) && HoverShape(b.message)
    requires t.session.pending && Freed(a.os, t.session).pending
    requires Lets(a.os, t.session) == ({}, {}) || Lets(a.os, t.session) == Lets(b.os, t.session)
    ensures Serve(Serve(t, a), b) == Serve(t, b)
  {
    hide Serve;
    hide Freed;
    hide Freeing;
    hide Others;
    hide Added;
    hide After;
    PendingServed(t, a);
    PendingServed(t, b);
    var t1 := Release(a.os, t);
    PendingServed(t1, b);
    LeftAlike(a.os, b.os, t.session);
    FreeingTwice(a.os, b.os, t.session);
    assert (t.trace + Freeing(a.os, t.session)) + Freeing(b.os, Freed(a.os, t.session)) == t.trace + Freeing(b.os, t.session);
    assert Release(b.os, t1) == Release(b.os, t);
  }

  lemma TwoFree(t: State, a: Turn, b: Turn)
    requires !t.session.pending && t.session.buttons == {}
    requires HoverShape(a.message) && HoverShape(b.message) && Taken(a) && Taken(b)
    ensures Alike(true, Serve(Serve(t, a), b), Serve(t, b))
  {
    FreeServed(t, a);
    FreeServed(Serve(t, a), b);
    FreeServed(t, b);
    ThinTwo(t.trace, Applied(MoveOf(a), {}), Applied(MoveOf(b), {}));
    hide Serve;
    hide Thin;
    hide Scaled;
  }

  /** For two messages that the session reads while the system answers alike and nothing is owed: the first may be
      dropped exactly if it would be taken, or no key is held, or the second is refused as well and then either every
      key is let go of or both moves lead to the same place. */
  lemma {:induction false} HarmlessUnderOneSystem(s: Session, a: Turn, b: Turn)
    requires HoverShape(a.message) && HoverShape(b.message) && Readable(a) && Readable(b) && a.os == b.os
    requires !s.pending && s.buttons == {}
    ensures Harmless(s, a, b) <==>
            || a.os(MoveOf(a)) || s.keys == map[]
            || (!b.os(MoveOf(b))
                && ((forall k :: k in s.keys ==> b.os(s.keys[k].(kind := KeyUp)))
                    || (MoveOf(a).x == MoveOf(b).x && MoveOf(a).y == MoveOf(b).y)))
  {
    hide Scaled;
    assert ReleasedButtons(b.os, s) == {} == s.buttons;
    assert s.keys == map[] <==> s.keys.Keys == {};
    assert (forall k :: k in s.keys ==> b.os(s.keys[k].(kind := KeyUp))) <==> ReleasedKeys(b.os, s) == s.keys.Keys;
  }

  // ---- every interleaving of queue and worker ----

  ghost predicate SameMessages(items: seq<Item>, us: seq<Turn>) {
    |items| == |us| && forall i :: 0 <= i < |us| ==> items[i].message == us[i].message
  }

  /** Where serving what is still queued will lead. */
  function Ahead(a: Agent): State {
    ServeAll(a.state, a.turns)
  }

  /** Where serving everything that was accepted leads. */
  function Faithful(log: seq<Turn>): State {
    ServeAll(NEW_STATE, log)
  }

  /** Where serving all but the last of the queue will lead. */
  function Short(a: Agent): State
    requires a.turns != []
  {
    ServeAll(a.state, a.turns[..|a.turns| - 1])
  }

  /** If the last message in the queue is a hover move, no button is held before it. */
  ghost predicate HoverLast(a: Agent) {
    a.turns != [] && a.queue.items != [] && a.queue.items[|a.queue.items| - 1].hover ==>
      HoverShape(a.turns[|a.turns| - 1].message) && a.queue.buttons == {} && Guarded(Short(a).session, {})
  }

  /** Whatever the system does, the mask covers what the session will hold. */
  ghost predicate Tracked(a: Agent) {
    SameMessages(a.queue.items, a.turns) && Guarded(Ahead(a).session, a.queue.buttons) && HoverLast(a)
  }

  lemma AheadLast(a: Agent)
    requires a.turns != []
    ensures Ahead(a) == Serve(Short(a), a.turns[|a.turns| - 1])
  {
  }

  lemma AppendTracked(a: Agent, u: Turn)
    requires Tracked(a) && Accepts(a.queue, u.message) && !Replaces(a.queue, u.message)
    ensures Tracked(Apply(a, Accept(u))) && Ahead(Apply(a, Accept(u))) == Serve(Ahead(a), u)
  {
    hide Serve;
    hide ServeAll;
    hide Guarded;
    hide Track;
    hide HoverShape;
    ServeSnoc(a.state, a.turns, u);
    ServeGuarded(Ahead(a), a.queue, u);
    assert (a.turns + [u])[..|a.turns|] == a.turns;
    HoverTracksNothing(a.queue, u.message);
    GuardedByNone(Ahead(a).session, a.queue.buttons);
  }

  lemma GuardedByNone(s: Session, buttons: set<int>)
    requires Guarded(s, buttons)
    ensures buttons == {} ==> Guarded(s, {})
  {
  }

  lemma HoverTracksNothing(q: Queue, m: Message)
    requires Accepts(q, m) && !Replaces(q, m)
    ensures Hover(q, m) ==> HoverShape(m) && Enqueue(q, m).buttons == {} && q.buttons == {}
  {
    if Hover(q, m) {
      assert m.events.value[..0] == [];
      assert Track(q.buttons, m.events.value) == Track(q.buttons, m.events.value[..0]);
    }
  }

  lemma ReplaceTracked(a: Agent, u: Turn)
    requires Tracked(a) && Accepts(a.queue, u.message) && Replaces(a.queue, u.message)
    ensures Tracked(Apply(a, Accept(u))) && Replacement(a, Accept(u))
    ensures HoverShape(a.turns[|a.turns| - 1].message) && Guarded(Short(a).session, {})
    ensures Ahead(Apply(a, Accept(u))) == Serve(Short(a), u)
  {
    hide Serve;
    hide ServeAll;
    hide After;
    hide Guarded;
    hide Others;
    hide Added;
    var n := |a.turns| - 1;
    assert a.queue.buttons == {};
    ServeSnoc(a.state, a.turns[..n], u);
    assert (a.turns[..n] + [u])[..n] == a.turns[..n];
    HoverServed(Short(a), u);
    AfterGuarded(Short(a).session, u);
  }

  lemma WorkTracked(a: Agent)
    requires Tracked(a) && Possible(a, Work)
    ensures Tracked(Apply(a, Work)) && Ahead(Apply(a, Work)) == Ahead(a)
  {
    hide Serve;
    hide ServeAll;
    hide Guarded;
    var us, n := a.turns, |a.turns| - 1;
    assert us == [us[0]] + us[1..];
    ServeCons(a.state, us[0], us[1..]);
    if n > 0 {
      assert us[..n] == [us[0]] + us[1..][..n - 1];
      ServeCons(a.state, us[0], us[1..][..n - 1]);
    }
  }

  lemma {:induction false} RunTracked(steps: seq<Step>)
    ensures Tracked(Run(steps))
    decreases |steps|
  {
    if steps == [] {
      assert Ahead(NEW_AGENT) == NEW_STATE;
    } else {
      var before, s := Run(steps[..|steps| - 1]), steps[|steps| - 1];
      RunTracked(steps[..|steps| - 1]);
      hide Tracked;
      hide Accepts;
      hide Replaces;
      if Possible(before, s) {
        match s
        case Work => WorkTracked(before);
        case Accept(u) =>
          if Replaces(before.queue, u.message) {
            ReplaceTracked(before, u);
          } else {
            AppendTracked(before, u);
          }
      }
    }
  }

  /** Serving what is queued leads to where serving everything accepted would have led. */
  predicate Unseen(thin: bool, a: Agent) {
    Alike(thin, Ahead(a), Faithful(a.log))
  }

  /** If the step replaces a hover move, that is harmless. */
  ghost predicate HarmlessStep(a: Agent, s: Step) {
    Replacement(a, s) ==>
      && HoverShape(a.turns[|a.turns| - 1].message) && HoverShape(s.turn.message)
      && Harmless(Short(a).session, a.turns[|a.turns| - 1], s.turn)
  }

  /** A step leaves the queue unseen, if it was, exactly when it is harmless. */
  lemma {:induction false} StepUnseenExactly(a: Agent, s: Step)
    requires Tracked(a) && Possible(a, s) && Unseen(false, a)
    ensures Unseen(false, Apply(a, s)) <==> HarmlessStep(a, s)
  {
    match s
    case Work =>
      WorkTracked(a);
      hide Serve;
      hide Others;
    case Accept(u) =>
      ServeSnoc(NEW_STATE, a.log, u);
      ServeAlike(false, Ahead(a), Faithful(a.log), u);
      if Replaces(a.queue, u.message) {
        ReplaceTracked(a, u);
        AheadLast(a);
        TwoHovers(Short(a), a.turns[|a.turns| - 1], u);
      } else {
        AppendTracked(a, u);
      }
      hide Serve;
      hide ServeAll;
      hide Harmless;
      hide Others;
  }

  /** Unseen at the beginning and after every step of a run. */
  ghost predicate AlwaysUnseen(steps: seq<Step>) {
    Unseen(false, Run(steps)) && (steps == [] || AlwaysUnseen(steps[..|steps| - 1]))
  }

  /** Every replacement in a run is harmless. */
  ghost predicate AlwaysHarmless(steps: seq<Step>) {
    steps == [] || (AlwaysHarmless(steps[..|steps| - 1]) && HarmlessStep(Run(steps[..|steps| - 1]), steps[|steps| - 1]))
  }

  /** The queue is unseen after every step of a run if and only if every replacement in it is harmless. */
  lemma {:induction false} UnseenExactly(steps: seq<Step>)
    ensures AlwaysUnseen(steps) <==> AlwaysHarmless(steps)
    decreases |steps|
  {
    hide Unseen;
    hide HarmlessStep;
    hide Apply;
    if steps == [] {
      StartUnseen(false);
    } else {
      hide Possible;
      var n := |steps| - 1;
      var before := Run(steps[..n]);
      UnseenExactly(steps[..n]);
      RunTracked(steps[..n]);
      hide Tracked;
      if AlwaysUnseen(steps[..n]) {
        if Possible(before, steps[n]) {
          StepUnseenExactly(before, steps[n]);
        } else {
          NoStep(before, steps[n]);
        }
      }
    }
  }

  lemma NoStep(a: Agent, s: Step)
    requires !Possible(a, s)
    ensures HarmlessStep(a, s)
  {
  }

  lemma StartUnseen(thin: bool)
    ensures Unseen(thin, Run([]))
  {
  }

  /** However accepting and working interleave, and whatever the system takes or refuses meanwhile: if every replacement
      is harmless, then once the queue is empty the session is where serving every accepted message in turn would have
      left it, and the system was made to do the same but for hover moves. */
  lemma {:induction false} SameAsServingAll(steps: seq<Step>)
    requires AlwaysHarmless(steps) && Run(steps).queue.items == []
    ensures var a := Run(steps); var f := Faithful(a.log);
            a.state.session == f.session && Others(a.state.trace) == Others(f.trace)
  {
    hide AlwaysHarmless;
    UnseenExactly(steps);
    RunTracked(steps);
    hide Run;
    hide Others;
  }

  function Works(n: nat): (steps: seq<Step>)
    ensures |steps| == n
  {
    seq(n, _ => Work)
  }

  /** And the converse: where the first replacement that is not harmless ends a run, the worker comes to a session or a
      trace that differs from that of serving every message. */
  lemma {:induction false} HarmShows(steps: seq<Step>)
    requires steps != [] && AlwaysHarmless(steps[..|steps| - 1])
    requires !HarmlessStep(Run(steps[..|steps| - 1]), steps[|steps| - 1])
    ensures var a := Run(steps + Works(|Run(steps).turns|)); var f := Faithful(a.log);
            a.queue.items == [] && !(a.state.session == f.session && Others(a.state.trace) == Others(f.trace))
  {
    hide Unseen;
    hide HarmlessStep;
    UnseenExactly(steps);
    UnseenExactly(steps[..|steps| - 1]);
    Drained(steps, |Run(steps).turns|);
    Emptied(Run(steps + Works(|Run(steps).turns|)), Run(steps));
  }

  lemma Emptied(a: Agent, before: Agent)
    requires Tracked(a) && a.turns == [] && Ahead(a) == Ahead(before) && a.log == before.log && !Unseen(false, before)
    ensures a.queue.items == []
    ensures !(a.state.session == Faithful(a.log).session && Others(a.state.trace) == Others(Faithful(a.log).trace))
  {
    hide Others;
  }

  /** Serving what is queued changes neither where that leads nor what was accepted. */
  lemma {:induction false} Drained(steps: seq<Step>, n: nat)
    requires n <= |Run(steps).turns|
    ensures var a, before := Run(steps + Works(n)), Run(steps);
            && Tracked(a) && |a.turns| == |before.turns| - n && Ahead(a) == Ahead(before) && a.log == before.log
            && a.served == before.served + before.turns[..n] && a.turns == before.turns[n..]
    decreases n
  {
    hide Serve;
    hide Guarded;
    hide HoverLast;
    RunTracked(steps + Works(n));
    if n == 0 {
      assert steps + Works(0) == steps;
    } else {
      Drained(steps, n - 1);
      assert (steps + Works(n))[..|steps + Works(n)| - 1] == steps + Works(n - 1);
      WorkOn(Run(steps + Works(n - 1)), Run(steps), n - 1);
      hide Tracked;
      hide Ahead;
      hide Apply;
    }
  }

  lemma WorkOn(a: Agent, before: Agent, n: nat)
    requires Tracked(a) && n < |before.turns| && a.served == before.served + before.turns[..n] && a.turns == before.turns[n..]
    ensures Possible(a, Work)
    ensures var b := Apply(a, Work);
            && Tracked(b) && Ahead(b) == Ahead(a) && b.log == a.log
            && b.served == before.served + before.turns[..n + 1] && b.turns == before.turns[n + 1..]
  {
    WorkTracked(a);
    hide Ahead;
    hide HoverLast;
    hide Guarded;
    hide Serve;
  }

  // ---- when the system takes every hover move ----

  /** Every hover move that was accepted is read by the session and taken by the system. */
  ghost predicate AllTaken(log: seq<Turn>) {
    forall u :: u in log && HoverShape(u.message) ==> Taken(u)
  }

  ghost predicate Accepted(a: Agent) {
    forall u :: u in a.turns ==> u in a.log
  }

  lemma StepThin(a: Agent, s: Step)
    requires Tracked(a) && Accepted(a) && Possible(a, s) && Unseen(true, a) && HarmlessStep(a, s) && AllTaken(Apply(a, s).log)
    ensures Unseen(true, Apply(a, s)) && Accepted(Apply(a, s))
  {
    hide Serve;
    hide ServeAll;
    hide Thin;
    hide Harmless;
    match s
    case Work => WorkTracked(a);
    case Accept(u) =>
      assert u in a.log + [u];
      ServeSnoc(NEW_STATE, a.log, u);
      ServeAlike(true, Ahead(a), Faithful(a.log), u);
      if Replaces(a.queue, u.message) {
        ReplaceTracked(a, u);
        var last := a.turns[|a.turns| - 1];
        assert last in a.log + [u];
        AheadLast(a);
        TwoTaken(Short(a), last, u);
      } else {
        AppendTracked(a, u);
      }
  }

  lemma {:induction false} RunThin(steps: seq<Step>)
    requires AlwaysHarmless(steps) && AllTaken(Run(steps).log)
    ensures Unseen(true, Run(steps)) && Accepted(Run(steps))
    decreases |steps|
  {
    hide Unseen;
    hide HarmlessStep;
    hide Taken;
    if steps == [] {
      StartUnseen(true);
    } else {
      hide Possible;
      var before, s := Run(steps[..|steps| - 1]), steps[|steps| - 1];
      assert forall u :: u in before.log ==> u in Run(steps).log;
      RunThin(steps[..|steps| - 1]);
      RunTracked(steps[..|steps| - 1]);
      hide Tracked;
      if Possible(before, s) {
        StepThin(before, s);
      }
    }
  }

  /** If moreover every hover move is taken, the system is made to do exactly the same but for hover moves that another
      one follows at once. */
  lemma {:induction false} SameButFollowedHovers(steps: seq<Step>)
    requires AlwaysHarmless(steps) && AllTaken(Run(steps).log) && Run(steps).queue.items == []
    ensures var a := Run(steps); var f := Faithful(a.log);
            a.state.session == f.session && Thin(a.state.trace) == Thin(f.trace)
  {
    RunThin(steps);
    RunTracked(steps);
    hide Run;
    hide Thin;
    hide AlwaysHarmless;
  }

  // ---- two moves that must not be dropped ----

  const PRESS := Event(KeyDown, 0, 0, 0, 7)
  const FIRST_MOVE := Event(Move, 0, 5, 0, 0)
  const SECOND_MOVE := Event(Move, 0, 6, 0, 0)

  function Alone(e: Event, size: Option<Size>, os: System): Turn {
    Turn(Message(false, Input, Some([e]), size, false), os, Geometry(0, 0), None)
  }

  lemma PressServed(os: System)
    requires os(PRESS)
    ensures Serve(NEW_STATE, Alone(PRESS, Some(Size(0, 0)), os)).session == NEW_SESSION.(keys := map[7 := PRESS])
  {
    var u := Alone(PRESS, Some(Size(0, 0)), os);
    assert PerformAll(u, Size(0, 0), NEW_STATE, [PRESS], 0) == Outcome(NEW_STATE, true);
    assert PerformAll(u, Size(0, 0), NEW_STATE, [PRESS], 1) == Perform(os, NEW_STATE, PRESS);
  }

  lemma PressThenMoves(os: System, size: Option<Size>) returns (steps: seq<Step>)
    ensures steps == [Accept(Alone(PRESS, Some(Size(0, 0)), os)), Accept(Alone(FIRST_MOVE, size, os)),
                      Accept(Alone(SECOND_MOVE, Some(Size(0, 0)), os))]
    ensures var a := Run(steps);
            && a.log == [steps[0].turn, steps[1].turn, steps[2].turn] && a.turns == [steps[0].turn, steps[2].turn]
            && a.state == NEW_STATE
  {
    var p, f, m := Alone(PRESS, Some(Size(0, 0)), os), Alone(FIRST_MOVE, size, os), Alone(SECOND_MOVE, Some(Size(0, 0)), os);
    steps := [Accept(p), Accept(f), Accept(m)];
    assert steps[..0] == [] && steps[..1][..0] == [] && steps[..2][..1] == steps[..1] && steps[..3] == steps;
    assert Track({}, [PRESS]) == {} && Track({}, [FIRST_MOVE]) == {} by {
      assert [PRESS][..0] == [] && [FIRST_MOVE][..0] == [];
    }
    var a1 := Agent(Queue([Item(p.message, false)], {}), [p], NEW_STATE, [p], []);
    var a2 := Agent(Queue([Item(p.message, false), Item(f.message, true)], {}), [p, f], NEW_STATE, [p, f], []);
    assert Run(steps[..1]) == a1;
    assert Run(steps[..2]) == a2;
    assert a2.turns[..1] == [p] && a2.queue.items[..1] == [Item(p.message, false)];
  }

  /** A key is pressed, and a hover move that the session cannot do is replaced by one that it can: served, it would
      have released the key; replaced, it leaves the key down. */
  lemma LostRelease(os: System, size: Option<Size>)
    requires os(PRESS) && os(SECOND_MOVE) && os(PRESS.(kind := KeyUp)) && (size == None || (size == Some(Size(0, 0)) && !os(FIRST_MOVE)))
    ensures var a := Run([Accept(Alone(PRESS, Some(Size(0, 0)), os)), Accept(Alone(FIRST_MOVE, size, os)),
                          Accept(Alone(SECOND_MOVE, Some(Size(0, 0)), os))]);
            Ahead(a).session.keys == map[7 := PRESS] && Faithful(a.log).session.keys == map[]
  {
    var steps := PressThenMoves(os, size);
    hide Run;
    var p, f, m := steps[0].turn, steps[1].turn, steps[2].turn;
    hide Serve;
    hide ServeAll;
    LostInSession(os, size);
    assert [p, m] == [] + [p] + [m] && [p, f, m] == [] + [p] + [f] + [m];
    ServeSnoc(NEW_STATE, [], p);
    ServeSnoc(NEW_STATE, [] + [p], m);
    ServeSnoc(NEW_STATE, [] + [p], f);
    ServeSnoc(NEW_STATE, [] + [p] + [f], m);
    Nothing(NEW_STATE);
  }

  lemma Nothing(t: State)
    ensures ServeAll(t, []) == t
  {
  }

  lemma LostInSession(os: System, size: Option<Size>)
    requires os(PRESS) && os(SECOND_MOVE) && os(PRESS.(kind := KeyUp)) && (size == None || (size == Some(Size(0, 0)) && !os(FIRST_MOVE)))
    ensures var t1 := Serve(NEW_STATE, Alone(PRESS, Some(Size(0, 0)), os));
            var f, m := Alone(FIRST_MOVE, size, os), Alone(SECOND_MOVE, Some(Size(0, 0)), os);
            Serve(t1, m).session.keys == map[7 := PRESS] && Serve(Serve(t1, f), m).session.keys == map[]
  {
    hide Serve;
    hide Others;
    var f, m := Alone(FIRST_MOVE, size, os), Alone(SECOND_MOVE, Some(Size(0, 0)), os);
    PressServed(os);
    var t1 := Serve(NEW_STATE, Alone(PRESS, Some(Size(0, 0)), os));
    HoverServed(t1, m);
    HoverServed(t1, f);
    var r := Moved(t1.session, f);
    assert ReleasedKeys(os, r) == {7} && ReleasedButtons(os, r) == {};
    assert Freed(os, r).keys == map[] && !Freed(os, r).pending;
    hide Freed;
    HoverServed(Serve(t1, f), m);
  }

  /** A system that refuses the first move notices the queue. */
  lemma {:induction false} RefusedMoveMatters(os: System)
    requires os(PRESS) && !os(FIRST_MOVE) && os(SECOND_MOVE) && os(PRESS.(kind := KeyUp))
    ensures var a := Run([Accept(Alone(PRESS, Some(Size(0, 0)), os)), Accept(Alone(FIRST_MOVE, Some(Size(0, 0)), os)),
                          Accept(Alone(SECOND_MOVE, Some(Size(0, 0)), os))]);
            Ahead(a).session.keys == map[7 := PRESS] && Faithful(a.log).session.keys == map[]
  {
    LostRelease(os, Some(Size(0, 0)));
  }

  /** So does a system that takes everything, if the first move's screen size does not decode: the queue reads the move
      only, the session fails. */
  lemma {:induction false} UnreadMoveMatters(os: System)
    requires forall e :: os(e)
    ensures var a := Run([Accept(Alone(PRESS, Some(Size(0, 0)), os)), Accept(Alone(FIRST_MOVE, None, os)),
                          Accept(Alone(SECOND_MOVE, Some(Size(0, 0)), os))]);
            Ahead(a).session.keys == map[7 := PRESS] && Faithful(a.log).session.keys == map[]
  {
    LostRelease(os, None);
  }
}
