/** What the queue in front of an input session takes, keeps and passes on: internal/agentapp/input_queue.go. */
module InputDeliveries {
  import opened Wrappers
  import opened InputSessions
  import opened InputQueues

  // ---- nothing but lone moves is dropped ----

  /** An event message of one move; a request, which is answered, is none. */
  predicate LoneMove(m: Message) {
    && m.call == Input && !m.request
    && m.events.Some? && |m.events.value| == 1 && m.events.value[0].kind == Move
  }

  function Rest(us: seq<Turn>): seq<Turn> {
    if us == [] then []
    else Rest(us[..|us| - 1]) + (if LoneMove(us[|us| - 1].message) then [] else [us[|us| - 1]])
  }

  lemma RestSnoc(us: seq<Turn>, u: Turn)
    ensures Rest(us + [u]) == Rest(us) + if LoneMove(u.message) then [] else [u]
  {
    assert (us + [u])[..|us|] == us;
  }

  /** The queue holds at most 64 messages, what is waiting ends as the log ends, and what was served and what waits is
      the log but for lone moves. */
  ghost predicate Delivering(a: Agent) {
    && |a.queue.items| == |a.turns| <= 64
    && (a.turns != [] ==> a.log != [] && a.turns[|a.turns| - 1] == a.log[|a.log| - 1])
    && (forall i :: 0 <= i < |a.turns| ==> a.queue.items[i].message == a.turns[i].message
                                           && (a.queue.items[i].hover ==> LoneMove(a.turns[i].message)))
    && Rest(a.served + a.turns) == Rest(a.log)
    && a.state == ServeAll(NEW_STATE, a.served)
  }

  lemma WorkDelivering(a: Agent)
    requires Delivering(a) && Possible(a, Work)
    ensures Delivering(Apply(a, Work))
  {
    hide Serve;
    hide LoneMove;
    hide Rest;
    assert (a.served + [a.turns[0]]) + a.turns[1..] == a.served + a.turns;
    ServeSnoc(NEW_STATE, a.served, a.turns[0]);
    hide ServeAll;
  }

  lemma AppendDelivering(a: Agent, u: Turn)
    requires Delivering(a) && Accepts(a.queue, u.message) && !Replaces(a.queue, u.message)
    ensures Delivering(Apply(a, Accept(u)))
  {
    hide ServeAll;
    hide Rest;
    hide Track;
    RestSnoc(a.log, u);
    RestSnoc(a.served + a.turns, u);
    assert a.served + (a.turns + [u]) == (a.served + a.turns) + [u];
  }

  lemma ReplaceDelivering(a: Agent, u: Turn)
    requires Delivering(a) && Accepts(a.queue, u.message) && Replaces(a.queue, u.message)
    ensures Delivering(Apply(a, Accept(u)))
  {
    hide ServeAll;
    hide Rest;
    var n := |a.turns| - 1;
    var kept := a.served + a.turns[..n];
    RestSnoc(a.log, u);
    RestSnoc(kept, a.turns[n]);
    RestSnoc(kept, u);
    assert a.served + a.turns == kept + [a.turns[n]];
    assert a.served + (a.turns[..n] + [u]) == kept + [u];
    assert Rest(kept) + [] == Rest(kept);
  }

  /** Over every run, every drag sample that is more than a lone move, every button, key, wheel event, release and request
      that was accepted is served once, in order, or still waits. */
  lemma {:induction false} NothingElseDropped(steps: seq<Step>)
    ensures Delivering(Run(steps))
    decreases |steps|
  {
    hide Delivering;
    if steps == [] {
      StartDelivering();
    } else {
      NothingElseDropped(steps[..|steps| - 1]);
      var before, s := Run(steps[..|steps| - 1]), steps[|steps| - 1];
      hide Apply;
      hide Accepts;
      hide Replaces;
      if Possible(before, s) {
        match s
        case Work => WorkDelivering(before);
        case Accept(u) =>
          if Replaces(before.queue, u.message) {
            ReplaceDelivering(before, u);
          } else {
            AppendDelivering(before, u);
          }
      }
    }
  }

  lemma StartDelivering()
    ensures Delivering(Run([]))
  {
  }

  // ---- what is taken ----

  function Last(items: seq<Item>): Item
    requires items != []
  {
    items[|items| - 1]
  }

  /** A message that is not too large is taken, and ends the queue, exactly if fewer than 64 wait, or if it is a lone move
      after another with no button down. */
  lemma {:induction false} TakenExactly(steps: seq<Step>, u: Turn)
    ensures var a, b := Run(steps), Run(steps + [Accept(u)]);
            if !u.message.oversize && (|a.queue.items| < 64 || (a.queue.buttons == {} && LoneMove(u.message) && Last(a.queue.items).hover)) then
              b.log == a.log + [u] && b.turns != [] && b.turns[|b.turns| - 1] == u && b.served == a.served
            else b == a
  {
    NothingElseDropped(steps);
    hide Delivering;
    DeliveringMeans(Run(steps));
    assert (steps + [Accept(u)])[..|steps|] == steps;
  }

  lemma DeliveringMeans(a: Agent)
    requires Delivering(a)
    ensures |a.queue.items| == |a.turns| <= 64
  {
  }

  /** Of two lone moves that come one after the other with no button down, only the second waits. */
  lemma {:induction false} MovesCoalesce(steps: seq<Step>, u: Turn, v: Turn)
    requires LoneMove(u.message) && LoneMove(v.message) && !u.message.oversize && !v.message.oversize
    requires Run(steps).queue.buttons == {} && |Run(steps).turns| < 64
    ensures var b, c := Run(steps + [Accept(u)]), Run(steps + [Accept(u)] + [Accept(v)]);
            && b.turns != [] && b.turns[|b.turns| - 1] == u && c.turns == b.turns[..|b.turns| - 1] + [v] && c.log == b.log + [v]
  {
    NothingElseDropped(steps);
    hide Rest;
    hide Serve;
    hide ServeAll;
    var a := Run(steps);
    assert (steps + [Accept(u)])[..|steps|] == steps;
    assert (steps + [Accept(u)] + [Accept(v)])[..|steps + [Accept(u)]|] == steps + [Accept(u)];
    hide Run;
    LoneTracksNothing(a.queue, u.message);
  }

  lemma LoneTracksNothing(q: Queue, m: Message)
    requires LoneMove(m)
    ensures Track(q.buttons, m.events.value) == q.buttons
  {
    assert m.events.value[..0] == [];
  }

  /** And then it is served once those before it are. */
  lemma {:induction false} TakenIsServed(steps: seq<Step>, u: Turn)
    requires !u.message.oversize && |Run(steps).turns| < 64
    ensures var b := Run(steps + [Accept(u)]); var c := Run(steps + [Accept(u)] + Works(|b.turns|));
            c.turns == [] && c.served == b.served + b.turns && c.served != [] && c.served[|c.served| - 1] == u
  {
    hide Run;
    hide Works;
    hide Rest;
    hide Serve;
    hide ServeAll;
    hide Tracked;
    hide Ahead;
    NothingElseDropped(steps);
    TakenExactly(steps, u);
    var b := Run(steps + [Accept(u)]);
    Drained(steps + [Accept(u)], |b.turns|);
    AllOfThem(b.served, b.turns);
  }

  lemma AllOfThem(served: seq<Turn>, turns: seq<Turn>)
    requires turns != []
    ensures turns[..|turns|] == turns && (served + turns)[|served + turns| - 1] == turns[|turns| - 1]
  {
  }

  // ---- buttons ----

  /** Button b is pressed by event j and by no later event let go of. */
  ghost predicate PressedBy(events: seq<Event>, j: nat, b: int) {
    && j < |events| && events[j].kind == Down && events[j].button == b
    && forall l :: j < l < |events| ==> !(events[l].kind == Up && events[l].button == b)
  }

  ghost predicate LetGoBy(events: seq<Event>, b: int) {
    exists l :: 0 <= l < |events| && events[l].kind == Up && events[l].button == b
  }

  ghost predicate Presses(m: Message, j: nat, b: int) {
    m.call == Input && m.events.Some? && PressedBy(m.events.value, j, b)
  }

  ghost predicate Keeps(m: Message, b: int) {
    m.call == Input && (m.events.Some? ==> !LetGoBy(m.events.value, b))
  }

  /** Button b is pressed by event j of message i, and nothing after that in these messages lets go of it. */
  ghost predicate PressedAt(us: seq<Turn>, i: nat, j: nat, b: int) {
    i < |us| && Presses(us[i].message, j, b) && forall k :: i < k < |us| ==> Keeps(us[k].message, b)
  }

  ghost predicate Pressed(us: seq<Turn>, b: int) {
    exists i: nat, j: nat :: PressedAt(us, i, j, b)
  }

  lemma {:induction false} TrackMeans(buttons: set<int>, events: seq<Event>, b: int)
    requires 1 <= b <= 3
    ensures b in Track(buttons, events) <==> (exists j: nat :: PressedBy(events, j, b)) || (b in buttons && !LetGoBy(events, b))
    decreases |events|
  {
    if events == [] {
      assert !LetGoBy(events, b) && forall j: nat :: !PressedBy(events, j, b);
    } else {
      var n := |events| - 1;
      TrackMeans(buttons, events[..n], b);
      var e := events[n];
      if e.kind == Down && e.button == b {
        assert PressedBy(events, n, b);
      } else if e.kind == Up && e.button == b {
        assert LetGoBy(events, b) && forall j: nat :: !PressedBy(events, j, b);
      } else {
        forall j: nat ensures PressedBy(events, j, b) <==> PressedBy(events[..n], j, b) {
        }
        assert LetGoBy(events[..n], b) ==> LetGoBy(events, b);
      }
    }
  }

  lemma {:induction false} TrackRange(buttons: set<int>, events: seq<Event>)
    requires buttons <= {1, 2, 3}
    ensures Track(buttons, events) <= {1, 2, 3}
    decreases |events|
  {
    if events != [] {
      TrackRange(buttons, events[..|events| - 1]);
    }
  }

  ghost predicate Masked(a: Agent) {
    a.queue.buttons <= {1, 2, 3} && forall b :: 1 <= b <= 3 ==> (b in a.queue.buttons <==> Pressed(a.log, b))
  }

  lemma PressedSnoc(us: seq<Turn>, u: Turn, b: int)
    ensures Pressed(us + [u], b) <==> (exists j: nat :: Presses(u.message, j, b)) || (Pressed(us, b) && Keeps(u.message, b))
  {
    hide Presses;
    hide Keeps;
    var all, n := us + [u], |us|;
    if Pressed(all, b) {
      var i: nat, j: nat :| PressedAt(all, i, j, b);
      if i < n {
        assert all[n] == u;
        assert forall k :: i < k < n ==> us[k] == all[k];
        assert PressedAt(us, i, j, b);
      }
    }
    if Pressed(us, b) && Keeps(u.message, b) {
      var i: nat, j: nat :| PressedAt(us, i, j, b);
      assert PressedAt(all, i, j, b);
    }
    if j: nat :| Presses(u.message, j, b) {
      assert PressedAt(all, n, j, b);
    }
  }

  lemma EnqueueMasked(a: Agent, u: Turn, b: int)
    requires Accepts(a.queue, u.message) && 1 <= b <= 3 && (b in a.queue.buttons <==> Pressed(a.log, b))
    ensures b in Enqueue(a.queue, u.message).buttons <==> Pressed(a.log + [u], b)
  {
    PressedSnoc(a.log, u, b);
    var m := u.message;
    hide Pressed;
    if m.events.Some? {
      TrackMeans(a.queue.buttons, m.events.value, b);
      if Replaces(a.queue, m) {
        assert !LetGoBy(m.events.value, b) && forall j: nat :: !PressedBy(m.events.value, j, b);
      }
      hide LetGoBy;
      hide PressedBy;
      if m.call == Input {
        assert forall j: nat :: Presses(m, j, b) <==> PressedBy(m.events.value, j, b);
      }
    }
  }

  /** Over every run the queue's mask holds exactly the mouse buttons that the accepted messages leave pressed. */
  lemma {:induction false} MaskExact(steps: seq<Step>)
    ensures Run(steps).queue.buttons <= {1, 2, 3}
    ensures forall b :: 1 <= b <= 3 ==> (b in Run(steps).queue.buttons <==> Pressed(Run(steps).log, b))
    decreases |steps|
  {
    if steps == [] {
      assert forall b :: !Pressed([], b);
    } else {
      MaskExact(steps[..|steps| - 1]);
      var a, s := Run(steps[..|steps| - 1]), steps[|steps| - 1];
      if s.Accept? && Possible(a, s) {
        if s.turn.message.events.Some? {
          TrackRange(a.queue.buttons, s.turn.message.events.value);
        }
        forall b | 1 <= b <= 3 ensures b in Enqueue(a.queue, s.turn.message).buttons <==> Pressed(a.log + [s.turn], b) {
          EnqueueMasked(a, s.turn, b);
        }
      }
    }
    hide Pressed;
    hide Track;
    hide Serve;
  }

  /** A message that waits is dropped only for the one accepted right after it, both of them lone moves that no button is
      down for. */
  lemma {:induction false} DroppedIsHover(steps: seq<Step>, u: Turn)
    requires var a, b := Run(steps), Run(steps + [Accept(u)]); b.log != a.log && b.turns != a.turns + [u]
    ensures var a, b := Run(steps), Run(steps + [Accept(u)]);
            && a.turns != [] && a.log != [] && b.turns == a.turns[..|a.turns| - 1] + [u] && a.turns[|a.turns| - 1] == a.log[|a.log| - 1]
            && LoneMove(a.turns[|a.turns| - 1].message) && LoneMove(u.message) && forall b :: 1 <= b <= 3 ==> !Pressed(a.log, b)
  {
    NothingElseDropped(steps);
    MaskExact(steps);
    hide Pressed;
    hide Rest;
    assert (steps + [Accept(u)])[..|steps|] == steps;
    hide Run;
  }
}
