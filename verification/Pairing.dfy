/** Pairing of agents and viewers at the broker: the loop of handle in cmd/yudesk-relay/main.go, with the removals of
  terminateDevice, disconnectDevice and a closing control connection. */
module Pairings {
  type Id = nat
  type Owner = nat
  type Conn = nat

  datatype Role = Agent | Viewer

  /** Who a connection says it is; that never changes. */
  datatype Hello = Hello(id: Id, role: Role, owner: Owner)

  datatype Waiting = Waiting(conn: Conn, role: Role, owner: Owner)

  datatype Session = Session(agent: Conn, viewer: Conn, owner: Owner)

  /** hellos: the connections that have come to wait or to be paired.  filled counts how often the one-slot ready
      channel of a connection was sent to, and owed are those that will be sent to once outside the lock. */
  datatype Broker = Broker(devices: map<Id, Waiting>, active: map<Id, Session>, hellos: map<Conn, Hello>,
                           filled: map<Conn, nat>, owed: set<Conn>)

  const START := Broker(map[], map[], map[], map[], {})

  datatype Step =
    | Enter(conn: Conn, hello: Hello)
    | Fill(conn: Conn)
    | Gone(conn: Conn, id: Id)
    | PingFailed(conn: Conn, id: Id)
    | ProxyEnded(id: Id, session: Session)
    | Drop(owner: Owner, id: Id)

  function Fills(b: Broker, c: Conn): nat {
    if c in b.filled then b.filled[c] else 0
  }

  function Send(b: Broker, c: Conn): Broker {
    b.(filled := b.filled[c := Fills(b, c) + 1])
  }

  datatype Entry = Busy | Wait | Denied | Paired | Evicted

  /** What becomes of a connection in one turn of the loop; one that evicts another tries again. */
  function EntryOf(b: Broker, h: Hello): Entry {
    if h.id in b.active then Busy
    else if h.id !in b.devices then Wait
    else if b.devices[h.id].role == h.role then Evicted
    else if b.devices[h.id].owner != h.owner then Denied
    else Paired
  }

  function SessionOf(waiter: Conn, c: Conn, h: Hello): Session {
    if h.role.Agent? then Session(c, waiter, h.owner) else Session(waiter, c, h.owner)
  }

  function EnterBroker(b: Broker, c: Conn, h: Hello): Broker {
    match EntryOf(b, h)
    case Busy => b
    case Denied => b
    case Wait => b.(devices := b.devices[h.id := Waiting(c, h.role, h.owner)], hellos := b.hellos[c := h])
    case Paired =>
      var waiter := b.devices[h.id].conn;
      b.(devices := b.devices - {h.id}, active := b.active[h.id := SessionOf(waiter, c, h)], hellos := b.hellos[c := h],
         owed := b.owed + {waiter})
    case Evicted => b.(devices := b.devices - {h.id}, owed := b.owed + {b.devices[h.id].conn})
  }

  function GoneFrom(b: Broker, c: Conn, id: Id): Broker {
    b.(devices := if id in b.devices && b.devices[id].conn == c then b.devices - {id} else b.devices,
       active := if id in b.active && (b.active[id].agent == c || b.active[id].viewer == c) then b.active - {id} else b.active)
  }

  /** The part that terminateDevice, disconnectDevice and a closing control have in common: the waiting connection of
      the owner is told under the lock, the session is ended. */
  function DropDevice(b: Broker, owner: Owner, id: Id): Broker {
    var b1 := if id in b.devices && b.devices[id].owner == owner then Send(b.(devices := b.devices - {id}), b.devices[id].conn) else b;
    if id in b1.active && b1.active[id].owner == owner then b1.(active := b1.active - {id}) else b1
  }

  predicate Possible(b: Broker, s: Step) {
    match s
    case Enter(c, _) => c !in b.hellos
    case Fill(c) => c in b.owed
    case _ => true
  }

  function Apply(b: Broker, s: Step): Broker
    requires Possible(b, s)
  {
    match s
    case Enter(c, h) => EnterBroker(b, c, h)
    case Fill(c) => Send(b.(owed := b.owed - {c}), c)
    case Gone(c, id) => GoneFrom(b, c, id)
    case PingFailed(c, id) => b.(devices := if id in b.devices && b.devices[id].conn == c then b.devices - {id} else b.devices)
    case ProxyEnded(id, session) =>
      if id in b.active && b.active[id].agent == session.agent && b.active[id].viewer == session.viewer then b.(active := b.active - {id})
      else b
    case Drop(owner, id) => DropDevice(b, owner, id)
  }

  /** What cannot happen is skipped. */
  function Run(b: Broker, steps: seq<Step>): Broker
    decreases |steps|
  {
    if steps == [] then b
    else
      var before := Run(b, steps[..|steps| - 1]);
      if Possible(before, steps[|steps| - 1]) then Apply(before, steps[|steps| - 1]) else before
  }

  /** No device both waits and is in a session. */
  ghost predicate Separate(b: Broker) {
    forall id :: id in b.devices ==> id !in b.active
  }

  predicate Said(b: Broker, c: Conn, h: Hello) {
    c in b.hellos && b.hellos[c] == h
  }

  /** Who waits is who it said it is. */
  ghost predicate Known(b: Broker) {
    forall id :: id in b.devices ==> Said(b, b.devices[id].conn, Hello(id, b.devices[id].role, b.devices[id].owner))
  }

  /** A session joins one agent and one viewer that asked for the same device and have the same owner. */
  ghost predicate Joined(b: Broker) {
    forall id :: id in b.active ==>
      && Said(b, b.active[id].agent, Hello(id, Agent, b.active[id].owner))
      && Said(b, b.active[id].viewer, Hello(id, Viewer, b.active[id].owner))
  }

  /** A ready channel is filled at most once: not before its connection has left the waiting table, nor while that is
      owed. */
  ghost predicate FilledOnce(b: Broker) {
    && (forall c :: Fills(b, c) <= 1)
    && (forall c :: c in b.filled || c in b.owed ==> c in b.hellos)
    && (forall id :: id in b.devices ==> Fills(b, b.devices[id].conn) == 0 && b.devices[id].conn !in b.owed)
    && (forall c :: c in b.owed ==> Fills(b, c) == 0)
  }

  ghost predicate Inv(b: Broker) {
    Separate(b) && Known(b) && Joined(b) && FilledOnce(b)
  }

  lemma EnterKeepsInv(b: Broker, c: Conn, h: Hello)
    requires Inv(b) && c !in b.hellos
    ensures Inv(EnterBroker(b, c, h))
  {
    EnterKeepsFilledOnce(b, c, h);
    hide FilledOnce;
  }

  lemma EnterKeepsFilledOnce(b: Broker, c: Conn, h: Hello)
    requires Inv(b) && c !in b.hellos
    ensures FilledOnce(EnterBroker(b, c, h))
  {
    assert forall x :: Fills(EnterBroker(b, c, h), x) == Fills(b, x);
    if h.id in b.devices {
      WaitsOnce(b, h.id);
      var w := b.devices[h.id];
      assert Said(b, w.conn, Hello(h.id, w.role, w.owner));
    }
    assert Fills(b, c) == 0 && c !in b.owed;
    hide Joined;
    hide Fills;
  }

  /** A connection waits for one device. */
  lemma WaitsOnce(b: Broker, id: Id)
    requires Known(b) && id in b.devices
    ensures forall other :: other in b.devices && other != id ==> b.devices[other].conn != b.devices[id].conn
  {
    assert Said(b, b.devices[id].conn, Hello(id, b.devices[id].role, b.devices[id].owner));
  }

  lemma SendFills(b: Broker, x: Conn)
    ensures forall c :: Fills(Send(b, x), c) == if c == x then Fills(b, x) + 1 else Fills(b, c)
  {
  }

  lemma FillKeepsInv(b: Broker, c: Conn)
    requires Inv(b) && c in b.owed
    ensures Inv(Apply(b, Fill(c)))
  {
    var b1 := b.(owed := b.owed - {c});
    SendFills(b1, c);
    assert forall x :: Fills(b1, x) == Fills(b, x);
    hide Fills;
  }

  lemma DropKeepsFilledOnce(b: Broker, owner: Owner, id: Id)
    requires Known(b) && FilledOnce(b)
    ensures FilledOnce(DropDevice(b, owner, id))
  {
    if id in b.devices && b.devices[id].owner == owner {
      WaitsOnce(b, id);
      var b1, c := b.(devices := b.devices - {id}), b.devices[id].conn;
      SendFills(b1, c);
      assert Said(b, c, Hello(id, b.devices[id].role, b.devices[id].owner));
      assert forall x :: Fills(b1, x) == Fills(b, x);
      assert forall x :: Fills(DropDevice(b, owner, id), x) == Fills(Send(b1, c), x);
      hide Fills;
    } else {
      assert forall x :: Fills(DropDevice(b, owner, id), x) == Fills(b, x);
    }
    hide Known;
  }

  lemma DropKeepsInv(b: Broker, owner: Owner, id: Id)
    requires Inv(b)
    ensures Inv(DropDevice(b, owner, id))
    ensures id in DropDevice(b, owner, id).devices ==> DropDevice(b, owner, id).devices[id].owner != owner
    ensures id in DropDevice(b, owner, id).active ==> DropDevice(b, owner, id).active[id].owner != owner
  {
    DropKeepsFilledOnce(b, owner, id);
    hide FilledOnce;
  }

  lemma {:induction false} StepKeepsInv(b: Broker, s: Step)
    requires Inv(b) && Possible(b, s)
    ensures Inv(Apply(b, s))
  {
    match s
    case Enter(c, h) => EnterKeepsInv(b, c, h);
    case Drop(owner, id) => DropKeepsInv(b, owner, id);
    case Fill(c) => FillKeepsInv(b, c);
    case _ => hide FilledOnce; LeavesKeepFilledOnce(b, s);
  }

  lemma LeavesKeepFilledOnce(b: Broker, s: Step)
    requires FilledOnce(b) && Possible(b, s) && (s.Gone? || s.PingFailed? || s.ProxyEnded?)
    ensures FilledOnce(Apply(b, s))
  {
    assert forall c :: Fills(Apply(b, s), c) == Fills(b, c);
  }

  lemma {:induction false} RunKeepsInv(steps: seq<Step>)
    ensures Inv(Run(START, steps))
    decreases |steps|
  {
    hide Inv;
    hide Apply;
    hide Possible;
    if steps == [] {
      StartInv();
    } else {
      RunKeepsInv(steps[..|steps| - 1]);
      var before := Run(START, steps[..|steps| - 1]);
      if Possible(before, steps[|steps| - 1]) {
        StepKeepsInv(before, steps[|steps| - 1]);
      }
    }
  }

  lemma StartInv()
    ensures Inv(START)
  {
  }

  /** In every run: no device waits and is in a session at once; a session joins an agent and a viewer that asked for
      that device under the same owner; and no ready channel is filled twice, so that no send to one can block. */
  lemma {:induction false} PairingIsSafe(steps: seq<Step>, id: Id, c: Conn)
    ensures var b := Run(START, steps);
            && !(id in b.devices && id in b.active)
            && (id in b.active ==>
                  && Said(b, b.active[id].agent, Hello(id, Agent, b.active[id].owner))
                  && Said(b, b.active[id].viewer, Hello(id, Viewer, b.active[id].owner))
                  && b.active[id].agent != b.active[id].viewer)
            && Fills(b, c) <= 1
            && (c in b.owed ==> Fills(b, c) == 0)
            && (id in b.devices ==> Fills(b, b.devices[id].conn) == 0)
  {
    RunKeepsInv(steps);
    hide Run;
  }

  /** Sending to the waiting connection under the lock, or to one that is owed outside it, finds the slot empty. */
  lemma {:induction false} SendsNeverBlock(steps: seq<Step>, s: Step)
    requires Possible(Run(START, steps), s)
    ensures var b := Run(START, steps);
            && (forall c :: Fills(Apply(b, s), c) > Fills(b, c) ==> Fills(b, c) == 0)
            && (forall c :: c in b.filled ==> Fills(Apply(b, s), c) >= Fills(b, c))
  {
    RunKeepsInv(steps);
    StepKeepsInv(Run(START, steps), s);
    hide Run;
    hide Known;
    hide Joined;
    hide EntryOf;
  }

  /** What a connection that comes for a device meets: a session refuses it, an empty place is taken, one of the other role and
      the same owner makes a session of just the two, of whom the waiting one is still to be told; one of the other role and
      another owner refuses it; and one of its own role gives way to it. */
  lemma {:induction false} EntersExactly(b: Broker, c: Conn, h: Hello)
    ensures var e, b' := EntryOf(b, h), EnterBroker(b, c, h);
            && (if h.id in b.active then e == Busy && b' == b
                else if h.id !in b.devices then
                  e == Wait && b'.devices == b.devices[h.id := Waiting(c, h.role, h.owner)] && b'.active == b.active && b'.owed == b.owed
                else if b.devices[h.id].role == h.role then
                  e == Evicted && b'.devices == b.devices - {h.id} && b'.active == b.active && b'.owed == b.owed + {b.devices[h.id].conn}
                else if b.devices[h.id].owner != h.owner then e == Denied && b' == b
                else
                  && e == Paired && b'.devices == b.devices - {h.id} && b'.owed == b.owed + {b.devices[h.id].conn}
                  && h.id in b'.active && b'.active[h.id].owner == h.owner
                  && (h.role == Viewer ==> b'.active[h.id].viewer == c && b'.active[h.id].agent == b.devices[h.id].conn)
                  && (h.role == Agent ==> b'.active[h.id].agent == c && b'.active[h.id].viewer == b.devices[h.id].conn)
                  && (forall other :: other != h.id ==> (other in b'.active <==> other in b.active)
                                                        && (other in b.active ==> b'.active[other] == b.active[other])))
            && (forall other :: other != h.id ==> (other in b'.devices <==> other in b.devices)
                                                  && (other in b.devices ==> b'.devices[other] == b.devices[other]))
  {
  }

  /** An agent and a viewer of one owner that come to a free device, in either order and whoever of the two waited there before
      them for the same role, end in a session of just these two, and the first of them is told. */
  lemma {:induction false} OppositesMeet(b: Broker, first: Conn, h: Hello, second: Conn, g: Hello)
    requires Inv(b) && h.id !in b.active && g.id == h.id && g.owner == h.owner && g.role != h.role
    requires first !in b.hellos && second !in b.hellos && first != second
    requires h.id in b.devices ==> b.devices[h.id].role == h.role
    ensures var b0 := if h.id in b.devices then EnterBroker(b, first, h) else b;
            var b1 := Apply(b0, Enter(first, h));
            && EntryOf(b0, h) == Wait && Possible(b1, Enter(second, g)) && EntryOf(b1, g) == Paired
            && var b2 := Apply(b1, Enter(second, g));
               && h.id !in b2.devices && h.id in b2.active && first in b2.owed && Possible(b2, Fill(first))
               && b2.active[h.id] == (if h.role == Agent then Session(first, second, h.owner) else Session(second, first, h.owner))
               && Fills(Apply(b2, Fill(first)), first) == 1
  {
    hide Joined;
    hide Known;
    assert Fills(b, first) == 0;
  }

  /** What ends a wait or a session: a connection that is gone waits nowhere under that device and is in no session of it; one
      whose ping failed does not wait; a session that was passed on is over; and a device that is dropped has neither, its
      waiting connection being told that nobody comes.  Whatever else waits or is active stays. */
  lemma {:induction false} LeavesExactly(b: Broker, s: Step, id: Id)
    requires Inv(b) && Possible(b, s) && (s.Gone? || s.PingFailed? || s.ProxyEnded? || s.Drop?)
    ensures var b' := Apply(b, s);
            && (id in b'.devices <==>
                  && id in b.devices
                  && !(s.Gone? && id == s.id && b.devices[id].conn == s.conn)
                  && !(s.PingFailed? && id == s.id && b.devices[id].conn == s.conn)
                  && !(s.Drop? && id == s.id && b.devices[id].owner == s.owner))
            && (id in b'.active <==>
                  && id in b.active
                  && !(s.Gone? && id == s.id && (b.active[id].agent == s.conn || b.active[id].viewer == s.conn))
                  && !(s.ProxyEnded? && id == s.id && b.active[id].agent == s.session.agent && b.active[id].viewer == s.session.viewer)
                  && !(s.Drop? && id == s.id && b.active[id].owner == s.owner))
            && (id in b'.devices ==> b'.devices[id] == b.devices[id]) && (id in b'.active ==> b'.active[id] == b.active[id])
            && (s.Drop? && s.id in b.devices && b.devices[s.id].owner == s.owner ==> Fills(b', b.devices[s.id].conn) == 1)
            && b'.owed == b.owed
  {
    hide Known;
    hide Joined;
  }
}
