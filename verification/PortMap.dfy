/** Public port mappings of the broker: cmd/yudesk-relay/portmap.go, with the control registration of
  cmd/yudesk-relay/control.go.  Each locked section is one step, and so is each call of the router hook. */
module PortMaps {
  import opened Sets

  type Device = nat
  type Session = nat
  type MapId = nat
  type OpId = nat

  const PORT_MIN: int := 9000
  const PORT_MAX: int := 9500
  const DEVICE_LIMIT: nat := 5

  datatype Mapping = Mapping(device: Device, request: nat, session: Session, port: int, ready: bool)

  datatype Control = Control(generation: nat, session: Session, stopping: bool)

  /** Work that goes on outside the lock: a mapping being opened, and ports waiting for their close hook. */
  datatype Op =
    | Opening(id: MapId, device: Device, session: Session, port: int)
    | Opened(id: MapId, device: Device, session: Session, port: int)
    | Failed(id: MapId, port: int)
    | Closing(ports: seq<int>)

  /** router holds the ports that are open to the public. */
  datatype State = State(maps: map<MapId, Mapping>, byPort: map<int, MapId>, used: set<MapId>, controls: map<Device, Control>,
                         ops: map<OpId, Op>, router: set<int>)

  const START := State(map[], map[], {}, map[], map[], {})

  predicate InRange(port: int) {
    PORT_MIN <= port <= PORT_MAX
  }

  /** The mappings of one device. */
  function Owned(maps: map<MapId, Mapping>, d: Device): set<MapId> {
    set id | id in maps && maps[id].device == d
  }

  function PortsOf(maps: map<MapId, Mapping>, ids: set<MapId>): set<int> {
    set id | id in maps && id in ids :: maps[id].port
  }

  /** removePortMapLocked for each of ids. */
  function Remove(s: State, ids: set<MapId>): State {
    s.(maps := s.maps - ids, byPort := s.byPort - PortsOf(s.maps, ids))
  }

  predicate Authorized(s: State, device: Device, session: Session) {
    device in s.controls && !s.controls[device].stopping && s.controls[device].session == session
  }

  /** The checks of the first section of createPortMap. */
  predicate MayCreate(s: State, device: Device, session: Session, request: nat) {
    && Authorized(s, device, session)
    && (forall id :: id in s.maps && s.maps[id].device == device ==> s.maps[id].request != request)
    && |Owned(s.maps, device)| < DEVICE_LIMIT
  }

  datatype Step =
    | Create(device: Device, session: Session, request: nat, id: MapId, port: int, op: OpId)
    | OpenHook(op: OpId, ok: bool, effect: bool)
    | Commit(op: OpId)
    | GiveUp(op: OpId)
    | CloseHook(op: OpId)
    | Delete(id: MapId, op: OpId)
    | CloseDevice(device: Device, ports: seq<int>, stop: bool, op: OpId)
    | Register(device: Device, generation: nat, session: Session)
    | Unregister(device: Device, generation: nat, ports: seq<int>, op: OpId)

  /** ports lists the ports of the device's mappings, in some order. */
  ghost predicate ListsPorts(s: State, d: Device, ports: seq<int>) {
    forall p :: p in ports <==> exists id :: id in s.maps && s.maps[id].device == d && s.maps[id].port == p
  }

  ghost predicate Possible(s: State, t: Step) {
    match t
    case Create(_, _, _, id, port, op) => id !in s.used && InRange(port) && port !in s.byPort && op !in s.ops
    case OpenHook(op, _, _) => op in s.ops && s.ops[op].Opening?
    case Commit(op) => op in s.ops && s.ops[op].Opened?
    case GiveUp(op) => op in s.ops && s.ops[op].Failed?
    case CloseHook(op) => op in s.ops && s.ops[op].Closing? && s.ops[op].ports != []
    case Delete(_, op) => op !in s.ops
    case CloseDevice(device, ports, _, op) => op !in s.ops && ListsPorts(s, device, ports)
    case Register(_, _, _) => true
    case Unregister(device, _, ports, op) => op !in s.ops && ListsPorts(s, device, ports)
  }

  /** The list of ports to close is worked off outside the lock; an empty list is no work. */
  function StartClosing(s: State, op: OpId, ports: seq<int>): State {
    if ports == [] then s.(ops := s.ops - {op}) else s.(ops := s.ops[op := Closing(ports)])
  }

  function CommitOp(s: State, op: OpId): State
    requires op in s.ops && s.ops[op].Opened?
  {
    var o := s.ops[op];
    if o.id in s.maps && Authorized(s, o.device, o.session) then
      s.(maps := s.maps[o.id := s.maps[o.id].(ready := true)], ops := s.ops - {op})
    else StartClosing(Remove(s, {o.id}), op, [o.port])
  }

  function RegisterControl(s: State, device: Device, generation: nat, session: Session): State {
    if device in s.controls && s.controls[device].stopping then s
    else
      var kept := if device in s.controls then s.controls[device].session else session;
      s.(controls := s.controls[device := Control(generation, kept, false)])
  }

  function StopControl(s: State, device: Device, stop: bool): State {
    if stop && device in s.controls then s.(controls := s.controls[device := s.controls[device].(stopping := true)]) else s
  }

  function Apply(s: State, t: Step): State
    requires Possible(s, t)
  {
    match t
    case Create(device, session, request, id, port, op) =>
      if !MayCreate(s, device, session, request) then s
      else
        s.(maps := s.maps[id := Mapping(device, request, session, port, false)], byPort := s.byPort[port := id],
           used := s.used + {id}, ops := s.ops[op := Opening(id, device, session, port)])
    case OpenHook(op, ok, effect) =>
      var o := s.ops[op];
      s.(ops := s.ops[op := if ok then Opened(o.id, o.device, o.session, o.port) else Failed(o.id, o.port)],
         router := if effect then s.router + {o.port} else s.router)
    case Commit(op) => CommitOp(s, op)
    case GiveUp(op) => StartClosing(Remove(s, {s.ops[op].id}), op, [s.ops[op].port])
    case CloseHook(op) => StartClosing(s.(router := s.router - {s.ops[op].ports[0]}), op, s.ops[op].ports[1..])
    case Delete(id, op) => if id in s.maps then StartClosing(Remove(s, {id}), op, [s.maps[id].port]) else s
    case CloseDevice(device, ports, stop, op) =>
      StartClosing(Remove(StopControl(s, device, stop), Owned(s.maps, device)), op, ports)
    case Register(device, generation, session) => RegisterControl(s, device, generation, session)
    case Unregister(device, generation, ports, op) =>
      if device !in s.controls || s.controls[device].generation != generation then s
      else StartClosing(Remove(s.(controls := s.controls - {device}), Owned(s.maps, device)), op, ports)
  }

  /** What cannot happen is skipped. */
  ghost function Run(s: State, steps: seq<Step>): State {
    if steps == [] then s
    else
      var before := Run(s, steps[..|steps| - 1]);
      var t := steps[|steps| - 1];
      if Possible(before, t) then Apply(before, t) else before
  }

  // ---- invariants ----

  /** The two tables are inverse to one another, into the range of managed ports. */
  ghost predicate Tables(s: State) {
    && (forall id :: id in s.maps ==>
          id in s.used && InRange(s.maps[id].port) && s.maps[id].port in s.byPort && s.byPort[s.maps[id].port] == id)
    && (forall p :: p in s.byPort ==> s.byPort[p] in s.maps && s.maps[s.byPort[p]].port == p)
  }

  /** A device has few mappings, and one for each request. */
  ghost predicate Limited(maps: map<MapId, Mapping>) {
    && (forall d :: |Owned(maps, d)| <= DEVICE_LIMIT)
    && (forall a, b :: a in maps && b in maps && a != b && maps[a].device == maps[b].device ==> maps[a].request != maps[b].request)
  }

  /** Every mapping belongs to a control that is registered, not stopping, and of the same session. */
  ghost predicate Controlled(s: State) {
    forall id :: id in s.maps ==> Authorized(s, s.maps[id].device, s.maps[id].session)
  }

  predicate Pending(o: Op, id: MapId) {
    !o.Closing? && o.id == id
  }

  /** What is being opened is listed under its port and not yet committed; every uncommitted mapping is being opened,
      by one operation. */
  ghost predicate Tracked(s: State) {
    && (forall op :: op in s.ops && !s.ops[op].Closing? ==>
          s.ops[op].id in s.used
          && (s.ops[op].id in s.maps ==> !s.maps[s.ops[op].id].ready && s.maps[s.ops[op].id].port == s.ops[op].port))
    && (forall id :: id in s.maps && !s.maps[id].ready ==> exists op :: op in s.ops && Pending(s.ops[op], id))
    && (forall a, b :: a in s.ops && b in s.ops && a != b && !s.ops[a].Closing? && !s.ops[b].Closing? ==> s.ops[a].id != s.ops[b].id)
  }

  /** The operation may yet open or close the port. */
  predicate Mentions(o: Op, port: int) {
    if o.Closing? then port in o.ports else o.port == port
  }

  /** The operation will close the port, unless it commits the mapping. */
  predicate WillClose(o: Op, port: int) {
    !o.Opening? && Mentions(o, port)
  }

  predicate HeldReady(s: State, port: int) {
    port in s.byPort && s.byPort[port] in s.maps && s.maps[s.byPort[port]].ready
  }

  /** An open port is held by a committed mapping, or some operation will close it. */
  ghost predicate NoLeak(s: State) {
    forall p :: p in s.router ==> HeldReady(s, p) || exists op :: op in s.ops && WillClose(s.ops[op], p)
  }

  ghost predicate Inv(s: State) {
    Tables(s) && Limited(s.maps) && Controlled(s) && Tracked(s) && NoLeak(s)
  }

  // ---- one section at a time ----

  lemma RemoveKeepsTables(s: State, ids: set<MapId>)
    requires Tables(s)
    ensures Tables(Remove(s, ids))
  {
  }

  lemma RemoveKeepsLimited(maps: map<MapId, Mapping>, ids: set<MapId>)
    requires Limited(maps)
    ensures Limited(maps - ids)
  {
    forall d ensures |Owned(maps - ids, d)| <= DEVICE_LIMIT {
      assert Owned(maps - ids, d) <= Owned(maps, d);
      SubsetSize(Owned(maps - ids, d), Owned(maps, d));
    }
  }

  /** Mappings are removed, and the operation is left with their ports to close. */
  ghost predicate Covered(s: State, ids: set<MapId>, op: OpId, ports: seq<int>) {
    && (forall id :: id in ids && id in s.maps ==> s.maps[id].port in ports)
    && (op in s.ops ==> !s.ops[op].Closing? && s.ops[op].id in ids && s.ops[op].port in ports)
  }

  lemma CloseOutKeepsTracked(s: State, ids: set<MapId>, op: OpId, ports: seq<int>)
    requires Tracked(s) && Covered(s, ids, op, ports)
    ensures Tracked(StartClosing(Remove(s, ids), op, ports))
  {
    var s' := StartClosing(Remove(s, ids), op, ports);
    forall id | id in s'.maps && !s'.maps[id].ready ensures exists o :: o in s'.ops && Pending(s'.ops[o], id) {
      var o :| o in s.ops && Pending(s.ops[o], id);
      assert o != op;
      assert o in s'.ops && Pending(s'.ops[o], id);
    }
  }

  lemma CloseOutKeepsNoLeak(s: State, ids: set<MapId>, op: OpId, ports: seq<int>)
    requires Tables(s) && NoLeak(s) && Covered(s, ids, op, ports)
    ensures NoLeak(StartClosing(Remove(s, ids), op, ports))
  {
    var s' := StartClosing(Remove(s, ids), op, ports);
    forall p | p in s'.router ensures HeldReady(s', p) || exists o :: o in s'.ops && WillClose(s'.ops[o], p) {
      if p in ports {
        assert op in s'.ops && WillClose(s'.ops[op], p);
      } else if HeldReady(s, p) {
        StillHeld(s, ids, p);
      } else {
        var o :| o in s.ops && WillClose(s.ops[o], p);
        assert o != op;
        assert o in s'.ops && WillClose(s'.ops[o], p);
      }
    }
  }

  lemma StillHeld(s: State, ids: set<MapId>, p: int)
    requires Tables(s) && HeldReady(s, p) && s.byPort[p] !in ids
    ensures HeldReady(Remove(s, ids), p)
  {
    assert forall other :: other in s.maps && s.maps[other].port == p ==> other == s.byPort[p];
  }

  lemma CloseOutKeepsInv(s: State, ids: set<MapId>, op: OpId, ports: seq<int>)
    requires Tables(s) && Limited(s.maps) && Tracked(s) && NoLeak(s) && Covered(s, ids, op, ports)
    requires forall id :: id in s.maps && id !in ids ==> Authorized(s, s.maps[id].device, s.maps[id].session)
    ensures Inv(StartClosing(Remove(s, ids), op, ports))
  {
    RemoveKeepsTables(s, ids);
    RemoveKeepsLimited(s.maps, ids);
    CloseOutKeepsTracked(s, ids, op, ports);
    CloseOutKeepsNoLeak(s, ids, op, ports);
    hide Tracked;
    hide Limited;
    hide NoLeak;
    hide PortsOf;
  }

  lemma CreateKeepsInv(s: State, t: Step)
    requires Inv(s) && t.Create? && Possible(s, t) && MayCreate(s, t.device, t.session, t.request)
    ensures Inv(Apply(s, t))
  {
    var s' := Apply(s, t);
    CreateKeepsLimited(s.maps, t.id, Mapping(t.device, t.request, t.session, t.port, false));
    CreateKeepsTracked(s, t);
    CreateKeepsNoLeak(s, t);
    hide Tracked;
    hide Limited;
    hide NoLeak;
  }

  lemma CreateKeepsLimited(maps: map<MapId, Mapping>, id: MapId, m: Mapping)
    requires Limited(maps) && id !in maps && |Owned(maps, m.device)| < DEVICE_LIMIT
    requires forall other :: other in maps && maps[other].device == m.device ==> maps[other].request != m.request
    ensures Limited(maps[id := m])
  {
    var maps' := maps[id := m];
    forall d ensures |Owned(maps', d)| <= DEVICE_LIMIT {
      CreateOwned(maps, id, m, d);
    }
  }

  lemma CreateOwned(maps: map<MapId, Mapping>, id: MapId, m: Mapping, d: Device)
    requires id !in maps
    ensures Owned(maps[id := m], d) == if d == m.device then Owned(maps, d) + {id} else Owned(maps, d)
    ensures |Owned(maps[id := m], d)| == if d == m.device then |Owned(maps, d)| + 1 else |Owned(maps, d)|
  {
    assert id !in Owned(maps, d);
    assert Owned(maps[id := m], d) == if d == m.device then Owned(maps, d) + {id} else Owned(maps, d);
  }

  lemma CreateKeepsTracked(s: State, t: Step)
    requires Tables(s) && Tracked(s) && t.Create? && Possible(s, t) && MayCreate(s, t.device, t.session, t.request)
    ensures Tracked(Apply(s, t))
  {
    var s' := Apply(s, t);
    forall id | id in s'.maps && !s'.maps[id].ready ensures exists o :: o in s'.ops && Pending(s'.ops[o], id) {
      if id == t.id {
        assert Pending(s'.ops[t.op], id);
      } else {
        var o :| o in s.ops && Pending(s.ops[o], id);
        assert o in s'.ops && Pending(s'.ops[o], id);
      }
    }
  }

  lemma CreateKeepsNoLeak(s: State, t: Step)
    requires Tables(s) && NoLeak(s) && t.Create? && Possible(s, t) && MayCreate(s, t.device, t.session, t.request)
    ensures NoLeak(Apply(s, t))
  {
    var s' := Apply(s, t);
    forall p | p in s'.router ensures HeldReady(s', p) || exists o :: o in s'.ops && WillClose(s'.ops[o], p) {
      if HeldReady(s, p) {
        assert p != t.port && s.byPort[p] != t.id;
      } else {
        var o :| o in s.ops && WillClose(s.ops[o], p);
        assert o in s'.ops && WillClose(s'.ops[o], p);
      }
    }
  }

  lemma OpenHookKeepsInv(s: State, t: Step)
    requires Inv(s) && t.OpenHook? && Possible(s, t)
    ensures Inv(Apply(s, t))
  {
    var s' := Apply(s, t);
    forall id | id in s'.maps && !s'.maps[id].ready ensures exists o :: o in s'.ops && Pending(s'.ops[o], id) {
      var o :| o in s.ops && Pending(s.ops[o], id);
      assert o in s'.ops && Pending(s'.ops[o], id);
    }
    forall p | p in s'.router ensures HeldReady(s', p) || exists o :: o in s'.ops && WillClose(s'.ops[o], p) {
      if p == s.ops[t.op].port {
        assert WillClose(s'.ops[t.op], p);
      } else if !HeldReady(s, p) {
        var o :| o in s.ops && WillClose(s.ops[o], p);
        assert o in s'.ops && WillClose(s'.ops[o], p);
      }
    }
  }

  lemma CommitKeepsInv(s: State, op: OpId)
    requires Inv(s) && op in s.ops && s.ops[op].Opened?
    ensures Inv(CommitOp(s, op))
  {
    var o := s.ops[op];
    if o.id in s.maps && Authorized(s, o.device, o.session) {
      MarkReadyKeepsInv(s, op);
    } else {
      CloseOutKeepsInv(s, {o.id}, op, [o.port]);
    }
  }

  function MarkReady(s: State, op: OpId): State
    requires op in s.ops && s.ops[op].Opened? && s.ops[op].id in s.maps
  {
    s.(maps := s.maps[s.ops[op].id := s.maps[s.ops[op].id].(ready := true)], ops := s.ops - {op})
  }

  lemma MarkReadyKeepsInv(s: State, op: OpId)
    requires Inv(s) && op in s.ops && s.ops[op].Opened? && s.ops[op].id in s.maps
    ensures Inv(MarkReady(s, op))
  {
    var s', o := MarkReady(s, op), s.ops[op];
    forall d ensures Owned(s'.maps, d) == Owned(s.maps, d) {
    }
    assert Limited(s'.maps);
    forall id | id in s'.maps && !s'.maps[id].ready ensures exists k :: k in s'.ops && Pending(s'.ops[k], id) {
      var k :| k in s.ops && Pending(s.ops[k], id);
      assert k in s'.ops && Pending(s'.ops[k], id);
    }
    forall p | p in s'.router ensures HeldReady(s', p) || exists k :: k in s'.ops && WillClose(s'.ops[k], p) {
      if !HeldReady(s, p) {
        var k :| k in s.ops && WillClose(s.ops[k], p);
        if k == op {
          assert p == o.port && s.byPort[p] == o.id;
        } else {
          assert k in s'.ops && WillClose(s'.ops[k], p);
        }
      }
    }
  }

  lemma CloseHookKeepsInv(s: State, t: Step)
    requires Inv(s) && t.CloseHook? && Possible(s, t)
    ensures Inv(Apply(s, t))
  {
    var s', ports := Apply(s, t), s.ops[t.op].ports;
    forall id | id in s'.maps && !s'.maps[id].ready ensures exists o :: o in s'.ops && Pending(s'.ops[o], id) {
      var o :| o in s.ops && Pending(s.ops[o], id);
      assert o in s'.ops && Pending(s'.ops[o], id);
    }
    forall p | p in s'.router ensures HeldReady(s', p) || exists o :: o in s'.ops && WillClose(s'.ops[o], p) {
      if !HeldReady(s, p) {
        var o :| o in s.ops && WillClose(s.ops[o], p);
        assert o in s'.ops && WillClose(s'.ops[o], p);
      }
    }
  }

  lemma CloseDeviceKeepsInv(s: State, t: Step)
    requires Inv(s) && t.CloseDevice? && Possible(s, t)
    ensures Inv(Apply(s, t))
  {
    var s1 := StopControl(s, t.device, t.stop);
    CloseOutKeepsInv(s1, Owned(s.maps, t.device), t.op, t.ports);
  }

  lemma UnregisterKeepsInv(s: State, t: Step)
    requires Inv(s) && t.Unregister? && Possible(s, t)
    ensures Inv(Apply(s, t))
  {
    if t.device in s.controls && s.controls[t.device].generation == t.generation {
      var s1 := s.(controls := s.controls - {t.device});
      CloseOutKeepsInv(s1, Owned(s.maps, t.device), t.op, t.ports);
    }
  }

  /** A new control takes over the session of the one it replaces, so the mappings stay with it. */
  lemma RegisterKeepsInv(s: State, device: Device, generation: nat, session: Session)
    requires Inv(s)
    ensures Inv(RegisterControl(s, device, generation, session))
  {
    var s' := RegisterControl(s, device, generation, session);
    forall id | id in s'.maps ensures Authorized(s', s'.maps[id].device, s'.maps[id].session) {
      assert Authorized(s, s.maps[id].device, s.maps[id].session);
    }
    assert Tracked(s') && NoLeak(s');
  }

  lemma {:induction false} StepKeepsInv(s: State, t: Step)
    requires Inv(s) && Possible(s, t)
    ensures Inv(Apply(s, t))
  {
    hide Inv;
    match t
    case Create(device, session, request, _, _, _) =>
      if MayCreate(s, device, session, request) {
        CreateKeepsInv(s, t);
      }
    case OpenHook(_, _, _) => OpenHookKeepsInv(s, t);
    case Commit(op) => CommitKeepsInv(s, op);
    case GiveUp(op) => GiveUpKeepsInv(s, op);
    case CloseHook(_) => CloseHookKeepsInv(s, t);
    case Delete(id, op) => DeleteKeepsInv(s, id, op);
    case CloseDevice(_, _, _, _) => CloseDeviceKeepsInv(s, t);
    case Register(device, generation, session) => RegisterKeepsInv(s, device, generation, session);
    case Unregister(_, _, _, _) => UnregisterKeepsInv(s, t);
  }

  lemma GiveUpKeepsInv(s: State, op: OpId)
    requires Inv(s) && op in s.ops && s.ops[op].Failed?
    ensures Inv(StartClosing(Remove(s, {s.ops[op].id}), op, [s.ops[op].port]))
  {
    CloseOutKeepsInv(s, {s.ops[op].id}, op, [s.ops[op].port]);
  }

  lemma DeleteKeepsInv(s: State, id: MapId, op: OpId)
    requires Inv(s) && op !in s.ops
    ensures id in s.maps ==> Inv(StartClosing(Remove(s, {id}), op, [s.maps[id].port]))
  {
    if id in s.maps {
      CloseOutKeepsInv(s, {id}, op, [s.maps[id].port]);
    }
  }

  lemma {:induction false} RunKeepsInv(s: State, steps: seq<Step>)
    requires Inv(s)
    ensures Inv(Run(s, steps))
  {
    hide Inv;
    hide Apply;
    if steps != [] {
      RunKeepsInv(s, steps[..|steps| - 1]);
      var before := Run(s, steps[..|steps| - 1]);
      if Possible(before, steps[|steps| - 1]) {
        StepKeepsInv(before, steps[|steps| - 1]);
      }
    }
  }

  /** Whatever the interleaving, once no operation is under way every open port is held by a committed mapping of a
      device whose control is registered, and every mapping is committed. */
  lemma {:induction false} NothingLeaks(steps: seq<Step>)
    requires Run(START, steps).ops == map[]
    ensures var s := Run(START, steps);
            && (forall p :: p in s.router ==> exists id :: id in s.maps && s.maps[id].port == p && s.maps[id].ready)
            && (forall id :: id in s.maps ==> s.maps[id].ready && Authorized(s, s.maps[id].device, s.maps[id].session))
  {
    RunKeepsInv(START, steps);
    hide Run;
    var s := Run(START, steps);
    forall p | p in s.router ensures exists id :: id in s.maps && s.maps[id].port == p && s.maps[id].ready {
      assert HeldReady(s, p);
    }
  }

  /** In every state that can be reached the two port tables are inverse, into 9000 to 9500; no device has more than five
      mappings or two for one request; and each mapping's device has a control of the mapping's session. */
  lemma {:induction false} TablesInEveryRun(steps: seq<Step>)
    ensures var s := Run(START, steps);
            && (forall id :: id in s.maps ==> 9000 <= s.maps[id].port <= 9500 && s.maps[id].port in s.byPort && s.byPort[s.maps[id].port] == id)
            && (forall p :: p in s.byPort ==> s.byPort[p] in s.maps && s.maps[s.byPort[p]].port == p)
            && (forall d :: |Owned(s.maps, d)| <= 5)
            && (forall a, b :: a in s.maps && b in s.maps && a != b && s.maps[a].device == s.maps[b].device ==>
                  s.maps[a].request != s.maps[b].request)
            && (forall id :: id in s.maps ==> Authorized(s, s.maps[id].device, s.maps[id].session))
  {
    RunKeepsInv(START, steps);
    hide Run;
    hide Owned;
    hide Tracked;
    hide NoLeak;
  }

  // ---- when a committed port stays open ----

  /** The mapping is committed and its port is open. */
  predicate Serving(s: State, id: MapId) {
    id in s.maps && s.maps[id].ready && s.maps[id].port in s.router
  }

  /** No operation is concerned with the port. */
  ghost predicate Undisturbed(s: State, port: int) {
    forall op :: op in s.ops ==> !Mentions(s.ops[op], port)
  }

  lemma CloseOutKeepsServing(s: State, ids: set<MapId>, op: OpId, ports: seq<int>, id: MapId)
    requires Serving(s, id) && Undisturbed(s, s.maps[id].port) && id !in ids && s.maps[id].port !in ports
    ensures var s' := StartClosing(Remove(s, ids), op, ports);
            Serving(s', id) && s'.maps[id] == s.maps[id] && Undisturbed(s', s.maps[id].port)
  {
    hide PortsOf;
  }

  lemma DeleteKeepsServing(s: State, other: MapId, op: OpId, id: MapId)
    requires Tables(s) && Serving(s, id) && Undisturbed(s, s.maps[id].port) && other in s.maps && other != id
    ensures var s' := StartClosing(Remove(s, {other}), op, [s.maps[other].port]);
            Serving(s', id) && s'.maps[id] == s.maps[id] && Undisturbed(s', s.maps[id].port)
  {
    assert s.byPort[s.maps[id].port] == id && s.byPort[s.maps[other].port] == other;
    CloseOutKeepsServing(s, {other}, op, [s.maps[other].port], id);
  }

  lemma CommitKeepsServing(s: State, op: OpId, id: MapId)
    requires Tracked(s) && op in s.ops && s.ops[op].Opened? && Serving(s, id) && Undisturbed(s, s.maps[id].port)
    ensures var s' := CommitOp(s, op);
            Serving(s', id) && s'.maps[id] == s.maps[id] && Undisturbed(s', s.maps[id].port)
  {
    var o := s.ops[op];
    assert o.id != id;
    if !(o.id in s.maps && Authorized(s, o.device, o.session)) {
      assert !Mentions(o, s.maps[id].port);
      CloseOutKeepsServing(s, {o.id}, op, [o.port], id);
    }
  }

  lemma GiveUpKeepsServing(s: State, op: OpId, id: MapId)
    requires Tracked(s) && op in s.ops && s.ops[op].Failed? && Serving(s, id) && Undisturbed(s, s.maps[id].port)
    ensures var s' := StartClosing(Remove(s, {s.ops[op].id}), op, [s.ops[op].port]);
            Serving(s', id) && s'.maps[id] == s.maps[id] && Undisturbed(s', s.maps[id].port)
  {
    assert !Mentions(s.ops[op], s.maps[id].port);
    CloseOutKeepsServing(s, {s.ops[op].id}, op, [s.ops[op].port], id);
  }

  lemma HooksKeepServing(s: State, t: Step, id: MapId)
    requires (t.OpenHook? || t.CloseHook?) && Possible(s, t) && Serving(s, id) && Undisturbed(s, s.maps[id].port)
    ensures var s' := Apply(s, t);
            Serving(s', id) && s'.maps[id] == s.maps[id] && Undisturbed(s', s.maps[id].port)
  {
    assert !Mentions(s.ops[t.op], s.maps[id].port);
  }

  /** While no operation is concerned with it, the port of a committed mapping stays open and none comes to be, until
      the mapping goes. */
  lemma {:induction false} StepKeepsServing(s: State, t: Step, id: MapId)
    requires Inv(s) && Possible(s, t) && Serving(s, id) && Undisturbed(s, s.maps[id].port) && id in Apply(s, t).maps
    ensures Serving(Apply(s, t), id) && Apply(s, t).maps[id] == s.maps[id] && Undisturbed(Apply(s, t), s.maps[id].port)
  {
    hide Limited;
    hide Controlled;
    hide NoLeak;
    match t
    case Create(_, _, _, _, _, _) =>
      CreateKeepsServing(s, t, id);
    case OpenHook(_, _, _) => HooksKeepServing(s, t, id);
    case CloseHook(_) => HooksKeepServing(s, t, id);
    case Commit(op) => CommitKeepsServing(s, op, id);
    case GiveUp(op) => GiveUpKeepsServing(s, op, id);
    case Delete(other, op) =>
      if other in s.maps {
        DeleteKeepsServing(s, other, op, id);
      }
    case CloseDevice(device, ports, stop, op) =>
      OthersPorts(s, device, ports, id);
      CloseOutKeepsServing(StopControl(s, device, stop), Owned(s.maps, device), op, ports, id);
    case Unregister(device, generation, ports, op) =>
      if device in s.controls && s.controls[device].generation == generation {
        OthersPorts(s, device, ports, id);
        CloseOutKeepsServing(s.(controls := s.controls - {device}), Owned(s.maps, device), op, ports, id);
      }
    case Register(_, _, _) =>
  }

  lemma CreateKeepsServing(s: State, t: Step, id: MapId)
    requires Tables(s) && t.Create? && Possible(s, t) && Serving(s, id) && Undisturbed(s, s.maps[id].port)
    ensures Serving(Apply(s, t), id) && Apply(s, t).maps[id] == s.maps[id] && Undisturbed(Apply(s, t), s.maps[id].port)
  {
    hide MayCreate;
  }

  /** The same over a run. */
  lemma {:induction false} RunKeepsServing(s: State, steps: seq<Step>, id: MapId)
    requires Inv(s) && Serving(s, id) && Undisturbed(s, s.maps[id].port)
    requires forall i :: 0 <= i <= |steps| ==> id in Run(s, steps[..i]).maps
    ensures Serving(Run(s, steps), id) && Run(s, steps).maps[id] == s.maps[id] && Undisturbed(Run(s, steps), s.maps[id].port)
  {
    hide Inv;
    hide Apply;
    hide Serving;
    hide Undisturbed;
    assert steps[..|steps|] == steps;
    if steps != [] {
      var n := |steps| - 1;
      forall i | 0 <= i <= n ensures id in Run(s, steps[..n][..i]).maps {
        assert steps[..n][..i] == steps[..i];
      }
      RunKeepsServing(s, steps[..n], id);
      RunKeepsInv(s, steps[..n]);
      var before := Run(s, steps[..n]);
      if Possible(before, steps[n]) {
        StepKeepsServing(before, steps[n], id);
      }
    }
  }

  /** The steps by which an operation closes the port it mentions. */
  function Finish(o: Op, op: OpId, port: int): (steps: seq<Step>)
    requires Mentions(o, port)
  {
    match o
    case Opening(_, _, _, _) => [OpenHook(op, true, true), Commit(op), CloseHook(op)]
    case Opened(_, _, _, _) => [Commit(op), CloseHook(op)]
    case Failed(_, _) => [GiveUp(op), CloseHook(op)]
    case Closing(ports) => Drain(op, ports, port)
  }

  function Drain(op: OpId, ports: seq<int>, port: int): (steps: seq<Step>)
    requires port in ports
  {
    if ports[0] == port then [CloseHook(op)] else [CloseHook(op)] + Drain(op, ports[1..], port)
  }

  lemma OthersPorts(s: State, device: Device, ports: seq<int>, id: MapId)
    requires Tables(s) && ListsPorts(s, device, ports) && id in s.maps && s.maps[id].device != device
    ensures s.maps[id].port !in ports
  {
    assert s.byPort[s.maps[id].port] == id;
  }

  lemma RunCons(s: State, t: Step, rest: seq<Step>)
    requires Possible(s, t)
    ensures Run(s, [t] + rest) == Run(Apply(s, t), rest)
    decreases |rest|
  {
    hide Apply;
    hide Possible;
    if rest == [] {
      assert ([t] + rest)[..0] == [];
    } else {
      var n := |rest| - 1;
      RunCons(s, t, rest[..n]);
      assert ([t] + rest)[..|[t] + rest| - 1] == [t] + rest[..n];
    }
  }

  /** The close hooks of one operation are run up to and including that of port. */
  lemma {:induction false} DrainCloses(s: State, op: OpId, port: int)
    requires op in s.ops && s.ops[op].Closing? && port in s.ops[op].ports
    ensures var steps := Drain(op, s.ops[op].ports, port);
            && port !in Run(s, steps).router
            && (forall i :: 0 <= i <= |steps| ==> Run(s, steps[..i]).maps == s.maps)
    decreases |s.ops[op].ports|
  {
    var ports := s.ops[op].ports;
    var t := CloseHook(op);
    var s1 := Apply(s, t);
    var rest := if ports[0] == port then [] else Drain(op, ports[1..], port);
    assert Drain(op, ports, port) == [t] + rest;
    if ports[0] != port {
      DrainCloses(s1, op, port);
    }
    AfterOne(s, t, rest);
  }

  /** A step that leaves the mappings as they are, before a run that does. */
  lemma AfterOne(s: State, t: Step, rest: seq<Step>)
    requires Possible(s, t) && Apply(s, t).maps == s.maps
    requires forall i :: 0 <= i <= |rest| ==> Run(Apply(s, t), rest[..i]).maps == s.maps
    ensures Run(s, [t] + rest) == Run(Apply(s, t), rest)
    ensures forall i :: 0 <= i <= |[t] + rest| ==> Run(s, ([t] + rest)[..i]).maps == s.maps
  {
    hide Apply;
    hide Possible;
    RunCons(s, t, rest);
    forall i | 0 <= i <= |[t] + rest| ensures Run(s, ([t] + rest)[..i]).maps == s.maps {
      if i > 0 {
        assert ([t] + rest)[..i] == [t] + rest[..i - 1];
        RunCons(s, t, rest[..i - 1]);
      }
    }
  }

  /** An operation concerned with the port of someone else's mapping can close it and leave the mapping in place. */
  lemma {:induction false} FinishCloses(s: State, op: OpId, id: MapId)
    requires Inv(s) && id in s.maps && s.maps[id].ready && op in s.ops && Mentions(s.ops[op], s.maps[id].port)
    ensures var steps := Finish(s.ops[op], op, s.maps[id].port);
            && s.maps[id].port !in Run(s, steps).router
            && (forall i :: 0 <= i <= |steps| ==> Run(s, steps[..i]).maps == s.maps)
    decreases if s.ops[op].Opening? then 2 else if s.ops[op].Closing? then 0 else 1
  {
    var o, port := s.ops[op], s.maps[id].port;
    if o.Closing? {
      DrainCloses(s, op, port);
    } else {
      var steps := Finish(o, op, port);
      var t, rest := steps[0], steps[1..];
      assert steps == [t] + rest;
      NotOurs(s, op, id);
      StepKeepsInv(s, t);
      var s1 := Apply(s, t);
      assert s1.maps == s.maps && op in s1.ops && Mentions(s1.ops[op], port);
      FinishCloses(s1, op, id);
      assert rest == Finish(s1.ops[op], op, port);
      AfterOne(s, t, rest);
    }
  }

  lemma NotOurs(s: State, op: OpId, id: MapId)
    requires Tables(s) && Tracked(s) && id in s.maps && s.maps[id].ready && op in s.ops && !s.ops[op].Closing?
    requires s.ops[op].port == s.maps[id].port
    ensures s.ops[op].id !in s.maps
  {
    assert s.byPort[s.maps[id].port] == id;
  }

  /** The mapping is there all along. */
  ghost predicate Survives(s: State, steps: seq<Step>, id: MapId) {
    forall i :: 0 <= i <= |steps| ==> id in Run(s, steps[..i]).maps
  }

  /** A committed mapping's open port stays open as long as the mapping exists, whatever happens, if and only if no
      operation is concerned with that port. */
  lemma {:induction false} ServesExactlyWhenUndisturbed(s: State, id: MapId)
    requires Inv(s) && Serving(s, id)
    ensures Undisturbed(s, s.maps[id].port) <==> forall steps :: Survives(s, steps, id) ==> Serving(Run(s, steps), id)
  {
    hide Inv;
    hide Run;
    var port := s.maps[id].port;
    if Undisturbed(s, port) {
      forall steps | Survives(s, steps, id) ensures Serving(Run(s, steps), id) {
        RunKeepsServing(s, steps, id);
      }
    } else {
      var op :| op in s.ops && Mentions(s.ops[op], port);
      var steps := Finish(s.ops[op], op, port);
      FinishCloses(s, op, id);
      assert steps[..|steps|] == steps;
      assert Survives(s, steps, id) && !Serving(Run(s, steps), id);
    }
  }

  // A device's mapping is closed by the administrator, and its port is issued again before the close hook has run.

  const OWNER := Control(0, 7, false)
  const FIRST_OPENED := State(map[1 := Mapping(1, 1, 7, 9000, true)], map[9000 := 1], {1}, map[1 := OWNER], map[], {9000})
  const FIRST_CLOSING := State(map[], map[], {1}, map[1 := OWNER], map[2 := Closing([9000])], {9000})
  const SECOND_OPENED := State(map[2 := Mapping(1, 2, 7, 9000, true)], map[9000 := 2], {1, 2}, map[1 := OWNER],
                               map[2 := Closing([9000])], {9000})
  const OPEN_FIRST: seq<Step> := [Register(1, 0, 7), Create(1, 7, 1, 1, 9000, 1), OpenHook(1, true, true), Commit(1)]
  const OPEN_SECOND: seq<Step> := [Create(1, 7, 2, 2, 9000, 3), OpenHook(3, true, true), Commit(3)]

  lemma FirstOpens(rest: seq<Step>)
    ensures Run(START, OPEN_FIRST + rest) == Run(FIRST_OPENED, rest)
  {
    hide Run;
    var k := OPEN_FIRST;
    assert Owned(map[], 1) == {};
    var s1 := State(map[], map[], {}, map[1 := OWNER], map[], {});
    var s2 := State(map[1 := Mapping(1, 1, 7, 9000, false)], map[9000 := 1], {1}, map[1 := OWNER], map[1 := Opening(1, 1, 7, 9000)], {});
    var s3 := s2.(ops := map[1 := Opened(1, 1, 7, 9000)], router := {9000});
    Steps(START, k[0], s1, k[1..] + rest);
    Steps(s1, k[1], s2, k[2..] + rest);
    Steps(s2, k[2], s3, k[3..] + rest);
    Steps(s3, k[3], FIRST_OPENED, rest);
    assert OPEN_FIRST + rest == [k[0]] + (k[1..] + rest);
    assert k[1..] + rest == [k[1]] + (k[2..] + rest);
    assert k[2..] + rest == [k[2]] + (k[3..] + rest);
    assert k[3..] + rest == [k[3]] + rest;
  }

  lemma SecondOpens(rest: seq<Step>)
    ensures Run(FIRST_CLOSING, OPEN_SECOND + rest) == Run(SECOND_OPENED, rest)
  {
    hide Run;
    var k := OPEN_SECOND;
    assert Owned(map[], 1) == {};
    var s1 := State(map[2 := Mapping(1, 2, 7, 9000, false)], map[9000 := 2], {1, 2}, map[1 := OWNER],
                    map[2 := Closing([9000]), 3 := Opening(2, 1, 7, 9000)], {9000});
    var s2 := s1.(ops := map[2 := Closing([9000]), 3 := Opened(2, 1, 7, 9000)]);
    Steps(FIRST_CLOSING, k[0], s1, k[1..] + rest);
    Steps(s1, k[1], s2, k[2..] + rest);
    Steps(s2, k[2], SECOND_OPENED, rest);
    assert OPEN_SECOND + rest == [k[0]] + (k[1..] + rest);
    assert k[1..] + rest == [k[1]] + (k[2..] + rest);
    assert k[2..] + rest == [k[2]] + rest;
  }

  /** The late close hook shuts the port under the new mapping. */
  lemma {:induction false} ReissuedPortCanBeShut()
    ensures var s := Run(START, OPEN_FIRST + ([Delete(1, 2)] + (OPEN_SECOND + [CloseHook(2)])));
            s == SECOND_OPENED.(ops := map[], router := {}) && s.maps[2].ready && s.maps[2].port !in s.router
  {
    FirstOpens([Delete(1, 2)] + (OPEN_SECOND + [CloseHook(2)]));
    Steps(FIRST_OPENED, Delete(1, 2), FIRST_CLOSING, OPEN_SECOND + [CloseHook(2)]);
    SecondOpens([CloseHook(2)]);
    hide Run;
    Steps(SECOND_OPENED, CloseHook(2), SECOND_OPENED.(ops := map[], router := {}), []);
    assert [CloseHook(2)] == [CloseHook(2)] + [];
    RunNothing(SECOND_OPENED.(ops := map[], router := {}));
  }

  lemma RunNothing(s: State)
    ensures Run(s, []) == s
  {
  }

  lemma Steps(s: State, t: Step, s': State, rest: seq<Step>)
    requires Possible(s, t) && Apply(s, t) == s'
    ensures Run(s, [t] + rest) == Run(s', rest)
  {
    RunCons(s, t, rest);
  }
}
