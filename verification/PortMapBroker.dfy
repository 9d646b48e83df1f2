/** The broker's port tables as mutable maps, one method for each locked section: cmd/yudesk-relay/portmap.go and
  cmd/yudesk-relay/control.go. */
module PortMapBrokers {
  import opened Wrappers
  import opened PortMaps

  const MAX_LOCAL_PORT: int := 65535
  const MAX_NAME: nat := 40
  const SPAN: nat := 501

  datatype Refusal = BadRequest | BadLocalPort | LongName | Unlicensed | Disabled | NotConnected | TooMany | PoolFull

  datatype Creation = Refused(reason: Refusal) | AlreadyThere | Reserved(port: int)

  /** What a create command carries, with what the license store and the configuration answer. */
  datatype Command = Command(request: nat, localPort: int, nameLength: nat, licensed: bool, enabled: bool)

  predicate WellFormed(c: Command) {
    c.request != 0 && 1 <= c.localPort <= MAX_LOCAL_PORT && c.nameLength <= MAX_NAME && c.licensed && c.enabled
  }

  /** The n-th port to be looked at when the search starts at start. */
  function Candidate(start: nat, n: nat): int {
    PORT_MIN + (start + n) % SPAN
  }

  /** The search looks at every managed port. */
  lemma EveryPortIsACandidate(start: nat, port: int)
    requires InRange(port) && start < SPAN
    ensures exists n: nat :: n < SPAN && Candidate(start, n) == port
  {
    var target := port - PORT_MIN;
    var n := if target >= start then target - start else target + SPAN - start;
    assert Candidate(start, n) == port;
  }

  class PortMapBroker {
    var portMaps: map<MapId, Mapping>
    var portByNumber: map<int, MapId>
    var controls: map<Device, Control>
    ghost var used: set<MapId>

    constructor ()
      ensures View() == START
    {
      portMaps, portByNumber, controls, used := map[], map[], map[], {};
    }

    /** The broker's part of the state: what is under way and what the router has open is not its own. */
    ghost function View(): State
      reads this
    {
      State(portMaps, portByNumber, used, controls, map[], {})
    }

    /** randomFreePortLocked: the search fails exactly when every managed port is taken. */
    method RandomFreePort(start: nat) returns (port: Option<int>)
      requires start < SPAN
      ensures port.None? <==> forall p :: InRange(p) ==> p in portByNumber
      ensures port.Some? ==> InRange(port.value) && port.value !in portByNumber
      ensures port.Some? ==> exists n: nat :: n < SPAN && Candidate(start, n) == port.value
                                              && forall m: nat :: m < n ==> Candidate(start, m) in portByNumber
    {
      var offset := 0;
      while offset < SPAN
        invariant 0 <= offset <= SPAN
        invariant forall n: nat :: n < offset ==> Candidate(start, n) in portByNumber
      {
        var candidate := Candidate(start, offset);
        if candidate !in portByNumber {
          assert InRange(candidate);
          return Some(candidate);
        }
        offset := offset + 1;
      }
      forall p | InRange(p) ensures p in portByNumber {
        EveryPortIsACandidate(start, p);
      }
      port := None;
    }

    /** How many mappings the device has, and whether one of them answers the request. */
    method Count(device: Device, request: nat) returns (count: nat, found: bool)
      ensures found <==> exists id :: id in portMaps && portMaps[id].device == device && portMaps[id].request == request
      ensures !found ==> count == |Owned(portMaps, device)|
    {
      count, found := 0, false;
      var pending := portMaps.Keys;
      ghost var seen: set<MapId> := {};
      while pending != {} && !found
        invariant pending <= portMaps.Keys && seen <= Owned(portMaps, device) && seen !! pending
        invariant forall id :: id in Owned(portMaps, device) ==> id in seen || id in pending
        invariant count == |seen|
        invariant found ==> exists id :: id in portMaps && portMaps[id].device == device && portMaps[id].request == request
        invariant !found ==> forall id :: id in seen ==> portMaps[id].request != request
        decreases pending
      {
        var id :| id in pending;
        pending := pending - {id};
        if portMaps[id].device == device {
          count, seen := count + 1, seen + {id};
          found := portMaps[id].request == request;
        }
      }
      if !found {
        assert seen == Owned(portMaps, device);
      }
    }

    /** The first section of createPortMap: the mapping is entered before the router is asked to open its port. */
    method Create(device: Device, session: Session, c: Command, id: MapId, start: nat) returns (r: Creation)
      requires id !in used && start < SPAN
      modifies `portMaps, `portByNumber, `used
      ensures r.Reserved? ==>
                && WellFormed(c) && MayCreate(old(View()), device, session, c.request)
                && InRange(r.port) && r.port !in old(portByNumber)
                && View() == old(View()).(maps := old(portMaps)[id := Mapping(device, c.request, session, r.port, false)],
                                          byPort := old(portByNumber)[r.port := id], used := old(used) + {id})
      ensures !r.Reserved? ==> View() == old(View())
      ensures r == Refused(BadRequest) <==> c.request == 0
      ensures r == Refused(NotConnected) <==> WellFormed(c) && !Authorized(old(View()), device, session)
      ensures r.AlreadyThere? <==>
                && WellFormed(c) && Authorized(old(View()), device, session)
                && exists other :: other in old(portMaps) && old(portMaps)[other].device == device && old(portMaps)[other].request == c.request
      ensures r == Refused(TooMany) ==> WellFormed(c) && |Owned(portMaps, device)| >= DEVICE_LIMIT
      ensures r == Refused(PoolFull) ==> forall p :: InRange(p) ==> p in portByNumber
      ensures WellFormed(c) && MayCreate(old(View()), device, session, c.request) ==> r.Reserved? || r == Refused(PoolFull)
    {
      if c.request == 0 {
        return Refused(BadRequest);
      }
      if c.localPort < 1 || c.localPort > MAX_LOCAL_PORT {
        return Refused(BadLocalPort);
      }
      if c.nameLength > MAX_NAME {
        return Refused(LongName);
      }
      if !c.licensed {
        return Refused(Unlicensed);
      }
      if !c.enabled {
        return Refused(Disabled);
      }
      if device !in controls || controls[device].stopping || controls[device].session != session {
        return Refused(NotConnected);
      }
      var count, found := Count(device, c.request);
      if found {
        return AlreadyThere;
      }
      if count >= DEVICE_LIMIT {
        return Refused(TooMany);
      }
      var port := RandomFreePort(start);
      if port.None? {
        return Refused(PoolFull);
      }
      portMaps := portMaps[id := Mapping(device, c.request, session, port.value, false)];
      portByNumber := portByNumber[port.value := id];
      used := used + {id};
      r := Reserved(port.value);
    }

    /** The section after a successful open hook; op is the operation in the state model. */
    method Commit(id: MapId, device: Device, session: Session, ghost port: int) returns (committed: bool)
      modifies `portMaps, `portByNumber
      ensures committed == (id in old(portMaps) && Authorized(old(View()), device, session))
      ensures var s := old(View()).(ops := map[0 := Opened(id, device, session, port)]);
              View() == CommitOp(s, 0).(ops := map[])
    {
      committed := id in portMaps && device in controls && !controls[device].stopping && controls[device].session == session;
      if committed {
        portMaps := portMaps[id := portMaps[id].(ready := true)];
      } else if id in portMaps {
        var _ := RemoveMapping(id);
      } else {
        assert PortsOf(portMaps, {id}) == {};
        assert portMaps - {id} == portMaps;
        assert portByNumber - PortsOf(portMaps, {id}) == portByNumber;
      }
    }

    /** removePortMapLocked; the caller closes the port that is returned. */
    method RemoveMapping(id: MapId) returns (port: Option<int>)
      modifies `portMaps, `portByNumber
      ensures View() == Remove(old(View()), {id})
      ensures port == if id in old(portMaps) then Some(old(portMaps)[id].port) else None
    {
      if id !in portMaps {
        assert PortsOf(portMaps, {id}) == {};
        assert portMaps - {id} == portMaps;
        assert portByNumber - PortsOf(portMaps, {id}) == portByNumber;
        return None;
      }
      port := Some(portMaps[id].port);
      assert PortsOf(portMaps, {id}) == {portMaps[id].port};
      portByNumber := portByNumber - {portMaps[id].port};
      portMaps := portMaps - {id};
    }

    /** deletePortMap: a device's own mapping goes, and its port is to be closed. */
    method Delete(device: Device, id: MapId) returns (port: Option<int>)
      modifies `portMaps, `portByNumber
      ensures port == if id in old(portMaps) && old(portMaps)[id].device == device then Some(old(portMaps)[id].port) else None
      ensures View() == if port.Some? then Remove(old(View()), {id}) else old(View())
    {
      if id !in portMaps || portMaps[id].device != device {
        return None;
      }
      port := RemoveMapping(id);
    }

    /** The loop that drops all mappings of a device and gathers the ports to close afterwards. */
    method RemoveDevice(device: Device) returns (ports: seq<int>)
      modifies `portMaps, `portByNumber
      ensures View() == Remove(old(View()), Owned(old(portMaps), device))
      ensures ListsPorts(old(View()), device, ports)
    {
      ports := [];
      var pending := portMaps.Keys;
      ghost var maps, byPort := portMaps, portByNumber;
      ghost var gone: set<MapId> := {};
      while pending != {}
        invariant pending <= maps.Keys && gone <= Owned(maps, device) && gone !! pending
        invariant forall id :: id in Owned(maps, device) ==> id in gone || id in pending
        invariant portMaps == maps - gone && portByNumber == byPort - PortsOf(maps, gone)
        invariant forall p :: p in ports <==> p in PortsOf(maps, gone)
        decreases pending
      {
        var id :| id in pending;
        pending := pending - {id};
        if portMaps[id].device == device {
          assert PortsOf(maps, gone + {id}) == PortsOf(maps, gone) + {maps[id].port};
          ports := ports + [portMaps[id].port];
          portByNumber := portByNumber - {portMaps[id].port};
          portMaps := portMaps - {id};
          gone := gone + {id};
        }
      }
      assert gone == Owned(maps, device);
    }

    /** closeDevicePortMaps and the port section of terminateDevice. */
    method CloseDevice(device: Device, stop: bool) returns (ports: seq<int>)
      modifies `portMaps, `portByNumber, `controls
      ensures Possible(old(View()), PortMaps.CloseDevice(device, ports, stop, 0))
      ensures View() == Apply(old(View()), PortMaps.CloseDevice(device, ports, stop, 0)).(ops := map[])
    {
      if stop && device in controls {
        controls := controls[device := controls[device].(stopping := true)];
      }
      ports := RemoveDevice(device);
    }

    /** A new control connection takes its place, and the session of the one it replaces. */
    method Register(device: Device, generation: nat, session: Session) returns (ok: bool)
      modifies `controls
      ensures ok == !(device in old(controls) && old(controls)[device].stopping)
      ensures View() == RegisterControl(old(View()), device, generation, session)
    {
      if device in controls && controls[device].stopping {
        return false;
      }
      var kept := session;
      if device in controls {
        kept := controls[device].session;
      }
      controls := controls[device := Control(generation, kept, false)];
      ok := true;
    }

    /** The deferred cleanup of a control connection: nothing happens if another one has taken over. */
    method Unregister(device: Device, generation: nat) returns (ports: seq<int>)
      modifies `portMaps, `portByNumber, `controls
      ensures device in old(controls) && old(controls)[device].generation == generation ==>
                && Possible(old(View()), PortMaps.Unregister(device, generation, ports, 0))
                && View() == Apply(old(View()), PortMaps.Unregister(device, generation, ports, 0)).(ops := map[])
      ensures !(device in old(controls) && old(controls)[device].generation == generation) ==> View() == old(View()) && ports == []
    {
      if device !in controls || controls[device].generation != generation {
        return [];
      }
      controls := controls - {device};
      ports := RemoveDevice(device);
    }
  }
}
