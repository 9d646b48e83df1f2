/** What the operations on public port mappings and on control connections bring about: cmd/yudesk-relay/portmap.go and
  cmd/yudesk-relay/control.go. */
module PortMapEffects {
  import opened PortMaps

  // ---- control connections ----

  /** A connection that is let in is the device's control, with the session of the one before it if there was one; it is kept
      out exactly while the device is being stopped. */
  lemma {:induction false} RegisterTakesOver(s: State, d: Device, g: nat, k: Session)
    ensures var s' := Apply(s, Register(d, g, k));
            if d in s.controls && s.controls[d].stopping then s' == s
            else
              && d in s'.controls && s'.controls[d].generation == g && !s'.controls[d].stopping
              && s'.controls[d].session == (if d in s.controls then s.controls[d].session else k)
              && (forall e :: e != d ==> (e in s'.controls <==> e in s.controls) && (e in s.controls ==> s'.controls[e] == s.controls[e]))
              && s'.maps == s.maps && s'.byPort == s.byPort && s'.ops == s.ops && s'.router == s.router
  {
  }

  /** The end of a connection that was replaced changes nothing; that of the control itself ends it and all mappings of the
      device, and no others. */
  lemma {:induction false} UnregisterExactly(s: State, d: Device, g: nat, k: Session, past: nat, ports: seq<int>, op: OpId)
    requires !(d in s.controls && s.controls[d].stopping)
    requires Possible(Apply(s, Register(d, g, k)), Unregister(d, past, ports, op))
    ensures var s1 := Apply(s, Register(d, g, k)); var s2 := Apply(s1, Unregister(d, past, ports, op));
            if past != g then s2 == s1
            else
              && d !in s2.controls && (forall id :: id in s2.maps <==> id in s.maps && s.maps[id].device != d)
              && (forall id :: id in s2.maps ==> s2.maps[id] == s.maps[id])
              && (forall e :: e != d && e in s.controls ==> e in s2.controls && s2.controls[e] == s.controls[e])
              && (forall p :: p in ports ==> op in s2.ops && Mentions(s2.ops[op], p))
  {
  }

  /** The step neither registers another connection of the device nor ends this one. */
  predicate Leaves(t: Step, d: Device, g: nat) {
    && !(t.Register? && t.device == d)
    && !(t.Unregister? && t.device == d && t.generation == g)
  }

  lemma StepLeaves(s: State, t: Step, d: Device, g: nat)
    requires Possible(s, t) && Leaves(t, d, g) && d in s.controls && s.controls[d].generation == g
    ensures var s' := Apply(s, t);
            && d in s'.controls && s'.controls[d].generation == g && s'.controls[d].session == s.controls[d].session
            && (s'.controls[d].stopping <==> s.controls[d].stopping || (t.CloseDevice? && t.device == d && t.stop))
  {
    hide MayCreate;
    hide PortsOf;
    hide Owned;
  }

  /** Once let in, a connection stays its device's control, with its session, whatever ends of older connections come late,
      until it ends or another takes over; it is stopping exactly if the device was stopped meanwhile. */
  lemma {:induction false} ControlStays(s: State, steps: seq<Step>, d: Device, g: nat)
    requires d in s.controls && s.controls[d].generation == g && !s.controls[d].stopping
    requires forall i :: 0 <= i < |steps| ==> Leaves(steps[i], d, g)
    ensures var s' := Run(s, steps);
            && d in s'.controls && s'.controls[d].generation == g && s'.controls[d].session == s.controls[d].session
            && (s'.controls[d].stopping <==>
                  exists i :: 0 <= i < |steps| && steps[i].CloseDevice? && steps[i].device == d && steps[i].stop
                              && Possible(Run(s, steps[..i]), steps[i]))
    decreases |steps|
  {
    hide Apply;
    hide Possible;
    hide Leaves;
    if steps != [] {
      var n := |steps| - 1;
      ControlStays(s, steps[..n], d, g);
      assert forall i :: 0 <= i < n ==> steps[..n][..i] == steps[..i];
      var before := Run(s, steps[..n]);
      if Possible(before, steps[n]) {
        StepLeaves(before, steps[n], d, g);
      }
    }
  }

  /** A device that is stopped has no mappings, nothing may be opened for it in any session, and no connection of it is let in,
      until its control ends. */
  lemma {:induction false} StoppedIsOut(s: State, d: Device, ports: seq<int>, op: OpId, k: Session, g: nat)
    requires Possible(s, CloseDevice(d, ports, true, op))
    ensures var s' := Apply(s, CloseDevice(d, ports, true, op));
            && (forall id :: id in s'.maps <==> id in s.maps && s.maps[id].device != d)
            && !Authorized(s', d, k)
            && (d in s.controls ==> Apply(s', Register(d, g, k)) == s')
            && (forall p :: p in ports ==> op in s'.ops && Mentions(s'.ops[op], p))
  {
  }

  // ---- mappings ----

  /** A mapping is entered exactly for a device whose control is there, is not stopping and has the session, that has no
      mapping for the request and fewer than five. */
  lemma {:induction false} CreatesExactly(s: State, t: Step)
    requires Inv(s) && t.Create? && Possible(s, t)
    ensures var s' := Apply(s, t); var mine := set id | id in s.maps && s.maps[id].device == t.device;
            if t.device in s.controls && !s.controls[t.device].stopping && s.controls[t.device].session == t.session
               && |mine| < 5 && (forall id :: id in mine ==> s.maps[id].request != t.request) then
              && s'.maps == s.maps[t.id := Mapping(t.device, t.request, t.session, t.port, false)]
              && s'.ops == s.ops[t.op := Opening(t.id, t.device, t.session, t.port)] && s'.router == s.router
            else s' == s
  {
    assert (set id | id in s.maps && s.maps[id].device == t.device) == Owned(s.maps, t.device);
  }

  /** A mapping that was entered, whose port the router then opens, serves on that port as soon as it is committed while its
      control is still there; if the control is gone or stopping, or the mapping itself, its port is to be closed. */
  lemma {:induction false} OpensAndServes(s: State, op: OpId)
    requires Inv(s) && op in s.ops && s.ops[op].Opening?
    ensures var o := s.ops[op]; var s1 := Apply(s, OpenHook(op, true, true));
            && Possible(s1, Commit(op))
            && var s2 := Apply(s1, Commit(op));
               if o.id in s.maps && o.device in s.controls && !s.controls[o.device].stopping && s.controls[o.device].session == o.session then
                 Serving(s2, o.id) && s2.maps[o.id] == s.maps[o.id].(ready := true) && s.maps[o.id].port == o.port && op !in s2.ops
               else o.id !in s2.maps && Possible(s2, CloseHook(op)) && o.port !in Apply(s2, CloseHook(op)).router
  {
    hide Limited;
    hide NoLeak;
    hide Controlled;
  }

  /** A port that could not be opened is closed, and its mapping goes. */
  lemma {:induction false} FailsAndCloses(s: State, op: OpId, effect: bool)
    requires Inv(s) && op in s.ops && s.ops[op].Opening?
    ensures var o := s.ops[op]; var s1 := Apply(s, OpenHook(op, false, effect));
            && Possible(s1, GiveUp(op))
            && var s2 := Apply(s1, GiveUp(op));
               && o.id !in s2.maps && (o.id in s.maps ==> o.port !in s2.byPort)
               && Possible(s2, CloseHook(op))
               && var s3 := Apply(s2, CloseHook(op)); s3.router == s.router - {o.port} && op !in s3.ops
    ensures !effect ==> Apply(s, OpenHook(op, false, effect)).router == s.router
  {
    hide Limited;
    hide NoLeak;
    hide Controlled;
  }

  /** A mapping that is deleted goes, with its port and no other, which is closed. */
  lemma {:induction false} DeletesAndCloses(s: State, id: MapId, op: OpId)
    requires Inv(s) && id in s.maps && Possible(s, Delete(id, op))
    ensures var s1 := Apply(s, Delete(id, op));
            && s1.maps == s.maps - {id} && s1.byPort == s.byPort - {s.maps[id].port}
            && Possible(s1, CloseHook(op))
            && var s2 := Apply(s1, CloseHook(op));
               s2.router == s.router - {s.maps[id].port} && op !in s2.ops && s2.maps == s1.maps
  {
    hide Limited;
    hide NoLeak;
    hide Controlled;
    hide Tracked;
  }

  /** The steps by which a device's mapping comes to serve. */
  function Opens(d: Device, k: Session, request: nat, id: MapId, port: int, op: OpId): seq<Step> {
    [Create(d, k, request, id, port, op), OpenHook(op, true, true), Commit(op)]
  }

  /** From any state that a run leads to: a registered device that asks for a mapping it may have, on any free port, gets it
      served, if nothing comes between. */
  lemma {:induction false} AskedIsServed(s: State, d: Device, k: Session, request: nat, id: MapId, port: int, op: OpId)
    requires Inv(s) && Authorized(s, d, k)
    requires 9000 <= port <= 9500 && port !in s.byPort && id !in s.used && op !in s.ops
    requires (forall other :: other in s.maps && s.maps[other].device == d ==> s.maps[other].request != request) && |Owned(s.maps, d)| < 5
    ensures var s' := Run(s, Opens(d, k, request, id, port, op));
            && Serving(s', id) && s'.maps == s.maps[id := Mapping(d, request, k, port, true)] && s'.router == s.router + {port}
            && port in s'.byPort && s'.byPort[port] == id && s'.ops == s.ops
  {
    var t := Opens(d, k, request, id, port, op);
    var s1 := Apply(s, t[0]);
    Asked(s, d, k, request, id, port, op);
    hide Inv;
    hide Owned;
    hide Run;
    hide MayCreate;
    RunThree(s, t);
    assert Apply(Apply(s1, t[1]), t[2]).ops == s.ops;
  }

  lemma RunThree(s: State, t: seq<Step>)
    requires |t| == 3 && Possible(s, t[0]) && Possible(Apply(s, t[0]), t[1]) && Possible(Apply(Apply(s, t[0]), t[1]), t[2])
    ensures Run(s, t) == Apply(Apply(Apply(s, t[0]), t[1]), t[2])
  {
    hide Apply;
    hide Possible;
    var s1 := Apply(s, t[0]);
    assert t[..2][..1] == t[..1] && t[..1][..0] == [];
    assert Run(s, t[..1]) == s1;
    assert Run(s, t[..2]) == Apply(s1, t[1]);
  }

  lemma Asked(s: State, d: Device, k: Session, request: nat, id: MapId, port: int, op: OpId)
    requires Possible(s, Create(d, k, request, id, port, op)) && Authorized(s, d, k)
    requires (forall other :: other in s.maps && s.maps[other].device == d ==> s.maps[other].request != request) && |Owned(s.maps, d)| < 5
    ensures Apply(s, Create(d, k, request, id, port, op)) ==
            s.(maps := s.maps[id := Mapping(d, request, k, port, false)], byPort := s.byPort[port := id], used := s.used + {id},
               ops := s.ops[op := Opening(id, d, k, port)])
  {
    hide Owned;
  }
}
