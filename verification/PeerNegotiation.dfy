/** One side of the negotiation as the source runs it, step after step: Negotiate and exchange of
  internal/peerpath/negotiate.go. */
module PeerNegotiations {
  import opened Wrappers
  import opened PeerPaths

  datatype Trace = Trace(sent: seq<Packet>, result: Result)

  /** What a party does when these messages arrive, in this order, and its writes work budget times. */
  function Drive(p: Party, incoming: seq<Packet>, budget: nat): Trace
    requires p.at < 6 || p.result.Some?
    decreases 6 - p.at, p.result.None?
  {
    if p.result.Some? then Trace([], p.result.value)
    else if Sends(p.role, p.at) then
      if budget == 0 then Trace([], Failed(IO))
      else
        var rest := Drive(Next(p), incoming, budget - 1);
        Trace([Outgoing(p)] + rest.sent, rest.result)
    else if incoming == [] then Trace([], Failed(IO))
    else Drive(Take(p, incoming[0]), incoming[1..], budget)
  }

  class Signaling {
    var incoming: seq<Packet>
    var budget: nat
    var sent: seq<Packet>

    constructor (incoming: seq<Packet>, budget: nat)
      ensures this.incoming == incoming && this.budget == budget && sent == []
    {
      this.incoming, this.budget, sent := incoming, budget, [];
    }

    /** The whole trace, given that p is where the party stands now. */
    ghost function Ahead(p: Party): Trace
      requires p.at < 6 || p.result.Some?
      reads this
    {
      var rest := Drive(p, incoming, budget);
      Trace(sent + rest.sent, rest.result)
    }

    method Send(stage: Stage, signal: Signal, ghost p: Party) returns (ok: bool)
      requires p.result.None? && p.at < 6 && Sends(p.role, p.at) && Outgoing(p) == Packet(stage, signal)
      modifies this
      ensures ok ==> Ahead(Next(p)) == old(Ahead(p))
      ensures !ok ==> Trace(sent, Failed(IO)) == old(Ahead(p))
    {
      if budget == 0 {
        assert sent + [] == sent;
        return false;
      }
      ghost var rest := Drive(Next(p), incoming, budget - 1);
      assert (sent + [Packet(stage, signal)]) + rest.sent == sent + ([Packet(stage, signal)] + rest.sent);
      sent, budget := sent + [Packet(stage, signal)], budget - 1;
      ok := true;
    }

    method Receive(stage: Stage, ghost p: Party) returns (m: Option<Signal>, why: Failure)
      requires p.result.None? && p.at < 6 && !Sends(p.role, p.at) && StageAt(p.at) == stage
      modifies this
      ensures m.Some? ==> Ahead(Take(p, Packet(stage, m.value))) == old(Ahead(p))
      ensures m.None? ==> Trace(sent, Failed(why)) == old(Ahead(p))
    {
      if incoming == [] {
        assert sent + [] == sent;
        return None, IO;
      }
      var packet := incoming[0];
      incoming := incoming[1..];
      if packet.stage != stage {
        assert Drive(Take(p, packet), incoming, budget) == Trace([], Failed(UnexpectedMessage));
        assert sent + [] == sent;
        return None, UnexpectedMessage;
      }
      m, why := Some(packet.signal), IO;
    }

    /** The viewer sends first and then receives; the agent receives first.  What was received is not looked at here. */
    method Exchange(role: Role, stage: Stage, local: Signal, ghost p: Party) returns (m: Option<Signal>, why: Failure)
      requires p.role == role && p.result.None? && (p.at == 2 || p.at == 4) && StageAt(p.at) == stage
      requires Outgoing(if role.Viewer? then p else p.(at := p.at + 1)) == Packet(stage, local)
      requires role.Agent? ==> forall s: Signal :: Outgoing(Take(p, Packet(stage, s))) == Packet(stage, local)
      modifies this
      ensures m.None? ==> Trace(sent, Failed(why)) == old(Ahead(p))
      ensures m.Some? ==> Ahead(Both(p, stage, m.value)) == old(Ahead(p))
    {
      if role.Viewer? {
        var ok := Send(stage, local, p);
        if !ok {
          return None, IO;
        }
        m, why := Receive(stage, Next(p));
      } else {
        m, why := Receive(stage, p);
        if m.Some? {
          var ok := Send(stage, local, Take(p, Packet(stage, m.value)));
          if !ok {
            return None, IO;
          }
        }
      }
    }
  }

  /** The party after one whole exchange. */
  ghost function Both(p: Party, stage: Stage, other: Signal): Party {
    if p.role.Viewer? then Take(Next(p), Packet(stage, other)) else Next(Take(p, Packet(stage, other)))
  }

  /** One side of the negotiation. */
  method Negotiate(s: Signaling, role: Role, config: Config, fortune: Fortune) returns (result: Result)
    modifies s
    ensures Trace(s.sent, result) == old(s.Ahead(Begin(role, config, fortune)))
  {
    ghost var p := Begin(role, config, fortune);
    var remote := NO_SIGNAL;
    var m, why;
    if role.Agent? {
      m, why := s.Receive(OfferStage, p);
      if m.None? {
        return Failed(why);
      }
      remote := m.value;
      ghost var p1 := Take(p, Packet(OfferStage, remote));
      if !ValidDescription(remote, config.allowRelay) {
        assert s.sent + [] == s.sent;
        return Failed(BadDescription);
      }
      if remote.sdp != NoSdp && fortune.attempt.None? && !fortune.remoteTaken {
        assert s.sent + [] == s.sent;
        return Failed(RemoteRejected);
      }
      p := p1;
    }
    var local: Signal;
    if role.Agent? && remote.sdp.NoSdp? {
      local := Unavailable(PeerUnavailable);
    } else if fortune.attempt.Some? {
      local := Unavailable(fortune.attempt.value);
    } else {
      local := fortune.described;
    }
    var ok := s.Send(if role.Viewer? then OfferStage else AnswerStage, local, p);
    if !ok {
      return Failed(IO);
    }
    p := Next(p);
    if role.Viewer? {
      m, why := s.Receive(AnswerStage, p);
      if m.None? {
        return Failed(why);
      }
      remote := m.value;
      if !ValidDescription(remote, config.allowRelay) {
        assert s.sent + [] == s.sent;
        return Failed(BadDescription);
      }
      if remote.sdp != NoSdp {
        if local.sdp == NoSdp {
          assert s.sent + [] == s.sent;
          return Failed(AnswerWithoutOffer);
        }
        if fortune.attempt.None? && !fortune.remoteTaken {
          assert s.sent + [] == s.sent;
          return Failed(RemoteRejected);
        }
      }
      p := Take(p, Packet(AnswerStage, remote));
    }
    result := Conclude(s, role, config, fortune, local, remote, p);
  }

  method ReadyState(config: Config, fortune: Fortune, local: Signal, remote: Signal) returns (own: Signal)
    ensures own == ReadyOf(config, fortune, local, remote)
  {
    var reason := local.info.reason;
    var stream, selected := false, Info(NoMode, reason);
    if reason == NoReason {
      if remote.sdp == NoSdp {
        reason := PeerUnavailable;
      } else if fortune.found.Some? {
        stream, selected := true, fortune.found.value;
      } else {
        reason := fortune.missed;
      }
    }
    if !stream {
      selected := Info(NoMode, reason);
    }
    own := Signal(NoSdp, stream, selected);
    if own.ready && !config.pathV2 {
      own := own.(info := NO_INFO);
    }
  }

  method DecidePath(viewer: Signal, agent: Signal) returns (info: Info)
    ensures info == Decide(viewer, agent)
  {
    info := Info(P2P, UdpDirect);
    if !viewer.ready || !agent.ready {
      info := Info(Relay, viewer.info.reason);
      if info.reason == NoReason || info.reason == PeerUnavailable {
        info := info.(reason := agent.info.reason);
      }
      if info.reason == NoReason {
        info := info.(reason := PeerUnavailable);
      }
    } else if viewer.info.mode == UdpRelay || agent.info.mode == UdpRelay {
      info := Info(UdpRelay, TurnUdp);
    } else if viewer.info.reason == Ipv6Direct && agent.info.reason == Ipv6Direct {
      info := info.(reason := Ipv6Direct);
    }
  }

  /** The ready and commit exchanges. */
  method Conclude(s: Signaling, role: Role, config: Config, fortune: Fortune, local: Signal, remote: Signal, ghost p: Party)
    returns (result: Result)
    requires p.role == role && p.config == config && p.fortune == fortune && p.at == 2 && p.result.None?
    requires p.remote == remote && Local(p) == local
    modifies s
    ensures Trace(s.sent, result) == old(s.Ahead(p))
  {
    var ownReady := ReadyState(config, fortune, local, remote);
    assert ownReady == Own(p);
    hide ReadyOf;
    hide Decide;
    hide LocalOf;
    var otherReady, why := s.Exchange(role, ReadyStage, ownReady, p);
    if otherReady.None? {
      return Failed(why);
    }
    ghost var p4 := Both(p, ReadyStage, otherReady.value);
    if otherReady.value.sdp != NoSdp || !ValidReady(otherReady.value, config.pathV2) {
      assert s.sent + [] == s.sent;
      return Failed(BadReady);
    }
    var viewer, agent := ownReady, otherReady.value;
    if role.Agent? {
      viewer, agent := otherReady.value, ownReady;
    }
    var info := DecidePath(viewer, agent);
    assert info == Decision(p4);
    var commit;
    commit, why := s.Exchange(role, CommitStage, Signal(NoSdp, false, info), p4);
    if commit.None? {
      return Failed(why);
    }
    ghost var p6 := Both(p4, CommitStage, commit.value);
    assert Drive(p6, s.incoming, s.budget) == Trace([], p6.result.value);
    assert s.sent + [] == s.sent;
    if commit.value != Signal(NoSdp, false, info) {
      return Failed(InconsistentCommit);
    }
    if info.mode == Relay {
      return Success(info);
    }
    if fortune.lost {
      return Failed(DirectLost);
    }
    result := Success(info);
  }
}
