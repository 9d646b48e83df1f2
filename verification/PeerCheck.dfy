/** What one side of the path negotiation accepts from the other, whatever that sends: the checks of
  internal/peerpath/negotiate.go. */
module PeerChecks {
  import opened Wrappers
  import opened PeerPaths

  predicate FailureReason(r: Reason) {
    r in {RtcUnavailable, UdpUnavailable, PeerUnavailable, IceTimeout, IceFailed, EndpointDependentNat}
  }

  /** A description: a well-formed one, with relay candidates only where they are allowed and nothing else; or a reason why
      there is none. */
  predicate SoundDescription(s: Signal, allowRelay: bool) {
    || (exists relay :: s == Signal(Sdp(true, relay), false, Info(NoMode, NoReason)) && (relay ==> allowRelay))
    || (exists r :: s == Signal(NoSdp, false, Info(NoMode, r)) && FailureReason(r))
  }

  /** A ready state: a path, which is named only if the sides tell each other; or a reason why there is none. */
  predicate SoundReady(s: Signal, pathV2: bool) {
    || (s.ready && s.sdp == NoSdp && s.info in if pathV2 then {Info(P2P, UdpDirect), Info(P2P, Ipv6Direct), Info(UdpRelay, TurnUdp)} else {Info(NoMode, NoReason)})
    || (exists r :: s == Signal(NoSdp, false, Info(NoMode, r)) && FailureReason(r))
  }

  lemma DescriptionSound(s: Signal, allowRelay: bool)
    ensures ValidDescription(s, allowRelay) <==> SoundDescription(s, allowRelay)
  {
    if s.sdp != NoSdp {
      assert s == Signal(Sdp(s.sdp.wellFormed, s.sdp.relay), s.ready, Info(s.info.mode, s.info.reason));
    } else {
      assert s == Signal(NoSdp, s.ready, Info(s.info.mode, s.info.reason));
    }
  }

  lemma ReadySound(s: Signal, pathV2: bool)
    ensures s.sdp == NoSdp && ValidReady(s, pathV2) <==> SoundReady(s, pathV2)
  {
    assert s == Signal(s.sdp, s.ready, Info(s.info.mode, s.info.reason));
  }

  /** One side goes through its part of the exchange with whatever comes in, until it is done, has failed or waits. */
  function Facing(p: Party, incoming: seq<Packet>): Party
    decreases if p.result.None? && p.at < 6 then 6 - p.at else 0
  {
    if p.result.Some? || p.at >= 6 then p
    else if Sends(p.role, p.at) then Facing(Next(p), incoming)
    else if incoming == [] then p
    else Facing(Take(p, incoming[0]), incoming[1..])
  }

  /** The first signal that a side receives is acceptable to it: a sound description, none in answer to none, and one that its
      own connection takes. */
  predicate TakesDescription(role: Role, c: Config, f: Fortune, s: Signal) {
    && SoundDescription(s, c.allowRelay)
    && (s.sdp != NoSdp ==>
          && (role == Viewer ==> f.attempt == None && f.described.sdp != NoSdp)
          && (f.attempt == None ==> f.remoteTaken))
  }

  /** What a side that knows both ready states decides. */
  function Common(role: Role, own: Signal, other: Signal): Info {
    if role == Viewer then Decide(own, other) else Decide(other, own)
  }

  /** The ready state of a side that has received a description. */
  function ReadyAfter(role: Role, c: Config, f: Fortune, remote: Signal): Signal {
    ReadyOf(c, f, if role == Viewer then LocalOf(Viewer, f, NO_SIGNAL) else LocalOf(Agent, f, remote), remote)
  }

  /** Up to where a side gets with these three packets: the number of signals exchanged when it stops. */
  function Reaches(role: Role, c: Config, f: Fortune, d: Packet, r: Packet, k: Packet): nat {
    if d.stage != (if role == Viewer then AnswerStage else OfferStage) || !TakesDescription(role, c, f, d.signal) then
      if role == Viewer then 1 else 0
    else if r.stage != ReadyStage then if role == Viewer then 3 else 2
    else if !SoundReady(r.signal, c.pathV2) then 4
    else if k.stage != CommitStage then if role == Viewer then 5 else 4
    else 6
  }

  /** Whatever the other side sends: a side gets exactly as far as its checks allow, sends nothing after the first that fails,
      and succeeds exactly if all pass, the other's commit is of its own decision and the path was not lost. */
  lemma {:induction false} FacingExactly(role: Role, c: Config, f: Fortune, d: Packet, r: Packet, k: Packet)
    ensures var p := Facing(Begin(role, c, f), [d, r, k]); var n := Reaches(role, c, f, d, r, k);
            && p.at == n && p.result.Some?
            && (p.result.value.Success? <==>
                  && n == 6
                  && (var info := Common(role, ReadyAfter(role, c, f, d.signal), r.signal);
                      && k.signal == Signal(NoSdp, false, info)
                      && !(info.mode != Relay && f.lost)))
            && (p.result.value.Success? ==> p.result.value.info == Common(role, ReadyAfter(role, c, f, d.signal), r.signal))
  {
    hide Facing;
    FacingDescription(role, c, f, d, [r, k]);
    assert [d, r, k] == [d] + [r, k] && [r, k] == [r] + [k] && [k] == [k] + [];
    if TakesDescription(role, c, f, d.signal) && d.stage == (if role == Viewer then AnswerStage else OfferStage) {
      FacingReady(role, c, f, d.signal, r, [k]);
      if r.stage == ReadyStage && SoundReady(r.signal, c.pathV2) {
        FacingCommit(role, c, f, d.signal, r.signal, k, []);
      }
    }
    hide TakesDescription;
    hide SoundReady;
    hide ReadyAfter;
    hide Decide;
  }

  /** A side that has come this far. */
  function At(role: Role, c: Config, f: Fortune, at: nat, remote: Signal, other: Signal): Party {
    Party(role, c, f, at, remote, other, NO_SIGNAL, None)
  }

  lemma FacingDescription(role: Role, c: Config, f: Fortune, d: Packet, rest: seq<Packet>)
    ensures var p := Facing(Begin(role, c, f), [d] + rest); var n := if role == Viewer then 1 else 0;
            if d.stage == (if role == Viewer then AnswerStage else OfferStage) && TakesDescription(role, c, f, d.signal) then
              p == Facing(At(role, c, f, n + 2, d.signal, NO_SIGNAL), rest)
            else p.at == n && p.result.Some? && p.result.value.Failed?
  {
    DescriptionSound(d.signal, c.allowRelay);
    hide ValidDescription;
    hide SoundDescription;
    hide ReadyOf;
    hide Decide;
    var n := if role == Viewer then 1 else 0;
    var p := At(role, c, f, n, NO_SIGNAL, NO_SIGNAL);
    assert Facing(Begin(role, c, f), [d] + rest) == Facing(p, [d] + rest);
    assert ([d] + rest)[1..] == rest;
    var q := Take(p, d);
    assert Facing(p, [d] + rest) == Facing(q, rest);
    if q.result.None? {
      assert q == At(role, c, f, n + 1, d.signal, NO_SIGNAL);
      assert Facing(q, rest) == Facing(Next(q), rest);
    }
  }

  lemma FacingReady(role: Role, c: Config, f: Fortune, remote: Signal, r: Packet, rest: seq<Packet>)
    ensures var n := if role == Viewer then 3 else 2; var p := Facing(At(role, c, f, n, remote, NO_SIGNAL), [r] + rest);
            if r.stage != ReadyStage then p.at == n && p.result.Some? && p.result.value.Failed?
            else if !SoundReady(r.signal, c.pathV2) then p.at == 4 && p.result.Some? && p.result.value.Failed?
            else p == Facing(At(role, c, f, if role == Viewer then 5 else 4, remote, r.signal), rest)
  {
    ReadySound(r.signal, c.pathV2);
    hide ValidReady;
    hide SoundReady;
    hide ReadyOf;
    hide Decide;
    hide LocalOf;
    var n := if role == Viewer then 3 else 2;
    var p := At(role, c, f, n, remote, NO_SIGNAL);
    assert ([r] + rest)[1..] == rest;
    var q := Take(p, r);
    assert Facing(p, [r] + rest) == Facing(q, rest);
    if q.result.None? {
      assert q == At(role, c, f, n + 1, remote, r.signal);
      assert Facing(q, rest) == Facing(Next(q), rest);
    }
  }

  lemma FacingCommit(role: Role, c: Config, f: Fortune, remote: Signal, other: Signal, k: Packet, rest: seq<Packet>)
    ensures var n := if role == Viewer then 5 else 4; var p := Facing(At(role, c, f, n, remote, other), [k] + rest);
            var info := Common(role, ReadyAfter(role, c, f, remote), other);
            && p.at == (if k.stage == CommitStage then 6 else n) && p.result.Some?
            && (p.result.value.Success? <==>
                  k.stage == CommitStage && k.signal == Signal(NoSdp, false, info) && !(info.mode != Relay && f.lost))
            && (p.result.value.Success? ==> p.result.value.info == info)
  {
    hide ReadyOf;
    hide Decide;
    var n := if role == Viewer then 5 else 4;
    var p := At(role, c, f, n, remote, other);
    assert ([k] + rest)[1..] == rest;
    var q := Take(p, k);
    assert Facing(p, [k] + rest) == Facing(q, rest);
    if role == Agent && q.result.None? {
      assert Facing(q, rest) == Facing(Next(q), rest);
    }
  }
}
