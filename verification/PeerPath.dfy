/** Path negotiation between viewer and agent: internal/peerpath/negotiate.go.  Each side is a small state machine; the
  two are joined by a lossless ordered stream that may break at any point. */
module PeerPaths {
  import opened Wrappers

  datatype Role = Viewer | Agent

  datatype Mode = NoMode | P2P | Relay | UdpRelay

  datatype Reason =
    | NoReason | RtcUnavailable | UdpUnavailable | PeerUnavailable | IceTimeout | IceFailed | EndpointDependentNat
    | UdpDirect | Ipv6Direct | TurnUdp

  datatype Info = Info(mode: Mode, reason: Reason)

  const NO_INFO := Info(NoMode, NoReason)

  /** A session description: none, or one that is well formed or not and offers relay candidates or not. */
  datatype Sdp = NoSdp | Sdp(wellFormed: bool, relay: bool)

  datatype Signal = Signal(sdp: Sdp, ready: bool, info: Info)

  datatype Stage = OfferStage | AnswerStage | ReadyStage | CommitStage

  datatype Packet = Packet(stage: Stage, signal: Signal)

  /** How the local peer connection fares: whether it could be set up, what description it yields, whether it takes the
      remote one, which path it finds, and whether that is lost again before the end. */
  datatype Fortune = Fortune(attempt: Option<Reason>, described: Signal, remoteTaken: bool, found: Option<Info>, missed: Reason, lost: bool)

  datatype Config = Config(pathV2: bool, allowRelay: bool)

  predicate ValidReason(r: Reason) {
    r.RtcUnavailable? || r.UdpUnavailable? || r.PeerUnavailable? || r.IceTimeout? || r.IceFailed? || r.EndpointDependentNat?
  }

  predicate ValidDescription(s: Signal, allowRelay: bool) {
    && !s.ready && s.info.mode == NoMode
    && (if s.sdp.NoSdp? then ValidReason(s.info.reason)
        else s.info.reason == NoReason && s.sdp.wellFormed && (s.sdp.relay ==> allowRelay))
  }

  predicate ValidReady(s: Signal, pathV2: bool) {
    if !pathV2 then
      s.info.mode == NoMode && (if s.ready then s.info.reason == NoReason else ValidReason(s.info.reason))
    else if s.ready then
      s.info in {Info(P2P, UdpDirect), Info(P2P, Ipv6Direct), Info(UdpRelay, TurnUdp)}
    else s.info.mode == NoMode && ValidReason(s.info.reason)
  }

  /** What a local peer connection can come up with under the configuration: description and ready in rtc.go. */
  ghost predicate Plausible(f: Fortune, c: Config) {
    && (f.attempt.Some? ==> ValidReason(f.attempt.value))
    && ValidDescription(f.described, c.allowRelay)
    && (f.found.Some? ==> f.found.value in {Info(P2P, UdpDirect), Info(P2P, Ipv6Direct), Info(UdpRelay, TurnUdp)})
    && (f.missed.IceFailed? || f.missed.IceTimeout?)
  }

  function Unavailable(r: Reason): Signal {
    Signal(NoSdp, false, Info(NoMode, r))
  }

  /** The description to send; the agent has seen the viewer's. */
  function LocalOf(role: Role, f: Fortune, remote: Signal): Signal {
    if role.Agent? && remote.sdp.NoSdp? then Unavailable(PeerUnavailable)
    else if f.attempt.Some? then Unavailable(f.attempt.value)
    else f.described
  }

  /** The ready signal once both descriptions are known. */
  function ReadyOf(c: Config, f: Fortune, local: Signal, remote: Signal): Signal {
    if local.info.reason != NoReason then Signal(NoSdp, false, Info(NoMode, local.info.reason))
    else if remote.sdp.NoSdp? then Signal(NoSdp, false, Info(NoMode, PeerUnavailable))
    else
      match f.found
      case None => Signal(NoSdp, false, Info(NoMode, f.missed))
      case Some(info) => Signal(NoSdp, true, if c.pathV2 then info else NO_INFO)
  }

  function Decide(viewer: Signal, agent: Signal): Info {
    if !viewer.ready || !agent.ready then
      var first := if viewer.info.reason == NoReason || viewer.info.reason == PeerUnavailable then agent.info.reason else viewer.info.reason;
      Info(Relay, if first == NoReason then PeerUnavailable else first)
    else if viewer.info.mode == UdpRelay || agent.info.mode == UdpRelay then Info(UdpRelay, TurnUdp)
    else if viewer.info.reason == Ipv6Direct && agent.info.reason == Ipv6Direct then Info(P2P, Ipv6Direct)
    else Info(P2P, UdpDirect)
  }

  datatype Failure = IO | UnexpectedMessage | BadDescription | AnswerWithoutOffer | RemoteRejected | BadReady | InconsistentCommit | DirectLost

  datatype Result = Success(info: Info) | Failed(why: Failure)

  /** at counts the signals exchanged so far: the viewer sends numbers 0, 2 and 4, the agent 1, 3 and 5. */
  datatype Party = Party(role: Role, config: Config, fortune: Fortune, at: nat, remote: Signal, other: Signal, commit: Signal,
                         result: Option<Result>)

  const NO_SIGNAL := Signal(NoSdp, false, NO_INFO)

  function Begin(role: Role, config: Config, fortune: Fortune): Party {
    Party(role, config, fortune, 0, NO_SIGNAL, NO_SIGNAL, NO_SIGNAL, None)
  }

  /** The order of the exchanges: first the descriptions, offer before answer; then the ready signals and the commits,
      for each of which the viewer sends first. */
  predicate Sends(role: Role, at: nat) {
    if role.Viewer? then at == 0 || at == 2 || at == 4 else at == 1 || at == 3 || at == 5
  }

  function StageAt(at: nat): Stage {
    if at == 0 then OfferStage else if at == 1 then AnswerStage else if at <= 3 then ReadyStage else CommitStage
  }

  function Local(p: Party): Signal {
    LocalOf(p.role, p.fortune, p.remote)
  }

  function Own(p: Party): Signal {
    ReadyOf(p.config, p.fortune, Local(p), p.remote)
  }

  function Decision(p: Party): Info {
    if p.role.Viewer? then Decide(Own(p), p.other) else Decide(p.other, Own(p))
  }

  /** The next signal to send. */
  function Outgoing(p: Party): Packet {
    Packet(StageAt(p.at),
           if p.at <= 1 then Local(p) else if p.at <= 3 then Own(p) else Signal(NoSdp, false, Decision(p)))
  }

  function Fail(p: Party, why: Failure): Party {
    p.(result := Some(Failed(why)))
  }

  /** One more signal was exchanged.  The other side's ready signal and commit are looked at when the exchange is over,
      which for the agent is after its own was sent; after the last one the path is taken. */
  function Next(p: Party): Party {
    var q := p.(at := p.at + 1);
    if q.at == 4 && (q.other.sdp != NoSdp || !ValidReady(q.other, q.config.pathV2)) then Fail(q, BadReady)
    else if q.at < 6 then q
    else if q.commit != Signal(NoSdp, false, Decision(q)) then Fail(q, InconsistentCommit)
    else q.(result := Some(if Decision(q).mode != Relay && q.fortune.lost then Failed(DirectLost) else Success(Decision(q))))
  }

  function TakeDescription(p: Party, s: Signal): Party {
    if !ValidDescription(s, p.config.allowRelay) then Fail(p, BadDescription)
    else if s.sdp.NoSdp? then Next(p.(remote := s))
    else if p.role.Viewer? && Local(p).sdp.NoSdp? then Fail(p, AnswerWithoutOffer)
    else if p.fortune.attempt.None? && !p.fortune.remoteTaken then Fail(p, RemoteRejected)
    else Next(p.(remote := s))
  }

  /** A message arrives while the party awaits the stage of its position. */
  function Take(p: Party, m: Packet): Party {
    if m.stage != StageAt(p.at) then Fail(p, UnexpectedMessage)
    else if p.at <= 1 then TakeDescription(p, m.signal)
    else if p.at <= 3 then Next(p.(other := m.signal))
    else Next(p.(commit := m.signal))
  }

  // ---- the two parties and the stream between them ----

  datatype Pair = Pair(viewer: Party, agent: Party, toAgent: seq<Packet>, toViewer: seq<Packet>)

  function Start(config: Config, viewer: Fortune, agent: Fortune): Pair {
    Pair(Begin(Viewer, config, viewer), Begin(Agent, config, agent), [], [])
  }

  /** A party sends or receives; or it gives up on an error, of which a send may have taken effect all the same. */
  datatype Step = Send(role: Role) | Receive(role: Role) | BreakSend(role: Role, arrived: bool) | Break(role: Role)

  function PartyOf(s: Pair, role: Role): Party {
    if role.Viewer? then s.viewer else s.agent
  }

  function Queue(s: Pair, to: Role): seq<Packet> {
    if to.Viewer? then s.toViewer else s.toAgent
  }

  function Peer(role: Role): Role {
    if role.Viewer? then Agent else Viewer
  }

  function WithParty(s: Pair, p: Party): Pair {
    if p.role.Viewer? then s.(viewer := p) else s.(agent := p)
  }

  function WithQueue(s: Pair, to: Role, q: seq<Packet>): Pair {
    if to.Viewer? then s.(toViewer := q) else s.(toAgent := q)
  }

  predicate Possible(s: Pair, t: Step) {
    var p := PartyOf(s, t.role);
    && p.result.None? && p.at < 6
    && match t
       case Send(role) => Sends(role, p.at)
       case BreakSend(role, _) => Sends(role, p.at)
       case Receive(role) => !Sends(role, p.at) && Queue(s, role) != []
       case Break(_) => true
  }

  function Apply(s: Pair, t: Step): Pair {
    var p := PartyOf(s, t.role);
    match t
    case Send(role) => WithQueue(WithParty(s, Next(p)), Peer(role), Queue(s, Peer(role)) + [Outgoing(p)])
    case BreakSend(role, arrived) =>
      WithQueue(WithParty(s, Fail(p, IO)), Peer(role), Queue(s, Peer(role)) + (if arrived then [Outgoing(p)] else []))
    case Receive(role) =>
      if Queue(s, role) == [] then s
      else WithQueue(WithParty(s, Take(p, Queue(s, role)[0])), role, Queue(s, role)[1..])
    case Break(role) => WithParty(s, Fail(p, IO))
  }

  /** What cannot happen is skipped. */
  function Run(s: Pair, steps: seq<Step>): Pair
    decreases |steps|
  {
    if steps == [] then s
    else
      var before := Run(s, steps[..|steps| - 1]);
      if Possible(before, steps[|steps| - 1]) then Apply(before, steps[|steps| - 1]) else before
  }

  // ---- what the exchange amounts to ----

  function Offer(fv: Fortune): Signal {
    LocalOf(Viewer, fv, NO_SIGNAL)
  }

  function AnswerTo(fv: Fortune, fa: Fortune): Signal {
    LocalOf(Agent, fa, Offer(fv))
  }

  function ViewerReady(c: Config, fv: Fortune, fa: Fortune): Signal {
    ReadyOf(c, fv, Offer(fv), AnswerTo(fv, fa))
  }

  function AgentReady(c: Config, fv: Fortune, fa: Fortune): Signal {
    ReadyOf(c, fa, AnswerTo(fv, fa), Offer(fv))
  }

  function Agreed(c: Config, fv: Fortune, fa: Fortune): Info {
    Decide(ViewerReady(c, fv, fa), AgentReady(c, fv, fa))
  }

  function Commit(c: Config, fv: Fortune, fa: Fortune): Signal {
    Signal(NoSdp, false, Agreed(c, fv, fa))
  }

  /** The n-th signal of the exchange, whoever sends it. */
  function Expected(c: Config, fv: Fortune, fa: Fortune, n: nat): Packet {
    Packet(StageAt(n),
           if n == 0 then Offer(fv) else if n == 1 then AnswerTo(fv, fa)
           else if n == 2 then ViewerReady(c, fv, fa) else if n == 3 then AgentReady(c, fv, fa)
           else Commit(c, fv, fa))
  }

  /** The party has taken exactly the expected signals up to its position. */
  ghost predicate InStep(p: Party, role: Role, c: Config, fv: Fortune, fa: Fortune) {
    && p.role == role && p.config == c && p.fortune == (if role.Viewer? then fv else fa) && p.at <= 6
    && (if role.Viewer? then
          (p.at >= 2 ==> p.remote == AnswerTo(fv, fa)) && (p.at >= 4 ==> p.other == AgentReady(c, fv, fa))
        else
          && (p.at >= 1 ==> p.remote == Offer(fv)) && (p.at >= 3 ==> p.other == ViewerReady(c, fv, fa))
          && (p.at >= 5 ==> p.commit == Commit(c, fv, fa)))
    && (if p.at == 6 then
          p.result == Some(if Agreed(c, fv, fa).mode != Relay && p.fortune.lost then Failed(DirectLost) else Success(Agreed(c, fv, fa)))
        else p.result.None? || p.result == Some(Failed(IO)) || p.result == Some(Failed(RemoteRejected)))
  }

  /** It has not broken off. */
  predicate Going(p: Party) {
    p.result.None? || p.at == 6
  }

  /** Nothing is under way to the party, or just the signal it awaits. */
  ghost predicate Waiting(p: Party, q: seq<Packet>, c: Config, fv: Fortune, fa: Fortune) {
    q == [] || (q == [Expected(c, fv, fa, p.at)] && p.at < 6 && !Sends(p.role, p.at))
  }

  /** While neither has broken off, one signal at most is under way. */
  ghost predicate Joint(s: Pair) {
    || (s.viewer.at == s.agent.at && s.toAgent == [] && s.toViewer == [])
    || (s.viewer.at == s.agent.at + 1 && !Sends(Agent, s.agent.at) && |s.toAgent| == 1 && s.toViewer == [])
    || (s.agent.at == s.viewer.at + 1 && !Sends(Viewer, s.viewer.at) && |s.toViewer| == 1 && s.toAgent == [])
  }

  ghost predicate Inv(s: Pair, c: Config, fv: Fortune, fa: Fortune) {
    && InStep(s.viewer, Viewer, c, fv, fa) && InStep(s.agent, Agent, c, fv, fa)
    && (Going(s.agent) ==> Waiting(s.agent, s.toAgent, c, fv, fa))
    && (Going(s.viewer) ==> Waiting(s.viewer, s.toViewer, c, fv, fa))
    && (Going(s.viewer) && Going(s.agent) ==> Joint(s))
  }

  /** The signals of plausible parties pass the checks of the other side. */
  lemma ExpectedPass(c: Config, fv: Fortune, fa: Fortune)
    requires Plausible(fv, c) && Plausible(fa, c)
    ensures ValidDescription(Offer(fv), c.allowRelay) && ValidDescription(AnswerTo(fv, fa), c.allowRelay)
    ensures AnswerTo(fv, fa).sdp != NoSdp ==> Offer(fv).sdp != NoSdp
    ensures ValidReady(ViewerReady(c, fv, fa), c.pathV2) && ValidReady(AgentReady(c, fv, fa), c.pathV2)
    ensures ViewerReady(c, fv, fa).sdp == NoSdp && AgentReady(c, fv, fa).sdp == NoSdp
  {
  }

  /** What a party in step sends is what is expected of it. */
  lemma OutgoingExpected(p: Party, role: Role, c: Config, fv: Fortune, fa: Fortune)
    requires InStep(p, role, c, fv, fa) && p.at < 6 && p.result.None?
    ensures Sends(role, p.at) ==> Outgoing(p) == Expected(c, fv, fa, p.at)
    ensures p.at >= 4 ==> Decision(p) == Agreed(c, fv, fa)
    ensures role.Viewer? ==> Local(p) == Offer(fv)
    ensures p.at == 5 && role.Viewer? ==> Own(p) == ViewerReady(c, fv, fa)
  {
    hide ReadyOf;
    hide Decide;
  }

  /** A party in step that takes the expected signal stays in step, or its connection rejects the description. */
  lemma TakeExpected(p: Party, role: Role, c: Config, fv: Fortune, fa: Fortune)
    requires Plausible(fv, c) && Plausible(fa, c)
    requires InStep(p, role, c, fv, fa) && p.at < 6 && p.result.None? && !Sends(role, p.at)
    ensures InStep(Take(p, Expected(c, fv, fa, p.at)), role, c, fv, fa)
    ensures var p' := Take(p, Expected(c, fv, fa, p.at)); if Going(p') then p'.at == p.at + 1 else p'.at == p.at
  {
    ExpectedPass(c, fv, fa);
    OutgoingExpected(p, role, c, fv, fa);
    hide Decide;
    hide ValidReady;
    hide ValidDescription;
    hide Plausible;
    var signal := Expected(c, fv, fa, p.at).signal;
    if p.at <= 1 {
      NextInStep(p.(remote := signal), role, c, fv, fa);
    } else if p.at <= 3 {
      NextInStep(p.(other := signal), role, c, fv, fa);
    } else {
      NextInStep(p.(commit := signal), role, c, fv, fa);
    }
    hide ReadyOf;
    hide LocalOf;
  }

  /** Moving on keeps a party in step if it has what it must have at the next position. */
  lemma NextInStep(p: Party, role: Role, c: Config, fv: Fortune, fa: Fortune)
    requires Plausible(fv, c) && Plausible(fa, c)
    requires InStep(p, role, c, fv, fa) && p.at < 6 && p.result.None?
    requires role.Viewer? ==> (p.at == 1 ==> p.remote == AnswerTo(fv, fa)) && (p.at == 3 ==> p.other == AgentReady(c, fv, fa))
                              && (p.at == 5 ==> p.commit == Commit(c, fv, fa))
    requires role.Agent? ==> (p.at == 0 ==> p.remote == Offer(fv)) && (p.at == 2 ==> p.other == ViewerReady(c, fv, fa))
                             && (p.at == 4 ==> p.commit == Commit(c, fv, fa))
    ensures InStep(Next(p), role, c, fv, fa) && Going(Next(p)) && Next(p).at == p.at + 1
  {
    ExpectedPass(c, fv, fa);
    OutgoingExpected(p, role, c, fv, fa);
    hide ReadyOf;
    hide Decide;
    hide LocalOf;
    hide ValidReady;
  }

  lemma SendKeepsInv(s: Pair, role: Role, c: Config, fv: Fortune, fa: Fortune)
    requires Plausible(fv, c) && Plausible(fa, c) && Inv(s, c, fv, fa) && Possible(s, Send(role))
    ensures Inv(Apply(s, Send(role)), c, fv, fa)
  {
    var p := PartyOf(s, role);
    OutgoingExpected(p, role, c, fv, fa);
    NextInStep(p, role, c, fv, fa);
    hide InStep;
    hide Outgoing;
    hide Expected;
    hide Next;
  }

  lemma ReceiveKeepsInv(s: Pair, role: Role, c: Config, fv: Fortune, fa: Fortune)
    requires Plausible(fv, c) && Plausible(fa, c) && Inv(s, c, fv, fa) && Possible(s, Receive(role))
    ensures Queue(s, role) == [Expected(c, fv, fa, PartyOf(s, role).at)]
    ensures Inv(Apply(s, Receive(role)), c, fv, fa)
  {
    TakeExpected(PartyOf(s, role), role, c, fv, fa);
    hide InStep;
    hide Expected;
    hide Take;
  }

  lemma BreakKeepsInv(s: Pair, role: Role, arrived: bool, c: Config, fv: Fortune, fa: Fortune)
    requires Inv(s, c, fv, fa)
    ensures Possible(s, Break(role)) ==> Inv(Apply(s, Break(role)), c, fv, fa)
    ensures Possible(s, BreakSend(role, arrived)) ==> Inv(Apply(s, BreakSend(role, arrived)), c, fv, fa)
  {
    var p := PartyOf(s, role);
    if p.result.None? && p.at < 6 {
      OutgoingExpected(p, role, c, fv, fa);
    }
    hide Outgoing;
    hide Expected;
  }

  lemma {:induction false} RunKeepsInv(c: Config, fv: Fortune, fa: Fortune, steps: seq<Step>)
    requires Plausible(fv, c) && Plausible(fa, c)
    ensures Inv(Run(Start(c, fv, fa), steps), c, fv, fa)
    decreases |steps|
  {
    hide Inv;
    hide Apply;
    hide Possible;
    hide Plausible;
    if steps == [] {
      StartInv(c, fv, fa);
    } else {
      RunKeepsInv(c, fv, fa, steps[..|steps| - 1]);
      var before, t := Run(Start(c, fv, fa), steps[..|steps| - 1]), steps[|steps| - 1];
      if Possible(before, t) {
        match t
        case Send(role) => SendKeepsInv(before, role, c, fv, fa);
        case Receive(role) => ReceiveKeepsInv(before, role, c, fv, fa);
        case BreakSend(role, arrived) => BreakKeepsInv(before, role, arrived, c, fv, fa);
        case Break(role) => BreakKeepsInv(before, role, false, c, fv, fa);
      }
    }
  }

  lemma StartInv(c: Config, fv: Fortune, fa: Fortune)
    ensures Inv(Start(c, fv, fa), c, fv, fa)
  {
  }

  /** Two conforming sides with the same settings: what a side receives is always the stage it awaits; no message is
      ever unexpected, no description or ready state invalid and no commit inconsistent. */
  lemma {:induction false} AlwaysAwaited(c: Config, fv: Fortune, fa: Fortune, steps: seq<Step>, role: Role)
    requires Plausible(fv, c) && Plausible(fa, c)
    ensures var s := Run(Start(c, fv, fa), steps); var p := PartyOf(s, role);
            && (Possible(s, Receive(role)) ==> Queue(s, role)[0].stage == StageAt(p.at))
            && (p.result.Some? && p.result.value.Failed? ==> p.result.value.why in {IO, RemoteRejected, DirectLost})
  {
    RunKeepsInv(c, fv, fa, steps);
    var s := Run(Start(c, fv, fa), steps);
    hide Run;
    if Possible(s, Receive(role)) {
      ReceiveKeepsInv(s, role, c, fv, fa);
    }
  }

  /** However messages are lost, a side that succeeds has the agreed path, so never does one go on over the relay
      while the other goes on over a direct path. */
  lemma {:induction false} SamePath(c: Config, fv: Fortune, fa: Fortune, steps: seq<Step>, role: Role)
    requires Plausible(fv, c) && Plausible(fa, c)
    ensures var s := Run(Start(c, fv, fa), steps); var p, q := PartyOf(s, role), PartyOf(s, Peer(role));
            && (p.result.Some? && p.result.value.Success? ==> p.result.value.info == Agreed(c, fv, fa))
            && (p.at == 6 && q.at == 6 ==> Decision(p) == Decision(q))
            && (p.result.Some? && q.result.Some? && p.result.value.Success? && q.result.value.Success? ==> p.result.value == q.result.value)
  {
    RunKeepsInv(c, fv, fa, steps);
    hide Run;
    var s := Run(Start(c, fv, fa), steps);
    if s.viewer.at == 6 && s.agent.at == 6 {
      DecisionAgreed(s.viewer, Viewer, c, fv, fa);
      DecisionAgreed(s.agent, Agent, c, fv, fa);
    }
  }

  lemma DecisionAgreed(p: Party, role: Role, c: Config, fv: Fortune, fa: Fortune)
    requires InStep(p, role, c, fv, fa) && p.at == 6
    ensures Decision(p) == Agreed(c, fv, fa)
  {
  }

  /** A path other than the relay is agreed on exactly when both sides have described themselves and found one; it is IPv6
      exactly if both see that, and the UDP relay exactly if one of them does, when the sides tell each other their paths.  The
      relay's reason is that of the first to fail, the viewer before the agent, or the name of the path that only the viewer
      has found. */
  lemma {:induction false} AgreedMeans(c: Config, fv: Fortune, fa: Fortune)
    requires Plausible(fv, c) && Plausible(fa, c)
    ensures Agreed(c, fv, fa).mode != Relay <==>
            fv.attempt.None? && fa.attempt.None? && fv.described.sdp != NoSdp && fa.described.sdp != NoSdp && fv.found.Some? && fa.found.Some?
    ensures Agreed(c, fv, fa) == Info(P2P, Ipv6Direct) <==>
            && Undescribed(fv) == Undescribed(fa) == None && c.pathV2
            && fv.found == fa.found == Some(Info(P2P, Ipv6Direct))
    ensures Agreed(c, fv, fa) == Info(UdpRelay, TurnUdp) <==>
            && Undescribed(fv) == Undescribed(fa) == None && c.pathV2 && fv.found.Some? && fa.found.Some?
            && (fv.found == Some(Info(UdpRelay, TurnUdp)) || fa.found == Some(Info(UdpRelay, TurnUdp)))
    ensures var i := Agreed(c, fv, fa);
            i.mode == Relay || i == Info(UdpRelay, TurnUdp) || i == Info(P2P, Ipv6Direct) || i == Info(P2P, UdpDirect)
    ensures Agreed(c, fv, fa).mode == Relay ==>
              Agreed(c, fv, fa).reason ==
              if Undescribed(fv).Some? then Undescribed(fv).value
              else if Undescribed(fa).Some? then Undescribed(fa).value
              else if fv.found == None then fv.missed
              else if c.pathV2 then fv.found.value.reason
              else fa.missed
  {
  }

  /** Why a side has no description to send, if it has none. */
  function Undescribed(f: Fortune): Option<Reason> {
    if f.attempt.Some? then f.attempt else if f.described.sdp == NoSdp then Some(f.described.info.reason) else None
  }

  /** Why the relay is used is told properly, except when the sides tell each other their paths, both have described
      themselves and the viewer has found a path: then that path's name stands as the reason. */
  lemma {:induction false} RelayReason(c: Config, fv: Fortune, fa: Fortune)
    requires Plausible(fv, c) && Plausible(fa, c) && Agreed(c, fv, fa).mode == Relay
    ensures ValidReason(Agreed(c, fv, fa).reason) <==>
            !(c.pathV2 && fv.attempt.None? && fa.attempt.None? && fv.described.sdp != NoSdp && fa.described.sdp != NoSdp && fv.found.Some?)
  {
  }

  /** The viewer has found a direct path and the agent has not: the relay is agreed on for the reason "direct". */
  lemma RelayNamedDirect()
    ensures var c, description := Config(true, false), Signal(Sdp(true, false), false, NO_INFO);
            var fv := Fortune(None, description, true, Some(Info(P2P, UdpDirect)), IceFailed, false);
            var fa := Fortune(None, description, true, None, IceFailed, false);
            Plausible(fv, c) && Plausible(fa, c) && Agreed(c, fv, fa) == Info(Relay, UdpDirect)
  {
  }

  // ---- when nothing breaks ----

  const EXCHANGE: seq<Step> :=
    [Send(Viewer), Receive(Agent), Send(Agent), Receive(Viewer), Send(Viewer), Receive(Agent),
     Send(Agent), Receive(Viewer), Send(Viewer), Receive(Agent), Send(Agent), Receive(Viewer)]

  /** The local connection takes the peer's description and does not lose the path it found. */
  predicate Lucky(f: Fortune) {
    f.remoteTaken && !f.lost
  }

  lemma TakeLucky(p: Party, role: Role, c: Config, fv: Fortune, fa: Fortune)
    requires Plausible(fv, c) && Plausible(fa, c) && Lucky(p.fortune)
    requires InStep(p, role, c, fv, fa) && p.at < 6 && p.result.None? && !Sends(role, p.at)
    ensures Going(Take(p, Expected(c, fv, fa, p.at)))
  {
    TakeExpected(p, role, c, fv, fa);
    ExpectedPass(c, fv, fa);
    OutgoingExpected(p, role, c, fv, fa);
    hide ReadyOf;
    hide Decide;
  }

  ghost predicate Even(s: Pair, k: nat, c: Config, fv: Fortune, fa: Fortune) {
    && Inv(s, c, fv, fa) && s.viewer.at == s.agent.at == k && s.toAgent == [] && s.toViewer == []
    && Going(s.viewer) && Going(s.agent)
  }

  lemma RunTwo(s: Pair, steps: seq<Step>, k: nat)
    requires 2 * k + 2 <= |steps|
    requires var before := Run(s, steps[..2 * k]);
             Possible(before, steps[2 * k]) && Possible(Apply(before, steps[2 * k]), steps[2 * k + 1])
    ensures Run(s, steps[..2 * k + 2]) == Apply(Apply(Run(s, steps[..2 * k]), steps[2 * k]), steps[2 * k + 1])
  {
    hide Apply;
    hide Possible;
    assert steps[..2 * k + 2][..2 * k + 1] == steps[..2 * k + 1];
    assert steps[..2 * k + 1][..2 * k] == steps[..2 * k];
  }

  lemma Round(s: Pair, k: nat, sender: Role, c: Config, fv: Fortune, fa: Fortune)
    requires Plausible(fv, c) && Plausible(fa, c) && Lucky(fv) && Lucky(fa)
    requires k < 6 && Even(s, k, c, fv, fa) && Sends(sender, k)
    ensures Possible(s, Send(sender)) && Possible(Apply(s, Send(sender)), Receive(Peer(sender)))
    ensures Even(Apply(Apply(s, Send(sender)), Receive(Peer(sender))), k + 1, c, fv, fa)
  {
    var s1 := Apply(s, Send(sender));
    SendKeepsInv(s, sender, c, fv, fa);
    ReceiveKeepsInv(s1, Peer(sender), c, fv, fa);
    TakeLucky(PartyOf(s1, Peer(sender)), Peer(sender), c, fv, fa);
    TakeExpected(PartyOf(s1, Peer(sender)), Peer(sender), c, fv, fa);
    hide Outgoing;
    hide Expected;
    hide Take;
  }

  lemma {:induction false} Rounds(k: nat, c: Config, fv: Fortune, fa: Fortune)
    requires Plausible(fv, c) && Plausible(fa, c) && Lucky(fv) && Lucky(fa) && k <= 6
    ensures Even(Run(Start(c, fv, fa), EXCHANGE[..2 * k]), k, c, fv, fa)
  {
    hide Run;
    hide Even;
    hide Possible;
    hide Plausible;
    hide Apply;
    if k == 0 {
      StartEven(c, fv, fa);
    } else {
      Rounds(k - 1, c, fv, fa);
      var s := Run(Start(c, fv, fa), EXCHANGE[..2 * (k - 1)]);
      var sender := if k == 1 || k == 3 || k == 5 then Viewer else Agent;
      Round(s, k - 1, sender, c, fv, fa);
      RunTwo(Start(c, fv, fa), EXCHANGE, k - 1);
    }
  }

  lemma StartEven(c: Config, fv: Fortune, fa: Fortune)
    ensures Even(Run(Start(c, fv, fa), EXCHANGE[..0]), 0, c, fv, fa)
  {
  }

  /** If nothing breaks, both sides end with the agreed path. */
  lemma {:induction false} BothSucceed(c: Config, fv: Fortune, fa: Fortune)
    requires Plausible(fv, c) && Plausible(fa, c) && Lucky(fv) && Lucky(fa)
    ensures var s := Run(Start(c, fv, fa), EXCHANGE);
            s.viewer.result == s.agent.result == Some(Success(Agreed(c, fv, fa)))
  {
    Rounds(6, c, fv, fa);
    assert EXCHANGE[..2 * 6] == EXCHANGE;
    hide Run;
  }
}
