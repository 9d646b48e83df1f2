/** What each operation on a conference tells whom, and who is let in: cmd/yudesk-relay/conference.go and
  cmd/yudesk-relay/meeting.go. */
module ConferenceEffects {
  import opened Wrappers
  import opened Conferences
  import opened Meetings

  // ---- send channels ----

  function Waiting(p: Participant): int {
    |p.sent| - p.drained
  }

  /** p was queued these messages in order: a closed participant gets nothing; one whose channel of 64 has room for them
      gets them all and stays open; another gets what there is room for and is closed. */
  ghost predicate Gets(p: Participant, p': Participant, ms: seq<Message>) {
    && p'.(flags := p.flags, sent := p.sent, closed := p.closed) == p
    && (if p.closed then p'.closed && p'.sent == p.sent
        else if Waiting(p) + |ms| <= 64 then !p'.closed && p'.sent == p.sent + ms
        else p'.closed && Waiting(p) <= 64 && p'.sent == p.sent + ms[..64 - Waiting(p)])
  }

  lemma QueueGets(p: Participant, m: Message)
    requires Fits(p)
    ensures Gets(p, Queue(p, m), [m]) && Queue(p, m).flags == p.flags && Fits(Queue(p, m))
  {
    assert [m][..0] == [];
  }

  lemma GetsNothing(p: Participant)
    requires Fits(p)
    ensures Gets(p, p, [])
  {
  }

  lemma GetsMore(p: Participant, p1: Participant, p2: Participant, a: seq<Message>, b: seq<Message>)
    requires Fits(p) && Gets(p, p1, a) && Gets(p1, p2, b)
    ensures Gets(p, p2, a + b)
  {
    assert p.sent + (a + b) == (p.sent + a) + b;
    if !p.closed {
      var n := 64 - Waiting(p);
      if |a| <= n < |a| + |b| {
        assert (a + b)[..n] == a + b[..n - |a|];
      } else if n < |a| {
        assert (a + b)[..n] == a[..n];
      }
    }
  }

  /** Everyone but one is told m. */
  lemma BroadcastGets(r: Room, m: Message, except: Id)
    requires Bounded(r)
    ensures var r' := Broadcast(r, m, except);
            && r'.participants.Keys == r.participants.Keys && r'.host == r.host && r'.removed == r.removed && Bounded(r')
            && forall id :: id in r.participants ==>
                 r'.participants[id].flags == r.participants[id].flags
                 && (if id == except then r'.participants[id] == r.participants[id] else Gets(r.participants[id], r'.participants[id], [m]))
  {
    forall id | id in r.participants ensures Fits(r.participants[id]) && Gets(r.participants[id], Queue(r.participants[id], m), [m])
      && Queue(r.participants[id], m).flags == r.participants[id].flags && Fits(Queue(r.participants[id], m)) {
      QueueGets(r.participants[id], m);
    }
    hide Queue;
    hide Gets;
    hide Fits;
  }

  // ---- what each operation tells ----

  /** Everyone in the room is told these messages; nobody comes, goes or changes flags, but for those of one. */
  ghost predicate AllTold(r: Room, r': Room, ms: seq<Message>, id: Id, flags: Flags) {
    && r'.participants.Keys == r.participants.Keys && r'.removed == r.removed
    && forall other :: other in r.participants ==>
         && Gets(r.participants[other], r'.participants[other], ms)
         && r'.participants[other].flags == if other == id then flags else r.participants[other].flags
  }

  /** One participant is told m, and nothing else changes for anybody. */
  ghost predicate OneTold(r: Room, r': Room, to: Id, m: Message) {
    && r'.participants.Keys == r.participants.Keys && r'.host == r.host
    && forall other :: other in r.participants ==>
         if other == to then Gets(r.participants[to], r'.participants[to], [m]) && r'.participants[to].flags == r.participants[to].flags
         else r'.participants[other] == r.participants[other]
  }

  /** What is needed of a room: no channel is overfull and nobody is called NOBODY. */
  ghost predicate Fine(r: Room) {
    Bounded(r) && NOBODY !in r.participants
  }

  lemma FineRoom(r: Room)
    requires RoomInv(r)
    ensures Fine(r)
  {
    assert NOBODY in r.participants ==> NOBODY in Cores(r);
  }

  lemma SetFlagsTells(r: Room, id: Id, flags: Flags)
    requires Fine(r) && id in r.participants
    ensures AllTold(r, SetFlags(r, id, flags), [State(id, flags)], id, flags) && SetFlags(r, id, flags).host == r.host
    ensures Fine(SetFlags(r, id, flags))
  {
    var r1 := Flagged(r, id, flags);
    BroadcastGets(r1, State(id, flags), NOBODY);
    hide Broadcast;
    var r' := SetFlags(r, id, flags);
    forall other | other in r.participants
      ensures Gets(r.participants[other], r'.participants[other], [State(id, flags)])
              && r'.participants[other].flags == if other == id then flags else r.participants[other].flags
    {
      Reflagged(r.participants[other], r1.participants[other], r'.participants[other], [State(id, flags)]);
    }
    hide Gets;
  }

  lemma Reflagged(p: Participant, p1: Participant, p': Participant, ms: seq<Message>)
    requires p1.(flags := p.flags) == p && Gets(p1, p', ms)
    ensures Gets(p, p', ms)
  {
  }

  lemma HostTells(r: Room, to: Id)
    requires Fine(r)
    ensures var r' := Broadcast(r.(host := to), Host(to), NOBODY);
            && r'.participants.Keys == r.participants.Keys && r'.removed == r.removed && r'.host == to
            && forall other :: other in r.participants ==>
                 && Gets(r.participants[other], r'.participants[other], [Host(to)])
                 && r'.participants[other].flags == r.participants[other].flags
  {
    BroadcastGets(r.(host := to), Host(to), NOBODY);
    hide Broadcast;
    hide Gets;
  }

  lemma TransferTells(r: Room, id: Id, to: Id)
    requires Fine(r) && id in r.participants && MayTransfer(r, id, to)
    ensures var off := r.participants[id].flags.(screen := false, recording := false);
            && AllTold(r, Transfer(r, id, to), [State(id, off), Host(to)], id, off)
            && Transfer(r, id, to).host == to
  {
    var off := r.participants[id].flags.(screen := false, recording := false);
    SetFlagsTells(r, id, off);
    var r1 := SetFlags(r, id, off);
    hide SetFlags;
    HostTells(r1, to);
    hide Broadcast;
    var r' := Transfer(r, id, to);
    forall other | other in r.participants ensures Gets(r.participants[other], r'.participants[other], [State(id, off), Host(to)]) {
      GetsMore(r.participants[other], r1.participants[other], r'.participants[other], [State(id, off)], [Host(to)]);
    }
    hide Gets;
  }

  lemma QueueToTells(r: Room, to: Id, m: Message)
    requires Fine(r) && to in r.participants
    ensures OneTold(r, QueueTo(r, to, m), to, m) && QueueTo(r, to, m).removed == r.removed
  {
    QueueGets(r.participants[to], m);
    hide Queue;
    hide Gets;
  }

  /** What a participant's message does: its pings are answered to it alone, its signals go to the one named and no one else,
      its flags are set and told to everyone, of a participant that does not host without sharing and recording; the host
      hands over, bars or ends the meeting.  It is given up exactly for a malformed signal or one to itself, for what only the
      host may do, for naming itself or no participant there, and for a message that is none of these. */
  lemma {:induction false} ReactTells(r: Room, id: Id, request: Request)
    requires RoomInv(r) && id in r.participants
    ensures match request
            case Ping => React(r, id, request).Change? && OneTold(r, React(r, id, request).room, id, Pong)
            case SendSignal(to, signal, sdp, candidate) =>
              if !ValidSignal(signal, sdp, candidate) || to == id then React(r, id, request) == Reject
              else if to !in r.participants then React(r, id, request) == Ignore
              else React(r, id, request).Change? && OneTold(r, React(r, id, request).room, to, Signal(id, signal, sdp, candidate))
            case SetState(flags) =>
              var taken := if r.host == id then flags else Flags(flags.microphone, flags.camera, false, false);
              && React(r, id, request).Change? && AllTold(r, React(r, id, request).room, [State(id, taken)], id, taken)
              && React(r, id, request).room.host == r.host
            case TransferTo(to) =>
              if r.host == id && to in r.participants && to != id then
                var off := Flags(r.participants[id].flags.microphone, r.participants[id].flags.camera, false, false);
                && React(r, id, request).Change? && React(r, id, request).room.host == to
                && AllTold(r, React(r, id, request).room, [State(id, off), Host(to)], id, off)
              else React(r, id, request) == Reject
            case KickOut(to) =>
              if r.host != id || to == id then React(r, id, request) == Reject
              else if to !in r.participants then React(r, id, request) == Ignore
              else
                && React(r, id, request).Change? && OneTold(r, React(r, id, request).room, to, Removed)
                && React(r, id, request).room.removed == r.removed + {r.participants[to].device}
            case End => React(r, id, request) == if r.host == id then EndMeeting else Reject
            case Other => React(r, id, request) == Reject
  {
    FineRoom(r);
    hide RoomInv;
    hide Fine;
    hide AllTold;
    hide QueueTo;
    hide SetFlags;
    hide Transfer;
    hide ValidSignal;
    match request
    case Ping => QueueToTells(r, id, Pong);
    case SendSignal(to, signal, sdp, candidate) =>
      if to in r.participants {
        QueueToTells(r, to, Signal(id, signal, sdp, candidate));
      }
      hide OneTold;
    case SetState(flags) =>
      SetFlagsTells(r, id, if r.host == id then flags else flags.(screen := false, recording := false));
    case TransferTo(to) =>
      if MayTransfer(r, id, to) {
        TransferTells(r, id, to);
      }
    case KickOut(to) =>
      if to in r.participants {
        KickTells(r, to);
      }
      hide Kick;
      hide OneTold;
    case End =>
    case Other =>
  }

  lemma KickTells(r: Room, to: Id)
    requires Fine(r) && to in r.participants
    ensures OneTold(r, Kick(r, to), to, Removed) && Kick(r, to).removed == r.removed + {r.participants[to].device}
  {
    var r1 := r.(removed := r.removed + {r.participants[to].device});
    QueueToTells(r1, to, Removed);
    hide QueueTo;
    hide Gets;
  }

  /** Who leaves is gone, the others are told, and if it was the host that the earliest joiner hosts now. */
  lemma {:induction false} LeaveTells(r: Room, id: Id)
    requires RoomInv(r) && id in r.participants
    ensures var r' := Leave(r, id);
            && r'.participants.Keys == r.participants.Keys - {id} && r'.removed == r.removed
            && (r.host != id ==> r'.host == r.host)
            && (r.host == id ==> if r'.participants.Keys == {} then r'.host == NOBODY
                                 else r'.host in r'.participants
                                      && forall other :: other in r'.participants ==> r.participants[r'.host].joined <= r.participants[other].joined)
            && forall other :: other in r.participants && other != id ==>
                 && r'.participants[other].flags == r.participants[other].flags
                 && Gets(r.participants[other], r'.participants[other], if r.host == id then [PeerLeft(id), Host(r'.host)] else [PeerLeft(id)])
  {
    FineRoom(r);
    hide RoomInv;
    PartingTells(r, id);
    var r1 := Broadcast(Without(r, id), PeerLeft(id), NOBODY);
    hide Without;
    hide Broadcast;
    hide Gets;
    if r.host == id && r1.participants.Keys != {} {
      HandOverTells(r, r1, id);
    }
    hide Fine;
  }

  lemma PartingTells(r: Room, id: Id)
    requires Fine(r) && id in r.participants
    ensures var r1 := Broadcast(Without(r, id), PeerLeft(id), NOBODY);
            && Fine(r1) && r1.participants.Keys == r.participants.Keys - {id} && r1.removed == r.removed && r1.host == r.host
            && forall other :: other in r.participants && other != id ==>
                 && r1.participants[other].flags == r.participants[other].flags
                 && Gets(r.participants[other], r1.participants[other], [PeerLeft(id)])
  {
    BroadcastGets(Without(r, id), PeerLeft(id), NOBODY);
    hide Broadcast;
    hide Gets;
  }

  lemma HandOverTells(r: Room, r1: Room, id: Id)
    requires Fine(r) && Fine(r1) && r1.participants.Keys == r.participants.Keys - {id} && r1.participants.Keys != {}
    requires forall other :: other in r.participants && other != id ==>
               && r1.participants[other].flags == r.participants[other].flags
               && Gets(r.participants[other], r1.participants[other], [PeerLeft(id)])
    ensures var r' := HandedOver(r1);
            && r'.participants.Keys == r1.participants.Keys && r'.removed == r1.removed && r'.host in r'.participants
            && (forall other :: other in r1.participants ==> r.participants[r'.host].joined <= r.participants[other].joined)
            && forall other :: other in r1.participants ==>
                 && r'.participants[other].flags == r.participants[other].flags
                 && Gets(r.participants[other], r'.participants[other], [PeerLeft(id), Host(r'.host)])
  {
    var next := Earliest(r1.participants);
    assert IsEarliest(r1.participants, next);
    HostTells(r1, next);
    hide Broadcast;
    var r' := HandedOver(r1);
    forall other | other in r1.participants
      ensures Gets(r.participants[other], r'.participants[other], [PeerLeft(id), Host(next)]) && r1.participants[other].joined == r.participants[other].joined
    {
      GetsKeeps(r.participants[other], r1.participants[other], [PeerLeft(id)]);
      GetsMore(r.participants[other], r1.participants[other], r'.participants[other], [PeerLeft(id)], [Host(next)]);
    }
    hide Gets;
  }

  lemma GetsKeeps(p: Participant, p': Participant, ms: seq<Message>)
    requires Gets(p, p', ms)
    ensures p'.joined == p.joined && p'.device == p.device && p'.drained == p.drained
  {
  }

  /** Who joins is welcomed with the room's topic, host and peers, on an empty channel, and hosts a room without one; the
      others are told of it. */
  lemma {:induction false} JoinTellsAll(r: Room, p: Participant, topic: string, order: seq<Id>)
    requires RoomInv(r) && p.id != NOBODY && p.id !in r.participants && p.sent == [] && p.drained == 0 && !p.closed
    requires forall id :: id in order <==> id in r.participants
    ensures var r', host := Join(r, p, topic, order), if r.participants.Keys == {} then p.id else r.host;
            && r'.participants.Keys == r.participants.Keys + {p.id} && r'.host == host && r'.removed == r.removed
            && r'.participants[p.id] == p.(sent := [Welcome(p.id, p.name, topic, p.joinedAt, host, Peers(r, order))])
            && forall other :: other in r.participants ==>
                 && r'.participants[other].flags == r.participants[other].flags
                 && Gets(r.participants[other], r'.participants[other], [PeerJoined(p.id, p.name, p.joinedAt, host)])
  {
    FineRoom(r);
    HostOrNobody(r);
    hide RoomInv;
    var r1 := Admit(r, p);
    assert Bounded(r1);
    BroadcastGets(r1, Conferences.Joined(r, p), p.id);
    hide Broadcast;
    hide Gets;
  }

  lemma HostOrNobody(r: Room)
    requires RoomInv(r)
    ensures r.host == NOBODY <==> r.participants.Keys == {}
  {
    assert Cores(r).Keys == r.participants.Keys;
  }

  /** The peers listed in a welcome are the participants in their order, of whom the host is marked. */
  lemma WelcomeLists(r: Room, order: seq<Id>, i: nat)
    requires RoomInv(r) && (forall id :: id in order ==> id in r.participants) && i < |order|
    ensures var q, id := Peers(r, order)[i], order[i]; var p := r.participants[id];
            q.id == id && q.name == p.name && q.joinedAt == p.joinedAt && q.flags == p.flags && (q.host <==> id == r.host)
  {
    assert order[i] in order && order[i] in Cores(r);
    assert Cores(r)[order[i]].id == r.participants[order[i]].id;
  }

  /** Who may remove whom is what the room's reaction says. */
  lemma MayKickExactly(r: Room, id: Id, to: Id)
    requires id in r.participants
    ensures MayKick(r, id, to) <==> React(r, id, KickOut(to)).Change?
    ensures MayKick(r, id, to) ==> React(r, id, KickOut(to)).room == Kick(r, to)
  {
  }

  /** A room that ends is empty and has no host; who was removed from it stays known. */
  lemma EndEmpties(r: Room)
    ensures CloseRoom(r) == Room(map[], r.removed, NOBODY)
  {
  }

  /** A signal is a candidate that says something, or an offer or an answer with a description, none of them too long. */
  lemma SignalsExactly(signal: string, sdp: string, candidate: string)
    ensures ValidSignal(signal, sdp, candidate) <==>
              && |sdp| <= 32768 && |candidate| <= 8192
              && ((signal == "candidate" && |candidate| > 0) || ((signal == "offer" || signal == "answer") && |sdp| > 0))
  {
  }
}
