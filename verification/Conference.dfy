/** Conference rooms of cmd/yudesk-relay/conference.go: the broker's room state, the messages it queues to
  the participants, and the picture of the room a participant builds from them. */
module Conferences {
  /** Participant identifiers are random and never collide; NOBODY stands for the empty string. */
  type Id = nat

  const NOBODY: Id := 0

  /** Device identifiers, of which only equality matters. */
  type Device = nat

  /** Capacity of a participant's send channel. */
  const SEND_CAPACITY: nat := 64

  datatype Flags = Flags(microphone: bool, camera: bool, screen: bool, recording: bool)

  const ALL_OFF := Flags(false, false, false, false)

  datatype Peer = Peer(id: Id, name: string, joinedAt: int, host: bool, flags: Flags)

  datatype Message =
    | Welcome(id: Id, name: string, topic: string, joinedAt: int, host: Id, peers: seq<Peer>)
    | PeerJoined(id: Id, name: string, joinedAt: int, host: Id)
    | PeerLeft(id: Id)
    | State(id: Id, flags: Flags)
    | Host(host: Id)
    | Pong
    | Signal(from: Id, signal: string, sdp: string, candidate: string)
    | Removed
    | Ended(reason: string)

  /** sent holds every message ever queued, of which the writer has taken the first drained ones. */
  datatype Participant = Participant(id: Id, device: Device, name: string, joined: nat, joinedAt: int, flags: Flags,
                                     sent: seq<Message>, drained: nat, closed: bool)

  datatype Room = Room(participants: map<Id, Participant>, removed: set<Device>, host: Id)

  const EMPTY_ROOM := Room(map[], {}, NOBODY)

  // ---- broker steps ----

  /** queueConferenceLocked: a full channel closes the participant, a closed one gets nothing. */
  function Queue(p: Participant, m: Message): Participant {
    if p.closed then p
    else if |p.sent| - p.drained < SEND_CAPACITY then p.(sent := p.sent + [m])
    else p.(closed := true)
  }

  function Update(r: Room, p: Participant): Room {
    r.(participants := r.participants[p.id := p])
  }

  function Broadcast(r: Room, m: Message, except: Id): Room {
    r.(participants := map id | id in r.participants :: if id == except then r.participants[id] else Queue(r.participants[id], m))
  }

  function QueueTo(r: Room, to: Id, m: Message): Room
    requires to in r.participants
  {
    r.(participants := r.participants[to := Queue(r.participants[to], m)])
  }

  function PeerOf(p: Participant, host: Id): Peer {
    Peer(p.id, p.name, p.joinedAt, p.id == host, p.flags)
  }

  function Peers(r: Room, order: seq<Id>): (peers: seq<Peer>)
    requires forall id :: id in order ==> id in r.participants
    ensures |peers| == |order|
  {
    seq(|order|, i requires 0 <= i < |order| => PeerOf(r.participants[order[i]], r.host))
  }

  predicate HasDevice(r: Room, d: Device) {
    exists id :: id in r.participants && r.participants[id].device == d
  }

  /** The newcomer enters, and hosts a room that has no host. */
  function Admit(r: Room, p: Participant): Room {
    Update(r, p).(host := if r.host == NOBODY then p.id else r.host)
  }

  function Joined(r: Room, p: Participant): Message {
    PeerJoined(p.id, p.name, p.joinedAt, Admit(r, p).host)
  }

  function Welcomed(r: Room, p: Participant, topic: string, order: seq<Id>): Message
    requires forall id :: id in order ==> id in r.participants
  {
    Welcome(p.id, p.name, topic, p.joinedAt, Admit(r, p).host, Peers(r, order))
  }

  /** The join section once the meeting was found.  order is the map order in which the peers are
      listed. */
  function Join(r: Room, p: Participant, topic: string, order: seq<Id>): Room
    requires forall id :: id in order ==> id in r.participants
  {
    Update(Broadcast(Admit(r, p), Joined(r, p), p.id), Queue(p, Welcomed(r, p, topic, order)))
  }

  /** The participant's flags are set, and nobody has been told yet. */
  function Flagged(r: Room, id: Id, flags: Flags): Room
    requires id in r.participants
  {
    r.(participants := r.participants[id := r.participants[id].(flags := flags)])
  }

  function SetFlags(r: Room, id: Id, flags: Flags): Room
    requires id in r.participants
  {
    Broadcast(Flagged(r, id, flags), State(id, flags), NOBODY)
  }

  /** A state message: only the host may share or record. */
  function ApplyState(r: Room, id: Id, flags: Flags): Room
    requires id in r.participants
  {
    SetFlags(r, id, if r.host == id then flags else flags.(screen := false, recording := false))
  }

  predicate MayTransfer(r: Room, id: Id, to: Id) {
    r.host == id && to in r.participants && to != id
  }

  function Transfer(r: Room, id: Id, to: Id): Room
    requires id in r.participants && MayTransfer(r, id, to)
  {
    var r1 := SetFlags(r, id, r.participants[id].flags.(screen := false, recording := false));
    Broadcast(r1.(host := to), Host(to), NOBODY)
  }

  predicate MayKick(r: Room, id: Id, to: Id) {
    r.host == id && to != id && to in r.participants
  }

  /** The target is told and barred; its connection is closed and leaves a little later. */
  function Kick(r: Room, to: Id): Room
    requires to in r.participants
  {
    QueueTo(r.(removed := r.removed + {r.participants[to].device}), to, Removed)
  }

  ghost predicate IsEarliest(ps: map<Id, Participant>, id: Id) {
    id in ps && forall other :: other in ps ==> ps[id].joined <= ps[other].joined
  }

  lemma {:induction false} EarliestAmong(ps: map<Id, Participant>, ids: set<Id>) returns (id: Id)
    requires ids != {} && ids <= ps.Keys
    ensures id in ids && forall other :: other in ids ==> ps[id].joined <= ps[other].joined
    decreases |ids|
  {
    var first :| first in ids;
    id := first;
    if ids != {first} {
      var rest := EarliestAmong(ps, ids - {first});
      id := if ps[rest].joined <= ps[first].joined then rest else first;
      forall other | other in ids ensures ps[id].joined <= ps[other].joined {
        assert other == first || other in ids - {first};
      }
    }
  }

  lemma SomeoneIsEarliest(ps: map<Id, Participant>)
    requires ps.Keys != {}
    ensures exists id :: IsEarliest(ps, id)
  {
    var id := EarliestAmong(ps, ps.Keys);
    assert IsEarliest(ps, id);
  }

  /** The participant that joined first, or NOBODY in an empty room. */
  ghost function Earliest(ps: map<Id, Participant>): (next: Id)
    ensures ps.Keys == {} ==> next == NOBODY
    ensures ps.Keys != {} ==> IsEarliest(ps, next)
  {
    if ps.Keys == {} then NOBODY
    else
      SomeoneIsEarliest(ps);
      var id :| IsEarliest(ps, id);
      id
  }

  function Without(r: Room, id: Id): Room {
    r.(participants := r.participants - {id})
  }

  /** The host is gone: the earliest joiner takes over, if anyone is left. */
  ghost function HandedOver(r: Room): Room {
    var next := Earliest(r.participants);
    if next == NOBODY then r.(host := NOBODY) else Broadcast(r.(host := next), Host(next), NOBODY)
  }

  ghost function Leave(r: Room, id: Id): Room
    requires id in r.participants
  {
    var r1 := Broadcast(Without(r, id), PeerLeft(id), NOBODY);
    if r.host != id then r1 else HandedOver(r1)
  }

  /** The writer takes the next message, or the connection is closed. */
  function Transport(r: Room, id: Id, drain: bool): Room
    requires id in r.participants
  {
    var p := r.participants[id];
    r.(participants := r.participants[id := if drain then p.(drained := p.drained + 1) else p.(closed := true)])
  }

  /** closeConferenceLocked. */
  function CloseRoom(r: Room): Room {
    r.(participants := map[], host := NOBODY)
  }

  // ---- what a participant makes of its messages ----

  datatype Entry = Entry(name: string, joinedAt: int, flags: Flags)

  datatype View = View(host: Id, entries: map<Id, Entry>)

  function AddPeers(entries: map<Id, Entry>, peers: seq<Peer>): map<Id, Entry> {
    if peers == [] then entries
    else
      var last := peers[|peers| - 1];
      AddPeers(entries, peers[..|peers| - 1])[last.id := Entry(last.name, last.joinedAt, last.flags)]
  }

  function Receive(v: View, m: Message): View {
    match m
    case Welcome(id, name, _, joinedAt, host, peers) => View(host, AddPeers(map[id := Entry(name, joinedAt, ALL_OFF)], peers))
    case PeerJoined(id, name, joinedAt, _) => v.(entries := v.entries[id := Entry(name, joinedAt, ALL_OFF)])
    case PeerLeft(id) => v.(entries := v.entries - {id})
    case State(id, flags) => if id in v.entries then v.(entries := v.entries[id := v.entries[id].(flags := flags)]) else v
    case Host(host) => v.(host := host)
    case _ => v
  }

  function Fold(ms: seq<Message>): View {
    if ms == [] then View(NOBODY, map[]) else Receive(Fold(ms[..|ms| - 1]), ms[|ms| - 1])
  }

  function EntryOf(p: Participant): Entry {
    Entry(p.name, p.joinedAt, p.flags)
  }

  /** The room as the broker knows it. */
  function Roster(r: Room): View {
    View(r.host, map id | id in r.participants :: EntryOf(r.participants[id]))
  }

  /** Everyone who is not closed has been told exactly v. */
  ghost predicate Told(r: Room, v: View) {
    forall id :: id in r.participants && !r.participants[id].closed ==> Fold(r.participants[id].sent) == v
  }

  /** What the structural invariant is about. */
  datatype Core = Core(id: Id, device: Device, joined: nat, flags: Flags)

  function CoreOf(p: Participant): Core {
    Core(p.id, p.device, p.joined, p.flags)
  }

  function Cores(r: Room): map<Id, Core> {
    map id | id in r.participants :: CoreOf(r.participants[id])
  }

  ghost predicate KeyedById(cores: map<Id, Core>) {
    forall id :: id in cores ==> cores[id].id == id && id != NOBODY
  }

  /** Each device is in the room once, and no two participants joined at the same time. */
  ghost predicate Apart(cores: map<Id, Core>) {
    forall a, b :: a in cores && b in cores && a != b ==>
      cores[a].device != cores[b].device && cores[a].joined != cores[b].joined
  }

  predicate Plain(c: Core) {
    !c.flags.screen && !c.flags.recording
  }

  /** The host is set exactly when there are participants, and is one of them. */
  ghost predicate HostSet(cores: map<Id, Core>, host: Id) {
    (host == NOBODY <==> cores.Keys == {}) && (host != NOBODY ==> host in cores)
  }

  ghost predicate OnlyHostShares(cores: map<Id, Core>, host: Id) {
    forall id :: id in cores && id != host ==> Plain(cores[id])
  }

  /** No send channel holds more than it can. */
  predicate Fits(p: Participant) {
    p.drained <= |p.sent| <= p.drained + SEND_CAPACITY
  }

  ghost predicate Bounded(r: Room) {
    forall id :: id in r.participants ==> Fits(r.participants[id])
  }

  ghost predicate Sound(cores: map<Id, Core>, host: Id) {
    KeyedById(cores) && Apart(cores) && HostSet(cores, host) && OnlyHostShares(cores, host)
  }

  ghost predicate Structure(r: Room) {
    Sound(Cores(r), r.host) && Bounded(r)
  }

  ghost predicate RoomInv(r: Room) {
    Structure(r) && Told(r, Roster(r))
  }

  lemma FoldAppend(ms: seq<Message>, m: Message)
    ensures Fold(ms + [m]) == Receive(Fold(ms), m)
  {
    assert (ms + [m])[..|ms|] == ms;
  }

  /** A broadcast brings everyone who stays open from one picture to the next. */
  lemma BroadcastTells(r: Room, m: Message, except: Id, v: View)
    requires forall id :: id in r.participants && id != except && !r.participants[id].closed ==> Fold(r.participants[id].sent) == v
    ensures var r' := Broadcast(r, m, except);
            forall id :: id in r'.participants && id != except && !r'.participants[id].closed ==>
              Fold(r'.participants[id].sent) == Receive(v, m)
  {
    hide Receive;
    hide Fold;
    forall id | id in r.participants && id != except && !Queue(r.participants[id], m).closed
      ensures Fold(Queue(r.participants[id], m).sent) == Receive(v, m)
    {
      FoldAppend(r.participants[id].sent, m);
    }
  }

  lemma QueueKeeps(p: Participant, m: Message)
    ensures var q := Queue(p, m);
            CoreOf(q) == CoreOf(p) && EntryOf(q) == EntryOf(p) && q.id == p.id && (Fits(p) ==> Fits(q))
  {
  }

  /** A broadcast changes nothing but the channels. */
  lemma BroadcastKeeps(r: Room, m: Message, except: Id)
    ensures var r' := Broadcast(r, m, except);
            && Roster(r') == Roster(r) && Cores(r') == Cores(r) && r'.participants.Keys == r.participants.Keys
            && (Bounded(r) ==> Bounded(r'))
  {
    hide Queue;
    hide CoreOf;
    hide EntryOf;
    hide Fits;
    var r' := Broadcast(r, m, except);
    forall id | id in r.participants
      ensures var p, q := r.participants[id], r'.participants[id];
              CoreOf(q) == CoreOf(p) && EntryOf(q) == EntryOf(p) && (Fits(p) ==> Fits(q))
    {
      QueueKeeps(r.participants[id], m);
    }
    assert Roster(r').entries == Roster(r).entries;
    assert Cores(r') == Cores(r);
  }

  lemma {:induction false} AddPeersLookup(entries: map<Id, Entry>, r: Room, order: seq<Id>)
    requires forall id :: id in order ==> id in r.participants && r.participants[id].id == id
    ensures var e := AddPeers(entries, Peers(r, order));
            forall id :: (id in e <==> id in entries || id in order)
                         && (id in order ==> e[id] == EntryOf(r.participants[id]))
                         && (id in entries && id !in order ==> e[id] == entries[id])
    decreases |order|
  {
    if order != [] {
      var n := |order| - 1;
      assert Peers(r, order)[..n] == Peers(r, order[..n]);
      AddPeersLookup(entries, r, order[..n]);
      assert order == order[..n] + [order[n]];
    }
  }

  /** A newcomer: nothing switched on, nothing sent, joined after everyone else. */
  ghost predicate Newcomer(r: Room, p: Participant) {
    && p.id !in r.participants && p.id != NOBODY && !HasDevice(r, p.device)
    && (forall id :: id in r.participants ==> r.participants[id].joined < p.joined)
    && p.flags == ALL_OFF && p.sent == [] && p.drained == 0 && !p.closed
  }

  lemma JoinSound(r: Room, p: Participant)
    requires Sound(Cores(r), r.host) && Newcomer(r, p)
    ensures Sound(Cores(r)[p.id := CoreOf(p)], if r.host == NOBODY then p.id else r.host)
  {
    var cores, cores' := Cores(r), Cores(r)[p.id := CoreOf(p)];
    assert p.id in cores'.Keys;
    forall a | a in cores ensures cores[a].device != p.device && cores[a].joined != p.joined {
      assert a in r.participants;
    }
  }

  /** Joining keeps everyone's picture equal to the roster, and the newcomer's welcome gives the same. */
  lemma {:induction false} JoinKeepsInv(r: Room, p: Participant, topic: string, order: seq<Id>)
    requires RoomInv(r) && Newcomer(r, p) && (forall id :: id in order <==> id in r.participants)
    ensures RoomInv(Join(r, p, topic, order))
    ensures Join(r, p, topic, order).participants.Keys == r.participants.Keys + {p.id}
    ensures Cores(Join(r, p, topic, order)) == Cores(r)[p.id := CoreOf(p)]
  {
    hide Told;
    hide Sound;
    JoinSound(r, p);
    assert Fits(p);
    JoinRoster(r, p, topic, order);
    JoinTells(r, p, topic, order);
  }

  /** Replacing a participant by one that differs in its channel only. */
  lemma UpdateKeeps(r: Room, q: Participant)
    requires q.id in r.participants && CoreOf(q) == CoreOf(r.participants[q.id]) && EntryOf(q) == EntryOf(r.participants[q.id])
    ensures var r' := Update(r, q);
            && Roster(r') == Roster(r) && Cores(r') == Cores(r) && r'.participants.Keys == r.participants.Keys
            && (Bounded(r) && Fits(q) ==> Bounded(r'))
  {
    hide CoreOf;
    hide EntryOf;
    hide Fits;
    assert Roster(Update(r, q)).entries == Roster(r).entries;
    assert Cores(Update(r, q)) == Cores(r);
  }

  lemma AdmitRoster(r: Room, p: Participant)
    requires Bounded(r) && Fits(p)
    ensures Cores(Admit(r, p)) == Cores(r)[p.id := CoreOf(p)]
    ensures Bounded(Admit(r, p)) && Admit(r, p).participants.Keys == r.participants.Keys + {p.id}
  {
    hide CoreOf;
    hide Fits;
  }

  /** What joining does to the roster, the cores and the channels. */
  lemma JoinRoster(r: Room, p: Participant, topic: string, order: seq<Id>)
    requires Bounded(r) && Fits(p) && (forall id :: id in order <==> id in r.participants)
    ensures var r' := Join(r, p, topic, order);
            && Roster(r') == Roster(Admit(r, p)) && Cores(r') == Cores(r)[p.id := CoreOf(p)]
            && Bounded(r') && r'.participants.Keys == r.participants.Keys + {p.id}
  {
    AdmitRoster(r, p);
    BroadcastKeeps(Admit(r, p), Joined(r, p), p.id);
    QueueKeeps(p, Welcomed(r, p, topic, order));
    var r2 := Broadcast(Admit(r, p), Joined(r, p), p.id);
    assert r2.participants[p.id] == p;
    hide *;
    UpdateKeeps(r2, Queue(p, Welcomed(r, p, topic, order)));
    JoinSteps(r, p, topic, order);
  }

  lemma JoinSteps(r: Room, p: Participant, topic: string, order: seq<Id>)
    requires forall id :: id in order ==> id in r.participants
    ensures Join(r, p, topic, order) == Update(Broadcast(Admit(r, p), Joined(r, p), p.id), Queue(p, Welcomed(r, p, topic, order)))
  {
  }

  lemma JoinTells(r: Room, p: Participant, topic: string, order: seq<Id>)
    requires RoomInv(r) && Newcomer(r, p) && (forall id :: id in order <==> id in r.participants)
    ensures Told(Join(r, p, topic, order), Roster(Admit(r, p)))
  {
    MembersKeyed(r);
    NewcomerTold(r, p, topic, order);
    OthersSeeJoin(r, p);
    hide Structure;
    hide Fold;
    hide Receive;
    BroadcastTells(Admit(r, p), Joined(r, p), p.id, Roster(r));
  }

  lemma NewcomerTold(r: Room, p: Participant, topic: string, order: seq<Id>)
    requires Newcomer(r, p) && (forall id :: id in order <==> id in r.participants)
    requires forall id :: id in r.participants ==> r.participants[id].id == id
    ensures Queue(p, Welcomed(r, p, topic, order)).sent == [Welcomed(r, p, topic, order)]
    ensures Fold([Welcomed(r, p, topic, order)]) == Roster(Admit(r, p))
  {
    FoldAppend([], Welcomed(r, p, topic, order));
    AddPeersLookup(map[p.id := Entry(p.name, p.joinedAt, ALL_OFF)], r, order);
    hide AddPeers;
    assert [] + [Welcomed(r, p, topic, order)] == [Welcomed(r, p, topic, order)];
    assert Receive(Fold([]), Welcomed(r, p, topic, order)).entries == Roster(Admit(r, p)).entries;
  }

  /** Those already in the room learn of the newcomer; a room that has anyone has a host already. */
  lemma OthersSeeJoin(r: Room, p: Participant)
    requires Structure(r) && Newcomer(r, p)
    ensures r.participants.Keys != {} ==> Receive(Roster(r), Joined(r, p)) == Roster(Admit(r, p))
  {
    assert Cores(r).Keys == r.participants.Keys;
    if r.participants.Keys != {} {
      assert HostSet(Cores(r), r.host);
      assert Receive(Roster(r), Joined(r, p)).entries == Roster(Admit(r, p)).entries;
    }
  }

  lemma MembersKeyed(r: Room)
    requires Structure(r)
    ensures forall id :: id in r.participants ==> r.participants[id].id == id && id != NOBODY
  {
    forall id | id in r.participants ensures r.participants[id].id == id && id != NOBODY {
      assert id in Cores(r);
    }
  }

  lemma SetFlagsSound(r: Room, id: Id, flags: Flags)
    requires Sound(Cores(r), r.host) && id in r.participants
    requires r.host != id ==> !flags.screen && !flags.recording
    ensures Sound(Cores(r)[id := Cores(r)[id].(flags := flags)], r.host)
  {
    assert id in Cores(r)[id := Cores(r)[id].(flags := flags)].Keys;
  }

  /** The channels of r1 are those of r. */
  ghost predicate SameChannels(r: Room, r1: Room) {
    forall id :: id in r1.participants ==>
      id in r.participants && r1.participants[id].sent == r.participants[id].sent && r1.participants[id].closed == r.participants[id].closed
  }

  /** A change of the room, followed by the broadcast that describes it. */
  lemma {:induction false} AnnounceKeepsTold(r: Room, r1: Room, m: Message)
    requires Told(r, Roster(r)) && SameChannels(r, r1) && NOBODY !in r1.participants
    requires Roster(r1) == Receive(Roster(r), m)
    ensures Told(Broadcast(r1, m, NOBODY), Roster(r1))
    ensures Roster(Broadcast(r1, m, NOBODY)) == Roster(r1) && Cores(Broadcast(r1, m, NOBODY)) == Cores(r1)
    ensures Broadcast(r1, m, NOBODY).participants.Keys == r1.participants.Keys
    ensures Bounded(r1) ==> Bounded(Broadcast(r1, m, NOBODY))
  {
    BroadcastKeeps(r1, m, NOBODY);
    hide Receive;
    hide Roster;
    hide Fold;
    hide Bounded;
    hide Cores;
    hide Queue;
    BroadcastTells(r1, m, NOBODY, Roster(r));
  }

  lemma NobodyIsNameless(r: Room)
    requires Structure(r)
    ensures NOBODY !in r.participants
  {
    assert NOBODY in r.participants ==> NOBODY in Cores(r);
  }

  lemma FlaggedRoster(r: Room, id: Id, flags: Flags)
    requires id in r.participants && Bounded(r)
    ensures var r1 := Flagged(r, id, flags);
            && Receive(Roster(r), State(id, flags)) == Roster(r1) && Bounded(r1) && SameChannels(r, r1)
            && r1.participants.Keys == r.participants.Keys && r1.host == r.host && r1.removed == r.removed
            && Cores(r1) == Cores(r)[id := Cores(r)[id].(flags := flags)]
  {
    var r1 := Flagged(r, id, flags);
    assert Receive(Roster(r), State(id, flags)).entries == Roster(r1).entries;
  }

  lemma {:induction false} SetFlagsKeepsInv(r: Room, id: Id, flags: Flags)
    requires RoomInv(r) && id in r.participants
    requires r.host != id ==> !flags.screen && !flags.recording
    ensures RoomInv(SetFlags(r, id, flags))
    ensures SetFlags(r, id, flags).participants.Keys == r.participants.Keys
    ensures SetFlags(r, id, flags).host == r.host && SetFlags(r, id, flags).removed == r.removed
    ensures Cores(SetFlags(r, id, flags)) == Cores(r)[id := Cores(r)[id].(flags := flags)]
  {
    SetFlagsSound(r, id, flags);
    NobodyIsNameless(r);
    FlaggedRoster(r, id, flags);
    hide Told;
    hide Bounded;
    hide Sound;
    hide Flagged;
    hide Receive;
    hide Roster;
    hide Cores;
    AnnounceKeepsTold(r, Flagged(r, id, flags), State(id, flags));
  }

  lemma HandOverSound(cores: map<Id, Core>, host: Id, to: Id)
    requires Sound(cores, host) && host in cores && Plain(cores[host]) && to in cores
    ensures Sound(cores, to)
  {
  }

  lemma TransferKeepsInv(r: Room, id: Id, to: Id)
    requires RoomInv(r) && id in r.participants && MayTransfer(r, id, to)
    ensures RoomInv(Transfer(r, id, to))
    ensures Transfer(r, id, to).host == to
  {
    var off := r.participants[id].flags.(screen := false, recording := false);
    SetFlagsKeepsInv(r, id, off);
    var r1 := SetFlags(r, id, off);
    hide SetFlags;
    HandOverSound(Cores(r1), id, to);
    NobodyIsNameless(r1);
    HostTold(r1, to);
    hide Sound;
    hide Told;
  }

  /** Messages that say nothing about the room. */
  predicate Aside(m: Message) {
    m.Pong? || m.Signal? || m.Removed? || m.Ended?
  }

  lemma AsideKeepsInv(r: Room, to: Id, m: Message)
    requires RoomInv(r) && to in r.participants && Aside(m)
    ensures RoomInv(QueueTo(r, to, m))
    ensures Cores(QueueTo(r, to, m)) == Cores(r)
  {
    hide Sound;
    hide Fold;
    var r' := QueueTo(r, to, m);
    FoldAppend(r.participants[to].sent, m);
    assert Roster(r').entries == Roster(r).entries;
    assert Cores(r') == Cores(r);
  }

  lemma KickKeepsInv(r: Room, to: Id)
    requires RoomInv(r) && to in r.participants
    ensures RoomInv(Kick(r, to))
    ensures Kick(r, to).removed == r.removed + {r.participants[to].device}
    ensures Cores(Kick(r, to)) == Cores(r)
  {
    hide Sound;
    hide Fold;
    var r1 := r.(removed := r.removed + {r.participants[to].device});
    assert Roster(r1) == Roster(r) && Cores(r1) == Cores(r);
    AsideKeepsInv(r1, to, Removed);
  }

  lemma LeaveSound(cores: map<Id, Core>, host: Id, id: Id)
    requires Sound(cores, host) && id in cores
    ensures id != host ==> Sound(cores - {id}, host)
    ensures id == host ==> forall next ::
              (next == NOBODY <==> (cores - {id}).Keys == {}) && (next != NOBODY ==> next in cores - {id}) ==> Sound(cores - {id}, next)
  {
    if id != host {
      assert host in (cores - {id}).Keys;
    }
  }

  lemma RemoveRoster(r: Room, id: Id)
    requires id in r.participants && Bounded(r)
    ensures var r0 := Without(r, id);
            && Receive(Roster(r), PeerLeft(id)) == Roster(r0) && Bounded(r0) && SameChannels(r, r0)
            && r0.participants.Keys == r.participants.Keys - {id} && Cores(r0) == Cores(r) - {id}
  {
    hide CoreOf;
    hide EntryOf;
    hide Fits;
    var r0 := Without(r, id);
    assert Receive(Roster(r), PeerLeft(id)).entries == Roster(r0).entries;
    assert Cores(r0) == Cores(r) - {id};
  }

  lemma RemoveTells(r: Room, id: Id)
    requires RoomInv(r) && id in r.participants
    ensures var r1 := Broadcast(Without(r, id), PeerLeft(id), NOBODY);
            && Cores(r1) == Cores(r) - {id} && r1.participants.Keys == r.participants.Keys - {id}
            && Bounded(r1) && Told(r1, Roster(r1))
  {
    NobodyIsNameless(r);
    RemoveRoster(r, id);
    hide Told;
    hide Bounded;
    hide Sound;
    hide Without;
    hide Receive;
    hide Roster;
    hide Cores;
    AnnounceKeepsTold(r, Without(r, id), PeerLeft(id));
  }

  /** The host's departure hands the room to the earliest joiner, and everyone who stays is told. */
  lemma LeaveKeepsInv(r: Room, id: Id)
    requires RoomInv(r) && id in r.participants
    ensures RoomInv(Leave(r, id))
    ensures var r' := Leave(r, id);
            && Cores(r') == Cores(r) - {id} && r'.participants.Keys == r.participants.Keys - {id}
            && (r.host != id ==> r'.host == r.host)
            && (r.host == id && r'.participants.Keys != {} ==> IsEarliest(r'.participants, r'.host))
  {
    var r1 := Broadcast(Without(r, id), PeerLeft(id), NOBODY);
    RemoveTells(r, id);
    assert id in Cores(r);
    LeaveSound(Cores(r), r.host, id);
    assert Cores(r1).Keys == r1.participants.Keys;
    hide Sound;
    hide Told;
    hide Bounded;
    if r.host == id {
      var next := Earliest(r1.participants);
      if next != NOBODY {
        HostTold(r1, next);
        BroadcastKeeps(r1.(host := next), Host(next), NOBODY);
        EarliestStays(r1, next);
      } else {
        NooneTold(r1);
      }
    }
  }

  lemma NooneTold(r: Room)
    requires r.participants.Keys == {}
    ensures Told(r.(host := NOBODY), Roster(r.(host := NOBODY))) && Bounded(r.(host := NOBODY)) && Cores(r.(host := NOBODY)) == Cores(r)
  {
  }

  lemma HostTold(r: Room, next: Id)
    requires Bounded(r) && Told(r, Roster(r)) && Sound(Cores(r), next) && NOBODY !in r.participants
    ensures RoomInv(Broadcast(r.(host := next), Host(next), NOBODY))
    ensures Cores(Broadcast(r.(host := next), Host(next), NOBODY)) == Cores(r)
  {
    var r1 := r.(host := next);
    NewHost(r, next);
    hide Told;
    hide Bounded;
    hide Sound;
    hide Roster;
    hide Cores;
    AnnounceKeepsTold(r, r1, Host(next));
  }

  lemma NewHost(r: Room, next: Id)
    ensures Cores(r.(host := next)) == Cores(r) && Roster(r.(host := next)) == Receive(Roster(r), Host(next))
    ensures SameChannels(r, r.(host := next)) && (Bounded(r) ==> Bounded(r.(host := next)))
  {
    assert Roster(r.(host := next)).entries == Roster(r).entries;
    assert Cores(r.(host := next)) == Cores(r);
  }

  lemma EarliestStays(r: Room, next: Id)
    requires IsEarliest(r.participants, next)
    ensures IsEarliest(Broadcast(r.(host := next), Host(next), NOBODY).participants, next)
  {
  }

  /** The participant's own connection: it may be closed, and its writer takes messages. */
  lemma TransportKeepsInv(r: Room, id: Id, drain: bool)
    requires RoomInv(r) && id in r.participants
    requires drain ==> r.participants[id].drained < |r.participants[id].sent|
    ensures RoomInv(Transport(r, id, drain))
    ensures Cores(Transport(r, id, drain)) == Cores(r)
  {
    hide Sound;
    hide Fold;
    var r' := Transport(r, id, drain);
    assert Roster(r').entries == Roster(r).entries;
    assert Cores(r') == Cores(r);
  }
}
