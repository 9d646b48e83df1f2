/** Meetings and their conference rooms as the broker keeps them: cmd/yudesk-relay/meeting.go and the locked sections
  of cmd/yudesk-relay/conference.go, each one atomic step. */
module Meetings {
  import opened Wrappers
  import opened Conferences

  /** Nine digits; NO_CODE stands for the empty string. */
  type Code = nat

  const NO_CODE: Code := 0

  datatype Meeting = Meeting(device: Device, topic: string, expires: int, conference: Option<Room>)

  /** devices is the broker's meetingDevices, joins its conferenceSeq.  used are the participant identifiers handed
      out so far. */
  datatype Broker = Broker(meetings: map<Code, Meeting>, devices: map<Device, Code>, joins: nat, used: set<Id>)

  const START := Broker(map[], map[], 0, {})

  datatype Action = HostIn | JoinIn

  datatype Request =
    | Ping
    | SendSignal(to: Id, signal: string, sdp: string, candidate: string)
    | SetState(flags: Flags)
    | TransferTo(to: Id)
    | KickOut(to: Id)
    | End
    | Other

  datatype Step =
    | Open(device: Device, topic: string, expires: int, now: int, code: Code)
    | Close(device: Device)
    | Cleanup(now: int)
    | Enter(code: Code, action: Action, device: Device, name: string, now: int, joinedAt: int, id: Id, order: seq<Id>)
    | Talk(code: Code, id: Id, request: Request)
    | Quit(code: Code, id: Id)
    | Wire(code: Code, id: Id, drain: bool)

  // ---- removing meetings ----

  /** removeMeetingCodeLocked. */
  function RemoveCode(b: Broker, code: Code): Broker {
    if code !in b.meetings then b
    else
      var device := b.meetings[code].device;
      b.(meetings := b.meetings - {code},
         devices := if device in b.devices && b.devices[device] == code then b.devices - {device} else b.devices)
  }

  /** removeMeetingLocked. */
  function RemoveDevice(b: Broker, device: Device): Broker {
    if device in b.devices && b.devices[device] != NO_CODE then
      b.(meetings := b.meetings - {b.devices[device]}, devices := b.devices - {device})
    else b
  }

  /** cleanupMeetingsLocked: every expired meeting goes, and its device's entry if it names that meeting. */
  function Expired(b: Broker, now: int): set<Code> {
    set code | code in b.meetings && b.meetings[code].expires <= now
  }

  function CleanupAt(b: Broker, now: int): Broker {
    var gone := Expired(b, now);
    b.(meetings := b.meetings - gone,
       devices := map d | d in b.devices && !(b.devices[d] in gone && b.meetings[b.devices[d]].device == d) :: b.devices[d])
  }

  /** A meeting opens without a conference room. */
  function Add(b: Broker, code: Code, device: Device, topic: string, expires: int): Broker {
    b.(meetings := b.meetings[code := Meeting(device, topic, expires, None)], devices := b.devices[device := code])
  }

  // ---- the conference of one meeting ----

  predicate InRoom(b: Broker, code: Code, id: Id) {
    code in b.meetings && b.meetings[code].conference.Some? && id in b.meetings[code].conference.value.participants
  }

  function RoomOf(b: Broker, code: Code): Room
    requires code in b.meetings
  {
    match b.meetings[code].conference
    case Some(room) => room
    case None => EMPTY_ROOM
  }

  function Put(b: Broker, code: Code, r: Room): Broker
    requires code in b.meetings
  {
    b.(meetings := b.meetings[code := b.meetings[code].(conference := Some(r))])
  }

  /** The checks of the section that lets a participant in. */
  predicate Admitted(b: Broker, code: Code, action: Action, device: Device, now: int) {
    && code in b.meetings && b.meetings[code].expires > now
    && (b.meetings[code].conference.None? ==> action.HostIn?)
    && (action.HostIn? ==> b.meetings[code].device == device)
    && (action.JoinIn? ==> RoomOf(b, code).host != NOBODY)
    && !HasDevice(RoomOf(b, code), device)
    && device !in RoomOf(b, code).removed
  }

  predicate ValidSignal(signal: string, sdp: string, candidate: string) {
    && (signal == "offer" || signal == "answer" || signal == "candidate")
    && |sdp| <= 32 * 1024 && |candidate| <= 8 * 1024
    && (if signal == "candidate" then candidate != "" else sdp != "")
  }

  /** What a participant's message does: the room changes, nothing happens, the connection is given up, or the
      meeting ends. */
  datatype Reaction = Change(room: Room) | Ignore | Reject | EndMeeting

  function React(r: Room, id: Id, request: Request): Reaction
    requires id in r.participants
  {
    match request
    case Ping => Change(QueueTo(r, id, Pong))
    case SendSignal(to, signal, sdp, candidate) =>
      if !ValidSignal(signal, sdp, candidate) then Reject
      else if to !in r.participants then Ignore
      else if to == id then Reject
      else Change(QueueTo(r, to, Signal(id, signal, sdp, candidate)))
    case SetState(flags) => Change(ApplyState(r, id, flags))
    case TransferTo(to) => if MayTransfer(r, id, to) then Change(Transfer(r, id, to)) else Reject
    case KickOut(to) =>
      if r.host != id || to == id then Reject
      else if to !in r.participants then Ignore
      else Change(Kick(r, to))
    case End => if r.host == id then EndMeeting else Reject
    case Other => Reject
  }

  /** applyConferenceMessage for a participant of the room. */
  function Answer(b: Broker, code: Code, id: Id, request: Request): Broker
    requires InRoom(b, code, id)
  {
    match React(RoomOf(b, code), id, request)
    case Change(room) => Put(b, code, room)
    case EndMeeting => RemoveCode(b, code)
    case _ => b
  }

  /** A step that the code can take in b: identifiers and codes are fresh, the peers are listed in some order, and
      a writer takes only what is queued. */
  ghost predicate Possible(b: Broker, s: Step) {
    match s
    case Open(device, _, _, now, code) => code == NO_CODE || code !in RemoveDevice(CleanupAt(b, now), device).meetings
    case Enter(code, _, _, _, _, _, id, order) =>
      id != NOBODY && id !in b.used
      && (code in b.meetings ==> forall other :: other in order <==> other in RoomOf(b, code).participants)
    case Wire(code, id, drain) =>
      InRoom(b, code, id) && (drain ==> var p := RoomOf(b, code).participants[id]; p.drained < |p.sent|)
    case _ => true
  }

  function Newly(b: Broker, s: Step): Participant
    requires s.Enter?
  {
    Participant(s.id, s.device, s.name, b.joins + 1, s.joinedAt, ALL_OFF, [], 0, false)
  }

  ghost function Apply(b: Broker, s: Step): Broker
    requires Possible(b, s)
  {
    match s
    case Open(device, topic, expires, now, code) =>
      var b1 := RemoveDevice(CleanupAt(b, now), device);
      if code == NO_CODE then b1
      else Add(b1, code, device, topic, expires)
    case Close(device) => RemoveDevice(b, device)
    case Cleanup(now) => CleanupAt(b, now)
    case Enter(code, action, device, name, now, joinedAt, id, order) =>
      if !Admitted(b, code, action, device, now) then b
      else
        Put(b, code, Join(RoomOf(b, code), Newly(b, s), b.meetings[code].topic, order)).(joins := b.joins + 1, used := b.used + {id})
    case Talk(code, id, request) => if InRoom(b, code, id) then Answer(b, code, id, request) else b
    case Quit(code, id) => if InRoom(b, code, id) then Put(b, code, Leave(RoomOf(b, code), id)) else b
    case Wire(code, id, drain) => Put(b, code, Transport(RoomOf(b, code), id, drain))
  }

  /** What cannot happen is skipped. */
  ghost function Run(b: Broker, steps: seq<Step>): Broker {
    if steps == [] then b
    else
      var before := Run(b, steps[..|steps| - 1]);
      var s := steps[|steps| - 1];
      if Possible(before, s) then Apply(before, s) else before
  }

  // ---- what every step keeps ----

  /** The two maps are inverse to one another. */
  ghost predicate Inverse(b: Broker) {
    && (forall code :: code in b.meetings ==>
          code != NO_CODE && b.meetings[code].device in b.devices && b.devices[b.meetings[code].device] == code)
    && (forall d :: d in b.devices ==> b.devices[d] in b.meetings && b.meetings[b.devices[d]].device == d)
  }

  /** Everyone in the room got its identifier and its number from the broker. */
  ghost predicate Issued(r: Room, joins: nat, used: set<Id>) {
    forall id :: id in r.participants ==> id in used && r.participants[id].joined <= joins
  }

  ghost predicate RoomsInv(b: Broker) {
    forall code :: code in b.meetings ==> RoomInv(RoomOf(b, code)) && Issued(RoomOf(b, code), b.joins, b.used)
  }

  ghost predicate Inv(b: Broker) {
    Inverse(b) && RoomsInv(b)
  }

  /** What every change of a room but a join does: nobody is added, and nobody is let off. */
  ghost predicate Follows(r: Room, r': Room) {
    && RoomInv(r') && r.removed <= r'.removed
    && (forall id :: id in r'.participants ==>
          id in r.participants && r'.participants[id].device == r.participants[id].device
          && r'.participants[id].joined == r.participants[id].joined)
  }

  lemma CoresFollow(r: Room, r': Room)
    requires RoomInv(r') && r.removed <= r'.removed
    requires forall id :: id in Cores(r') ==>
               id in Cores(r) && Cores(r')[id].device == Cores(r)[id].device && Cores(r')[id].joined == Cores(r)[id].joined
    ensures Follows(r, r')
  {
    hide RoomInv;
    forall id | id in r'.participants
      ensures id in r.participants && r'.participants[id].device == r.participants[id].device
              && r'.participants[id].joined == r.participants[id].joined
    {
      assert id in Cores(r');
    }
  }

  lemma StateFollows(r: Room, id: Id, flags: Flags)
    requires RoomInv(r) && id in r.participants
    ensures Follows(r, ApplyState(r, id, flags))
  {
    hide RoomInv;
    SetFlagsKeepsInv(r, id, if r.host == id then flags else flags.(screen := false, recording := false));
    hide SetFlags;
    CoresFollow(r, ApplyState(r, id, flags));
  }

  lemma TransferFollows(r: Room, id: Id, to: Id)
    requires RoomInv(r) && id in r.participants && MayTransfer(r, id, to)
    ensures Follows(r, Transfer(r, id, to))
  {
    hide RoomInv;
    var off := r.participants[id].flags.(screen := false, recording := false);
    SetFlagsKeepsInv(r, id, off);
    TransferKeepsInv(r, id, to);
    hide SetFlags;
    CoresFollow(r, Transfer(r, id, to));
  }

  lemma KickFollows(r: Room, to: Id)
    requires RoomInv(r) && to in r.participants
    ensures Follows(r, Kick(r, to))
  {
    hide RoomInv;
    KickKeepsInv(r, to);
    CoresFollow(r, Kick(r, to));
  }

  lemma AsideFollows(r: Room, to: Id, m: Message)
    requires RoomInv(r) && to in r.participants && Aside(m)
    ensures Follows(r, QueueTo(r, to, m))
  {
    hide RoomInv;
    AsideKeepsInv(r, to, m);
    CoresFollow(r, QueueTo(r, to, m));
  }

  lemma LeaveFollows(r: Room, id: Id)
    requires RoomInv(r) && id in r.participants
    ensures Follows(r, Leave(r, id))
  {
    hide RoomInv;
    LeaveKeepsInv(r, id);
    CoresFollow(r, Leave(r, id));
  }

  lemma WireFollows(r: Room, id: Id, drain: bool)
    requires RoomInv(r) && id in r.participants
    requires drain ==> r.participants[id].drained < |r.participants[id].sent|
    ensures Follows(r, Transport(r, id, drain))
  {
    hide RoomInv;
    TransportKeepsInv(r, id, drain);
    CoresFollow(r, Transport(r, id, drain));
  }

  lemma PutKeepsInv(b: Broker, code: Code, r: Room)
    requires Inv(b) && code in b.meetings && Follows(RoomOf(b, code), r)
    ensures Inv(Put(b, code, r))
  {
    hide RoomInv;
    var b' := Put(b, code, r);
    forall c | c in b'.meetings ensures RoomInv(RoomOf(b', c)) && Issued(RoomOf(b', c), b'.joins, b'.used) {
      assert c != code ==> RoomOf(b', c) == RoomOf(b, c);
    }
  }

  lemma PutJoinedKeepsInv(b: Broker, code: Code, r: Room, id: Id)
    requires Inv(b) && code in b.meetings && RoomInv(r) && Issued(r, b.joins + 1, b.used + {id})
    ensures Inv(Put(b, code, r).(joins := b.joins + 1, used := b.used + {id}))
  {
    hide RoomInv;
    hide Issued;
    var b' := Put(b, code, r).(joins := b.joins + 1, used := b.used + {id});
    forall c | c in b'.meetings ensures RoomInv(RoomOf(b', c)) && Issued(RoomOf(b', c), b'.joins, b'.used) {
      if c != code {
        assert RoomOf(b', c) == RoomOf(b, c);
        StillIssued(RoomOf(b, c), b.joins, b.used, id);
      }
    }
  }

  lemma EnterKeepsInv(b: Broker, s: Step)
    requires Inv(b) && s.Enter? && Possible(b, s) && Admitted(b, s.code, s.action, s.device, s.now)
    ensures Inv(Apply(b, s))
    ensures var r, p := RoomOf(b, s.code), Newly(b, s);
            Newcomer(r, p) && Cores(RoomOf(Apply(b, s), s.code)) == Cores(r)[p.id := CoreOf(p)]
  {
    hide RoomInv;
    var r, p := RoomOf(b, s.code), Newly(b, s);
    var topic := b.meetings[s.code].topic;
    assert Issued(r, b.joins, b.used);
    assert Newcomer(r, p);
    assert p.id == s.id && p.joined == b.joins + 1;
    JoinKeepsInv(r, p, topic, s.order);
    hide Newcomer;
    hide Newly;
    hide Join;
    hide Cores;
    hide CoreOf;
    hide Admitted;
    var r' := Join(r, p, topic, s.order);
    JoinerIssued(r, r', p, b.joins, b.used);
    hide Issued;
    PutJoinedKeepsInv(b, s.code, r', s.id);
    assert Apply(b, s) == Put(b, s.code, r').(joins := b.joins + 1, used := b.used + {s.id});
  }

  lemma StillIssued(r: Room, joins: nat, used: set<Id>, id: Id)
    requires Issued(r, joins, used)
    ensures Issued(r, joins + 1, used + {id})
  {
  }

  lemma JoinerIssued(r: Room, r': Room, p: Participant, joins: nat, used: set<Id>)
    requires Issued(r, joins, used) && p.joined == joins + 1 && Cores(r') == Cores(r)[p.id := CoreOf(p)]
    ensures Issued(r', joins + 1, used + {p.id})
  {
    forall id | id in r'.participants
      ensures id in used + {p.id} && r'.participants[id].joined <= joins + 1
    {
      assert id in Cores(r');
    }
  }

  /** Meetings that go take their device's entry with them, and no other. */
  lemma RemoveCodeKeepsInv(b: Broker, code: Code)
    requires Inv(b)
    ensures Inv(RemoveCode(b, code))
  {
    hide RoomInv;
    hide Issued;
  }

  lemma RemoveDeviceKeepsInv(b: Broker, device: Device)
    requires Inv(b)
    ensures Inv(RemoveDevice(b, device)) && device !in RemoveDevice(b, device).devices
  {
    hide RoomInv;
    hide Issued;
  }

  lemma CleanupKeepsInv(b: Broker, now: int)
    requires Inv(b)
    ensures Inv(CleanupAt(b, now))
    ensures forall c :: c in CleanupAt(b, now).meetings <==> c in b.meetings && b.meetings[c].expires > now
  {
    hide RoomInv;
    hide Issued;
  }

  lemma AddKeepsInv(b: Broker, code: Code, device: Device, topic: string, expires: int)
    requires Inv(b) && code != NO_CODE && code !in b.meetings && device !in b.devices
    ensures Inv(Add(b, code, device, topic, expires))
  {
    EmptyRoomInv();
    hide RoomInv;
    assert Issued(EMPTY_ROOM, b.joins, b.used);
    hide Issued;
    var b' := Add(b, code, device, topic, expires);
    forall c | c in b'.meetings ensures RoomInv(RoomOf(b', c)) && Issued(RoomOf(b', c), b'.joins, b'.used) {
      if c != code {
        assert RoomOf(b', c) == RoomOf(b, c);
      }
    }
  }

  lemma OpenKeepsInv(b: Broker, s: Step)
    requires Inv(b) && s.Open? && Possible(b, s)
    ensures Inv(Apply(b, s))
  {
    CleanupKeepsInv(b, s.now);
    var b0 := CleanupAt(b, s.now);
    hide CleanupAt;
    RemoveDeviceKeepsInv(b0, s.device);
    var b1 := RemoveDevice(b0, s.device);
    hide RemoveDevice;
    hide Inv;
    hide Add;
    if s.code != NO_CODE {
      AddKeepsInv(b1, s.code, s.device, s.topic, s.expires);
    }
  }

  lemma EmptyRoomInv()
    ensures RoomInv(EMPTY_ROOM)
  {
    assert Cores(EMPTY_ROOM).Keys == {};
  }

  lemma ReactFollows(r: Room, id: Id, request: Request)
    requires RoomInv(r) && id in r.participants
    ensures React(r, id, request).Change? ==> Follows(r, React(r, id, request).room)
  {
    hide Follows;
    hide RoomInv;
    hide QueueTo;
    hide ApplyState;
    hide Transfer;
    hide Kick;
    hide ValidSignal;
    match request
    case Ping => AsideFollows(r, id, Pong);
    case SendSignal(to, signal, sdp, candidate) =>
      if to in r.participants {
        AsideFollows(r, to, Signal(id, signal, sdp, candidate));
      }
    case SetState(flags) => StateFollows(r, id, flags);
    case TransferTo(to) =>
      if MayTransfer(r, id, to) {
        TransferFollows(r, id, to);
      }
    case KickOut(to) =>
      if to in r.participants {
        KickFollows(r, to);
      }
    case End =>
    case Other =>
  }

  /** Only the host hands its role over, bars a device or ends the meeting; and nobody changes another's flags. */
  lemma {:induction false} OnlyTheHostDecides(r: Room, id: Id, request: Request)
    requires RoomInv(r) && id in r.participants
    ensures React(r, id, request).EndMeeting? ==> r.host == id
    ensures React(r, id, request).Change? ==>
              var r' := React(r, id, request).room;
              && (r'.host != r.host ==> r.host == id && request == TransferTo(r'.host) && r'.host in r.participants)
              && (r'.removed != r.removed ==>
                    r.host == id && request.KickOut? && request.to in r.participants && request.to != id
                    && r'.removed == r.removed + {r.participants[request.to].device})
              && (forall other :: other in r.participants && other != id ==>
                    other in r'.participants && r'.participants[other].flags == r.participants[other].flags)
  {
    if React(r, id, request).Change? {
      ReactKeepsFlags(r, id, request);
    }
    hide RoomInv;
    hide Queue;
    hide ValidSignal;
  }

  lemma ReactKeepsFlags(r: Room, id: Id, request: Request)
    requires id in r.participants && React(r, id, request).Change?
    ensures var r' := React(r, id, request).room;
            forall other :: other in r.participants && other != id ==>
              other in r'.participants && r'.participants[other].flags == r.participants[other].flags
  {
    hide ValidSignal;
  }

  lemma TalkKeepsInv(b: Broker, code: Code, id: Id, request: Request)
    requires Inv(b) && InRoom(b, code, id)
    ensures Inv(Answer(b, code, id, request))
  {
    hide RoomInv;
    hide Follows;
    hide React;
    hide Put;
    hide Issued;
    hide RemoveCode;
    ReactFollows(RoomOf(b, code), id, request);
    RemoveCodeKeepsInv(b, code);
    if React(RoomOf(b, code), id, request).Change? {
      PutKeepsInv(b, code, React(RoomOf(b, code), id, request).room);
    }
  }

  lemma {:induction false} StepKeepsInv(b: Broker, s: Step)
    requires Inv(b) && Possible(b, s)
    ensures Inv(Apply(b, s))
  {
    hide Inv;
    hide Follows;
    hide Put;
    hide RoomInv;
    match s
    case Open(_, _, _, _, _) => OpenKeepsInv(b, s);
    case Close(device) => RemoveDeviceKeepsInv(b, device);
    case Cleanup(now) => CleanupKeepsInv(b, now);
    case Enter(code, action, device, _, now, _, _, _) =>
      if Admitted(b, code, action, device, now) {
        EnterKeepsInv(b, s);
      }
    case Talk(code, id, request) =>
      if InRoom(b, code, id) {
        TalkKeepsInv(b, code, id, request);
      }
    case Quit(code, id) =>
      if InRoom(b, code, id) {
        RoomFits(b, code);
        LeaveFollows(RoomOf(b, code), id);
        PutKeepsInv(b, code, Leave(RoomOf(b, code), id));
      }
    case Wire(code, id, drain) =>
      RoomFits(b, code);
      WireFollows(RoomOf(b, code), id, drain);
      PutKeepsInv(b, code, Transport(RoomOf(b, code), id, drain));
  }

  lemma RoomFits(b: Broker, code: Code)
    requires Inv(b) && code in b.meetings
    ensures RoomInv(RoomOf(b, code))
  {
  }

  /** Over every run the meetings and their devices stay inverse, and every room keeps its invariant. */
  lemma {:induction false} RunKeepsInv(steps: seq<Step>)
    ensures Inv(Run(START, steps))
  {
    if steps != [] {
      RunKeepsInv(steps[..|steps| - 1]);
      var before := Run(START, steps[..|steps| - 1]);
      if Possible(before, steps[|steps| - 1]) {
        StepKeepsInv(before, steps[|steps| - 1]);
      }
    }
  }

  /** Every participant that is not closed pictures its room exactly as the broker knows it; the host is set just
      when the room has participants and is one of them; no device is in the room twice; nobody but the host shares
      or records; no channel holds more than it can. */
  lemma {:induction false} RoomsInEveryRun(steps: seq<Step>, code: Code)
    requires code in Run(START, steps).meetings
    ensures var r := RoomOf(Run(START, steps), code);
            && (forall id :: id in r.participants && !r.participants[id].closed ==> Fold(r.participants[id].sent) == Roster(r))
            && (r.host == NOBODY <==> r.participants.Keys == {}) && (r.host != NOBODY ==> r.host in r.participants)
            && (forall a, b :: a in r.participants && b in r.participants && a != b ==>
                  r.participants[a].device != r.participants[b].device)
            && (forall id :: id in r.participants && id != r.host ==>
                  !r.participants[id].flags.screen && !r.participants[id].flags.recording)
            && (forall id :: id in r.participants ==> |r.participants[id].sent| - r.participants[id].drained <= SEND_CAPACITY)
  {
    RunKeepsInv(steps);
    RoomFits(Run(START, steps), code);
    Unfold(RoomOf(Run(START, steps), code));
  }

  lemma Unfold(r: Room)
    requires RoomInv(r)
    ensures forall id :: id in r.participants && !r.participants[id].closed ==> Fold(r.participants[id].sent) == Roster(r)
    ensures (r.host == NOBODY <==> r.participants.Keys == {}) && (r.host != NOBODY ==> r.host in r.participants)
    ensures forall a, b :: a in r.participants && b in r.participants && a != b ==>
              r.participants[a].device != r.participants[b].device
    ensures forall id :: id in r.participants && id != r.host ==>
              !r.participants[id].flags.screen && !r.participants[id].flags.recording
    ensures forall id :: id in r.participants ==> |r.participants[id].sent| - r.participants[id].drained <= SEND_CAPACITY
  {
    hide Fold;
    hide Roster;
    assert Cores(r).Keys == r.participants.Keys;
    forall id | id in r.participants
      ensures CoreOf(r.participants[id]) == Cores(r)[id]
      ensures id != r.host ==> Plain(Cores(r)[id])
    {
      assert id in Cores(r);
    }
  }

  // ---- a removed device stays out ----

  /** The conference of the meeting is there. */
  predicate Alive(b: Broker, code: Code) {
    code in b.meetings && b.meetings[code].conference.Some?
  }

  lemma FollowsBars(r: Room, r': Room, d: Device)
    requires Follows(r, r') && !HasDevice(r, d)
    ensures !HasDevice(r', d)
  {
    hide RoomInv;
  }

  lemma SurvivorsUnchanged(b: Broker, code: Code, c: Code, device: Device, now: int)
    ensures Alive(RemoveCode(b, c), code) ==> code in b.meetings && RoomOf(RemoveCode(b, c), code) == RoomOf(b, code)
    ensures Alive(RemoveDevice(b, device), code) ==> code in b.meetings && RoomOf(RemoveDevice(b, device), code) == RoomOf(b, code)
    ensures Alive(CleanupAt(b, now), code) ==> code in b.meetings && RoomOf(CleanupAt(b, now), code) == RoomOf(b, code)
  {
  }

  lemma OpenUnchanged(b: Broker, s: Step, code: Code)
    requires s.Open? && Possible(b, s) && Alive(Apply(b, s), code)
    ensures code in b.meetings && RoomOf(Apply(b, s), code) == RoomOf(b, code)
  {
    var b0 := CleanupAt(b, s.now);
    SurvivorsUnchanged(b, code, 0, 0, s.now);
    SurvivorsUnchanged(b0, code, 0, s.device, 0);
    hide CleanupAt;
    hide RemoveDevice;
    var b1 := RemoveDevice(b0, s.device);
    assert s.code == NO_CODE || s.code != code;
    assert Alive(b1, code);
  }

  /** A step that leaves the meeting and its room in place changes the room as Follows says, or admits one more. */
  lemma PutOne(b: Broker, c: Code, r: Room, code: Code)
    requires c in b.meetings && code in b.meetings
    ensures code in Put(b, c, r).meetings && RoomOf(Put(b, c, r), code) == if c == code then r else RoomOf(b, code)
  {
  }

  lemma EnterPut(b: Broker, s: Step)
    requires s.Enter? && Possible(b, s) && Admitted(b, s.code, s.action, s.device, s.now)
    ensures var b1 := Put(b, s.code, Join(RoomOf(b, s.code), Newly(b, s), b.meetings[s.code].topic, s.order));
            Apply(b, s).meetings == b1.meetings
  {
  }

  lemma TalkAfter(b: Broker, s: Step, code: Code)
    requires Inv(b) && s.Talk? && Alive(b, code) && Alive(Apply(b, s), code)
    ensures RoomOf(Apply(b, s), code) == RoomOf(b, code) || Follows(RoomOf(b, code), RoomOf(Apply(b, s), code))
  {
    RoomFits(b, code);
    hide Inv;
    hide Follows;
    hide RoomInv;
    hide React;
    hide Put;
    hide RemoveCode;
    hide RoomOf;
    if InRoom(b, s.code, s.id) {
      SurvivorsUnchanged(b, code, s.code, 0, 0);
      RoomHas(b, s.code, s.id);
      if React(RoomOf(b, s.code), s.id, s.request).Change? {
        PutOne(b, s.code, React(RoomOf(b, s.code), s.id, s.request).room, code);
        if s.code == code {
          ReactFollows(RoomOf(b, code), s.id, s.request);
        }
      }
    }
  }

  lemma RoomHas(b: Broker, code: Code, id: Id)
    requires InRoom(b, code, id)
    ensures id in RoomOf(b, code).participants
  {
  }

  lemma {:induction false} RoomAfter(b: Broker, s: Step, code: Code)
    requires Inv(b) && Possible(b, s) && Alive(b, code) && Alive(Apply(b, s), code)
    ensures var r, r' := RoomOf(b, code), RoomOf(Apply(b, s), code);
            || r' == r || Follows(r, r')
            || (s.Enter? && Admitted(b, code, s.action, s.device, s.now) && Join.requires(r, Newly(b, s), b.meetings[code].topic, s.order)
                && r' == Join(r, Newly(b, s), b.meetings[code].topic, s.order))
  {
    RoomFits(b, code);
    hide Follows;
    hide RoomInv;
    hide Inv;
    hide Join;
    hide Leave;
    hide React;
    hide Transport;
    hide Put;
    hide RoomOf;
    match s
    case Open(_, _, _, _, _) => OpenUnchanged(b, s, code);
    case Close(device) => SurvivorsUnchanged(b, code, 0, device, 0);
    case Cleanup(now) => SurvivorsUnchanged(b, code, 0, 0, now);
    case Enter(c, action, device, _, now, _, _, order) =>
      if Admitted(b, c, action, device, now) {
        PutOne(b, c, Join(RoomOf(b, c), Newly(b, s), b.meetings[c].topic, order), code);
        EnterPut(b, s);
      }
    case Talk(c, id, request) => TalkAfter(b, s, code);
    case Quit(c, id) =>
      if InRoom(b, c, id) {
        PutOne(b, c, Leave(RoomOf(b, c), id), code);
        if c == code {
          LeaveFollows(RoomOf(b, c), id);
        }
      }
    case Wire(c, id, drain) =>
      PutOne(b, c, Transport(RoomOf(b, c), id, drain), code);
      if c == code {
        WireFollows(RoomOf(b, c), id, drain);
      }
  }

  lemma {:induction false} StepKeepsBarred(b: Broker, s: Step, code: Code, d: Device)
    requires Inv(b) && Possible(b, s) && Alive(b, code) && Alive(Apply(b, s), code) && d in RoomOf(b, code).removed
    ensures d in RoomOf(Apply(b, s), code).removed
    ensures !HasDevice(RoomOf(b, code), d) ==> !HasDevice(RoomOf(Apply(b, s), code), d)
  {
    var r, r' := RoomOf(b, code), RoomOf(Apply(b, s), code);
    RoomAfter(b, s, code);
    hide RoomInv;
    hide Apply;
    hide Possible;
    if r' != r && !Follows(r, r') {
      JoinBars(r, Newly(b, s), b.meetings[code].topic, s.order, d);
    } else if r' != r && !HasDevice(r, d) {
      FollowsBars(r, r', d);
    }
  }

  lemma JoinBars(r: Room, p: Participant, topic: string, order: seq<Id>, d: Device)
    requires (forall id :: id in order ==> id in r.participants) && d in r.removed && p.device !in r.removed
    ensures d in Join(r, p, topic, order).removed
    ensures !HasDevice(r, d) ==> !HasDevice(Join(r, p, topic, order), d)
  {
  }

  /** While the conference lasts, a removed device stays removed, and once it is out it never gets back in. */
  lemma {:induction false} RemovedStaysOut(b: Broker, steps: seq<Step>, code: Code, d: Device)
    requires Inv(b) && Alive(b, code) && d in RoomOf(b, code).removed
    requires forall i :: 0 <= i <= |steps| ==> Alive(Run(b, steps[..i]), code)
    ensures Inv(Run(b, steps)) && Alive(Run(b, steps), code) && d in RoomOf(Run(b, steps), code).removed
    ensures !HasDevice(RoomOf(b, code), d) ==> !HasDevice(RoomOf(Run(b, steps), code), d)
  {
    hide Inv;
    hide Possible;
    hide Apply;
    assert steps[..|steps|] == steps;
    if steps != [] {
      var n := |steps| - 1;
      forall i | 0 <= i <= n ensures Alive(Run(b, steps[..n][..i]), code) {
        assert steps[..n][..i] == steps[..i];
      }
      RemovedStaysOut(b, steps[..n], code, d);
      var before := Run(b, steps[..n]);
      if Possible(before, steps[n]) {
        StepKeepsInv(before, steps[n]);
        StepKeepsBarred(before, steps[n], code, d);
      }
    }
  }
}
