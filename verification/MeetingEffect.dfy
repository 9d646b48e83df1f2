/** Who is let into a meeting, what opens and ends one, and why a participant's connection is given up: the locked sections of
  cmd/yudesk-relay/meeting.go and cmd/yudesk-relay/conference.go. */
module MeetingEffects {
  import opened Wrappers
  import opened Conferences
  import opened Meetings
  import opened ConferenceEffects

  // ---- why a channel closes ----

  /** What any step but the participant's own transport does to its channel: it only grows, and closes only when 64
      messages wait. */
  ghost predicate Channel(p: Participant, p': Participant) {
    && p'.drained == p.drained && p.sent <= p'.sent
    && (p.closed ==> p'.closed && p'.sent == p.sent)
    && (!p.closed && p'.closed ==> Waiting(p') == 64)
  }

  lemma GetsChannel(p: Participant, p': Participant, ms: seq<Message>)
    requires Gets(p, p', ms) && Fits(p)
    ensures Channel(p, p')
  {
  }

  ghost predicate Channels(r: Room, r': Room) {
    forall id :: id in r.participants && id in r'.participants ==> Channel(r.participants[id], r'.participants[id])
  }

  lemma AllGets(r: Room, r': Room)
    requires Bounded(r)
    requires forall id :: id in r.participants && id in r'.participants ==>
               r'.participants[id] == r.participants[id] || exists ms :: Gets(r.participants[id], r'.participants[id], ms)
    ensures Channels(r, r')
  {
    forall id | id in r.participants && id in r'.participants ensures Channel(r.participants[id], r'.participants[id]) {
      if r'.participants[id] != r.participants[id] {
        var ms :| Gets(r.participants[id], r'.participants[id], ms);
        GetsChannel(r.participants[id], r'.participants[id], ms);
      }
    }
    hide Gets;
  }

  lemma ReactChannels(r: Room, id: Id, request: Request)
    requires RoomInv(r) && id in r.participants && React(r, id, request).Change?
    ensures Channels(r, React(r, id, request).room)
  {
    hide RoomInv;
    hide React;
    hide Gets;
    hide Channels;
    hide ValidSignal;
    hide Bounded;
    FineRoom(r);
    ReactTells(r, id, request);
    AllGets(r, React(r, id, request).room);
  }

  lemma LeaveChannels(r: Room, id: Id)
    requires RoomInv(r) && id in r.participants
    ensures Channels(r, Leave(r, id))
  {
    hide RoomInv;
    hide Leave;
    hide Gets;
    hide Channels;
    hide Bounded;
    FineRoom(r);
    LeaveTells(r, id);
    AllGets(r, Leave(r, id));
  }

  lemma JoinChannels(r: Room, p: Participant, topic: string, order: seq<Id>)
    requires RoomInv(r) && p.id != NOBODY && p.id !in r.participants && p.sent == [] && p.drained == 0 && !p.closed
    requires forall id :: id in order <==> id in r.participants
    ensures Channels(r, Join(r, p, topic, order))
  {
    hide RoomInv;
    hide Join;
    hide Gets;
    hide Channels;
    hide Bounded;
    FineRoom(r);
    JoinTellsAll(r, p, topic, order);
    AllGets(r, Join(r, p, topic, order));
  }

  lemma SameChannels(r: Room)
    ensures Channels(r, r)
  {
  }

  lemma TalkChannels(b: Broker, s: Step, code: Code)
    requires Inv(b) && s.Talk? && Alive(b, code) && Alive(Apply(b, s), code)
    ensures Channels(RoomOf(b, code), RoomOf(Apply(b, s), code))
  {
    RoomFits(b, code);
    SameChannels(RoomOf(b, code));
    hide Inv;
    hide RoomInv;
    hide Channels;
    hide React;
    hide Put;
    hide RemoveCode;
    hide RoomOf;
    if InRoom(b, s.code, s.id) {
      SurvivorsUnchanged(b, code, s.code, 0, 0);
      RoomHas(b, s.code, s.id);
      if React(RoomOf(b, s.code), s.id, s.request).Change? {
        PutOne(b, s.code, React(RoomOf(b, s.code), s.id, s.request).room, code);
        if s.code == code {
          ReactChannels(RoomOf(b, code), s.id, s.request);
        }
      }
    }
  }

  lemma EnterChannels(b: Broker, s: Step, code: Code)
    requires Inv(b) && s.Enter? && Possible(b, s) && Alive(b, code)
    ensures Channels(RoomOf(b, code), RoomOf(Apply(b, s), code))
  {
    RoomFits(b, code);
    SameChannels(RoomOf(b, code));
    if Admitted(b, s.code, s.action, s.device, s.now) {
      assert Issued(RoomOf(b, s.code), b.joins, b.used);
      hide RoomInv;
      hide Channels;
      PutOne(b, s.code, Join(RoomOf(b, s.code), Newly(b, s), b.meetings[s.code].topic, s.order), code);
      EnterPut(b, s);
      if s.code == code {
        JoinChannels(RoomOf(b, code), Newly(b, s), b.meetings[code].topic, s.order);
      }
    }
    hide Inv;
    hide RoomInv;
    hide Channels;
    hide Join;
    hide Put;
  }

  /** In every step a participant's channel changes by what it is told alone, and its own transport alone takes from it: who
      is open is closed only by its own connection, or with 64 messages waiting. */
  lemma {:induction false} StepCloses(b: Broker, s: Step, code: Code, id: Id)
    requires Inv(b) && Possible(b, s) && InRoom(b, code, id) && InRoom(Apply(b, s), code, id)
    ensures var p, p' := RoomOf(b, code).participants[id], RoomOf(Apply(b, s), code).participants[id];
            if s == Wire(code, id, true) then p' == p.(drained := p.drained + 1)
            else if s == Wire(code, id, false) then p' == p.(closed := true)
            else Channel(p, p')
  {
    RoomFits(b, code);
    SameChannels(RoomOf(b, code));
    hide RoomInv;
    hide Inv;
    hide Join;
    hide Leave;
    hide React;
    hide Channel;
    match s
    case Open(_, _, _, _, _) => OpenUnchanged(b, s, code);
    case Close(device) => SurvivorsUnchanged(b, code, 0, device, 0);
    case Cleanup(now) => SurvivorsUnchanged(b, code, 0, 0, now);
    case Enter(_, _, _, _, _, _, _, _) => EnterChannels(b, s, code);
    case Talk(_, _, _) => TalkChannels(b, s, code);
    case Quit(c, other) =>
      if InRoom(b, c, other) {
        PutOne(b, c, Leave(RoomOf(b, c), other), code);
        if c == code {
          LeaveChannels(RoomOf(b, c), other);
        }
      }
    case Wire(c, other, drain) =>
      PutOne(b, c, Transport(RoomOf(b, c), other, drain), code);
  }

  ghost predicate IsOpen(b: Broker, code: Code, id: Id) {
    InRoom(b, code, id) && !RoomOf(b, code).participants[id].closed
  }

  /** The participant is there and its writer keeps up. */
  ghost predicate KeepsUp(b: Broker, code: Code, id: Id) {
    InRoom(b, code, id) && Waiting(RoomOf(b, code).participants[id]) < 64
  }

  lemma StepStaysOpen(b: Broker, s: Step, code: Code, id: Id)
    requires Inv(b) && Possible(b, s) && s != Wire(code, id, false)
    requires IsOpen(b, code, id) && KeepsUp(Apply(b, s), code, id)
    ensures IsOpen(Apply(b, s), code, id)
  {
    StepCloses(b, s, code, id);
    hide Inv;
    hide Possible;
    hide Apply;
  }

  /** A participant whose connection is not closed and whose writer keeps its channel from filling up stays open, so its
      picture of the room is exact, however long the run. */
  lemma {:induction false} StaysOpen(b: Broker, steps: seq<Step>, code: Code, id: Id)
    requires Inv(b) && IsOpen(b, code, id)
    requires forall i :: 0 <= i <= |steps| ==> KeepsUp(Run(b, steps[..i]), code, id)
    requires forall i :: 0 <= i < |steps| ==> steps[i] != Wire(code, id, false)
    ensures Inv(Run(b, steps)) && IsOpen(Run(b, steps), code, id)
    ensures var r := RoomOf(Run(b, steps), code); id in r.participants && Fold(r.participants[id].sent) == Roster(r)
    decreases |steps|
  {
    hide *;
    Begins(b, steps);
    if steps != [] {
      var n := |steps| - 1;
      assert steps[..|steps|] == steps;
      forall i | 0 <= i <= n ensures KeepsUp(Run(b, steps[..n][..i]), code, id) {
        assert steps[..n][..i] == steps[..i];
      }
      StaysOpen(b, steps[..n], code, id);
      if Possible(Run(b, steps[..n]), steps[n]) {
        StepKeepsInv(Run(b, steps[..n]), steps[n]);
        StepStaysOpen(Run(b, steps[..n]), steps[n], code, id);
      }
    }
    OpenPictured(Run(b, steps), code, id);
  }

  lemma Begins(b: Broker, steps: seq<Step>)
    ensures steps == [] ==> Run(b, steps) == b
    ensures steps != [] ==>
              var before, s := Run(b, steps[..|steps| - 1]), steps[|steps| - 1];
              Run(b, steps) == if Possible(before, s) then Apply(before, s) else before
  {
    hide Possible;
    hide Apply;
  }

  lemma OpenPictured(b: Broker, code: Code, id: Id)
    requires Inv(b) && IsOpen(b, code, id)
    ensures var r := RoomOf(b, code); id in r.participants && Fold(r.participants[id].sent) == Roster(r)
  {
    Pictured(b, code, id);
    hide Inv;
    hide Fold;
    hide Roster;
  }

  lemma Pictured(b: Broker, code: Code, id: Id)
    requires Inv(b) && InRoom(b, code, id)
    ensures id in RoomOf(b, code).participants
    ensures !RoomOf(b, code).participants[id].closed ==> Fold(RoomOf(b, code).participants[id].sent) == Roster(RoomOf(b, code))
  {
    RoomFits(b, code);
    Unfold(RoomOf(b, code));
    hide Fold;
    hide Roster;
    hide RoomInv;
  }

  // ---- who is let in ----

  /** The meeting has not expired, the device is not in the room and was not removed from it, and either the meeting is its
      own and it comes to host, or it comes to join and there is someone to join. */
  ghost predicate LetIn(b: Broker, s: Step)
    requires s.Enter?
  {
    && s.code in b.meetings && s.now < b.meetings[s.code].expires
    && (var r := RoomOf(b, s.code);
        && (forall id :: id in r.participants ==> r.participants[id].device != s.device)
        && s.device !in r.removed
        && (if s.action == HostIn then s.device == b.meetings[s.code].device else r.participants.Keys != {}))
  }

  lemma LetInAdmits(b: Broker, s: Step)
    requires Inv(b) && s.Enter? && Possible(b, s)
    ensures LetIn(b, s) <==> Admitted(b, s.code, s.action, s.device, s.now)
    ensures LetIn(b, s) ==> s.code in b.meetings
    ensures s.code in b.meetings ==> s.id !in RoomOf(b, s.code).participants && RoomInv(RoomOf(b, s.code))
  {
    if s.code in b.meetings {
      RoomFits(b, s.code);
      HostOrNobody(RoomOf(b, s.code));
      assert Issued(RoomOf(b, s.code), b.joins, b.used);
    }
    hide RoomInv;
  }

  /** What letting someone in makes of the room. */
  ghost predicate Entered(r: Room, r': Room, s: Step)
    requires s.Enter?
  {
    && s.id !in r.participants && r'.participants.Keys == r.participants.Keys + {s.id}
    && r'.host == (if r.participants.Keys == {} then s.id else r.host) && r'.removed == r.removed
    && (var p := r'.participants[s.id];
        p.device == s.device && p.name == s.name && p.flags == Flags(false, false, false, false) && !p.closed && Waiting(p) == 1)
    && forall id :: id in r.participants ==>
         && r'.participants[id].device == r.participants[id].device
         && (Waiting(r.participants[id]) < 64 ==> r'.participants[id].closed == r.participants[id].closed)
  }

  /** A step lets a participant in exactly if that is so; then it starts with an open channel and everything off, and hosts a
      room that was empty.  Otherwise nothing changes. */
  lemma {:induction false} LetInExactly(b: Broker, s: Step)
    requires Inv(b) && s.Enter? && Possible(b, s)
    ensures var b' := Apply(b, s);
            if LetIn(b, s) then
              && InRoom(b', s.code, s.id) && Entered(RoomOf(b, s.code), RoomOf(b', s.code), s)
              && b'.meetings == b.meetings[s.code := b.meetings[s.code].(conference := Some(RoomOf(b', s.code)))]
            else b' == b
  {
    hide Inv;
    hide LetIn;
    hide RoomInv;
    hide Admitted;
    hide Join;
    hide Newly;
    hide Entered;
    LetInAdmits(b, s);
    if LetIn(b, s) {
      JoinEnters(b, s);
      EnterPut(b, s);
    }
  }

  lemma JoinEnters(b: Broker, s: Step)
    requires Inv(b) && s.Enter? && Possible(b, s) && s.code in b.meetings
    ensures var r := RoomOf(b, s.code); var r' := Join(r, Newly(b, s), b.meetings[s.code].topic, s.order);
            Entered(r, r', s) && s.id in r'.participants
  {
    hide Inv;
    hide LetIn;
    hide Admitted;
    hide RoomInv;
    hide RoomOf;
    hide Join;
    LetInAdmits(b, s);
    JoinTellsAll(RoomOf(b, s.code), Newly(b, s), b.meetings[s.code].topic, s.order);
  }

  /** Opening a meeting ends the device's former one and the expired ones, and nothing else. */
  lemma {:induction false} OpensExactly(b: Broker, s: Step, code: Code)
    requires Inv(b) && s.Open? && Possible(b, s)
    ensures var b' := Apply(b, s);
            if code == s.code && s.code != NO_CODE then
              code in b'.meetings && b'.meetings[code] == Meeting(s.device, s.topic, s.expires, None) && s.device in b'.devices && b'.devices[s.device] == code
            else
              && (code in b'.meetings <==> code in b.meetings && b.meetings[code].expires > s.now && b.meetings[code].device != s.device)
              && (code in b'.meetings ==> b'.meetings[code] == b.meetings[code])
  {
    hide RoomsInv;
  }

  /** A meeting that its host ends, that its device gives up or that has expired is gone, with the device's entry, and every
      other one stays as it is.  Who leaves a conference leaves the meeting itself. */
  lemma {:induction false} EndsExactly(b: Broker, s: Step, code: Code)
    requires Inv(b) && Possible(b, s) && code in b.meetings && (s.Close? || s.Cleanup? || s.Quit? || (s.Talk? && s.request == End))
    ensures var b' := Apply(b, s); var m := b.meetings[code];
            var ends := match s
                        case Close(device) => m.device == device
                        case Cleanup(now) => m.expires <= now
                        case Talk(c, id, _) => c == code && InRoom(b, code, id) && RoomOf(b, code).host == id
                        case _ => false;
            && (code in b'.meetings <==> !ends) && (m.device in b'.devices <==> !ends)
            && (!ends && !(s.Quit? && s.code == code) ==> b'.meetings[code] == m)
            && (!ends ==> b'.devices[m.device] == code && b'.meetings[code].(conference := m.conference) == m)
  {
    hide RoomsInv;
    hide Leave;
  }

  /** A participant's message and its departure act on its own room, as its reaction says, and on no other. */
  lemma {:induction false} ActsExactly(b: Broker, s: Step, code: Code)
    requires Inv(b) && (s.Talk? || s.Quit?) && InRoom(b, s.code, s.id) && code in b.meetings
    ensures code != s.code ==> code in Apply(b, s).meetings && Apply(b, s).meetings[code] == b.meetings[code]
    ensures s.Quit? ==> s.code in Apply(b, s).meetings && RoomOf(Apply(b, s), s.code) == Leave(RoomOf(b, s.code), s.id) && !InRoom(Apply(b, s), s.code, s.id)
    ensures s.Talk? ==>
              var reaction := React(RoomOf(b, s.code), s.id, s.request);
              if reaction.Change? then s.code in Apply(b, s).meetings && RoomOf(Apply(b, s), s.code) == reaction.room
              else if reaction == EndMeeting then s.code !in Apply(b, s).meetings
              else Apply(b, s) == b
  {
    hide RoomsInv;
    hide React;
    if s.Quit? {
      RoomFits(b, s.code);
      LeaveTells(RoomOf(b, s.code), s.id);
    }
    hide Leave;
    hide RoomInv;
  }

  /** One participant is alone in its room, hosts it and has just been welcomed. */
  ghost predicate Hosted(b: Broker, code: Code, id: Id) {
    && IsOpen(b, code, id)
    && (var r := RoomOf(b, code);
        && r.host == id && r.participants.Keys == {id} && r.removed == {}
        && r.participants[id].device == b.meetings[code].device && Waiting(r.participants[id]) == 1)
  }

  /** Two are in the room, the first hosts it, and each pictures it as it is. */
  ghost predicate Together(b: Broker, code: Code, id: Id, guest: Id) {
    && id != guest && IsOpen(b, code, id) && IsOpen(b, code, guest)
    && (var r := RoomOf(b, code);
        && r.host == id && r.participants.Keys == {id, guest}
        && Fold(r.participants[id].sent) == Roster(r) && Fold(r.participants[guest].sent) == Roster(r))
  }

  lemma HostComes(b: Broker, s: Step)
    requires Inv(b) && s.Enter? && Possible(b, s) && s.action == HostIn && s.code in b.meetings
    requires s.device == b.meetings[s.code].device && s.now < b.meetings[s.code].expires && b.meetings[s.code].conference == None
    ensures var b' := Apply(b, s);
            && Inv(b') && Hosted(b', s.code, s.id) && s.code in b'.meetings
            && b'.meetings[s.code].device == b.meetings[s.code].device && b'.meetings[s.code].expires == b.meetings[s.code].expires
  {
    hide Inv;
    hide Possible;
    hide Apply;
    LetInExactly(b, s);
    StepKeepsInv(b, s);
  }

  lemma GuestComes(b: Broker, id: Id, s: Step)
    requires Inv(b) && s.Enter? && Possible(b, s) && s.action == JoinIn && Hosted(b, s.code, id)
    requires s.device != b.meetings[s.code].device && s.now < b.meetings[s.code].expires
    ensures Together(Apply(b, s), s.code, id, s.id)
  {
    GuestJoins(b, id, s);
    StepKeepsInv(b, s);
    OpenPictured(Apply(b, s), s.code, id);
    OpenPictured(Apply(b, s), s.code, s.id);
    hide *;
  }

  lemma GuestJoins(b: Broker, id: Id, s: Step)
    requires Inv(b) && s.Enter? && Possible(b, s) && s.action == JoinIn && Hosted(b, s.code, id)
    requires s.device != b.meetings[s.code].device && s.now < b.meetings[s.code].expires
    ensures var b' := Apply(b, s);
            && id != s.id && IsOpen(b', s.code, id) && IsOpen(b', s.code, s.id)
            && RoomOf(b', s.code).host == id && RoomOf(b', s.code).participants.Keys == {id, s.id}
  {
    hide Inv;
    hide Possible;
    hide Apply;
    LetInExactly(b, s);
  }

  /** A device that opens a meeting and comes to host it does host it, and another device that comes in before it expires is
      then in the room with it, and both are told so. */
  lemma {:induction false} MeetingMeets(b: Broker, open: Step, host: Step, guest: Step)
    requires Inv(b) && open.Open? && Possible(b, open) && open.code != NO_CODE
    requires host.Enter? && host.code == open.code && host.action == HostIn && host.device == open.device && host.now < open.expires
    requires Possible(Apply(b, open), host)
    requires guest.Enter? && guest.code == open.code && guest.action == JoinIn && guest.device != open.device && guest.now < open.expires
    requires Possible(Apply(Apply(b, open), host), guest)
    ensures Together(Apply(Apply(Apply(b, open), host), guest), open.code, host.id, guest.id)
  {
    hide *;
    OpensExactly(b, open, open.code);
    StepKeepsInv(b, open);
    HostComes(Apply(b, open), host);
    GuestComes(Apply(Apply(b, open), host), host.id, guest);
  }
}
