/** The conference room as the broker's mutable object: cmd/yudesk-relay/conference.go. */
module ConferenceObjects {
  import opened Conferences

  class Member {
    const id: Id
    const device: Device
    const name: string
    const joined: nat
    const joinedAt: int
    var microphone: bool
    var camera: bool
    var screen: bool
    var recording: bool
    /** Everything ever put into the send channel; the writer has taken the first drained ones. */
    var sent: seq<Message>
    var drained: nat
    var closed: bool

    constructor (id: Id, device: Device, name: string, joined: nat, joinedAt: int)
      ensures View() == Participant(id, device, name, joined, joinedAt, ALL_OFF, [], 0, false)
    {
      this.id, this.device, this.name, this.joined, this.joinedAt := id, device, name, joined, joinedAt;
      microphone, camera, screen, recording := false, false, false, false;
      sent, drained, closed := [], 0, false;
    }

    function Shows(): Flags
      reads this
    {
      Flags(microphone, camera, screen, recording)
    }

    function View(): Participant
      reads this
    {
      Participant(id, device, name, joined, joinedAt, Shows(), sent, drained, closed)
    }

    function Peer(host: Id): Peer
      reads this
    {
      PeerOf(View(), host)
    }

    /** queueConferenceLocked. */
    method Queue(m: Message)
      modifies `sent, `closed
      ensures View() == Conferences.Queue(old(View()), m)
    {
      if closed {
        return;
      }
      if |sent| - drained < SEND_CAPACITY {
        sent := sent + [m];
      } else {
        closed := true;
      }
    }

    method Show(flags: Flags)
      modifies `microphone, `camera, `screen, `recording
      ensures View() == old(View()).(flags := flags)
    {
      microphone, camera, screen, recording := flags.microphone, flags.camera, flags.screen, flags.recording;
    }
  }

  class ConferenceRoom {
    var participants: map<Id, Member>
    var removed: set<Device>
    var hostID: Id

    constructor ()
      ensures Valid() && View() == EMPTY_ROOM
    {
      participants, removed, hostID := map[], {}, NOBODY;
    }

    /** Participants are found under their own identifier, so no two entries are the same object. */
    ghost predicate Valid()
      reads this
    {
      forall id :: id in participants ==> participants[id].id == id && id != NOBODY
    }

    /** No two participants joined at the same time. */
    ghost predicate Apart()
      reads this
    {
      forall a, b :: a in participants && b in participants && a != b ==> participants[a].joined != participants[b].joined
    }

    ghost function View(): Room
      reads this, participants.Values
    {
      Room(map id | id in participants :: participants[id].View(), removed, hostID)
    }

    /** broadcastConferenceLocked. */
    method Broadcast(m: Message, except: Id)
      requires Valid()
      modifies participants.Values
      ensures View() == Conferences.Broadcast(old(View()), m, except)
    {
      hide Conferences.Queue;
      hide Member.View;
      var pending := participants.Keys;
      while pending != {}
        invariant pending <= participants.Keys
        invariant forall id :: id in participants ==>
          participants[id].View() ==
            if id in pending || id == except then old(participants[id].View())
            else Conferences.Queue(old(participants[id].View()), m)
        decreases |pending|
      {
        var id :| id in pending;
        if id != except {
          participants[id].Queue(m);
        }
        pending := pending - {id};
      }
    }

    /** A participant sets its flags, and everyone is told. */
    method Announce(p: Member, flags: Flags)
      requires Valid() && p.id in participants && participants[p.id] == p
      modifies participants.Values
      ensures View() == SetFlags(old(View()), p.id, flags)
    {
      p.Show(flags);
      assert View() == Flagged(old(View()), p.id, flags);
      Broadcast(State(p.id, flags), NOBODY);
    }

    method SetState(p: Member, flags: Flags)
      requires Valid() && p.id in participants && participants[p.id] == p
      modifies participants.Values
      ensures View() == ApplyState(old(View()), p.id, flags)
    {
      if hostID == p.id {
        Announce(p, flags);
      } else {
        Announce(p, flags.(screen := false, recording := false));
      }
    }

    method Transfer(p: Member, to: Id) returns (ok: bool)
      requires Valid() && p.id in participants && participants[p.id] == p
      modifies this, participants.Values
      ensures Valid()
      ensures ok == MayTransfer(old(View()), p.id, to)
      ensures View() == if ok then Conferences.Transfer(old(View()), p.id, to) else old(View())
    {
      if hostID != p.id || to !in participants || to == p.id {
        return false;
      }
      hide Conferences.Broadcast;
      hide SetFlags;
      assert View().participants[p.id].flags == p.Shows();
      hide ConferenceRoom.View;
      Announce(p, p.Shows().(screen := false, recording := false));
      SetHost(to);
      Broadcast(Host(hostID), NOBODY);
      ok := true;
    }

    method Kick(p: Member, to: Id) returns (ok: bool)
      requires Valid() && p.id in participants && participants[p.id] == p
      modifies this, participants.Values
      ensures Valid()
      ensures ok == (old(hostID) == p.id && to != p.id)
      ensures View() == if MayKick(old(View()), p.id, to) then Conferences.Kick(old(View()), to) else old(View())
    {
      if hostID != p.id || to == p.id {
        return false;
      }
      ok := true;
      if to in participants {
        removed := removed + {participants[to].device};
        participants[to].Queue(Removed);
      }
    }

    /** The participant goes; if it was the host, the loop finds the one that joined first. */
    method Leave(p: Member)
      requires Valid() && p.id in participants && participants[p.id] == p
      requires Apart()
      modifies this, participants.Values
      ensures Valid() && View() == Conferences.Leave(old(View()), p.id)
    {
      ghost var r := View();
      participants := participants - {p.id};
      assert View() == Without(r, p.id);
      Broadcast(PeerLeft(p.id), NOBODY);
      ghost var r1 := View();
      assert r1 == Conferences.Broadcast(Without(r, p.id), PeerLeft(p.id), NOBODY);
      if hostID == p.id {
        HandOver();
      }
    }

    /** The host has left: the loop finds the one that joined first. */
    method HandOver()
      requires Valid() && Apart()
      modifies this, participants.Values
      ensures Valid() && removed == old(removed) && participants == old(participants)
      ensures View() == HandedOver(old(View()))
    {
      hide Conferences.Broadcast;
      hide ConferenceRoom.View;
      hide Earliest;
      SetHost(NOBODY);
      var next := First();
      if next != NOBODY {
        SetHost(next);
        Broadcast(Host(next), NOBODY);
      }
    }

    method SetHost(to: Id)
      modifies `hostID
      ensures hostID == to && View() == old(View()).(host := to)
    {
      hide Member.View;
      hostID := to;
    }

    method First() returns (next: Id)
      requires Valid()
      requires Apart()
      ensures next == Earliest(View().participants)
    {
      next := NOBODY;
      var pending := participants.Keys;
      while pending != {}
        invariant pending <= participants.Keys
        invariant next == NOBODY <==> pending == participants.Keys
        invariant next != NOBODY ==> next in participants && forall id :: id in participants && id !in pending ==> participants[next].joined <= participants[id].joined
        decreases |pending|
      {
        var id :| id in pending;
        if next == NOBODY || participants[id].joined < participants[next].joined {
          next := id;
        }
        pending := pending - {id};
      }
      if next != NOBODY {
        EarliestUnique(View().participants, next);
      }
    }

    /** The section of handleConference that adds a participant and welcomes it. */
    method Join(p: Member, topic: string) returns (ghost order: seq<Id>)
      requires Valid() && p.id != NOBODY && p.id !in participants && p !in participants.Values
      modifies this, participants.Values, p
      ensures Valid() && participants == old(participants)[p.id := p]
      ensures forall id :: id in order <==> id in old(participants)
      ensures View() == Conferences.Join(old(View()), old(p.View()), topic, order)
    {
      hide Conferences.Broadcast;
      hide Conferences.Queue;
      hide Conferences.Join;
      hide Conferences.Peers;
      ghost var r, newcomer := View(), p.View();
      var peers;
      peers, order := List();
      Add(p);
      Broadcast(PeerJoined(p.id, p.name, p.joinedAt, hostID), p.id);
      ghost var r2 := View();
      Tell(p, Welcome(p.id, p.name, topic, p.joinedAt, hostID, peers));
      JoinParts(r, newcomer, topic, order, r2);
    }

    method Add(p: Member)
      requires Valid() && p.id != NOBODY && p.id !in participants && p !in participants.Values
      modifies this
      ensures Valid() && participants == old(participants)[p.id := p]
      ensures View() == Admit(old(View()), p.View()) && hostID == View().host
    {
      participants := participants[p.id := p];
      if hostID == NOBODY {
        hostID := p.id;
      }
    }

    /** One participant is sent a message. */
    method Tell(p: Member, m: Message)
      requires Valid() && p.id in participants && participants[p.id] == p
      modifies p
      ensures p.id in old(View()).participants && View() == QueueTo(old(View()), p.id, m)
    {
      hide Conferences.Queue;
      p.Queue(m);
    }

    method List() returns (peers: seq<Peer>, ghost order: seq<Id>)
      requires Valid()
      ensures forall id :: id in order <==> id in participants
      ensures peers == Peers(View(), order)
    {
      peers, order := [], [];
      var pending := participants.Keys;
      while pending != {}
        invariant pending <= participants.Keys
        invariant forall id :: id in order <==> id in participants && id !in pending
        invariant |peers| == |order|
        invariant forall i :: 0 <= i < |order| ==> peers[i] == PeerOf(View().participants[order[i]], hostID)
        decreases |pending|
      {
        var id :| id in pending;
        peers, order := peers + [participants[id].Peer(hostID)], order + [id];
        pending := pending - {id};
      }
    }

    /** closeConferenceLocked: everyone is told why, and nobody stays. */
    method Close(reason: string)
      requires Valid()
      modifies this, participants.Values
      ensures Valid() && View() == CloseRoom(old(View()))
      ensures forall id :: id in old(participants) ==>
                old(participants)[id].View() == Conferences.Queue(old(participants[id].View()), Ended(reason))
    {
      hide Conferences.Queue;
      Broadcast(Ended(reason), NOBODY);
      assert forall id :: id in participants ==> View().participants[id] == participants[id].View();
      participants, hostID := map[], NOBODY;
    }
  }

  lemma EarliestUnique(ps: map<Id, Participant>, next: Id)
    requires IsEarliest(ps, next)
    requires forall a, b :: a in ps && b in ps && a != b ==> ps[a].joined != ps[b].joined
    ensures Earliest(ps) == next
  {
    assert ps.Keys != {};
    assert IsEarliest(ps, Earliest(ps));
  }

  lemma JoinParts(r: Room, p: Participant, topic: string, order: seq<Id>, r2: Room)
    requires forall id :: id in order ==> id in r.participants
    requires p.id !in r.participants
    requires r2 == Broadcast(Admit(r, p), Joined(r, p), p.id)
    ensures p.id in r2.participants && QueueTo(r2, p.id, Welcomed(r, p, topic, order)) == Join(r, p, topic, order)
  {
    assert r2.participants[p.id] == p;
  }
}
