/** The broker's meeting tables as mutable maps: cmd/yudesk-relay/meeting.go. */
module MeetingDirectories {
  import opened Wrappers
  import opened Conferences
  import opened Meetings

  /** Without these meetings, and the entries of their devices that name them. */
  function Gone(b: Broker, gone: set<Code>): Broker {
    b.(meetings := b.meetings - gone,
       devices := map d | d in b.devices && !(b.devices[d] in gone && b.devices[d] in b.meetings && b.meetings[b.devices[d]].device == d) :: b.devices[d])
  }

  lemma NoneGone(b: Broker)
    ensures Gone(b, {}) == b
  {
    assert b.meetings - {} == b.meetings;
  }

  lemma StillThere(b: Broker, gone: set<Code>, code: Code)
    requires code in Gone(b, gone).meetings
    ensures code in b.meetings && code !in gone && Gone(b, gone).meetings[code] == b.meetings[code]
  {
  }

  lemma AllGone(b: Broker, gone: set<Code>, now: int)
    requires gone <= b.meetings.Keys && forall code :: code in b.meetings ==> (code in gone <==> b.meetings[code].expires <= now)
    ensures Gone(b, gone) == CleanupAt(b, now)
  {
    assert gone == Expired(b, now);
  }

  lemma OneMoreGone(b: Broker, gone: set<Code>, code: Code)
    requires code in b.meetings && code !in gone
    ensures var b1, d := Gone(b, gone), b.meetings[code].device;
            Gone(b, gone + {code}) ==
            b1.(meetings := b1.meetings - {code}, devices := if d in b1.devices && b1.devices[d] == code then b1.devices - {d} else b1.devices)
  {
    var b1, b2, d := Gone(b, gone), Gone(b, gone + {code}), b.meetings[code].device;
    assert b2.meetings == b1.meetings - {code};
    assert b2.devices == if d in b1.devices && b1.devices[d] == code then b1.devices - {d} else b1.devices;
  }

  class MeetingDirectory {
    var meetings: map<Code, Meeting>
    var meetingDevices: map<Device, Code>
    var conferenceSeq: nat
    ghost var used: set<Id>

    constructor ()
      ensures View() == START
    {
      meetings, meetingDevices, conferenceSeq, used := map[], map[], 0, {};
    }

    ghost function View(): Broker
      reads this
    {
      Broker(meetings, meetingDevices, conferenceSeq, used)
    }

    /** cleanupMeetingsLocked. */
    method Cleanup(now: int)
      modifies `meetings, `meetingDevices
      ensures View() == CleanupAt(old(View()), now)
    {
      hide Gone;
      hide Expired;
      hide CleanupAt;
      var pending := meetings.Keys;
      ghost var b := View();
      ghost var gone: set<Code> := {};
      NoneGone(b);
      while pending != {}
        invariant pending <= meetings.Keys && gone <= b.meetings.Keys && View() == Gone(b, gone)
        invariant forall code :: code in pending ==> code !in gone
        invariant forall code :: code in b.meetings ==> (code in gone <==> code !in pending && b.meetings[code].expires <= now)
        decreases |pending|
      {
        var code :| code in pending;
        pending := pending - {code};
        StillThere(b, gone, code);
        if meetings[code].expires <= now {
          OneMoreGone(b, gone, code);
          gone := gone + {code};
          var device := meetings[code].device;
          meetings := meetings - {code};
          if device in meetingDevices && meetingDevices[device] == code {
            meetingDevices := meetingDevices - {device};
          }
        }
      }
      AllGone(b, gone, now);
    }

    /** removeMeetingLocked. */
    method RemoveDevice(device: Device)
      modifies `meetings, `meetingDevices
      ensures View() == Meetings.RemoveDevice(old(View()), device)
    {
      if device in meetingDevices && meetingDevices[device] != NO_CODE {
        var code := meetingDevices[device];
        meetingDevices := meetingDevices - {device};
        meetings := meetings - {code};
      }
    }

    /** removeMeetingCodeLocked. */
    method RemoveCode(code: Code)
      modifies `meetings, `meetingDevices
      ensures View() == Meetings.RemoveCode(old(View()), code)
    {
      if code in meetings {
        var device := meetings[code].device;
        meetings := meetings - {code};
        if device in meetingDevices && meetingDevices[device] == code {
          meetingDevices := meetingDevices - {device};
        }
      }
    }

    /** The locked section that opens a meeting.  candidates are the codes the random source offers, at most 64 of
        which are looked at; deviceCode is never used. */
    method Open(device: Device, topic: string, expires: int, now: int, candidates: seq<Code>, deviceCode: Code) returns (code: Code)
      requires |candidates| == 64 && NO_CODE !in candidates
      modifies `meetings, `meetingDevices
      ensures Possible(old(View()), Step.Open(device, topic, expires, now, code))
      ensures View() == Apply(old(View()), Step.Open(device, topic, expires, now, code))
      ensures code == NO_CODE <==>
              forall i :: 0 <= i < 64 ==>
                candidates[i] == deviceCode || candidates[i] in Meetings.RemoveDevice(CleanupAt(old(View()), now), device).meetings
    {
      Cleanup(now);
      RemoveDevice(device);
      ghost var b := View();
      code := NO_CODE;
      var attempts := 0;
      while attempts < 64 && code == NO_CODE
        invariant 0 <= attempts <= 64 && View() == b
        invariant code == NO_CODE ==>
          forall i :: 0 <= i < attempts ==> candidates[i] == deviceCode || candidates[i] in meetings
        invariant code != NO_CODE ==> code in candidates && code != deviceCode && code !in meetings
      {
        if candidates[attempts] !in meetings && candidates[attempts] != deviceCode {
          code := candidates[attempts];
        }
        attempts := attempts + 1;
      }
      if code != NO_CODE {
        meetings := meetings[code := Meeting(device, topic, expires, None)];
        meetingDevices := meetingDevices[device := code];
      }
    }
  }
}
