/** The broker's tables of waiting devices and sessions as mutable maps: cmd/yudesk-relay/main.go. */
module PairingBrokers {
  import opened Pairings

  class PairingBroker {
    var devices: map<Id, Waiting>
    var active: map<Id, Session>
    ghost var hellos: map<Conn, Hello>
    ghost var filled: map<Conn, nat>
    ghost var owed: set<Conn>

    constructor ()
      ensures View() == START
    {
      devices, active, hellos, filled, owed := map[], map[], map[], map[], {};
    }

    ghost function View(): Broker
      reads this
    {
      Broker(devices, active, hellos, filled, owed)
    }

    /** One turn of the loop; other is the connection whose ready channel the caller has to send to afterwards. */
    method Enter(c: Conn, h: Hello) returns (entry: Entry, other: Conn)
      modifies this
      ensures entry == EntryOf(old(View()), h) && View() == EnterBroker(old(View()), c, h)
      ensures entry.Paired? || entry.Evicted? ==> owed == old(owed) + {other}
      ensures !(entry.Paired? || entry.Evicted?) ==> owed == old(owed)
    {
      other := c;
      if h.id in active {
        return Busy, other;
      }
      if h.id !in devices {
        devices := devices[h.id := Waiting(c, h.role, h.owner)];
        hellos := hellos[c := h];
        return Wait, other;
      }
      var waiter := devices[h.id];
      if waiter.role != h.role {
        if waiter.owner != h.owner {
          return Denied, other;
        }
        devices := devices - {h.id};
        active := active[h.id := if h.role.Agent? then Session(c, waiter.conn, h.owner) else Session(waiter.conn, c, h.owner)];
        hellos := hellos[c := h];
        entry := Paired;
      } else {
        devices := devices - {h.id};
        entry := Evicted;
      }
      other := waiter.conn;
      owed := owed + {other};
    }

    method Gone(c: Conn, id: Id)
      modifies this
      ensures View() == GoneFrom(old(View()), c, id)
    {
      if id in devices && devices[id].conn == c {
        devices := devices - {id};
      }
      if id in active && (active[id].agent == c || active[id].viewer == c) {
        active := active - {id};
      }
    }

    /** The owner's waiting connection is told that nobody comes, and its session is dropped; closing lists the
        connections to close afterwards. */
    method Drop(owner: Owner, id: Id) returns (closing: seq<Conn>)
      modifies this
      ensures View() == DropDevice(old(View()), owner, id)
      ensures forall c :: c in closing <==>
                || (id in old(devices) && old(devices)[id].owner == owner && c == old(devices)[id].conn)
                || (id in old(active) && old(active)[id].owner == owner && (c == old(active)[id].agent || c == old(active)[id].viewer))
    {
      closing := [];
      if id in devices && devices[id].owner == owner {
        var w := devices[id];
        devices := devices - {id};
        closing := closing + [w.conn];
        filled := Send(View(), w.conn).filled;
      }
      if id in active && active[id].owner == owner {
        closing := closing + [active[id].agent, active[id].viewer];
        active := active - {id};
      }
    }
  }
}
