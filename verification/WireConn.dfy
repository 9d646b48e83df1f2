/** The connection object of internal/protocol: writers that fill a reused packet buffer, and the
  reader that copies fragment payloads into one assembly buffer.  Each method is proved against the
  functions of `Wire`. */
module Connections {
  import opened Wrappers
  import opened Bytes
  import opened Wire

  /** Packets up to this size are built in the connection's own buffer. */
  const PACKET_BUFFER_LIMIT := 0x1_0000

  class PartialMessage {
    const fields: Fields
    const data: array<byte>
    var received: nat

    constructor (fields: Fields, total: nat)
      ensures this.fields == fields && received == 0
      ensures fresh(data) && data[..] == Zeros(total)
    {
      this.fields := fields;
      data := new byte[total](_ => 0);
      received := 0;
    }

    ghost function View(): Partial
      reads this, data
    {
      Partial(fields, data[..], received)
    }

    /** Copy a payload to its place in the buffer. */
    method Append(payload: bytes)
      requires received + |payload| <= data.Length
      modifies this, data
      ensures View() == WithPayload(old(View()), payload)
    {
      ghost var buffer := data[..];
      forall i | 0 <= i < |payload| {
        data[received + i] := payload[i];
      }
      assert data[..] == buffer[..received] + payload + buffer[received + |payload|..];
      received := received + |payload|;
    }
  }

  /** The bytes of a packet before its data. */
  function PacketPrefix(header: bytes, size: nat, fragment: bool): (prefix: bytes)
    requires |header| <= MAX_HEADER_SIZE + FRAGMENT_HEADER_SIZE && size <= MAX_DATA_SIZE
    ensures |prefix| == 8 + |header|
  {
    U32(|header| + if fragment then FRAGMENT_FLAG else 0) + U32(size) + header
  }

  lemma EncodedParts(header: bytes, data: bytes, fragment: bool)
    requires |header| <= MAX_HEADER_SIZE + FRAGMENT_HEADER_SIZE && |data| <= MAX_DATA_SIZE
    ensures EncodePacket(fragment, header, data) == PacketPrefix(header, |data|, fragment) + data
    ensures PacketPrefix(header, |data|, fragment) + [] == PacketPrefix(header, |data|, fragment)
    ensures EncodePacket(fragment, header, data) + [] == EncodePacket(fragment, header, data)
  {
  }

  function Take(b: bytes, n: nat): bytes {
    if n < |b| then b[..n] else b
  }

  /** What a message is on the wire. */
  function Packets(c: Codec, m: Message, interleave: bool): bytes
    requires Sendable(c, m)
  {
    if interleave && |m.data| > FRAGMENT_SIZE then FragmentStream(c, m, 0) else PlainPacket(c, m)
  }

  /** How many fragments carry the data from an offset on. */
  function FragmentCount(data: bytes, offset: nat): (n: nat)
    requires offset <= |data|
    ensures n == 0 <==> offset == |data|
    decreases |data| - offset
  {
    if offset == |data| then 0 else 1 + FragmentCount(data, offset + FragmentLength(data, offset))
  }

  /** The caller's context is not cancelled before the n-th packet is under way. */
  predicate InTime(cancelAfter: Option<nat>, n: nat) {
    cancelAfter.Some? ==> cancelAfter.value >= n
  }

  class Conn {
    /** Bytes the transport has taken, and how many more it takes before a write fails. */
    var wire: bytes
    var room: nat
    var closed: bool
    var interleave: bool
    var acceptFragments: bool
    var packetBuf: array<byte>
    /** Bytes that arrived and were not read yet. */
    var input: bytes
    var partial: PartialMessage?

    constructor (room: nat, input: bytes)
      ensures wire == [] && this.room == room && this.input == input && partial == null && fresh(packetBuf)
      ensures !closed && !interleave && !acceptFragments
    {
      wire, this.room, closed, interleave, acceptFragments := [], room, false, false, false;
      packetBuf := new byte[0];
      this.input, partial := input, null;
    }

    ghost predicate Valid()
      reads this, partial
    {
      partial != null ==> partial.data != packetBuf
    }

    ghost function PartialView(): Option<Partial>
      reads this, partial, if partial != null then {partial.data} else {}
    {
      if partial == null then None else Some(partial.View())
    }

    method EnableInterleaving()
      modifies this`acceptFragments, this`interleave
      ensures acceptFragments && interleave
    {
      acceptFragments := true;
      interleave := true;
    }

    method OfferInterleaving()
      modifies this`acceptFragments
      ensures acceptFragments
    {
      acceptFragments := true;
    }

    // ---- writing ----

    /** The transport takes what fits; a short write is an error. */
    method WriteFull(data: bytes) returns (ok: bool)
      modifies this`wire, this`room
      ensures ok <==> !closed && |data| <= old(room)
      ensures wire == old(wire) + if closed then [] else Take(data, old(room))
      ensures ok ==> room == old(room) - |data|
    {
      if closed {
        return false;
      }
      var n := if |data| < room then |data| else room;
      wire := wire + data[..n];
      ok := n == |data|;
      room := room - n;
    }

    /** Build the packet in the reused buffer, or a new one when it is large, and send it.  A failed
        write closes the connection. */
    method WritePacket(header: bytes, data: bytes, fragment: bool, cancelled: bool) returns (ok: bool)
      requires |header| <= MAX_HEADER_SIZE + FRAGMENT_HEADER_SIZE && |data| <= MAX_DATA_SIZE
      requires Valid()
      modifies this`wire, this`room, this`closed, this`packetBuf, packetBuf
      ensures Valid() && (packetBuf == old(packetBuf) || fresh(packetBuf))
      ensures ok <==> !cancelled && !old(closed) && 8 + |header| + |data| <= old(room)
      ensures ok ==> wire == old(wire) + EncodePacket(fragment, header, data) && !closed
      ensures ok ==> room == old(room) - (8 + |header| + |data|)
      ensures cancelled ==> wire == old(wire) && closed == old(closed) && room == old(room)
      ensures !cancelled && !ok ==> closed
      ensures !cancelled && !ok ==> wire == old(wire) + if old(closed) then [] else Take(EncodePacket(fragment, header, data), old(room))
    {
      if cancelled {
        return false;
      }
      EncodedParts(header, data, fragment);
      hide EncodePacket;
      hide PacketPrefix;
      var prefix := 8 + |header|;
      var small := prefix + |data| <= PACKET_BUFFER_LIMIT;
      var capacity := if small then prefix + |data| else prefix;
      var packet := PacketArray(capacity);
      FillPacket(packet, header, |data|, fragment, if small then data else []);
      ok := Transmit(packet[..capacity], if small then [] else data);
    }

    /** The connection's own buffer, grown when it is too short, or a new one for a large packet. */
    method PacketArray(capacity: nat) returns (packet: array<byte>)
      requires Valid()
      modifies this`packetBuf
      ensures Valid() && (packetBuf == old(packetBuf) || fresh(packetBuf))
      ensures packet.Length >= capacity && (packet == packetBuf || fresh(packet))
    {
      if capacity <= PACKET_BUFFER_LIMIT {
        if packetBuf.Length < capacity {
          packetBuf := new byte[capacity];
        }
        packet := packetBuf;
      } else {
        packet := new byte[capacity];
      }
    }

    /** One transport write, or two when the data is not copied into the packet.  A failure closes the
        connection. */
    method Transmit(first: bytes, rest: bytes) returns (ok: bool)
      modifies this`wire, this`room, this`closed
      ensures ok <==> !old(closed) && |first| + |rest| <= old(room)
      ensures ok ==> room == old(room) - (|first| + |rest|)
      ensures wire == old(wire) + if old(closed) then [] else Take(first + rest, old(room))
      ensures closed <==> !ok
    {
      ok := WriteFull(first);
      if !ok {
        closed := true;
        return;
      }
      ok := WriteFull(rest);
      assert Take(first + rest, old(room)) == first + Take(rest, old(room) - |first|);
      closed := !ok;
    }

    /** Write sizes, header and the data that is sent with them into the buffer. */
    static method FillPacket(packet: array<byte>, header: bytes, size: nat, fragment: bool, tail: bytes)
      requires |header| <= MAX_HEADER_SIZE + FRAGMENT_HEADER_SIZE && size <= MAX_DATA_SIZE
      requires packet.Length >= 8 + |header| + |tail|
      modifies packet
      ensures packet[..8 + |header| + |tail|] == PacketPrefix(header, size, fragment) + tail
    {
      var sizes := U32(|header| + if fragment then FRAGMENT_FLAG else 0) + U32(size);
      forall i | 0 <= i < 8 {
        packet[i] := sizes[i];
      }
      forall i | 0 <= i < |header| {
        packet[8 + i] := header[i];
      }
      forall i | 0 <= i < |tail| {
        packet[8 + |header| + i] := tail[i];
      }
    }

    /** The header of one fragment, assembled byte by byte. */
    method BuildFragmentHeader(header: bytes, data: bytes, offset: nat) returns (h: bytes)
      requires |data| <= MAX_DATA_SIZE && offset < |data|
      ensures h == FragmentHeader(header, data, offset)
    {
      h := Zeros(FRAGMENT_HEADER_SIZE);
      if offset == 0 {
        h := h[0 := h[0] + 1];
        h := h + header;
      }
      if offset + FragmentLength(data, offset) == |data| {
        h := h[0 := h[0] + 2];
      }
      ghost var flags, tail := h[0], if offset == 0 then header else [];
      assert h[9..] == tail;
      hide U32;
      h := h[..1] + U32(offset) + h[5..];
      assert h[..5] == [flags] + U32(offset) && h[9..] == tail;
      h := h[..5] + U32(|data|) + h[9..];
    }

    /** Send all fragments of m under the bulk gate.  cancelAfter is the number of fragments after
        which the caller's context is cancelled, if it is. */
    method WriteFragments(c: Codec, m: Message, cancelAfter: Option<nat>) returns (ok: bool)
      requires Sendable(c, m) && Valid()
      modifies this`wire, this`room, this`closed, this`packetBuf, packetBuf
      ensures Valid()
      ensures ok <==> m.data == [] ||
                      (!old(closed) && |FragmentStream(c, m, 0)| <= old(room) && InTime(cancelAfter, FragmentCount(m.data, 0)))
      ensures ok ==> wire == old(wire) + FragmentStream(c, m, 0) && closed == old(closed)
      ensures ok ==> room == old(room) - |FragmentStream(c, m, 0)|
      ensures old(wire) <= wire <= old(wire) + FragmentStream(c, m, 0)
      ensures !ok && wire != old(wire) ==> closed
    {
      hide FragmentPacket;
      hide FragmentHeader;
      hide FragmentStream;
      hide Take;
      StreamEnds(c, m);
      ghost var done: bytes := [];
      var header := c.marshal(m.fields);
      var offset, sent := 0, 0;
      assert done + FragmentStream(c, m, 0) == FragmentStream(c, m, 0);
      while offset < |m.data|
        invariant offset <= |m.data| && (sent == 0 <==> offset == 0)
        invariant Valid() && (packetBuf == old(packetBuf) || fresh(packetBuf))
        invariant closed == old(closed) && (sent > 0 ==> !closed)
        invariant wire == old(wire) + done && room == old(room) - |done| && (sent == 0 ==> done == [])
        invariant FragmentStream(c, m, 0) == done + FragmentStream(c, m, offset)
        invariant sent + FragmentCount(m.data, offset) == FragmentCount(m.data, 0) && InTime(cancelAfter, sent)
        decreases |m.data| - offset
      {
        ghost var packet, rest := FragmentPacket(c, m, offset), FragmentStream(c, m, offset + FragmentLength(m.data, offset));
        SplitStream(c, m, offset, done);
        BeginningOf(old(wire), done, packet, rest, room);
        var sentIt := WriteFragment(c, m, header, offset, cancelAfter == Some(sent));
        if !sentIt {
          if sent > 0 {
            closed := true;
          }
          return false;
        }
        done := done + packet;
        sent := sent + 1;
        offset := offset + FragmentLength(m.data, offset);
      }
      return true;
    }

    method WriteFragment(c: Codec, m: Message, header: bytes, offset: nat, cancelled: bool) returns (ok: bool)
      requires Sendable(c, m) && Valid() && offset < |m.data| && header == c.marshal(m.fields)
      modifies this`wire, this`room, this`closed, this`packetBuf, packetBuf
      ensures Valid() && (packetBuf == old(packetBuf) || fresh(packetBuf))
      ensures ok <==> !cancelled && !old(closed) && |FragmentPacket(c, m, offset)| <= old(room)
      ensures ok ==> wire == old(wire) + FragmentPacket(c, m, offset) && !closed
      ensures ok ==> room == old(room) - |FragmentPacket(c, m, offset)|
      ensures cancelled ==> !ok && wire == old(wire) && closed == old(closed)
      ensures !cancelled && !ok ==> closed
      ensures !cancelled && !ok ==> wire == old(wire) + if old(closed) then [] else Take(FragmentPacket(c, m, offset), old(room))
    {
      var h := BuildFragmentHeader(header, m.data, offset);
      hide FragmentHeader;
      ok := WritePacket(h, m.data[offset..offset + FragmentLength(m.data, offset)], true, cancelled);
    }

    method WriteMessage(c: Codec, m: Message, cancelAfter: Option<nat>) returns (ok: bool)
      requires Valid()
      modifies this`wire, this`room, this`closed, this`packetBuf, packetBuf
      ensures Valid()
      ensures ok <==> Sendable(c, m) && !old(closed) && |Packets(c, m, interleave)| <= old(room)
                      && InTime(cancelAfter, if interleave && |m.data| > FRAGMENT_SIZE then FragmentCount(m.data, 0) else 1)
      ensures ok ==> room == old(room) - |Packets(c, m, interleave)|
      ensures ok ==> wire == old(wire) + Packets(c, m, interleave)
      ensures Sendable(c, m) ==> old(wire) <= wire <= old(wire) + Packets(c, m, interleave)
      ensures !Sendable(c, m) ==> wire == old(wire) && closed == old(closed)
      ensures !ok && wire != old(wire) ==> closed
    {
      var header := c.marshal(m.fields);
      if |header| > MAX_HEADER_SIZE || |m.data| > MAX_DATA_SIZE {
        return false;
      }
      if interleave && |m.data| > FRAGMENT_SIZE {
        if closed {
          return false;
        }
        ok := WriteFragments(c, m, cancelAfter);
      } else {
        ok := WritePacket(header, m.data, false, cancelAfter == Some(0));
      }
    }

    // ---- reading ----

    /** io.ReadFull on the bytes that arrived. */
    method ReadFull(n: nat) returns (ok: bool, b: bytes)
      modifies this`input
      ensures ok <==> n <= |old(input)|
      ensures ok ==> b == old(input)[..n] && input == old(input)[n..]
    {
      ok := n <= |input|;
      b := [];
      if ok {
        b, input := input[..n], input[n..];
      }
    }

    /** The packet just read, as `Wire.ReadPacket` classifies it. */
    method ReadPacket(c: Codec) returns (ok: bool, message: Option<Message>)
      requires Valid()
      modifies this`input, this`partial, partial, if partial != null then {partial.data} else {}
      ensures Valid()
      ensures partial != null ==> partial == old(partial) || (fresh(partial) && fresh(partial.data))
      ensures var r := Wire.ReadPacket(c, acceptFragments, old(PartialView()), old(input));
              && (ok <==> !r.Fail?)
              && (ok ==> input == r.rest && PartialView() == r.partial)
              && (ok ==> message == if r.Complete? then Some(r.message) else None)
    {
      hide Wire.ReadFragment;
      message := None;
      var got, sizes := ReadFull(8);
      if !got {
        return false, None;
      }
      var headerSize, dataSize := GetU32(sizes), GetU32(sizes[4..]);
      GetU32Local(sizes, old(input));
      assert sizes[4..][..4] == old(input)[4..][..4];
      GetU32Local(sizes[4..], old(input)[4..]);
      hide GetU32;
      if headerSize >= FRAGMENT_FLAG {
        if !acceptFragments {
          return false, None;
        }
        ok, message := ReadFragment(c, headerSize - FRAGMENT_FLAG, dataSize);
        return;
      }
      if headerSize == 0 || headerSize > MAX_HEADER_SIZE || dataSize > MAX_DATA_SIZE {
        return false, None;
      }
      var header;
      got, header := ReadFull(headerSize);
      if !got {
        return false, None;
      }
      var fields := c.unmarshal(header);
      if fields.None? {
        return false, None;
      }
      var data;
      got, data := ReadFull(dataSize);
      if !got {
        return false, None;
      }
      assert old(input)[8..][headerSize + dataSize..] == input;
      return true, Some(Message(fields.value, data));
    }

    method ReadFragment(c: Codec, headerSize: nat, dataSize: nat) returns (ok: bool, message: Option<Message>)
      requires Valid()
      modifies this`input, this`partial, partial, if partial != null then {partial.data} else {}
      ensures Valid()
      ensures partial != null ==> partial == old(partial) || (fresh(partial) && fresh(partial.data))
      ensures var r := Wire.ReadFragment(c, old(PartialView()), headerSize, dataSize, old(input));
              && (ok <==> !r.Fail?)
              && (ok ==> input == r.rest && PartialView() == r.partial)
              && (ok ==> message == if r.Complete? then Some(r.message) else None)
    {
      hide GetU32;
      hide Assembly;
      hide Zeros;
      hide WithPayload;
      if headerSize < FRAGMENT_HEADER_SIZE || headerSize > MAX_HEADER_SIZE + FRAGMENT_HEADER_SIZE
         || dataSize == 0 || dataSize > FRAGMENT_SIZE {
        return false, None;
      }
      var got, h := ReadFull(headerSize);
      if !got {
        return false, None;
      }
      var first, last := h[0] % 2 == 1, h[0] / 2 % 2 == 1;
      var offset, total := GetU32(h[1..]), GetU32(h[5..]);
      if h[0] >= 4 || total == 0 || total > MAX_DATA_SIZE || offset > total || dataSize > total - offset
         || last != (offset + dataSize == total) {
        return false, None;
      }
      var known := FindAssembly(c, first, offset, total, h);
      if !known {
        return false, None;
      }
      var p := partial;
      if p.received != offset || p.data.Length != total {
        return false, None;
      }
      var payload;
      got, payload := ReadFull(dataSize);
      if !got {
        return false, None;
      }
      assert old(input)[headerSize + dataSize..] == input;
      p.Append(payload);
      if !last {
        return true, None;
      }
      partial := null;
      return true, Some(Message(p.fields, p.data[..]));
    }

    /** Allocate the buffer for a first fragment; a later fragment needs one that is being filled. */
    method FindAssembly(c: Codec, first: bool, offset: nat, total: nat, h: bytes) returns (ok: bool)
      requires Valid() && |h| >= FRAGMENT_HEADER_SIZE
      modifies this`partial
      ensures Valid() && (ok ==> partial != null)
      ensures partial == old(partial) || (partial != null && fresh(partial) && fresh(partial.data))
      ensures (if ok then PartialView() else None) == Assembly(c, old(PartialView()), first, offset, total, h)
    {
      if first {
        if offset != 0 || partial != null || |h| == FRAGMENT_HEADER_SIZE {
          return false;
        }
        var fields := c.unmarshal(h[FRAGMENT_HEADER_SIZE..]);
        if fields.None? {
          return false;
        }
        partial := new PartialMessage(fields.value, total);
      } else if |h| != FRAGMENT_HEADER_SIZE || partial == null {
        return false;
      }
      return true;
    }

    /** Read packets until one completes a message.  An error drops the assembly buffer. */
    method ReadMessage(c: Codec) returns (ok: bool, message: Message)
      requires Valid()
      modifies this`input, this`partial, partial, if partial != null then {partial.data} else {}
      ensures Valid()
      ensures ok ==> var later := ReadAll(c, acceptFragments, PartialView(), input);
                     ReadAll(c, acceptFragments, old(PartialView()), old(input)) == later.(messages := [message] + later.messages)
      ensures !ok ==> partial == null && ReadAll(c, acceptFragments, old(PartialView()), old(input)).messages == []
    {
      hide Wire.ReadPacket;
      ghost var all := ReadAll(c, acceptFragments, PartialView(), input);
      message := Message(Fields("", "", "", "", false, "", map[]), []);
      while true
        invariant Valid() && ReadAll(c, acceptFragments, PartialView(), input) == all
        invariant partial != null ==> partial == old(partial) || (fresh(partial) && fresh(partial.data))
        decreases |input|
      {
        ReadPacketConsumes(c, acceptFragments, PartialView(), input);
        ghost var before := input;
        var got, m := ReadPacket(c);
        if !got {
          partial := null;
          return false, message;
        }
        assert before != [] by { EmptyFails(c, acceptFragments, None); }
        if m.Some? {
          return true, m.value;
        }
      }
    }
  }

  lemma EmptyFails(c: Codec, accept: bool, partial: Option<Partial>)
    ensures Wire.ReadPacket(c, accept, partial, []).Fail?
  {
  }

  /** The rest of the stream starts with the packet at this offset. */
  lemma StreamEnds(c: Codec, m: Message)
    requires Sendable(c, m)
    ensures FragmentStream(c, m, |m.data|) == []
    ensures forall done: bytes :: done + [] == done
  {
  }

  lemma SplitStream(c: Codec, m: Message, offset: nat, done: bytes)
    requires Sendable(c, m) && offset < |m.data|
    ensures var packet, rest := FragmentPacket(c, m, offset), FragmentStream(c, m, offset + FragmentLength(m.data, offset));
            done + FragmentStream(c, m, offset) == (done + packet) + rest
  {
    hide FragmentPacket;
  }

  lemma BeginningOf(wire: bytes, done: bytes, packet: bytes, rest: bytes, room: nat)
    ensures wire <= wire + done <= wire + ((done + packet) + rest)
    ensures wire <= (wire + done) + Take(packet, room) <= wire + ((done + packet) + rest)
    ensures (wire + done) + packet == wire + (done + packet) <= wire + ((done + packet) + rest)
    ensures (wire + done) + [] == wire + done
  {
  }
}
