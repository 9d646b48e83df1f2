/** The wire format of internal/protocol: plain packets, interleaved fragments, and the reader that
  puts one partial message together.  Everything here is a function of the bytes received. */
module Wire {
  import opened Wrappers
  import opened Bytes

  const MAX_HEADER_SIZE: nat := 0x10_0000
  const MAX_DATA_SIZE: nat := 0x200_0000
  const FRAGMENT_FLAG: nat := 0x8000_0000
  const FRAGMENT_SIZE: nat := 0x2000
  const FRAGMENT_HEADER_SIZE: nat := 9

  /** A message without its binary data. */
  datatype Fields = Fields(kind: string, id: string, call: string, params: string,
                           ok: bool, error: string, meta: map<string, string>)

  datatype Message = Message(fields: Fields, data: bytes)

  /** JSON, as a pair of functions. */
  datatype Codec = Codec(marshal: Fields -> bytes, unmarshal: bytes -> Option<Fields>)

  ghost predicate Faithful(c: Codec) {
    forall f :: |c.marshal(f)| > 0 && c.unmarshal(c.marshal(f)) == Some(f)
  }

  predicate Sendable(c: Codec, m: Message) {
    |c.marshal(m.fields)| <= MAX_HEADER_SIZE && |m.data| <= MAX_DATA_SIZE
  }

  // ---------------------------------------------------------------------------------------------
  // What the writer puts on the wire.
  // ---------------------------------------------------------------------------------------------

  function EncodePacket(fragment: bool, header: bytes, data: bytes): (packet: bytes)
    requires |header| <= MAX_HEADER_SIZE + FRAGMENT_HEADER_SIZE && |data| <= MAX_DATA_SIZE
    ensures |packet| == 8 + |header| + |data|
  {
    U32(|header| + if fragment then FRAGMENT_FLAG else 0) + U32(|data|) + header + data
  }

  function PlainPacket(c: Codec, m: Message): (packet: bytes)
    requires Sendable(c, m)
    ensures packet != []
  {
    EncodePacket(false, c.marshal(m.fields), m.data)
  }

  function FragmentLength(data: bytes, offset: nat): nat
    requires offset <= |data|
  {
    if |data| - offset < FRAGMENT_SIZE then |data| - offset else FRAGMENT_SIZE
  }

  function FragmentHeader(header: bytes, data: bytes, offset: nat): bytes
    requires |data| <= MAX_DATA_SIZE && offset < |data|
  {
    var first := if offset == 0 then 1 else 0;
    var last := if offset + FragmentLength(data, offset) == |data| then 2 else 0;
    [first + last] + U32(offset) + U32(|data|) + if offset == 0 then header else []
  }

  /** The fragment of a message at an offset of its data. */
  function FragmentPacket(c: Codec, m: Message, offset: nat): (packet: bytes)
    requires Sendable(c, m) && offset < |m.data|
    ensures packet != []
  {
    EncodePacket(true, FragmentHeader(c.marshal(m.fields), m.data, offset),
                 m.data[offset..offset + FragmentLength(m.data, offset)])
  }

  /** All fragments of a message from an offset on. */
  function FragmentStream(c: Codec, m: Message, offset: nat): bytes
    requires Sendable(c, m) && offset <= |m.data|
    decreases |m.data| - offset
  {
    if offset == |m.data| then []
    else FragmentPacket(c, m, offset) + FragmentStream(c, m, offset + FragmentLength(m.data, offset))
  }

  // ---------------------------------------------------------------------------------------------
  // What the reader makes of a byte stream.
  // ---------------------------------------------------------------------------------------------

  /** The assembly buffer of an interleaved message; its first received bytes have arrived. */
  datatype Partial = Partial(fields: Fields, buffer: bytes, received: nat)

  datatype Packet =
    | Fail
    | More(partial: Option<Partial>, rest: bytes)
    | Complete(message: Message, partial: Option<Partial>, rest: bytes)

  function Zeros(n: nat): bytes {
    seq(n, _ => 0)
  }

  function ReadPacket(c: Codec, accept: bool, partial: Option<Partial>, input: bytes): Packet {
    if |input| < 8 then Fail
    else
      var headerSize, dataSize := GetU32(input), GetU32(input[4..]);
      if headerSize >= FRAGMENT_FLAG then
        if !accept then Fail
        else ReadFragment(c, partial, headerSize - FRAGMENT_FLAG, dataSize, input[8..])
      else ReadBody(c, partial, headerSize, dataSize, input[8..])
  }

  function ReadBody(c: Codec, partial: Option<Partial>, headerSize: nat, dataSize: nat, input: bytes): Packet {
    if headerSize == 0 || headerSize > MAX_HEADER_SIZE || dataSize > MAX_DATA_SIZE || |input| < headerSize then Fail
    else
      match c.unmarshal(input[..headerSize])
      case None => Fail
      case Some(fields) =>
        if |input| - headerSize < dataSize then Fail
        else Complete(Message(fields, input[headerSize..][..dataSize]), partial, input[headerSize + dataSize..])
  }

  function ReadFragment(c: Codec, partial: Option<Partial>, headerSize: nat, dataSize: nat, input: bytes): Packet {
    if headerSize < FRAGMENT_HEADER_SIZE || headerSize > MAX_HEADER_SIZE + FRAGMENT_HEADER_SIZE
       || dataSize == 0 || dataSize > FRAGMENT_SIZE || |input| < headerSize then Fail
    else
      var h := input[..headerSize];
      var first, last := h[0] % 2 == 1, h[0] / 2 % 2 == 1;
      var offset, total := GetU32(h[1..]), GetU32(h[5..]);
      if h[0] >= 4 || total == 0 || total > MAX_DATA_SIZE || offset > total || dataSize > total - offset
         || last != (offset + dataSize == total) then Fail
      else
        match Assembly(c, partial, first, offset, total, h)
        case None => Fail
        case Some(p) =>
          if p.received != offset || |p.buffer| != total || |input| - headerSize < dataSize then Fail
          else
            var p' := WithPayload(p, input[headerSize..][..dataSize]);
            if last then Complete(Message(p'.fields, p'.buffer), None, input[headerSize + dataSize..])
            else More(Some(p'), input[headerSize + dataSize..])
  }

  /** A payload is put in its place of the buffer. */
  function WithPayload(p: Partial, payload: bytes): Partial
    requires p.received + |payload| <= |p.buffer|
  {
    p.(buffer := p.buffer[..p.received] + payload + p.buffer[p.received + |payload|..], received := p.received + |payload|)
  }

  /** The buffer a fragment belongs to: a new one for a first fragment, else the one being filled. */
  function Assembly(c: Codec, partial: Option<Partial>, first: bool, offset: nat, total: nat, h: bytes): Option<Partial>
    requires |h| >= FRAGMENT_HEADER_SIZE
  {
    if first then
      if offset != 0 || partial.Some? || |h| == FRAGMENT_HEADER_SIZE then None
      else
        match c.unmarshal(h[FRAGMENT_HEADER_SIZE..])
        case None => None
        case Some(fields) => Some(Partial(fields, Zeros(total), 0))
    else if |h| != FRAGMENT_HEADER_SIZE then None
    else partial
  }

  /** The messages ReadMessage returns for a stream, the message left unfinished, and whether reading
      stopped at bytes that are not a whole acceptable packet. */
  datatype Session = Session(messages: seq<Message>, partial: Option<Partial>, failed: bool)

  lemma ReadPacketConsumes(c: Codec, accept: bool, partial: Option<Partial>, input: bytes)
    ensures var r := ReadPacket(c, accept, partial, input);
            !r.Fail? ==> |r.rest| < |input|
  {
  }

  function ReadAll(c: Codec, accept: bool, partial: Option<Partial>, input: bytes): Session
    decreases |input|
  {
    if input == [] then Session([], partial, false)
    else
      ReadPacketConsumes(c, accept, partial, input);
      match ReadPacket(c, accept, partial, input)
      case Fail => Session([], None, true)
      case More(p, rest) => ReadAll(c, accept, p, rest)
      case Complete(m, p, rest) =>
        var later := ReadAll(c, accept, p, rest);
        later.(messages := [m] + later.messages)
  }

  // ---------------------------------------------------------------------------------------------
  // Reading does not look past the packet it reads.
  // ---------------------------------------------------------------------------------------------

  lemma SizesAppend(input: bytes, more: bytes)
    requires |input| >= 8
    ensures var all := input + more;
            GetU32(all) == GetU32(input) && GetU32(all[4..]) == GetU32(input[4..]) && all[8..] == input[8..] + more
  {
    var all := input + more;
    assert all[..4] == input[..4] && all[4..][..4] == input[4..][..4];
    GetU32Local(all, input);
    GetU32Local(all[4..], input[4..]);
  }

  lemma ReadPacketPrefix(c: Codec, accept: bool, partial: Option<Partial>, input: bytes, more: bytes)
    requires !ReadPacket(c, accept, partial, input).Fail?
    ensures var r := ReadPacket(c, accept, partial, input);
            ReadPacket(c, accept, partial, input + more) == r.(rest := r.rest + more)
  {
    hide GetU32;
    hide ReadFragment;
    hide ReadBody;
    var headerSize, dataSize := GetU32(input), GetU32(input[4..]);
    SizesAppend(input, more);
    if headerSize >= FRAGMENT_FLAG {
      ReadFragmentPrefix(c, partial, headerSize - FRAGMENT_FLAG, dataSize, input[8..], more);
    } else {
      ReadBodyPrefix(c, partial, headerSize, dataSize, input[8..], more);
    }
  }

  lemma ReadBodyPrefix(c: Codec, partial: Option<Partial>, headerSize: nat, dataSize: nat, input: bytes, more: bytes)
    requires !ReadBody(c, partial, headerSize, dataSize, input).Fail?
    ensures var r := ReadBody(c, partial, headerSize, dataSize, input);
            ReadBody(c, partial, headerSize, dataSize, input + more) == r.(rest := r.rest + more)
  {
    assert (input + more)[..headerSize] == input[..headerSize];
    assert (input + more)[headerSize..][..dataSize] == input[headerSize..][..dataSize];
    assert (input + more)[headerSize + dataSize..] == input[headerSize + dataSize..] + more;
  }

  lemma ReadFragmentPrefix(c: Codec, partial: Option<Partial>, headerSize: nat, dataSize: nat, input: bytes, more: bytes)
    requires !ReadFragment(c, partial, headerSize, dataSize, input).Fail?
    ensures var r := ReadFragment(c, partial, headerSize, dataSize, input);
            ReadFragment(c, partial, headerSize, dataSize, input + more) == r.(rest := r.rest + more)
  {
    assert (input + more)[..headerSize] == input[..headerSize];
    assert (input + more)[headerSize..][..dataSize] == input[headerSize..][..dataSize];
    assert (input + more)[headerSize + dataSize..] == input[headerSize + dataSize..] + more;
  }

  /** Two pieces of a stream that break between packets are read one after the other. */
  lemma {:induction false} ReadAllAppend(c: Codec, accept: bool, partial: Option<Partial>, a: bytes, b: bytes)
    requires !ReadAll(c, accept, partial, a).failed
    ensures var first := ReadAll(c, accept, partial, a);
            var second := ReadAll(c, accept, first.partial, b);
            ReadAll(c, accept, partial, a + b) == second.(messages := first.messages + second.messages)
    decreases |a|
  {
    hide ReadPacket;
    hide ReadBody;
    hide ReadFragment;
    if a == [] {
      assert a + b == b;
    } else {
      ReadPacketConsumes(c, accept, partial, a);
      ReadPacketPrefix(c, accept, partial, a, b);
      var r := ReadPacket(c, accept, partial, a);
      ReadAllAppend(c, accept, r.partial, r.rest, b);
    }
  }

  /** Accepting fragments changes nothing for a stream that was read without accepting them. */
  lemma {:induction false} AcceptMonotone(c: Codec, partial: Option<Partial>, input: bytes)
    requires !ReadAll(c, false, partial, input).failed
    ensures ReadAll(c, true, partial, input) == ReadAll(c, false, partial, input)
    decreases |input|
  {
    if input != [] {
      var r := ReadPacket(c, false, partial, input);
      assert ReadPacket(c, true, partial, input) == r;
      ReadPacketConsumes(c, false, partial, input);
      AcceptMonotone(c, r.partial, r.rest);
    }
  }

  // ---------------------------------------------------------------------------------------------
  // Round trips of one packet.
  // ---------------------------------------------------------------------------------------------

  lemma PacketParts(fragment: bool, header: bytes, data: bytes, n: nat)
    requires |header| <= MAX_HEADER_SIZE + FRAGMENT_HEADER_SIZE && |data| <= MAX_DATA_SIZE
    requires n <= |EncodePacket(fragment, header, data)|
    ensures |EncodePacket(fragment, header, data)| == 8 + |header| + |data|
    ensures var p := EncodePacket(fragment, header, data)[..n];
            && (n >= 8 ==> GetU32(p) == |header| + (if fragment then FRAGMENT_FLAG else 0) && GetU32(p[4..]) == |data|)
            && (n >= 8 + |header| ==> p[8..][..|header|] == header)
            && (n >= 8 + |header| ==> p[8 + |header|..] == data[..n - 8 - |header|])
  {
    var size := |header| + if fragment then FRAGMENT_FLAG else 0;
    var packet := EncodePacket(fragment, header, data);
    U32RoundTrip(size, U32(|data|) + header + data);
    U32RoundTrip(|data|, header + data);
    hide GetU32;
    hide U32;
    assert packet == U32(size) + (U32(|data|) + header + data);
    assert packet[4..] == U32(|data|) + (header + data);
    assert packet[8..] == header + data;
    var p := packet[..n];
    if n >= 8 {
      assert p[..4] == packet[..4] && p[4..][..4] == packet[4..][..4];
      GetU32Local(p, packet);
      GetU32Local(p[4..], packet[4..]);
      assert p[8..] == packet[8..][..n - 8];
    }
    if n >= 8 + |header| {
      assert p[8..] == header + data[..n - 8 - |header|];
    }
  }

  lemma GetU32Local(a: bytes, b: bytes)
    requires |a| >= 4 && |b| >= 4 && a[..4] == b[..4]
    ensures GetU32(a) == GetU32(b)
  {
    assert forall i :: 0 <= i < 4 ==> a[i] == a[..4][i] && b[i] == b[..4][i];
    assert a[2..][0] == a[2] && a[2..][1] == a[3] && b[2..][0] == b[2] && b[2..][1] == b[3];
  }

  lemma ReadPlain(c: Codec, accept: bool, partial: Option<Partial>, m: Message)
    requires Faithful(c) && Sendable(c, m)
    ensures PlainPacket(c, m) != []
    ensures ReadPacket(c, accept, partial, PlainPacket(c, m)) == Complete(m, partial, [])
    ensures ReadAll(c, accept, partial, PlainPacket(c, m)) == Session([m], partial, false)
  {
    var header := c.marshal(m.fields);
    var packet := PlainPacket(c, m);
    PacketParts(false, header, m.data, 8 + |header| + |m.data|);
    assert packet[..8 + |header| + |m.data|] == packet;
    assert m.data[..|m.data|] == m.data;
  }

  /** A packet that was cut off is never taken for a packet. */
  lemma ReadTornPacket(c: Codec, accept: bool, partial: Option<Partial>, fragment: bool, header: bytes, data: bytes, n: nat)
    requires |header| <= MAX_HEADER_SIZE + FRAGMENT_HEADER_SIZE && |data| <= MAX_DATA_SIZE
    requires n < |EncodePacket(fragment, header, data)|
    ensures ReadPacket(c, accept, partial, EncodePacket(fragment, header, data)[..n]).Fail?
  {
    PacketParts(fragment, header, data, n);
    var input := EncodePacket(fragment, header, data)[..n];
    hide EncodePacket;
    hide GetU32;
    if n >= 8 {
      if fragment {
        TornFragment(c, partial, |header|, |data|, input[8..]);
      } else {
        TornBody(c, partial, |header|, |data|, input[8..]);
      }
    }
    hide ReadFragment;
    hide ReadBody;
  }

  lemma TornFragment(c: Codec, partial: Option<Partial>, headerSize: nat, dataSize: nat, input: bytes)
    requires |input| < headerSize + dataSize
    ensures ReadFragment(c, partial, headerSize, dataSize, input).Fail?
  {
  }

  lemma TornBody(c: Codec, partial: Option<Partial>, headerSize: nat, dataSize: nat, input: bytes)
    requires |input| < headerSize + dataSize
    ensures ReadBody(c, partial, headerSize, dataSize, input).Fail?
  {
  }

  /** The reader's buffer when the writer of m has sent offset bytes of its data. */
  function Progress(m: Message, offset: nat): Option<Partial>
    requires offset <= |m.data|
  {
    if offset == 0 then None else Some(Partial(m.fields, m.data[..offset] + Zeros(|m.data| - offset), offset))
  }

  lemma FragmentHeaderParts(header: bytes, data: bytes, offset: nat)
    requires |data| <= MAX_DATA_SIZE && offset < |data|
    ensures var h := FragmentHeader(header, data, offset);
            && |h| == FRAGMENT_HEADER_SIZE + (if offset == 0 then |header| else 0)
            && h[0] < 4 && (h[0] % 2 == 1 <==> offset == 0)
            && (h[0] / 2 % 2 == 1 <==> offset + FragmentLength(data, offset) == |data|)
            && GetU32(h[1..]) == offset && GetU32(h[5..]) == |data|
            && (offset == 0 ==> h[FRAGMENT_HEADER_SIZE..] == header)
  {
    var h := FragmentHeader(header, data, offset);
    var tail := if offset == 0 then header else [];
    U32RoundTrip(offset, U32(|data|) + tail);
    U32RoundTrip(|data|, tail);
    assert h[1..] == U32(offset) + (U32(|data|) + tail);
    assert h[5..] == U32(|data|) + tail;
  }

  /** Copying the next payload into the buffer moves the progress on. */
  lemma FillBuffer(data: bytes, offset: nat, next: nat)
    requires offset <= next <= |data|
    ensures var buffer := data[..offset] + Zeros(|data| - offset);
            buffer[..offset] + data[offset..next] + buffer[next..] == data[..next] + Zeros(|data| - next)
  {
    var buffer := data[..offset] + Zeros(|data| - offset);
    assert buffer[..offset] + data[offset..next] == data[..next];
    assert buffer[next..] == Zeros(|data| - next);
  }

  lemma ReadWholeFragment(c: Codec, m: Message, offset: nat)
    requires Faithful(c) && Sendable(c, m) && offset < |m.data|
    ensures var size := FragmentLength(m.data, offset);
            var h := FragmentHeader(c.marshal(m.fields), m.data, offset);
            ReadFragment(c, Progress(m, offset), |h|, size, h + m.data[offset..offset + size]) ==
            if offset + size == |m.data| then Complete(m, None, []) else More(Progress(m, offset + size), [])
  {
    var header := c.marshal(m.fields);
    var h := FragmentHeader(header, m.data, offset);
    var size := FragmentLength(m.data, offset);
    var next := offset + size;
    var payload := m.data[offset..next];
    var input := h + payload;
    FragmentHeaderParts(header, m.data, offset);
    hide FragmentHeader;
    hide GetU32;
    assert input[..|h|] == h;
    assert input[|h|..][..size] == payload;
    assert input[|h| + size..] == [];
    var before := Partial(m.fields, m.data[..offset] + Zeros(|m.data| - offset), offset);
    assert Assembly(c, Progress(m, offset), offset == 0, offset, |m.data|, h) == Some(before) by {
      assert m.data[..0] + Zeros(|m.data|) == Zeros(|m.data|);
    }
    hide Assembly;
    FillBuffer(m.data, offset, next);
    assert m.data[..|m.data|] + Zeros(0) == m.data;
    hide Zeros;
  }

  lemma ReadWholeFragmentPacket(c: Codec, m: Message, offset: nat)
    requires Faithful(c) && Sendable(c, m) && offset < |m.data|
    ensures FragmentPacket(c, m, offset) != []
    ensures var next := offset + FragmentLength(m.data, offset);
            ReadPacket(c, true, Progress(m, offset), FragmentPacket(c, m, offset)) ==
            if next == |m.data| then Complete(m, None, []) else More(Progress(m, next), [])
  {
    hide ReadPacket;
    hide ReadFragment;
    hide ReadBody;
    hide EncodePacket;
    hide GetU32;
    hide Progress;
    var h := FragmentHeader(c.marshal(m.fields), m.data, offset);
    var payload := m.data[offset..offset + FragmentLength(m.data, offset)];
    FragmentHeaderParts(c.marshal(m.fields), m.data, offset);
    hide FragmentHeader;
    ReadWholeFragment(c, m, offset);
    ReadFlaggedPacket(c, Progress(m, offset), h, payload);
  }

  lemma ReadFlaggedPacket(c: Codec, partial: Option<Partial>, h: bytes, payload: bytes)
    requires |h| <= MAX_HEADER_SIZE + FRAGMENT_HEADER_SIZE && |payload| <= MAX_DATA_SIZE
    ensures EncodePacket(true, h, payload) != []
    ensures ReadPacket(c, true, partial, EncodePacket(true, h, payload)) == ReadFragment(c, partial, |h|, |payload|, h + payload)
  {
    var packet := EncodePacket(true, h, payload);
    PacketParts(true, h, payload, |packet|);
    assert packet[..|packet|] == packet;
    assert packet[8..] == h + payload;
    hide EncodePacket;
    hide ReadFragment;
    hide ReadBody;
    hide GetU32;
  }

  lemma ReadFragmentStep(c: Codec, m: Message, offset: nat)
    requires Faithful(c) && Sendable(c, m) && offset < |m.data|
    ensures var next := offset + FragmentLength(m.data, offset);
            ReadAll(c, true, Progress(m, offset), FragmentPacket(c, m, offset)) ==
            if next == |m.data| then Session([m], None, false) else Session([], Progress(m, next), false)
  {
    ReadWholeFragmentPacket(c, m, offset);
    hide ReadPacket;
    hide FragmentPacket;
  }

  /** Sending a message as fragments only: the reader returns it and nothing else. */
  lemma {:induction false} FragmentStreamRoundTrip(c: Codec, m: Message, offset: nat)
    requires Faithful(c) && Sendable(c, m) && offset < |m.data|
    ensures ReadAll(c, true, Progress(m, offset), FragmentStream(c, m, offset)) == Session([m], None, false)
    decreases |m.data| - offset
  {
    hide ReadPacket;
    hide FragmentPacket;
    var next := offset + FragmentLength(m.data, offset);
    ReadFragmentStep(c, m, offset);
    ReadAllAppend(c, true, Progress(m, offset), FragmentPacket(c, m, offset), FragmentStream(c, m, next));
    if next < |m.data| {
      FragmentStreamRoundTrip(c, m, next);
    }
  }
}
