/** What interleaving may do to a connection of internal/protocol: soundness of the reader on
  arbitrary bytes, and the round trip over every schedule of plain packets and fragments that the
  write gate and the bulk gate allow. */
module WireSchedules {
  import opened Wrappers
  import opened Bytes
  import opened Wire

  // ---------------------------------------------------------------------------------------------
  // Arbitrary byte streams.
  // ---------------------------------------------------------------------------------------------

  /** The offset field and the payload of one fragment, as they stand on the wire. */
  datatype Piece = Piece(offset: nat, payload: bytes)

  predicate Flagged(input: bytes)
    requires |input| >= 8
  {
    GetU32(input) >= FRAGMENT_FLAG
  }

  function PieceAt(input: bytes): Piece {
    if |input| < 8 || !Flagged(input) then Piece(0, [])
    else
      var headerSize, dataSize := GetU32(input) - FRAGMENT_FLAG, GetU32(input[4..]);
      if headerSize < FRAGMENT_HEADER_SIZE || |input| < 8 + headerSize + dataSize then Piece(0, [])
      else Piece(GetU32(input[8..][1..]), input[8..][headerSize..][..dataSize])
  }

  /** The pieces cover 0..n from left to right, without a gap, an overlap or an empty piece. */
  ghost predicate Tiles(pieces: seq<Piece>, n: nat) {
    if pieces == [] then n == 0
    else
      var last := pieces[|pieces| - 1];
      last.payload != [] && last.offset + |last.payload| == n && Tiles(pieces[..|pieces| - 1], last.offset)
  }

  function Concat(pieces: seq<Piece>): bytes {
    if pieces == [] then [] else Concat(pieces[..|pieces| - 1]) + pieces[|pieces| - 1].payload
  }

  /** A message with the fragments it came in; a plain message has none. */
  datatype Delivery = Delivery(message: Message, pieces: seq<Piece>)

  function Deliveries(c: Codec, accept: bool, partial: Option<Partial>, pieces: seq<Piece>, input: bytes): seq<Delivery>
    decreases |input|
  {
    ReadPacketConsumes(c, accept, partial, input);
    match ReadPacket(c, accept, partial, input)
    case Fail => []
    case More(p, rest) => Deliveries(c, accept, p, pieces + [PieceAt(input)], rest)
    case Complete(m, p, rest) =>
      if Flagged(input) then [Delivery(m, pieces + [PieceAt(input)])] + Deliveries(c, accept, p, [], rest)
      else [Delivery(m, [])] + Deliveries(c, accept, p, pieces, rest)
  }

  ghost predicate Filled(partial: Option<Partial>, pieces: seq<Piece>) {
    match partial
    case None => pieces == []
    case Some(p) =>
      && 0 < p.received < |p.buffer| <= MAX_DATA_SIZE
      && Tiles(pieces, p.received) && Concat(pieces) == p.buffer[..p.received]
  }

  ghost predicate Sound(d: Delivery) {
    && |d.message.data| <= MAX_DATA_SIZE
    && (d.pieces != [] ==> Tiles(d.pieces, |d.message.data|) && Concat(d.pieces) == d.message.data)
  }

  lemma FragmentSound(c: Codec, partial: Option<Partial>, pieces: seq<Piece>, input: bytes)
    requires |input| >= 8 && Flagged(input) && Filled(partial, pieces)
    requires !ReadPacket(c, true, partial, input).Fail?
    ensures match ReadPacket(c, true, partial, input)
            case More(p, _) => p.Some? && Filled(p, pieces + [PieceAt(input)])
            case Complete(m, p, _) => p == None && Sound(Delivery(m, pieces + [PieceAt(input)])) && m.data != []
  {
    hide GetU32;
    hide ReadFragment;
    hide Filled;
    hide Sound;
    var headerSize, dataSize := GetU32(input) - FRAGMENT_FLAG, GetU32(input[4..]);
    FragmentAppends(c, partial, pieces, headerSize, dataSize, input[8..]);
    OffsetInside(input[8..], headerSize);
  }

  lemma OffsetInside(packet: bytes, headerSize: nat)
    requires FRAGMENT_HEADER_SIZE <= headerSize <= |packet|
    ensures GetU32(packet[..headerSize][1..]) == GetU32(packet[1..])
  {
    assert packet[..headerSize][1..][..4] == packet[1..][..4];
    GetU32Local(packet[..headerSize][1..], packet[1..]);
  }

  lemma FragmentAppends(c: Codec, partial: Option<Partial>, pieces: seq<Piece>, headerSize: nat, dataSize: nat, input: bytes)
    requires Filled(partial, pieces)
    requires !ReadFragment(c, partial, headerSize, dataSize, input).Fail?
    ensures |input| >= headerSize + dataSize && headerSize >= FRAGMENT_HEADER_SIZE
    ensures var pieces' := pieces + [Piece(GetU32(input[..headerSize][1..]), input[headerSize..][..dataSize])];
            match ReadFragment(c, partial, headerSize, dataSize, input)
            case More(p, _) => p.Some? && Filled(p, pieces')
            case Complete(m, p, _) => p == None && Sound(Delivery(m, pieces')) && m.data != []
  {
    hide GetU32;
    hide WithPayload;
    hide Tiles;
    hide Concat;
    var h := input[..headerSize];
    var p := Assembly(c, partial, h[0] % 2 == 1, GetU32(h[1..]), GetU32(h[5..]), h).value;
    NothingYet();
    assert p.received == 0 ==> p.buffer[..0] == [];
    PayloadAppends(p, pieces, input[headerSize..][..dataSize]);
  }

  lemma NothingYet()
    ensures Tiles([], 0) && Concat([]) == []
  {
  }

  lemma PayloadAppends(p: Wire.Partial, pieces: seq<Piece>, payload: bytes)
    requires payload != [] && p.received + |payload| <= |p.buffer|
    requires Tiles(pieces, p.received) && Concat(pieces) == p.buffer[..p.received]
    ensures var p', pieces' := WithPayload(p, payload), pieces + [Piece(p.received, payload)];
            && p'.received == p.received + |payload| && |p'.buffer| == |p.buffer| && p'.fields == p.fields
            && Tiles(pieces', p'.received) && Concat(pieces') == p'.buffer[..p'.received]
            && (p'.received == |p'.buffer| ==> Concat(pieces') == p'.buffer)
  {
    var pieces' := pieces + [Piece(p.received, payload)];
    assert pieces'[..|pieces'| - 1] == pieces;
    assert WithPayload(p, payload).buffer[..p.received + |payload|] == p.buffer[..p.received] + payload;
  }

  /** For every byte stream: whatever is delivered from fragments is the concatenation of their
      payloads, which tile the message without a gap or an overlap and are at most 32 MiB. */
  lemma {:induction false} ReaderSound(c: Codec, accept: bool, partial: Option<Partial>, pieces: seq<Piece>, input: bytes)
    requires Filled(partial, pieces)
    ensures forall d :: d in Deliveries(c, accept, partial, pieces, input) ==> Sound(d)
    decreases |input|
  {
    hide Tiles;
    hide Concat;
    hide PieceAt;
    hide ReadFragment;
    ReadPacketConsumes(c, accept, partial, input);
    match ReadPacket(c, accept, partial, input) {
      case Fail =>
      case More(p, rest) =>
        FragmentSound(c, partial, pieces, input);
        ReaderSound(c, accept, p, pieces + [PieceAt(input)], rest);
      case Complete(m, p, rest) =>
        if Flagged(input) {
          FragmentSound(c, partial, pieces, input);
          ReaderSound(c, accept, p, [], rest);
        } else {
          ReaderSound(c, accept, p, pieces, rest);
        }
    }
  }

  function Messages(ds: seq<Delivery>): seq<Message> {
    if ds == [] then [] else [ds[0].message] + Messages(ds[1..])
  }

  /** The deliveries are the messages ReadMessage returns. */
  lemma {:induction false} DeliveriesAreMessages(c: Codec, accept: bool, partial: Option<Partial>, pieces: seq<Piece>, input: bytes)
    ensures Messages(Deliveries(c, accept, partial, pieces, input)) == ReadAll(c, accept, partial, input).messages
    decreases |input|
  {
    hide ReadFragment;
    hide ReadBody;
    hide PieceAt;
    ReadPacketConsumes(c, accept, partial, input);
    match ReadPacket(c, accept, partial, input) {
      case Fail =>
      case More(p, rest) =>
        DeliveriesAreMessages(c, accept, p, pieces + [PieceAt(input)], rest);
      case Complete(m, p, rest) =>
        DeliveriesAreMessages(c, accept, p, if Flagged(input) then [] else pieces, rest);
    }
  }

  // ---------------------------------------------------------------------------------------------
  // Every schedule of the writers of one connection.
  // ---------------------------------------------------------------------------------------------

  /** The holder of the bulk gate. */
  datatype Bulk = Bulk(message: Message, offset: nat)

  /** wire holds whole packets, torn the first bytes of a packet whose write failed.  written lists the
      messages whose write was completed, in the order of their last packets. */
  datatype Sys = Sys(interleave: bool, accept: bool, closed: bool, bulk: Option<Bulk>,
                     wire: bytes, torn: bytes, written: seq<Message>)

  const Fresh := Sys(false, false, false, None, [], [], [])

  datatype Action =
    | Offer                          // the receiver advertises interleaveV1
    | Enable                         // the sender learns that the peer accepted
    | WritePlain(message: Message)   // one packet under the write gate
    | BeginBulk(message: Message)    // take the bulk gate
    | WriteFragment                  // the next fragment under the write gate
    | AbandonBulk                    // cancelled while waiting for the pacer or the write gate
    | Tear(message: Message, n: nat) // a plain packet whose transport write fails after n bytes
    | TearFragment(n: nat)           // the same for the next fragment
    | Close                          // the connection is closed from outside

  predicate Unfinished(c: Codec, b: Option<Bulk>) {
    b.Some? && Sendable(c, b.value.message) && b.value.offset < |b.value.message.data|
  }

  predicate Enabled(c: Codec, s: Sys, a: Action) {
    match a
    case Offer => true
    case Enable => s.accept
    case WritePlain(m) => Sendable(c, m) && !s.closed
    case BeginBulk(m) => Sendable(c, m) && s.interleave && |m.data| > FRAGMENT_SIZE && s.bulk == None
    case WriteFragment => Unfinished(c, s.bulk) && !s.closed
    case AbandonBulk => s.bulk.Some?
    case Tear(m, n) => Sendable(c, m) && !s.closed && n < |PlainPacket(c, m)|
    case TearFragment(n) => Unfinished(c, s.bulk) && !s.closed
                            && n < |FragmentPacket(c, s.bulk.value.message, s.bulk.value.offset)|
    case Close => true
  }

  function Step(c: Codec, s: Sys, a: Action): Sys
    requires Enabled(c, s, a)
  {
    match a
    case Offer => s.(accept := true)
    case Enable => s.(interleave := true)
    case WritePlain(m) => s.(wire := s.wire + PlainPacket(c, m), written := s.written + [m])
    case BeginBulk(m) => s.(bulk := Some(Bulk(m, 0)))
    case WriteFragment =>
      var b := s.bulk.value;
      var next := b.offset + FragmentLength(b.message.data, b.offset);
      var s' := s.(wire := s.wire + FragmentPacket(c, b.message, b.offset));
      if next == |b.message.data| then s'.(bulk := None, written := s.written + [b.message])
      else s'.(bulk := Some(b.(offset := next)))
    case AbandonBulk => s.(bulk := None, closed := s.closed || s.bulk.value.offset > 0)
    case Tear(m, n) => s.(torn := PlainPacket(c, m)[..n], closed := true)
    case TearFragment(n) =>
      s.(torn := FragmentPacket(c, s.bulk.value.message, s.bulk.value.offset)[..n], bulk := None, closed := true)
    case Close => s.(closed := true)
  }

  predicate Possible(c: Codec, s: Sys, run: seq<Action>)
    decreases |run|
  {
    run != [] ==> Enabled(c, s, run[0]) && Possible(c, Step(c, s, run[0]), run[1..])
  }

  function Exec(c: Codec, s: Sys, run: seq<Action>): Sys
    requires Possible(c, s, run)
    decreases |run|
  {
    if run == [] then s else Exec(c, Step(c, s, run[0]), run[1..])
  }

  /** The reader's assembly buffer while the bulk gate is in this state. */
  function BulkProgress(b: Option<Bulk>): Option<Partial>
    requires b.Some? ==> b.value.offset <= |b.value.message.data|
  {
    if b == None then None else Progress(b.value.message, b.value.offset)
  }

  ghost predicate Unreadable(c: Codec, torn: bytes) {
    forall accept, p :: ReadPacket(c, accept, p, torn).Fail?
  }

  ghost predicate Inv(c: Codec, s: Sys) {
    && (s.interleave ==> s.accept)
    && (s.bulk.Some? ==> s.interleave && Unfinished(c, s.bulk))
    && ReadAll(c, s.accept, None, s.wire).messages == s.written
    && !ReadAll(c, s.accept, None, s.wire).failed
    && (!s.closed ==> s.torn == [] && ReadAll(c, s.accept, None, s.wire).partial == BulkProgress(s.bulk))
    && (s.torn != [] ==> Unreadable(c, s.torn))
  }

  lemma StepKeepsInv(c: Codec, s: Sys, a: Action)
    requires Faithful(c) && Inv(c, s) && Enabled(c, s, a)
    ensures Inv(c, Step(c, s, a))
  {
    hide ReadPacket;
    hide ReadAll;
    hide FragmentPacket;
    hide PlainPacket;
    hide Progress;
    match a {
      case Offer =>
        if !s.accept {
          AcceptMonotone(c, None, s.wire);
        }
      case Enable =>
      case WritePlain(m) =>
        PlainKeepsInv(c, s, m);
      case BeginBulk(m) =>
        BeginKeepsInv(c, s, m);
      case WriteFragment =>
        FragmentKeepsInv(c, s);
      case AbandonBulk =>
        NothingSent(s.bulk.value.message);
      case Tear(m, n) =>
        TornPlainUnreadable(c, m, n);
      case TearFragment(n) =>
        TornFragmentUnreadable(c, s.bulk.value.message, s.bulk.value.offset, n);
      case Close =>
    }
  }

  lemma NothingSent(m: Message)
    ensures Progress(m, 0) == None
  {
  }

  lemma PlainKeepsInv(c: Codec, s: Sys, m: Message)
    requires Faithful(c) && Inv(c, s) && Enabled(c, s, WritePlain(m))
    ensures Inv(c, Step(c, s, WritePlain(m)))
  {
    hide ReadPacket;
    hide ReadAll;
    hide PlainPacket;
    var partial := ReadAll(c, s.accept, None, s.wire).partial;
    ReadPlain(c, s.accept, partial, m);
    ReadAllAppend(c, s.accept, None, s.wire, PlainPacket(c, m));
  }

  lemma BeginKeepsInv(c: Codec, s: Sys, m: Message)
    requires Inv(c, s) && Enabled(c, s, BeginBulk(m))
    ensures Inv(c, Step(c, s, BeginBulk(m)))
  {
    hide ReadAll;
    hide ReadPacket;
  }

  lemma FragmentKeepsInv(c: Codec, s: Sys)
    requires Faithful(c) && Inv(c, s) && Enabled(c, s, WriteFragment)
    ensures Inv(c, Step(c, s, WriteFragment))
  {
    hide ReadPacket;
    hide ReadAll;
    hide FragmentPacket;
    hide Progress;
    var b := s.bulk.value;
    ReadFragmentStep(c, b.message, b.offset);
    ReadAllAppend(c, true, None, s.wire, FragmentPacket(c, b.message, b.offset));
    assert s.written + [] == s.written;
  }

  lemma TornPlainUnreadable(c: Codec, m: Message, n: nat)
    requires Sendable(c, m) && n < |PlainPacket(c, m)|
    ensures Unreadable(c, PlainPacket(c, m)[..n])
  {
    hide ReadPacket;
    forall accept, p ensures ReadPacket(c, accept, p, PlainPacket(c, m)[..n]).Fail? {
      ReadTornPacket(c, accept, p, false, c.marshal(m.fields), m.data, n);
    }
  }

  lemma TornFragmentUnreadable(c: Codec, m: Message, offset: nat, n: nat)
    requires Sendable(c, m) && offset < |m.data| && n < |FragmentPacket(c, m, offset)|
    ensures Unreadable(c, FragmentPacket(c, m, offset)[..n])
  {
    hide ReadPacket;
    var h := FragmentHeader(c.marshal(m.fields), m.data, offset);
    forall accept, p ensures ReadPacket(c, accept, p, FragmentPacket(c, m, offset)[..n]).Fail? {
      ReadTornPacket(c, accept, p, true, h, m.data[offset..offset + FragmentLength(m.data, offset)], n);
    }
  }

  lemma {:induction false} ScheduleInvariant(c: Codec, s: Sys, run: seq<Action>)
    requires Faithful(c) && Inv(c, s) && Possible(c, s, run)
    ensures Inv(c, Exec(c, s, run))
    decreases |run|
  {
    hide Inv;
    hide Step;
    if run != [] {
      StepKeepsInv(c, s, run[0]);
      ScheduleInvariant(c, Step(c, s, run[0]), run[1..]);
    }
  }

  /** Over every schedule the reader returns each completely written message exactly once, unchanged,
      in the order in which the writes were completed.  While the connection is open it has buffered
      exactly what the holder of the bulk gate has sent, so a new bulk message always starts on an
      empty buffer; a torn write is noticed and never delivered. */
  lemma {:induction false} ScheduleRoundTrip(c: Codec, run: seq<Action>)
    requires Faithful(c) && Possible(c, Fresh, run)
    ensures var s := Exec(c, Fresh, run);
            var read := ReadAll(c, s.accept, None, s.wire + s.torn);
            && read.messages == s.written
            && (s.torn == [] ==> !read.failed)
            && (s.torn != [] ==> read.failed && s.closed)
            && (!s.closed && s.bulk == None ==> read.partial == None)
            && (!s.closed && s.bulk.Some? ==>
                  var b := s.bulk.value;
                  b.offset < |b.message.data| && read.partial == Progress(b.message, b.offset))
  {
    assert Inv(c, Fresh);
    ScheduleInvariant(c, Fresh, run);
    var s := Exec(c, Fresh, run);
    hide ReadPacket;
    hide Progress;
    ReadAllAppend(c, s.accept, None, s.wire, s.torn);
    assert s.written + [] == s.written;
  }
}
