/** The octets of a packet, and exactly which packets a connection of internal/protocol reads. */
module WireFormats {
  import opened Wrappers
  import opened Bytes
  import opened Wire

  /** Four octets, the highest first. */
  function Number(b: bytes, at: nat): nat
    requires at + 4 <= |b|
  {
    ((b[at] as int * 256 + b[at + 1]) * 256 + b[at + 2]) * 256 + b[at + 3]
  }

  lemma NumberAt(b: bytes, at: nat)
    requires at + 4 <= |b|
    ensures GetU32(b[at..]) == Number(b, at)
  {
  }

  lemma NumberOf(n: nat)
    requires n < 0x1_0000_0000
    ensures Number(U32(n), 0) == n
  {
    HighestFirst(0, n);
  }

  // ---- what is written ----

  /** A packet is the size of its header, with the highest bit set for a fragment, the size of its data, and both of them; a
      message may be sent with a header of at most 1 MiB and data of at most 32 MiB. */
  lemma {:induction false} PacketLayout(fragment: bool, header: bytes, data: bytes)
    requires |header| <= 1048585 && |data| <= 33554432
    ensures var p := EncodePacket(fragment, header, data);
            && |p| == 8 + |header| + |data| && p[8..8 + |header|] == header && p[8 + |header|..] == data
            && Number(p, 0) == |header| + (if fragment then 2147483648 else 0) && Number(p, 4) == |data|
  {
    var size := |header| + if fragment then FRAGMENT_FLAG else 0;
    NumberOf(size);
    NumberOf(|data|);
    var p := EncodePacket(fragment, header, data);
    hide U32;
    assert forall i :: 0 <= i < 4 ==> p[i] == U32(size)[i] && p[4 + i] == U32(|data|)[i];
  }

  lemma {:induction false} SendsUpTo(c: Codec, m: Message)
    ensures Sendable(c, m) <==> |c.marshal(m.fields)| <= 1048576 && |m.data| <= 33554432
  {
  }

  /** A fragment of 8192 octets, or the rest: flags for the first and the last, where it starts, how long all is, and in the
      first the message's header. */
  lemma {:induction false} FragmentLayout(c: Codec, m: Message, offset: nat)
    requires Sendable(c, m) && offset < |m.data|
    ensures var size := if |m.data| - offset < 8192 then |m.data| - offset else 8192;
            var h := FragmentHeader(c.marshal(m.fields), m.data, offset);
            && FragmentPacket(c, m, offset) == EncodePacket(true, h, m.data[offset..offset + size])
            && |h| == 9 + (if offset == 0 then |c.marshal(m.fields)| else 0)
            && h[0] == (if offset == 0 then 1 else 0) + (if offset + size == |m.data| then 2 else 0)
            && Number(h, 1) == offset && Number(h, 5) == |m.data|
            && (offset == 0 ==> h[9..] == c.marshal(m.fields))
  {
    NumberOf(offset);
    NumberOf(|m.data|);
    var h := FragmentHeader(c.marshal(m.fields), m.data, offset);
    hide U32;
    assert forall i :: 0 <= i < 4 ==> h[1 + i] == U32(offset)[i] && h[5 + i] == U32(|m.data|)[i];
  }

  // ---- what is read ----

  /** A plain packet at the front of the input. */
  ghost predicate Plain(c: Codec, input: bytes, fields: Fields) {
    && 8 <= |input|
    && (var h, d := Number(input, 0), Number(input, 4);
        && 1 <= h <= 1048576 && d <= 33554432 && 8 + h + d <= |input|
        && c.unmarshal(input[8..8 + h]) == Some(fields))
  }

  /** A fragment at the front of the input that goes on with the assembly p: with the flags and sizes of one, starting where p
      ends and ending at its end exactly if it is flagged the last. */
  ghost predicate Continues(input: bytes, p: Partial) {
    && 17 <= |input| && Number(input, 0) == 2147483648 + 9
    && (var d, flags, offset, total := Number(input, 4), input[8], Number(input, 9), Number(input, 13);
        && 1 <= d <= 8192 && 17 + d <= |input| && (flags == 0 || flags == 2)
        && offset == p.received && total == |p.buffer| && 1 <= total <= 33554432 && offset + d <= total
        && (flags == 2 <==> offset + d == total))
  }

  /** A fragment that begins a message: its header follows, and an assembly of zeros is to be filled from the start. */
  ghost predicate Begins(c: Codec, input: bytes, fields: Fields) {
    && 18 <= |input| && 2147483648 + 10 <= Number(input, 0) <= 2147483648 + 1048585
    && (var h, d, flags, offset, total := Number(input, 0) - 2147483648, Number(input, 4), input[8], Number(input, 9), Number(input, 13);
        && 1 <= d <= 8192 && 8 + h + d <= |input| && (flags == 1 || flags == 3)
        && offset == 0 && 1 <= total <= 33554432 && d <= total && (flags == 3 <==> d == total)
        && c.unmarshal(input[17..8 + h]) == Some(fields))
  }

  /** The assembly with the fragment's payload, which ends the packet. */
  function Extended(p: Partial, input: bytes): Partial
    requires 8 <= |input| && 2147483648 <= Number(input, 0)
    requires 8 + (Number(input, 0) - 2147483648) + Number(input, 4) <= |input| && p.received + Number(input, 4) <= |p.buffer|
  {
    var h, d := Number(input, 0) - 2147483648, Number(input, 4);
    var payload := input[8 + h..8 + h + d];
    Partial(p.fields, p.buffer[..p.received] + payload + p.buffer[p.received + d..], p.received + d)
  }

  function Rest(input: bytes): bytes
    requires 8 <= |input| && 2147483648 <= Number(input, 0) && 8 + (Number(input, 0) - 2147483648) + Number(input, 4) <= |input|
  {
    input[8 + (Number(input, 0) - 2147483648) + Number(input, 4)..]
  }

  /** What fragments amount to. */
  function Taken(p: Partial, rest: bytes): Packet {
    if p.received == |p.buffer| then Complete(Message(p.fields, p.buffer), None, rest) else More(Some(p), rest)
  }

  lemma {:induction false} ReadsPlain(c: Codec, accept: bool, partial: Option<Partial>, input: bytes)
    requires 8 <= |input| && Number(input, 0) < 2147483648
    ensures forall fields :: Plain(c, input, fields) ==>
              var h, d := Number(input, 0), Number(input, 4);
              ReadPacket(c, accept, partial, input) == Complete(Message(fields, input[8 + h..8 + h + d]), partial, input[8 + h + d..])
    ensures (forall fields :: !Plain(c, input, fields)) ==> ReadPacket(c, accept, partial, input) == Fail
  {
    NumberAt(input, 0);
    NumberAt(input, 4);
    assert input[0..] == input;
    hide GetU32;
    hide Number;
    var h, d, body := Number(input, 0), Number(input, 4), input[8..];
    if 8 + h <= |input| {
      assert body[..h] == input[8..8 + h];
      if 8 + h + d <= |input| {
        assert body[h..][..d] == input[8 + h..8 + h + d] && body[h + d..] == input[8 + h + d..];
        if c.unmarshal(input[8..8 + h]).Some? && 1 <= h <= 1048576 && d <= 33554432 {
          assert Plain(c, input, c.unmarshal(input[8..8 + h]).value);
        }
      }
    }
  }

  /** The parts of a fragment's header where they stand in the input. */
  lemma HeaderParts(input: bytes, size: nat)
    requires 9 <= size && 8 + size <= |input|
    ensures var h := input[8..][..size];
            && h == input[8..8 + size] && h[0] == input[8] && h[9..] == input[17..8 + size]
            && GetU32(h[1..]) == Number(input, 9) && GetU32(h[5..]) == Number(input, 13)
  {
    var h := input[8..][..size];
    NumberAt(h, 1);
    NumberAt(h, 5);
    hide GetU32;
    assert forall i :: 0 <= i < size ==> h[i] == input[8 + i];
  }

  lemma Payload(input: bytes, size: nat, d: nat)
    requires 8 + size + d <= |input|
    ensures input[8..][size..][..d] == input[8 + size..8 + size + d] && input[8..][size + d..] == input[8 + size + d..]
  {
  }

  /** Whether flags, sizes and offsets fit together, whatever the assembly. */
  ghost predicate Shaped(input: bytes) {
    && 17 <= |input| && 2147483648 + 9 <= Number(input, 0) <= 2147483648 + 1048585
    && (var h, d, flags, offset, total := Number(input, 0) - 2147483648, Number(input, 4), input[8], Number(input, 9), Number(input, 13);
        && 1 <= d <= 8192 && 8 + h <= |input| && flags < 4 && 1 <= total <= 33554432 && offset + d <= total
        && (flags / 2 == 1 <==> offset + d == total))
  }

  lemma NotShaped(c: Codec, partial: Option<Partial>, input: bytes)
    requires 8 <= |input| && 2147483648 <= Number(input, 0) && !Shaped(input)
    ensures ReadFragment(c, partial, Number(input, 0) - 2147483648, Number(input, 4), input[8..]) == Fail
  {
    var size := Number(input, 0) - 2147483648;
    if 9 <= size && 8 + size <= |input| {
      HeaderParts(input, size);
    }
    hide GetU32;
    hide Number;
    hide Assembly;
    hide WithPayload;
  }

  lemma IsShaped(c: Codec, partial: Option<Partial>, input: bytes)
    requires Shaped(input)
    ensures var size, d := Number(input, 0) - 2147483648, Number(input, 4); var first := input[8] == 1 || input[8] == 3;
            ReadFragment(c, partial, size, d, input[8..]) ==
            match Assembly(c, partial, first, Number(input, 9), Number(input, 13), input[8..8 + size])
            case None => Fail
            case Some(p) =>
              if p.received != Number(input, 9) || |p.buffer| != Number(input, 13) || |input| < 8 + size + d then Fail
              else Taken(WithPayload(p, input[8 + size..8 + size + d]), input[8 + size + d..])
  {
    hide GetU32;
    hide Number;
    hide Assembly;
    hide WithPayload;
    var size, d := Number(input, 0) - 2147483648, Number(input, 4);
    HeaderParts(input, size);
    var first := input[8] == 1 || input[8] == 3;
    assert first <==> input[8] % 2 == 1;
    var a := Assembly(c, partial, first, Number(input, 9), Number(input, 13), input[8..8 + size]);
    if 8 + size + d <= |input| {
      Payload(input, size, d);
      if a.Some? && a.value.received == Number(input, 9) && |a.value.buffer| == Number(input, 13) {
        PayloadKeeps(a.value, input[8 + size..8 + size + d]);
      }
    }
  }

  lemma PayloadKeeps(p: Partial, payload: bytes)
    requires p.received + |payload| <= |p.buffer|
    ensures WithPayload(p, payload).received == p.received + |payload| && |WithPayload(p, payload).buffer| == |p.buffer|
  {
  }

  /** While a message is being assembled a fragment is read exactly if the peer may send them and it continues the assembly; the
      rest of the input stays. */
  lemma {:induction false} ReadsContinued(c: Codec, accept: bool, p: Partial, input: bytes)
    requires 8 <= |input| && 2147483648 <= Number(input, 0)
    ensures ReadPacket(c, accept, Some(p), input) ==
            if accept && Continues(input, p) then Taken(Extended(p, input), Rest(input)) else Fail
  {
    hide GetU32;
    hide Number;
    FragmentRead(c, accept, Some(p), input);
    hide ReadPacket;
    hide ReadFragment;
    hide Assembly;
    hide WithPayload;
    hide Taken;
    if Shaped(input) {
      IsShaped(c, Some(p), input);
      ShapedContinues(c, p, input);
    } else {
      NotShaped(c, Some(p), input);
      OnlyShaped(c, input, p);
    }
    hide Shaped;
    hide Extended;
  }

  /** While none is, exactly if it begins one. */
  lemma {:induction false} ReadsBegun(c: Codec, accept: bool, input: bytes)
    requires 8 <= |input| && 2147483648 <= Number(input, 0)
    ensures forall fields :: accept && Begins(c, input, fields) ==>
              ReadPacket(c, accept, None, input) == Taken(Extended(Partial(fields, Zeros(Number(input, 13)), 0), input), Rest(input))
    ensures !accept || (forall fields :: !Begins(c, input, fields)) ==> ReadPacket(c, accept, None, input) == Fail
  {
    hide GetU32;
    hide Number;
    FragmentRead(c, accept, None, input);
    hide ReadPacket;
    hide ReadFragment;
    hide Assembly;
    hide WithPayload;
    hide Taken;
    if Shaped(input) {
      IsShaped(c, None, input);
      ShapedBegins(c, input);
      forall fields | Begins(c, input, fields) ensures |Zeros(Number(input, 13))| == Number(input, 13) {
      }
    } else {
      NotShaped(c, None, input);
      forall fields ensures !Begins(c, input, fields) {
        OnlyShapedBegin(c, input, fields);
      }
    }
    hide Shaped;
    hide Extended;
  }

  lemma FragmentRead(c: Codec, accept: bool, partial: Option<Partial>, input: bytes)
    requires 8 <= |input| && 2147483648 <= Number(input, 0)
    ensures ReadPacket(c, accept, partial, input) ==
            if accept then ReadFragment(c, partial, Number(input, 0) - 2147483648, Number(input, 4), input[8..]) else Fail
  {
    hide GetU32;
    hide Number;
    hide ReadFragment;
    NumberAt(input, 0);
    NumberAt(input, 4);
    assert input[0..] == input;
  }

  lemma OnlyShaped(c: Codec, input: bytes, p: Partial)
    ensures Continues(input, p) ==> Shaped(input)
  {
    hide Number;
  }

  lemma OnlyShapedBegin(c: Codec, input: bytes, fields: Fields)
    ensures Begins(c, input, fields) ==> Shaped(input)
  {
    hide Number;
  }

  lemma ShapedContinues(c: Codec, p: Partial, input: bytes)
    requires Shaped(input)
    ensures var size, d := Number(input, 0) - 2147483648, Number(input, 4); var first := input[8] == 1 || input[8] == 3;
            var a := Assembly(c, Some(p), first, Number(input, 9), Number(input, 13), input[8..8 + size]);
            && (a == Some(p) && p.received == Number(input, 9) && |p.buffer| == Number(input, 13) && 8 + size + d <= |input| <==> Continues(input, p))
            && (a == None || a == Some(p))
            && (Continues(input, p) ==>
                  Extended(p, input) == WithPayload(p, input[8 + size..8 + size + d]) && Rest(input) == input[8 + size + d..])
  {
    hide Number;
    assert input[8] / 2 == 1 <==> input[8] == 2 || input[8] == 3;
  }

  lemma ShapedBegins(c: Codec, input: bytes)
    requires Shaped(input)
    ensures var size, d := Number(input, 0) - 2147483648, Number(input, 4); var first := input[8] == 1 || input[8] == 3;
            var a := Assembly(c, None, first, Number(input, 9), Number(input, 13), input[8..8 + size]);
            && (forall fields :: Begins(c, input, fields) ==>
                  && a == Some(Partial(fields, Zeros(Number(input, 13)), 0)) && 8 + size + d <= |input| && Number(input, 9) == 0
                  && Extended(a.value, input) == WithPayload(a.value, input[8 + size..8 + size + d]) && Rest(input) == input[8 + size + d..])
            && ((forall fields :: !Begins(c, input, fields)) ==>
                  a == None || a.value.received != Number(input, 9) || |input| < 8 + size + d)
  {
    hide Number;
    var size := Number(input, 0) - 2147483648;
    assert input[8..8 + size][9..] == input[17..8 + size];
    assert input[8] / 2 == 1 <==> input[8] == 2 || input[8] == 3;
    if c.unmarshal(input[17..8 + size]).Some? && 8 + size + Number(input, 4) <= |input| && (input[8] == 1 || input[8] == 3)
       && Number(input, 9) == 0 && size != 9 {
      assert Begins(c, input, c.unmarshal(input[17..8 + size]).value);
    }
  }

  lemma {:induction false} ReadsNothing(c: Codec, accept: bool, partial: Option<Partial>, input: bytes)
    requires |input| < 8
    ensures ReadPacket(c, accept, partial, input) == Fail
  {
  }
}
