/** The Binding endpoint of internal/natstun/server.go: what it answers to a packet, in terms of the message format of
  RFC 8489. */
module Stun {
  import opened Bytes
  import opened Wrappers

  const COOKIE: nat := 0x2112_a442
  const MAX_REQUEST: nat := 576
  const MAX_UNKNOWN: nat := 139
  const MAX_RESPONSE: nat := 320
  const FINGERPRINT: nat := 0x8028
  const FINGERPRINT_XOR: nat := 0x5354_554e
  const XOR_MAPPED_ADDRESS: nat := 0x0020
  const ERROR_CODE: nat := 0x0009
  const UNKNOWN_ATTRIBUTES: nat := 0x000a
  const BINDING_REQUEST: nat := 0x0001
  const BINDING_SUCCESS: nat := 0x0101
  const BINDING_ERROR: nat := 0x0111

  // ---- messages: sections 5 and 14 of RFC 8489 ----

  datatype Attribute = Attribute(kind: nat, value: bytes)

  /** transaction is the cookie and the transaction identifier. */
  datatype Message = Message(kind: nat, transaction: bytes, attributes: seq<Attribute>)

  function Padded(size: nat): (n: nat)
    ensures size <= n < size + 4 && n % 4 == 0
  {
    (size + 3) / 4 * 4
  }

  function Zeros(n: nat): (z: bytes)
    ensures |z| == n
  {
    seq(n, _ => 0)
  }

  predicate Encodable(a: Attribute) {
    a.kind < 0x1_0000 && |a.value| < 0x1_0000
  }

  function EncodeAttribute(a: Attribute): (b: bytes)
    requires Encodable(a)
    ensures |b| == 4 + Padded(|a.value|)
  {
    U16(a.kind) + U16(|a.value|) + a.value + Zeros(Padded(|a.value|) - |a.value|)
  }

  function EncodeAttributes(attributes: seq<Attribute>): bytes
    requires forall i :: 0 <= i < |attributes| ==> Encodable(attributes[i])
  {
    if attributes == [] then [] else EncodeAttribute(attributes[0]) + EncodeAttributes(attributes[1..])
  }

  function Encode(m: Message): bytes
    requires m.kind < 0x1_0000 && forall i :: 0 <= i < |m.attributes| ==> Encodable(m.attributes[i])
    requires |EncodeAttributes(m.attributes)| < 0x1_0000
  {
    U16(m.kind) + U16(|EncodeAttributes(m.attributes)|) + m.transaction + EncodeAttributes(m.attributes)
  }

  function ParseAttributes(b: bytes): Option<seq<Attribute>>
    decreases |b|
  {
    if b == [] then Some([])
    else if |b| < 4 then None
    else
      var size := GetU16(b[2..]);
      if 4 + Padded(size) > |b| then None
      else
        match ParseAttributes(b[4 + Padded(size)..])
        case None => None
        case Some(rest) => Some([Attribute(GetU16(b), b[4..4 + size])] + rest)
  }

  /** The message that a packet holds: the length field tells the rest of the packet, which is a multiple of four. */
  function Decode(b: bytes): Option<Message> {
    if |b| < 20 || GetU32(b[4..]) != COOKIE || GetU16(b[2..]) != |b| - 20 || |b| % 4 != 0 then None
    else
      match ParseAttributes(b[20..])
      case None => None
      case Some(attributes) => Some(Message(GetU16(b), b[4..20], attributes))
  }

  lemma ReadU16(n: nat, rest: bytes)
    requires n < 0x1_0000
    ensures |U16(n)| == 2 && GetU16(U16(n) + rest) == n
  {
  }

  lemma HeadParses(a: Attribute, rest: bytes)
    requires Encodable(a)
    ensures var b := EncodeAttribute(a) + rest;
            && |b| >= 4 && GetU16(b) == a.kind && GetU16(b[2..]) == |a.value| && b[4..4 + |a.value|] == a.value
            && b[4 + Padded(|a.value|)..] == rest
  {
    var b := EncodeAttribute(a) + rest;
    var padding := Zeros(Padded(|a.value|) - |a.value|);
    ReadU16(a.kind, U16(|a.value|) + a.value + padding + rest);
    ReadU16(|a.value|, a.value + padding + rest);
    hide GetU16;
    hide U16;
    assert b == U16(a.kind) + (U16(|a.value|) + a.value + padding + rest);
    assert b[2..] == U16(|a.value|) + (a.value + padding + rest);
  }

  lemma {:induction false} ParseEncoded(attributes: seq<Attribute>)
    requires forall i :: 0 <= i < |attributes| ==> Encodable(attributes[i])
    ensures ParseAttributes(EncodeAttributes(attributes)) == Some(attributes)
    decreases |attributes|
  {
    hide GetU16;
    hide EncodeAttribute;
    hide Padded;
    if attributes != [] {
      ParseEncoded(attributes[1..]);
      var a, rest := attributes[0], EncodeAttributes(attributes[1..]);
      ParseHead(a, rest, attributes[1..]);
      assert attributes == [a] + attributes[1..];
    }
  }

  lemma {:induction false} EncodedSize(attributes: seq<Attribute>)
    requires forall i :: 0 <= i < |attributes| ==> Encodable(attributes[i])
    ensures |EncodeAttributes(attributes)| % 4 == 0
    decreases |attributes|
  {
    hide EncodeAttribute;
    hide Padded;
    if attributes != [] {
      EncodedSize(attributes[1..]);
    }
  }

  lemma ParseHead(a: Attribute, rest: bytes, more: seq<Attribute>)
    requires Encodable(a) && ParseAttributes(rest) == Some(more)
    ensures ParseAttributes(EncodeAttribute(a) + rest) == Some([a] + more)
  {
    HeadParses(a, rest);
    hide GetU16;
    hide EncodeAttribute;
    hide Padded;
  }

  /** Every message is read back from its encoding. */
  lemma {:induction false} DecodeEncoded(m: Message)
    requires Encode.requires(m) && |m.transaction| == 16 && GetU32(m.transaction) == COOKIE
    ensures Decode(Encode(m)) == Some(m)
  {
    hide GetU16;
    hide GetU32;
    hide U16;
    hide EncodeAttributes;
    hide ParseAttributes;
    ParseEncoded(m.attributes);
    EncodedSize(m.attributes);
    DecodeParts(m.kind, m.transaction, EncodeAttributes(m.attributes));
  }

  lemma DecodeParts(kind: nat, transaction: bytes, body: bytes)
    requires kind < 0x1_0000 && |transaction| == 16 && |body| < 0x1_0000
    ensures var b := U16(kind) + U16(|body|) + transaction + body;
            && |b| == 20 + |body| && GetU16(b) == kind && GetU16(b[2..]) == |body| && GetU32(b[4..]) == GetU32(transaction)
            && b[4..20] == transaction && b[20..] == body
  {
    var b := U16(kind) + U16(|body|) + transaction + body;
    ReadU16(kind, U16(|body|) + transaction + body);
    ReadU16(|body|, transaction + body);
    FrontU32(transaction, body);
    hide GetU16;
    hide GetU32;
    hide U16;
    assert b == U16(kind) + (U16(|body|) + transaction + body);
    assert b[2..] == U16(|body|) + (transaction + body);
    assert b[4..] == transaction + body;
  }

  lemma FrontU32(a: bytes, rest: bytes)
    requires |a| >= 4
    ensures GetU32(a + rest) == GetU32(a)
  {
    assert (a + rest)[2..][0] == a[2..][0] && (a + rest)[2..][1] == a[2..][1];
  }

  lemma {:induction false} FewAttributes(b: bytes)
    ensures ParseAttributes(b).Some? ==> 4 * |ParseAttributes(b).value| <= |b|
    decreases |b|
  {
    if |b| >= 4 && 4 + Padded(GetU16(b[2..])) <= |b| {
      FewAttributes(b[4 + Padded(GetU16(b[2..]))..]);
    }
  }

  // ---- the source address ----

  function To4(ip: bytes): Option<bytes> {
    if |ip| == 4 then Some(ip)
    else if |ip| == 16 && ip[..12] == [0, 0, 0, 0, 0, 0, 0, 0, 0, 0, 0xff, 0xff] then Some(ip[12..])
    else None
  }

  /** The address in its shortest form, unless it is none that a reply can go to. */
  function Source(ip: bytes): Option<bytes> {
    match To4(ip)
    case Some(v4) => if v4 == [0, 0, 0, 0] || v4[0] / 16 == 14 then None else Some(v4)
    case None => if |ip| != 16 || ip == Zeros(16) || ip[0] == 0xff then None else Some(ip)
  }

  lemma SourceSize(ip: bytes)
    ensures Source(ip).Some? ==> |Source(ip).value| == 4 || |Source(ip).value| == 16
  {
  }

  // ---- the answer ----

  predicate Credential(kind: nat) {
    kind in {0x0006, 0x0008, 0x0014, 0x0015, 0x001c, 0x001d, 0x001e, 0x8002}
  }

  predicate Unknown(kind: nat) {
    kind < 0x8000 && !Credential(kind)
  }

  /** The unknown comprehension-required types, each where it first occurs. */
  function Unknowns(attributes: seq<Attribute>): seq<nat> {
    if attributes == [] then []
    else
      var before, kind := Unknowns(attributes[..|attributes| - 1]), attributes[|attributes| - 1].kind;
      if Unknown(kind) && kind !in before then before + [kind] else before
  }

  predicate HasCredentials(attributes: seq<Attribute>) {
    exists i :: 0 <= i < |attributes| && Credential(attributes[i].kind)
  }

  predicate HasFingerprint(attributes: seq<Attribute>) {
    attributes != [] && attributes[|attributes| - 1].kind == FINGERPRINT
  }

  /** CRC-32, of which only the width is assumed. */
  type Checksum = bytes -> nat

  ghost predicate Wide(crc: Checksum) {
    forall b :: crc(b) < 0x1_0000_0000
  }

  /** The value of a fingerprint over what stands before it. */
  function Stamp(crc: Checksum, before: bytes): nat {
    Xor(crc(before), FINGERPRINT_XOR)
  }

  /** A fingerprint stands last, is four bytes long and fits the packet: section 14.7 of RFC 8489. */
  predicate FingerprintFits(crc: Checksum, b: bytes, attributes: seq<Attribute>) {
    && (forall i :: 0 <= i < |attributes| - 1 ==> attributes[i].kind != FINGERPRINT)
    && (HasFingerprint(attributes) ==>
          |attributes[|attributes| - 1].value| == 4 && |b| >= 8
          && GetU32(attributes[|attributes| - 1].value) == Stamp(crc, b[..|b| - 8]))
  }

  /** The request is one to answer. */
  predicate Acceptable(crc: Checksum, b: bytes, ip: bytes, port: int) {
    && |b| <= MAX_REQUEST && Decode(b).Some? && Decode(b).value.kind == BINDING_REQUEST
    && FingerprintFits(crc, b, Decode(b).value.attributes)
    && 0 < port <= 65535 && Source(ip).Some?
  }

  function XorBytes(a: bytes, b: bytes): bytes
    requires |a| <= |b|
  {
    seq(|a|, i requires 0 <= i < |a| => XorByte(a[i], b[i]))
  }

  function XorByte(a: byte, b: byte): byte {
    assert Xor(a, b) < 256 by {
      assert Pow2(8) == 256 by {
        assert Pow2(4) == 16;
      }
      XorBound(a, b, 8);
    }
    Xor(a, b)
  }

  function XorPort(port: nat): (x: nat)
    requires port <= 65535
    ensures x <= 65535
  {
    assert Pow2(16) == 65536 by {
      assert Pow2(4) == 16;
      assert Pow2(8) == 256;
      assert Pow2(12) == 4096;
    }
    XorBound(port, 0x2112, 16);
    Xor(port, 0x2112)
  }

  /** XOR-MAPPED-ADDRESS: section 14.2 of RFC 8489. */
  function MappedAddress(source: bytes, port: nat, transaction: bytes): Attribute
    requires |source| <= 16 == |transaction| && port <= 65535
  {
    Attribute(XOR_MAPPED_ADDRESS, [0, if |source| == 4 then 1 else 2] + U16(XorPort(port)) + XorBytes(source, transaction))
  }

  /** ERROR-CODE without a reason phrase: section 14.8. */
  function ErrorCode(code: nat): Attribute
    requires code < 25600
  {
    Attribute(ERROR_CODE, [0, 0, code / 100, code % 100])
  }

  function Types(kinds: seq<nat>): (b: bytes)
    requires forall i :: 0 <= i < |kinds| ==> kinds[i] < 0x1_0000
    ensures |b| == 2 * |kinds|
  {
    if kinds == [] then [] else Types(kinds[..|kinds| - 1]) + U16(kinds[|kinds| - 1])
  }

  /** UNKNOWN-ATTRIBUTES: section 14.13. */
  function UnknownList(kinds: seq<nat>): Attribute
    requires forall i :: 0 <= i < |kinds| ==> kinds[i] < 0x1_0000
  {
    Attribute(UNKNOWN_ATTRIBUTES, Types(kinds))
  }

  lemma {:induction false} UnknownsExact(attributes: seq<Attribute>)
    ensures var u := Unknowns(attributes);
            && (forall k :: k in u <==> Unknown(k) && exists i :: 0 <= i < |attributes| && attributes[i].kind == k)
            && (forall i, j :: 0 <= i < j < |u| ==> u[i] != u[j])
            && |u| <= |attributes|
    decreases |attributes|
  {
    if attributes != [] {
      var n := |attributes| - 1;
      UnknownsExact(attributes[..n]);
      assert forall i :: 0 <= i < n ==> attributes[..n][i].kind == attributes[i].kind;
    }
  }

  /** The attributes of the answer, fingerprint apart. */
  function AnswerAttributes(m: Message, source: bytes, port: nat): (a: seq<Attribute>)
    requires |source| <= 16 == |m.transaction| && port <= 65535
    ensures forall i :: 0 <= i < |a| ==> a[i].kind < 0x1_0000
  {
    if HasCredentials(m.attributes) then [ErrorCode(400)]
    else
      UnknownsExact(m.attributes);
      var u := Unknowns(m.attributes);
      assert forall i :: 0 <= i < |u| ==> u[i] in u;
      if u != [] then [ErrorCode(420), UnknownList(u)]
      else [MappedAddress(source, port, m.transaction)]
  }

  function AnswerKind(m: Message): nat {
    if HasCredentials(m.attributes) || Unknowns(m.attributes) != [] then BINDING_ERROR else BINDING_SUCCESS
  }

  // ---- the answer on the wire ----

  function StampAttribute(crc: Checksum, before: bytes): (a: Attribute)
    requires crc(before) < 0x1_0000_0000
    ensures Encodable(a) && |a.value| == 4
  {
    StampWidth(crc(before));
    Attribute(FINGERPRINT, U32(Stamp(crc, before)))
  }

  lemma StampWidth(n: nat)
    requires n < 0x1_0000_0000
    ensures Xor(n, FINGERPRINT_XOR) < 0x1_0000_0000
  {
    assert Pow2(8) == 256 by {
      assert Pow2(4) == 16;
    }
    assert Pow2(16) == 65536 by {
      assert Pow2(12) == 4096;
    }
    assert Pow2(24) == 0x100_0000 by {
      assert Pow2(20) == 0x10_0000;
    }
    assert Pow2(32) == 0x1_0000_0000 by {
      assert Pow2(28) == 0x1000_0000;
    }
    XorBound(n, FINGERPRINT_XOR, 32);
  }

  /** The header goes before the body, and a fingerprint of all that after it. */
  function Finished(crc: Checksum, kind: nat, transaction: bytes, body: bytes, fingerprint: bool): bytes
    requires kind < 0x1_0000 && |body| + 8 < 0x1_0000
    requires fingerprint ==> forall b :: crc(b) < 0x1_0000_0000
  {
    var before := U16(kind) + U16(|body| + (if fingerprint then 8 else 0)) + transaction + body;
    if fingerprint then before + EncodeAttribute(StampAttribute(crc, before)) else before
  }

  lemma {:induction false} EncodeAppend(a: seq<Attribute>, last: Attribute)
    requires Encodable(last) && forall i :: 0 <= i < |a| ==> Encodable(a[i])
    ensures EncodeAttributes(a + [last]) == EncodeAttributes(a) + EncodeAttribute(last)
    decreases |a|
  {
    hide EncodeAttribute;
    if a == [] {
      assert a + [last] == [last] && [last][1..] == [];
    } else {
      EncodeAppend(a[1..], last);
      assert (a + [last])[1..] == a[1..] + [last];
    }
  }

  /** What is finished is a well-formed message with these attributes, and a fingerprint that fits if asked for. */
  lemma {:induction false} FinishedDecodes(crc: Checksum, kind: nat, transaction: bytes, attributes: seq<Attribute>, fingerprint: bool)
    requires Wide(crc) && kind < 0x1_0000 && |transaction| == 16 && GetU32(transaction) == COOKIE
    requires forall i :: 0 <= i < |attributes| ==> Encodable(attributes[i]) && attributes[i].kind != FINGERPRINT
    requires |EncodeAttributes(attributes)| + 8 < 0x1_0000
    ensures var b := Finished(crc, kind, transaction, EncodeAttributes(attributes), fingerprint);
            && |b| == 20 + |EncodeAttributes(attributes)| + (if fingerprint then 8 else 0)
            && Decode(b).Some? && Decode(b).value.kind == kind && Decode(b).value.transaction == transaction
            && (if fingerprint then
                  Decode(b).value.attributes == attributes + [StampAttribute(crc, b[..|b| - 8])]
                else Decode(b).value.attributes == attributes)
            && FingerprintFits(crc, b, Decode(b).value.attributes)
  {
    hide Decode;
    hide GetU32;
    hide U16;
    var body := EncodeAttributes(attributes);
    var b := Finished(crc, kind, transaction, body, fingerprint);
    if !fingerprint {
      assert b == Encode(Message(kind, transaction, attributes));
      DecodeEncoded(Message(kind, transaction, attributes));
    } else {
      var before := b[..|b| - 8];
      assert before == U16(kind) + U16(|body| + 8) + transaction + body;
      var last := StampAttribute(crc, before);
      EncodeAppend(attributes, last);
      assert b == U16(kind) + U16(|body| + 8) + transaction + (body + EncodeAttribute(last));
      DecodeEncoded(Message(kind, transaction, attributes + [last]));
      StampReads(crc, before);
    }
  }

  lemma StampReads(crc: Checksum, before: bytes)
    requires crc(before) < 0x1_0000_0000
    ensures GetU32(StampAttribute(crc, before).value) == Stamp(crc, before)
  {
    StampWidth(crc(before));
    U32RoundTrip(Stamp(crc, before), []);
    assert U32(Stamp(crc, before)) + [] == U32(Stamp(crc, before));
  }

  /** The answer to a packet from a source address, if there is one: the specification of bindingResponse. */
  function Reply(crc: Checksum, b: bytes, ip: bytes, port: int): Option<bytes>
    requires forall x :: crc(x) < 0x1_0000_0000
  {
    if !Acceptable(crc, b, ip, port) then None
    else
      var m := Decode(b).value;
      SourceSize(ip);
      AnswerFits(b, Source(ip).value, port);
      Some(Finished(crc, AnswerKind(m), m.transaction, EncodeAttributes(AnswerAttributes(m, Source(ip).value, port)),
                    HasFingerprint(m.attributes)))
  }

  lemma EncodedOne(a: Attribute)
    requires Encodable(a)
    ensures EncodeAttributes([a]) == EncodeAttribute(a)
  {
    hide EncodeAttribute;
    assert [a][1..] == [];
  }

  lemma EncodedTwo(a: Attribute, b: Attribute)
    requires Encodable(a) && Encodable(b)
    ensures EncodeAttributes([a, b]) == EncodeAttribute(a) + EncodeAttribute(b)
  {
    hide EncodeAttribute;
    assert [a, b] == [a] + [b];
    EncodedOne(a);
    EncodeAppend([a], b);
  }

  lemma RequestParts(b: bytes)
    requires |b| <= MAX_REQUEST && Decode(b).Some?
    ensures var m := Decode(b).value;
            |m.transaction| == 16 && m.transaction == b[4..20] && GetU32(m.transaction) == COOKIE && |m.attributes| <= MAX_UNKNOWN
  {
    FewAttributes(b[20..]);
    FrontU32(b[4..20], b[20..]);
    assert b[4..20] + b[20..] == b[4..];
    hide GetU32;
    hide GetU16;
  }

  lemma AnswerFits(b: bytes, source: bytes, port: nat)
    requires |b| <= MAX_REQUEST && Decode(b).Some? && port <= 65535 && (|source| == 4 || |source| == 16)
    ensures var m := Decode(b).value; |m.transaction| == 16 && GetU32(m.transaction) == COOKIE && m.transaction == b[4..20]
    ensures var m := Decode(b).value; var a := AnswerAttributes(m, source, port);
            && (forall i :: 0 <= i < |a| ==> Encodable(a[i]) && a[i].kind != FINGERPRINT)
            && |EncodeAttributes(a)| <= MAX_RESPONSE - 28
            && |Unknowns(m.attributes)| <= MAX_UNKNOWN
  {
    var m := Decode(b).value;
    RequestParts(b);
    UnknownsExact(m.attributes);
    hide Decode;
    hide GetU32;
    hide Unknowns;
    hide HasCredentials;
    hide EncodeAttributes;
    var a := AnswerAttributes(m, source, port);
    if HasCredentials(m.attributes) {
      EncodedOne(ErrorCode(400));
    } else if Unknowns(m.attributes) != [] {
      var u := Unknowns(m.attributes);
      assert forall i :: 0 <= i < |u| ==> u[i] in u;
      EncodedTwo(ErrorCode(420), UnknownList(u));
      assert Padded(2 * MAX_UNKNOWN) == 280;
    } else {
      EncodedOne(MappedAddress(source, port, m.transaction));
    }
  }

  lemma AcceptableParts(crc: Checksum, b: bytes, ip: bytes, port: int)
    requires Acceptable(crc, b, ip, port)
    ensures |b| <= MAX_REQUEST && Decode(b).Some? && 0 < port <= 65535 && Source(ip).Some?
    ensures |Source(ip).value| == 4 || |Source(ip).value| == 16
  {
    SourceSize(ip);
    hide Decode;
    hide FingerprintFits;
    hide Source;
  }

  /** The message that an acceptable request is answered with. */
  lemma {:induction false} ReplyDecodes(crc: Checksum, b: bytes, ip: bytes, port: int) returns (m: Message)
    requires Wide(crc) && Acceptable(crc, b, ip, port)
    ensures Source(ip).Some? && 0 < port <= 65535 && |Decode(b).value.transaction| == 16 && |Source(ip).value| <= 16
    ensures Reply(crc, b, ip, port).Some? && Decode(Reply(crc, b, ip, port).value) == Some(m)
    ensures |Reply(crc, b, ip, port).value| <= MAX_RESPONSE
    ensures var request := Decode(b).value; m.kind == AnswerKind(request) && m.transaction == request.transaction == b[4..20]
    ensures var answer := AnswerAttributes(Decode(b).value, Source(ip).value, port);
            |answer| <= |m.attributes| && m.attributes[..|answer|] == answer
    ensures HasFingerprint(m.attributes) == HasFingerprint(Decode(b).value.attributes)
    ensures FingerprintFits(crc, Reply(crc, b, ip, port).value, m.attributes)
  {
    hide Decode;
    hide EncodeAttributes;
    hide Unknowns;
    hide FingerprintFits;
    hide Source;
    hide HasCredentials;
    AcceptableParts(crc, b, ip, port);
    hide Acceptable;
    var request := Decode(b).value;
    AnswerFits(b, Source(ip).value, port);
    var answer := AnswerAttributes(request, Source(ip).value, port);
    hide AnswerAttributes;
    hide GetU32;
    FinishedDecodes(crc, AnswerKind(request), request.transaction, answer, HasFingerprint(request.attributes));
    hide Finished;
    var r := Reply(crc, b, ip, port).value;
    m := Decode(r).value;
    LastIsFingerprint(crc, answer, r[..|r| - 8], m.attributes, HasFingerprint(request.attributes));
  }

  lemma LastIsFingerprint(crc: Checksum, answer: seq<Attribute>, before: bytes, attributes: seq<Attribute>, fingerprint: bool)
    requires Wide(crc) && forall i :: 0 <= i < |answer| ==> answer[i].kind != FINGERPRINT
    requires attributes == if fingerprint then answer + [StampAttribute(crc, before)] else answer
    ensures HasFingerprint(attributes) == fingerprint && |answer| <= |attributes| && attributes[..|answer|] == answer
  {
  }

  /** Every answer is a well-formed message of at most 320 bytes that echoes the transaction identifier, and carries a
      fingerprint, which fits, exactly when the request does.  An answer is given to acceptable requests only. */
  lemma {:induction false} ReplyWellFormed(crc: Checksum, b: bytes, ip: bytes, port: int) returns (m: Message)
    requires Wide(crc) && Reply(crc, b, ip, port).Some?
    ensures var r := Reply(crc, b, ip, port).value;
            && Acceptable(crc, b, ip, port) && 20 <= |r| <= MAX_RESPONSE && Decode(r) == Some(m)
            && m.transaction == b[4..20] && (m.kind == BINDING_SUCCESS || m.kind == BINDING_ERROR)
            && FingerprintFits(crc, r, m.attributes)
            && HasFingerprint(m.attributes) == HasFingerprint(Decode(b).value.attributes)
  {
    m := ReplyDecodes(crc, b, ip, port);
    hide FingerprintFits;
    hide AnswerAttributes;
    hide ParseAttributes;
    hide GetU32;
    hide Unknowns;
    hide Finished;
  }

  // ---- what the client reads from the answer ----

  /** The address in an XOR-MAPPED-ADDRESS attribute. */
  function ReadMapped(value: bytes, transaction: bytes): (bytes, nat)
    requires 4 <= |value| <= 4 + |transaction| && |transaction| == 16
  {
    (XorBytes(value[4..], transaction), Xor(GetU16(value[2..]), 0x2112))
  }

  lemma MappedReads(source: bytes, port: nat, transaction: bytes)
    requires |source| <= 16 == |transaction| && port <= 65535
    ensures ReadMapped(MappedAddress(source, port, transaction).value, transaction) == (source, port)
    ensures MappedAddress(source, port, transaction).value[1] == if |source| == 4 then 1 else 2
  {
    var value := MappedAddress(source, port, transaction).value;
    ReadU16(XorPort(port), XorBytes(source, transaction));
    hide GetU16;
    hide U16;
    assert value[2..] == U16(XorPort(port)) + XorBytes(source, transaction);
    XorCancels(port, 0x2112);
    assert value[4..] == XorBytes(source, transaction);
    forall i | 0 <= i < |source| ensures XorByte(XorByte(source[i], transaction[i]), transaction[i]) == source[i] {
      XorCancels(source[i], transaction[i]);
    }
    assert XorBytes(value[4..], transaction) == source;
  }

  /** A request without credentials or unknown types is answered with the address it came from. */
  lemma {:induction false} SuccessTellsSource(crc: Checksum, b: bytes, ip: bytes, port: int) returns (m: Message)
    requires Wide(crc) && Acceptable(crc, b, ip, port)
    requires var a := Decode(b).value.attributes; !HasCredentials(a) && Unknowns(a) == []
    ensures Reply(crc, b, ip, port).Some? && Decode(Reply(crc, b, ip, port).value) == Some(m)
    ensures m.kind == BINDING_SUCCESS && m.attributes != [] && m.attributes[0].kind == XOR_MAPPED_ADDRESS
    ensures |m.transaction| == 16 && 4 <= |m.attributes[0].value| <= 20
    ensures ReadMapped(m.attributes[0].value, m.transaction) == (Source(ip).value, port)
  {
    m := ReplyDecodes(crc, b, ip, port);
    hide Decode;
    hide Unknowns;
    hide Reply;
    hide FingerprintFits;
    MappedReads(Source(ip).value, port, m.transaction);
    hide ReadMapped;
    hide Source;
    assert m.attributes[..1][0] == m.attributes[0];
  }

  function ReadTypes(b: bytes): seq<nat> {
    if |b| < 2 then [] else ReadTypes(b[..|b| - 2]) + [GetU16(b[|b| - 2..])]
  }

  lemma {:induction false} TypesRead(kinds: seq<nat>)
    requires forall i :: 0 <= i < |kinds| ==> kinds[i] < 0x1_0000
    ensures ReadTypes(Types(kinds)) == kinds
    decreases |kinds|
  {
    if kinds != [] {
      var n := |kinds| - 1;
      TypesRead(kinds[..n]);
      var b := Types(kinds);
      assert b[..|b| - 2] == Types(kinds[..n]);
      ReadU16(kinds[n], []);
      assert b[|b| - 2..] == U16(kinds[n]) + [];
    }
  }

  /** A request with unknown types, and no credentials, is answered with error 420 and exactly those types, each once. */
  lemma {:induction false} ErrorListsUnknowns(crc: Checksum, b: bytes, ip: bytes, port: int) returns (m: Message, u: seq<nat>)
    requires Wide(crc) && Acceptable(crc, b, ip, port)
    requires var a := Decode(b).value.attributes; !HasCredentials(a) && Unknowns(a) != []
    ensures Reply(crc, b, ip, port).Some? && Decode(Reply(crc, b, ip, port).value) == Some(m)
    ensures m.kind == BINDING_ERROR && |m.attributes| >= 2
    ensures m.attributes[0].kind == ERROR_CODE && m.attributes[0].value == [0, 0, 4, 20]
    ensures m.attributes[1].kind == UNKNOWN_ATTRIBUTES && u == ReadTypes(m.attributes[1].value)
    ensures var a := Decode(b).value.attributes;
            forall k :: k in u <==> Unknown(k) && exists i :: 0 <= i < |a| && a[i].kind == k
    ensures (forall i, j :: 0 <= i < j < |u| ==> u[i] != u[j]) && |u| <= MAX_UNKNOWN
  {
    m := ReplyDecodes(crc, b, ip, port);
    var request := Decode(b).value;
    u := Unknowns(request.attributes);
    UnknownsExact(request.attributes);
    RequestParts(b);
    hide Decode;
    hide Unknowns;
    hide Reply;
    hide FingerprintFits;
    hide Source;
    assert forall i :: 0 <= i < |u| ==> u[i] in u;
    hide Unknown;
    assert AnswerAttributes(request, Source(ip).value, port) == [ErrorCode(420), UnknownList(u)];
    hide AnswerAttributes;
    ErrorParts(m.attributes, u);
    hide ErrorCode;
    hide UnknownList;
  }

  lemma ErrorParts(attributes: seq<Attribute>, u: seq<nat>)
    requires forall i :: 0 <= i < |u| ==> u[i] < 0x1_0000
    requires |attributes| >= 2 && attributes[..2] == [ErrorCode(420), UnknownList(u)]
    ensures attributes[0].kind == ERROR_CODE && attributes[0].value == [0, 0, 4, 20]
    ensures attributes[1].kind == UNKNOWN_ATTRIBUTES && u == ReadTypes(attributes[1].value)
  {
    TypesRead(u);
    hide ReadTypes;
    hide Types;
    assert attributes[..2][0] == attributes[0] && attributes[..2][1] == attributes[1];
  }

  /** Credentials are not checked, so any of them is answered with error 400. */
  lemma {:induction false} CredentialsRefused(crc: Checksum, b: bytes, ip: bytes, port: int) returns (m: Message)
    requires Wide(crc) && Acceptable(crc, b, ip, port) && HasCredentials(Decode(b).value.attributes)
    ensures Reply(crc, b, ip, port).Some? && Decode(Reply(crc, b, ip, port).value) == Some(m)
    ensures m.kind == BINDING_ERROR && m.attributes != []
    ensures m.attributes[0].kind == ERROR_CODE && m.attributes[0].value == [0, 0, 4, 0]
  {
    m := ReplyDecodes(crc, b, ip, port);
    hide Decode;
    hide Unknowns;
    hide Reply;
    hide FingerprintFits;
    hide Source;
    hide HasCredentials;
    assert m.attributes[..1][0] == m.attributes[0];
  }
}
