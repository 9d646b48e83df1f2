/** Which packets are answered and with what, octet by octet: internal/natstun/server.go against sections 5, 6 and 14 of
  RFC 8489. */
module StunRequests {
  import opened Bytes
  import opened Wrappers
  import opened Stun

  /** The next multiple of four. */
  function Fours(n: nat): nat {
    n + if n % 4 == 0 then 0 else 4 - n % 4
  }

  /** An attribute as it stands on the wire: type, length and value, padded with any octets to a multiple of four. */
  predicate Stands(b: bytes, a: Attribute) {
    && 4 + |a.value| <= 4 + Fours(|a.value|) <= |b|
    && b[0] as int * 256 + b[1] == a.kind && b[2] as int * 256 + b[3] == |a.value| && b[4..4 + |a.value|] == a.value
  }

  predicate Laid(b: bytes, attributes: seq<Attribute>)
    decreases |attributes|
  {
    if attributes == [] then b == []
    else Stands(b, attributes[0]) && Laid(b[4 + Fours(|attributes[0].value|)..], attributes[1..])
  }

  lemma {:induction false} ParsesExactly(b: bytes, attributes: seq<Attribute>)
    ensures ParseAttributes(b) == Some(attributes) <==> Laid(b, attributes)
    decreases |b| + |attributes|
  {
    hide Padded;
    hide GetU16;
    hide Laid;
    if attributes == [] {
      LaidNone(b);
    } else {
      LaidOne(b, attributes);
      if |b| >= 4 && 4 + Padded(GetU16(b[2..])) <= |b| {
        ParsesExactly(b[4 + Padded(GetU16(b[2..]))..], attributes[1..]);
        assert attributes == [attributes[0]] + attributes[1..];
      }
    }
  }

  lemma LaidNone(b: bytes)
    ensures Laid(b, []) <==> b == []
  {
  }

  lemma LaidOne(b: bytes, attributes: seq<Attribute>)
    requires attributes != []
    ensures Laid(b, attributes) <==>
              |b| >= 4
              && (var n := GetU16(b[2..]);
                  && 4 + Padded(n) <= |b| && attributes[0] == Attribute(GetU16(b), b[4..4 + n])
                  && Laid(b[4 + Padded(n)..], attributes[1..]))
  {
    hide Stands;
    hide Padded;
    hide Fours;
    hide GetU16;
    StandsExactly(b, attributes[0]);
    PaddedTo(|attributes[0].value|);
  }

  lemma StandsExactly(b: bytes, a: Attribute)
    ensures Stands(b, a) <==> |b| >= 4 && 4 + Padded(GetU16(b[2..])) <= |b| && a == Attribute(GetU16(b), b[4..4 + GetU16(b[2..])])
    ensures Stands(b, a) ==> GetU16(b[2..]) == |a.value|
  {
    hide Padded;
    hide Fours;
    hide GetU16;
    PaddedTo(|a.value|);
    if |b| >= 4 {
      TwoNumbers(b);
      PaddedTo(GetU16(b[2..]));
    }
  }

  lemma TwoNumbers(b: bytes)
    requires |b| >= 4
    ensures GetU16(b[2..]) == b[2] as int * 256 + b[3] && GetU16(b) == b[0] as int * 256 + b[1]
  {
  }

  lemma PaddedTo(n: nat)
    ensures Padded(n) == Fours(n) >= n
  {
  }

  /** A sender that can be answered: a specific unicast address, of IPv4, also in its IPv6 form, or of IPv6. */
  predicate Sender(ip: bytes) {
    if |ip| == 4 then Unicast4(ip)
    else
      && |ip| == 16
      && (if ip[..12] == [0, 0, 0, 0, 0, 0, 0, 0, 0, 0, 255, 255] then Unicast4(ip[12..])
          else ip[0] != 255 && exists i :: 0 <= i < 16 && ip[i] != 0)
  }

  predicate Unicast4(ip: bytes)
    requires |ip| == 4
  {
    !(224 <= ip[0] <= 239) && !(ip[0] == 0 && ip[1] == 0 && ip[2] == 0 && ip[3] == 0)
  }

  lemma SendersExactly(ip: bytes)
    ensures Source(ip).Some? <==> Sender(ip)
    ensures Source(ip).Some? ==> Source(ip).value == ip || (|ip| == 16 && ip == [0, 0, 0, 0, 0, 0, 0, 0, 0, 0, 255, 255] + Source(ip).value)
  {
    if |ip| == 16 {
      assert ip == ip[..12] + ip[12..];
      assert ip == Zeros(16) <==> forall i :: 0 <= i < 16 ==> ip[i] == 0;
    }
  }

  /** A fingerprint is the last attribute and holds the checksum of what is before it. */
  ghost predicate Fingerprinted(crc: Checksum, b: bytes, attributes: seq<Attribute>) {
    forall i :: 0 <= i < |attributes| && attributes[i].kind == 0x8028 ==>
      && i == |attributes| - 1 && |attributes[i].value| == 4 && |b| >= 8
      && GetU32(attributes[i].value) == Xor(crc(b[..|b| - 8]), 0x5354554e)
  }

  lemma FitsExactly(crc: Checksum, b: bytes, attributes: seq<Attribute>)
    ensures FingerprintFits(crc, b, attributes) <==> Fingerprinted(crc, b, attributes)
  {
    if attributes != [] && Fingerprinted(crc, b, attributes) {
      var n := |attributes| - 1;
      assert attributes[n].kind == 0x8028 ==> |attributes[n].value| == 4;
    }
  }

  /** A Binding request with the magic cookie, its length right and its attributes well laid, from a sender that can be
      answered. */
  ghost predicate Request(crc: Checksum, b: bytes, ip: bytes, port: int, attributes: seq<Attribute>) {
    && 20 <= |b| <= 576 && |b| % 4 == 0
    && b[0] == 0 && b[1] == 1 && b[2] as int * 256 + b[3] == |b| - 20
    && b[4] == 0x21 && b[5] == 0x12 && b[6] == 0xa4 && b[7] == 0x42
    && Laid(b[20..], attributes) && Fingerprinted(crc, b, attributes)
    && 1 <= port <= 65535 && Sender(ip)
  }

  lemma CookieRead(b: bytes)
    requires |b| >= 8
    ensures GetU32(b[4..]) == COOKIE <==> b[4] == 0x21 && b[5] == 0x12 && b[6] == 0xa4 && b[7] == 0x42
  {
    assert GetU32(b[4..]) == ((b[4] as int * 256 + b[5]) * 256 + b[6]) * 256 + b[7];
  }

  lemma {:induction false} AcceptsExactly(crc: Checksum, b: bytes, ip: bytes, port: int, attributes: seq<Attribute>)
    ensures Acceptable(crc, b, ip, port) && Decode(b).value.attributes == attributes <==> Request(crc, b, ip, port, attributes)
  {
    hide Sender;
    hide Source;
    hide Laid;
    hide ParseAttributes;
    hide GetU32;
    hide FingerprintFits;
    hide Fingerprinted;
    hide Decode;
    DecodesExactly(b, attributes);
    SendersExactly(ip);
    FitsExactly(crc, b, attributes);
  }

  lemma DecodesExactly(b: bytes, attributes: seq<Attribute>)
    ensures Decode(b).Some? && Decode(b).value.kind == BINDING_REQUEST && Decode(b).value.attributes == attributes <==>
            && 20 <= |b| && |b| % 4 == 0
            && b[0] == 0 && b[1] == 1 && b[2] as int * 256 + b[3] == |b| - 20
            && b[4] == 0x21 && b[5] == 0x12 && b[6] == 0xa4 && b[7] == 0x42
            && Laid(b[20..], attributes)
  {
    hide Laid;
    hide ParseAttributes;
    hide GetU32;
    if |b| >= 20 {
      CookieRead(b);
      ParsesExactly(b[20..], attributes);
      assert GetU16(b[2..]) == b[2] as int * 256 + b[3];
    }
  }

  /** A packet is answered exactly if it is such a request; then with error 400 if any credential is among its attributes, else
      with error 420 if any other type below 0x8000 is, else with success. */
  lemma {:induction false} AnswersExactly(crc: Checksum, b: bytes, ip: bytes, port: int, attributes: seq<Attribute>)
    requires Wide(crc)
    ensures (forall a :: !Request(crc, b, ip, port, a)) ==> Reply(crc, b, ip, port) == None
    ensures Request(crc, b, ip, port, attributes) ==>
              && Reply(crc, b, ip, port).Some?
              && var r := Reply(crc, b, ip, port).value;
                 var credentials := exists i :: 0 <= i < |attributes| && attributes[i].kind in [6, 8, 20, 21, 28, 29, 30, 0x8002];
                 var required := exists i :: 0 <= i < |attributes| && attributes[i].kind < 0x8000;
                 && 28 <= |r| <= 320 && r[0] == 1 && r[4..20] == b[4..20] && r[2] as int * 256 + r[3] == |r| - 20
                 && (if credentials then r[1] == 0x11 && r[20..28] == [0, 9, 0, 4, 0, 0, 4, 0]
                     else if required then |r| >= 32 && r[1] == 0x11 && r[20..30] == [0, 9, 0, 4, 0, 0, 4, 20, 0, 10]
                     else r[1] == 1 && r[20..26] == [0, 0x20, 0, 4 + |Source(ip).value|, 0, if |Source(ip).value| == 4 then 1 else 2])
  {
    if Acceptable(crc, b, ip, port) {
      AcceptsExactly(crc, b, ip, port, Decode(b).value.attributes);
    }
    if Request(crc, b, ip, port, attributes) {
      AcceptsExactly(crc, b, ip, port, attributes);
      AnswerBegins(crc, b, ip, port, attributes);
    }
    hide Acceptable;
    hide Request;
    hide Decode;
  }

  lemma AnswerBegins(crc: Checksum, b: bytes, ip: bytes, port: int, attributes: seq<Attribute>)
    requires Wide(crc) && Acceptable(crc, b, ip, port) && Decode(b).value.attributes == attributes
    ensures Reply(crc, b, ip, port).Some?
    ensures var r := Reply(crc, b, ip, port).value;
            var credentials := exists i :: 0 <= i < |attributes| && attributes[i].kind in [6, 8, 20, 21, 28, 29, 30, 0x8002];
            var required := exists i :: 0 <= i < |attributes| && attributes[i].kind < 0x8000;
            && 28 <= |r| <= 320 && r[0] == 1 && r[4..20] == b[4..20] && r[2] as int * 256 + r[3] == |r| - 20
            && (if credentials then r[1] == 0x11 && r[20..28] == [0, 9, 0, 4, 0, 0, 4, 0]
                else if required then |r| >= 32 && r[1] == 0x11 && r[20..30] == [0, 9, 0, 4, 0, 0, 4, 20, 0, 10]
                else r[1] == 1 && r[20..26] == [0, 0x20, 0, 4 + |Source(ip).value|, 0, if |Source(ip).value| == 4 then 1 else 2])
  {
    hide Finished;
    hide Decode;
    hide FingerprintFits;
    hide Source;
    hide Unknowns;
    hide EncodeAttributes;
    hide Acceptable;
    AcceptableParts(crc, b, ip, port);
    var m, source := Decode(b).value, Source(ip).value;
    AnswerFits(b, source, port);
    KindsMean(attributes);
    var answer := AnswerAttributes(m, source, port);
    AnswerBody(m, source, port);
    hide AnswerAttributes;
    FinishedLayout(crc, AnswerKind(m), m.transaction, EncodeAttributes(answer), HasFingerprint(attributes));
    var w := ReplyWellFormed(crc, b, ip, port);
    var r := Reply(crc, b, ip, port).value;
    var body := EncodeAttributes(answer);
    assert r[20..20 + |body|] == body;
    assert r[20..28] == body[..8] && r[20..26] == body[..6];
    assert |body| >= 10 ==> r[20..30] == body[..10];
  }

  lemma KindsMean(attributes: seq<Attribute>)
    ensures HasCredentials(attributes) <==> exists i :: 0 <= i < |attributes| && attributes[i].kind in [6, 8, 20, 21, 28, 29, 30, 0x8002]
    ensures !HasCredentials(attributes) ==>
              (Unknowns(attributes) != [] <==> exists i :: 0 <= i < |attributes| && attributes[i].kind < 0x8000)
  {
    UnknownsExact(attributes);
    var u := Unknowns(attributes);
    if u != [] {
      assert u[0] in u;
    }
    if !HasCredentials(attributes) && exists i :: 0 <= i < |attributes| && attributes[i].kind < 0x8000 {
      var i :| 0 <= i < |attributes| && attributes[i].kind < 0x8000;
      assert Unknown(attributes[i].kind);
      assert attributes[i].kind in u;
    }
    hide Unknowns;
  }

  lemma FinishedLayout(crc: Checksum, kind: nat, transaction: bytes, body: bytes, fingerprint: bool)
    requires Wide(crc) && |transaction| == 16 && kind < 0x1_0000 && |body| + 8 < 0x1_0000
    ensures var r := Finished(crc, kind, transaction, body, fingerprint);
            && |r| == 20 + |body| + (if fingerprint then 8 else 0) && r[0] == kind / 256 && r[1] == kind % 256
            && r[2] as int * 256 + r[3] == |r| - 20 && r[4..20] == transaction && r[20..20 + |body|] == body
  {
  }

  /** How the attributes of the answer begin. */
  lemma AnswerBody(m: Message, source: bytes, port: nat)
    requires |source| == 4 || |source| == 16
    requires |m.transaction| == 16 && port <= 65535
    requires var a := AnswerAttributes(m, source, port); forall i :: 0 <= i < |a| ==> Encodable(a[i])
    ensures var body := EncodeAttributes(AnswerAttributes(m, source, port));
            && |body| >= 8
            && (if HasCredentials(m.attributes) then body[..8] == [0, 9, 0, 4, 0, 0, 4, 0]
                else if Unknowns(m.attributes) != [] then |body| >= 12 && body[..10] == [0, 9, 0, 4, 0, 0, 4, 20, 0, 10]
                else body[..6] == [0, 0x20, 0, 4 + |source|, 0, if |source| == 4 then 1 else 2])
  {
    hide Unknowns;
    hide HasCredentials;
    hide XorBytes;
    hide XorPort;
    hide EncodeAttribute;
    MappedBegins(source, port, m.transaction);
    hide MappedAddress;
    var a := AnswerAttributes(m, source, port);
    FirstBytes(a[0]);
    if |a| == 2 {
      EncodedTwo(a[0], a[1]);
      FirstBytes(a[1]);
      hide EncodeAttributes;
      TwoBegin(EncodeAttribute(a[0]), EncodeAttribute(a[1]));
    } else {
      EncodedOne(a[0]);
      hide EncodeAttributes;
    }
    hide Types;
  }

  lemma MappedBegins(source: bytes, port: nat, transaction: bytes)
    requires |source| <= 16 == |transaction| && port <= 65535
    ensures var a := MappedAddress(source, port, transaction);
            && a.kind == 0x20 && |a.value| == 4 + |source| && a.value[..2] == [0, if |source| == 4 then 1 else 2]
  {
  }

  lemma TwoBegin(x: bytes, y: bytes)
    requires |x| == 8 && |y| >= 4
    ensures (x + y)[..8] == x && (x + y)[..10] == x + y[..2]
  {
  }

  lemma FirstBytes(a: Attribute)
    requires Encodable(a)
    ensures EncodeAttribute(a)[..4] == U16(a.kind) + U16(|a.value|)
    ensures |a.value| == 4 ==> EncodeAttribute(a) == U16(a.kind) + U16(4) + a.value
    ensures |a.value| >= 2 ==> EncodeAttribute(a)[..6] == U16(a.kind) + U16(|a.value|) + a.value[..2]
    ensures EncodeAttribute(a)[..2] == U16(a.kind)
  {
  }
}
