/** The Binding endpoint as the source runs it, over buffers that are written in place: internal/natstun/server.go. */
module StunServers {
  import opened Bytes
  import opened Wrappers
  import opened Stun

  method PutU16(a: array<byte>, at: nat, n: nat)
    requires at + 2 <= a.Length && n < 0x1_0000
    modifies a
    ensures a[..] == old(a[..at]) + U16(n) + old(a[at + 2..])
  {
    a[at], a[at + 1] := n / 0x100, n % 0x100;
  }

  method PutBytes(a: array<byte>, at: nat, data: bytes)
    requires at + |data| <= a.Length
    modifies a
    ensures a[..] == old(a[..at]) + data + old(a[at + |data|..])
  {
    var i := 0;
    while i < |data|
      invariant 0 <= i <= |data|
      invariant forall k :: 0 <= k < i ==> a[at + k] == data[k]
      invariant forall k :: 0 <= k < a.Length && !(at <= k < at + i) ==> a[k] == old(a[k])
    {
      a[at + i] := data[i];
      i := i + 1;
    }
  }

  /** What the walk over the attributes of a packet yields. */
  datatype Walk = Walk(fingerprint: bool, credentials: bool, unknown: seq<nat>)

  function Summary(attributes: seq<Attribute>): Walk {
    Walk(HasFingerprint(attributes), HasCredentials(attributes), Unknowns(attributes))
  }

  method PutHeader(response: array<byte>, request: bytes, kind: nat)
    requires |request| >= 20 && kind < 0x1_0000 && 20 <= response.Length < 20 + 0x1_0000
    modifies response
    ensures response[..] == U16(kind) + U16(response.Length - 20) + request[4..20] + old(response[20..])
  {
    ghost var rest := response[20..];
    PutU16(response, 0, kind);
    hide U16;
    assert response[..2] == U16(kind) && response[20..] == rest;
    PutU16(response, 2, response.Length - 20);
    assert response[..4] == U16(kind) + U16(response.Length - 20) && response[20..] == rest;
    PutBytes(response, 4, request[4..20]);
    assert response[20..] == rest;
  }

  method PutFingerprint(crc: Checksum, response: array<byte>)
    requires Wide(crc) && response.Length >= 8
    modifies response
    ensures var before := old(response[..response.Length - 8]); response[..] == before + EncodeAttribute(StampAttribute(crc, before))
  {
    var offset := response.Length - 8;
    ghost var before := response[..offset];
    var stamp := StampAttribute(crc, response[..offset]);
    hide U16;
    PutU16(response, offset, FINGERPRINT);
    assert response[..offset] == before && response[offset..offset + 2] == U16(FINGERPRINT);
    PutU16(response, offset + 2, 4);
    assert response[..offset] == before && response[offset..offset + 4] == U16(FINGERPRINT) + U16(4);
    PutBytes(response, offset + 4, stamp.value);
    assert Zeros(Padded(4) - 4) == [];
    assert response[..] == before + (U16(FINGERPRINT) + U16(4) + stamp.value);
    assert EncodeAttribute(stamp) == U16(FINGERPRINT) + U16(4) + stamp.value;
  }

  /** finishResponse: the header goes in front, and a fingerprint of all that behind. */
  method FinishResponse(crc: Checksum, response: array<byte>, request: bytes, kind: nat, fingerprint: bool, ghost body: bytes)
    requires Wide(crc) && |request| >= 20 && kind < 0x1_0000 && |body| + 8 < 0x1_0000
    requires response.Length == 20 + |body| + (if fingerprint then 8 else 0) && response[20..20 + |body|] == body
    modifies response
    ensures response[..] == Finished(crc, kind, request[4..20], body, fingerprint)
  {
    hide U16;
    ghost var rest := response[20..];
    assert rest[..|body|] == body;
    PutHeader(response, request, kind);
    ghost var before := U16(kind) + U16(response.Length - 20) + request[4..20] + body;
    assert response[..20 + |body|] == before;
    if fingerprint {
      PutFingerprint(crc, response);
    } else {
      assert response[..] == before;
    }
  }

  /** bindingError. */
  method BindingError(crc: Checksum, request: bytes, code: nat, unknown: seq<nat>, fingerprint: bool) returns (response: array<byte>)
    requires Wide(crc) && |request| >= 20 && code < 25600 && |unknown| <= MAX_UNKNOWN
    requires forall i :: 0 <= i < |unknown| ==> unknown[i] < 0x1_0000
    ensures fresh(response)
    ensures var attributes := if unknown == [] then [ErrorCode(code)] else [ErrorCode(code), UnknownList(unknown)];
            && (forall i :: 0 <= i < |attributes| ==> Encodable(attributes[i])) && |EncodeAttributes(attributes)| + 8 < 0x1_0000
            && response[..] == Finished(crc, BINDING_ERROR, request[4..20], EncodeAttributes(attributes), fingerprint)
  {
    var size := 28 + (if unknown == [] then 0 else 4 + Padded(2 * |unknown|));
    response := new byte[size + (if fingerprint then 8 else 0)](_ => 0);
    PutError(response, code);
    if unknown == [] {
      EncodedOne(ErrorCode(code));
    } else {
      PutUnknown(response, unknown, size);
      EncodedTwo(ErrorCode(code), UnknownList(unknown));
      assert response[20..size] == EncodeAttribute(ErrorCode(code)) + EncodeAttribute(UnknownList(unknown));
    }
    hide EncodeAttribute;
    hide EncodeAttributes;
    ghost var attributes := if unknown == [] then [ErrorCode(code)] else [ErrorCode(code), UnknownList(unknown)];
    FinishResponse(crc, response, request, BINDING_ERROR, fingerprint, EncodeAttributes(attributes));
  }

  method PutError(response: array<byte>, code: nat)
    requires response.Length >= 28 && code < 25600 && response[20..] == Zeros(response.Length - 20)
    modifies response
    ensures response[20..28] == EncodeAttribute(ErrorCode(code)) && response[28..] == Zeros(response.Length - 28)
  {
    ghost var n := response.Length;
    assert forall i :: 20 <= i < n ==> response[i] == response[20..][i - 20];
    PutHead(response, 20, ERROR_CODE, 4);
    hide U16;
    response[26], response[27] := code / 100, code % 100;
    assert response[20..24] == U16(ERROR_CODE) + U16(4);
    assert response[20..28] == response[20..24] + [0, 0, code / 100, code % 100];
    assert Zeros(Padded(4) - 4) == [];
    assert EncodeAttribute(ErrorCode(code)) == U16(ERROR_CODE) + U16(4) + [0, 0, code / 100, code % 100];
  }

  method PutUnknown(response: array<byte>, unknown: seq<nat>, size: nat)
    requires 0 < |unknown| <= MAX_UNKNOWN && forall i :: 0 <= i < |unknown| ==> unknown[i] < 0x1_0000
    requires size == 32 + Padded(2 * |unknown|) <= response.Length && response[28..] == Zeros(response.Length - 28)
    modifies response
    ensures response[..28] == old(response[..28]) && response[28..size] == EncodeAttribute(UnknownList(unknown))
  {
    ghost var n, front := response.Length, response[..28];
    assert forall k :: 28 <= k < n ==> response[k] == response[28..][k - 28];
    PutHead(response, 28, UNKNOWN_ATTRIBUTES, 2 * |unknown|);
    ghost var head := response[28..32];
    PutTypes(response, 32, unknown);
    hide U16;
    var end := 32 + 2 * |unknown|;
    assert response[..28] == front && response[28..32] == head;
    assert response[end..size] == Zeros(size - end);
    assert response[28..size] == response[28..32] + response[32..end] + response[end..size];
  }

  /** The type and the length of an attribute. */
  method PutHead(a: array<byte>, at: nat, kind: nat, size: nat)
    requires at + 4 <= a.Length && kind < 0x1_0000 && size < 0x1_0000
    modifies a
    ensures a[at..at + 4] == U16(kind) + U16(size)
    ensures forall k :: 0 <= k < a.Length && !(at <= k < at + 4) ==> a[k] == old(a[k])
  {
    a[at], a[at + 1] := kind / 0x100, kind % 0x100;
    a[at + 2], a[at + 3] := size / 0x100, size % 0x100;
    assert a[at..at + 4] == [a[at], a[at + 1], a[at + 2], a[at + 3]];
  }

  /** The types one after the other. */
  method PutTypes(a: array<byte>, at: nat, kinds: seq<nat>)
    requires at + 2 * |kinds| <= a.Length && forall i :: 0 <= i < |kinds| ==> kinds[i] < 0x1_0000
    modifies a
    ensures a[at..at + 2 * |kinds|] == Types(kinds)
    ensures forall k :: 0 <= k < a.Length && !(at <= k < at + 2 * |kinds|) ==> a[k] == old(a[k])
  {
    var i := 0;
    while i < |kinds|
      invariant 0 <= i <= |kinds|
      invariant a[at..at + 2 * i] == Types(kinds[..i])
      invariant forall k :: 0 <= k < a.Length && !(at <= k < at + 2 * i) ==> a[k] == old(a[k])
    {
      ghost var done := a[at..at + 2 * i];
      a[at + 2 * i], a[at + 2 * i + 1] := kinds[i] / 0x100, kinds[i] % 0x100;
      assert kinds[..i + 1][..i] == kinds[..i];
      assert a[at..at + 2 * i] == done;
      assert a[at..at + 2 * (i + 1)] == done + U16(kinds[i]);
      i := i + 1;
    }
    assert kinds[..i] == kinds;
  }

  lemma Append(done: seq<Attribute>, a: Attribute)
    ensures Summary(done + [a]) ==
            Walk(a.kind == FINGERPRINT, HasCredentials(done) || Credential(a.kind),
                 if Unknown(a.kind) && a.kind !in Unknowns(done) then Unknowns(done) + [a.kind] else Unknowns(done))
  {
    assert (done + [a])[..|done|] == done;
    if HasCredentials(done) {
      var i :| 0 <= i < |done| && Credential(done[i].kind);
      assert Credential((done + [a])[i].kind);
    }
    if Credential(a.kind) {
      assert Credential((done + [a])[|done|].kind);
    }
  }

  /** The attributes before offset are done and hold no fingerprint; the rest has still to be read. */
  ghost predicate Walking(request: bytes, offset: nat, done: seq<Attribute>) {
    && 20 <= offset <= |request| && 4 * |done| <= offset - 20
    && (forall i :: 0 <= i < |done| - 1 ==> done[i].kind != FINGERPRINT)
    && (HasFingerprint(done) ==> offset == |request|)
    && ParseAttributes(request[20..]) ==
       match ParseAttributes(request[offset..]) { case None => None case Some(rest) => Some(done + rest) }
  }

  lemma StartWalking(request: bytes)
    requires |request| >= 20
    ensures Walking(request, 20, []) && Summary([]) == Walk(false, false, [])
  {
    var all := ParseAttributes(request[20..]);
    assert all.Some? ==> [] + all.value == all.value;
  }

  lemma WalkBounds(request: bytes, offset: nat, done: seq<Attribute>)
    requires Walking(request, offset, done)
    ensures 20 <= offset <= |request| && 4 * |done| <= offset - 20 && (HasFingerprint(done) ==> offset == |request|)
  {
  }

  lemma WalkEnds(request: bytes, done: seq<Attribute>)
    requires Walking(request, |request|, done)
    ensures |request| >= 20 && ParseAttributes(request[20..]) == Some(done)
    ensures forall i :: 0 <= i < |done| - 1 ==> done[i].kind != FINGERPRINT
  {
    assert request[|request|..] == [] && done + [] == done;
  }

  /** One attribute is read, and it may be a fingerprint only if it ends the packet. */
  lemma WalkOn(request: bytes, offset: nat, done: seq<Attribute>, size: nat)
    requires Walking(request, offset, done) && offset + 4 <= |request| && size == GetU16(request[offset + 2..])
    requires offset + 4 + Padded(size) <= |request|
    requires GetU16(request[offset..]) == FINGERPRINT ==> offset + 4 + Padded(size) == |request|
    ensures Walking(request, offset + 4 + Padded(size), done + [Attribute(GetU16(request[offset..]), request[offset + 4..offset + 4 + size])])
  {
    var a := Attribute(GetU16(request[offset..]), request[offset + 4..offset + 4 + size]);
    var tail := request[offset..];
    hide GetU16;
    assert tail[2..] == request[offset + 2..] && tail[4..4 + size] == a.value;
    assert tail[4 + Padded(size)..] == request[offset + 4 + Padded(size)..];
    hide Padded;
    if ParseAttributes(request[offset + 4 + Padded(size)..]).Some? {
      var rest := ParseAttributes(request[offset + 4 + Padded(size)..]).value;
      assert done + ([a] + rest) == (done + [a]) + rest;
    }
  }

  /** An attribute that does not fit the packet spoils the request. */
  lemma WalkOverruns(crc: Checksum, request: bytes, offset: nat, done: seq<Attribute>)
    requires Walking(request, offset, done) && offset < |request|
    requires offset + 4 > |request| || offset + 4 + Padded(GetU16(request[offset + 2..])) > |request|
    ensures |request| >= 20 && Spoiled(crc, request)
  {
    if offset + 4 <= |request| {
      assert request[offset..][2..] == request[offset + 2..];
    }
    hide GetU16;
    hide Padded;
  }

  /** So does a fingerprint that is not the last attribute, or not of four bytes, or of another value. */
  lemma WalkMisstamped(crc: Checksum, request: bytes, offset: nat, done: seq<Attribute>, size: nat)
    requires Walking(request, offset, done) && offset + 4 <= |request| && size == GetU16(request[offset + 2..])
    requires offset + 4 + Padded(size) <= |request| && GetU16(request[offset..]) == FINGERPRINT
    requires size != 4 || offset + 8 != |request| || GetU32(request[offset + 4..]) != Stamp(crc, request[..offset])
    ensures |request| >= 20 && Spoiled(crc, request)
  {
    var tail := request[offset..];
    assert tail[2..] == request[offset + 2..];
    assert Padded(4) == 4;
    hide GetU16;
    hide GetU32;
    hide Stamp;
    if ParseAttributes(request[20..]).Some? {
      var a, rest := Attribute(FINGERPRINT, tail[4..4 + size]), ParseAttributes(tail[4 + Padded(size)..]).value;
      var all := ParseAttributes(request[20..]).value;
      assert all == done + ([a] + rest) && all[|done|] == a;
      if rest == [] {
        NothingFollows(tail[4 + Padded(size)..]);
        hide Padded;
        assert all[|all| - 1] == a;
        if size == 4 {
          assert request[offset + 4..] == a.value;
        }
      }
    }
  }

  lemma NothingFollows(b: bytes)
    requires ParseAttributes(b) == Some([])
    ensures b == []
  {
  }

  ghost predicate Spoiled(crc: Checksum, request: bytes)
    requires |request| >= 20
  {
    var all := ParseAttributes(request[20..]);
    all.None? || !FingerprintFits(crc, request, all.value)
  }

  /** The last attribute read is a fingerprint that fits. */
  ghost predicate Stamped(crc: Checksum, request: bytes, a: Attribute) {
    a.kind == FINGERPRINT ==>
      |request| >= 28 && |a.value| == 4 && GetU32(a.value) == Stamp(crc, request[..|request| - 8])
  }

  /** One turn of the walk: the attribute at offset, and where the next one is. */
  method ReadOne(crc: Checksum, request: bytes, offset: nat, ghost done: seq<Attribute>)
    returns (ok: bool, kind: nat, next: nat, ghost a: Attribute)
    requires Walking(request, offset, done) && offset < |request|
    ensures !ok ==> Spoiled(crc, request)
    ensures ok ==> a.kind == kind && Walking(request, next, done + [a]) && Stamped(crc, request, a)
    ensures ok ==> offset < next <= |request| && 4 * |done| + 4 <= next - 20
  {
    ok, kind, next, a := false, 0, 0, Attribute(0, []);
    if offset + 4 > |request| {
      WalkOverruns(crc, request, offset, done);
      return;
    }
    var size := GetU16(request[offset + 2..]);
    kind, next := GetU16(request[offset..]), offset + 4 + Padded(size);
    if next > |request| {
      WalkOverruns(crc, request, offset, done);
      return;
    }
    if kind == FINGERPRINT && (size != 4 || next != |request| || GetU32(request[offset + 4..]) != Stamp(crc, request[..offset])) {
      WalkMisstamped(crc, request, offset, done, size);
      return;
    }
    a := Attribute(kind, request[offset + 4..offset + 4 + size]);
    WalkOn(request, offset, done, size);
    WalkBounds(request, next, done + [a]);
    hide Walking;
    if kind == FINGERPRINT {
      assert request[offset + 4..] == a.value;
    }
    ok := true;
  }

  /** The walk of bindingResponse.  The unknown types are gathered in a fixed array, which is never full. */
  method Attributes(crc: Checksum, request: bytes) returns (ok: bool, walk: Walk)
    requires 20 <= |request| <= MAX_REQUEST
    ensures ok <==> !Spoiled(crc, request)
    ensures ok ==> walk == Summary(ParseAttributes(request[20..]).value)
  {
    var fingerprint, credentials := false, false;
    var unknown := new nat[MAX_UNKNOWN](_ => 0);
    var count := 0;
    var offset := 20;
    ghost var done: seq<Attribute> := [];
    StartWalking(request);
    walk := Walk(false, false, []);
    assert unknown[..0] == [];
    hide Walking;
    hide Spoiled;
    hide Stamped;
    while offset < |request|
      invariant 20 <= offset <= |request| && 4 * |done| <= offset - 20
      invariant Walking(request, offset, done)
      invariant 0 <= count <= |done| && Summary(done) == Walk(fingerprint, credentials, unknown[..count])
      invariant done != [] ==> Stamped(crc, request, done[|done| - 1])
      decreases |request| - offset
    {
      WalkBounds(request, offset, done);
      ghost var a;
      var read, kind, next;
      read, kind, next, a := ReadOne(crc, request, offset, done);
      if !read {
        return false, walk;
      }
      Append(done, a);
      assert count < MAX_UNKNOWN;
      if kind == FINGERPRINT {
        fingerprint := true;
      } else if Credential(kind) {
        credentials := true;
      } else if Unknown(kind) && kind !in unknown[..count] {
        unknown[count] := kind;
        count := count + 1;
      }
      done, offset := done + [a], next;
    }
    WalkSound(crc, request, done);
    ok, walk := true, Walk(fingerprint, credentials, unknown[..count]);
  }

  lemma WalkSound(crc: Checksum, request: bytes, done: seq<Attribute>)
    requires Walking(request, |request|, done) && (done != [] ==> Stamped(crc, request, done[|done| - 1]))
    ensures |request| >= 20 && !Spoiled(crc, request) && ParseAttributes(request[20..]) == Some(done)
  {
    WalkEnds(request, done);
  }

  /** bindingResponse: the answer is what the specification says, or there is none. */
  method BindingResponse(crc: Checksum, request: bytes, ip: bytes, port: int) returns (response: array?<byte>)
    requires Wide(crc)
    ensures fresh(response) || response == null
    ensures (if response == null then None else Some(response[..])) == Reply(crc, request, ip, port)
  {
    if |request| < 20 || |request| > MAX_REQUEST || GetU16(request) != BINDING_REQUEST || GetU32(request[4..]) != COOKIE
      || GetU16(request[2..]) != |request| - 20 || |request| % 4 != 0 || port <= 0 || port > 65535
    {
      return null;
    }
    var ok, walk := Attributes(crc, request);
    if !ok {
      return null;
    }
    var source := Source(ip);
    if source.None? {
      return null;
    }
    SourceSize(ip);
    var m := Decode(request).value;
    AnswerFits(request, source.value, port);
    UnknownsExact(m.attributes);
    hide Decode;
    hide Unknowns;
    hide Source;
    hide FingerprintFits;
    if walk.credentials {
      response := BindingError(crc, request, 400, [], walk.fingerprint);
    } else if walk.unknown != [] {
      assert forall i :: 0 <= i < |walk.unknown| ==> walk.unknown[i] in walk.unknown;
      response := BindingError(crc, request, 420, walk.unknown, walk.fingerprint);
    } else {
      response := BindingSuccess(crc, request, source.value, port, walk.fingerprint);
    }
  }

  method BindingSuccess(crc: Checksum, request: bytes, source: bytes, port: nat, fingerprint: bool) returns (response: array<byte>)
    requires Wide(crc) && |request| >= 20 && (|source| == 4 || |source| == 16) && port <= 65535
    ensures fresh(response)
    ensures Encodable(MappedAddress(source, port, request[4..20]))
    ensures var body := EncodeAttributes([MappedAddress(source, port, request[4..20])]);
            |body| + 8 < 0x1_0000 && response[..] == Finished(crc, BINDING_SUCCESS, request[4..20], body, fingerprint)
  {
    var size := 28 + |source| + (if fingerprint then 8 else 0);
    response := new byte[size](_ => 0);
    ghost var address := MappedAddress(source, port, request[4..20]);
    PutHead(response, 20, XOR_MAPPED_ADDRESS, 4 + |source|);
    response[25] := if |source| == 4 then 1 else 2;
    var p := XorPort(port);
    response[26], response[27] := p / 0x100, p % 0x100;
    var i := 0;
    while i < |source|
      invariant 0 <= i <= |source|
      invariant response[20..24] == U16(XOR_MAPPED_ADDRESS) + U16(4 + |source|)
      invariant response[24..28] == [0, if |source| == 4 then 1 else 2] + U16(p)
      invariant forall k :: 0 <= k < i ==> response[28 + k] == XorByte(source[k], request[4 + k])
    {
      response[28 + i] := XorByte(source[i], request[4 + i]);
      i := i + 1;
    }
    AddressWritten(response[..], source, port, request);
    hide EncodeAttribute;
    hide Finished;
    EncodedOne(address);
    assert response[20..28 + |source|] == response[..][20..28 + |source|];
    FinishResponse(crc, response, request, BINDING_SUCCESS, fingerprint, EncodeAttributes([address]));
  }

  /** Header, family, port and address, written one after the other, are the encoded attribute. */
  lemma AddressWritten(r: bytes, source: bytes, port: nat, request: bytes)
    requires |request| >= 20 && (|source| == 4 || |source| == 16) && port <= 65535 && 28 + |source| <= |r|
    requires r[20..24] == U16(XOR_MAPPED_ADDRESS) + U16(4 + |source|)
    requires r[24..28] == [0, if |source| == 4 then 1 else 2] + U16(XorPort(port))
    requires forall k :: 0 <= k < |source| ==> r[28 + k] == XorByte(source[k], request[4 + k])
    ensures var address := MappedAddress(source, port, request[4..20]);
            Encodable(address) && r[20..28 + |source|] == EncodeAttribute(address)
  {
    var address := MappedAddress(source, port, request[4..20]);
    hide XorByte;
    hide XorPort;
    hide U16;
    assert r[28..28 + |source|] == XorBytes(source, request[4..20]);
    assert address.value == [0, if |source| == 4 then 1 else 2] + U16(XorPort(port)) + XorBytes(source, request[4..20]);
    assert r[20..28 + |source|] == r[20..24] + (r[24..28] + r[28..28 + |source|]);
    assert Zeros(Padded(4 + |source|) - (4 + |source|)) == [];
  }

  // ---- the rate of answers ----

  const PER_SECOND: nat := 1000
  const PER_HOST: nat := 20

  /** What shares a window: an IPv4 address in whatever form, or the first half of an IPv6 address. */
  type Host = bytes

  function SourceKey(ip: bytes): Host {
    match To4(ip)
    case Some(v4) => v4
    case None => if |ip| == 16 then ip[..8] else Zeros(8)
  }

  /** Two addresses that can be answered share a window exactly if they are the same IPv4 address or in the same /64. */
  lemma SharedWindow(a: bytes, b: bytes)
    requires Source(a).Some? && Source(b).Some?
    ensures var s, t := Source(a).value, Source(b).value;
            SourceKey(a) == SourceKey(b) <==> s == t || (|s| == |t| == 16 && s[..8] == t[..8])
  {
    SourceSize(a);
    SourceSize(b);
  }

  datatype Window = Window(second: int, count: nat)

  class Limiter {
    var hosts: map<Host, Window>
    var all: Window
    /** The hosts that were answered in the current second, in order. */
    ghost var answered: seq<Host>

    constructor ()
      ensures Valid() && all == Window(0, 0) && answered == []
    {
      hosts, all, answered := map[], Window(0, 0), [];
    }

    /** The counters say how often each host, and all together, were answered in this second. */
    ghost predicate Valid()
      reads this
    {
      && all.count == |answered| <= PER_SECOND
      && (forall host :: host in hosts <==> host in answered)
      && (forall host :: host in hosts ==>
            hosts[host].second == all.second && hosts[host].count == multiset(answered)[host] <= PER_HOST)
      && |hosts| <= PER_SECOND
    }

    /** An answer is allowed unless there were too many in this second, for all hosts together or for this one. */
    method Allow(host: Host, second: int) returns (ok: bool)
      requires Valid()
      modifies this
      ensures Valid() && all.second == second
      ensures var before := if old(all).second == second then old(answered) else [];
              && ok == (|before| < PER_SECOND && multiset(before)[host] < PER_HOST)
              && answered == if ok then before + [host] else before
    {
      if all.second != second {
        all := Window(second, 0);
        hosts, answered := map[], [];
      }
      if all.count >= PER_SECOND {
        return false;
      }
      HostsBound(hosts, answered);
      if host !in hosts && |hosts| >= PER_SECOND {
        return false;
      }
      var w := if host in hosts then hosts[host] else Window(second, 0);
      if w.count >= PER_HOST {
        return false;
      }
      all := all.(count := all.count + 1);
      hosts := hosts[host := w.(count := w.count + 1)];
      answered := answered + [host];
      HostsBound(hosts, answered);
      ok := true;
    }

    /** One turn of serve's loop: what is sent back for a packet.  Only an answer that could be given is counted. */
    method Serve(crc: Checksum, packet: bytes, ip: bytes, port: int, second: int) returns (sent: Option<bytes>)
      requires Valid() && Wide(crc)
      modifies this
      ensures Valid()
      ensures var before, host := if old(all).second == second then old(answered) else [], SourceKey(ip);
              var allowed := |before| < PER_SECOND && multiset(before)[host] < PER_HOST;
              && sent == (if allowed then Reply(crc, packet, ip, port) else None)
              && (if sent.Some? then all.second == second && answered == before + [host]
                  else if Reply(crc, packet, ip, port).Some? then all.second == second && answered == before
                  else all == old(all) && answered == old(answered))
    {
      hide Reply;
      sent := None;
      if |packet| > MAX_REQUEST {
        NoReply(crc, packet, ip, port);
        return;
      }
      var response := BindingResponse(crc, packet, ip, port);
      if response != null {
        var ok := Allow(SourceKey(ip), second);
        if ok {
          sent := Some(response[..]);
        }
      }
    }
  }

  lemma NoReply(crc: Checksum, packet: bytes, ip: bytes, port: int)
    requires Wide(crc) && |packet| > MAX_REQUEST
    ensures Reply(crc, packet, ip, port) == None
  {
  }

  /** There are no more hosts than answers. */
  lemma HostsBound(hosts: map<Host, Window>, answered: seq<Host>)
    requires forall host :: host in hosts <==> host in answered
    ensures |hosts| <= |answered|
  {
    DistinctBound(hosts.Keys, answered);
    assert |hosts| == |hosts.Keys|;
  }

  lemma {:induction false} DistinctBound(keys: set<Host>, answered: seq<Host>)
    requires forall host :: host in keys ==> host in answered
    ensures |keys| <= |answered|
    decreases |answered|
  {
    if answered != [] {
      DistinctBound(keys - {answered[0]}, answered[1..]);
    } else {
      assert keys == {};
    }
  }
}
