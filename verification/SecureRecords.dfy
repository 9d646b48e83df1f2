/** The encrypted record layer of internal/secureconn/secureconn.go: records on the wire, and what the reader makes of
  any incoming stream. */
module SecureRecords {
  import opened Bytes
  import opened Wrappers

  const MAX_RECORD: nat := 64 * 1024
  const OVERHEAD: nat := 16
  const LAST_SEQUENCE: nat := 0xFFFF_FFFF_FFFF_FFFF

  datatype Error = ShortWrite | IO | BadSize | Forged | Exhausted

  /** The authenticated cipher of one direction, as a function of the sequence number: the nonce and the additional data
      are the sequence number's encoding. */
  datatype Cipher = Cipher(seal: (nat, bytes) -> bytes, open: (nat, bytes) -> Option<bytes>)

  function Nonce(sequence: nat): bytes
    requires sequence <= LAST_SEQUENCE
  {
    [0, 0, 0, 0] + U64(sequence)
  }

  lemma NoncesDiffer(a: nat, b: nat)
    requires a <= LAST_SEQUENCE && b <= LAST_SEQUENCE && a != b
    ensures Nonce(a) != Nonce(b) && |Nonce(a)| == 12
  {
    U64RoundTrip(a);
    U64RoundTrip(b);
    assert Nonce(a)[4..] == U64(a) && Nonce(b)[4..] == U64(b);
  }

  /** Sealing adds the tag. */
  ghost predicate Sized(c: Cipher) {
    forall n: nat, p :: |c.seal(n, p)| == |p| + OVERHEAD
  }

  /** Under the peer's key nothing opens but what the peer sealed under that sequence number. */
  ghost predicate Ideal(c: Cipher, log: seq<bytes>) {
    forall n: nat, x :: c.open(n, x).Some? ==> n < |log| && c.open(n, x).value == log[n]
  }

  /** What the peer sealed does open. */
  ghost predicate Opens(c: Cipher, log: seq<bytes>) {
    forall n: nat :: n < |log| ==> c.open(n, c.seal(n, log[n])) == Some(log[n])
  }

  /** Every record is small enough to be accepted. */
  ghost predicate Small(log: seq<bytes>) {
    forall i :: 0 <= i < |log| ==> |log[i]| <= MAX_RECORD
  }

  /** The plaintext of a run of records. */
  function Plain(log: seq<bytes>): bytes {
    if log == [] then [] else Plain(log[..|log| - 1]) + log[|log| - 1]
  }

  function Record(c: Cipher, n: nat, p: bytes): bytes
    requires |p| <= MAX_RECORD
  {
    U32(|p| + OVERHEAD) + c.seal(n, p)
  }

  /** The records of log from number i on, as they stand on the wire. */
  function Stream(c: Cipher, log: seq<bytes>, i: nat): bytes
    requires i <= |log| && forall k :: i <= k < |log| ==> |log[k]| <= MAX_RECORD
    decreases |log| - i
  {
    if i == |log| then [] else Record(c, i, log[i]) + Stream(c, log, i + 1)
  }

  lemma {:induction false} StreamAppend(c: Cipher, log: seq<bytes>, p: bytes, i: nat)
    requires Small(log) && |p| <= MAX_RECORD && i <= |log|
    ensures Stream(c, log + [p], i) == Stream(c, log, i) + Record(c, |log|, p)
    decreases |log| - i
  {
    if i < |log| {
      StreamAppend(c, log, p, i + 1);
    }
  }

  // ---- the reader ----

  /** What the transport yields: a byte, or an error that takes none. */
  datatype Event = Byte(b: byte) | Fault

  datatype Reader = Reader(sequence: nat, error: Option<Error>, buffer: bytes, incoming: seq<Event>)

  function Fresh(incoming: seq<Event>): Reader {
    Reader(0, None, [], incoming)
  }

  datatype Chunk = Chunk(data: bytes, ok: bool, rest: seq<Event>)

  /** io.ReadFull: n bytes, unless an error or the end of the stream comes first. */
  function ReadFull(incoming: seq<Event>, n: nat): (c: Chunk)
    ensures |c.rest| <= |incoming| - |c.data| && |c.data| <= n && (c.ok <==> |c.data| == n)
    ensures !c.ok && incoming != [] ==> |c.rest| < |incoming|
  {
    if n == 0 then Chunk([], true, incoming)
    else if incoming == [] then Chunk([], false, [])
    else if incoming[0].Fault? then Chunk([], false, incoming[1..])
    else
      var more := ReadFull(incoming[1..], n - 1);
      Chunk([incoming[0].b] + more.data, more.ok, more.rest)
  }

  datatype Outcome = Outcome(reader: Reader, error: Option<Error>)

  function Fail(r: Reader, incoming: seq<Event>, e: Error, sticky: bool): Outcome {
    Outcome(r.(error := if sticky then Some(e) else r.error, incoming := incoming), Some(e))
  }

  /** One turn of the loop of Read: a record is taken from the transport. */
  function Fill(c: Cipher, r: Reader): (o: Outcome)
    ensures |o.reader.incoming| <= |r.incoming| && (o.error.None? ==> |o.reader.incoming| < |r.incoming|)
  {
    var header := ReadFull(r.incoming, 4);
    if !header.ok then Fail(r, header.rest, IO, header.data != [])
    else
      var size := GetU32(header.data);
      if size < OVERHEAD || size > MAX_RECORD + OVERHEAD then Fail(r, header.rest, BadSize, true)
      else
        var packet := ReadFull(header.rest, size);
        if !packet.ok then Fail(r, packet.rest, IO, true)
        else
          match c.open(r.sequence, packet.data)
          case None => Fail(r, packet.rest, Forged, true)
          case Some(plain) =>
            Outcome(if r.sequence == LAST_SEQUENCE then Reader(r.sequence, Some(Exhausted), plain, packet.rest)
                    else Reader(r.sequence + 1, r.error, plain, packet.rest), None)
  }

  datatype Delivery = Delivery(reader: Reader, data: bytes, error: Option<Error>)

  function Min(a: nat, b: nat): nat {
    if a < b then a else b
  }

  /** One call of Read with room for n bytes. */
  function Read(c: Cipher, r: Reader, n: nat): Delivery
    decreases |r.incoming|
  {
    if n == 0 then Delivery(r, [], None)
    else if r.buffer != [] then
      var k := Min(n, |r.buffer|);
      Delivery(r.(buffer := r.buffer[k..]), r.buffer[..k], None)
    else if r.error.Some? then Delivery(r, [], r.error)
    else
      var filled := Fill(c, r);
      if filled.error.Some? then Delivery(filled.reader, [], filled.error) else Read(c, filled.reader, n)
  }

  /** A run of Read calls: the reader it leaves and everything delivered. */
  function Session(c: Cipher, r: Reader, sizes: seq<nat>): (Reader, bytes)
    decreases |sizes|
  {
    if sizes == [] then (r, [])
    else
      var before := Session(c, r, sizes[..|sizes| - 1]);
      var last := Read(c, before.0, sizes[|sizes| - 1]);
      (last.reader, before.1 + last.data)
  }

  // ---- nothing but the peer's plaintext, in order ----

  /** How many records have been opened. */
  function OpenedBy(r: Reader): nat {
    if r.error == Some(Exhausted) then r.sequence + 1 else r.sequence
  }

  /** What was delivered and what is buffered is the plaintext of the records opened so far. */
  ghost predicate Faithful(r: Reader, log: seq<bytes>, delivered: bytes) {
    OpenedBy(r) <= |log| && delivered + r.buffer == Plain(log[..OpenedBy(r)])
  }

  lemma FillFaithful(c: Cipher, r: Reader, log: seq<bytes>, delivered: bytes)
    requires Ideal(c, log) && Faithful(r, log, delivered) && r.buffer == [] && r.error.None?
    ensures Faithful(Fill(c, r).reader, log, delivered)
    ensures Fill(c, r).error.Some? ==> Fill(c, r).reader.buffer == []
  {
    var o := Fill(c, r);
    if o.error.None? {
      var k := r.sequence;
      assert log[..k + 1][..k] == log[..k];
      assert delivered + [] == delivered;
    }
  }

  lemma {:induction false} ReadFaithful(c: Cipher, r: Reader, n: nat, log: seq<bytes>, delivered: bytes)
    requires Ideal(c, log) && Faithful(r, log, delivered)
    ensures Faithful(Read(c, r, n).reader, log, delivered + Read(c, r, n).data)
    decreases |r.incoming|
  {
    hide Fill;
    hide Ideal;
    hide Plain;
    if n == 0 {
      assert delivered + [] == delivered;
    } else if r.buffer != [] {
      var k := Min(n, |r.buffer|);
      assert (delivered + r.buffer[..k]) + r.buffer[k..] == delivered + r.buffer;
    } else if r.error.Some? {
      assert delivered + [] == delivered;
    } else {
      FillFaithful(c, r, log, delivered);
      assert delivered + [] == delivered;
      if Fill(c, r).error.None? {
        ReadFaithful(c, Fill(c, r).reader, n, log, delivered);
      }
    }
  }

  lemma {:induction false} SessionFaithful(c: Cipher, r: Reader, sizes: seq<nat>, log: seq<bytes>, delivered: bytes)
    requires Ideal(c, log) && Faithful(r, log, delivered)
    ensures Faithful(Session(c, r, sizes).0, log, delivered + Session(c, r, sizes).1)
    decreases |sizes|
  {
    hide Read;
    hide Ideal;
    hide Faithful;
    assert delivered + [] == delivered;
    if sizes != [] {
      var n := |sizes| - 1;
      SessionFaithful(c, r, sizes[..n], log, delivered);
      var before := Session(c, r, sizes[..n]);
      ReadFaithful(c, before.0, sizes[n], log, delivered + before.1);
      assert (delivered + before.1) + Read(c, before.0, sizes[n]).data == delivered + Session(c, r, sizes).1;
    }
  }

  lemma {:induction false} PlainPrefix(log: seq<bytes>, k: nat)
    requires k <= |log|
    ensures Plain(log[..k]) <= Plain(log)
    decreases |log|
  {
    if k == |log| {
      assert log[..k] == log;
    } else {
      PlainPrefix(log[..|log| - 1], k);
      assert log[..|log| - 1][..k] == log[..k];
    }
  }

  /** Whatever arrives, and however it is cut into reads, what is delivered is the beginning of what the peer sealed. */
  lemma {:induction false} OnlyWhatWasSealed(c: Cipher, log: seq<bytes>, incoming: seq<Event>, sizes: seq<nat>)
    requires Ideal(c, log)
    ensures Session(c, Fresh(incoming), sizes).1 <= Plain(log)
  {
    var (r, delivered) := Session(c, Fresh(incoming), sizes);
    assert log[..0] == [];
    SessionFaithful(c, Fresh(incoming), sizes, log, []);
    assert [] + delivered == delivered;
    PlainPrefix(log, OpenedBy(r));
    assert delivered <= delivered + r.buffer;
  }

  // ---- all of it arrives when the channel is honest ----

  function Events(data: bytes): seq<Event> {
    seq(|data|, i requires 0 <= i < |data| => Byte(data[i]))
  }

  /** From record i on, incoming carries the records of log, with errors between records only. */
  ghost predicate Clean(c: Cipher, log: seq<bytes>, i: nat, incoming: seq<Event>)
    requires i <= |log| && Small(log)
    decreases |incoming|
  {
    if incoming == [] then i == |log|
    else if incoming[0].Fault? then Clean(c, log, i, incoming[1..])
    else
      && i < |log|
      && Events(Record(c, i, log[i])) <= incoming
      && Clean(c, log, i + 1, incoming[|Record(c, i, log[i])|..])
  }

  /** The records as they were sealed are such a stream. */
  lemma {:induction false} StreamIsClean(c: Cipher, log: seq<bytes>, i: nat)
    requires Small(log) && i <= |log|
    ensures Clean(c, log, i, Events(Stream(c, log, i)))
    decreases |log| - i
  {
    if i < |log| {
      StreamIsClean(c, log, i + 1);
      var record := Record(c, i, log[i]);
      assert Events(Stream(c, log, i)) == Events(record) + Events(Stream(c, log, i + 1));
    }
  }

  lemma {:induction false} ReadFullEvents(data: bytes, rest: seq<Event>)
    ensures ReadFull(Events(data) + rest, |data|) == Chunk(data, true, rest)
    decreases |data|
  {
    var all := Events(data) + rest;
    if data == [] {
      assert all == rest;
    } else {
      ReadFullEvents(data[1..], rest);
      assert all[1..] == Events(data[1..]) + rest;
      assert data == [data[0]] + data[1..];
    }
  }

  /** The reader has kept up with the records: no error but the exhausted counter after the last one. */
  ghost predicate OnTrack(c: Cipher, r: Reader, log: seq<bytes>)
    requires Small(log)
  {
    && OpenedBy(r) <= |log|
    && (r.error.None? || (r.error == Some(Exhausted) && OpenedBy(r) == |log|))
    && (r.error.None? ==> Clean(c, log, r.sequence, r.incoming))
  }

  lemma TakeRecord(size: nat, sealed: bytes, rest: seq<Event>)
    requires size == |sealed| && size < 0x1_0000_0000
    ensures var header := ReadFull(Events(U32(size) + sealed) + rest, 4);
            header.ok && GetU32(header.data) == size && ReadFull(header.rest, size) == Chunk(sealed, true, rest)
  {
    assert Events(U32(size) + sealed) + rest == Events(U32(size)) + (Events(sealed) + rest);
    ReadFullEvents(U32(size), Events(sealed) + rest);
    U32RoundTrip(size, []);
    assert U32(size) + [] == U32(size);
    ReadFullEvents(sealed, rest);
  }

  lemma FillRecord(c: Cipher, r: Reader, log: seq<bytes>)
    requires Sized(c) && Opens(c, log) && Small(log) && |log| <= LAST_SEQUENCE + 1
    requires OnTrack(c, r, log) && r.error.None? && r.buffer == [] && r.incoming != [] && r.incoming[0].Byte?
    ensures var i := r.sequence;
            && i < |log| && |Record(c, i, log[i])| <= |r.incoming|
            && Fill(c, r) == Outcome(if i == LAST_SEQUENCE then Reader(i, Some(Exhausted), log[i], r.incoming[|Record(c, i, log[i])|..])
                                     else Reader(i + 1, None, log[i], r.incoming[|Record(c, i, log[i])|..]), None)
  {
    var i := r.sequence;
    var sealed := c.seal(i, log[i]);
    var rest := r.incoming[|Record(c, i, log[i])|..];
    assert r.incoming == Events(Record(c, i, log[i])) + rest;
    TakeRecord(|sealed|, sealed, rest);
    hide ReadFull;
  }

  lemma FillHonest(c: Cipher, r: Reader, log: seq<bytes>)
    requires Sized(c) && Opens(c, log) && Small(log) && |log| <= LAST_SEQUENCE + 1
    requires OnTrack(c, r, log) && r.error.None? && r.buffer == [] && r.incoming != []
    ensures OnTrack(c, Fill(c, r).reader, log)
    ensures |Fill(c, r).reader.incoming| + |Fill(c, r).reader.buffer| < |r.incoming|
  {
    if r.incoming[0].Byte? {
      FillRecord(c, r, log);
      hide Fill;
    }
  }

  /** A call makes progress: it delivers something, or reports an error that the transport raised between records, or
      there is nothing left. */
  lemma {:induction false} ReadHonest(c: Cipher, r: Reader, n: nat, log: seq<bytes>)
    requires Sized(c) && Opens(c, log) && Small(log) && |log| <= LAST_SEQUENCE + 1 && n > 0 && OnTrack(c, r, log)
    ensures var d := Read(c, r, n);
            && OnTrack(c, d.reader, log)
            && (|d.reader.incoming| + |d.reader.buffer| < |r.incoming| + |r.buffer|
                || (d.reader.buffer == [] && OpenedBy(d.reader) == |log|))
    decreases |r.incoming|
  {
    hide Opens;
    hide Sized;
    if r.buffer == [] && r.error.None? && r.incoming != [] {
      FillHonest(c, r, log);
      hide Fill;
      hide Clean;
      if Fill(c, r).error.None? {
        ReadHonest(c, Fill(c, r).reader, n, log);
      }
    }
  }

  lemma {:induction false} SessionHonest(c: Cipher, r: Reader, sizes: seq<nat>, log: seq<bytes>)
    requires Sized(c) && Opens(c, log) && Small(log) && |log| <= LAST_SEQUENCE + 1 && OnTrack(c, r, log)
    requires forall i :: 0 <= i < |sizes| ==> sizes[i] > 0
    ensures var r' := Session(c, r, sizes).0;
            && OnTrack(c, r', log)
            && (|r'.incoming| + |r'.buffer| + |sizes| <= |r.incoming| + |r.buffer| || (r'.buffer == [] && OpenedBy(r') == |log|))
    decreases |sizes|
  {
    hide Opens;
    hide Sized;
    hide OnTrack;
    if sizes != [] {
      var n := |sizes| - 1;
      SessionHonest(c, r, sizes[..n], log);
      ReadHonest(c, Session(c, r, sizes[..n]).0, sizes[n], log);
      var before := Session(c, r, sizes[..n]).0;
      if before.buffer == [] && OpenedBy(before) == |log| {
        NothingLeft(c, before, sizes[n], log);
      }
    }
  }

  lemma NothingLeft(c: Cipher, r: Reader, n: nat, log: seq<bytes>)
    requires Sized(c) && Opens(c, log) && Small(log) && |log| <= LAST_SEQUENCE + 1 && n > 0 && OnTrack(c, r, log)
    requires r.buffer == [] && OpenedBy(r) == |log|
    ensures Read(c, r, n).reader.buffer == [] && OpenedBy(Read(c, r, n).reader) == |log|
  {
    if r.error.None? && r.incoming != [] {
      assert r.incoming[0].Fault?;
    }
  }

  /** If the records arrive as they were sealed, with errors between them at most, enough calls of any sizes deliver
      everything. */
  lemma {:induction false} AllThatWasSealed(c: Cipher, log: seq<bytes>, incoming: seq<Event>, sizes: seq<nat>)
    requires Sized(c) && Ideal(c, log) && Opens(c, log) && Small(log) && |log| <= LAST_SEQUENCE + 1
    requires Clean(c, log, 0, incoming)
    requires |sizes| > |incoming| && forall i :: 0 <= i < |sizes| ==> sizes[i] > 0
    ensures Session(c, Fresh(incoming), sizes).1 == Plain(log)
  {
    var (r, delivered) := Session(c, Fresh(incoming), sizes);
    SessionHonest(c, Fresh(incoming), sizes, log);
    assert log[..0] == [];
    SessionFaithful(c, Fresh(incoming), sizes, log, []);
    assert [] + delivered + r.buffer == delivered;
    assert log[..|log|] == log;
  }
}
