/** What a record is, what the reader of internal/secureconn/secureconn.go makes of what comes next, and when it has read for the
  last time. */
module SecureReads {
  import opened Bytes
  import opened Wrappers
  import opened SecureRecords
  import opened SecureWrites

  /** A record is the size of the sealed text, in four bytes from the highest, and the sealed text, 16 bytes longer than the
      plain one; its nonce is four zero bytes and the sequence number in eight, from the highest. */
  lemma {:induction false} RecordLayout(c: Cipher, n: nat, p: bytes)
    requires Sized(c) && |p| <= 65536 && n <= 18446744073709551615
    ensures var r := Record(c, n, p);
            && |r| == |p| + 20 && r[4..] == c.seal(n, p)
            && Number(r[..4]) == |p| + 16
    ensures var nonce := Nonce(n);
            && |nonce| == 12 && nonce[..4] == [0, 0, 0, 0]
            && Number(nonce[4..8]) * 4294967296 + Number(nonce[8..]) == n
  {
    U32RoundTrip(|p| + 16, []);
    assert Record(c, n, p)[..4] == U32(|p| + 16) + [];
    NumberRead(U32(|p| + 16));
    U64RoundTrip(n);
    var nonce := Nonce(n);
    assert nonce[4..8] == U64(n)[..4] && nonce[8..] == U64(n)[4..];
    NumberRead(nonce[4..8]);
    NumberRead(nonce[8..]);
    assert GetU32(nonce[4..8]) == GetU32(U64(n));
  }

  /** The number that four bytes stand for. */
  function Number(b: bytes): nat
    requires |b| == 4
  {
    ((b[0] as int * 256 + b[1]) * 256 + b[2]) * 256 + b[3]
  }

  lemma NumberRead(b: bytes)
    requires |b| == 4
    ensures Number(b) == GetU32(b)
  {
  }

  lemma {:induction false} ReadFullStops(data: bytes, rest: seq<Event>, n: nat)
    requires |data| < n && (rest == [] || rest[0].Fault?)
    ensures ReadFull(Events(data) + rest, n) == Chunk(data, false, if rest == [] then [] else rest[1..])
    decreases |data|
  {
    var all := Events(data) + rest;
    if data == [] {
      assert all == rest;
    } else {
      ReadFullStops(data[1..], rest, n - 1);
      assert all[1..] == Events(data[1..]) + rest;
      assert data == [data[0]] + data[1..];
    }
  }

  /** A transport error or the end of the stream before a whole size field has come: nothing is lost if not a byte of it has,
      and everything otherwise. */
  lemma {:induction false} TornSize(c: Cipher, r: Reader, data: bytes, rest: seq<Event>)
    requires |data| < 4 && (rest == [] || rest[0].Fault?) && r.incoming == Events(data) + rest
    ensures Fill(c, r).error == Some(IO)
    ensures Fill(c, r).reader == r.(error := if data == [] then r.error else Some(IO), incoming := if rest == [] then [] else rest[1..])
  {
    ReadFullStops(data, rest, 4);
  }

  /** A size that no record has. */
  lemma {:induction false} WrongSize(c: Cipher, r: Reader, header: bytes, rest: seq<Event>)
    requires |header| == 4 && !(16 <= Number(header) <= 65552) && r.incoming == Events(header) + rest
    ensures Fill(c, r) == Outcome(r.(error := Some(BadSize), incoming := rest), Some(BadSize))
  {
    NumberRead(header);
    ReadFullEvents(header, rest);
  }

  /** An error or the end inside a record. */
  lemma {:induction false} TornRecord(c: Cipher, r: Reader, header: bytes, data: bytes, rest: seq<Event>)
    requires |header| == 4 && 16 <= Number(header) <= 65552 && |data| < Number(header) && (rest == [] || rest[0].Fault?)
    requires r.incoming == Events(header) + (Events(data) + rest)
    ensures Fill(c, r) == Outcome(r.(error := Some(IO), incoming := if rest == [] then [] else rest[1..]), Some(IO))
  {
    NumberRead(header);
    ReadFullEvents(header, Events(data) + rest);
    ReadFullStops(data, rest, Number(header));
  }

  /** A whole record: it opens under the current number, and its plaintext is buffered and the next number awaited, none after
      2^64 - 1; or it was not sealed under that number, and nothing is read any more. */
  lemma {:induction false} WholeRecord(c: Cipher, r: Reader, header: bytes, data: bytes, rest: seq<Event>)
    requires |header| == 4 && 16 <= Number(header) <= 65552 && |data| == Number(header)
    requires r.incoming == Events(header) + (Events(data) + rest)
    ensures Fill(c, r) ==
            match c.open(r.sequence, data)
            case None => Outcome(r.(error := Some(Forged), incoming := rest), Some(Forged))
            case Some(plain) =>
              if r.sequence == 18446744073709551615 then Outcome(Reader(r.sequence, Some(Exhausted), plain, rest), None)
              else Outcome(Reader(r.sequence + 1, r.error, plain, rest), None)
  {
    NumberRead(header);
    ReadFullEvents(header, Events(data) + rest);
    ReadFullEvents(data, rest);
  }

  /** Once an error is kept, what is buffered is handed out and then every read reports it; nothing more is taken in. */
  lemma {:induction false} KeptForGood(c: Cipher, r: Reader, sizes: seq<nat>)
    requires r.error.Some?
    ensures var (after, delivered) := Session(c, r, sizes);
            && delivered + after.buffer == r.buffer && after == r.(buffer := after.buffer)
            && (forall n: nat :: n > 0 && after.buffer == [] ==> Read(c, after, n) == Delivery(after, [], r.error))
    decreases |sizes|
  {
    if sizes != [] {
      var n := |sizes| - 1;
      KeptForGood(c, r, sizes[..n]);
      var (before, delivered) := Session(c, r, sizes[..n]);
      var k := Min(sizes[n], |before.buffer|);
      assert before.buffer[..k] + before.buffer[k..] == before.buffer;
      assert delivered + (before.buffer[..k] + before.buffer[k..]) == (delivered + before.buffer[..k]) + before.buffer[k..];
      assert delivered + [] == delivered;
    }
  }

  /** A call of Read with room hands out the beginning of what is buffered, as much as there is room for; if nothing is, that
      of the next record that is not empty, or an error; and never both. */
  lemma {:induction false} ReadsSomething(c: Cipher, r: Reader, n: nat)
    requires n > 0
    ensures var d := Read(c, r, n);
            && |d.data| <= n && (d.error.None? <==> d.data != [])
            && (d.error.None? && d.reader.buffer != [] ==> |d.data| == n)
            && (r.buffer != [] ==> d.data + d.reader.buffer == r.buffer && d.reader == r.(buffer := d.reader.buffer))
    decreases |r.incoming|
  {
    if r.buffer == [] && r.error.None? && Fill(c, r).error.None? {
      ReadsSomething(c, Fill(c, r).reader, n);
    }
    hide Fill;
  }

  /** A call of Write cuts what it is given into records of 65536 bytes and a rest. */
  lemma {:induction false} CutsExactly(c: Cipher, w: Writer, p: bytes, i: nat)
    requires Sized(c) && Ordered(c, w) && |w.seals| <= i < |Write(c, w, p).writer.seals|
    ensures var seals, at := Write(c, w, p).writer.seals, (i - |w.seals|) * 65536;
            at < |p| && seals[i] == p[at..if at + 65536 < |p| then at + 65536 else |p|]
    decreases |p|
  {
    WriteSeals(c, w, p);
    hide Ordered;
    hide Accounted;
    if p != [] && w.error.None? {
      RecordOrdered(c, w, p[..Min(|p|, MAX_RECORD)]);
      CutsFirst(c, w, p, i);
    }
  }

  lemma {:induction false} CutsFirst(c: Cipher, w: Writer, p: bytes, i: nat)
    requires Sized(c) && Ordered(c, w) && p != [] && w.error.None? && |w.seals| <= i < |Write(c, w, p).writer.seals|
    ensures var seals, at := Write(c, w, p).writer.seals, (i - |w.seals|) * 65536;
            at < |p| && seals[i] == p[at..if at + 65536 < |p| then at + 65536 else |p|]
    decreases |p|, 0
  {
    var size := Min(|p|, MAX_RECORD);
    var w1 := Round(c, w, p[..size]).writer;
    RecordOrdered(c, w, p[..size]);
    assert w1.seals == w.seals + [p[..size]];
    hide Ordered;
    hide Round;
    if Round(c, w, p[..size]).error.None? {
      WriteSeals(c, w1, p[size..]);
      if i > |w.seals| {
        CutsExactly(c, w1, p[size..], i);
      }
    }
  }
}
