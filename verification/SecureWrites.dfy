/** The writing direction of internal/secureconn/secureconn.go over any run of Write calls, and the two directions
  together. */
module SecureWrites {
  import opened Bytes
  import opened Wrappers
  import opened SecureRecords

  /** What the transport answers to one Write: a count, which may be out of range, and whether it failed. */
  datatype Answer = Answer(n: int, failed: bool)

  datatype Sent = Sent(written: nat, error: Option<Error>, rest: seq<Answer>)

  /** writeFull for a payload of this size: a count out of range or of nothing is a short write.  Once the script of
      answers is over the transport takes everything. */
  function Transmit(script: seq<Answer>, size: nat): (s: Sent)
    ensures s.written <= size && (s.error.None? ==> s.written == size)
    ensures s.error != Some(Exhausted)
    decreases size
  {
    if size == 0 then Sent(0, None, script)
    else if script == [] then Sent(size, None, [])
    else
      var a := script[0];
      if a.n < 0 || a.n > size then Sent(0, Some(ShortWrite), script[1..])
      else if a.failed then Sent(a.n, Some(IO), script[1..])
      else if a.n == 0 then Sent(0, Some(ShortWrite), script[1..])
      else
        var more := Transmit(script[1..], size - a.n);
        Sent(a.n + more.written, more.error, more.rest)
  }

  /** How much the first k answers take. */
  function Taken(script: seq<Answer>, k: nat): int
    requires k <= |script|
  {
    if k == 0 then 0 else Taken(script, k - 1) + script[k - 1].n
  }

  /** The answer took something, without a failure, and together with those before it less than size. */
  predicate GoesOn(script: seq<Answer>, i: nat, size: nat)
    requires i < |script|
  {
    script[i].n > 0 && !script[i].failed && Taken(script, i + 1) < size
  }

  ghost predicate Smooth(script: seq<Answer>, k: nat, size: nat) {
    k <= |script| && forall i :: 0 <= i < k ==> GoesOn(script, i, size)
  }

  /** Which answers are used and what becomes of the payload: it goes on while answers take some of what is left.  It ends well
      when all is taken; with an error after what an answer has taken that failed; and as a short write, without it, at an
      answer that takes nothing or claims more than there is. */
  ghost predicate Transmitted(script: seq<Answer>, size: nat, s: Sent) {
    && |s.rest| <= |script| && s.rest == script[|script| - |s.rest|..]
    && (var k := |script| - |s.rest|;
        if size == 0 then k == 0 && s.written == 0 && s.error == None
        else if s.rest == [] && Smooth(script, k, size) then s.written == size && s.error == None
        else
          && k > 0 && Smooth(script, k - 1, size)
          && (var last, before := script[k - 1], Taken(script, k - 1);
              if last.n < 0 || last.n > size - before then s.written == before && s.error == Some(ShortWrite)
              else if last.failed then s.written == before + last.n && s.error == Some(IO)
              else if last.n == 0 then s.written == before && s.error == Some(ShortWrite)
              else s.written == before + last.n == size && s.error == None))
  }

  lemma TakenRest(script: seq<Answer>, k: nat)
    requires 0 < |script| && k <= |script| - 1
    ensures Taken(script, k + 1) == script[0].n + Taken(script[1..], k)
  {
    if k > 0 {
      TakenRest(script, k - 1);
    }
  }

  lemma TakenFirst(script: seq<Answer>)
    requires script != []
    ensures Taken(script, 1) == script[0].n && Taken(script, 0) == 0
  {
    assert Taken(script, 0) == 0;
  }

  lemma SmoothRest(script: seq<Answer>, k: nat, size: nat)
    requires script != [] && script[0].n > 0 && !script[0].failed && script[0].n < size && k < |script|
    ensures Smooth(script, k + 1, size) <==> Smooth(script[1..], k, size - script[0].n)
  {
    TakenFirst(script);
    forall j | 1 <= j <= k ensures Taken(script[1..], j) == Taken(script, j + 1) - script[0].n {
      TakenRest(script, j);
    }
    hide Taken;
    var rest, room := script[1..], size - script[0].n;
    if Smooth(script, k + 1, size) {
      forall i | 0 <= i < k ensures GoesOn(rest, i, room) {
        assert GoesOn(script, i + 1, size);
      }
    }
    if Smooth(rest, k, room) {
      forall j | 0 <= j < k + 1 ensures GoesOn(script, j, size) {
        if j > 0 {
          assert GoesOn(rest, j - 1, room);
        }
      }
    }
  }

  lemma {:induction false} TransmitExactly(script: seq<Answer>, size: nat)
    ensures Transmitted(script, size, Transmit(script, size))
    decreases size
  {
    hide Transmitted;
    if size == 0 || script == [] {
      StopsAtOnce(script, size);
    } else if 0 < script[0].n < size && !script[0].failed {
      var t := Transmit(script[1..], size - script[0].n);
      TransmitExactly(script[1..], size - script[0].n);
      TransmitRest(script, size, t);
    } else {
      StopsAtFirst(script, size);
    }
  }

  lemma StopsAtOnce(script: seq<Answer>, size: nat)
    requires size == 0 || script == []
    ensures Transmitted(script, size, Transmit(script, size))
  {
    assert script[0..] == script;
  }

  lemma StopsAtFirst(script: seq<Answer>, size: nat)
    requires size > 0 && script != [] && !(0 < script[0].n < size && !script[0].failed)
    ensures Transmitted(script, size, Transmit(script, size))
  {
    TakenFirst(script);
    assert script[1..] == script[|script| - |script[1..]|..];
    assert !GoesOn(script, 0, size);
    assert Transmit(script[1..], 0) == Sent(0, None, script[1..]);
  }

  lemma TransmitRest(script: seq<Answer>, size: nat, t: Sent)
    requires script != [] && script[0].n > 0 && !script[0].failed && script[0].n < size
    requires Transmitted(script[1..], size - script[0].n, t)
    ensures Transmitted(script, size, Sent(script[0].n + t.written, t.error, t.rest))
  {
    var k := |script[1..]| - |t.rest|;
    SmoothRest(script, k, size);
    assert script[1..][k..] == script[k + 1..];
    if k > 0 {
      SmoothRest(script, k - 1, size);
      TakenRest(script, k - 1);
    }
    hide Smooth;
    hide Taken;
  }

  /** seals and numbers are the plaintext and the sequence number of every Seal call; complete counts the records that
      were written whole. */
  datatype Writer = Writer(sequence: nat, error: Option<Error>, script: seq<Answer>, wire: bytes,
                           seals: seq<bytes>, numbers: seq<nat>, complete: nat)

  function NewWriter(script: seq<Answer>): Writer {
    Writer(0, None, script, [], [], [], 0)
  }

  function SendRecord(c: Cipher, w: Writer, p: bytes): Sent
    requires |p| <= MAX_RECORD
  {
    Transmit(w.script, |Record(c, w.sequence, p)|)
  }

  /** One record: it is sealed under the current number, which moves on when all of it was written. */
  function WriteRecord(c: Cipher, w: Writer, p: bytes): Writer
    requires |p| <= MAX_RECORD
  {
    var packet, sent := Record(c, w.sequence, p), SendRecord(c, w, p);
    var whole := sent.written == |packet|;
    Writer(if whole && w.sequence != LAST_SEQUENCE then w.sequence + 1 else w.sequence,
           if sent.error.Some? then sent.error else if whole && w.sequence == LAST_SEQUENCE then Some(Exhausted) else w.error,
           sent.rest, w.wire + packet[..sent.written], w.seals + [p], w.numbers + [w.sequence],
           if whole then w.complete + 1 else w.complete)
  }

  datatype Written = Written(writer: Writer, count: nat, error: Option<Error>)

  /** One turn of Write's loop: what it has counted and the error it stops with. */
  function Round(c: Cipher, w: Writer, p: bytes): Written
    requires |p| <= MAX_RECORD
  {
    var w1 := WriteRecord(c, w, p);
    Written(w1, if w1.complete > w.complete then |p| else 0, SendRecord(c, w, p).error)
  }

  /** Write: records of at most 64 KiB until everything is written or an error comes. */
  function Write(c: Cipher, w: Writer, p: bytes): Written
    decreases |p|
  {
    if p == [] then Written(w, 0, None)
    else if w.error.Some? then Written(w, 0, w.error)
    else
      var size := Min(|p|, MAX_RECORD);
      var first := Round(c, w, p[..size]);
      if first.error.Some? then first
      else
        var more := Write(c, first.writer, p[size..]);
        Written(more.writer, first.count + more.count, more.error)
  }

  lemma WriteUnfolds(c: Cipher, w: Writer, p: bytes, done: nat)
    requires done <= |p|
    ensures var o := Write(c, w, p[done..]);
            if done == |p| then o == Written(w, 0, None)
            else if w.error.Some? then o == Written(w, 0, w.error)
            else
              var size := Min(|p| - done, MAX_RECORD);
              var first := Round(c, w, p[done..done + size]);
              if first.error.Some? then o == first
              else
                var more := Write(c, first.writer, p[done + size..]);
                o == Written(more.writer, first.count + more.count, more.error)
  {
    hide Round;
    if done < |p| {
      var size := Min(|p| - done, MAX_RECORD);
      assert p[done..][..size] == p[done..done + size] && p[done..][size..] == p[done + size..];
    }
  }

  /** A run of Write calls. */
  function Writes(c: Cipher, w: Writer, ps: seq<bytes>): Writer {
    if ps == [] then w else Write(c, Writes(c, w, ps[..|ps| - 1]), ps[|ps| - 1]).writer
  }

  /** The i-th Seal call used sequence number i, for i up to 2^64 - 1; all records but the last were written whole, and
      the wire holds them and the beginning of the last. */
  ghost predicate Ordered(c: Cipher, w: Writer) {
    && Small(w.seals)
    && |w.numbers| == |w.seals| <= LAST_SEQUENCE + 1 && (forall i :: 0 <= i < |w.numbers| ==> w.numbers[i] == i)
    && w.complete <= |w.seals| <= w.complete + 1
    && w.sequence <= LAST_SEQUENCE
    && (w.error.None? ==> w.complete == |w.seals| == w.sequence)
    && (w.error == Some(Exhausted) ==> w.complete == |w.seals| == LAST_SEQUENCE + 1)
    && Stream(c, w.seals[..w.complete], 0) <= w.wire <= Stream(c, w.seals, 0)
  }

  lemma RecordOrdered(c: Cipher, w: Writer, p: bytes)
    requires Sized(c) && Ordered(c, w) && w.error.None? && |p| <= MAX_RECORD
    ensures Ordered(c, WriteRecord(c, w, p))
    ensures WriteRecord(c, w, p).error.None? ==> SendRecord(c, w, p).error.None?
    ensures SendRecord(c, w, p).error.None? ==> WriteRecord(c, w, p).complete == w.complete + 1
  {
    var w1 := WriteRecord(c, w, p);
    var packet := Record(c, w.sequence, p);
    assert w.seals[..w.complete] == w.seals;
    StreamAppend(c, w.seals, p, 0);
    hide Stream;
    hide Transmit;
    hide Record;
    assert w.wire == Stream(c, w.seals, 0);
    if w1.complete > w.complete {
      assert w1.seals[..w1.complete] == w1.seals;
      assert packet[..|packet|] == packet;
    } else {
      assert w1.seals[..w1.complete] == w.seals;
    }
  }

  lemma {:induction false} WriteOrdered(c: Cipher, w: Writer, p: bytes)
    requires Sized(c) && Ordered(c, w)
    ensures Ordered(c, Write(c, w, p).writer)
    decreases |p|
  {
    hide Ordered;
    hide SendRecord;
    hide WriteRecord;
    if p != [] && w.error.None? {
      var size := Min(|p|, MAX_RECORD);
      RecordOrdered(c, w, p[..size]);
      if Round(c, w, p[..size]).error.None? {
        WriteOrdered(c, Round(c, w, p[..size]).writer, p[size..]);
      }
    }
  }

  lemma {:induction false} WritesOrdered(c: Cipher, script: seq<Answer>, ps: seq<bytes>)
    requires Sized(c)
    ensures Ordered(c, Writes(c, NewWriter(script), ps))
    decreases |ps|
  {
    hide Ordered;
    hide Write;
    if ps == [] {
      NewOrdered(c, script);
    } else {
      WritesOrdered(c, script, ps[..|ps| - 1]);
      WriteOrdered(c, Writes(c, NewWriter(script), ps[..|ps| - 1]), ps[|ps| - 1]);
    }
  }

  lemma NewOrdered(c: Cipher, script: seq<Answer>)
    ensures Ordered(c, NewWriter(script))
  {
  }

  /** Over every run of Write calls, whatever the transport answers to each of its writes, no two Seal calls use the same
      nonce, and none comes after number 2^64 - 1. */
  lemma {:induction false} NoNonceTwice(c: Cipher, script: seq<Answer>, ps: seq<bytes>, i: nat, j: nat)
    requires Sized(c) && i < j < |Writes(c, NewWriter(script), ps).numbers|
    ensures var numbers := Writes(c, NewWriter(script), ps).numbers;
            && |numbers| <= LAST_SEQUENCE + 1 && numbers[i] <= LAST_SEQUENCE && numbers[j] <= LAST_SEQUENCE
            && Nonce(numbers[i]) != Nonce(numbers[j])
  {
    WritesOrdered(c, script, ps);
    hide Writes;
    NoncesDiffer(i, j);
  }

  /** After an error, and that includes the use of the last number, no run of calls seals or sends anything. */
  lemma {:induction false} ErrorsStick(c: Cipher, w: Writer, ps: seq<bytes>)
    requires w.error.Some?
    ensures Writes(c, w, ps) == w
    decreases |ps|
  {
    if ps != [] {
      ErrorsStick(c, w, ps[..|ps| - 1]);
    }
  }

  /** While the transport takes everything there is no error until the numbers run out. */
  lemma {:induction false} SmoothWrites(c: Cipher, ps: seq<bytes>)
    requires Sized(c)
    ensures var w := Writes(c, NewWriter([]), ps);
            w.script == [] && (w.error.Some? <==> |w.seals| == 18446744073709551616)
    decreases |ps|
  {
    WritesOrdered(c, [], ps);
    if ps != [] {
      var n := |ps| - 1;
      SmoothWrites(c, ps[..n]);
      WritesOrdered(c, [], ps[..n]);
      SmoothWrite(c, Writes(c, NewWriter([]), ps[..n]), ps[n]);
    }
    hide Stream;
    hide Write;
  }

  lemma {:induction false} SmoothWrite(c: Cipher, w: Writer, p: bytes)
    requires Sized(c) && Ordered(c, w) && w.script == [] && (w.error.Some? <==> |w.seals| == 18446744073709551616)
    ensures var w' := Write(c, w, p).writer; w'.script == [] && (w'.error.Some? <==> |w'.seals| == 18446744073709551616)
    decreases |p|
  {
    WriteOrdered(c, w, p);
    if p != [] && w.error.None? {
      var size := Min(|p|, MAX_RECORD);
      RecordOrdered(c, w, p[..size]);
      SmoothRecord(c, w, p[..size]);
      var w1 := Round(c, w, p[..size]).writer;
      hide Ordered;
      hide Round;
      if Round(c, w, p[..size]).error.None? {
        SmoothWrite(c, w1, p[size..]);
      }
    }
  }

  lemma SmoothRecord(c: Cipher, w: Writer, p: bytes)
    requires Sized(c) && Ordered(c, w) && w.script == [] && w.error.None? && |p| <= MAX_RECORD
    ensures var o := Round(c, w, p); o.error == None && o.writer.script == [] && (o.writer.error.Some? <==> |o.writer.seals| == 18446744073709551616)
  {
    hide Stream;
    hide Record;
  }

  // ---- what the application wrote ----

  /** Everything that was passed to the calls, one after the other. */
  function Joined(ps: seq<bytes>): bytes {
    if ps == [] then [] else Joined(ps[..|ps| - 1]) + ps[|ps| - 1]
  }

  lemma PlainAppend(log: seq<bytes>, p: bytes)
    ensures Plain(log + [p]) == Plain(log) + p
  {
    assert (log + [p])[..|log|] == log;
  }

  /** A call with p that starts at w and ends with o seals the beginning of p, all of it unless there is an error, and
      counts the bytes of the records that were written whole; a kept error is reported for every p but the empty one. */
  ghost predicate Accounted(w: Writer, p: bytes, o: Written) {
    && w.seals <= o.writer.seals && w.complete <= o.writer.complete <= |o.writer.seals| && w.complete <= |w.seals| && o.count <= |p|
    && Plain(w.seals) <= Plain(o.writer.seals) <= Plain(w.seals) + p
    && (o.writer.error.None? ==> Plain(o.writer.seals) == Plain(w.seals) + p)
    && (w.error.Some? ==> o.writer == w && o.count == 0)
    && Plain(o.writer.seals[..o.writer.complete]) == Plain(w.seals[..w.complete]) + p[..o.count]
    && (o.error.None? <==> o.count == |p| && (p == [] || o.writer.error.None? || o.writer.error == Some(Exhausted)))
    && (o.error.Some? ==> o.writer.error == o.error)
  }

  lemma {:induction false} WriteSeals(c: Cipher, w: Writer, p: bytes)
    requires Sized(c) && Ordered(c, w)
    ensures Accounted(w, p, Write(c, w, p))
    decreases |p|
  {
    hide Stream;
    hide Transmit;
    hide Record;
    hide Plain;
    assert w.complete <= |w.seals|;
    hide Ordered;
    if p == [] {
      assert Plain(w.seals) + p == Plain(w.seals);
      assert p[..0] == [] && Plain(w.seals[..w.complete]) + [] == Plain(w.seals[..w.complete]);
    } else if w.error.Some? {
      assert p[..0] == [] && Plain(w.seals) <= Plain(w.seals) + p;
    } else {
      var size := Min(|p|, MAX_RECORD);
      WriteSealsRecord(c, w, p[..size]);
      RecordOrdered(c, w, p[..size]);
      var w1, sent := WriteRecord(c, w, p[..size]), SendRecord(c, w, p[..size]);
      assert p == p[..size] + p[size..];
      hide WriteRecord;
      hide SendRecord;
      if sent.error.None? {
        WriteSeals(c, w1, p[size..]);
        Continued(c, w, w1, p, size);
      }
    }
  }

  lemma WriteSealsRecord(c: Cipher, w: Writer, p: bytes)
    requires Sized(c) && Ordered(c, w) && w.error.None? && |p| <= MAX_RECORD
    ensures var w1, sent := WriteRecord(c, w, p), SendRecord(c, w, p);
            && w1.seals == w.seals + [p] && Plain(w1.seals) == Plain(w.seals) + p
            && w.complete <= w1.complete <= |w1.seals| && w1.complete <= w.complete + 1
            && Plain(w1.seals[..w1.complete]) == Plain(w.seals[..w.complete]) + (if w1.complete > w.complete then p else [])
            && (sent.error.Some? ==> w1.error == sent.error && sent.error != Some(Exhausted))
            && (sent.error.None? ==> w1.complete > w.complete && (w1.error.None? || w1.error == Some(Exhausted)))
  {
    PlainAppend(w.seals, p);
    var w1 := WriteRecord(c, w, p);
    assert w.seals[..w.complete] == w.seals;
    assert (w.seals + [p])[..|w.seals|] == w.seals && (w.seals + [p])[..|w.seals| + 1] == w.seals + [p];
    hide Stream;
    hide Transmit;
    hide Record;
    hide Plain;
    assert Plain(w.seals) + [] == Plain(w.seals);
  }

  lemma Continued(c: Cipher, w: Writer, w1: Writer, p: bytes, size: nat)
    requires 0 < size <= |p| && w.error.None?
    requires w1.seals == w.seals + [p[..size]] && w1.complete <= |w1.seals| && w.complete <= |w.seals| && w.complete < w1.complete
    requires Plain(w1.seals) == Plain(w.seals) + p[..size]
    requires Plain(w1.seals[..w1.complete]) == Plain(w.seals[..w.complete]) + p[..size]
    requires var o := Write(c, w1, p[size..]);
             && w1.seals <= o.writer.seals && w1.complete <= o.writer.complete <= |o.writer.seals| && o.count <= |p| - size
             && Plain(w1.seals) <= Plain(o.writer.seals) <= Plain(w1.seals) + p[size..]
             && (o.writer.error.None? ==> Plain(o.writer.seals) == Plain(w1.seals) + p[size..])
             && (w1.error.Some? ==> o.writer == w1 && o.count == 0)
             && (w1.error.None? ==> Plain(o.writer.seals[..o.writer.complete]) == Plain(w1.seals[..w1.complete]) + p[size..][..o.count])
    ensures var o := Write(c, w1, p[size..]);
            && w.seals <= o.writer.seals && w.complete <= o.writer.complete
            && Plain(w.seals) <= Plain(o.writer.seals) <= Plain(w.seals) + p
            && (o.writer.error.None? ==> Plain(o.writer.seals) == Plain(w.seals) + p)
            && Plain(o.writer.seals[..o.writer.complete]) == Plain(w.seals[..w.complete]) + p[..size + o.count]
  {
    hide Write;
    hide Plain;
    var o := Write(c, w1, p[size..]);
    assert p == p[..size] + p[size..];
    assert Plain(w1.seals) + p[size..] == Plain(w.seals) + p;
    assert p[..size] + p[size..][..o.count] == p[..size + o.count];
  }

  /** What a writer has sealed is always the beginning of what the application passed to Write, and all of it as long as
      there is no error. */
  lemma {:induction false} SealsWhatWasWritten(c: Cipher, script: seq<Answer>, ps: seq<bytes>)
    requires Sized(c)
    ensures var w := Writes(c, NewWriter(script), ps);
            Plain(w.seals) <= Joined(ps) && (w.error.None? ==> Plain(w.seals) == Joined(ps))
    decreases |ps|
  {
    hide Write;
    if ps != [] {
      var n := |ps| - 1;
      SealsWhatWasWritten(c, script, ps[..n]);
      WritesOrdered(c, script, ps[..n]);
      var w := Writes(c, NewWriter(script), ps[..n]);
      WriteSeals(c, w, ps[n]);
      hide Plain;
      assert Joined(ps) == Joined(ps[..n]) + ps[n];
      assert Joined(ps[..n]) <= Joined(ps);
    }
  }

  // ---- both directions ----

  /** Nothing opens under a number but what the writer sealed under it. */
  ghost predicate Unforged(c: Cipher, w: Writer) {
    forall n: nat, x :: c.open(n, x).Some? ==> exists k :: 0 <= k < |w.seals| && k < |w.numbers| && w.numbers[k] == n && w.seals[k] == c.open(n, x).value
  }

  /** Because no number is used twice, a number and what opens under it determine each other. */
  lemma UnforgedIsIdeal(c: Cipher, w: Writer)
    requires Ordered(c, w) && Unforged(c, w)
    ensures Ideal(c, w.seals)
  {
    hide Stream;
  }

  /** A writer and a reader of one cipher, whatever the writer's transport does and whatever reaches the reader: what the
      reader delivers is the beginning of what was sealed, and that is the beginning of what the application wrote. */
  lemma {:induction false} DeliveredIsPrefixOfWritten(c: Cipher, script: seq<Answer>, ps: seq<bytes>, incoming: seq<Event>, sizes: seq<nat>)
    requires Sized(c) && Unforged(c, Writes(c, NewWriter(script), ps))
    ensures var w := Writes(c, NewWriter(script), ps); var delivered := Session(c, Fresh(incoming), sizes).1;
            delivered <= Plain(w.seals) && delivered <= Joined(ps)
  {
    var w := Writes(c, NewWriter(script), ps);
    WritesOrdered(c, script, ps);
    SealsWhatWasWritten(c, script, ps);
    UnforgedIsIdeal(c, w);
    OnlyWhatWasSealed(c, w.seals, incoming, sizes);
    hide Writes;
    hide Session;
  }

  /** If the writer has no error and its records arrive unharmed, enough reads deliver everything that was written. */
  lemma {:induction false} WrittenIsDelivered(c: Cipher, script: seq<Answer>, ps: seq<bytes>, sizes: seq<nat>)
    requires Sized(c) && Unforged(c, Writes(c, NewWriter(script), ps)) && Opens(c, Writes(c, NewWriter(script), ps).seals)
    requires Writes(c, NewWriter(script), ps).error.None?
    requires |sizes| > |Writes(c, NewWriter(script), ps).wire| && forall i :: 0 <= i < |sizes| ==> sizes[i] > 0
    ensures Session(c, Fresh(Events(Writes(c, NewWriter(script), ps).wire)), sizes).1 == Joined(ps)
  {
    var w := Writes(c, NewWriter(script), ps);
    WritesOrdered(c, script, ps);
    SealsWhatWasWritten(c, script, ps);
    UnforgedIsIdeal(c, w);
    assert w.seals[..w.complete] == w.seals;
    assert w.wire == Stream(c, w.seals, 0);
    StreamIsClean(c, w.seals, 0);
    AllThatWasSealed(c, w.seals, Events(w.wire), sizes);
  }
}
