/** The two directions of an encrypted connection as mutable objects: Conn.Write, writeFull and Conn.Read of
  internal/secureconn/secureconn.go. */
module SecureConns {
  import opened Bytes
  import opened Wrappers
  import opened SecureRecords
  import opened SecureWrites

  /** The underlying connection: it takes bytes as its script says, and everything once the script is over. */
  class Transport {
    var script: seq<Answer>
    var wire: bytes

    constructor (script: seq<Answer>)
      ensures this.script == script && wire == []
    {
      this.script, wire := script, [];
    }

    method Write(payload: bytes) returns (n: int, failed: bool)
      modifies this
      ensures Answer(n, failed) == if old(script) == [] then Answer(|payload|, false) else old(script)[0]
      ensures script == if old(script) == [] then [] else old(script)[1..]
      ensures wire == old(wire) + (if 0 <= n <= |payload| then payload[..n] else [])
    {
      if script == [] {
        n, failed := |payload|, false;
      } else {
        n, failed := script[0].n, script[0].failed;
        script := script[1..];
      }
      if 0 <= n <= |payload| {
        wire := wire + payload[..n];
      }
    }
  }

  class RecordWriter {
    const transport: Transport
    const cipher: Cipher
    var writeSeq: nat
    var writeErr: Option<Error>
    /** The plaintext and the sequence number of every Seal call, and how many of the records were written whole. */
    ghost var seals: seq<bytes>
    ghost var numbers: seq<nat>
    ghost var complete: nat

    constructor (transport: Transport, cipher: Cipher)
      requires Sized(cipher) && transport.wire == []
      ensures Valid() && fresh(this) && this.transport == transport && this.cipher == cipher
      ensures View() == NewWriter(transport.script)
    {
      this.transport, this.cipher := transport, cipher;
      writeSeq, writeErr := 0, None;
      seals, numbers, complete := [], [], 0;
    }

    ghost function View(): Writer
      reads this, transport
    {
      Writer(writeSeq, writeErr, transport.script, transport.wire, seals, numbers, complete)
    }

    ghost predicate Valid()
      reads this, transport
    {
      Sized(cipher) && Ordered(cipher, View())
    }

    /** writeFull: a count out of range or of nothing is a short write. */
    method WriteFull(payload: bytes) returns (written: nat, error: Option<Error>)
      modifies transport
      ensures Sent(written, error, transport.script) == Transmit(old(transport.script), |payload|)
      ensures transport.wire == old(transport.wire) + payload[..written]
    {
      written := 0;
      while written < |payload|
        invariant written <= |payload| && transport.wire == old(transport.wire) + payload[..written]
        invariant Transmit(old(transport.script), |payload|) ==
                  var more := Transmit(transport.script, |payload| - written); Sent(written + more.written, more.error, more.rest)
      {
        var rest := payload[written..];
        var n, failed := transport.Write(rest);
        if n < 0 || n > |rest| {
          return written, Some(ShortWrite);
        }
        TookMore(old(transport.wire), payload, written, n);
        written := written + n;
        if failed {
          return written, Some(IO);
        }
        if n == 0 {
          return written, Some(ShortWrite);
        }
      }
      error := None;
    }

    /** One record: it is sealed under the current number, and the number moves on when all of it was written. */
    method WriteRecord(p: bytes) returns (whole: bool, error: Option<Error>)
      requires Valid() && writeErr.None? && |p| <= MAX_RECORD
      modifies this, transport
      ensures Valid() && View() == SecureWrites.WriteRecord(cipher, old(View()), p)
      ensures Written(View(), if whole then |p| else 0, error) == Round(cipher, old(View()), p)
      ensures error.None? ==> whole
    {
      RecordOrdered(cipher, View(), p);
      hide Ordered;
      var packet := Record(cipher, writeSeq, p);
      seals, numbers := seals + [p], numbers + [writeSeq];
      var n;
      n, error := WriteFull(packet);
      whole := n == |packet|;
      if whole {
        complete := complete + 1;
        if writeSeq == LAST_SEQUENCE {
          writeErr := Some(Exhausted);
        } else {
          writeSeq := writeSeq + 1;
        }
      }
      if error.Some? {
        writeErr := error;
      }
    }

    /** Write reports exactly the plaintext of the records that went out whole; it stops at the first error and never
        seals again after it. */
    method Write(p: bytes) returns (written: nat, error: Option<Error>)
      requires Valid()
      modifies this, transport
      ensures Valid() && Written(View(), written, error) == SecureWrites.Write(cipher, old(View()), p)
      ensures Accounted(old(View()), p, Written(View(), written, error))
    {
      hide Valid;
      hide Accounted;
      hide Ordered;
      hide Round;
      hide SecureWrites.WriteRecord;
      hide SecureWrites.Write;
      hide Sized;
      ghost var all := SecureWrites.Write(cipher, View(), p);
      CallAccounted(this, p);
      assert p[0..] == p;
      written := 0;
      while written < |p|
        invariant written <= |p| && Valid()
        invariant all == var more := SecureWrites.Write(cipher, View(), p[written..]); Written(more.writer, written + more.count, more.error)
      {
        WriteUnfolds(cipher, View(), p, written);
        if writeErr.Some? {
          return written, writeErr;
        }
        var size := if |p| - written > MAX_RECORD then MAX_RECORD else |p| - written;
        var whole;
        whole, error := WriteRecord(p[written..written + size]);
        if whole {
          written := written + size;
        }
        if error.Some? {
          return;
        }
      }
      WriteUnfolds(cipher, View(), p, written);
      error := None;
    }
  }

  lemma TookMore(wire: bytes, payload: bytes, written: nat, n: nat)
    requires written + n <= |payload|
    ensures (wire + payload[..written]) + payload[written..][..n] == wire + payload[..written + n]
  {
    assert payload[..written] + payload[written..][..n] == payload[..written + n];
  }

  lemma CallAccounted(w: RecordWriter, p: bytes)
    requires w.Valid()
    ensures Accounted(w.View(), p, Write(w.cipher, w.View(), p))
  {
    WriteSeals(w.cipher, w.View(), p);
  }

  /** Whatever its transport has answered, no two Seal calls of a writer have used the same nonce. */
  lemma NoncesOfWriter(w: RecordWriter, i: nat, j: nat)
    requires w.Valid() && i < j < |w.numbers|
    ensures w.numbers[i] <= LAST_SEQUENCE && w.numbers[j] <= LAST_SEQUENCE && Nonce(w.numbers[i]) != Nonce(w.numbers[j])
  {
    NoncesDiffer(i, j);
  }

  class RecordReader {
    const cipher: Cipher
    var readSeq: nat
    var readErr: Option<Error>
    var readBuf: bytes
    var incoming: seq<Event>

    constructor (cipher: Cipher, incoming: seq<Event>)
      ensures View() == Fresh(incoming) && this.cipher == cipher
    {
      this.cipher, this.incoming := cipher, incoming;
      readSeq, readErr, readBuf := 0, None, [];
    }

    function View(): Reader
      reads this
    {
      Reader(readSeq, readErr, readBuf, incoming)
    }

    /** io.ReadFull on the transport. */
    method ReadFull(n: nat) returns (data: bytes, ok: bool)
      modifies `incoming
      ensures Chunk(data, ok, incoming) == SecureRecords.ReadFull(old(incoming), n)
    {
      data := [];
      while |data| < n && incoming != [] && incoming[0].Byte?
        invariant |data| <= n && |incoming| <= |old(incoming)|
        invariant SecureRecords.ReadFull(old(incoming), n) ==
                  var more := SecureRecords.ReadFull(incoming, n - |data|); Chunk(data + more.data, more.ok, more.rest)
        decreases |incoming|
      {
        data := data + [incoming[0].b];
        incoming := incoming[1..];
      }
      ok := |data| == n;
      if !ok && incoming != [] {
        incoming := incoming[1..];
      }
      assert data + [] == data;
    }

    /** The loop's body: one record, or an error. */
    method Fill() returns (error: Option<Error>)
      modifies this
      ensures Outcome(View(), error) == SecureRecords.Fill(cipher, old(View()))
    {
      var header, ok := ReadFull(4);
      if !ok {
        if header != [] {
          readErr := Some(IO);
        }
        return Some(IO);
      }
      var size := GetU32(header);
      if size < OVERHEAD || size > MAX_RECORD + OVERHEAD {
        readErr := Some(BadSize);
        return readErr;
      }
      var packet;
      packet, ok := ReadFull(size);
      if !ok {
        readErr := Some(IO);
        return readErr;
      }
      var plain := cipher.open(readSeq, packet);
      if plain.None? {
        readErr := Some(Forged);
        return readErr;
      }
      if readSeq == LAST_SEQUENCE {
        readErr := Some(Exhausted);
      } else {
        readSeq := readSeq + 1;
      }
      readBuf := plain.value;
      error := None;
    }

    method Read(n: nat) returns (data: bytes, error: Option<Error>)
      modifies this
      ensures Delivery(View(), data, error) == SecureRecords.Read(cipher, old(View()), n)
    {
      if n == 0 {
        return [], None;
      }
      while readBuf == []
        invariant SecureRecords.Read(cipher, View(), n) == SecureRecords.Read(cipher, old(View()), n)
        decreases |incoming|
      {
        if readErr.Some? {
          return [], readErr;
        }
        ghost var before := View();
        var failed := Fill();
        if failed.Some? {
          return [], failed;
        }
      }
      var k := Min(n, |readBuf|);
      data, error := readBuf[..k], None;
      readBuf := readBuf[k..];
    }
  }
}
