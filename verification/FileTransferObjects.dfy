/** The transfer manager and the file bridge as mutable objects: internal/filetransfer/filetransfer.go and
  internal/viewerapp/files.go. */
module FileTransferObjects {
  import opened Bytes
  import opened Wrappers
  import opened FileTransfers

  const IDLE_TIMEOUT: nat := 120

  /** An upload and its staging file. */
  class Transfer {
    const id: Id
    const path: Path
    const size: nat
    var offset: nat
    var content: bytes
    var lastUsed: nat

    constructor (id: Id, path: Path, size: nat, now: nat)
      ensures this.id == id && View() == Upload(path, size, 0, []) && lastUsed == now
    {
      this.id, this.path, this.size := id, path, size;
      offset, content, lastUsed := 0, [], now;
    }

    function View(): Upload
      reads this
    {
      Upload(path, size, offset, content)
    }
  }

  class TransferManager {
    var transfers: map<Id, Transfer>
    /** The files under the root, as far as uploads go. */
    var files: map<Path, bytes>
    ghost var issued: set<Id>

    constructor (files: map<Path, bytes>)
      ensures Valid() && View() == START.(files := files)
    {
      transfers, this.files, issued := map[], files, {};
    }

    ghost predicate Valid()
      reads this, transfers.Values
    {
      forall id :: id in transfers ==>
        transfers[id].id == id && id in issued && transfers[id].offset <= transfers[id].size
        && transfers[id].offset <= |transfers[id].content|
    }

    /** The manager's part of the state. */
    ghost function View(): State
      reads this, transfers.Values
    {
      State(map id | id in transfers :: transfers[id].View(), issued, files, map[], map[], map[], {}, None)
    }

    /** uploadBegin, once an identifier was drawn; works tells whether the staging file could be made. */
    method Begin(path: Path, size: nat, id: Id, works: bool, now: nat) returns (r: Reply)
      requires Valid() && id !in issued
      modifies this
      ensures Valid() && View() == HandleBegin(old(View()), path, size, Luck(id, works, [])).0 && r == HandleBegin(old(View()), path, size, Luck(id, works, [])).1
    {
      assert View().transfers.Keys == transfers.Keys;
      if size > MAX_FILE_SIZE || |transfers.Keys| >= MAX_TRANSFERS || path in files || !works {
        return Refused;
      }
      Enter(path, size, id, now);
      r := Began(id);
    }

    method Enter(path: Path, size: nat, id: Id, now: nat)
      requires Valid() && id !in issued
      modifies this
      ensures Valid()
      ensures View() == old(View()).(transfers := old(View()).transfers[id := Upload(path, size, 0, [])], issued := old(issued) + {id})
    {
      var t := new Transfer(id, path, size, now);
      ghost var before := View().transfers;
      transfers := transfers[id := t];
      issued := issued + {id};
      assert View().transfers == before[id := Upload(path, size, 0, [])];
    }

    /** uploadChunk; a write that fails leaves residue behind the settled bytes. */
    method Chunk(h: Hash, id: Id, offset: nat, data: bytes, digest: Digest, works: bool, residue: bytes, now: nat) returns (r: Reply)
      requires Valid()
      modifies transfers.Values
      ensures Valid() && View() == HandleChunk(h, old(View()), id, offset, data, digest, Luck(0, works, residue)).0 && r == HandleChunk(h, old(View()), id, offset, data, digest, Luck(0, works, residue)).1
    {
      if id !in transfers {
        return Refused;
      }
      var t := transfers[id];
      if offset != t.offset || data == [] || |data| > CHUNK_SIZE || |data| > t.size - t.offset || digest != h(data) {
        return Refused;
      }
      hide WriteAt;
      if !works {
        Settle(t, t.offset, t.content[..t.offset] + residue, t.lastUsed);
        return Refused;
      }
      WrittenPrefix(t.content, t.offset, data);
      Settle(t, t.offset + |data|, WriteAt(t.content, t.offset, data), now);
      r := Wrote(t.offset);
    }

    /** The staging file and the offset change. */
    method Settle(t: Transfer, offset: nat, content: bytes, now: nat)
      requires Valid() && t.id in transfers && transfers[t.id] == t && offset <= t.size && offset <= |content|
      modifies t
      ensures Valid() && t.offset == offset
      ensures View() == old(View()).(transfers := old(View()).transfers[t.id := Upload(t.path, t.size, offset, content)])
    {
      ghost var before := View().transfers;
      t.content, t.offset, t.lastUsed := content, offset, now;
      assert View().transfers == before[t.id := Upload(t.path, t.size, offset, content)];
    }

    /** uploadCommit: the staged bytes are hashed again piece by piece before they are linked to their destination. */
    method Commit(h: Hash, id: Id, digest: Digest, works: bool) returns (r: Reply)
      requires Valid()
      modifies this
      ensures Valid() && View() == HandleCommit(h, old(View()), id, digest, Luck(0, works, [])).0 && r == HandleCommit(h, old(View()), id, digest, Luck(0, works, [])).1
    {
      if id !in transfers || !works {
        return Refused;
      }
      var t := transfers[id];
      if t.offset != t.size || |t.content| != t.size {
        return Refused;
      }
      var staged := ReadBack(t);
      if digest != h(staged) || t.path in files {
        return Refused;
      }
      ghost var before := View().transfers;
      files := files[t.path := staged];
      transfers := transfers - {id};
      assert View().transfers == before - {id};
      r := Committed(digest);
    }

    /** The staging file is read in blocks. */
    method ReadBack(t: Transfer) returns (staged: bytes)
      requires t.size == |t.content|
      ensures staged == t.content
    {
      staged := [];
      while |staged| < t.size
        invariant |staged| <= |t.content| && staged == t.content[..|staged|]
      {
        var block := if t.size - |staged| > CHUNK_SIZE then CHUNK_SIZE else t.size - |staged|;
        assert t.content[..|staged|] + t.content[|staged|..|staged| + block] == t.content[..|staged| + block];
        staged := staged + t.content[|staged|..|staged| + block];
      }
    }

    method Cancel(id: Id)
      requires Valid()
      modifies this
      ensures Valid() && View() == old(View()).(transfers := old(View()).transfers - {id})
    {
      ghost var before := View().transfers;
      transfers := transfers - {id};
      assert View().transfers == before - {id};
    }

    /** expire: what has been idle for two minutes goes, and nothing else. */
    method Expire(now: nat)
      requires Valid()
      modifies this
      ensures Valid() && files == old(files) && issued == old(issued)
      ensures transfers.Keys <= old(transfers).Keys
      ensures forall id :: id in old(transfers) ==>
                (id in transfers <==> now < old(transfers)[id].lastUsed + IDLE_TIMEOUT)
                && (id in transfers ==> transfers[id] == old(transfers)[id])
    {
      var pending := transfers.Keys;
      while pending != {}
        invariant pending <= transfers.Keys <= old(transfers).Keys
        invariant Valid() && files == old(files) && issued == old(issued)
        invariant forall id :: id in transfers ==> transfers[id] == old(transfers)[id]
        invariant forall id :: id in old(transfers) ==>
          (id in transfers <==> id in pending || now < old(transfers)[id].lastUsed + IDLE_TIMEOUT)
        decreases |pending|
      {
        var id :| id in pending;
        pending := pending - {id};
        if now >= transfers[id].lastUsed + IDLE_TIMEOUT {
          transfers := transfers - {id};
        }
      }
    }

    /** reset: every transfer goes, and no file. */
    method Reset()
      requires Valid()
      modifies this
      ensures Valid() && transfers == map[] && files == old(files)
    {
      transfers := map[];
    }
  }

  /** The connection as the bridge sees it: what it is asked, and the replies in order, None for one that does not come
      in time. */
  class Link {
    var asked: seq<Request>
    var script: seq<Option<Reply>>

    constructor (script: seq<Option<Reply>>)
      ensures asked == [] && this.script == script
    {
      asked, this.script := [], script;
    }

    method Call(r: Request) returns (reply: Option<Reply>)
      modifies this
      ensures asked == old(asked) + [r]
    {
      asked := asked + [r];
      reply := None;
      if script != [] {
        reply, script := script[0], script[1..];
      }
    }
  }

  class UploadState {
    const id: Id
    const size: nat
    var offset: nat
    /** What was fed to the running digest. */
    var digested: bytes
    var used: nat

    constructor (id: Id, size: nat, now: nat)
      ensures this.id == id && this.size == size && offset == 0 && digested == [] && used == now
    {
      this.id, this.size := id, size;
      offset, digested, used := 0, [], now;
    }
  }

  class FileBridge {
    var uploads: map<Id, UploadState>

    constructor ()
      ensures Valid() && uploads == map[]
    {
      uploads := map[];
    }

    ghost predicate Valid()
      reads this, uploads.Values
    {
      forall id :: id in uploads ==>
        uploads[id].id == id && uploads[id].offset == |uploads[id].digested| && uploads[id].offset <= uploads[id].size
    }

    ghost function View(): map<Id, Sent>
      reads this, uploads.Values
    {
      map id | id in uploads :: Sent(uploads[id].size, uploads[id].digested, true)
    }

    /** The uploads that were not idle for too long. */
    ghost function Awake(now: nat): map<Id, Sent>
      reads this, uploads.Values
    {
      map id | id in uploads && now <= uploads[id].used + IDLE_TIMEOUT :: Sent(uploads[id].size, uploads[id].digested, true)
    }

    ghost function Used(): map<Id, nat>
      reads this, uploads.Values
    {
      map id | id in uploads :: uploads[id].used
    }

    /** A state in which these are the uploads. */
    ghost function At(): State
      reads this, uploads.Values
    {
      START.(uploads := View())
    }

    /** Idle uploads make way, unless the file is too large in the first place. */
    method Begin(link: Link, path: Path, size: nat, now: nat) returns (ok: bool, id: Id)
      requires Valid()
      modifies this, link
      ensures Valid()
      ensures size > MAX_FILE_SIZE ==> !ok && View() == old(View()) && link.asked == old(link.asked)
      ensures size <= MAX_FILE_SIZE ==>
                var awake := old(Awake(now));
                && (!MayBegin(START.(uploads := awake), size) ==> !ok && link.asked == old(link.asked))
                && (MayBegin(START.(uploads := awake), size) ==> link.asked == old(link.asked) + [FileTransfers.Begin(path, size)])
                && (!ok ==> View() == awake)
                && (ok ==> View() == Digested(awake, Call(0, FileTransfers.Begin(path, size)), Began(id)) && id in Used() && Used()[id] == now)
    {
      hide View;
      hide Awake;
      hide Used;
      hide Valid;
      hide OpenUploads;
      ok, id := false, 0;
      if size > MAX_FILE_SIZE {
        return;
      }
      Forget(now);
      AllOpen(this);
      if |uploads.Keys| >= 2 {
        return;
      }
      var reply := link.Call(FileTransfers.Begin(path, size));
      if reply.Some? && reply.value.Began? {
        ok, id := true, reply.value.id;
        Enter(id, size, now);
      }
    }

    method Forget(now: nat)
      requires Valid()
      modifies this
      ensures Valid() && View() == old(Awake(now))
    {
      var pending := uploads.Keys;
      while pending != {}
        invariant pending <= uploads.Keys <= old(uploads).Keys
        invariant forall id :: id in uploads ==> uploads[id] == old(uploads)[id]
        invariant forall id :: id in old(uploads) ==> (id in uploads <==> id in pending || now <= old(uploads)[id].used + IDLE_TIMEOUT)
        decreases |pending|
      {
        var id :| id in pending;
        pending := pending - {id};
        if now > uploads[id].used + IDLE_TIMEOUT {
          uploads := uploads - {id};
        }
      }
    }

    method Enter(id: Id, size: nat, now: nat)
      requires Valid()
      modifies this
      ensures Valid() && View() == old(View())[id := Sent(size, [], true)] && Used() == old(Used())[id := now]
    {
      var u := new UploadState(id, size, now);
      ghost var before, times := View(), Used();
      uploads := uploads[id := u];
      assert View() == before[id := Sent(size, [], true)] && Used() == times[id := now];
    }

    /** A chunk that does not continue the upload is not sent; one that is not acknowledged with the right offset leaves
        the upload as it was. */
    method Chunk(h: Hash, link: Link, id: Id, offset: nat, data: bytes, now: nat) returns (ok: bool)
      requires Valid() && |data| <= CHUNK_SIZE
      modifies link, uploads.Values
      ensures Valid()
      ensures var r := FileTransfers.Chunk(id, offset, data, h(data));
              && (!old(MayChunk(At(), id, offset, data)) ==> !ok && link.asked == old(link.asked))
              && (old(MayChunk(At(), id, offset, data)) ==> link.asked == old(link.asked) + [r])
              && View() == (if ok then Digested(old(View()), Call(0, r), Wrote(offset + |data|)) else old(View()))
      ensures Used() == if ok then old(Used())[id := now] else old(Used())
    {
      if data == [] || id !in uploads {
        return false;
      }
      var s := uploads[id];
      if offset != s.offset || |data| > s.size - s.offset {
        return false;
      }
      assert MayChunk(At(), id, offset, data);
      var reply := link.Call(FileTransfers.Chunk(id, offset, data, h(data)));
      if reply.None? || !reply.value.Wrote? || reply.value.offset != offset + |data| {
        return false;
      }
      s.digested := s.digested + data;
      s.offset := reply.value.offset;
      s.used := now;
      ok := true;
    }

    /** A commit is asked for only when everything was acknowledged, and with the digest of exactly that. */
    method Commit(h: Hash, link: Link, id: Id) returns (ok: bool)
      requires Valid()
      modifies this, link
      ensures Valid()
      ensures !old(MayCommit(At(), id)) ==> !ok && link.asked == old(link.asked)
      ensures old(MayCommit(At(), id)) ==> link.asked == old(link.asked) + [FileTransfers.Commit(id, h(old(View())[id].data))]
      ensures View() == (if ok then old(View()) - {id} else old(View()))
    {
      if id !in uploads || uploads[id].offset != uploads[id].size {
        return false;
      }
      var digest := h(uploads[id].digested);
      assert MayCommit(At(), id) && digest == h(View()[id].data);
      var reply := link.Call(FileTransfers.Commit(id, digest));
      if reply.None? || !reply.value.Committed? || reply.value.digest != digest {
        return false;
      }
      uploads := uploads - {id};
      ok := true;
    }
  }

  lemma AllOpen(b: FileBridge)
    ensures OpenUploads(b.View()) == b.uploads.Keys
  {
  }

  // ---- downloads ----

  /** The reply to file_download_chunk. */
  datatype Piece = Piece(offset: nat, next: nat, eof: bool, data: bytes, digest: Digest, fileDigest: Digest)

  function Joined(pieces: seq<Piece>): bytes {
    if pieces == [] then [] else Joined(pieces[..|pieces| - 1]) + pieces[|pieces| - 1].data
  }

  /** The bridge's checks of one piece. */
  predicate Fitting(h: Hash, p: Piece, offset: nat, size: nat) {
    && p.offset == offset && p.next == offset + |p.data| && p.next <= size && |p.data| <= CHUNK_SIZE
    && p.eof == (p.next == size) && (!p.eof ==> p.data != []) && p.digest == h(p.data)
  }

  /** The first n pieces. */
  function First(replies: seq<Option<Piece>>, n: nat): (pieces: seq<Piece>)
    requires n <= |replies| && forall i :: 0 <= i < n ==> replies[i].Some?
    ensures |pieces| == n && forall i :: 0 <= i < n ==> pieces[i] == replies[i].value
  {
    if n == 0 then [] else First(replies, n - 1) + [replies[n - 1].value]
  }

  lemma JoinedMore(replies: seq<Option<Piece>>, n: nat)
    requires n < |replies| && forall i :: 0 <= i <= n ==> replies[i].Some?
    ensures Joined(First(replies, n + 1)) == Joined(First(replies, n)) + replies[n].value.data
  {
    var all := First(replies, n + 1);
    assert all[..|all| - 1] == First(replies, n);
  }

  /** The loop of download: whatever the other side replies, what is handed on is a run of the pieces' bytes, and when
      the download ends well it is as long as announced and has the digest that was sent for the whole file. */
  method Download(h: Hash, size: nat, replies: seq<Option<Piece>>) returns (done: bool, body: bytes, ghost n: nat)
    ensures n <= |replies| && (forall i :: 0 <= i < n ==> replies[i].Some?) && |body| <= size
    ensures body == Joined(First(replies, n))
    ensures done ==> n > 0 && replies[n - 1].value.eof && |body| == size && replies[n - 1].value.fileDigest == h(body)
    ensures forall i :: 0 <= i < n - 1 ==> !replies[i].value.eof
    ensures !done && n < |replies| && replies[n].Some? ==>
              var p := replies[n].value;
              || p.offset != |body| || p.next != |body| + |p.data| || p.next > size || |p.data| > 32768 || p.digest != h(p.data)
              || p.eof != (p.next == size) || (p.eof && p.fileDigest != h(body + p.data)) || (!p.eof && p.data == [])
  {
    hide Joined;
    hide First;
    NothingJoined(replies);
    body, done, n := [], false, 0;
    var at := 0;
    while at < |replies|
      invariant 0 <= at == n <= |replies| && |body| <= size && !done
      invariant forall i :: 0 <= i < n ==> replies[i].Some? && !replies[i].value.eof
      invariant body == Joined(First(replies, n))
    {
      if replies[at].None? {
        return;
      }
      var p := replies[at].value;
      if !Fitting(h, p, |body|, size) || (p.eof && p.fileDigest != h(body + p.data)) {
        return;
      }
      JoinedMore(replies, n);
      body := body + p.data;
      at, n := at + 1, n + 1;
      if p.eof {
        done := true;
        return;
      }
    }
  }

  lemma NothingJoined(replies: seq<Option<Piece>>)
    ensures Joined(First(replies, 0)) == []
  {
  }
}
