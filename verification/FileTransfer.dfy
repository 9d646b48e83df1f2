/** Uploads between the viewer's file bridge (internal/viewerapp/files.go) and the agent's transfer manager
  (internal/filetransfer/filetransfer.go), joined by a connection that may delay, reorder and lose requests and
  replies. */
module FileTransfers {
  import opened Bytes
  import opened Wrappers

  type Id = nat
  type Path = nat
  type RequestId = nat
  type Digest = nat

  const CHUNK_SIZE: nat := 32 * 1024
  const MAX_FILE_SIZE: nat := 0x4000_0000
  const MAX_TRANSFERS: nat := 2

  /** An upload at the manager: its staging file holds content, of which the first offset bytes are settled. */
  datatype Upload = Upload(path: Path, size: nat, offset: nat, content: bytes)

  /** An upload at the bridge: data is what has been acknowledged, whose digest the source keeps; open until the bridge
      forgets it. */
  datatype Sent = Sent(size: nat, data: bytes, open: bool)

  datatype Request =
    | Begin(path: Path, size: nat)
    | Chunk(id: Id, offset: nat, data: bytes, digest: Digest)
    | Commit(id: Id, digest: Digest)

  datatype Reply = Began(id: Id) | Wrote(offset: nat) | Committed(digest: Digest) | Refused

  datatype Call = Call(number: RequestId, request: Request)

  datatype State = State(transfers: map<Id, Upload>, issued: set<Id>, files: map<Path, bytes>, uploads: map<Id, Sent>,
                         requests: map<RequestId, Request>, replies: map<RequestId, Reply>, numbers: set<RequestId>, current: Option<Call>)

  /** SHA-256, of which nothing is assumed. */
  type Hash = bytes -> Digest

  // ---- the manager ----

  /** What the manager cannot choose: the identifier it draws, whether its file operations work, and what a write that
      fails leaves behind the settled bytes. */
  datatype Luck = Luck(id: Id, works: bool, residue: bytes)

  function WriteAt(content: bytes, offset: nat, data: bytes): bytes
    requires offset <= |content|
  {
    content[..offset] + data + (if offset + |data| <= |content| then content[offset + |data|..] else [])
  }

  /** uploadChunk for a transfer that exists; None if the chunk is refused. */
  predicate Accepts(h: Hash, t: Upload, offset: nat, data: bytes, digest: Digest) {
    offset == t.offset && 0 < |data| <= CHUNK_SIZE && t.offset + |data| <= t.size && digest == h(data)
  }

  function HandleBegin(s: State, path: Path, size: nat, luck: Luck): (State, Reply) {
    if size > MAX_FILE_SIZE || |s.transfers| >= MAX_TRANSFERS || path in s.files || !luck.works then (s, Refused)
    else (s.(transfers := s.transfers[luck.id := Upload(path, size, 0, [])], issued := s.issued + {luck.id}), Began(luck.id))
  }

  function HandleChunk(h: Hash, s: State, id: Id, offset: nat, data: bytes, digest: Digest, luck: Luck): (State, Reply)
    requires id in s.transfers ==> s.transfers[id].offset <= |s.transfers[id].content|
  {
    if id !in s.transfers || !Accepts(h, s.transfers[id], offset, data, digest) then (s, Refused)
    else
      var t := s.transfers[id];
      if !luck.works then (s.(transfers := s.transfers[id := t.(content := t.content[..t.offset] + luck.residue)]), Refused)
      else
        (s.(transfers := s.transfers[id := t.(offset := t.offset + |data|, content := WriteAt(t.content, t.offset, data))]),
         Wrote(t.offset + |data|))
  }

  /** uploadCommit: the staged bytes are read again, and linked to the destination unless there is one already. */
  predicate Publishes(h: Hash, s: State, id: Id, digest: Digest, luck: Luck) {
    && id in s.transfers && luck.works
    && s.transfers[id].offset == s.transfers[id].size == |s.transfers[id].content|
    && digest == h(s.transfers[id].content)
    && s.transfers[id].path !in s.files
  }

  function HandleCommit(h: Hash, s: State, id: Id, digest: Digest, luck: Luck): (State, Reply) {
    if !Publishes(h, s, id, digest, luck) then (s, Refused)
    else
      var t := s.transfers[id];
      (s.(transfers := s.transfers - {id}, files := s.files[t.path := t.content]), Committed(digest))
  }

  function Handle(h: Hash, s: State, r: Request, luck: Luck): (State, Reply)
    requires r.Chunk? && r.id in s.transfers ==> s.transfers[r.id].offset <= |s.transfers[r.id].content|
  {
    match r
    case Begin(path, size) => HandleBegin(s, path, size, luck)
    case Chunk(id, offset, data, digest) => HandleChunk(h, s, id, offset, data, digest, luck)
    case Commit(id, digest) => HandleCommit(h, s, id, digest, luck)
  }

  // ---- the bridge ----

  function OpenUploads(uploads: map<Id, Sent>): set<Id> {
    set id | id in uploads && uploads[id].open
  }

  predicate MayBegin(s: State, size: nat) {
    size <= MAX_FILE_SIZE && |OpenUploads(s.uploads)| < 2
  }

  predicate MayChunk(s: State, id: Id, offset: nat, data: bytes) {
    && id in s.uploads && s.uploads[id].open && 0 < |data| <= CHUNK_SIZE
    && offset == |s.uploads[id].data| && offset + |data| <= s.uploads[id].size
  }

  predicate MayCommit(s: State, id: Id) {
    id in s.uploads && s.uploads[id].open && |s.uploads[id].data| == s.uploads[id].size
  }

  /** What the bridge does with the reply to the call it waits for. */
  function Digested(uploads: map<Id, Sent>, c: Call, r: Reply): map<Id, Sent> {
    match c.request
    case Begin(_, size) => if r.Began? then uploads[r.id := Sent(size, [], true)] else uploads
    case Chunk(id, offset, data, _) =>
      if r.Wrote? && r.offset == offset + |data| && id in uploads then uploads[id := uploads[id].(data := uploads[id].data + data)]
      else uploads
    case Commit(id, digest) =>
      if r.Committed? && r.digest == digest && id in uploads then uploads[id := uploads[id].(open := false)] else uploads
  }

  // ---- steps ----

  datatype Step =
    | Ask(number: RequestId, request: Request)
    | Deliver(number: RequestId, luck: Luck)
    | Hear
    | GiveUp
    | LoseRequest(number: RequestId)
    | LoseReply(number: RequestId)
    | Drop(id: Id)
    | Forget(id: Id)
    | Outside(files: map<Path, bytes>)

  /** The bridge asks under its lock, so one call at a time is waited for; a call it has given up may still arrive. */
  ghost predicate Possible(h: Hash, s: State, t: Step) {
    match t
    case Ask(number, request) =>
      && s.current.None? && number !in s.numbers
      && (match request
          case Begin(_, size) => MayBegin(s, size)
          case Chunk(id, offset, data, digest) => MayChunk(s, id, offset, data) && digest == h(data)
          case Commit(id, digest) => MayCommit(s, id) && digest == h(s.uploads[id].data))
    case Deliver(number, luck) => number in s.requests && luck.id !in s.issued
    case Hear => s.current.Some? && s.current.value.number in s.replies
    case GiveUp => s.current.Some?
    case Forget(id) => s.current.None?
    case _ => true
  }

  /** Every staging file holds at least the settled bytes. */
  ghost predicate Staged(s: State) {
    forall id :: id in s.transfers ==>
      id in s.issued && s.transfers[id].offset <= s.transfers[id].size && s.transfers[id].offset <= |s.transfers[id].content|
  }

  ghost function Apply(h: Hash, s: State, t: Step): State
    requires Staged(s) && Possible(h, s, t)
  {
    match t
    case Ask(number, request) =>
      s.(requests := s.requests[number := request], numbers := s.numbers + {number}, current := Some(Call(number, request)))
    case Deliver(number, luck) =>
      var (s', reply) := Handle(h, s, s.requests[number], luck);
      s'.(requests := s.requests - {number}, replies := s.replies[number := reply])
    case Hear =>
      var c := s.current.value;
      s.(uploads := Digested(s.uploads, c, s.replies[c.number]), current := None, replies := s.replies - {c.number})
    case GiveUp => s.(current := None)
    case LoseRequest(number) => s.(requests := s.requests - {number})
    case LoseReply(number) => s.(replies := s.replies - {number})
    case Drop(id) => s.(transfers := s.transfers - {id})
    case Forget(id) => if id in s.uploads then s.(uploads := s.uploads[id := s.uploads[id].(open := false)]) else s
    case Outside(files) => s.(files := files)
  }

  /** What cannot happen is skipped. */
  ghost function Run(h: Hash, s: State, steps: seq<Step>): State
    decreases |steps|
  {
    if steps == [] then s
    else
      var before := Run(h, s, steps[..|steps| - 1]);
      var t := steps[|steps| - 1];
      if Staged(before) && Possible(h, before, t) then Apply(h, before, t) else before
  }

  const START := State(map[], {}, map[], map[], map[], map[], {}, None)

  // ---- bridge and manager ----

  /** The manager has written the chunk the bridge waits for, and its reply is on the way. */
  predicate Acknowledged(s: State, id: Id) {
    && s.current.Some? && s.current.value.request.Chunk? && s.current.value.request.id == id
    && s.current.value.number in s.replies && s.replies[s.current.value.number].Wrote?
  }

  /** The manager has everything the bridge knows of: just that if the two are level, and the chunk on top of it if its
      reply is on the way. */
  ghost predicate Level(s: State, id: Id)
    requires id in s.uploads && id in s.transfers
  {
    var u, t := s.uploads[id], s.transfers[id];
    && t.size == u.size && |u.data| <= t.offset <= |t.content|
    && (t.offset == |u.data| ==> t.content[..t.offset] == u.data)
    && (Acknowledged(s, id) ==>
          var d := s.current.value.request.data; t.offset == |u.data| + |d| && t.content[..t.offset] == u.data + d)
  }

  ghost predicate Levels(s: State) {
    && (forall id :: id in s.uploads ==> id in s.issued && |s.uploads[id].data| <= s.uploads[id].size)
    && (forall id :: id in s.uploads && id in s.transfers ==> Level(s, id))
  }

  /** Requests that are still on the way do not go beyond what the bridge knows of. */
  ghost predicate Behind(h: Hash, uploads: map<Id, Sent>, r: Request) {
    match r
    case Begin(_, _) => true
    case Chunk(id, offset, data, digest) =>
      id in uploads && offset <= |uploads[id].data| && 0 < |data|
    case Commit(id, digest) =>
      id in uploads && |uploads[id].data| == uploads[id].size && digest == h(uploads[id].data)
  }

  ghost predicate Requests(h: Hash, s: State) {
    && (forall n :: n in s.requests ==> n in s.numbers && n !in s.replies && Behind(h, s.uploads, s.requests[n]))
    && (forall n :: n in s.replies ==> n in s.numbers)
  }

  /** The call that is waited for, and the reply to it. */
  ghost predicate Calling(s: State) {
    s.current.Some? ==>
      var c := s.current.value;
      && c.number in s.numbers
      && (c.number in s.requests ==> s.requests[c.number] == c.request)
      && (match c.request
          case Begin(_, size) =>
            c.number in s.replies && s.replies[c.number].Began? ==>
              var id := s.replies[c.number].id;
              id !in s.uploads && id in s.issued
              && (id in s.transfers ==> s.transfers[id].offset == 0 && s.transfers[id].size == size)
          case Chunk(id, offset, data, _) =>
            && id in s.uploads && offset == |s.uploads[id].data| && 0 < |data| && offset + |data| <= s.uploads[id].size
            && (c.number in s.replies && s.replies[c.number].Wrote? ==> s.replies[c.number].offset == offset + |data|)
          case Commit(_, _) => true)
  }

  ghost predicate Inv(h: Hash, s: State) {
    Staged(s) && Levels(s) && Requests(h, s) && Calling(s)
  }

  lemma AskKeepsInv(h: Hash, s: State, number: RequestId, request: Request)
    requires Inv(h, s) && Possible(h, s, Ask(number, request))
    ensures Inv(h, Apply(h, s, Ask(number, request)))
  {
    var s' := Apply(h, s, Ask(number, request));
    forall id | id in s'.uploads && id in s'.transfers ensures Level(s', id) {
      assert Level(s, id);
      assert !Acknowledged(s', id);
    }
  }

  lemma WrittenPrefix(content: bytes, offset: nat, data: bytes)
    requires offset <= |content|
    ensures var c := WriteAt(content, offset, data); offset + |data| <= |c| && c[..offset + |data|] == content[..offset] + data
  {
  }

  lemma DeliverBeginKeepsInv(h: Hash, s: State, number: RequestId, luck: Luck)
    requires Inv(h, s) && Possible(h, s, Deliver(number, luck)) && s.requests[number].Begin?
    ensures Inv(h, Apply(h, s, Deliver(number, luck)))
  {
    var s' := Apply(h, s, Deliver(number, luck));
    forall id | id in s'.uploads && id in s'.transfers ensures Level(s', id) {
      assert Level(s, id);
      assert Acknowledged(s', id) == Acknowledged(s, id);
    }
  }

  lemma DeliverCommitKeepsInv(h: Hash, s: State, number: RequestId, luck: Luck)
    requires Inv(h, s) && Possible(h, s, Deliver(number, luck)) && s.requests[number].Commit?
    ensures Inv(h, Apply(h, s, Deliver(number, luck)))
  {
    var s' := Apply(h, s, Deliver(number, luck));
    forall id | id in s'.uploads && id in s'.transfers ensures Level(s', id) {
      assert Level(s, id);
      assert Acknowledged(s', id) == Acknowledged(s, id);
    }
  }

  /** The upload that a chunk is for, after the chunk was handled. */
  lemma ChunkKeepsLevel(h: Hash, s: State, number: RequestId, luck: Luck)
    requires Inv(h, s) && Possible(h, s, Deliver(number, luck)) && s.requests[number].Chunk?
    ensures var id := s.requests[number].id; var s' := Apply(h, s, Deliver(number, luck));
            id in s'.uploads && id in s'.transfers ==> Level(s', id)
  {
    var r := s.requests[number];
    assert Behind(h, s.uploads, r);
    if r.id in s.transfers {
      var t := s.transfers[r.id];
      assert Level(s, r.id);
      WrittenPrefix(t.content, t.offset, r.data);
      assert (t.content[..t.offset] + luck.residue)[..t.offset] == t.content[..t.offset];
      assert t.content[..t.offset] + r.data == t.content[..t.offset] + r.data;
    }
    hide WriteAt;
  }

  lemma ChunkElsewhere(h: Hash, s: State, number: RequestId, luck: Luck, id: Id)
    requires Inv(h, s) && Possible(h, s, Deliver(number, luck)) && s.requests[number].Chunk?
    requires id in s.uploads && id in s.transfers && id != s.requests[number].id
    ensures var s' := Apply(h, s, Deliver(number, luck)); id in s'.transfers && Level(s', id)
  {
    hide WriteAt;
    var s' := Apply(h, s, Deliver(number, luck));
    assert Level(s, id);
    assert Acknowledged(s', id) == Acknowledged(s, id);
  }

  lemma ChunkKeepsStaged(h: Hash, s: State, number: RequestId, luck: Luck)
    requires Inv(h, s) && Possible(h, s, Deliver(number, luck)) && s.requests[number].Chunk?
    ensures Staged(Apply(h, s, Deliver(number, luck)))
  {
    var r := s.requests[number];
    if r.id in s.transfers {
      WrittenPrefix(s.transfers[r.id].content, s.transfers[r.id].offset, r.data);
    }
    hide WriteAt;
    hide Levels;
    hide Requests;
    hide Calling;
  }

  lemma ChunkKeepsRest(h: Hash, s: State, number: RequestId, luck: Luck)
    requires Inv(h, s) && Possible(h, s, Deliver(number, luck)) && s.requests[number].Chunk?
    ensures var s' := Apply(h, s, Deliver(number, luck)); Requests(h, s') && Calling(s')
  {
    assert Behind(h, s.uploads, s.requests[number]);
    assert s.requests[number].id in s.uploads;
    hide WriteAt;
    hide Levels;
    hide Behind;
  }

  lemma DeliverChunkKeepsInv(h: Hash, s: State, number: RequestId, luck: Luck)
    requires Inv(h, s) && Possible(h, s, Deliver(number, luck)) && s.requests[number].Chunk?
    ensures Inv(h, Apply(h, s, Deliver(number, luck)))
  {
    ChunkKeepsStaged(h, s, number, luck);
    ChunkKeepsRest(h, s, number, luck);
    ChunkKeepsLevel(h, s, number, luck);
    var s', r := Apply(h, s, Deliver(number, luck)), s.requests[number];
    assert s'.uploads == s.uploads && s'.issued == s.issued && s'.transfers.Keys == s.transfers.Keys;
    forall id | id in s'.uploads && id in s'.transfers ensures Level(s', id) {
      if id != r.id {
        ChunkElsewhere(h, s, number, luck, id);
      }
    }
    hide Requests;
    hide Calling;
    hide Level;
    hide HandleChunk;
  }

  lemma HearKeepsInv(h: Hash, s: State)
    requires Inv(h, s) && Possible(h, s, Hear)
    ensures Inv(h, Apply(h, s, Hear))
  {
    var s', c := Apply(h, s, Hear), s.current.value;
    forall id | id in s'.uploads && id in s'.transfers ensures Level(s', id) {
      if id in s.uploads {
        assert Level(s, id);
      }
    }
    forall n | n in s'.requests ensures Behind(h, s'.uploads, s'.requests[n]) {
      assert Behind(h, s.uploads, s.requests[n]);
    }
  }

  lemma LossKeepsInv(h: Hash, s: State, t: Step)
    requires Inv(h, s) && (t.LoseRequest? || t.LoseReply? || t.Drop?)
    ensures Inv(h, Apply(h, s, t))
  {
    var s' := Apply(h, s, t);
    forall id | id in s'.uploads && id in s'.transfers ensures Level(s', id) {
      assert Level(s, id);
    }
    hide Behind;
  }

  lemma OtherKeepsInv(h: Hash, s: State, t: Step)
    requires Inv(h, s) && Possible(h, s, t) && (t.GiveUp? || t.Forget? || t.Outside?)
    ensures Inv(h, Apply(h, s, t))
  {
    var s' := Apply(h, s, t);
    forall id | id in s'.uploads && id in s'.transfers ensures Level(s', id) {
      assert Level(s, id);
    }
    forall n | n in s'.requests ensures Behind(h, s'.uploads, s'.requests[n]) {
      assert Behind(h, s.uploads, s.requests[n]);
    }
  }

  lemma {:induction false} StepKeepsInv(h: Hash, s: State, t: Step)
    requires Inv(h, s) && Possible(h, s, t)
    ensures Inv(h, Apply(h, s, t))
  {
    hide Inv;
    match t
    case Ask(number, request) => AskKeepsInv(h, s, number, request);
    case Deliver(number, luck) =>
      if s.requests[number].Begin? {
        DeliverBeginKeepsInv(h, s, number, luck);
      } else if s.requests[number].Chunk? {
        DeliverChunkKeepsInv(h, s, number, luck);
      } else {
        DeliverCommitKeepsInv(h, s, number, luck);
      }
    case Hear => HearKeepsInv(h, s);
    case LoseRequest(_) => LossKeepsInv(h, s, t);
    case LoseReply(_) => LossKeepsInv(h, s, t);
    case Drop(_) => LossKeepsInv(h, s, t);
    case _ => OtherKeepsInv(h, s, t);
  }

  lemma {:induction false} RunKeepsInv(h: Hash, s: State, steps: seq<Step>)
    requires Inv(h, s)
    ensures Inv(h, Run(h, s, steps))
    decreases |steps|
  {
    hide Inv;
    hide Apply;
    hide Possible;
    if steps != [] {
      RunKeepsInv(h, s, steps[..|steps| - 1]);
      var before := Run(h, s, steps[..|steps| - 1]);
      if Staged(before) && Possible(h, before, steps[|steps| - 1]) {
        StepKeepsInv(h, before, steps[|steps| - 1]);
      }
    }
  }

  // ---- a commit publishes what was acknowledged ----

  /** A commit that the manager carries out gives the destination exactly the acknowledged chunks in order, of the
      declared size, and does so only where no file was; all other files stay as they are. */
  lemma {:induction false} CommitPublishesAcknowledged(h: Hash, s: State, number: RequestId, luck: Luck)
    requires Inv(h, s) && Possible(h, s, Deliver(number, luck)) && s.requests[number].Commit?
    ensures var r := s.requests[number]; var s' := Apply(h, s, Deliver(number, luck));
            if s'.replies[number] == Refused then s'.files == s.files
            else
              && r.id in s.transfers && r.id in s.uploads && s.transfers[r.id].path !in s.files
              && s'.files == s.files[s.transfers[r.id].path := s.uploads[r.id].data]
              && |s.uploads[r.id].data| == s.uploads[r.id].size == s.transfers[r.id].size
              && r.id !in s'.transfers
  {
    var r := s.requests[number];
    assert Behind(h, s.uploads, r);
    if Publishes(h, s, r.id, r.digest, luck) {
      var t := s.transfers[r.id];
      assert Level(s, r.id);
      assert t.content[..t.offset] == t.content;
    }
  }

  /** Nothing the two programs do changes or removes a file that is there. */
  lemma FilesAreKept(h: Hash, s: State, t: Step, path: Path)
    requires Inv(h, s) && Possible(h, s, t) && !t.Outside? && path in s.files
    ensures path in Apply(h, s, t).files && Apply(h, s, t).files[path] == s.files[path]
  {
    hide Levels;
    hide Requests;
    hide Calling;
    hide WriteAt;
  }

  lemma {:induction false} FilesAreKeptInRuns(h: Hash, s: State, steps: seq<Step>, path: Path)
    requires Inv(h, s) && path in s.files && forall i :: 0 <= i < |steps| ==> !steps[i].Outside?
    ensures path in Run(h, s, steps).files && Run(h, s, steps).files[path] == s.files[path]
    decreases |steps|
  {
    hide Inv;
    hide Apply;
    hide Possible;
    if steps != [] {
      FilesAreKeptInRuns(h, s, steps[..|steps| - 1], path);
      RunKeepsInv(h, s, steps[..|steps| - 1]);
      var before := Run(h, s, steps[..|steps| - 1]);
      if Staged(before) && Possible(h, before, steps[|steps| - 1]) {
        FilesAreKept(h, before, steps[|steps| - 1], path);
      }
    }
  }

  // ---- once the two have parted ----

  /** The manager is ahead of the bridge, or has dropped the upload, and no acknowledgement is on its way. */
  ghost predicate Parted(s: State, id: Id) {
    && id in s.uploads && |s.uploads[id].data| < s.uploads[id].size && !Acknowledged(s, id)
    && (id in s.transfers ==> s.transfers[id].offset > |s.uploads[id].data|)
  }

  lemma PartedRefuses(h: Hash, s: State, number: RequestId, luck: Luck, id: Id)
    requires Inv(h, s) && Parted(s, id) && Possible(h, s, Deliver(number, luck))
    requires (s.requests[number].Chunk? || s.requests[number].Commit?) && s.requests[number].id == id
    ensures var s' := Apply(h, s, Deliver(number, luck));
            s'.replies[number] == Refused && s'.transfers == s.transfers && s'.files == s.files
  {
    assert Behind(h, s.uploads, s.requests[number]);
  }

  lemma DeliverKeepsParted(h: Hash, s: State, number: RequestId, luck: Luck, id: Id)
    requires Inv(h, s) && Possible(h, s, Deliver(number, luck)) && Parted(s, id)
    ensures Parted(Apply(h, s, Deliver(number, luck)), id)
  {
    var r := s.requests[number];
    if (r.Chunk? || r.Commit?) && r.id == id {
      PartedRefuses(h, s, number, luck, id);
    } else {
      DeliverElsewhere(h, s, number, luck, id);
    }
    hide Requests;
    hide Levels;
    hide Handle;
  }

  lemma DeliverElsewhere(h: Hash, s: State, number: RequestId, luck: Luck, id: Id)
    requires Inv(h, s) && Possible(h, s, Deliver(number, luck)) && id in s.issued
    requires (s.requests[number].Chunk? || s.requests[number].Commit?) ==> s.requests[number].id != id
    ensures var s' := Apply(h, s, Deliver(number, luck));
            && (id in s'.transfers <==> id in s.transfers) && (id in s.transfers ==> s'.transfers[id] == s.transfers[id])
            && (id in s.uploads ==> Acknowledged(s', id) == Acknowledged(s, id))
  {
    hide WriteAt;
    hide Levels;
    hide Behind;
  }

  lemma HearKeepsParted(h: Hash, s: State, id: Id)
    requires Inv(h, s) && Possible(h, s, Hear) && Parted(s, id)
    ensures Parted(Apply(h, s, Hear), id) && Apply(h, s, Hear).uploads[id].data == s.uploads[id].data
  {
    hide Level;
    hide Requests;
  }

  /** Once they have parted they stay so: no chunk or commit of that upload succeeds any more, and the bridge never gets
      to ask for a commit. */
  lemma {:induction false} StepKeepsParted(h: Hash, s: State, t: Step, id: Id)
    requires Inv(h, s) && Possible(h, s, t) && Parted(s, id)
    ensures Parted(Apply(h, s, t), id) && !MayCommit(s, id)
    ensures Apply(h, s, t).uploads[id].data == s.uploads[id].data
  {
    match t
    case Deliver(number, luck) => DeliverKeepsParted(h, s, number, luck, id);
    case Hear => HearKeepsParted(h, s, id);
    case _ =>
      hide Levels;
      hide Requests;
      hide Digested;
      hide Handle;
  }

  lemma {:induction false} PartedForGood(h: Hash, s: State, steps: seq<Step>, id: Id)
    requires Inv(h, s) && Parted(s, id)
    ensures Parted(Run(h, s, steps), id) && Run(h, s, steps).uploads[id].data == s.uploads[id].data
    ensures !MayCommit(Run(h, s, steps), id)
    decreases |steps|
  {
    hide Inv;
    hide Apply;
    hide Possible;
    if steps != [] {
      PartedForGood(h, s, steps[..|steps| - 1], id);
      RunKeepsInv(h, s, steps[..|steps| - 1]);
      var before := Run(h, s, steps[..|steps| - 1]);
      if Staged(before) && Possible(h, before, steps[|steps| - 1]) {
        StepKeepsParted(h, before, steps[|steps| - 1], id);
      }
    }
  }

  /** In every run the bridge is never ahead of the manager; and where the two differ with no acknowledgement on its
      way, they have parted. */
  lemma {:induction false} NeverAhead(h: Hash, steps: seq<Step>, id: Id)
    requires var s := Run(h, START, steps); id in s.uploads && id in s.transfers
    ensures var s := Run(h, START, steps); var u, t := s.uploads[id], s.transfers[id];
            && |u.data| <= t.offset <= |t.content| && u.size == t.size
            && (t.offset == |u.data| ==> t.content[..t.offset] == u.data)
            && (t.offset != |u.data| ==> Acknowledged(s, id) || Parted(s, id))
  {
    RunKeepsInv(h, START, steps);
    hide Run;
    assert Level(Run(h, START, steps), id);
  }
}
