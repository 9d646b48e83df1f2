/** When the transfer manager says yes, and that an upload nothing goes wrong with arrives: internal/filetransfer/filetransfer.go
  and internal/viewerapp/files.go. */
module FileTransferEffects {
  import opened Bytes
  import opened Sets
  import opened Wrappers
  import opened FileTransfers

  // ---- when the manager says yes ----

  /** An upload is begun exactly if the file is at most 1 GiB, fewer than two are under way, nothing is at the destination and
      the file operations work. */
  lemma {:induction false} BeginsExactly(s: State, path: Path, size: nat, luck: Luck)
    ensures var (s', reply) := HandleBegin(s, path, size, luck);
            if size <= 1073741824 && |s.transfers| < 2 && path !in s.files && luck.works then
              reply == Began(luck.id) && s'.transfers == s.transfers[luck.id := Upload(path, size, 0, [])] && s'.files == s.files
            else reply == Refused && s' == s
  {
  }

  /** A chunk is written exactly if its upload is there, it holds 1 to 32768 bytes that start at the offset and fit, its digest
      is right and the file operations work; then those bytes, and no others, follow what was settled. */
  lemma {:induction false} WritesExactly(h: Hash, s: State, id: Id, offset: nat, data: bytes, digest: Digest, luck: Luck)
    requires Staged(s)
    ensures var (s', reply) := HandleChunk(h, s, id, offset, data, digest, luck);
            && (if id in s.transfers && luck.works && offset == s.transfers[id].offset && 1 <= |data| <= 32768
                   && offset + |data| <= s.transfers[id].size && digest == h(data) then
                  && reply == Wrote(offset + |data|) && id in s'.transfers && s'.transfers[id].offset == offset + |data| <= |s'.transfers[id].content|
                  && s'.transfers[id].content[..offset + |data|] == s.transfers[id].content[..offset] + data
                  && (forall i :: offset + |data| <= i < |s.transfers[id].content| ==>
                        i < |s'.transfers[id].content| && s'.transfers[id].content[i] == s.transfers[id].content[i])
                  && s'.transfers[id].path == s.transfers[id].path && s'.transfers[id].size == s.transfers[id].size
                else
                  && reply == Refused
                  && (id in s.transfers ==>
                        && id in s'.transfers && s'.transfers[id].offset == s.transfers[id].offset <= |s'.transfers[id].content|
                        && s'.transfers[id].content[..s.transfers[id].offset] == s.transfers[id].content[..s.transfers[id].offset]))
            && s'.files == s.files && (forall other :: other != id ==> (other in s'.transfers <==> other in s.transfers))
            && (forall other :: other != id && other in s.transfers ==> s'.transfers[other] == s.transfers[other])
  {
    if id in s.transfers {
      WrittenPrefix(s.transfers[id].content, s.transfers[id].offset, data);
      WrittenRest(s.transfers[id].content, s.transfers[id].offset, data);
    }
    hide WriteAt;
  }

  /** A write in the middle leaves what lies behind it. */
  lemma WrittenRest(content: bytes, offset: nat, data: bytes)
    requires offset <= |content|
    ensures var c := WriteAt(content, offset, data);
            forall i :: offset + |data| <= i < |content| ==> i < |c| && c[i] == content[i]
  {
  }

  /** A file is published exactly if its upload is complete, the staging file holds just that, the digest is of what it holds,
      nothing is at the destination and the file operations work. */
  lemma {:induction false} PublishesExactly(h: Hash, s: State, id: Id, digest: Digest, luck: Luck)
    ensures var (s', reply) := HandleCommit(h, s, id, digest, luck);
            if id in s.transfers && s.transfers[id].offset == s.transfers[id].size == |s.transfers[id].content|
               && digest == h(s.transfers[id].content) && s.transfers[id].path !in s.files && luck.works then
              && reply == Committed(digest) && s'.files == s.files[s.transfers[id].path := s.transfers[id].content]
              && s'.transfers == s.transfers - {id}
            else reply == Refused && s' == s
  {
  }

  // ---- what the bridge makes of replies ----

  /** A reply that comes to the call that is waited for: an upload is entered if it was begun; a chunk counts if it was written
      where the next one starts; an upload is over if a commit of just its digest was carried out.  Any other reply, and one to
      another call, changes no upload. */
  lemma {:induction false} HearsExactly(h: Hash, s: State, id: Id)
    requires Inv(h, s) && Possible(h, s, Hear)
    ensures var c, s' := s.current.value, Apply(h, s, Hear); var reply := s.replies[c.number];
            var was, now := if id in s.uploads then Some(s.uploads[id]) else None, if id in s'.uploads then Some(s'.uploads[id]) else None;
            && s'.current == None && s'.transfers == s.transfers && s'.files == s.files
            && (if c.request.Begin? && reply == Began(id) then now == Some(Sent(c.request.size, [], true))
                else if c.request.Chunk? && c.request.id == id && reply == Wrote(c.request.offset + |c.request.data|) then
                  was.Some? && now == Some(Sent(was.value.size, was.value.data + c.request.data, was.value.open))
                else if c.request.Commit? && c.request.id == id && reply == Committed(c.request.digest) && was.Some? then
                  now == Some(Sent(was.value.size, was.value.data, false))
                else now == was)
  {
    hide Levels;
    hide Requests;
    hide Staged;
  }

  /** The bridge has two uploads open at most, and all are of at most 1 GiB. */
  ghost predicate Limited(s: State) {
    && |OpenUploads(s.uploads)| <= (if s.current.Some? && s.current.value.request.Begin? then 1 else 2)
    && (s.current.Some? && s.current.value.request.Begin? ==> s.current.value.request.size <= 1073741824)
    && (forall id :: id in s.uploads ==> s.uploads[id].size <= 1073741824)
  }

  lemma OpenMore(uploads: map<Id, Sent>, uploads': map<Id, Sent>, id: Id)
    requires id in uploads' && uploads' == uploads[id := uploads'[id]]
    ensures |OpenUploads(uploads')| <= |OpenUploads(uploads)| + 1
    ensures (id in uploads && (uploads'[id].open ==> uploads[id].open)) ==> |OpenUploads(uploads')| <= |OpenUploads(uploads)|
  {
    var a, b := OpenUploads(uploads'), OpenUploads(uploads);
    assert a <= b + {id};
    SubsetSize(a, b + {id});
    if id in uploads && (uploads'[id].open ==> uploads[id].open) {
      assert a <= b;
      SubsetSize(a, b);
    }
  }

  lemma StepKeepsLimited(h: Hash, s: State, t: Step)
    requires Staged(s) && Possible(h, s, t) && Limited(s)
    ensures Limited(Apply(h, s, t))
  {
    var s' := Apply(h, s, t);
    if t.Hear? {
      HearKeepsLimited(h, s);
    } else if t.Forget? && t.id in s.uploads {
      OpenMore(s.uploads, s'.uploads, t.id);
    } else if t.Deliver? {
      HandleKeeps(h, s, s, s.requests[t.number], t.luck);
      hide Handle;
    }
  }

  lemma HearKeepsLimited(h: Hash, s: State)
    requires Staged(s) && Possible(h, s, Hear) && Limited(s)
    ensures Limited(Apply(h, s, Hear))
  {
    var c, s' := s.current.value, Apply(h, s, Hear);
    var id := if !c.request.Begin? then c.request.id else if s.replies[c.number].Began? then s.replies[c.number].id else 0;
    hide OpenUploads;
    if s'.uploads != s.uploads {
      OpenMore(s.uploads, s'.uploads, id);
    }
  }

  lemma {:induction false} LimitsInEveryRun(h: Hash, steps: seq<Step>)
    ensures var s := Run(h, START, steps);
            |OpenUploads(s.uploads)| <= 2 && forall id :: id in s.uploads ==> s.uploads[id].size <= 1073741824
  {
    RunLimited(h, steps);
    hide Run;
    hide OpenUploads;
  }

  lemma {:induction false} RunLimited(h: Hash, steps: seq<Step>)
    ensures Limited(Run(h, START, steps))
    decreases |steps|
  {
    hide Limited;
    hide Apply;
    hide Possible;
    hide Staged;
    if steps == [] {
      StartLimited();
    } else {
      RunLimited(h, steps[..|steps| - 1]);
      var before := Run(h, START, steps[..|steps| - 1]);
      if Staged(before) && Possible(h, before, steps[|steps| - 1]) {
        StepKeepsLimited(h, before, steps[|steps| - 1]);
      }
    }
  }

  lemma StartLimited()
    ensures Limited(START)
  {
    assert OpenUploads(map[]) == {};
  }

  lemma StepKeepsClosed(h: Hash, s: State, t: Step, id: Id)
    requires Inv(h, s) && Possible(h, s, t) && id in s.uploads && !s.uploads[id].open
    ensures var s' := Apply(h, s, t); id in s'.uploads && !s'.uploads[id].open
    ensures t.Ask? && !t.request.Begin? ==> t.request.id != id
  {
    match t
    case Deliver(number, luck) =>
      HandleKeeps(h, s, s, s.requests[number], luck);
      hide Handle;
      hide Inv;
    case Hear =>
      hide Levels;
      hide Requests;
    case _ =>
      hide Inv;
  }

  /** An upload that was committed or given up is never asked about again. */
  lemma {:induction false} ClosedForGood(h: Hash, s: State, steps: seq<Step>, id: Id, t: Step)
    requires Inv(h, s) && id in s.uploads && !s.uploads[id].open
    ensures var s' := Run(h, s, steps);
            && id in s'.uploads && !s'.uploads[id].open
            && (t.Ask? && !t.request.Begin? && t.request.id == id ==> !Possible(h, s', t))
    decreases |steps|
  {
    RunKeepsInv(h, s, steps);
    if steps != [] {
      ClosedForGood(h, s, steps[..|steps| - 1], id, t);
      RunKeepsInv(h, s, steps[..|steps| - 1]);
      var before := Run(h, s, steps[..|steps| - 1]);
      if Staged(before) && Possible(h, before, steps[|steps| - 1]) {
        StepKeepsClosed(h, before, steps[|steps| - 1], id);
      }
    }
    if t.Ask? && !t.request.Begin? && t.request.id == id && Possible(h, Run(h, s, steps), t) {
      StepKeepsClosed(h, Run(h, s, steps), t, id);
    }
    hide Inv;
    hide Apply;
    hide Possible;
  }

  // ---- an upload that arrives ----

  function Content(chunks: seq<bytes>): bytes {
    if chunks == [] then [] else Content(chunks[..|chunks| - 1]) + chunks[|chunks| - 1]
  }

  /** The bridge asks, the manager answers and the bridge hears it. */
  function Round(number: RequestId, r: Request, id: Id): seq<Step> {
    [Ask(number, r), Deliver(number, Luck(id, true, [])), Hear]
  }

  /** The rounds of an upload's chunks, each sent where the ones before it end. */
  function ChunkRounds(h: Hash, id: Id, spare: Id, number: RequestId, chunks: seq<bytes>): seq<Step> {
    if chunks == [] then []
    else
      var n := |chunks| - 1;
      ChunkRounds(h, id, spare, number, chunks[..n])
      + Round(number + |chunks|, Chunk(id, |Content(chunks[..n])|, chunks[n], h(chunks[n])), spare)
  }

  /** Begin, all chunks and Commit. */
  function WholeUpload(h: Hash, path: Path, id: Id, spare: Id, number: RequestId, chunks: seq<bytes>): seq<Step> {
    var content := Content(chunks);
    Round(number, Begin(path, |content|), id) + ChunkRounds(h, id, spare, number, chunks)
    + Round(number + |chunks| + 1, Commit(id, h(content)), spare)
  }

  /** Room for an upload to path under an identifier that is new, as are all request numbers from one on. */
  ghost predicate Room(h: Hash, s: State, path: Path, id: Id, spare: Id, number: RequestId) {
    && Inv(h, s) && s.current == None && |s.transfers| < 2 && |OpenUploads(s.uploads)| < 2 && path !in s.files
    && id !in s.issued && spare !in s.issued && spare != id
    && forall n :: n >= number ==> n !in s.numbers
  }

  function Used(numbers: set<RequestId>, number: RequestId, rounds: nat): set<RequestId> {
    if rounds == 0 then numbers else Used(numbers, number, rounds - 1) + {number + rounds - 1}
  }

  lemma {:induction false} UsedBelow(numbers: set<RequestId>, number: RequestId, rounds: nat)
    ensures forall n :: n in Used(numbers, number, rounds) ==> n in numbers || n < number + rounds
  {
    if rounds > 0 {
      UsedBelow(numbers, number, rounds - 1);
    }
  }

  /** What has become of s when the upload under way has come this far, after so many requests. */
  function Partway(s: State, path: Path, id: Id, size: nat, data: bytes, number: RequestId, rounds: nat): State
  {
    s.(transfers := s.transfers[id := Upload(path, size, |data|, data)], issued := s.issued + {id},
       uploads := s.uploads[id := Sent(size, data, true)], numbers := Used(s.numbers, number, rounds))
  }

  lemma RunMore(h: Hash, s: State, a: seq<Step>, b: seq<Step>)
    ensures Run(h, s, a + b) == Run(h, Run(h, s, a), b)
    decreases |b|
  {
    hide Apply;
    hide Possible;
    hide Staged;
    if b == [] {
      assert a + b == a;
    } else {
      var n := |b| - 1;
      RunMore(h, s, a, b[..n]);
      assert (a + b)[..|a + b| - 1] == a + b[..n];
    }
  }

  lemma RunThree(h: Hash, s: State, t: seq<Step>)
    requires |t| == 3 && Staged(s) && Possible(h, s, t[0])
    requires var s1 := Apply(h, s, t[0]); Staged(s1) && Possible(h, s1, t[1])
    requires var s2 := Apply(h, Apply(h, s, t[0]), t[1]); Staged(s2) && Possible(h, s2, t[2])
    ensures Run(h, s, t) == Apply(h, Apply(h, Apply(h, s, t[0]), t[1]), t[2])
  {
    hide Apply;
    hide Possible;
    hide Staged;
    assert t[..2][..1] == t[..1] && t[..1][..0] == [];
    assert Run(h, s, t[..1]) == Apply(h, s, t[0]);
    assert Run(h, s, t[..2]) == Apply(h, Apply(h, s, t[0]), t[1]);
  }

  /** A round that the manager answers: what bridge and manager make of it. */
  lemma RoundRuns(h: Hash, s: State, number: RequestId, r: Request, luckId: Id)
    requires Staged(s) && Possible(h, s, Ask(number, r)) && luckId !in s.issued
    requires number !in s.requests && number !in s.replies
    requires var (s', reply) := Handle(h, s, r, Luck(luckId, true, [])); Staged(s')
    ensures var (s', reply) := Handle(h, s, r, Luck(luckId, true, []));
            Run(h, s, Round(number, r, luckId)) ==
            s'.(uploads := Digested(s.uploads, Call(number, r), reply), numbers := s.numbers + {number}, current := None)
  {
    hide Handle;
    hide Digested;
    hide Staged;
    hide Run;
    var t, luck := Round(number, r, luckId), Luck(luckId, true, []);
    var s1 := s.(requests := s.requests[number := r], numbers := s.numbers + {number}, current := Some(Call(number, r)));
    HandleKeeps(h, s, s1, r, luck);
    StagedHandles(s, r);
    var (s', reply) := Handle(h, s, r, luck);
    StagedAlike(s, s1);
    var s2 := s'.(numbers := s.numbers + {number}, current := Some(Call(number, r)), replies := s.replies[number := reply]);
    StagedAlike(s', s2);
    DeliverRuns(h, s, number, r, luck);
    HearRuns(h, s2, number, r);
    assert s.replies[number := reply] - {number} == s.replies;
    RunThree(h, s, t);
  }

  lemma StagedHandles(s: State, r: Request)
    requires Staged(s)
    ensures r.Chunk? && r.id in s.transfers ==> s.transfers[r.id].offset <= |s.transfers[r.id].content|
  {
  }

  lemma StagedAlike(s: State, v: State)
    requires Staged(s) && v.transfers == s.transfers && v.issued == s.issued
    ensures Staged(v)
  {
  }

  lemma DeliverRuns(h: Hash, s: State, number: RequestId, r: Request, luck: Luck)
    requires Staged(s) && luck.id !in s.issued && number !in s.requests
    ensures var s1 := s.(requests := s.requests[number := r], numbers := s.numbers + {number}, current := Some(Call(number, r)));
            var (s', reply) := Handle(h, s, r, luck); var t := Deliver(number, luck);
            && Staged(s1) && Possible(h, s1, t)
            && Apply(h, s1, t) == s'.(numbers := s.numbers + {number}, current := Some(Call(number, r)), replies := s.replies[number := reply])
  {
    var s1 := s.(requests := s.requests[number := r], numbers := s.numbers + {number}, current := Some(Call(number, r)));
    HandleKeeps(h, s, s1, r, luck);
    StagedAlike(s, s1);
    hide Handle;
    assert s.requests[number := r] - {number} == s.requests;
  }

  lemma HearRuns(h: Hash, s: State, number: RequestId, r: Request)
    requires Staged(s) && s.current == Some(Call(number, r)) && number in s.replies
    ensures Possible(h, s, Hear)
    ensures Apply(h, s, Hear) ==
            s.(uploads := Digested(s.uploads, Call(number, r), s.replies[number]), current := None, replies := s.replies - {number})
  {
    hide Digested;
  }

  /** What the manager does depends on its own tables only. */
  lemma HandleKeeps(h: Hash, s: State, v: State, r: Request, luck: Luck)
    requires Staged(s) && v.transfers == s.transfers && v.issued == s.issued && v.files == s.files
    ensures var (s', reply), (v', reply') := Handle(h, s, r, luck), Handle(h, v, r, luck);
            && reply' == reply && v' == v.(transfers := s'.transfers, issued := s'.issued, files := s'.files)
            && s' == s.(transfers := s'.transfers, issued := s'.issued, files := s'.files)
  {
    hide WriteAt;
  }

  lemma BeginRuns(h: Hash, s: State, path: Path, id: Id, spare: Id, number: RequestId, size: nat)
    requires Room(h, s, path, id, spare, number) && size <= 1073741824
    ensures Run(h, s, Round(number, Begin(path, size), id)) == Partway(s, path, id, size, [], number, 1)
  {
    assert number !in s.numbers && Used(s.numbers, number, 0) == s.numbers;
    FreshNumber(h, s, number);
    RoundRuns(h, s, number, Begin(path, size), id);
    hide Run;
    hide Inv;
  }

  lemma FreshNumber(h: Hash, s: State, number: RequestId)
    requires Inv(h, s) && number !in s.numbers
    ensures number !in s.requests && number !in s.replies && Staged(s)
  {
  }

  lemma ChunkRuns(h: Hash, s: State, path: Path, id: Id, spare: Id, number: RequestId, size: nat, data: bytes, chunk: bytes, rounds: nat)
    requires Room(h, s, path, id, spare, number) && 1 <= |chunk| <= 32768 && |data| + |chunk| <= size
    ensures Run(h, Partway(s, path, id, size, data, number, rounds), Round(number + rounds, Chunk(id, |data|, chunk, h(chunk)), spare)) ==
            Partway(s, path, id, size, data + chunk, number, rounds + 1)
  {
    hide Run;
    hide Handle;
    hide Possible;
    hide Room;
    hide Partway;
    hide Digested;
    var v, r := Partway(s, path, id, size, data, number, rounds), Chunk(id, |data|, chunk, h(chunk));
    PartwayStaged(h, s, path, id, spare, number, size, data, rounds);
    ChunkAsked(h, s, path, id, spare, number, size, data, chunk, rounds);
    ChunkHandled(h, s, path, id, spare, number, size, data, chunk, rounds);
    RoundRuns(h, v, number + rounds, r, spare);
  }

  lemma ChunkAsked(h: Hash, s: State, path: Path, id: Id, spare: Id, number: RequestId, size: nat, data: bytes, chunk: bytes, rounds: nat)
    requires Room(h, s, path, id, spare, number) && 1 <= |chunk| <= 32768 && |data| + |chunk| <= size
    ensures var v := Partway(s, path, id, size, data, number, rounds);
            Possible(h, v, Ask(number + rounds, Chunk(id, |data|, chunk, h(chunk)))) && spare !in v.issued
  {
    PartwayStaged(h, s, path, id, spare, number, size, data, rounds);
    hide Inv;
    hide Used;
  }

  /** The chunk follows what is settled, and both sides have it then. */
  lemma ChunkHandled(h: Hash, s: State, path: Path, id: Id, spare: Id, number: RequestId, size: nat, data: bytes, chunk: bytes, rounds: nat)
    requires Room(h, s, path, id, spare, number) && 1 <= |chunk| <= 32768 && |data| + |chunk| <= size
    ensures var v, r := Partway(s, path, id, size, data, number, rounds), Chunk(id, |data|, chunk, h(chunk));
            var (v', reply) := Handle(h, v, r, Luck(spare, true, []));
            && Staged(v')
            && v'.(uploads := Digested(v.uploads, Call(number + rounds, r), reply), numbers := v.numbers + {number + rounds}, current := None)
               == Partway(s, path, id, size, data + chunk, number, rounds + 1)
  {
    hide Handle;
    hide Digested;
    hide Room;
    hide Used;
    hide Staged;
    var v := Partway(s, path, id, size, data, number, rounds);
    PartwayStaged(h, s, path, id, spare, number, size, data + chunk, rounds + 1);
    NextUsed(s.numbers, number, rounds);
    ChunkWritten(h, v, path, id, size, data, chunk, Luck(spare, true, []));
    ChunkHeard(v.uploads, number + rounds, id, size, data, chunk, h(chunk));
    var (v', reply) := Handle(h, v, Chunk(id, |data|, chunk, h(chunk)), Luck(spare, true, []));
    StagedAlike(Partway(s, path, id, size, data + chunk, number, rounds + 1), v');
    assert v.transfers[id := Upload(path, size, |data + chunk|, data + chunk)] == s.transfers[id := Upload(path, size, |data + chunk|, data + chunk)];
    assert v.uploads[id := Sent(size, data + chunk, true)] == s.uploads[id := Sent(size, data + chunk, true)];
  }

  lemma ChunkWritten(h: Hash, v: State, path: Path, id: Id, size: nat, data: bytes, chunk: bytes, luck: Luck)
    requires id in v.transfers && v.transfers[id] == Upload(path, size, |data|, data) && luck.works
    requires 1 <= |chunk| <= 32768 && |data| + |chunk| <= size
    ensures Handle(h, v, Chunk(id, |data|, chunk, h(chunk)), luck) ==
            (v.(transfers := v.transfers[id := Upload(path, size, |data + chunk|, data + chunk)]), Wrote(|data| + |chunk|))
  {
    assert WriteAt(data, |data|, chunk) == data + chunk;
    hide WriteAt;
  }

  lemma ChunkHeard(uploads: map<Id, Sent>, number: RequestId, id: Id, size: nat, data: bytes, chunk: bytes, digest: Digest)
    requires id in uploads && uploads[id] == Sent(size, data, true)
    ensures Digested(uploads, Call(number, Chunk(id, |data|, chunk, digest)), Wrote(|data| + |chunk|)) == uploads[id := Sent(size, data + chunk, true)]
  {
  }

  lemma NextUsed(numbers: set<RequestId>, number: RequestId, rounds: nat)
    ensures Used(numbers, number, rounds + 1) == Used(numbers, number, rounds) + {number + rounds}
  {
  }

  lemma PartwayStaged(h: Hash, s: State, path: Path, id: Id, spare: Id, number: RequestId, size: nat, data: bytes, rounds: nat)
    requires Room(h, s, path, id, spare, number) && |data| <= size
    ensures var v := Partway(s, path, id, size, data, number, rounds);
            Staged(v) && number + rounds !in v.numbers && number + rounds !in v.requests && number + rounds !in v.replies && v.current == None
  {
    UsedBelow(s.numbers, number, rounds);
    FreshNumber(h, s, number + rounds);
    hide Inv;
    hide Used;
  }

  /** However the content is cut, the manager and the bridge hold what was sent so far after each chunk. */
  lemma {:induction false} ChunksRun(h: Hash, s: State, path: Path, id: Id, spare: Id, number: RequestId, size: nat, chunks: seq<bytes>)
    requires Room(h, s, path, id, spare, number) && |Content(chunks)| <= size
    requires forall i :: 0 <= i < |chunks| ==> 1 <= |chunks[i]| <= 32768
    ensures Run(h, Partway(s, path, id, size, [], number, 1), ChunkRounds(h, id, spare, number, chunks)) ==
            Partway(s, path, id, size, Content(chunks), number, |chunks| + 1)
    decreases |chunks|
  {
    hide Room;
    hide Partway;
    if chunks == [] {
      NoSteps(h, Partway(s, path, id, size, [], number, 1));
    } else {
      var n := |chunks| - 1;
      ChunksRun(h, s, path, id, spare, number, size, chunks[..n]);
      hide Run;
      RunMore(h, Partway(s, path, id, size, [], number, 1), ChunkRounds(h, id, spare, number, chunks[..n]),
              Round(number + |chunks|, Chunk(id, |Content(chunks[..n])|, chunks[n], h(chunks[n])), spare));
      ChunkRuns(h, s, path, id, spare, number, size, Content(chunks[..n]), chunks[n], |chunks|);
    }
  }

  lemma NoSteps(h: Hash, s: State)
    ensures Run(h, s, []) == s
  {
  }

  lemma CommitRuns(h: Hash, s: State, path: Path, id: Id, spare: Id, number: RequestId, data: bytes, rounds: nat)
    requires Room(h, s, path, id, spare, number)
    ensures var s' := Run(h, Partway(s, path, id, |data|, data, number, rounds), Round(number + rounds, Commit(id, h(data)), spare));
            && s'.files == s.files[path := data] && s'.transfers == s.transfers
            && s'.uploads == s.uploads[id := Sent(|data|, data, false)] && s'.current == None
  {
    hide Run;
    hide Handle;
    hide Possible;
    hide Room;
    hide Partway;
    hide Digested;
    var v := Partway(s, path, id, |data|, data, number, rounds);
    PartwayStaged(h, s, path, id, spare, number, |data|, data, rounds);
    CommitHandled(h, s, path, id, spare, number, data, rounds);
    RoundRuns(h, v, number + rounds, Commit(id, h(data)), spare);
  }

  lemma CommitHandled(h: Hash, s: State, path: Path, id: Id, spare: Id, number: RequestId, data: bytes, rounds: nat)
    requires Room(h, s, path, id, spare, number)
    ensures var v, r := Partway(s, path, id, |data|, data, number, rounds), Commit(id, h(data));
            var (v', reply) := Handle(h, v, r, Luck(spare, true, []));
            && Possible(h, v, Ask(number + rounds, r)) && spare !in v.issued && Staged(v')
            && v'.files == s.files[path := data] && v'.transfers == s.transfers
            && Digested(v.uploads, Call(number + rounds, r), reply) == s.uploads[id := Sent(|data|, data, false)]
  {
    hide Handle;
    hide Digested;
    hide Room;
    hide Used;
    hide Staged;
    hide Possible;
    var v, luck := Partway(s, path, id, |data|, data, number, rounds), Luck(spare, true, []);
    RoomMeans(h, s, path, id, spare, number);
    CommitAsked(h, s, path, id, spare, number, data, rounds);
    CommitPublished(h, v, path, id, data, luck);
    CommitHeard(v.uploads, number + rounds, id, data, h(data));
    assert v.transfers - {id} == s.transfers;
    assert v.uploads[id := Sent(|data|, data, false)] == s.uploads[id := Sent(|data|, data, false)];
    StagedMore(s, Handle(h, v, Commit(id, h(data)), luck).0);
  }

  lemma CommitAsked(h: Hash, s: State, path: Path, id: Id, spare: Id, number: RequestId, data: bytes, rounds: nat)
    requires Room(h, s, path, id, spare, number)
    ensures var v := Partway(s, path, id, |data|, data, number, rounds);
            Possible(h, v, Ask(number + rounds, Commit(id, h(data)))) && spare !in v.issued
  {
    hide Room;
    hide Used;
    hide Staged;
    RoomMeans(h, s, path, id, spare, number);
    PartwayStaged(h, s, path, id, spare, number, |data|, data, rounds);
  }

  lemma RoomMeans(h: Hash, s: State, path: Path, id: Id, spare: Id, number: RequestId)
    requires Room(h, s, path, id, spare, number)
    ensures Staged(s) && id !in s.transfers && path !in s.files && spare !in s.issued && spare != id
  {
    NotThere(h, s, id);
    FreshNumber(h, s, number);
    hide Inv;
    hide OpenUploads;
  }

  lemma StagedMore(s: State, v: State)
    requires Staged(s) && v.transfers == s.transfers && s.issued <= v.issued
    ensures Staged(v)
  {
  }

  lemma CommitPublished(h: Hash, v: State, path: Path, id: Id, data: bytes, luck: Luck)
    requires id in v.transfers && v.transfers[id] == Upload(path, |data|, |data|, data) && luck.works && path !in v.files
    ensures Handle(h, v, Commit(id, h(data)), luck) ==
            (v.(transfers := v.transfers - {id}, files := v.files[path := data]), Committed(h(data)))
  {
  }

  lemma CommitHeard(uploads: map<Id, Sent>, number: RequestId, id: Id, data: bytes, digest: Digest)
    requires id in uploads && uploads[id] == Sent(|data|, data, true)
    ensures Digested(uploads, Call(number, Commit(id, digest)), Committed(digest)) == uploads[id := Sent(|data|, data, false)]
  {
  }

  lemma NotThere(h: Hash, s: State, id: Id)
    requires Inv(h, s) && id !in s.issued
    ensures id !in s.transfers && id !in s.uploads
  {
  }

  /** From any state that a run leads to: every content of at most 1 GiB, cut anyhow into chunks of 1 to 32768 bytes, arrives if
      nothing is lost and nothing fails.  The file at the destination is the content, the bridge has heard so, and nothing else
      has changed. */
  lemma {:induction false} UploadArrives(h: Hash, s: State, path: Path, id: Id, spare: Id, number: RequestId, chunks: seq<bytes>)
    requires Room(h, s, path, id, spare, number) && |Content(chunks)| <= 1073741824
    requires forall i :: 0 <= i < |chunks| ==> 1 <= |chunks[i]| <= 32768
    ensures var s', content := Run(h, s, WholeUpload(h, path, id, spare, number, chunks)), Content(chunks);
            && s'.files == s.files[path := content] && s'.transfers == s.transfers
            && s'.uploads == s.uploads[id := Sent(|content|, content, false)] && s'.current == None
  {
    hide Room;
    hide Partway;
    hide Run;
    hide Content;
    var content := Content(chunks);
    var begin, middle := Round(number, Begin(path, |content|), id), ChunkRounds(h, id, spare, number, chunks);
    BeginRuns(h, s, path, id, spare, number, |content|);
    ChunksRun(h, s, path, id, spare, number, |content|, chunks);
    RunMore(h, s, begin, middle);
    RunMore(h, s, begin + middle, Round(number + |chunks| + 1, Commit(id, h(content)), spare));
    CommitRuns(h, s, path, id, spare, number, content, |chunks| + 1);
  }
}
