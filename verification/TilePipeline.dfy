/** The capture worker and the tile stream of internal/agentapp (capture_pipeline.go, tiles.go) with the
  viewer's hub at the other end.

  Pixel buffers are references into `mem`; the two goroutines hand them to each other through the pool
  channel and the one-frame slot, and the capturer may overwrite the buffer it holds at any time. */
module TilePipelines {
  import opened Wrappers
  import opened Bytes
  import opened TileFrames
  import opened TileHubs
  import opened TileEncoders

  const POOL_SIZE := 3

  type Ref = nat

  /** A captured frame, or a capture error, which carries no pixels. */
  datatype Frame = Shot(pixels: Ref) | Failed

  /** What the capture worker is doing, with the buffers in its hands. */
  datatype Capturer =
    | Ready
    | Capturing(buffer: Option<Ref>)
    | Offering(frame: Frame, buffer: Option<Ref>)
    | Returning(buffer: Option<Ref>)

  /** encoded is the image the encoder compares with; reference is previousPixels of the stream loop.
      sent holds the frames written to the connection and not published yet. */
  datatype Sys = Sys(mem: map<Ref, Image>, pool: seq<Ref>, slot: Option<Frame>, capturer: Capturer,
                     taken: Option<Ref>, failing: bool, encoded: Option<Ref>, reference: Option<Ref>,
                     sent: seq<(TileFrame, bytes)>, hub: Hub, stopped: bool)

  datatype Action =
    | StartCapture
    | Overwrite(image: Image)                    // the capturer draws into the buffer it was given
    | CaptureIntoBuffer                          // the frame is the reused buffer
    | CaptureIntoNew(ref: Ref, image: Image)     // the frame is a new image
    | CaptureFailed
    | DiscardWaiting                             // the slot is full: drop the stale frame
    | PlaceFrame
    | ReturnBuffer
    | TakeFrame
    | EncodeTaken(quality: int, saveIdle: bool, sourceWidth: int64, sourceHeight: int64)
    | Deliver
    | Stop

  const Idle := Sys(map[], [], None, Ready, None, false, None, None, [], EMPTY_HUB, false)

  function Recycle(pool: seq<Ref>, r: Option<Ref>): seq<Ref> {
    if r.Some? && |pool| < POOL_SIZE then pool + [r.value] else pool
  }

  function PixelsOf(f: Option<Frame>): Option<Ref> {
    if f.Some? && f.value.Shot? then Some(f.value.pixels) else None
  }

  function ImageAt(s: Sys, r: Option<Ref>): Option<Image> {
    if r.Some? && r.value in s.mem then Some(s.mem[r.value]) else None
  }

  ghost predicate Enabled(z: Compressor, s: Sys, a: Action) {
    match a
    case StartCapture => s.capturer.Ready?
    case Overwrite(image) => s.capturer.Capturing? && s.capturer.buffer.Some? && WellFormed(image)
    case CaptureIntoBuffer => s.capturer.Capturing? && s.capturer.buffer.Some?
    case CaptureIntoNew(r, image) => s.capturer.Capturing? && r !in s.mem && WellFormed(image)
    case CaptureFailed => s.capturer.Capturing?
    case DiscardWaiting => s.capturer.Offering? && s.slot.Some?
    case PlaceFrame => s.capturer.Offering? && s.slot == None
    case ReturnBuffer => s.capturer.Returning?
    case TakeFrame => s.slot.Some? && s.taken == None && !s.stopped
    case EncodeTaken(_, _, _, _) => s.taken.Some? && s.taken.value in s.mem && !s.stopped
    case Deliver => s.sent != [] && Publishable(s.hub, s.sent[0].0, s.sent[0].1, false)
    case Stop => true
  }

  ghost function Step(z: Compressor, s: Sys, a: Action): Sys
    requires Enabled(z, s, a) && MemoryWellFormed(s)
  {
    match a
    case StartCapture =>
      if s.pool == [] then s.(capturer := Capturing(None))
      else s.(capturer := Capturing(Some(s.pool[0])), pool := s.pool[1..])
    case Overwrite(image) => s.(mem := s.mem[s.capturer.buffer.value := image])
    case CaptureIntoBuffer => s.(capturer := Offering(Shot(s.capturer.buffer.value), None))
    case CaptureIntoNew(r, image) => s.(mem := s.mem[r := image], capturer := Offering(Shot(r), None))
    case CaptureFailed => s.(capturer := Offering(Failed, s.capturer.buffer))
    case DiscardWaiting => s.(slot := None, pool := Recycle(s.pool, PixelsOf(s.slot)))
    case PlaceFrame =>
      s.(slot := Some(s.capturer.frame),
         capturer := if s.capturer.frame.Failed? then Returning(s.capturer.buffer) else Ready)
    case ReturnBuffer => s.(pool := Recycle(s.pool, s.capturer.buffer), capturer := Ready)
    case TakeFrame =>
      if s.slot.value.Failed? then s.(slot := None, failing := true)
      else s.(slot := None, taken := PixelsOf(s.slot), failing := false, encoded := if s.failing then None else s.encoded)
    case EncodeTaken(quality, saveIdle, sourceWidth, sourceHeight) =>
      EncodeStep(z, s, quality, saveIdle, sourceWidth, sourceHeight)
    case Deliver => s.(hub := Published(s.hub, s.sent[0].0, s.sent[0].1), sent := s.sent[1..])
    case Stop => s.(stopped := true)
  }

  ghost predicate MemoryWellFormed(s: Sys) {
    forall r :: r in s.mem ==> WellFormed(s.mem[r])
  }

  /** Encode, recycle the image compared with before, and send unless nothing changed. */
  ghost function EncodeStep(z: Compressor, s: Sys, quality: int, saveIdle: bool, sourceWidth: int64, sourceHeight: int64): Sys
    requires MemoryWellFormed(s) && s.taken.Some? && s.taken.value in s.mem
  {
    var img, previous := s.mem[s.taken.value], ImageAt(s, s.encoded);
    if !Encodable(img) then s.(stopped := true)
    else
      match FrameParts(z, previous, img, quality, false)
      case None => s.(stopped := true)
      case Some(parts) =>
        var f := FrameFor(previous, img, false, parts).(sourceWidth := sourceWidth, sourceHeight := sourceHeight);
        s.(pool := Recycle(s.pool, s.reference), reference := s.taken, encoded := s.taken, taken := None,
           sent := if parts != [] || !saveIdle then s.sent + [(f, Payload(parts))] else s.sent)
  }

  // ---- ownership of buffers ----

  function Is(o: Option<Ref>, r: Ref): nat {
    if o == Some(r) then 1 else 0
  }

  function InPool(pool: seq<Ref>, r: Ref): nat {
    multiset(pool)[r]
  }

  function InHands(c: Capturer, r: Ref): nat {
    match c
    case Ready => 0
    case Capturing(b) => Is(b, r)
    case Offering(f, b) => Is(PixelsOf(Some(f)), r) + Is(b, r)
    case Returning(b) => Is(b, r)
  }

  /** In how many places a buffer is held. */
  function Holders(s: Sys, r: Ref): nat {
    InPool(s.pool, r) + Is(PixelsOf(s.slot), r) + InHands(s.capturer, r) + Is(s.taken, r) + Is(s.reference, r)
  }

  ghost predicate Owned(s: Sys) {
    && (forall r :: Holders(s, r) <= 1)
    && (forall r :: Holders(s, r) > 0 ==> r in s.mem)
    && (s.encoded == None || s.encoded == s.reference)
  }

  lemma RecycleHolds(pool: seq<Ref>, o: Option<Ref>, r: Ref)
    ensures InPool(Recycle(pool, o), r) <= InPool(pool, r) + Is(o, r)
  {
  }

  lemma TakeFromPool(pool: seq<Ref>, r: Ref)
    requires pool != []
    ensures InPool(pool[1..], r) + Is(Some(pool[0]), r) == InPool(pool, r)
  {
    assert pool == [pool[0]] + pool[1..];
  }

  predicate OfCapturer(a: Action) {
    a.StartCapture? || a.Overwrite? || a.CaptureIntoBuffer? || a.CaptureIntoNew? || a.CaptureFailed?
    || a.DiscardWaiting? || a.PlaceFrame? || a.ReturnBuffer?
  }

  /** No step adds a place for a buffer that exists. */
  lemma StepHolds(z: Compressor, s: Sys, a: Action, r: Ref)
    requires MemoryWellFormed(s) && Enabled(z, s, a)
    ensures Holders(Step(z, s, a), r) <= Holders(s, r) + if a.CaptureIntoNew? then Is(Some(a.ref), r) else 0
  {
    hide MemoryWellFormed;
    hide Publishable;
    hide Published;
    hide FrameParts;
    hide FrameFor;
    hide InPool;
    hide Recycle;
    if s.pool != [] {
      TakeFromPool(s.pool, r);
    }
    RecycleHolds(s.pool, PixelsOf(s.slot), r);
    RecycleHolds(s.pool, s.reference, r);
    if s.capturer.Returning? {
      RecycleHolds(s.pool, s.capturer.buffer, r);
    }
  }

  lemma StreamSteps(z: Compressor, s: Sys, a: Action)
    requires MemoryWellFormed(s) && Enabled(z, s, a) && !OfCapturer(a)
    ensures Step(z, s, a).mem == s.mem
    ensures s.encoded == None || s.encoded == s.reference ==>
              Step(z, s, a).encoded == None || Step(z, s, a).encoded == Step(z, s, a).reference
  {
    hide MemoryWellFormed;
    hide Publishable;
    hide Published;
    hide FrameParts;
    hide FrameFor;
  }

  /** No step puts a buffer into two places, so the buffer that frames are compared with is never in
      the pool, in the waiting slot or in the capturer's hands. */
  lemma StepKeepsOwned(z: Compressor, s: Sys, a: Action)
    requires Owned(s) && MemoryWellFormed(s) && Enabled(z, s, a)
    ensures Owned(Step(z, s, a)) && MemoryWellFormed(Step(z, s, a))
  {
    hide Publishable;
    hide Published;
    hide WellFormed;
    hide Step;
    var s' := Step(z, s, a);
    if OfCapturer(a) {
      CapturerMemory(z, s, a);
    } else {
      StreamSteps(z, s, a);
    }
    hide Holders;
    forall r ensures Holders(s', r) <= 1 && (Holders(s', r) > 0 ==> r in s'.mem) {
      StepHolds(z, s, a, r);
    }
  }

  lemma CapturerMemory(z: Compressor, s: Sys, a: Action)
    requires MemoryWellFormed(s) && Enabled(z, s, a) && OfCapturer(a)
    ensures s.mem.Keys + (if a.CaptureIntoNew? then {a.ref} else {}) <= Step(z, s, a).mem.Keys
            && MemoryWellFormed(Step(z, s, a))
    ensures Step(z, s, a).encoded == s.encoded && Step(z, s, a).reference == s.reference
    ensures Step(z, s, a).sent == s.sent && Step(z, s, a).hub == s.hub
    ensures forall r :: r in s.mem && InHands(s.capturer, r) == 0 ==> Step(z, s, a).mem[r] == s.mem[r]
  {
    hide EncodeStep;
    hide Publishable;
    hide Published;
    hide Recycle;
    hide WellFormed;
  }

  // ---- the frames under way bring the hub to the reference image ----

  /** The hub once frames are published; None when it refuses one, which ends the session. */
  ghost function PublishAll(h: Hub, frames: seq<(TileFrame, bytes)>): Option<Hub> {
    if frames == [] then Some(h)
    else
      match PublishAll(h, frames[..|frames| - 1])
      case None => None
      case Some(h') =>
        var last := frames[|frames| - 1];
        if Publishable(h', last.0, last.1, false) then Some(Published(h', last.0, last.1)) else None
  }

  lemma {:induction false} PublishAllFirst(h: Hub, frames: seq<(TileFrame, bytes)>)
    requires frames != [] && Publishable(h, frames[0].0, frames[0].1, false)
    ensures PublishAll(h, frames) == PublishAll(Published(h, frames[0].0, frames[0].1), frames[1..])
    decreases |frames|
  {
    hide Publishable;
    hide Published;
    var n := |frames| - 1;
    if n == 0 {
      assert frames[..0] == [];
    } else {
      PublishAllFirst(h, frames[..n]);
      assert frames[..n][1..] == frames[1..][..n - 1];
    }
  }

  lemma {:induction false} PublishAllKeepsInv(h: Hub, frames: seq<(TileFrame, bytes)>)
    requires TileHubs.Inv(h) && PublishAll(h, frames).Some?
    ensures TileHubs.Inv(PublishAll(h, frames).value)
    decreases |frames|
  {
    hide TileHubs.Inv;
    hide Publishable;
    hide Published;
    if frames != [] {
      var n := |frames| - 1;
      PublishAllKeepsInv(h, frames[..n]);
      PublishKeepsInv(PublishAll(h, frames[..n]).value, frames[n].0, frames[n].1);
    }
  }

  ghost predicate Inv(z: Compressor, s: Sys) {
    && Owned(s) && MemoryWellFormed(s) && TileHubs.Inv(s.hub)
    && (s.reference.Some? ==> Encodable(s.mem[s.reference.value]))
    && (s.reference == None ==> s.sent == [] && s.hub == EMPTY_HUB)
    && (var h := PublishAll(s.hub, s.sent);
        h.Some? && s.reference.Some? ==> Matches(z, h.value, s.mem[s.reference.value]))
  }

  lemma NotInTwoPlaces(s: Sys, r: Ref)
    requires Owned(s) && s.reference == Some(r)
    ensures r in s.mem && r !in s.pool && PixelsOf(s.slot) != Some(r) && InHands(s.capturer, r) == 0 && s.taken != Some(r)
  {
    assert Holders(s, r) == 1;
    assert InPool(s.pool, r) == 0;
  }

  /** One more frame on the way. */
  lemma PublishOneMore(h: Hub, frames: seq<(TileFrame, bytes)>, f: TileFrame, data: bytes)
    ensures PublishAll(h, frames + [(f, data)]).Some? <==>
              PublishAll(h, frames).Some? && Publishable(PublishAll(h, frames).value, f, data, false)
    ensures PublishAll(h, frames + [(f, data)]).Some? ==>
              PublishAll(h, frames + [(f, data)]).value == Published(PublishAll(h, frames).value, f, data)
  {
    hide Publishable;
    hide Published;
    var all := frames + [(f, data)];
    assert all[..|all| - 1] == frames;
  }

  /** Whether the frame is sent or skipped, the viewer ends up with the image that was encoded. */
  lemma EncodedReachesViewer(z: Compressor, h: Hub, sent: seq<(TileFrame, bytes)>, previous: Option<Image>, img: Image,
                             quality: int, f: TileFrame, parts: seq<Part>)
    requires TileHubs.Inv(h) && Encodable(img) && (previous.Some? ==> WellFormed(previous.value))
    requires previous.Some? && PublishAll(h, sent).Some? ==> Matches(z, PublishAll(h, sent).value, previous.value)
    requires FrameParts(z, previous, img, quality, false) == Some(parts)
    requires f.width == img.width && f.height == img.height && f.tiles == Tiles(parts)
    requires f.reset == IsReset(previous, img, false)
    ensures PublishAll(h, sent + [(f, Payload(parts))]).Some? ==>
              Matches(z, PublishAll(h, sent + [(f, Payload(parts))]).value, img)
    ensures parts == [] && PublishAll(h, sent).Some? ==> Matches(z, PublishAll(h, sent).value, img)
  {
    hide TileHubs.Inv;
    hide Publishable;
    hide Published;
    hide FrameParts;
    hide Matches;
    PublishOneMore(h, sent, f, Payload(parts));
    hide PublishAll;
    if PublishAll(h, sent).Some? {
      var h' := PublishAll(h, sent).value;
      PublishAllKeepsInv(h, sent);
      if Publishable(h', f, Payload(parts), false) {
        EncodedFrameMatches(z, h', previous, img, quality, false, f, parts);
      }
      if parts == [] {
        if IsReset(previous, img, false) {
          ResetSendsSomething(z, previous, img, quality, false);
        }
        IdleFrameMatches(z, h', previous, img, quality, false);
      }
    }
  }

  lemma EncodeKeepsInv(z: Compressor, s: Sys, quality: int, saveIdle: bool, sourceWidth: int64, sourceHeight: int64)
    requires Inv(z, s) && Enabled(z, s, EncodeTaken(quality, saveIdle, sourceWidth, sourceHeight))
    ensures Inv(z, Step(z, s, EncodeTaken(quality, saveIdle, sourceWidth, sourceHeight)))
  {
    var a := EncodeTaken(quality, saveIdle, sourceWidth, sourceHeight);
    StepKeepsOwned(z, s, a);
    hide TileHubs.Inv;
    hide Publishable;
    hide Published;
    hide FrameParts;
    hide Matches;
    hide Encodable;
    hide WellFormed;
    hide Recycle;
    hide Holders;
    hide PublishAll;
    var img, previous := s.mem[s.taken.value], ImageAt(s, s.encoded);
    if Encodable(img) && FrameParts(z, previous, img, quality, false).Some? {
      var parts := FrameParts(z, previous, img, quality, false).value;
      var f := FrameFor(previous, img, false, parts).(sourceWidth := sourceWidth, sourceHeight := sourceHeight);
      EncodedReachesViewer(z, s.hub, s.sent, previous, img, quality, f, parts);
    }
  }

  /** A keyframe always carries tiles. */
  lemma ResetSendsSomething(z: Compressor, previous: Option<Image>, img: Image, quality: int, force: bool)
    requires Encodable(img) && (previous.Some? ==> WellFormed(previous.value)) && IsReset(previous, img, force)
    requires FrameParts(z, previous, img, quality, force).Some?
    ensures FrameParts(z, previous, img, quality, force).value != []
  {
    var cells := ChangedCells(previous, img, force, AllCells(img));
    ChangedInside(previous, img, force, AllCells(img));
    EncodedCount(z, img, quality, cells);
    CellListComplete(Slots(img.width), Slots(img.height), 0, 0);
    ResetChanges(previous, img, force, Cell(0, 0));
    assert Cell(0, 0) in cells;
    hide CellPixels;
  }

  lemma StepKeepsInv(z: Compressor, s: Sys, a: Action)
    requires Inv(z, s) && Enabled(z, s, a)
    ensures Inv(z, Step(z, s, a))
  {
    hide TileHubs.Inv;
    hide Matches;
    hide Encodable;
    hide FrameParts;
    hide Publishable;
    hide Published;
    if a.EncodeTaken? {
      EncodeKeepsInv(z, s, a.quality, a.saveIdle, a.sourceWidth, a.sourceHeight);
    } else {
      StepKeepsOwned(z, s, a);
      if s.reference.Some? {
        NotInTwoPlaces(s, s.reference.value);
      }
      if a.Deliver? {
        PublishAllFirst(s.hub, s.sent);
        PublishKeepsInv(s.hub, s.sent[0].0, s.sent[0].1);
      }
      hide Owned;
      hide MemoryWellFormed;
      hide WellFormed;
    }
  }

  ghost predicate Possible(z: Compressor, s: Sys, run: seq<Action>)
    decreases |run|
  {
    run != [] ==> Enabled(z, s, run[0]) && MemoryWellFormed(s) && Possible(z, Step(z, s, run[0]), run[1..])
  }

  ghost function Exec(z: Compressor, s: Sys, run: seq<Action>): Sys
    requires Possible(z, s, run)
    decreases |run|
  {
    if run == [] then s else Exec(z, Step(z, s, run[0]), run[1..])
  }

  lemma {:induction false} RunKeepsInv(z: Compressor, s: Sys, run: seq<Action>)
    requires Inv(z, s) && Possible(z, s, run)
    ensures Inv(z, Exec(z, s, run))
    decreases |run|
  {
    hide Inv;
    hide Step;
    if run != [] {
      StepKeepsInv(z, s, run[0]);
      RunKeepsInv(z, Step(z, s, run[0]), run[1..]);
    }
  }

  /** After any run of captures, overwrites, errors, resets and skipped frames, once the sent frames are
      delivered every grid cell of the viewer's hub encodes exactly the pixels that the encoder's
      reference buffer holds now. */
  lemma {:induction false} ViewerMatchesReference(z: Compressor, run: seq<Action>)
    requires Possible(z, Idle, run)
    requires var s := Exec(z, Idle, run); s.sent == [] && s.reference.Some?
    ensures var s := Exec(z, Idle, run);
            && s.reference.value in s.mem
            && Matches(z, s.hub, s.mem[s.reference.value])
            && s.hub.tiles.Keys == Grid(s.mem[s.reference.value].width, s.mem[s.reference.value].height)
            && s.reference.value !in s.pool && PixelsOf(s.slot) != s.reference
            && InHands(s.capturer, s.reference.value) == 0
  {
    IdleInv(z);
    RunKeepsInv(z, Idle, run);
    var s := Exec(z, Idle, run);
    NotInTwoPlaces(s, s.reference.value);
    assert PublishAll(s.hub, []) == Some(s.hub);
    hide Owned;
    hide Grid;
    hide SumHeld;
    hide ValidCached;
  }

  lemma IdleInv(z: Compressor)
    ensures Inv(z, Idle)
  {
    assert SumHeld(map[], {}) == 0;
    assert EMPTY_HUB.tiles.Keys == {};
  }
}
