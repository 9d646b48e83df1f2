/** What becomes of pixel buffers, of the encoder's reference and of what is sent, step by step and over runs: the capture worker
  and the stream loop of internal/agentapp. */
module TileEffects {
  import opened Wrappers
  import opened Bytes
  import opened TileFrames
  import opened TileHubs
  import opened TileEncoders
  import opened TilePipelines

  // ---- buffers ----

  /** A buffer goes to the pool while that holds fewer than three. */
  lemma RecyclesExactly(pool: seq<Ref>, o: Option<Ref>)
    ensures Recycle(pool, o) == if o.Some? && |pool| < 3 then pool + [o.value] else pool
  {
  }

  lemma RecycleKeeps(pool: seq<Ref>, o: Option<Ref>, r: Ref)
    requires |pool| < 3
    ensures InPool(Recycle(pool, o), r) == InPool(pool, r) + Is(o, r)
  {
  }

  /** A capturer that offers a frame with pixels has nothing else in its hands. */
  predicate HandsFit(s: Sys) {
    s.capturer.Offering? && s.capturer.frame.Shot? ==> s.capturer.buffer == None
  }

  lemma StepKeepsHands(z: Compressor, s: Sys, a: Action)
    requires HandsFit(s) && MemoryWellFormed(s) && Enabled(z, s, a)
    ensures HandsFit(Step(z, s, a))
  {
    hide MemoryWellFormed;
    hide Publishable;
    hide Published;
    hide FrameParts;
    hide FrameFor;
    hide Recycle;
  }

  lemma {:induction false} RunKeepsHands(z: Compressor, run: seq<Action>, s: Sys)
    requires HandsFit(s) && Possible(z, s, run)
    ensures HandsFit(Exec(z, s, run))
    decreases |run|
  {
    hide HandsFit;
    hide Step;
    if run != [] {
      StepKeepsHands(z, s, run[0]);
      RunKeepsHands(z, run[1..], Step(z, s, run[0]));
    }
  }

  /** No buffer is lost that the pool has room for, but the one a capturer was given and did not use; and a capture starts with
      the buffer that has been in the pool the longest. */
  lemma {:induction false} BuffersKept(z: Compressor, s: Sys, a: Action, r: Ref)
    requires HandsFit(s) && MemoryWellFormed(s) && Enabled(z, s, a) && |s.pool| < 3
    requires !(a.CaptureIntoNew? && s.capturer.buffer == Some(r))
    ensures Holders(Step(z, s, a), r) == Holders(s, r) + if a.CaptureIntoNew? then Is(Some(a.ref), r) else 0
  {
    hide MemoryWellFormed;
    hide Publishable;
    hide Published;
    hide FrameParts;
    hide FrameFor;
    hide InPool;
    hide Recycle;
    if s.pool != [] {
      TakeFromPool(s.pool, r);
    }
    RecycleKeeps(s.pool, PixelsOf(s.slot), r);
    RecycleKeeps(s.pool, s.reference, r);
    if s.capturer.Returning? {
      RecycleKeeps(s.pool, s.capturer.buffer, r);
    }
  }

  lemma {:induction false} CaptureReuses(z: Compressor, s: Sys)
    requires MemoryWellFormed(s) && Enabled(z, s, StartCapture)
    ensures var s' := Step(z, s, StartCapture);
            if s.pool == [] then s' == s.(capturer := Capturing(None))
            else s'.capturer == Capturing(Some(s.pool[0])) && s.pool == [s.pool[0]] + s'.pool
  {
  }

  /** The pool never holds more than three buffers. */
  lemma {:induction false} PoolBounded(z: Compressor, s: Sys, run: seq<Action>)
    requires |s.pool| <= 3 && Possible(z, s, run)
    ensures |Exec(z, s, run).pool| <= 3
    decreases |run|
  {
    if run != [] {
      PoolStep(z, s, run[0]);
      PoolBounded(z, Step(z, s, run[0]), run[1..]);
    }
    hide Step;
  }

  lemma PoolStep(z: Compressor, s: Sys, a: Action)
    requires |s.pool| <= 3 && Enabled(z, s, a) && MemoryWellFormed(s)
    ensures |Step(z, s, a).pool| <= 3
  {
    hide MemoryWellFormed;
    hide Publishable;
    hide Published;
    hide FrameParts;
    hide FrameFor;
  }

  // ---- the encoder ----

  /** A waiting frame is taken as it is.  A capture that failed is noted; the first frame after that is encoded by an encoder
      that starts over, and any other one by the encoder there is.  What is taken is encoded next, and nothing else changes the
      encoder. */
  lemma {:induction false} EncoderFollows(z: Compressor, s: Sys, a: Action)
    requires MemoryWellFormed(s) && Enabled(z, s, a)
    ensures var s' := Step(z, s, a);
            if a.TakeFrame? then
              && s'.slot == None && s'.sent == s.sent
              && (if s.slot == Some(Failed) then s'.failing && s'.taken == None && s'.encoded == s.encoded
                  else !s'.failing && s'.taken == Some(s.slot.value.pixels) && s'.encoded == if s.failing then None else s.encoded)
            else s'.failing == s.failing && (!a.EncodeTaken? ==> s'.encoded == s.encoded && s'.taken == s.taken && s'.reference == s.reference)
  {
    hide MemoryWellFormed;
    hide Publishable;
    hide Published;
    hide FrameParts;
    hide FrameFor;
    hide Recycle;
  }

  /** What is encoded is kept for the next comparison and sent, with the size of the screen, unless nothing in it has changed and
      idle frames are saved; it starts over exactly if there is nothing to compare with or the size is another.  A frame that
      cannot be encoded ends the stream. */
  lemma {:induction false} SendsExactly(z: Compressor, s: Sys, quality: int, saveIdle: bool, w: int64, h: int64)
    requires MemoryWellFormed(s) && Enabled(z, s, EncodeTaken(quality, saveIdle, w, h))
    ensures var s' := Step(z, s, EncodeTaken(quality, saveIdle, w, h));
            var img, previous := s.mem[s.taken.value], ImageAt(s, s.encoded);
            if Encodable(img) && FrameParts(z, previous, img, quality, false).Some? then
              var parts := FrameParts(z, previous, img, quality, false).value;
              && s'.encoded == s'.reference == s.taken && s'.taken == None && s'.stopped == s.stopped && s'.hub == s.hub
              && (if parts == [] && saveIdle then s'.sent == s.sent
                  else
                    && |s'.sent| == |s.sent| + 1 && s.sent == s'.sent[..|s.sent|]
                    && (var f, data := s'.sent[|s.sent|].0, s'.sent[|s.sent|].1;
                        && f.width == img.width && f.height == img.height && f.sourceWidth == w && f.sourceHeight == h
                        && f.tiles == Tiles(parts) && data == Payload(parts)
                        && (f.reset <==> previous == None || previous.value.width != img.width || previous.value.height != img.height)))
            else s'.stopped && s'.sent == s.sent && s'.reference == s.reference && s'.hub == s.hub
  {
    hide MemoryWellFormed;
    hide FrameParts;
    hide Recycle;
    hide Encodable;
    hide Payload;
    hide Tiles;
  }

  /** After the stream has stopped nothing is taken, encoded or sent any more. */
  lemma {:induction false} StoppedForGood(z: Compressor, s: Sys, run: seq<Action>)
    requires s.stopped && Possible(z, s, run)
    ensures var s' := Exec(z, s, run);
            && s'.stopped && s'.taken == s.taken && s'.encoded == s.encoded && s'.reference == s.reference && |s'.sent| <= |s.sent|
    decreases |run|
  {
    if run != [] {
      StoppedStep(z, s, run[0]);
      StoppedForGood(z, Step(z, s, run[0]), run[1..]);
    }
    hide Step;
  }

  lemma StoppedStep(z: Compressor, s: Sys, a: Action)
    requires s.stopped && Enabled(z, s, a) && MemoryWellFormed(s)
    ensures var s' := Step(z, s, a);
            && s'.stopped && s'.taken == s.taken && s'.encoded == s.encoded && s'.reference == s.reference && |s'.sent| <= |s.sent|
  {
    hide MemoryWellFormed;
    hide Publishable;
    hide Published;
  }

  lemma StopStops(z: Compressor, s: Sys)
    requires MemoryWellFormed(s)
    ensures Enabled(z, s, Stop) && Step(z, s, Stop) == s.(stopped := true)
  {
  }

  /** One frame is taken at a time, and none waits in the place of another. */
  lemma {:induction false} OneAtATime(z: Compressor, s: Sys)
    ensures s.taken.Some? ==> !Enabled(z, s, TakeFrame)
    ensures s.slot.Some? ==> !Enabled(z, s, PlaceFrame)
    ensures s.slot == None ==> !Enabled(z, s, DiscardWaiting)
  {
  }
}
