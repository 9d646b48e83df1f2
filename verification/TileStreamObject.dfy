/** The two loops of the agent's tile stream as mutable objects: the pixel pool and the one-frame slot of
  internal/agentapp/capture_pipeline.go, and one turn of the stream loop of internal/agentapp/tiles.go. */
module TileStreamObjects {
  import opened Wrappers
  import opened Bytes
  import opened TileFrames
  import opened TileEncoders
  import opened TileEncoderObjects
  import TilePipelines

  /** A captured frame; pixels is null when the capture failed. */
  datatype Captured = Captured(pixels: PixelBuffer?, sourceWidth: int64, sourceHeight: int64)

  class CapturePipeline {
    var pixels: seq<PixelBuffer>
    var slot: Option<Captured>

    constructor ()
      ensures pixels == [] && slot == None
    {
      pixels, slot := [], None;
    }

    /** recycle: a buffer goes into the pool while there is room, and is dropped otherwise. */
    method Recycle(buffer: PixelBuffer?)
      modifies `pixels
      ensures pixels == if buffer != null && |old(pixels)| < TilePipelines.POOL_SIZE then old(pixels) + [buffer] else old(pixels)
    {
      if buffer != null && |pixels| < TilePipelines.POOL_SIZE {
        pixels := pixels + [buffer];
      }
    }

    /** The buffer that the next capture may draw into. */
    method Draw() returns (buffer: PixelBuffer?)
      modifies `pixels
      ensures old(pixels) == [] ==> buffer == null && pixels == []
      ensures old(pixels) != [] ==> buffer == old(pixels)[0] && pixels == old(pixels)[1..]
    {
      buffer := null;
      if pixels != [] {
        buffer, pixels := pixels[0], pixels[1..];
      }
    }

    /** A new frame takes the slot; the one that nobody has taken gives its buffer back.  A failed capture leaves the
        buffer it was given unused. */
    method Offer(frame: Captured, buffer: PixelBuffer?)
      modifies this
      ensures slot == Some(frame)
      ensures var waiting := if old(slot).Some? && old(slot).value.pixels != null then [old(slot).value.pixels] else [];
              var unused := if frame.pixels == null && buffer != null then [buffer] else [];
              && old(pixels) <= pixels <= old(pixels) + waiting + unused
              && (|pixels| < TilePipelines.POOL_SIZE ==> pixels == old(pixels) + waiting + unused)
      ensures |old(pixels)| <= TilePipelines.POOL_SIZE ==> |pixels| <= TilePipelines.POOL_SIZE
    {
      if slot.Some? {
        Recycle(slot.value.pixels);
      }
      slot := Some(frame);
      if frame.pixels == null {
        Recycle(buffer);
      }
    }
  }

  class TileStream {
    const pipeline: CapturePipeline
    var encoder: TileEncoder
    var previousPixels: PixelBuffer?
    var failing: bool
    var idle: nat
    /** The frames written to the connection. */
    var sent: seq<(TileFrame, bytes)>

    constructor (pipeline: CapturePipeline)
      ensures Valid() && this.pipeline == pipeline && previousPixels == null && sent == [] && fresh(encoder) && encoder.previous == null
    {
      this.pipeline := pipeline;
      encoder := new TileEncoder();
      previousPixels, failing, idle, sent := null, false, 0, [];
    }

    /** What frames are compared with is the image kept back from the pool, unless the encoder is a new one. */
    ghost predicate Valid()
      reads this, encoder, if encoder.previous != null then {encoder.previous.pix} else {}
    {
      encoder.Valid() && (encoder.previous == null || encoder.previous == previousPixels)
    }

    /** One frame from the slot: after a failed capture the encoder starts over; a frame without changes is not sent
        when idle traffic is to be saved; the image compared with before goes back to the pool, and only then. */
    method Serve(z: Compressor, frame: Captured, quality: int, saveIdle: bool) returns (ok: bool)
      requires Valid() && (frame.pixels != null ==> WellFormed(frame.pixels.View()))
      modifies this, encoder, pipeline
      ensures Valid() && (encoder == old(encoder) || fresh(encoder)) && pipeline.slot == old(pipeline.slot)
      ensures frame.pixels == null ==>
                ok && failing && sent == old(sent) && previousPixels == old(previousPixels) && pipeline.pixels == old(pipeline.pixels)
                && encoder == old(encoder) && encoder.previous == old(encoder.previous)
      ensures frame.pixels != null ==>
                var reference := if old(failing) then None else old(encoder.Reference());
                var img := frame.pixels.View();
                && !failing
                && (ok <==> Encodable(img) && FrameParts(z, reference, img, quality, false).Some?)
                && (!ok ==> sent == old(sent) && previousPixels == old(previousPixels) && pipeline.pixels == old(pipeline.pixels))
                && (ok ==>
                      var parts := FrameParts(z, reference, img, quality, false).value;
                      var f := FrameFor(reference, img, false, parts).(sourceWidth := frame.sourceWidth, sourceHeight := frame.sourceHeight);
                      && previousPixels == encoder.previous == frame.pixels
                      && sent == (if parts != [] || !saveIdle then old(sent) + [(f, Payload(parts))] else old(sent))
                      && pipeline.pixels == if old(previousPixels) != null && |old(pipeline.pixels)| < TilePipelines.POOL_SIZE
                                            then old(pipeline.pixels) + [old(previousPixels)] else old(pipeline.pixels))
    {
      if frame.pixels == null {
        failing := true;
        return true;
      }
      if failing {
        failing := false;
        encoder := new TileEncoder();
      }
      hide FrameParts;
      hide WellFormed;
      var f, data;
      ok, f, data := encoder.Encode(z, frame.pixels, quality, false);
      if !ok {
        return;
      }
      Keep(frame, f, data, saveIdle);
    }

    /** The image just encoded is kept, the one before it goes back to the pool, and the frame is sent unless it may be
        skipped. */
    method Keep(frame: Captured, f: TileFrame, data: bytes, saveIdle: bool)
      requires frame.pixels != null
      modifies `previousPixels, `sent, `idle, pipeline
      ensures previousPixels == frame.pixels && pipeline.slot == old(pipeline.slot)
      ensures pipeline.pixels == if old(previousPixels) != null && |old(pipeline.pixels)| < TilePipelines.POOL_SIZE
                                 then old(pipeline.pixels) + [old(previousPixels)] else old(pipeline.pixels)
      ensures sent == if f.tiles != [] || !saveIdle
                      then old(sent) + [(f.(sourceWidth := frame.sourceWidth, sourceHeight := frame.sourceHeight), data)] else old(sent)
    {
      pipeline.Recycle(previousPixels);
      previousPixels := frame.pixels;
      if f.tiles != [] || !saveIdle {
        idle := 0;
        sent := sent + [(f.(sourceWidth := frame.sourceWidth, sourceHeight := frame.sourceHeight), data)];
      } else {
        idle := idle + 1;
      }
    }
  }
}
