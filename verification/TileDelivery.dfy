/** What is sent is taken, and what is captured is shown: the encoder of internal/stream/tiles.go, the capture worker and
  the stream loop of internal/agentapp, and the viewer's hub of internal/viewerapp/tiles.go together. */
module TileDeliveries {
  import opened Wrappers
  import opened Bytes
  import opened TileFrames
  import opened TileHubs
  import TileClients
  import opened TileEncoders
  import opened TilePixels
  import opened TilePipelines

  // ---- the order of the tiles ----

  predicate RowMajor(a: Cell, b: Cell) {
    a.y < b.y || (a.y == b.y && a.x < b.x)
  }

  ghost predicate Ordered(cells: seq<Cell>) {
    forall i, j :: 0 <= i < j < |cells| ==> RowMajor(cells[i], cells[j])
  }

  lemma {:induction false} ListOrdered(columns: nat, rows: nat)
    ensures Ordered(CellList(columns, rows)) && |CellList(columns, rows)| == columns * rows
    ensures forall c :: c in CellList(columns, rows) ==> c.y < rows * TILE_SIZE
    decreases rows
  {
    if rows > 0 {
      ListOrdered(columns, rows - 1);
      assert (rows - 1) * columns + columns == rows * columns;
      var init, row := CellList(columns, rows - 1), RowCells(columns, rows - 1);
      hide CellList;
      assert forall i :: 0 <= i < |init| ==> init[i] in init;
    }
  }

  lemma {:induction false} ChangedOrdered(previous: Option<Image>, img: Image, force: bool, cells: seq<Cell>)
    requires WellFormed(img) && (previous.Some? ==> WellFormed(previous.value)) && AllInside(img, cells) && Ordered(cells)
    ensures var changed := ChangedCells(previous, img, force, cells);
            && Ordered(changed) && |changed| <= |cells|
            && (IsReset(previous, img, force) ==> changed == cells)
    decreases |cells|
  {
    hide CellPixels;
    hide RowMajor;
    if cells != [] {
      var n := |cells| - 1;
      assert cells == cells[..n] + [cells[n]];
      ChangedOrdered(previous, img, force, cells[..n]);
      ChangedInside(previous, img, force, cells[..n]);
      ResetChanges(previous, img, force, cells[n]);
      hide Changed;
      hide IsReset;
      AppendOrdered(ChangedCells(previous, img, force, cells[..n]), cells[..n], cells[n]);
    }
  }

  lemma AppendOrdered(part: seq<Cell>, cells: seq<Cell>, c: Cell)
    requires Ordered(part) && Ordered(cells + [c]) && forall d :: d in part ==> d in cells
    ensures Ordered(part + [c])
  {
    hide RowMajor;
    forall i | 0 <= i < |part| ensures RowMajor(part[i], c) {
      assert part[i] in part;
      var j :| 0 <= j < |cells| && cells[j] == part[i];
      assert (cells + [c])[j] == cells[j] && (cells + [c])[|cells|] == c;
    }
  }

  // ---- a frame that is sent is taken ----

  /** What the codec makes of a tile is a picture of some bytes. */
  predicate Picture(part: Part) {
    part.data != [] && (part.tile.mime == "image/png" || part.tile.mime == "image/jpeg")
  }

  ghost predicate Pictures(parts: seq<Part>) {
    forall part :: part in parts ==> Picture(part)
  }

  lemma FewTiles(width: nat, height: nat)
    requires width <= MAX_SIDE && height <= MAX_SIDE && width * height <= MAX_PIXELS
    ensures Slots(width) * Slots(height) <= MAX_TILES
  {
    var a, b := Slots(width), Slots(height);
    assert 256 * a <= width + 255 && 256 * b <= height + 255;
    hide Slots;
    Products(256 * a, width + 255, 256 * b, height + 255);
    Expanded(width, height);
    Regrouped(a, b);
  }

  lemma Products(a: int, p: int, b: int, q: int)
    requires 0 <= a <= p && 0 <= b <= q
    ensures a * b <= p * q
  {
    assert a * b <= p * b;
    assert p * b <= p * q;
  }

  lemma Expanded(p: int, q: int)
    ensures (p + 255) * (q + 255) == p * q + 255 * p + 255 * q + 65025
  {
  }

  lemma Regrouped(a: int, b: int)
    ensures (256 * a) * (256 * b) == 65536 * (a * b)
  {
  }

  ghost predicate Sending(z: Compressor, previous: Option<Image>, img: Image, quality: int, force: bool, f: TileFrame, parts: seq<Part>) {
    && Encodable(img) && (previous.Some? ==> WellFormed(previous.value))
    && FrameParts(z, previous, img, quality, force) == Some(parts)
    && f.width == img.width && f.height == img.height && f.tiles == Tiles(parts) && f.reset == IsReset(previous, img, force)
  }

  lemma SentTiles(z: Compressor, previous: Option<Image>, img: Image, quality: int, force: bool, f: TileFrame, parts: seq<Part>)
    requires Sending(z, previous, img, quality, force, f, parts) && img.width <= MAX_SIDE && img.height <= MAX_SIDE
    ensures |f.tiles| <= MAX_TILES && DistinctTiles(f.tiles) && Sized(parts) && GridFrame(f)
    ensures forall i :: 0 <= i < |parts| ==> (ValidTile(f, f.tiles[i]) <==> Picture(parts[i]))
  {
    hide ValidTile;
    hide OnGrid;
    hide Picture;
    hide CellPixels;
    hide AllCells;
    hide EncodeCells;
    hide RowMajor;
    var cells := ChangedCells(previous, img, force, AllCells(img));
    ListOrdered(Slots(img.width), Slots(img.height));
    AllListed(img);
    ChangedOrdered(previous, img, force, AllCells(img));
    ChangedInside(previous, img, force, AllCells(img));
    EncodedCount(z, img, quality, cells);
    CountFits(img);
    hide ChangedCells;
    forall i | 0 <= i < |parts|
      ensures f.tiles[i].At() == cells[i] && OnGrid(f, f.tiles[i]) && parts[i].tile.size == |parts[i].data|
              && (ValidTile(f, f.tiles[i]) <==> Picture(parts[i]))
    {
      assert cells[i] in cells;
      PartSent(z, img, quality, cells, f, parts, i);
    }
    OrderedApart(cells, f.tiles);
  }

  lemma AllListed(img: Image)
    ensures AllCells(img) == CellList(Slots(img.width), Slots(img.height))
  {
  }

  lemma CountFits(img: Image)
    requires Encodable(img) && img.width <= MAX_SIDE && img.height <= MAX_SIDE
    ensures Slots(img.width) * Slots(img.height) <= MAX_TILES
  {
    FewTiles(img.width, img.height);
  }

  lemma OrderedApart(cells: seq<Cell>, tiles: seq<Tile>)
    requires Ordered(cells) && |tiles| == |cells| && forall i :: 0 <= i < |tiles| ==> tiles[i].At() == cells[i]
    ensures DistinctTiles(tiles)
  {
  }

  lemma PartSent(z: Compressor, img: Image, quality: int, cells: seq<Cell>, f: TileFrame, parts: seq<Part>, i: nat)
    requires Encodable(img) && img.width <= MAX_SIDE && img.height <= MAX_SIDE && f.width == img.width && f.height == img.height
    requires (forall c :: c in cells ==> InImage(img, c)) && EncodeCells(z, img, quality, cells) == Some(parts)
    requires i < |cells| == |parts| && cells[i] in AllCells(img)
    ensures var t := parts[i].tile;
            t.At() == cells[i] && OnGrid(f, t) && t.size == |parts[i].data| && (ValidTile(f, t) <==> Picture(parts[i]))
  {
    hide CellPixels;
    hide AllCells;
    hide EncodeCells;
    hide ValidTile;
    hide OnGrid;
    hide Picture;
    EncodedPart(z, img, quality, cells, i);
    Aligned(img, cells[i]);
    assert cells[i] in cells;
    TileOk(f, img, parts[i]);
  }

  lemma Aligned(img: Image, c: Cell)
    requires c in AllCells(img)
    ensures c.x % TILE_SIZE == 0 && c.y % TILE_SIZE == 0
  {
    AlignedList(Slots(img.width), Slots(img.height), c);
  }

  lemma {:induction false} AlignedList(columns: nat, rows: nat, c: Cell)
    requires c in CellList(columns, rows)
    ensures c.x % TILE_SIZE == 0 && c.y % TILE_SIZE == 0
    decreases rows
  {
    if rows > 0 && c in CellList(columns, rows - 1) {
      AlignedList(columns, rows - 1, c);
    }
  }

  lemma TileOk(f: TileFrame, img: Image, part: Part)
    requires Encodable(img) && f.width == img.width && f.height == img.height && img.width <= MAX_SIDE && img.height <= MAX_SIDE
    requires InImage(img, part.tile.At()) && part.tile.x % TILE_SIZE == 0 && part.tile.y % TILE_SIZE == 0
    requires part.tile.width == (if part.tile.x + 256 < img.width then 256 else img.width - part.tile.x)
    requires part.tile.height == (if part.tile.y + 256 < img.height then 256 else img.height - part.tile.y)
    requires part.tile.size == |part.data|
    ensures OnGrid(f, part.tile) && (ValidTile(f, part.tile) <==> Picture(part))
  {
  }

  /** The hub that shows the picture before takes the frame exactly if the image is not too long or wide, its tiles are
      pictures and the cache has room for them. */
  lemma {:induction false} SentIsTaken(z: Compressor, h: Hub, previous: Option<Image>, img: Image, quality: int, force: bool,
                                       f: TileFrame, parts: seq<Part>)
    requires Sending(z, previous, img, quality, force, f, parts) && (previous.Some? ==> Matches(z, h, previous.value))
    ensures Publishable(h, f, Payload(parts), false) <==>
              img.width <= 16384 && img.height <= 16384 && Pictures(parts) && Retained(h, f, |f.tiles|) <= 33554432
  {
    hide Retained;
    hide ValidTile;
    hide OnGrid;
    hide CellPixels;
    hide FrameParts;
    hide Payload;
    hide TotalSize;
    hide GridFrame;
    if img.width <= MAX_SIDE && img.height <= MAX_SIDE {
      SentTiles(z, previous, img, quality, force, f, parts);
      PayloadSize(parts);
      ValidParts(f, parts);
    }
    hide DistinctTiles;
    hide Pictures;
    hide Shows;
  }

  lemma ValidParts(f: TileFrame, parts: seq<Part>)
    requires f.tiles == Tiles(parts) && forall i :: 0 <= i < |parts| ==> (ValidTile(f, f.tiles[i]) <==> Picture(parts[i]))
    ensures (forall t :: t in f.tiles ==> ValidTile(f, t)) <==> Pictures(parts)
  {
    hide ValidTile;
    hide Picture;
    if forall t :: t in f.tiles ==> ValidTile(f, t) {
      forall i | 0 <= i < |parts| ensures ValidTile(f, f.tiles[i]) {
        assert f.tiles[i] in f.tiles;
      }
    }
  }

  /** An image can be sent if it has pixels, and not more than four times those of 3840 by 2160. */
  lemma EncodesUpTo(img: Image)
    ensures Encodable(img) <==> |img.pix| == img.width * img.height * 4 && 1 <= img.width && 1 <= img.height && img.width * img.height <= 33177600
  {
  }

  // ---- what is captured is shown ----

  /** Once everything sent is published, the viewer draws, at every channel of every pixel, what the reference buffer holds
      there, as closely as the codec does; with a lossless codec that is the whole picture. */
  lemma {:induction false} ViewerDrawsReference(z: Compressor, d: Decoder, close: (byte, byte) -> bool, run: seq<Action>, x: nat, y: nat, k: nat)
    requires Draws(z, d, close) && Possible(z, Idle, run)
    requires var s := Exec(z, Idle, run); s.sent == [] && s.reference.Some?
    requires var s := Exec(z, Idle, run); s.reference.value in s.mem ==> Inside(s.mem[s.reference.value], x, y, k)
    ensures var s := Exec(z, Idle, run);
            && s.reference.value in s.mem && WellFormed(s.mem[s.reference.value])
            && exists b :: DrawnAt(d, s.hub, x, y, k, b) && close(ByteAt(s.mem[s.reference.value], x, y, k), b)
  {
    ViewerMatchesReference(z, run);
    hide Possible;
    hide Exec;
    hide Draws;
    hide DrawnAt;
    hide Grid;
    hide Inside;
    var s := Exec(z, Idle, run);
    MatchDraws(z, d, close, s.hub, s.mem[s.reference.value], x, y, k);
  }

  /** The codec can encode everything, as a picture. */
  ghost predicate Works(z: Compressor) {
    forall p, quality :: z.run(p, quality).Some? &&
      z.run(p, quality).value.data != [] && (z.run(p, quality).value.mime == "image/png" || z.run(p, quality).value.mime == "image/jpeg")
  }

  lemma WorksParts(z: Compressor, previous: Option<Image>, img: Image, quality: int, force: bool)
    requires Works(z) && Encodable(img) && (previous.Some? ==> WellFormed(previous.value))
    ensures FrameParts(z, previous, img, quality, force).Some? && Pictures(FrameParts(z, previous, img, quality, force).value)
  {
    var cells := ChangedCells(previous, img, force, AllCells(img));
    ChangedInside(previous, img, force, AllCells(img));
    EncodedExactly(z, img, quality, cells);
    EncodedCount(z, img, quality, cells);
    var parts := EncodeCells(z, img, quality, cells).value;
    forall i | 0 <= i < |parts| ensures Picture(parts[i]) {
      EncodedPart(z, img, quality, cells, i);
    }
    hide CellPixels;
    hide AllCells;
    hide Picture;
  }

  /** The capture worker captures an image anew and places it, after the waiting frame if there is one. */
  function Capture(s: Sys, r: Ref, img: Image): seq<Action> {
    [StartCapture, CaptureIntoNew(r, img)] + (if s.slot.Some? then [DiscardWaiting] else []) + [PlaceFrame]
  }

  lemma {:induction false} CapturePlaces(z: Compressor, s: Sys, r: Ref, img: Image)
    requires TilePipelines.Inv(z, s) && s.capturer.Ready? && r !in s.mem && WellFormed(img)
    ensures Possible(z, s, Capture(s, r, img))
    ensures var s1 := Exec(z, s, Capture(s, r, img));
            && TilePipelines.Inv(z, s1) && s1.slot == Some(Shot(r)) && s1.capturer.Ready? && r in s1.mem && s1.mem[r] == img
            && s1.taken == s.taken && s1.stopped == s.stopped && s1.sent == s.sent && s1.hub == s.hub
  {
    hide TilePipelines.Inv;
    hide MemoryWellFormed;
    hide WellFormed;
    var actions := Capture(s, r, img);
    InvMemory(z, s);
    var s1 := Step(z, s, StartCapture);
    StepKeepsInv(z, s, StartCapture);
    InvMemory(z, s1);
    var s2 := Step(z, s1, CaptureIntoNew(r, img));
    StepKeepsInv(z, s1, CaptureIntoNew(r, img));
    InvMemory(z, s2);
    if s.slot.Some? {
      var s3 := Step(z, s2, DiscardWaiting);
      StepKeepsInv(z, s2, DiscardWaiting);
      InvMemory(z, s3);
      StepKeepsInv(z, s3, PlaceFrame);
      Four(z, s, actions);
    } else {
      StepKeepsInv(z, s2, PlaceFrame);
      Three(z, s, actions);
    }
  }

  lemma InvMemory(z: Compressor, s: Sys)
    requires TilePipelines.Inv(z, s)
    ensures MemoryWellFormed(s)
  {
  }

  lemma Three(z: Compressor, s: Sys, a: seq<Action>)
    requires |a| == 3 && MemoryWellFormed(s) && Enabled(z, s, a[0])
    requires var s1 := Step(z, s, a[0]); MemoryWellFormed(s1) && Enabled(z, s1, a[1])
    requires var s2 := Step(z, Step(z, s, a[0]), a[1]); MemoryWellFormed(s2) && Enabled(z, s2, a[2])
    ensures Possible(z, s, a) && Exec(z, s, a) == Step(z, Step(z, Step(z, s, a[0]), a[1]), a[2])
  {
    hide Enabled;
    hide Step;
    hide MemoryWellFormed;
    var s1 := Step(z, s, a[0]);
    var s2 := Step(z, s1, a[1]);
    assert a[1..][0] == a[1] && a[1..][1..] == a[2..] && a[2..][0] == a[2] && a[2..][1..] == [];
    assert Possible(z, Step(z, s2, a[2]), []);
    assert Possible(z, s2, a[2..]) && Exec(z, s2, a[2..]) == Step(z, s2, a[2]);
    assert Possible(z, s1, a[1..]) && Exec(z, s1, a[1..]) == Step(z, s2, a[2]);
  }

  lemma Four(z: Compressor, s: Sys, a: seq<Action>)
    requires |a| == 4 && MemoryWellFormed(s) && Enabled(z, s, a[0])
    requires var s1 := Step(z, s, a[0]); MemoryWellFormed(s1) && Enabled(z, s1, a[1])
    requires var s2 := Step(z, Step(z, s, a[0]), a[1]); MemoryWellFormed(s2) && Enabled(z, s2, a[2])
    requires var s3 := Step(z, Step(z, Step(z, s, a[0]), a[1]), a[2]); MemoryWellFormed(s3) && Enabled(z, s3, a[3])
    ensures Possible(z, s, a) && Exec(z, s, a) == Step(z, Step(z, Step(z, Step(z, s, a[0]), a[1]), a[2]), a[3])
  {
    hide Enabled;
    hide Step;
    hide MemoryWellFormed;
    Three(z, Step(z, s, a[0]), a[1..]);
  }

  /** An image that is placed is encoded next and, with everything before it published, shown: either nothing has to be
      sent, or what is sent is taken by the hub if its cache has room, and then the hub matches the image. */
  lemma {:induction false} CaptureIsShown(z: Compressor, s: Sys, r: Ref, quality: int, saveIdle: bool, sourceWidth: int64, sourceHeight: int64)
    requires Works(z) && TilePipelines.Inv(z, s) && !s.stopped && s.taken == None && s.sent == [] && s.slot == Some(Shot(r))
    requires r in s.mem && Encodable(s.mem[r]) && s.mem[r].width <= MAX_SIDE && s.mem[r].height <= MAX_SIDE
    ensures MemoryWellFormed(s) && Enabled(z, s, TakeFrame)
    ensures var s1 := Step(z, s, TakeFrame); var encode := EncodeTaken(quality, saveIdle, sourceWidth, sourceHeight);
            && MemoryWellFormed(s1) && Enabled(z, s1, encode)
            && var s2 := Step(z, s1, encode);
               && s2.reference == Some(r) && r in s2.mem && s2.mem[r] == s.mem[r]
               && (if s2.sent == [] then Matches(z, s2.hub, s.mem[r])
                   else
                     && |s2.sent| == 1
                     && (Retained(s2.hub, s2.sent[0].0, |s2.sent[0].0.tiles|) <= MAX_CACHE_SIZE ==>
                           Enabled(z, s2, Deliver) && MemoryWellFormed(s2)
                           && var s3 := Step(z, s2, Deliver); s3.sent == [] && Matches(z, s3.hub, s.mem[r])))
  {
    hide TilePipelines.Inv;
    hide Step;
    hide FrameParts;
    hide Matches;
    hide Encodable;
    hide Works;
    hide Retained;
    hide MemoryWellFormed;
    InvMemory(z, s);
    Takes(z, s, r);
    var s1 := Step(z, s, TakeFrame);
    StepKeepsInv(z, s, TakeFrame);
    InvMemory(z, s1);
    var encode := EncodeTaken(quality, saveIdle, sourceWidth, sourceHeight);
    PreviousFits(z, s1);
    WorksParts(z, ImageAt(s1, s1.encoded), s1.mem[r], quality, false);
    EncodeSends(z, s1, r, quality, saveIdle, sourceWidth, sourceHeight);
    var s2 := Step(z, s1, encode);
    StepKeepsInv(z, s1, encode);
    if s2.sent == [] {
      ShownAtLast(z, s2, r);
    } else if Retained(s2.hub, s2.sent[0].0, |s2.sent[0].0.tiles|) <= MAX_CACHE_SIZE {
      InvMemory(z, s2);
      Delivers(z, s2);
      StepKeepsInv(z, s2, Deliver);
      ShownAtLast(z, Step(z, s2, Deliver), r);
    }
  }

  lemma Takes(z: Compressor, s: Sys, r: Ref)
    requires MemoryWellFormed(s) && !s.stopped && s.taken == None && s.slot == Some(Shot(r))
    ensures Enabled(z, s, TakeFrame)
    ensures var s1 := Step(z, s, TakeFrame);
            && s1.taken == Some(r) && s1.mem == s.mem && s1.sent == s.sent && s1.hub == s.hub && !s1.stopped
  {
  }

  /** What is sent after the image was encoded, and that the hub takes it if there is room. */
  lemma EncodeSends(z: Compressor, s: Sys, r: Ref, quality: int, saveIdle: bool, sourceWidth: int64, sourceHeight: int64)
    requires MemoryWellFormed(s) && !s.stopped && s.taken == Some(r) && r in s.mem && s.sent == []
    requires Encodable(s.mem[r]) && s.mem[r].width <= MAX_SIDE && s.mem[r].height <= MAX_SIDE
    requires var previous := ImageAt(s, s.encoded);
             && (previous.Some? ==> WellFormed(previous.value) && Matches(z, s.hub, previous.value))
             && FrameParts(z, previous, s.mem[r], quality, false).Some? && Pictures(FrameParts(z, previous, s.mem[r], quality, false).value)
    ensures var a := EncodeTaken(quality, saveIdle, sourceWidth, sourceHeight);
            && Enabled(z, s, a)
            && var s2 := Step(z, s, a);
               && s2.reference == Some(r) && s2.mem == s.mem && s2.hub == s.hub && |s2.sent| <= 1
               && (s2.sent != [] && Retained(s.hub, s2.sent[0].0, |s2.sent[0].0.tiles|) <= MAX_CACHE_SIZE ==>
                     Publishable(s.hub, s2.sent[0].0, s2.sent[0].1, false))
  {
    hide MemoryWellFormed;
    hide FrameParts;
    hide Matches;
    hide Encodable;
    hide Retained;
    hide Pictures;
    hide Recycle;
    hide Publishable;
    var previous := ImageAt(s, s.encoded);
    var parts := FrameParts(z, previous, s.mem[r], quality, false).value;
    var f := FrameFor(previous, s.mem[r], false, parts).(sourceWidth := sourceWidth, sourceHeight := sourceHeight);
    SentIsTaken(z, s.hub, previous, s.mem[r], quality, false, f, parts);
  }

  lemma Delivers(z: Compressor, s: Sys)
    requires MemoryWellFormed(s) && |s.sent| == 1 && Enabled(z, s, Deliver)
    ensures var s3 := Step(z, s, Deliver); s3.sent == [] && s3.mem == s.mem && s3.reference == s.reference
  {
    hide Published;
    hide Publishable;
    hide MemoryWellFormed;
  }

  lemma ShownAtLast(z: Compressor, s: Sys, r: Ref)
    requires TilePipelines.Inv(z, s) && s.sent == [] && s.reference == Some(r)
    ensures r in s.mem && Matches(z, s.hub, s.mem[r])
  {
    hide Matches;
    hide TileHubs.Inv;
    NotInTwoPlaces(s, r);
    assert PublishAll(s.hub, []) == Some(s.hub);
  }

  lemma PreviousFits(z: Compressor, s: Sys)
    requires TilePipelines.Inv(z, s) && s.sent == []
    ensures var previous := ImageAt(s, s.encoded);
            previous.Some? ==> WellFormed(previous.value) && Matches(z, s.hub, previous.value)
  {
    hide TileHubs.Inv;
    hide Matches;
    assert PublishAll(s.hub, []) == Some(s.hub);
    if s.reference.Some? {
      NotInTwoPlaces(s, s.reference.value);
    }
  }

  // ---- what a viewer that kept up is sent ----

  /** One of the frames is a keyframe, or brings the cell. */
  ghost predicate Brought(frames: seq<(TileFrame, bytes)>, c: Cell) {
    exists i :: 0 <= i < |frames| && (frames[i].0.reset || c in CellsOf(frames[i].0.tiles))
  }

  /** A snapshot after the hub's former revision holds exactly the cells that the frames since then have brought, or all of
      them if there was a keyframe. */
  lemma {:induction false} SentSince(h: Hub, frames: seq<(TileFrame, bytes)>, c: Cell)
    requires TileHubs.Inv(h) && PublishAll(h, frames).Some?
    ensures var h' := PublishAll(h, frames).value;
            && TileHubs.Inv(h') && h'.revision == h.revision + |frames|
            && (TileClients.Selected(h', h.revision, c) <==> c in h'.tiles && Brought(frames, c))
            && (h.revision < h'.resetAt <==> exists i :: 0 <= i < |frames| && frames[i].0.reset)
    decreases |frames|
  {
    hide TileHubs.Inv;
    hide Publishable;
    hide CellsOf;
    if frames == [] {
      NothingSince(h, c);
    } else {
      var n := |frames| - 1;
      SentSince(h, frames[..n], c);
      var before := PublishAll(h, frames[..n]).value;
      PublishKeepsInv(before, frames[n].0, frames[n].1);
      BroughtMore(frames, c);
      SentNext(h, before, frames[n].0, frames[n].1, c);
      hide Published;
      hide TileClients.Selected;
      hide Brought;
      assert frames == frames[..n] + [frames[n]];
    }
  }

  lemma NothingSince(h: Hub, c: Cell)
    requires TileHubs.Inv(h)
    ensures !TileClients.Selected(h, h.revision, c) && h.resetAt <= h.revision
  {
    if h.revision > 0 && c in h.tiles {
      assert ValidCached(h, c);
    }
  }

  lemma BroughtMore(frames: seq<(TileFrame, bytes)>, c: Cell)
    requires frames != []
    ensures var n := |frames| - 1;
            Brought(frames, c) <==> Brought(frames[..n], c) || frames[n].0.reset || c in CellsOf(frames[n].0.tiles)
  {
    hide CellsOf;
    assert forall i :: 0 <= i < |frames| - 1 ==> frames[..|frames| - 1][i] == frames[i];
  }

  lemma SentNext(h: Hub, before: Hub, f: TileFrame, data: bytes, c: Cell)
    requires TileHubs.Inv(before) && Publishable(before, f, data, false) && h.revision <= before.revision
    ensures var h' := Published(before, f, data);
            && h'.revision == before.revision + 1
            && (h.revision < h'.resetAt <==> f.reset || h.revision < before.resetAt)
            && (c in h'.tiles ==> f.reset || c in CellsOf(f.tiles) || c in before.tiles)
            && (c in h'.tiles ==>
                  (TileClients.Selected(h', h.revision, c) <==> f.reset || c in CellsOf(f.tiles) || TileClients.Selected(before, h.revision, c)))
  {
    hide TileHubs.Inv;
    hide Store;
    hide Retained;
    hide Split;
    hide ValidFrame;
    if c in CellsOf(f.tiles) {
      var t :| t in f.tiles && t.At() == c;
      var i :| 0 <= i < |f.tiles| && f.tiles[i] == t;
      assert ValidFrame(f, data);
      PublishedNew(before, f, data, i);
    } else {
      PublishedOld(before, f, data, c);
    }
  }
}
