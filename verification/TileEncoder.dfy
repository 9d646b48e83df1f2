/** Change detection of the tile encoder (internal/stream/tiles.go).  PNG and JPEG are an uninterpreted
  function of a tile's pixels and the quality. */
module TileEncoders {
  import opened Wrappers
  import opened Bytes
  import opened TileFrames
  import opened TileHubs

  /** RGBA pixels, row by row without padding. */
  datatype Image = Image(width: nat, height: nat, pix: bytes)

  predicate WellFormed(img: Image) {
    |img.pix| == img.width * img.height * 4
  }

  datatype EncodedTile = EncodedTile(mime: string, data: bytes)

  type Encoding = e: EncodedTile | |e.data| < 0x8000_0000_0000_0000 witness EncodedTile("", [])

  /** The pixels of a tile, row by row, and the quality, to its encoding or an error. */
  datatype Compressor = Compressor(run: (seq<bytes>, int) -> Option<Encoding>)

  function RowOffset(width: nat, x: nat, y: nat): nat {
    (y * width + x) * 4
  }

  lemma RowInside(width: nat, height: nat, x: nat, y: nat, n: nat)
    requires x + n <= width && y < height
    ensures RowOffset(width, x, y) + n * 4 <= width * height * 4
  {
    assert y * width + width == (y + 1) * width <= height * width;
  }

  /** n pixels of a row from x on. */
  function RowSlice(img: Image, x: nat, y: nat, n: nat): bytes
    requires WellFormed(img) && x + n <= img.width && y < img.height
  {
    RowInside(img.width, img.height, x, y, n);
    img.pix[RowOffset(img.width, x, y)..RowOffset(img.width, x, y) + n * 4]
  }

  predicate InImage(img: Image, c: Cell) {
    0 <= c.x < img.width && 0 <= c.y < img.height
  }

  function CellWidth(img: Image, c: Cell): int {
    Min(c.x + TILE_SIZE, img.width) - c.x
  }

  function CellHeight(img: Image, c: Cell): int {
    Min(c.y + TILE_SIZE, img.height) - c.y
  }

  function CellPixels(img: Image, c: Cell): seq<bytes>
    requires WellFormed(img) && InImage(img, c)
  {
    seq(CellHeight(img, c), r requires 0 <= r < CellHeight(img, c) => RowSlice(img, c.x, c.y + r, CellWidth(img, c)))
  }

  function RowCells(columns: nat, row: nat): (cells: seq<Cell>)
    ensures |cells| == columns
  {
    seq(columns, i => Cell(i * TILE_SIZE, row * TILE_SIZE))
  }

  /** The grid cells, row by row. */
  function CellList(columns: nat, rows: nat): seq<Cell> {
    if rows == 0 then [] else CellList(columns, rows - 1) + RowCells(columns, rows - 1)
  }

  predicate IsReset(previous: Option<Image>, img: Image, force: bool) {
    force || previous == None || previous.value.width != img.width || previous.value.height != img.height
  }

  predicate Changed(previous: Option<Image>, img: Image, force: bool, c: Cell)
    requires WellFormed(img) && (previous.Some? ==> WellFormed(previous.value)) && InImage(img, c)
  {
    IsReset(previous, img, force) || CellPixels(img, c) != CellPixels(previous.value, c)
  }

  ghost predicate AllInside(img: Image, cells: seq<Cell>) {
    forall c :: c in cells ==> InImage(img, c)
  }

  ghost function ChangedCells(previous: Option<Image>, img: Image, force: bool, cells: seq<Cell>): seq<Cell>
    requires WellFormed(img) && (previous.Some? ==> WellFormed(previous.value)) && AllInside(img, cells)
  {
    if cells == [] then []
    else
      var last := cells[|cells| - 1];
      ChangedCells(previous, img, force, cells[..|cells| - 1]) + if Changed(previous, img, force, last) then [last] else []
  }

  function PartFor(img: Image, c: Cell, e: Encoding): Part
    requires InImage(img, c) && img.width < 0x1_0000_0000 && img.height < 0x1_0000_0000
  {
    Part(Tile(c.x, c.y, CellWidth(img, c), CellHeight(img, c), |e.data|, e.mime), e.data)
  }

  predicate Encodable(img: Image) {
    WellFormed(img) && 1 <= img.width && 1 <= img.height && img.width * img.height <= MAX_PIXELS
  }

  lemma EncodableSides(img: Image)
    requires Encodable(img)
    ensures img.width <= MAX_PIXELS && img.height <= MAX_PIXELS
  {
    assert img.width * 1 <= img.width * img.height;
    assert 1 * img.height <= img.width * img.height;
  }

  /** Encode cells in order; the first failure fails the frame. */
  function EncodeCells(z: Compressor, img: Image, quality: int, cells: seq<Cell>): Option<seq<Part>>
    requires Encodable(img) && forall c :: c in cells ==> InImage(img, c)
  {
    if cells == [] then Some([])
    else
      EncodableSides(img);
      var last := cells[|cells| - 1];
      match EncodeCells(z, img, quality, cells[..|cells| - 1])
      case None => None
      case Some(parts) =>
        match z.run(CellPixels(img, last), quality)
        case None => None
        case Some(e) => Some(parts + [PartFor(img, last, e)])
  }

  lemma {:induction false} CellListInside(img: Image, columns: nat, rows: nat)
    requires columns <= Slots(img.width) && rows <= Slots(img.height)
    ensures AllInside(img, CellList(columns, rows))
    decreases rows
  {
    if rows > 0 {
      CellListInside(img, columns, rows - 1);
      forall c | c in RowCells(columns, rows - 1) ensures InImage(img, c) {
        var i :| 0 <= i < columns && RowCells(columns, rows - 1)[i] == c;
      }
    }
  }

  lemma {:induction false} CellListComplete(columns: nat, rows: nat, i: nat, j: nat)
    requires i < columns && j < rows
    ensures Cell(i * TILE_SIZE, j * TILE_SIZE) in CellList(columns, rows)
    decreases rows
  {
    if j < rows - 1 {
      CellListComplete(columns, rows - 1, i, j);
    } else {
      assert RowCells(columns, j)[i] == Cell(i * TILE_SIZE, j * TILE_SIZE);
    }
  }

  ghost function AllCells(img: Image): (cells: seq<Cell>)
    ensures AllInside(img, cells)
  {
    CellListInside(img, Slots(img.width), Slots(img.height));
    CellList(Slots(img.width), Slots(img.height))
  }

  /** The parts of the frame that Encode sends for img after previous, or None when encoding fails. */
  ghost function FrameParts(z: Compressor, previous: Option<Image>, img: Image, quality: int, force: bool): Option<seq<Part>>
    requires Encodable(img) && (previous.Some? ==> WellFormed(previous.value))
  {
    ChangedInside(previous, img, force, AllCells(img));
    EncodeCells(z, img, quality, ChangedCells(previous, img, force, AllCells(img)))
  }

  function FrameFor(previous: Option<Image>, img: Image, force: bool, parts: seq<Part>): TileFrame
    requires Encodable(img)
  {
    EncodableSides(img);
    TileFrame(img.width, img.height, 0, 0, IsReset(previous, img, force), Tiles(parts))
  }

  lemma {:induction false} ChangedInside(previous: Option<Image>, img: Image, force: bool, cells: seq<Cell>)
    requires WellFormed(img) && (previous.Some? ==> WellFormed(previous.value)) && AllInside(img, cells)
    ensures forall c :: c in ChangedCells(previous, img, force, cells) <==> c in cells && Changed(previous, img, force, c)
    decreases |cells|
  {
    hide Changed;
    if cells != [] {
      var init := cells[..|cells| - 1];
      ChangedInside(previous, img, force, init);
      assert cells == init + [cells[|cells| - 1]];
    }
  }

  /** A part of the frame comes from one of the encoded cells. */
  lemma {:induction false} EncodedPart(z: Compressor, img: Image, quality: int, cells: seq<Cell>, i: nat)
    requires Encodable(img) && (forall c :: c in cells ==> InImage(img, c)) && EncodeCells(z, img, quality, cells).Some?
    requires i < |cells|
    ensures var parts := EncodeCells(z, img, quality, cells).value;
            && |parts| == |cells| && parts[i].tile.At() == cells[i]
            && parts[i].tile.width == (if cells[i].x + 256 < img.width then 256 else img.width - cells[i].x)
            && parts[i].tile.height == (if cells[i].y + 256 < img.height then 256 else img.height - cells[i].y)
            && parts[i].tile.size == |parts[i].data|
            && z.run(CellPixels(img, cells[i]), quality) == Some(EncodedTile(parts[i].tile.mime, parts[i].data))
    decreases |cells|
  {
    hide CellPixels;
    EncodableSides(img);
    var n := |cells| - 1;
    EncodedCount(z, img, quality, cells);
    if i < n {
      EncodedPart(z, img, quality, cells[..n], i);
      assert cells[..n][i] == cells[i];
    }
    assert cells[n] in cells;
  }

  /** A frame fails exactly if one of its tiles cannot be encoded. */
  lemma {:induction false} EncodedExactly(z: Compressor, img: Image, quality: int, cells: seq<Cell>)
    requires Encodable(img) && forall c :: c in cells ==> InImage(img, c)
    ensures EncodeCells(z, img, quality, cells).Some? <==> forall c :: c in cells ==> z.run(CellPixels(img, c), quality).Some?
    decreases |cells|
  {
    hide CellPixels;
    if cells != [] {
      var n := |cells| - 1;
      assert cells == cells[..n] + [cells[n]];
      EncodedExactly(z, img, quality, cells[..n]);
    }
  }

  lemma {:induction false} EncodedCount(z: Compressor, img: Image, quality: int, cells: seq<Cell>)
    requires Encodable(img) && (forall c :: c in cells ==> InImage(img, c)) && EncodeCells(z, img, quality, cells).Some?
    ensures |EncodeCells(z, img, quality, cells).value| == |cells|
    decreases |cells|
  {
    hide CellPixels;
    if cells != [] {
      EncodedCount(z, img, quality, cells[..|cells| - 1]);
    }
  }

  // ---- what a hub shows ----

  ghost predicate Shows(z: Compressor, e: Cached, pixels: seq<bytes>) {
    exists quality :: z.run(pixels, quality) == Some(EncodedTile(e.tile.mime, e.data))
  }

  /** Every cell the hub caches encodes exactly the pixels of img in that cell. */
  ghost predicate Matches(z: Compressor, h: Hub, img: Image) {
    && WellFormed(img) && h.revision > 0 && h.frame.width == img.width && h.frame.height == img.height
    && forall c :: c in h.tiles ==> InImage(img, c) && Shows(z, h.tiles[c], CellPixels(img, c))
  }

  lemma GridCellListed(img: Image, c: Cell)
    requires c in Grid(img.width, img.height)
    ensures c in AllCells(img) && InImage(img, c)
  {
    var i, j :| 0 <= i < Slots(img.width) && 0 <= j < Slots(img.height) && c == Cell(i * TILE_SIZE, j * TILE_SIZE);
    CellListComplete(Slots(img.width), Slots(img.height), i, j);
  }

  /** An unchanged cell has the same pixels as before. */
  lemma UnchangedShown(z: Compressor, h: Hub, previous: Image, img: Image, force: bool, c: Cell)
    requires WellFormed(img) && Matches(z, h, previous) && c in h.tiles && InImage(img, c)
    requires !Changed(Some(previous), img, force, c)
    ensures Shows(z, h.tiles[c], CellPixels(img, c))
  {
  }

  /** A delta that is not sent because nothing changed leaves the hub up to date. */
  lemma IdleFrameMatches(z: Compressor, h: Hub, previous: Option<Image>, img: Image, quality: int, force: bool)
    requires Encodable(img) && Inv(h) && previous.Some? && Matches(z, h, previous.value)
    requires FrameParts(z, previous, img, quality, force) == Some([]) && !IsReset(previous, img, force)
    ensures Matches(z, h, img)
  {
    hide CellPixels;
    hide SumHeld;
    hide Shows;
    hide Grid;
    ChangedInside(previous, img, force, AllCells(img));
    var changed := ChangedCells(previous, img, force, AllCells(img));
    EncodedCount(z, img, quality, changed);
    assert changed == [];
    hide ValidCached;
    forall c | c in h.tiles ensures InImage(img, c) && Shows(z, h.tiles[c], CellPixels(img, c)) {
      GridCellListed(img, c);
      assert c !in changed;
      UnchangedShown(z, h, previous.value, img, force, c);
    }
  }

  /** Publishing what Encode sends brings the hub from the previous picture to the new one. */
  lemma EncodedFrameMatches(z: Compressor, h: Hub, previous: Option<Image>, img: Image, quality: int, force: bool,
                            f: TileFrame, parts: seq<Part>)
    requires Encodable(img) && Inv(h) && (previous.Some? ==> Matches(z, h, previous.value))
    requires FrameParts(z, previous, img, quality, force) == Some(parts)
    requires f.width == img.width && f.height == img.height && f.tiles == Tiles(parts)
    requires f.reset == IsReset(previous, img, force)
    requires Publishable(h, f, Payload(parts), false)
    ensures Matches(z, Published(h, f, Payload(parts)), img)
  {
    hide ValidFrame;
    hide CellPixels;
    hide SumHeld;
    hide ValidCached;
    hide Shows;
    hide Grid;
    hide Published;
    hide Retained;
    var h' := Published(h, f, Payload(parts));
    PublishedCells(h, f, Payload(parts));
    PublishedFrame(h, f, Payload(parts));
    forall c | c in h'.tiles ensures InImage(img, c) && Shows(z, h'.tiles[c], CellPixels(img, c)) {
      GridCellListed(img, c);
      EncodedCellMatches(z, h, previous, img, quality, force, f, parts, c);
    }
  }

  lemma PublishedFrame(h: Hub, f: TileFrame, data: bytes)
    ensures Published(h, f, data).frame == f.(tiles := []) && Published(h, f, data).revision == h.revision + 1
  {
  }

  lemma EncodedCellMatches(z: Compressor, h: Hub, previous: Option<Image>, img: Image, quality: int, force: bool,
                           f: TileFrame, parts: seq<Part>, c: Cell)
    requires Encodable(img) && (previous.Some? ==> Matches(z, h, previous.value))
    requires FrameParts(z, previous, img, quality, force) == Some(parts)
    requires f.tiles == Tiles(parts) && f.reset == IsReset(previous, img, force) && ValidFrame(f, Payload(parts))
    requires c in AllCells(img) && c in Published(h, f, Payload(parts)).tiles
    ensures Shows(z, Published(h, f, Payload(parts)).tiles[c], CellPixels(img, c))
  {
    hide ValidFrame;
    hide Published;
    hide CellPixels;
    hide EncodeCells;
    hide AllCells;
    hide Changed;
    ChangedInside(previous, img, force, AllCells(img));
    var changed := ChangedCells(previous, img, force, AllCells(img));
    EncodedCount(z, img, quality, changed);
    if c in changed {
      var i :| 0 <= i < |changed| && changed[i] == c;
      EncodedPart(z, img, quality, changed, i);
      PartsAreSplit(z, img, quality, changed, parts);
      PublishedNew(h, f, Payload(parts), i);
    } else {
      NotSent(z, img, quality, changed, parts, c);
      PublishedOld(h, f, Payload(parts), c);
      ResetChanges(previous, img, force, c);
      UnchangedShown(z, h, previous.value, img, force, c);
    }
  }

  lemma ResetChanges(previous: Option<Image>, img: Image, force: bool, c: Cell)
    requires WellFormed(img) && (previous.Some? ==> WellFormed(previous.value)) && InImage(img, c)
    ensures IsReset(previous, img, force) ==> Changed(previous, img, force, c)
  {
    hide CellPixels;
  }

  lemma PartsAreSplit(z: Compressor, img: Image, quality: int, cells: seq<Cell>, parts: seq<Part>)
    requires Encodable(img) && (forall c :: c in cells ==> InImage(img, c)) && EncodeCells(z, img, quality, cells) == Some(parts)
    ensures Sized(parts) && Split(Tiles(parts), Payload(parts)) == parts
  {
    hide EncodeCells;
    hide CellPixels;
    EncodedCount(z, img, quality, cells);
    forall i | 0 <= i < |parts| ensures parts[i].tile.size == |parts[i].data| {
      EncodedPart(z, img, quality, cells, i);
    }
    SplitPayload(parts);
  }

  lemma NotSent(z: Compressor, img: Image, quality: int, cells: seq<Cell>, parts: seq<Part>, c: Cell)
    requires Encodable(img) && (forall d :: d in cells ==> InImage(img, d)) && EncodeCells(z, img, quality, cells) == Some(parts)
    requires c !in cells
    ensures c !in CellsOf(Tiles(parts))
  {
    hide EncodeCells;
    hide CellPixels;
    EncodedCount(z, img, quality, cells);
    forall i | 0 <= i < |parts| ensures Tiles(parts)[i].At() != c {
      EncodedPart(z, img, quality, cells, i);
      assert cells[i] in cells;
    }
  }
}
