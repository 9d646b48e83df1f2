/** The viewer's tile cache (internal/viewerapp/tiles.go) and a client that reads it at its own pace.

  Revisions are natural numbers: a hub would have to publish 2^64 frames before its counter wraps. */
module TileHubs {
  import opened Wrappers
  import opened Bytes
  import opened Sets
  import opened TileFrames

  const MAX_CACHE_SIZE: int := 0x200_0000

  datatype Cached = Cached(tile: Tile, data: bytes, revision: nat)

  datatype Hub = Hub(frame: TileFrame, tiles: map<Cell, Cached>, revision: nat, resetAt: nat, bytes: int)

  const NO_FRAME := TileFrame(0, 0, 0, 0, false, [])
  const EMPTY_HUB := Hub(NO_FRAME, map[], 0, 0, 0)

  // ---- publish ----

  function Min(a: int, b: int): int {
    if a < b then a else b
  }

  function Slots(side: int): int {
    (side + TILE_SIZE - 1) / TILE_SIZE
  }

  /** A tile of the 256-pixel grid of its frame. */
  predicate OnGrid(f: TileFrame, t: Tile) {
    && t.x % TILE_SIZE == 0 && t.y % TILE_SIZE == 0
    && t.width == Min(TILE_SIZE, f.width - t.x) && t.height == Min(TILE_SIZE, f.height - t.y)
  }

  predicate GridFrame(f: TileFrame) {
    && (forall t :: t in f.tiles ==> OnGrid(f, t))
    && (f.reset ==> |f.tiles| == Slots(f.width) * Slots(f.height))
  }

  /** Bytes cached for a cell. */
  function Held(tiles: map<Cell, Cached>, c: Cell): nat {
    if c in tiles then |tiles[c].data| else 0
  }

  /** The byte counter after the first tiles of a frame. */
  function Retained(h: Hub, f: TileFrame, n: nat): int
    requires n <= |f.tiles|
  {
    if n == 0 then if f.reset then 0 else h.bytes
    else Retained(h, f, n - 1) + f.tiles[n - 1].size - if f.reset then 0 else Held(h.tiles, f.tiles[n - 1].At())
  }

  /** Overwrite cells with new encodings. */
  function Store(tiles: map<Cell, Cached>, parts: seq<Part>, revision: nat): map<Cell, Cached> {
    if parts == [] then tiles
    else
      var last := parts[|parts| - 1];
      Store(tiles, parts[..|parts| - 1], revision)[last.tile.At() := Cached(last.tile, last.data, revision)]
  }

  ghost predicate Publishable(h: Hub, f: TileFrame, data: bytes, legacy: bool) {
    && ValidFrame(f, data)
    && (legacy || GridFrame(f))
    && (f.reset || (h.revision > 0 && f.width == h.frame.width && f.height == h.frame.height))
    && Retained(h, f, |f.tiles|) <= MAX_CACHE_SIZE
  }

  function Published(h: Hub, f: TileFrame, data: bytes): Hub {
    var revision := h.revision + 1;
    Hub(f.(tiles := []), Store(if f.reset then map[] else h.tiles, Split(f.tiles, data), revision),
        revision, if f.reset then revision else h.resetAt, Retained(h, f, |f.tiles|))
  }

  // ---- the state of a hub that only saw grid frames ----

  function Grid(width: int, height: int): set<Cell> {
    Block(Slots(width), Slots(height))
  }

  function Block(columns: int, rows: int): set<Cell> {
    set i, j | 0 <= i < columns && 0 <= j < rows :: Cell(i * TILE_SIZE, j * TILE_SIZE)
  }

  function CellsOf(tiles: seq<Tile>): set<Cell> {
    set t | t in tiles :: t.At()
  }

  /** Bytes cached for a set of cells. */
  ghost function SumHeld(tiles: map<Cell, Cached>, cells: set<Cell>): nat {
    if cells == {} then 0
    else
      var c :| c in cells;
      Held(tiles, c) + SumHeld(tiles, cells - {c})
  }

  ghost predicate ValidCached(h: Hub, c: Cell)
    requires c in h.tiles
  {
    var e := h.tiles[c];
    && e.tile.At() == c && OnGrid(h.frame, e.tile) && ValidTile(h.frame, e.tile)
    && |e.data| == e.tile.size && h.resetAt <= e.revision <= h.revision && 1 <= e.revision
  }

  ghost predicate Inv(h: Hub) {
    && h.resetAt <= h.revision && h.frame.tiles == []
    && (h.revision == 0 ==> h.tiles == map[] && h.bytes == 0)
    && (h.revision > 0 ==>
          && 1 <= h.resetAt && ValidSides(h.frame) && |h.tiles| <= MAX_TILES
          && h.tiles.Keys == Grid(h.frame.width, h.frame.height)
          && (forall c :: c in h.tiles ==> ValidCached(h, c)))
    && h.bytes == SumHeld(h.tiles, h.tiles.Keys)
    && h.bytes <= MAX_CACHE_SIZE
  }

  lemma {:induction false} SumHeldSplit(tiles: map<Cell, Cached>, cells: set<Cell>, c: Cell)
    requires c in cells
    ensures SumHeld(tiles, cells) == Held(tiles, c) + SumHeld(tiles, cells - {c})
    decreases |cells|
  {
    var d :| d in cells && SumHeld(tiles, cells) == Held(tiles, d) + SumHeld(tiles, cells - {d});
    if d != c {
      SumHeldSplit(tiles, cells - {d}, c);
      SumHeldSplit(tiles, cells - {c}, d);
      assert cells - {d} - {c} == cells - {c} - {d};
    }
  }

  lemma {:induction false} SumHeldSame(a: map<Cell, Cached>, b: map<Cell, Cached>, cells: set<Cell>)
    requires forall c :: c in cells ==> Held(a, c) == Held(b, c)
    ensures SumHeld(a, cells) == SumHeld(b, cells)
    decreases |cells|
  {
    if cells != {} {
      var c :| c in cells;
      SumHeldSplit(a, cells, c);
      SumHeldSplit(b, cells, c);
      SumHeldSame(a, b, cells - {c});
    }
  }

  /** Replacing one cell changes the sum by the difference of the two encodings. */
  lemma SumHeldUpdate(tiles: map<Cell, Cached>, c: Cell, e: Cached)
    ensures SumHeld(tiles[c := e], tiles[c := e].Keys) == SumHeld(tiles, tiles.Keys) - Held(tiles, c) + |e.data|
  {
    var tiles' := tiles[c := e];
    assert tiles'.Keys == tiles.Keys + {c};
    SumHeldSplit(tiles', tiles'.Keys, c);
    assert tiles'.Keys - {c} == tiles.Keys - {c};
    SumHeldSame(tiles', tiles, tiles.Keys - {c});
    if c in tiles {
      SumHeldSplit(tiles, tiles.Keys, c);
    } else {
      assert tiles.Keys - {c} == tiles.Keys;
    }
  }

  lemma CellsOfLast(tiles: seq<Tile>)
    requires tiles != []
    ensures CellsOf(tiles) == CellsOf(tiles[..|tiles| - 1]) + {tiles[|tiles| - 1].At()}
    ensures DistinctTiles(tiles) ==> DistinctTiles(tiles[..|tiles| - 1]) && tiles[|tiles| - 1].At() !in CellsOf(tiles[..|tiles| - 1])
  {
    var n := |tiles| - 1;
    assert tiles == tiles[..n] + [tiles[n]];
    if DistinctTiles(tiles) {
      forall t | t in tiles[..n] ensures t.At() != tiles[n].At() {
        var i :| 0 <= i < n && tiles[i] == t;
      }
    }
  }

  lemma {:induction false} StoreKeys(tiles: map<Cell, Cached>, parts: seq<Part>, revision: nat)
    ensures Store(tiles, parts, revision).Keys == tiles.Keys + CellsOf(Tiles(parts))
    decreases |parts|
  {
    if parts != [] {
      var init := parts[..|parts| - 1];
      assert Tiles(init) == Tiles(parts)[..|parts| - 1];
      CellsOfLast(Tiles(parts));
      StoreKeys(tiles, init, revision);
      hide CellsOf;
    }
  }

  /** A part of the frame is cached under its own cell. */
  lemma {:induction false} StoreNew(tiles: map<Cell, Cached>, parts: seq<Part>, revision: nat, i: nat)
    requires i < |parts| && DistinctTiles(Tiles(parts))
    ensures var s := Store(tiles, parts, revision);
            parts[i].tile.At() in s && s[parts[i].tile.At()] == Cached(parts[i].tile, parts[i].data, revision)
    decreases |parts|
  {
    var n := |parts| - 1;
    if i < n {
      var init := parts[..n];
      assert Tiles(init) == Tiles(parts)[..n];
      assert Tiles(parts)[i].At() != Tiles(parts)[n].At();
      DistinctTilesPrefix(Tiles(parts), n);
      StoreNew(tiles, init, revision, i);
      hide DistinctTiles;
      assert init[i] == parts[i];
    }
  }

  /** Other cells keep what they held. */
  lemma {:induction false} StoreOld(tiles: map<Cell, Cached>, parts: seq<Part>, revision: nat, c: Cell)
    requires c !in CellsOf(Tiles(parts))
    ensures c in Store(tiles, parts, revision) <==> c in tiles
    ensures c in tiles ==> Store(tiles, parts, revision)[c] == tiles[c]
    decreases |parts|
  {
    if parts != [] {
      var init := parts[..|parts| - 1];
      assert Tiles(init) == Tiles(parts)[..|parts| - 1];
      CellsOfLast(Tiles(parts));
      StoreOld(tiles, init, revision, c);
      hide CellsOf;
    }
  }

  /** The counter that publish keeps is the number of bytes it caches. */
  lemma {:induction false} RetainedIsSum(h: Hub, f: TileFrame, parts: seq<Part>, n: nat)
    requires h.bytes == SumHeld(h.tiles, h.tiles.Keys)
    requires Tiles(parts) == f.tiles && Sized(parts) && DistinctTiles(f.tiles) && n <= |parts|
    ensures var s := Store(if f.reset then map[] else h.tiles, parts[..n], h.revision + 1);
            Retained(h, f, n) == SumHeld(s, s.Keys)
  {
    var before := if f.reset then map[] else h.tiles;
    if n > 0 {
      RetainedIsSum(h, f, parts, n - 1);
      var part := parts[n - 1];
      assert part in parts && part.tile == f.tiles[n - 1];
      assert parts[..n][..n - 1] == parts[..n - 1];
      var s := Store(before, parts[..n - 1], h.revision + 1);
      SumHeldUpdate(s, part.tile.At(), Cached(part.tile, part.data, h.revision + 1));
      assert Tiles(parts[..n - 1]) == f.tiles[..n - 1];
      DistinctTilesPrefix(f.tiles, n - 1);
      assert f.tiles[..n][..n - 1] == f.tiles[..n - 1];
      DistinctTilesPrefix(f.tiles, n);
      CellsOfLast(f.tiles[..n]);
      StoreOld(before, parts[..n - 1], h.revision + 1, part.tile.At());
      hide CellsOf;
      hide DistinctTiles;
      assert Held(s, part.tile.At()) == Held(before, part.tile.At());
    }
  }

  lemma DistinctTilesPrefix(tiles: seq<Tile>, n: nat)
    requires DistinctTiles(tiles) && n <= |tiles|
    ensures DistinctTiles(tiles[..n])
  {
  }

  // ---- a complete keyframe covers the grid ----

  lemma OnGridInGrid(f: TileFrame, t: Tile)
    requires ValidSides(f) && ValidTile(f, t) && OnGrid(f, t)
    ensures t.At() in Grid(f.width, f.height)
    ensures t.x < f.width && t.y < f.height
  {
    hide ValidTile;
    assert t.width >= 1 && t.height >= 1 && t.x >= 0 && t.y >= 0 by { PositiveTile(f, t); }
    var i, j := t.x / TILE_SIZE, t.y / TILE_SIZE;
    assert t.At() == Cell(i * TILE_SIZE, j * TILE_SIZE);
  }

  lemma PositiveTile(f: TileFrame, t: Tile)
    requires ValidTile(f, t)
    ensures t.width >= 1 && t.height >= 1 && t.x >= 0 && t.y >= 0 && t.size >= 1
  {
    hide Wrap64;
  }

  lemma {:induction false} BlockSize(columns: nat, rows: nat)
    ensures |Block(columns, rows)| == columns * rows
    decreases columns
  {
    if columns == 0 {
      assert Block(0, rows) == {};
    } else {
      BlockSize(columns - 1, rows);
      var x := (columns - 1) * TILE_SIZE;
      var column := set j | 0 <= j < rows :: Cell(x, j * TILE_SIZE);
      ColumnSize(x, rows);
      assert Block(columns, rows) == Block(columns - 1, rows) + column;
      assert Block(columns - 1, rows) !! column;
      assert (columns - 1) * rows + rows == columns * rows;
    }
  }

  lemma {:induction false} ColumnSize(x: int, rows: nat)
    ensures |set j | 0 <= j < rows :: Cell(x, j * TILE_SIZE)| == rows
  {
    var column := set j | 0 <= j < rows :: Cell(x, j * TILE_SIZE);
    if rows == 0 {
      assert column == {};
    } else {
      ColumnSize(x, rows - 1);
      assert column == (set j | 0 <= j < rows - 1 :: Cell(x, j * TILE_SIZE)) + {Cell(x, (rows - 1) * TILE_SIZE)};
    }
  }

  lemma {:induction false} DistinctCount(tiles: seq<Tile>)
    requires DistinctTiles(tiles)
    ensures |CellsOf(tiles)| == |tiles|
    decreases |tiles|
  {
    if tiles != [] {
      CellsOfLast(tiles);
      DistinctCount(tiles[..|tiles| - 1]);
      hide CellsOf;
    }
  }

  lemma SubsetOfEqualSize<T>(a: set<T>, b: set<T>)
    requires a <= b && |a| == |b|
    ensures a == b
  {
    if a != b {
      var x :| x in b && x !in a;
      assert a <= b - {x};
      SubsetSize(a, b - {x});
    }
  }

  lemma TilesInGrid(f: TileFrame)
    requires ValidSides(f) && forall t :: t in f.tiles ==> ValidTile(f, t) && OnGrid(f, t)
    ensures CellsOf(f.tiles) <= Grid(f.width, f.height)
  {
    forall t | t in f.tiles ensures t.At() in Grid(f.width, f.height) {
      OnGridInGrid(f, t);
    }
  }

  /** The pigeonhole: aligned, distinct tiles of the right number are the whole grid. */
  lemma KeyframeCoversGrid(f: TileFrame, data: bytes)
    requires ValidFrame(f, data) && GridFrame(f) && f.reset
    ensures CellsOf(f.tiles) == Grid(f.width, f.height)
    ensures |Grid(f.width, f.height)| <= MAX_TILES
  {
    TilesInGrid(f);
    DistinctCount(f.tiles);
    BlockSize(Slots(f.width), Slots(f.height));
    SubsetOfEqualSize(CellsOf(f.tiles), Grid(f.width, f.height));
  }

  lemma SplitTiles(tiles: seq<Tile>, data: bytes)
    ensures Tiles(Split(tiles, data)) == tiles
  {
  }

  lemma PublishedCells(h: Hub, f: TileFrame, data: bytes)
    requires Inv(h) && Publishable(h, f, data, false)
    ensures Published(h, f, data).tiles.Keys == Grid(f.width, f.height)
    ensures |Published(h, f, data).tiles.Keys| <= MAX_TILES
  {
    hide ValidSides;
    hide ValidCached;
    hide DistinctTiles;
    hide Slots;
    hide OnGrid;
    hide ValidTile;
    hide SumHeld;
    hide CellsOf;
    hide Grid;
    PublishedKeys(h, f, data);
    hide Published;
    hide Retained;
    if f.reset {
      KeyframeCoversGrid(f, data);
    } else {
      TilesInGrid(f);
      assert |h.tiles| == |h.tiles.Keys|;
    }
  }

  lemma PublishedKeys(h: Hub, f: TileFrame, data: bytes)
    ensures Published(h, f, data).tiles.Keys == (if f.reset then {} else h.tiles.Keys) + CellsOf(f.tiles)
    ensures f.reset ==> Published(h, f, data).tiles.Keys == CellsOf(f.tiles)
    ensures !f.reset && CellsOf(f.tiles) <= h.tiles.Keys ==> Published(h, f, data).tiles.Keys == h.tiles.Keys
  {
    hide CellsOf;
    hide Store;
    hide Retained;
    SplitTiles(f.tiles, data);
    StoreKeys(if f.reset then map[] else h.tiles, Split(f.tiles, data), h.revision + 1);
  }

  /** A cell of the frame holds what the frame brought. */
  lemma PublishedNew(h: Hub, f: TileFrame, data: bytes, i: nat)
    requires ValidFrame(f, data) && i < |f.tiles|
    ensures var part := Split(f.tiles, data)[i];
            var c := part.tile.At();
            && part.tile == f.tiles[i] && |part.data| == part.tile.size
            && c in Published(h, f, data).tiles
            && Published(h, f, data).tiles[c] == Cached(part.tile, part.data, h.revision + 1)
  {
    hide Store;
    hide Retained;
    hide ValidTile;
    hide ValidSides;
    var parts := Split(f.tiles, data);
    SplitTiles(f.tiles, data);
    PartsSized(f, data);
    assert parts[i] in parts;
    hide Split;
    hide Sized;
    StoreNew(if f.reset then map[] else h.tiles, parts, h.revision + 1, i);
  }

  /** In a delta every other cell holds what it held before; a keyframe has no other cells. */
  lemma PublishedOld(h: Hub, f: TileFrame, data: bytes, c: Cell)
    requires c !in CellsOf(f.tiles)
    ensures c in Published(h, f, data).tiles <==> !f.reset && c in h.tiles
    ensures !f.reset && c in h.tiles ==> Published(h, f, data).tiles[c] == h.tiles[c]
  {
    hide Store;
    hide Retained;
    SplitTiles(f.tiles, data);
    StoreOld(if f.reset then map[] else h.tiles, Split(f.tiles, data), h.revision + 1, c);
  }

  lemma PublishedEntry(h: Hub, f: TileFrame, data: bytes, c: Cell)
    requires Inv(h) && Publishable(h, f, data, false) && c in Published(h, f, data).tiles
    ensures ValidCached(Published(h, f, data), c)
  {
    hide ValidSides;
    hide SumHeld;
    hide Grid;
    hide Store;
    hide Split;
    hide Retained;
    hide ValidTile;
    hide OnGrid;
    if c in CellsOf(f.tiles) {
      var t :| t in f.tiles && t.At() == c;
      var i :| 0 <= i < |f.tiles| && f.tiles[i] == t;
      PublishedNew(h, f, data, i);
      SameSides(f, f, t);
    } else {
      PublishedOld(h, f, data, c);
      assert ValidCached(h, c);
      SameSides(h.frame, f, h.tiles[c].tile);
    }
  }

  lemma SameValidSides(f: TileFrame)
    ensures ValidSides(f.(tiles := [])) == ValidSides(f)
  {
  }

  lemma PublishedEntries(h: Hub, f: TileFrame, data: bytes)
    requires Inv(h) && Publishable(h, f, data, false)
    ensures forall c :: c in Published(h, f, data).tiles ==> ValidCached(Published(h, f, data), c)
  {
    hide *;
    forall c | c in Published(h, f, data).tiles ensures ValidCached(Published(h, f, data), c) {
      PublishedEntry(h, f, data, c);
    }
  }

  lemma PartsSized(f: TileFrame, data: bytes)
    requires ValidFrame(f, data)
    ensures Sized(Split(f.tiles, data))
  {
    forall t | t in f.tiles ensures t.size >= 0 {
      PositiveTile(f, t);
    }
    SplitSized(f.tiles, data);
  }

  /** publish keeps the hub's keys equal to the grid, its counter equal to the bytes it caches and at
      most 32 MiB, and every cached tile valid. */
  lemma PublishKeepsInv(h: Hub, f: TileFrame, data: bytes)
    requires Inv(h) && Publishable(h, f, data, false)
    ensures Inv(Published(h, f, data))
  {
    hide ValidCached;
    hide Store;
    hide Retained;
    hide Grid;
    hide ValidSides;
    hide Slots;
    hide OnGrid;
    hide ValidTile;
    hide SumHeld;
    hide Split;
    var h' := Published(h, f, data);
    var parts := Split(f.tiles, data);
    PublishedCells(h, f, data);
    PartsSized(f, data);
    SplitTiles(f.tiles, data);
    RetainedIsSum(h, f, parts, |f.tiles|);
    assert parts[..|f.tiles|] == parts;
    PublishedEntries(h, f, data);
    SameValidSides(f);
    assert |h'.tiles| == |h'.tiles.Keys|;
  }

  lemma SameSides(f: TileFrame, g: TileFrame, t: Tile)
    requires f.width == g.width && f.height == g.height
    ensures ValidTile(f, t) == ValidTile(g, t) && OnGrid(f, t) == OnGrid(g, t)
    ensures ValidTile(g.(tiles := []), t) == ValidTile(g, t) && OnGrid(g.(tiles := []), t) == OnGrid(g, t)
  {
  }
}
