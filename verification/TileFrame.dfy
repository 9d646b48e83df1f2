/** Tile frames of internal/stream/tiles.go and their validation. */
module TileFrames {
  import opened Bytes

  const TILE_SIZE: int := 256
  const MAX_PIXELS: int := 3840 * 2160 * 4
  const MAX_SIDE: int := 16384
  const MAX_TILES: int := 1024

  /** Go's int. */
  type int64 = x: int | -0x8000_0000_0000_0000 <= x < 0x8000_0000_0000_0000

  function Wrap64(x: int): int64 {
    (x + 0x8000_0000_0000_0000) % 0x1_0000_0000_0000_0000 - 0x8000_0000_0000_0000
  }

  datatype Cell = Cell(x: int, y: int)

  datatype Tile = Tile(x: int64, y: int64, width: int64, height: int64, size: int64, mime: string) {
    function At(): Cell {
      Cell(x, y)
    }
  }

  datatype TileFrame = TileFrame(width: int64, height: int64, sourceWidth: int64, sourceHeight: int64,
                                 reset: bool, tiles: seq<Tile>)

  function TotalSize(tiles: seq<Tile>): int {
    if tiles == [] then 0 else TotalSize(tiles[..|tiles| - 1]) + tiles[|tiles| - 1].size
  }

  predicate ValidSides(f: TileFrame) {
    1 <= f.width <= MAX_SIDE && 1 <= f.height <= MAX_SIDE && f.width * f.height <= MAX_PIXELS
  }

  predicate ValidTile(f: TileFrame, t: Tile) {
    && 0 <= t.x && 0 <= t.y && 1 <= t.width && 1 <= t.height
    && Wrap64(t.x + t.width) <= f.width && Wrap64(t.y + t.height) <= f.height
    && 1 <= t.size && (t.mime == "image/png" || t.mime == "image/jpeg")
  }

  ghost predicate DistinctTiles(tiles: seq<Tile>) {
    forall i, j :: 0 <= i < j < |tiles| ==> tiles[i].At() != tiles[j].At()
  }

  /** What a receiver may rely on after validation. */
  ghost predicate ValidFrame(f: TileFrame, data: bytes) {
    && ValidSides(f)
    && |f.tiles| <= MAX_TILES
    && DistinctTiles(f.tiles)
    && (forall t :: t in f.tiles ==> ValidTile(f, t))
    && TotalSize(f.tiles) == |data|
  }

  /** TileFrame.Validate: accumulate the positions seen and the bytes claimed so far. */
  method Validate(f: TileFrame, data: bytes) returns (ok: bool)
    requires |data| < 0x8000_0000_0000_0000
    ensures ok <==> ValidFrame(f, data)
  {
    hide Wrap64;
    if f.width < 1 || f.height < 1 || f.width > MAX_SIDE || f.height > MAX_SIDE
       || f.width * f.height > MAX_PIXELS || |f.tiles| > MAX_TILES {
      return false;
    }
    hide ValidTile;
    var size := 0;
    var seen := {};
    for i := 0 to |f.tiles|
      invariant forall p :: p in seen <==> exists j :: 0 <= j < i && f.tiles[j].At() == p
      invariant forall j, k :: 0 <= j < k < i ==> f.tiles[j].At() != f.tiles[k].At()
      invariant forall j :: 0 <= j < i ==> ValidTile(f, f.tiles[j])
      invariant 0 <= size <= |data| && size == TotalSize(f.tiles[..i])
    {
      var t := f.tiles[i];
      if t.At() in seen {
        assert !DistinctTiles(f.tiles);
        return false;
      }
      seen := seen + {t.At()};
      assert f.tiles[..i + 1][..i] == f.tiles[..i];
      TileCheck(f, t);
      if t.x < 0 || t.y < 0 || t.width < 1 || t.height < 1 || Wrap64(t.x + t.width) > f.width
         || Wrap64(t.y + t.height) > f.height || t.size < 1 || t.size > |data| - size
         || (t.mime != "image/png" && t.mime != "image/jpeg") {
        if t.size > |data| - size {
          SizeOverrun(f, data, i);
        }
        assert t in f.tiles;
        return false;
      }
      size := size + t.size;
    }
    assert f.tiles[..|f.tiles|] == f.tiles;
    return size == |data|;
  }

  lemma TileCheck(f: TileFrame, t: Tile)
    ensures ValidTile(f, t) <==>
              !(t.x < 0 || t.y < 0 || t.width < 1 || t.height < 1 || Wrap64(t.x + t.width) > f.width
                || Wrap64(t.y + t.height) > f.height || t.size < 1
                || (t.mime != "image/png" && t.mime != "image/jpeg"))
  {
    hide Wrap64;
  }

  lemma SizeOverrun(f: TileFrame, data: bytes, i: nat)
    requires i < |f.tiles| && TotalSize(f.tiles[..i]) + f.tiles[i].size > |data|
    ensures !ValidFrame(f, data)
  {
    assert f.tiles[..i + 1][..i] == f.tiles[..i];
    if forall t :: t in f.tiles ==> ValidTile(f, t) {
      TotalSizeGrows(f.tiles, i + 1);
    }
  }

  lemma {:induction false} TotalSizeGrows(tiles: seq<Tile>, n: nat)
    requires n <= |tiles| && forall t :: t in tiles ==> t.size >= 0
    ensures 0 <= TotalSize(tiles[..n]) <= TotalSize(tiles)
    decreases |tiles|
  {
    if n < |tiles| {
      var init := tiles[..|tiles| - 1];
      TotalSizeGrows(init, n);
      assert init[..n] == tiles[..n];
    } else {
      assert tiles[..n] == tiles;
      if n > 0 {
        var init := tiles[..n - 1];
        TotalSizeGrows(init, n - 1);
        assert init[..n - 1] == init;
      }
    }
  }

  /** Validation keeps a tile inside its frame exactly when the sums it compares do not wrap. */
  lemma ValidatedTileInside(f: TileFrame, t: Tile)
    requires ValidSides(f) && ValidTile(f, t)
    ensures (t.x + t.width <= f.width && t.y + t.height <= f.height)
            <==> (t.x + t.width < 0x8000_0000_0000_0000 && t.y + t.height < 0x8000_0000_0000_0000)
  {
  }

  /** A frame whose validation succeeds although its tile lies far outside. */
  lemma WrappedTilePasses()
    ensures var f := TileFrame(256, 256, 0, 0, true, [Tile(0x7fff_ffff_ffff_ffff, 0, 1, 1, 1, "image/png")]);
            ValidFrame(f, [0]) && f.tiles[0].x > f.width
  {
    var t := Tile(0x7fff_ffff_ffff_ffff, 0, 1, 1, 1, "image/png");
    assert Wrap64(t.x + t.width) == -0x8000_0000_0000_0000;
    assert [t][..0] == [];
    assert TotalSize([t]) == 1;
  }

  // ---- the payload is the concatenation of the tiles' encodings ----

  datatype Part = Part(tile: Tile, data: bytes)

  function Tiles(parts: seq<Part>): (tiles: seq<Tile>)
    ensures |tiles| == |parts|
  {
    seq(|parts|, i requires 0 <= i < |parts| => parts[i].tile)
  }

  function Payload(parts: seq<Part>): bytes {
    if parts == [] then [] else parts[0].data + Payload(parts[1..])
  }

  /** Cut a payload at the sizes its tiles state. */
  function Split(tiles: seq<Tile>, data: bytes): (parts: seq<Part>)
    ensures |parts| == |tiles|
    ensures forall i :: 0 <= i < |tiles| ==> parts[i].tile == tiles[i]
  {
    if tiles == [] then []
    else
      var n := if 0 <= tiles[0].size <= |data| then tiles[0].size else |data|;
      [Part(tiles[0], data[..n])] + Split(tiles[1..], data[n..])
  }

  ghost predicate Sized(parts: seq<Part>) {
    forall p :: p in parts ==> p.tile.size == |p.data|
  }

  lemma {:induction false} SplitPayload(parts: seq<Part>)
    requires Sized(parts)
    ensures Split(Tiles(parts), Payload(parts)) == parts
  {
    if parts != [] {
      var first, rest := parts[0], parts[1..];
      SplitPayload(rest);
      assert Tiles(parts)[1..] == Tiles(rest);
      var all := first.data + Payload(rest);
      assert all[..|first.data|] == first.data && all[|first.data|..] == Payload(rest);
      assert first.tile.size == |first.data|;
      assert Split(Tiles(parts), all) == [Part(first.tile, first.data)] + rest;
    }
  }

  lemma {:induction false} PayloadSize(parts: seq<Part>)
    requires Sized(parts)
    ensures TotalSize(Tiles(parts)) == |Payload(parts)|
  {
    if parts != [] {
      PayloadSize(parts[1..]);
      assert Tiles(parts)[1..] == Tiles(parts[1..]);
      TotalSizeFirst(Tiles(parts));
    }
  }

  lemma {:induction false} TotalSizeFirst(tiles: seq<Tile>)
    requires tiles != []
    ensures TotalSize(tiles) == tiles[0].size + TotalSize(tiles[1..])
  {
    if |tiles| > 1 {
      TotalSizeFirst(tiles[..|tiles| - 1]);
      assert tiles[..|tiles| - 1][1..] == tiles[1..][..|tiles[1..]| - 1];
    }
  }

  lemma {:induction false} SplitSized(tiles: seq<Tile>, data: bytes)
    requires TotalSize(tiles) == |data| && forall t :: t in tiles ==> t.size >= 0
    ensures Sized(Split(tiles, data)) && Tiles(Split(tiles, data)) == tiles && Payload(Split(tiles, data)) == data
  {
    hide TotalSize;
    if tiles != [] {
      TotalSizeFirst(tiles);
      TotalSizeGrows(tiles[1..], |tiles[1..]|);
      assert tiles[1..][..|tiles[1..]|] == tiles[1..];
      SplitSized(tiles[1..], data[tiles[0].size..]);
    } else {
      EmptyTotal();
    }
  }

  lemma EmptyTotal()
    ensures TotalSize([]) == 0
  {
  }
}
