/** What the pixels of a tile are, byte by byte: PixOffset, SubImage and the comparison of internal/stream/tiles.go, and
  what a viewer draws from the tiles it holds. */
module TilePixels {
  import opened Wrappers
  import opened Bytes
  import opened TileFrames
  import opened TileHubs
  import opened TileEncoders

  /** The tile that covers a pixel. */
  function Over(x: nat, y: nat): Cell {
    Cell(x / TILE_SIZE * TILE_SIZE, y / TILE_SIZE * TILE_SIZE)
  }

  predicate Inside(img: Image, x: nat, y: nat, k: nat) {
    x < img.width && y < img.height && k < 4
  }

  /** Channel k of a pixel. */
  function ByteAt(img: Image, x: nat, y: nat, k: nat): byte
    requires WellFormed(img) && Inside(img, x, y, k)
  {
    ByteInside(img, x, y, k);
    img.pix[(y * img.width + x) * 4 + k]
  }

  lemma ByteInside(img: Image, x: nat, y: nat, k: nat)
    requires WellFormed(img) && Inside(img, x, y, k)
    ensures (y * img.width + x) * 4 + k < |img.pix|
  {
    assert y * img.width + img.width == (y + 1) * img.width <= img.height * img.width;
  }

  /** The rows of a tile are as many, and as long, as the tile reaches into the image. */
  lemma CellExtent(img: Image, c: Cell)
    requires WellFormed(img) && InImage(img, c)
    ensures |CellPixels(img, c)| == if c.y + 256 < img.height then 256 else img.height - c.y
    ensures forall r :: 0 <= r < |CellPixels(img, c)| ==>
              |CellPixels(img, c)[r]| == 4 * if c.x + 256 < img.width then 256 else img.width - c.x
  {
    forall r | 0 <= r < |CellPixels(img, c)| ensures |CellPixels(img, c)[r]| == 4 * CellWidth(img, c) {
      RowInside(img.width, img.height, c.x, c.y + r, CellWidth(img, c));
      assert CellPixels(img, c)[r] == RowSlice(img, c.x, c.y + r, CellWidth(img, c));
    }
    hide RowOffset;
  }

  lemma OverInside(img: Image, x: nat, y: nat, k: nat)
    requires Inside(img, x, y, k)
    ensures var c := Over(x, y);
            && InImage(img, c) && c in Grid(img.width, img.height)
            && c.x <= x < c.x + 256 && c.y <= y < c.y + 256
  {
    var i, j := x / TILE_SIZE, y / TILE_SIZE;
    assert 0 <= i < Slots(img.width) && 0 <= j < Slots(img.height);
    assert Over(x, y) == Cell(i * TILE_SIZE, j * TILE_SIZE);
  }

  /** A tile holds, at each of its places, the channel of the image's pixel at that place. */
  lemma CellByte(img: Image, x: nat, y: nat, k: nat)
    requires WellFormed(img) && Inside(img, x, y, k)
    ensures var c := Over(x, y);
            && InImage(img, c) && 0 <= y - c.y < |CellPixels(img, c)| && 0 <= (x - c.x) * 4 + k < |CellPixels(img, c)[y - c.y]|
            && CellPixels(img, c)[y - c.y][(x - c.x) * 4 + k] == ByteAt(img, x, y, k)
  {
    var c := Over(x, y);
    OverInside(img, x, y, k);
    CellExtent(img, c);
    ByteInside(img, x, y, k);
    RowInside(img.width, img.height, c.x, y, CellWidth(img, c));
    hide WellFormed;
    assert CellPixels(img, c)[y - c.y] == RowSlice(img, c.x, c.y + (y - c.y), CellWidth(img, c));
    assert RowOffset(img.width, c.x, y) + ((x - c.x) * 4 + k) == (y * img.width + x) * 4 + k;
  }

  /** Two images with the same pixels at the places of a tile have the same tile. */
  lemma SameCell(a: Image, b: Image, c: Cell)
    requires WellFormed(a) && WellFormed(b) && a.width == b.width && a.height == b.height && c in Grid(a.width, a.height)
    requires forall x: nat, y: nat, k: nat :: Inside(a, x, y, k) && Over(x, y) == c ==> ByteAt(a, x, y, k) == ByteAt(b, x, y, k)
    ensures InImage(a, c) && CellPixels(a, c) == CellPixels(b, c)
  {
    GridCellListed(a, c);
    CellExtent(a, c);
    CellExtent(b, c);
    hide CellPixels;
    hide WellFormed;
    hide ByteAt;
    forall r, i | 0 <= r < |CellPixels(a, c)| && 0 <= i < |CellPixels(a, c)[r]| ensures CellPixels(a, c)[r][i] == CellPixels(b, c)[r][i] {
      var x, y, k := c.x + i / 4, c.y + r, i % 4;
      OverOf(a, c, i / 4, r);
      assert Inside(a, x, y, k);
      CellByte(a, x, y, k);
      CellByte(b, x, y, k);
    }
    SameRows(CellPixels(a, c), CellPixels(b, c));
  }

  lemma SameRows(p: seq<bytes>, q: seq<bytes>)
    requires |p| == |q| && forall r :: 0 <= r < |p| ==> |p[r]| == |q[r]|
    requires forall r, i :: 0 <= r < |p| && 0 <= i < |p[r]| ==> p[r][i] == q[r][i]
    ensures p == q
  {
    forall r | 0 <= r < |p| ensures p[r] == q[r] {
    }
  }

  lemma OverOf(img: Image, c: Cell, dx: nat, dy: nat)
    requires c in Grid(img.width, img.height) && dx < 256 && dy < 256
    ensures c.x >= 0 && c.y >= 0 && Over(c.x + dx, c.y + dy) == c
  {
  }

  /** Encode sends a tile again exactly if it starts over or some channel of some pixel in the tile differs. */
  lemma {:induction false} ChangedExactly(previous: Option<Image>, img: Image, force: bool, c: Cell)
    requires WellFormed(img) && (previous.Some? ==> WellFormed(previous.value)) && c in Grid(img.width, img.height)
    ensures InImage(img, c)
    ensures Changed(previous, img, force, c) <==>
              || force || previous == None || previous.value.width != img.width || previous.value.height != img.height
              || exists x: nat, y: nat, k: nat ::
                   Inside(img, x, y, k) && Over(x, y) == c && ByteAt(img, x, y, k) != ByteAt(previous.value, x, y, k)
  {
    GridCellListed(img, c);
    if !force && previous.Some? && previous.value.width == img.width && previous.value.height == img.height {
      var was := previous.value;
      if CellPixels(img, c) == CellPixels(was, c) {
        forall x: nat, y: nat, k: nat | Inside(img, x, y, k) && Over(x, y) == c ensures ByteAt(img, x, y, k) == ByteAt(was, x, y, k) {
          CellByte(img, x, y, k);
          CellByte(was, x, y, k);
        }
      } else {
        if forall x: nat, y: nat, k: nat :: Inside(img, x, y, k) && Over(x, y) == c ==> ByteAt(img, x, y, k) == ByteAt(was, x, y, k) {
          SameCell(img, was, c);
        }
      }
    }
    hide CellPixels;
    hide WellFormed;
    hide ByteAt;
    hide Over;
    hide Grid;
  }

  /** The tiles of the grid determine the picture. */
  lemma {:induction false} CellsDetermine(a: Image, b: Image)
    requires WellFormed(a) && WellFormed(b) && a.width == b.width && a.height == b.height
    requires forall c :: c in Grid(a.width, a.height) && InImage(a, c) ==> CellPixels(a, c) == CellPixels(b, c)
    ensures a == b
  {
    hide CellPixels;
    hide Grid;
    forall i | 0 <= i < |a.pix| ensures a.pix[i] == b.pix[i] {
      var x, y, k := Place(a, i);
      OverInside(a, x, y, k);
      CellByte(a, x, y, k);
      CellByte(b, x, y, k);
    }
  }

  /** Every byte of an image is a channel of a pixel. */
  lemma Place(img: Image, i: nat) returns (x: nat, y: nat, k: nat)
    requires WellFormed(img) && i < |img.pix|
    ensures Inside(img, x, y, k) && (y * img.width + x) * 4 + k == i
  {
    assert img.width == 0 ==> img.width * img.height * 4 == 0;
    x, y, k := i / 4 % img.width, i / 4 / img.width, i % 4;
    assert y * img.width + x == i / 4 < img.width * img.height;
    assert y >= img.height ==> y * img.width >= img.height * img.width;
  }

  // ---- what is drawn ----

  /** The tile's media type and data, drawn as rows of pixels. */
  type Decoder = EncodedTile -> seq<bytes>

  /** Drawing what was encoded gives as many pixels, each channel close to the original. */
  ghost predicate Draws(z: Compressor, d: Decoder, close: (byte, byte) -> bool) {
    forall p, quality :: z.run(p, quality).Some? ==>
      var q := d(z.run(p, quality).value);
      && |q| == |p| && (forall r :: 0 <= r < |p| ==> |q[r]| == |p[r]|)
      && (forall r, i :: 0 <= r < |p| && 0 <= i < |p[r]| ==> close(p[r][i], q[r][i]))
  }

  /** What a hub shows at a channel of a pixel: the byte in the tile over it, at the pixel's place in the tile. */
  ghost predicate DrawnAt(d: Decoder, h: Hub, x: nat, y: nat, k: nat, b: byte) {
    var c := Over(x, y);
    && c in h.tiles
    && (var q := d(EncodedTile(h.tiles[c].tile.mime, h.tiles[c].data));
        && 0 <= y - c.y < |q| && 0 <= (x - c.x) * 4 + k < |q[y - c.y]| && q[y - c.y][(x - c.x) * 4 + k] == b)
  }

  /** A hub that matches an image shows every channel of every pixel of it, as closely as the codec does. */
  lemma {:induction false} MatchDraws(z: Compressor, d: Decoder, close: (byte, byte) -> bool, h: Hub, img: Image, x: nat, y: nat, k: nat)
    requires Draws(z, d, close) && Matches(z, h, img) && h.tiles.Keys == Grid(img.width, img.height) && Inside(img, x, y, k)
    ensures exists b :: DrawnAt(d, h, x, y, k, b) && close(ByteAt(img, x, y, k), b)
  {
    var c := Over(x, y);
    OverInside(img, x, y, k);
    CellByte(img, x, y, k);
    hide CellPixels;
    hide ByteAt;
    hide Grid;
    var e := h.tiles[c];
    var quality :| z.run(CellPixels(img, c), quality) == Some(EncodedTile(e.tile.mime, e.data));
    var p := CellPixels(img, c);
    var q := d(z.run(p, quality).value);
    assert |q| == |p| && |q[y - c.y]| == |p[y - c.y]|;
    assert DrawnAt(d, h, x, y, k, q[y - c.y][(x - c.x) * 4 + k]);
  }
}
