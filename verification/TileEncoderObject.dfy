/** The TileEncoder object of internal/stream/tiles.go, which compares each captured image with the one it
  retained from the call before. */
module TileEncoderObjects {
  import opened Wrappers
  import opened Bytes
  import opened TileFrames
  import opened TileHubs
  import opened TileEncoders

  class PixelBuffer {
    const width: nat
    const height: nat
    const pix: array<byte>

    ghost function View(): Image
      reads pix
    {
      Image(width, height, pix[..])
    }

    constructor (width: nat, height: nat)
      ensures this.width == width && this.height == height && WellFormed(View()) && fresh(pix)
    {
      this.width, this.height := width, height;
      pix := new byte[width * height * 4];
    }
  }

  lemma {:induction false} PayloadAppend(parts: seq<Part>, part: Part)
    ensures Payload(parts + [part]) == Payload(parts) + part.data
  {
    if parts == [] {
      assert [part][1..] == [];
    } else {
      PayloadAppend(parts[1..], part);
      assert (parts + [part])[1..] == parts[1..] + [part];
    }
  }

  class TileEncoder {
    var previous: PixelBuffer?

    ghost function Reference(): Option<Image>
      reads this, if previous != null then {previous.pix} else {}
    {
      if previous == null then None else Some(previous.View())
    }

    ghost predicate Valid()
      reads this, if previous != null then {previous.pix} else {}
    {
      previous != null ==> WellFormed(previous.View())
    }

    constructor ()
      ensures previous == null
    {
      previous := null;
    }

    /** Send the tiles whose pixels differ from the retained image, then retain this one. */
    method Encode(z: Compressor, img: PixelBuffer, quality: int, force: bool) returns (ok: bool, f: TileFrame, data: bytes)
      requires Valid() && WellFormed(img.View())
      modifies this
      ensures ok <==> Encodable(img.View()) && FrameParts(z, old(Reference()), img.View(), quality, force).Some?
      ensures ok ==> var parts := FrameParts(z, old(Reference()), img.View(), quality, force).value;
                     f == FrameFor(old(Reference()), img.View(), force, parts) && data == Payload(parts)
      ensures previous == if ok then img else old(previous)
    {
      f, data := NO_FRAME, [];
      if img.width < 1 || img.height < 1 || img.width * img.height > MAX_PIXELS {
        return false, f, data;
      }
      EncodableSides(img.View());
      var reset := force || previous == null || previous.width != img.width || previous.height != img.height;
      var rectangles := FindChanged(img, force, reset);
      var parts;
      ok, parts := EncodeAll(z, img, quality, rectangles);
      if !ok {
        return;
      }
      f := TileFrame(img.width, img.height, 0, 0, reset, []);
      for i := 0 to |parts|
        invariant f == TileFrame(img.width, img.height, 0, 0, reset, f.tiles)
        invariant |f.tiles| == i && forall j :: 0 <= j < i ==> f.tiles[j] == parts[j].tile
        invariant data == Payload(parts[..i])
      {
        assert parts[..i + 1] == parts[..i] + [parts[i]];
        PayloadAppend(parts[..i], parts[i]);
        f := f.(tiles := f.tiles + [parts[i].tile]);
        data := data + parts[i].data;
      }
      assert parts[..|parts|] == parts && f.tiles == Tiles(parts);
      previous := img;
    }

    /** Walk the grid row by row. */
    method FindChanged(img: PixelBuffer, force: bool, reset: bool) returns (rectangles: seq<Cell>)
      requires Valid() && Encodable(img.View()) && reset == IsReset(Reference(), img.View(), force)
      ensures rectangles == ChangedCells(Reference(), img.View(), force, AllCells(img.View()))
      ensures AllInside(img.View(), rectangles)
    {
      hide Changed;
      hide CellPixels;
      ghost var image, reference := img.View(), Reference();
      ghost var j := 0;
      ghost var walked: seq<Cell> := [];
      rectangles := [];
      var y := 0;
      while y < img.height
        invariant y == j * TILE_SIZE && j <= Slots(img.height)
        invariant walked == CellList(Slots(img.width), j) && AllInside(image, walked)
        invariant rectangles == ChangedCells(reference, image, force, walked)
        decreases img.height - y
      {
        rectangles, walked := ChangedInRow(img, force, reset, y, j, walked, rectangles);
        y := y + TILE_SIZE;
        j := j + 1;
      }
      ChangedInside(reference, image, force, walked);
    }

    method ChangedInRow(img: PixelBuffer, force: bool, reset: bool, y: nat, ghost j: nat, ghost above: seq<Cell>, found: seq<Cell>)
      returns (rectangles: seq<Cell>, ghost walked: seq<Cell>)
      requires Valid() && WellFormed(img.View()) && reset == IsReset(Reference(), img.View(), force)
      requires y == j * TILE_SIZE < img.height && AllInside(img.View(), above)
      requires found == ChangedCells(Reference(), img.View(), force, above)
      ensures walked == above + RowCells(Slots(img.width), j) && AllInside(img.View(), walked)
      ensures rectangles == ChangedCells(Reference(), img.View(), force, walked)
    {
      hide Changed;
      hide CellPixels;
      hide WellFormed;
      ghost var image, reference := img.View(), Reference();
      ghost var row := RowCells(Slots(img.width), j);
      ghost var i := 0;
      rectangles, walked := found, above;
      var x := 0;
      while x < img.width
        invariant x == i * TILE_SIZE && i <= |row|
        invariant walked == above + row[..i] && AllInside(image, walked)
        invariant rectangles == ChangedCells(reference, image, force, walked)
        decreases img.width - x
      {
        var c := Cell(x, y);
        var changed := reset;
        if !changed {
          changed := Differs(img, c);
        }
        ChangedMeans(reference, image, force, c);
        if changed {
          rectangles := rectangles + [c];
        }
        ghost var before := walked;
        assert row[i] == c;
        walked := walked + [c];
        assert walked[..|walked| - 1] == before;
        assert row[..i + 1] == row[..i] + [c];
        x := x + TILE_SIZE;
        i := i + 1;
      }
      assert row[..|row|] == row;
    }

    /** Compare the rows of one tile until one differs. */
    method Differs(img: PixelBuffer, c: Cell) returns (changed: bool)
      requires Valid() && previous != null && WellFormed(img.View()) && InImage(img.View(), c)
      requires previous.width == img.width && previous.height == img.height
      ensures changed <==> CellPixels(img.View(), c) != CellPixels(previous.View(), c)
    {
      hide RowSlice;
      hide CellPixels;
      hide WellFormed;
      ghost var image, reference := img.View(), previous.View();
      CellRows(image, c);
      CellRows(reference, c);
      var n := Min(c.x + TILE_SIZE, img.width) - c.x;
      var bottom := Min(c.y + TILE_SIZE, img.height);
      changed := false;
      var row := c.y;
      while !changed && row < bottom
        invariant c.y <= row <= bottom
        invariant changed ==> CellPixels(image, c) != CellPixels(reference, c)
        invariant !changed ==> forall r :: 0 <= r < row - c.y ==> CellPixels(image, c)[r] == CellPixels(reference, c)[r]
        decreases bottom - row, !changed
      {
        var same := SameRow(img, c.x, row, n);
        assert CellPixels(image, c)[row - c.y] == RowSlice(image, c.x, row, n);
        assert CellPixels(reference, c)[row - c.y] == RowSlice(reference, c.x, row, n);
        changed := !same;
        row := row + 1;
      }
    }

    method SameRow(img: PixelBuffer, x: nat, row: nat, n: nat) returns (same: bool)
      requires Valid() && previous != null && WellFormed(img.View()) && previous.width == img.width && previous.height == img.height
      requires x + n <= img.width && row < img.height
      ensures same <==> RowSlice(img.View(), x, row, n) == RowSlice(previous.View(), x, row, n)
    {
      RowInside(img.width, img.height, x, row, n);
      var at := RowOffset(img.width, x, row);
      hide RowOffset;
      assert img.pix[..][at..at + n * 4] == img.pix[at..at + n * 4];
      assert previous.pix[..][at..at + n * 4] == previous.pix[at..at + n * 4];
      same := img.pix[at..at + n * 4] == previous.pix[at..at + n * 4];
    }

    static method EncodeAll(z: Compressor, img: PixelBuffer, quality: int, cells: seq<Cell>) returns (ok: bool, parts: seq<Part>)
      requires Encodable(img.View()) && AllInside(img.View(), cells)
      ensures (if ok then Some(parts) else None) == EncodeCells(z, img.View(), quality, cells)
    {
      ghost var image := img.View();
      EncodableSides(image);
      hide CellPixels;
      ok, parts := true, [];
      for i := 0 to |cells|
        invariant (if ok then Some(parts) else None) == EncodeCells(z, image, quality, cells[..i])
      {
        assert cells[..i + 1][..i] == cells[..i];
        assert cells[i] in cells;
        if ok {
          var e := z.run(TilePixels(img, cells[i]), quality);
          ok := e.Some?;
          if ok {
            parts := parts + [PartOf(img, cells[i], e.value)];
          }
        }
      }
      assert cells[..|cells|] == cells;
    }

    static function TilePixels(img: PixelBuffer, c: Cell): (p: seq<bytes>)
      requires WellFormed(img.View()) && InImage(img.View(), c)
      reads img.pix
      ensures p == CellPixels(img.View(), c)
    {
      CellPixels(Image(img.width, img.height, img.pix[..]), c)
    }

    static function PartOf(img: PixelBuffer, c: Cell, e: Encoding): (p: Part)
      requires Encodable(img.View()) && InImage(img.View(), c)
      reads img.pix
      ensures img.width < 0x1_0000_0000 && img.height < 0x1_0000_0000 && p == PartFor(img.View(), c, e)
    {
      EncodableSides(img.View());
      PartFor(Image(img.width, img.height, img.pix[..]), c, e)
    }
  }

  lemma CellRows(img: Image, c: Cell)
    requires WellFormed(img) && InImage(img, c)
    ensures |CellPixels(img, c)| == CellHeight(img, c)
    ensures forall r :: 0 <= r < CellHeight(img, c) ==> CellPixels(img, c)[r] == RowSlice(img, c.x, c.y + r, CellWidth(img, c))
  {
    hide RowSlice;
  }

  lemma ChangedMeans(previous: Option<Image>, img: Image, force: bool, c: Cell)
    requires WellFormed(img) && (previous.Some? ==> WellFormed(previous.value)) && InImage(img, c)
    ensures Changed(previous, img, force, c) <==>
              IsReset(previous, img, force) || CellPixels(img, c) != CellPixels(previous.value, c)
  {
  }
}
