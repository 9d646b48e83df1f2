/** The tileHub object of internal/viewerapp/tiles.go. */
module TileCaches {
  import opened Bytes
  import opened TileFrames
  import opened TileHubs
  import opened TileClients

  class TileHub {
    var frame: TileFrame
    var tiles: map<Cell, Cached>
    var revision: nat
    var resetAt: nat
    var bytesHeld: int

    ghost function View(): Hub
      reads this
    {
      Hub(frame, tiles, revision, resetAt, bytesHeld)
    }

    ghost predicate Valid()
      reads this
    {
      forall c :: c in tiles ==> tiles[c].tile.At() == c
    }

    constructor ()
      ensures View() == EMPTY_HUB && Valid()
    {
      frame, tiles, revision, resetAt, bytesHeld := NO_FRAME, map[], 0, 0, 0;
    }

    /** Check a frame, count what the cache would hold, and only then change the cache. */
    method Publish(f: TileFrame, data: bytes, legacy: bool) returns (ok: bool)
      requires Valid() && |data| < 0x8000_0000_0000_0000
      modifies this
      ensures Valid()
      ensures ok <==> Publishable(old(View()), f, data, legacy)
      ensures View() == if ok then Published(old(View()), f, data) else old(View())
    {
      hide ValidFrame;
      hide Split;
      hide Retained;
      hide Store;
      hide Payload;
      hide Sized;
      var valid := Validate(f, data);
      if !valid {
        return false;
      }
      if !legacy {
        var grid := CheckGrid(f);
        if !grid {
          return false;
        }
      }
      if !f.reset && (revision == 0 || f.width != frame.width || f.height != frame.height) {
        return false;
      }
      var retained := Count(f);
      if retained > MAX_CACHE_SIZE {
        return false;
      }
      bytesHeld := retained;
      revision := revision + 1;
      if f.reset {
        tiles := map[];
        resetAt := revision;
      }
      frame := f.(tiles := []);
      ghost var parts := Split(f.tiles, data);
      PartsSized(f, data);
      SplitTiles(f.tiles, data);
      SplitPayloadOf(f, data);
      StoreTiles(f.tiles, data, parts);
      return true;
    }

    /** The bytes the cache would hold with this frame. */
    method Count(f: TileFrame) returns (retained: int)
      ensures retained == Retained(View(), f, |f.tiles|)
    {
      retained := if f.reset then 0 else bytesHeld;
      for i := 0 to |f.tiles|
        invariant retained == Retained(View(), f, i)
      {
        var t := f.tiles[i];
        if !f.reset {
          retained := retained - if t.At() in tiles then |tiles[t.At()].data| else 0;
        }
        retained := retained + t.size;
      }
    }

    method CheckGrid(f: TileFrame) returns (ok: bool)
      ensures ok <==> GridFrame(f)
    {
      hide Slots;
      for i := 0 to |f.tiles|
        invariant forall j :: 0 <= j < i ==> OnGrid(f, f.tiles[j])
      {
        var t := f.tiles[i];
        if t.x % TILE_SIZE != 0 || t.y % TILE_SIZE != 0 || t.width != Min(TILE_SIZE, f.width - t.x)
           || t.height != Min(TILE_SIZE, f.height - t.y) {
          assert t in f.tiles && !OnGrid(f, t);
          return false;
        }
      }
      return !f.reset || |f.tiles| == Slots(f.width) * Slots(f.height);
    }

    /** Cut the payload tile by tile and overwrite the cells. */
    method StoreTiles(sent: seq<Tile>, data: bytes, ghost parts: seq<Part>)
      requires Valid() && sent == Tiles(parts) && Sized(parts) && data == Payload(parts)
      modifies this`tiles
      ensures Valid()
      ensures tiles == Store(old(tiles), parts, revision)
    {
      assert parts[..|parts|] == parts && parts[0..] == parts && data[0..] == data;
      hide Payload;
      hide Sized;
      var offset := 0;
      for i := 0 to |sent|
        invariant Valid()
        invariant 0 <= offset <= |data| && data[offset..] == Payload(parts[i..])
        invariant tiles == Store(old(tiles), parts[..i], revision)
      {
        var t := sent[i];
        NextPart(parts, i, data, offset);
        assert parts[..i + 1][..i] == parts[..i];
        tiles := tiles[t.At() := Cached(t, data[offset..offset + t.size], revision)];
        offset := offset + t.size;
      }
    }

    /** The union of the tiles changed after a cursor, or all of them when a keyframe came since. */
    method Snapshot(after: nat) returns (f: TileFrame, data: bytes, next: nat)
      requires Valid()
      ensures next == revision
      ensures exists cells :: SnapshotOrder(View(), after, cells)
                              && f == SnapshotFrame(View(), after, cells) && data == Payload(PartsAt(View(), cells))
    {
      var selected := Select(after);
      var sorted := SortRows(selected);
      ghost var cells := Cells(sorted);
      forall c | Selected(View(), after, c) ensures c in cells {
        assert tiles[c] in sorted;
        CellOf(sorted, tiles[c]);
      }
      forall c | c in cells ensures Selected(View(), after, c) {
        var i :| 0 <= i < |cells| && cells[i] == c;
        assert sorted[i] in sorted;
      }
      assert SnapshotOrder(View(), after, cells);
      var sent;
      sent, data := Collect(sorted, cells);
      f := frame.(reset := after < resetAt, tiles := sent);
      next := revision;
    }

    /** The entries a snapshot holds, in any order. */
    method Select(after: nat) returns (selected: seq<Cached>)
      requires Valid()
      ensures DistinctCells(selected)
      ensures forall e :: e in selected <==> Selected(View(), after, e.tile.At()) && tiles[e.tile.At()] == e
    {
      var reset := after < resetAt;
      selected := [];
      var todo := tiles.Keys;
      while todo != {}
        invariant todo <= tiles.Keys
        invariant forall e :: e in selected <==>
          e.tile.At() !in todo && Selected(View(), after, e.tile.At()) && tiles[e.tile.At()] == e
        invariant DistinctCells(selected)
        decreases todo
      {
        var c :| c in todo;
        assert tiles[c].tile.At() == c;
        assert forall i :: 0 <= i < |selected| ==> selected[i] in selected;
        if tiles[c].revision > after || reset {
          selected := selected + [tiles[c]];
        }
        todo := todo - {c};
      }
    }

    method Collect(selected: seq<Cached>, ghost cells: seq<Cell>) returns (sent: seq<Tile>, data: bytes)
      requires forall c :: c in cells ==> c in tiles
      requires |selected| == |cells| && forall i :: 0 <= i < |cells| ==> selected[i] == tiles[cells[i]]
      ensures sent == Tiles(PartsAt(View(), cells)) && data == Payload(PartsAt(View(), cells))
    {
      ghost var parts := PartsAt(View(), cells);
      assert parts[0..] == parts && [] + Payload(parts) == Payload(parts);
      sent, data := [], [];
      for i := 0 to |selected|
        invariant |sent| == i && forall j :: 0 <= j < i ==> sent[j] == parts[j].tile
        invariant data + Payload(parts[i..]) == Payload(parts)
      {
        assert cells[i] in cells;
        var e := selected[i];
        sent := sent + [e.tile];
        assert parts[i..][1..] == parts[i + 1..];
        assert (data + e.data) + Payload(parts[i + 1..]) == data + (e.data + Payload(parts[i + 1..]));
        data := data + e.data;
      }
      assert data + [] == data;
    }
  }

  lemma SplitPayloadOf(f: TileFrame, data: bytes)
    requires ValidFrame(f, data)
    ensures Payload(Split(f.tiles, data)) == data
  {
    forall t | t in f.tiles ensures t.size >= 0 {
      PositiveTile(f, t);
    }
    SplitSized(f.tiles, data);
  }

  lemma NextPart(parts: seq<Part>, i: nat, data: bytes, offset: nat)
    requires i < |parts| && Sized(parts) && offset <= |data| && data[offset..] == Payload(parts[i..])
    ensures var size := parts[i].tile.size;
            && 0 <= size && offset + size <= |data| && data[offset..offset + size] == parts[i].data
            && data[offset + size..] == Payload(parts[i + 1..])
  {
    assert parts[i] in parts;
    assert parts[i..][1..] == parts[i + 1..];
    assert data[offset..] == parts[i].data + Payload(parts[i + 1..]);
    var n := |parts[i].data|;
    assert data[offset..][..n] == data[offset..offset + n] && data[offset..][n..] == data[offset + n..];
  }

  function Cells(entries: seq<Cached>): seq<Cell> {
    seq(|entries|, i requires 0 <= i < |entries| => entries[i].tile.At())
  }

  lemma CellOf(entries: seq<Cached>, e: Cached)
    requires e in entries
    ensures e.tile.At() in Cells(entries)
  {
    var i :| 0 <= i < |entries| && entries[i] == e;
    assert Cells(entries)[i] == e.tile.At();
  }

  ghost predicate DistinctCells(entries: seq<Cached>) {
    forall i, j :: 0 <= i < j < |entries| ==> entries[i].tile.At() != entries[j].tile.At()
  }

  ghost predicate Ascending(entries: seq<Cached>) {
    forall i, j :: 0 <= i < j < |entries| ==> Before(entries[i].tile.At(), entries[j].tile.At())
  }

  /** sort.Slice by row and column. */
  method SortRows(entries: seq<Cached>) returns (sorted: seq<Cached>)
    requires DistinctCells(entries)
    ensures forall e :: e in sorted <==> e in entries
    ensures Ascending(sorted)
  {
    sorted := [];
    for n := 0 to |entries|
      invariant forall e :: e in sorted <==> e in entries[..n]
      invariant Ascending(sorted)
    {
      assert entries[..n + 1] == entries[..n] + [entries[n]];
      sorted := InsertRow(sorted, entries[n]);
    }
    assert entries[..|entries|] == entries;
  }

  method InsertRow(entries: seq<Cached>, e: Cached) returns (sorted: seq<Cached>)
    requires Ascending(entries) && forall d :: d in entries ==> d.tile.At() != e.tile.At()
    ensures Ascending(sorted) && forall d :: d in sorted <==> d == e || d in entries
  {
    var at := 0;
    while at < |entries| && Before(entries[at].tile.At(), e.tile.At())
      invariant at <= |entries| && forall i :: 0 <= i < at ==> Before(entries[i].tile.At(), e.tile.At())
    {
      at := at + 1;
    }
    Inserted(entries, e, at);
    sorted := entries[..at] + [e] + entries[at..];
  }

  lemma Inserted(entries: seq<Cached>, e: Cached, at: nat)
    requires Ascending(entries) && (forall d :: d in entries ==> d.tile.At() != e.tile.At()) && at <= |entries|
    requires forall i :: 0 <= i < at ==> Before(entries[i].tile.At(), e.tile.At())
    requires at < |entries| ==> !Before(entries[at].tile.At(), e.tile.At())
    ensures var sorted := entries[..at] + [e] + entries[at..];
            Ascending(sorted) && forall d :: d in sorted <==> d == e || d in entries
  {
    forall i | at <= i < |entries| ensures Before(e.tile.At(), entries[i].tile.At()) {
      assert entries[at] in entries && entries[i] in entries;
    }
    Joined(entries[..at], e, entries[at..]);
    assert entries == entries[..at] + entries[at..];
  }

  lemma Joined(low: seq<Cached>, e: Cached, high: seq<Cached>)
    requires Ascending(low + high)
    requires forall i :: 0 <= i < |low| ==> Before(low[i].tile.At(), e.tile.At())
    requires forall i :: 0 <= i < |high| ==> Before(e.tile.At(), high[i].tile.At())
    ensures Ascending(low + [e] + high)
    ensures forall d :: d in low + [e] + high <==> d == e || d in low + high
  {
    hide Before;
    var sorted, all := low + [e] + high, low + high;
    forall i, j | 0 <= i < j < |sorted| ensures Before(sorted[i].tile.At(), sorted[j].tile.At()) {
      if i != |low| && j != |low| {
        var k, l := if i < |low| then i else i - 1, if j < |low| then j else j - 1;
        assert sorted[i] == all[k] && sorted[j] == all[l];
      }
    }
  }
}
