/** Snapshots of the tile hub and the clients that apply them: internal/viewerapp/tiles.go and the
  painting rules of internal/viewerapp/ui/frames.js. */
module TileClients {
  import opened Wrappers
  import opened Bytes
  import opened Sets
  import opened TileFrames
  import opened TileHubs

  /** Row by row, left to right. */
  predicate Before(a: Cell, b: Cell) {
    a.y < b.y || (a.y == b.y && a.x < b.x)
  }

  predicate Selected(h: Hub, after: nat, c: Cell) {
    c in h.tiles && (h.tiles[c].revision > after || after < h.resetAt)
  }

  /** The cells of the snapshot after a cursor, in the order they are sent. */
  ghost predicate SnapshotOrder(h: Hub, after: nat, cells: seq<Cell>) {
    && (forall c :: c in cells <==> Selected(h, after, c))
    && (forall i, j :: 0 <= i < j < |cells| ==> Before(cells[i], cells[j]))
  }

  function PartsAt(h: Hub, cells: seq<Cell>): (parts: seq<Part>)
    requires forall c :: c in cells ==> c in h.tiles
    ensures |parts| == |cells|
  {
    seq(|cells|, i requires 0 <= i < |cells| => Part(h.tiles[cells[i]].tile, h.tiles[cells[i]].data))
  }

  function SnapshotFrame(h: Hub, after: nat, cells: seq<Cell>): TileFrame
    requires forall c :: c in cells ==> c in h.tiles
  {
    h.frame.(reset := after < h.resetAt, tiles := Tiles(PartsAt(h, cells)))
  }

  /** There is only one such order. */
  lemma {:induction false} SnapshotOrderUnique(h: Hub, after: nat, a: seq<Cell>, b: seq<Cell>)
    requires SnapshotOrder(h, after, a) && SnapshotOrder(h, after, b)
    ensures a == b
  {
    SortedUnique(a, b);
  }

  lemma {:induction false} SortedUnique(a: seq<Cell>, b: seq<Cell>)
    requires forall i, j :: 0 <= i < j < |a| ==> Before(a[i], a[j])
    requires forall i, j :: 0 <= i < j < |b| ==> Before(b[i], b[j])
    requires forall c :: c in a <==> c in b
    ensures a == b
    decreases |a|
  {
    if b != [] {
      assert b[0] in a;
      assert a != [];
    }
    if a != [] {
      assert a[0] in b && b != [] && b[0] in a;
      assert a[0] == b[0];
      forall c ensures c in a[1..] <==> c in b[1..] {
        assert c in a[1..] ==> c in a && c != a[0];
        assert c in b[1..] ==> c in b && c != b[0];
        assert a == [a[0]] + a[1..] && b == [b[0]] + b[1..];
      }
      SortedUnique(a[1..], b[1..]);
    }
  }

  // ---- snapshots are valid frames ----

  ghost predicate Distinct(cells: seq<Cell>) {
    forall i, j :: 0 <= i < j < |cells| ==> cells[i] != cells[j]
  }

  function Members(cells: seq<Cell>): set<Cell> {
    set c | c in cells
  }

  lemma MembersFirst(cells: seq<Cell>)
    requires cells != [] && Distinct(cells)
    ensures Members(cells) == {cells[0]} + Members(cells[1..]) && cells[0] !in Members(cells[1..])
    ensures Members(cells) - {cells[0]} == Members(cells[1..])
  {
    assert cells == [cells[0]] + cells[1..];
  }

  lemma {:induction false} MembersCount(cells: seq<Cell>)
    requires Distinct(cells)
    ensures |Members(cells)| == |cells|
    decreases |cells|
  {
    if cells != [] {
      MembersFirst(cells);
      MembersCount(cells[1..]);
      hide Members;
    }
  }

  lemma {:induction false} PayloadIsSum(h: Hub, cells: seq<Cell>)
    requires Distinct(cells) && forall c :: c in cells ==> c in h.tiles
    ensures |Payload(PartsAt(h, cells))| == SumHeld(h.tiles, Members(cells))
    decreases |cells|
  {
    hide SumHeld;
    if cells == [] {
      NothingHeld(h.tiles);
    } else {
      var rest := cells[1..];
      PayloadIsSum(h, rest);
      MembersFirst(cells);
      SumHeldSplit(h.tiles, Members(cells), cells[0]);
      assert PartsAt(h, cells)[1..] == PartsAt(h, rest);
      assert cells[0] in cells;
      hide Members;
      hide Distinct;
      assert Payload(PartsAt(h, cells)) == PartsAt(h, cells)[0].data + Payload(PartsAt(h, rest));
    }
  }

  lemma NothingHeld(tiles: map<Cell, Cached>)
    ensures SumHeld(tiles, Members([])) == 0
  {
  }

  lemma {:induction false} SumHeldMonotone(tiles: map<Cell, Cached>, a: set<Cell>, b: set<Cell>)
    requires a <= b
    ensures SumHeld(tiles, a) <= SumHeld(tiles, b)
    decreases |a|
  {
    if a != {} {
      var c :| c in a;
      SumHeldSplit(tiles, a, c);
      SumHeldSplit(tiles, b, c);
      SumHeldMonotone(tiles, a - {c}, b - {c});
    }
  }

  lemma SnapshotTiles(h: Hub, after: nat, cells: seq<Cell>)
    requires Inv(h) && h.revision > 0 && SnapshotOrder(h, after, cells)
    ensures var f := SnapshotFrame(h, after, cells);
            && Sized(PartsAt(h, cells)) && DistinctTiles(f.tiles)
            && (forall t :: t in f.tiles ==> ValidTile(f, t) && OnGrid(f, t))
  {
    hide ValidTile;
    hide OnGrid;
    hide ValidSides;
    hide SumHeld;
    hide Grid;
    var f := SnapshotFrame(h, after, cells);
    var parts := PartsAt(h, cells);
    forall i | 0 <= i < |cells|
      ensures parts[i].tile.At() == cells[i] && ValidTile(f, f.tiles[i]) && OnGrid(f, f.tiles[i])
      ensures parts[i].tile.size == |parts[i].data|
    {
      assert cells[i] in cells && ValidCached(h, cells[i]);
      SameSides(h.frame, f, f.tiles[i]);
    }
  }

  /** Every snapshot passes validation, stays on the grid, and is at most 32 MiB. */
  lemma SnapshotValid(h: Hub, after: nat, cells: seq<Cell>)
    requires Inv(h) && h.revision > 0 && SnapshotOrder(h, after, cells)
    ensures var f := SnapshotFrame(h, after, cells);
            var data := Payload(PartsAt(h, cells));
            ValidFrame(f, data) && |data| <= MAX_CACHE_SIZE && forall t :: t in f.tiles ==> OnGrid(f, t)
  {
    hide ValidTile;
    hide OnGrid;
    hide SumHeld;
    hide ValidCached;
    SnapshotTiles(h, after, cells);
    PayloadSize(PartsAt(h, cells));
    PayloadIsSum(h, cells);
    MembersCount(cells);
    var held := Members(cells);
    assert held <= h.tiles.Keys;
    SumHeldMonotone(h.tiles, held, h.tiles.Keys);
    SubsetSize(held, h.tiles.Keys);
    assert |h.tiles| == |h.tiles.Keys|;
  }

  // ---- a client ----

  /** What a client shows.  Its entries carry no revision: they are stored with revision 0. */
  datatype Client = Client(width: int, height: int, canvas: map<Cell, Cached>, cursor: nat)

  const NEW_CLIENT := Client(0, 0, map[], 0)

  /** Paint one response.  A delta for another size is an error, which makes the client start over. */
  function Apply(k: Client, f: TileFrame, data: bytes, revision: nat): Client {
    if !f.reset && (k.width != f.width || k.height != f.height) then k.(cursor := 0)
    else Client(f.width, f.height, Store(if f.reset then map[] else k.canvas, Split(f.tiles, data), 0), revision)
  }

  /** serveTiles: a cursor from the future is dropped, and nothing is sent while there is nothing new. */
  function Cursor(h: Hub, cursor: nat): nat {
    if h.revision < cursor then 0 else cursor
  }

  datatype Sys = Sys(hub: Hub, client: Client)

  datatype Action =
    | Publish(frame: TileFrame, data: bytes)
    | Fetch(cells: seq<Cell>)
    | Restart(canvas: map<Cell, Cached>)  // a failed response leaves any picture and cursor 0

  ghost predicate Enabled(s: Sys, a: Action) {
    a.Fetch? ==> SnapshotOrder(s.hub, Cursor(s.hub, s.client.cursor), a.cells)
  }

  ghost function Step(s: Sys, a: Action): Sys
    requires Enabled(s, a)
  {
    match a
    case Publish(f, data) =>
      if Publishable(s.hub, f, data, false) then s.(hub := Published(s.hub, f, data)) else s
    case Fetch(cells) =>
      var after := Cursor(s.hub, s.client.cursor);
      if s.hub.revision == after then s.(client := s.client.(cursor := after))
      else s.(client := Apply(s.client, SnapshotFrame(s.hub, after, cells), Payload(PartsAt(s.hub, cells)), s.hub.revision))
    case Restart(canvas) => s.(client := s.client.(canvas := canvas, cursor := 0))
  }

  ghost predicate Possible(s: Sys, run: seq<Action>)
    decreases |run|
  {
    run != [] ==> Enabled(s, run[0]) && Possible(Step(s, run[0]), run[1..])
  }

  ghost function Exec(s: Sys, run: seq<Action>): Sys
    requires Possible(s, run)
    decreases |run|
  {
    if run == [] then s else Exec(Step(s, run[0]), run[1..])
  }

  function Shown(e: Cached): Cached {
    e.(revision := 0)
  }

  /** The picture a hub stands for. */
  function Picture(h: Hub): map<Cell, Cached> {
    map c | c in h.tiles :: Shown(h.tiles[c])
  }

  /** A client whose cursor is not older than the last keyframe shows every cell that did not change
      since, and no other cells. */
  ghost predicate Synced(h: Hub, k: Client) {
    && k.cursor <= h.revision
    && (h.revision > 0 && h.resetAt <= k.cursor ==>
          && k.width == h.frame.width && k.height == h.frame.height
          && k.canvas.Keys <= h.tiles.Keys
          && forall c :: c in h.tiles && h.tiles[c].revision <= k.cursor ==> c in k.canvas && k.canvas[c] == Shown(h.tiles[c]))
  }

  lemma PublishKeepsSynced(h: Hub, k: Client, f: TileFrame, data: bytes)
    requires Inv(h) && Synced(h, k) && Publishable(h, f, data, false)
    ensures Synced(Published(h, f, data), k)
  {
    hide Retained;
    hide Store;
    hide Split;
    hide ValidCached;
    var h' := Published(h, f, data);
    if !f.reset && h'.resetAt <= k.cursor {
      PublishedCells(h, f, data);
      hide ValidFrame;
      forall c | c in h'.tiles && h'.tiles[c].revision <= k.cursor
        ensures c in h.tiles && h'.tiles[c] == h.tiles[c]
      {
        OldRevision(h, f, data, c);
      }
      hide Published;
    }
  }

  lemma OldRevision(h: Hub, f: TileFrame, data: bytes, c: Cell)
    requires ValidFrame(f, data) && !f.reset
    requires c in Published(h, f, data).tiles && Published(h, f, data).tiles[c].revision <= h.revision
    ensures c in h.tiles && Published(h, f, data).tiles[c] == h.tiles[c]
  {
    hide Published;
    hide ValidFrame;
    if c in CellsOf(f.tiles) {
      NewRevision(h, f, data, c);
    } else {
      PublishedOld(h, f, data, c);
    }
  }

  lemma NewRevision(h: Hub, f: TileFrame, data: bytes, c: Cell)
    requires ValidFrame(f, data) && c in CellsOf(f.tiles)
    ensures c in Published(h, f, data).tiles && Published(h, f, data).tiles[c].revision == h.revision + 1
  {
    var t :| t in f.tiles && t.At() == c;
    var i :| 0 <= i < |f.tiles| && f.tiles[i] == t;
    PublishedNew(h, f, data, i);
  }

  lemma PaintedCell(h: Hub, k: Client, cells: seq<Cell>, c: Cell)
    requires Inv(h) && Synced(h, k) && SnapshotOrder(h, k.cursor, cells) && c in h.tiles
    requires DistinctTiles(Tiles(PartsAt(h, cells)))
    ensures var canvas := Store(if k.cursor < h.resetAt then map[] else k.canvas, PartsAt(h, cells), 0);
            c in canvas && canvas[c] == Shown(h.tiles[c])
  {
    hide SumHeld;
    hide Grid;
    hide ValidTile;
    hide OnGrid;
    hide ValidSides;
    hide Store;
    var parts := PartsAt(h, cells);
    var before := if k.cursor < h.resetAt then map[] else k.canvas;
    CellsOfParts(h, cells, c);
    hide CellsOf;
    assert ValidCached(h, c);
    if c in cells {
      var i :| 0 <= i < |cells| && cells[i] == c;
      StoreNew(before, parts, 0, i);
    } else {
      StoreOld(before, parts, 0, c);
    }
  }

  lemma PaintedKeys(h: Hub, k: Client, cells: seq<Cell>)
    requires Inv(h) && Synced(h, k) && h.revision > 0 && SnapshotOrder(h, k.cursor, cells)
    ensures Store(if k.cursor < h.resetAt then map[] else k.canvas, PartsAt(h, cells), 0).Keys <= h.tiles.Keys
  {
    hide SumHeld;
    hide Grid;
    hide ValidTile;
    hide OnGrid;
    hide ValidSides;
    hide Store;
    var parts := PartsAt(h, cells);
    forall c | c in CellsOf(Tiles(parts)) ensures c in h.tiles {
      assert forall d :: d in cells ==> ValidCached(h, d);
      CellsOfParts(h, cells, c);
    }
    StoreKeys(if k.cursor < h.resetAt then map[] else k.canvas, parts, 0);
    hide CellsOf;
  }

  /** Painting a snapshot shows exactly the hub's picture. */
  lemma FetchShowsPicture(h: Hub, k: Client, cells: seq<Cell>)
    requires Inv(h) && Synced(h, k) && h.revision > 0 && SnapshotOrder(h, k.cursor, cells)
    ensures var k' := Apply(k, SnapshotFrame(h, k.cursor, cells), Payload(PartsAt(h, cells)), h.revision);
            k' == Client(h.frame.width, h.frame.height, Picture(h), h.revision)
  {
    hide ValidTile;
    hide OnGrid;
    hide Store;
    hide Payload;
    hide Split;
    hide ValidCached;
    var parts := PartsAt(h, cells);
    SnapshotTiles(h, k.cursor, cells);
    SplitPayload(parts);
    var canvas := Store(if k.cursor < h.resetAt then map[] else k.canvas, parts, 0);
    PaintedKeys(h, k, cells);
    forall c | c in h.tiles ensures c in canvas && canvas[c] == Shown(h.tiles[c]) {
      PaintedCell(h, k, cells, c);
    }
    assert canvas == Picture(h);
  }

  lemma CellsOfParts(h: Hub, cells: seq<Cell>, c: Cell)
    requires forall d :: d in cells ==> d in h.tiles && h.tiles[d].tile.At() == d
    ensures c in CellsOf(Tiles(PartsAt(h, cells))) <==> c in cells
  {
    var tiles := Tiles(PartsAt(h, cells));
    forall i | 0 <= i < |cells| ensures tiles[i].At() == cells[i] {
      assert cells[i] in cells;
    }
    if c in cells {
      var i :| 0 <= i < |cells| && cells[i] == c;
      assert tiles[i] in tiles;
    }
  }

  lemma StepKeepsSynced(s: Sys, a: Action)
    requires Inv(s.hub) && Synced(s.hub, s.client) && Enabled(s, a)
    ensures Inv(Step(s, a).hub) && Synced(Step(s, a).hub, Step(s, a).client)
    ensures a.Fetch? && s.hub.revision > 0 ==>
              Step(s, a).client == Client(s.hub.frame.width, s.hub.frame.height, Picture(s.hub), s.hub.revision)
  {
    hide ValidFrame;
    hide Published;
    hide Apply;
    match a {
      case Publish(f, data) =>
        if Publishable(s.hub, f, data, false) {
          PublishKeepsInv(s.hub, f, data);
          PublishKeepsSynced(s.hub, s.client, f, data);
        }
      case Fetch(cells) =>
        if s.hub.revision > s.client.cursor {
          FetchShowsPicture(s.hub, s.client, cells);
        } else if s.hub.revision > 0 {
          UpToDate(s.hub, s.client);
        }
      case Restart(canvas) =>
    }
  }

  lemma UpToDate(h: Hub, k: Client)
    requires Inv(h) && Synced(h, k) && h.revision == k.cursor > 0
    ensures k == Client(h.frame.width, h.frame.height, Picture(h), h.revision)
  {
    hide SumHeld;
    hide Grid;
    hide ValidTile;
    hide OnGrid;
    hide ValidSides;
    forall c | c in h.tiles ensures h.tiles[c].revision <= k.cursor {
      assert ValidCached(h, c);
    }
    assert k.canvas.Keys == h.tiles.Keys;
    assert k.canvas == Picture(h);
  }

  lemma {:induction false} RunKeepsSynced(s: Sys, run: seq<Action>)
    requires Inv(s.hub) && Synced(s.hub, s.client) && Possible(s, run)
    ensures Inv(Exec(s, run).hub) && Synced(Exec(s, run).hub, Exec(s, run).client)
    decreases |run|
  {
    hide Inv;
    hide Synced;
    hide Step;
    if run != [] {
      StepKeepsSynced(s, run[0]);
      RunKeepsSynced(Step(s, run[0]), run[1..]);
    }
  }

  /** However many frames, keyframes and failures lie between its requests, a client that was just
      answered shows exactly the hub's picture at its last revision. */
  lemma {:induction false} ClientConverges(run: seq<Action>, cells: seq<Cell>)
    requires Possible(Sys(EMPTY_HUB, NEW_CLIENT), run)
    requires Enabled(Exec(Sys(EMPTY_HUB, NEW_CLIENT), run), Fetch(cells))
    ensures var s := Exec(Sys(EMPTY_HUB, NEW_CLIENT), run);
            var k := Step(s, Fetch(cells)).client;
            k.cursor == s.hub.revision &&
            (s.hub.revision > 0 ==> k.canvas == Picture(s.hub) && k.width == s.hub.frame.width && k.height == s.hub.frame.height)
  {
    var start := Sys(EMPTY_HUB, NEW_CLIENT);
    EmptyHub();
    RunKeepsSynced(start, run);
    var s := Exec(start, run);
    StepKeepsSynced(s, Fetch(cells));
    hide Inv;
    hide Apply;
  }

  /** A client of an earlier hub, whose cursor is ahead of this one, or that starts over shows exactly the hub's picture after one
      answer, whatever it has shown before. */
  lemma {:induction false} AnyClientRecovers(s: Sys, cells: seq<Cell>)
    requires Inv(s.hub) && s.hub.revision > 0 && (s.client.cursor == 0 || s.client.cursor > s.hub.revision) && Enabled(s, Fetch(cells))
    ensures Step(s, Fetch(cells)).client == Client(s.hub.frame.width, s.hub.frame.height, Picture(s.hub), s.hub.revision)
  {
    FetchShowsPicture(s.hub, s.client.(cursor := 0), cells);
    hide Store;
    hide Payload;
    hide Split;
    hide SumHeld;
    hide ValidCached;
    hide Grid;
    hide Picture;
  }

  /** A delta for a picture of another size is not painted, and makes the client start over. */
  lemma {:induction false} WrongSizeStartsOver(k: Client, f: TileFrame, data: bytes, revision: nat)
    requires !f.reset && (k.width != f.width || k.height != f.height)
    ensures var k' := Apply(k, f, data, revision); k'.cursor == 0 && k'.canvas == k.canvas && k'.width == k.width && k'.height == k.height
  {
  }

  lemma EmptyHub()
    ensures Inv(EMPTY_HUB) && Synced(EMPTY_HUB, NEW_CLIENT)
  {
    assert SumHeld(map[], {}) == 0;
    assert EMPTY_HUB.tiles.Keys == {};
  }
}
