/** What each layer of the grid stamps, as functions of the world definitions: landscape, scenery,
    boundaries, and the live overlay. */
module Layers {
  import opened Flags
  import opened Walks
  import opened Stamps
  import opened Options
  import opened FactTables

  const SCENERY_COLLISION_SKIP_ID := 1147
  const SOLID: bv8 := 192

  // ----- scenery footprints -----

  predicate Collides(def: Option<SceneryDef>) {
    def.Some? && def.value.id != SCENERY_COLLISION_SKIP_ID && (def.value.kind == 1 || def.value.kind == 2)
  }

  function AtLeastOne(n: int): (r: nat)
    ensures r >= 1
  {
    if n < 1 then 1 else n
  }

  /** Footprint columns and rows: swapped when the object is rotated by 90 degrees. */
  function Columns(def: SceneryDef, dir: int): nat {
    AtLeastOne(if dir != 0 && dir != 4 then def.height else def.width)
  }

  function Rows(def: SceneryDef, dir: int): nat {
    AtLeastOne(if dir != 0 && dir != 4 then def.width else def.height)
  }

  /** The contribution of one footprint tile. */
  function TileStamps(kind: int, dir: int, c: Cell, on: bool): (ss: seq<Stamp>)
    ensures AllWellFormed(ss) && forall i :: 0 <= i < |ss| ==> ss[i].on == on
  {
    if kind == 1 then [Block(c, SOLID, on)]
    else if kind == 2 then
      if dir == 0 then [Edge(c, W, on)]
      else if dir == 2 then [Edge(c, S, on)]
      else if dir == 4 then [Edge(c, E, on)]
      else if dir == 6 then [Edge(c, N, on)]
      else []
    else []
  }

  /** The first `n` tiles of the footprint row that starts at `c`. */
  function RowStamps(kind: int, dir: int, c: Cell, n: nat, on: bool): (ss: seq<Stamp>)
    ensures AllWellFormed(ss) && forall i :: 0 <= i < |ss| ==> ss[i].on == on
  {
    if n == 0 then [] else RowStamps(kind, dir, c, n - 1, on) + TileStamps(kind, dir, Cell(c.x + n - 1, c.y), on)
  }

  /** The first `n` rows, `w` tiles wide. */
  function RectStamps(kind: int, dir: int, c: Cell, w: nat, n: nat, on: bool): (ss: seq<Stamp>)
    ensures AllWellFormed(ss) && forall i :: 0 <= i < |ss| ==> ss[i].on == on
  {
    if n == 0 then [] else RectStamps(kind, dir, c, w, n - 1, on) + RowStamps(kind, dir, Cell(c.x, c.y + n - 1), w, on)
  }

  /** A whole footprint whose origin is the local tile `c`, in the grid or not. */
  function Footprint(def: Option<SceneryDef>, dir: int, c: Cell, on: bool): (ss: seq<Stamp>)
    ensures AllWellFormed(ss) && forall i :: 0 <= i < |ss| ==> ss[i].on == on
  {
    if !Collides(def) then []
    else RectStamps(def.value.kind, dir, c, Columns(def.value, dir), Rows(def.value, dir), on)
  }

  // ----- boundaries -----

  /** The edge or diagonal a boundary direction names. */
  function BoundaryStamps(c: Cell, dir: int, on: bool): (ss: seq<Stamp>)
    ensures AllWellFormed(ss) && forall i :: 0 <= i < |ss| ==> ss[i].on == on
  {
    if dir == 0 then [Edge(c, N, on)]
    else if dir == 1 then [Edge(c, W, on)]
    else if dir == 2 then [Block(c, FULL_BLOCK_A, on)]
    else if dir == 3 then [Block(c, FULL_BLOCK_B, on)]
    else []
  }

  // ----- the static layers -----

  function DiagonalIndex(dw: int): int {
    if 12000 < dw < 24000 then dw - 12001 else dw - 1
  }

  /** One landscape tile: its north and west walls, its diagonal, and impassable ground. */
  function LandscapeStamps(f: Facts, t: Tile, c: Cell): (ss: seq<Stamp>)
    ensures AllWellFormed(ss) && forall i :: 0 <= i < |ss| ==> ss[i].on
  {
    (if t.verticalWall > 0 && f.FixedWall(t.verticalWall - 1) then [Edge(c, N, true)] else []) +
    (if t.horizontalWall > 0 && f.FixedWall(t.horizontalWall - 1) then [Edge(c, W, true)] else []) +
    (if t.diagonalWalls > 0 && f.FixedWall(DiagonalIndex(t.diagonalWalls)) then
       if t.diagonalWalls < 12000 then [Block(c, FULL_BLOCK_B, true)]
       else if 12000 < t.diagonalWalls < 24000 then [Block(c, FULL_BLOCK_A, true)]
       else []
     else []) +
    (if f.OverlayBlocks(t.groundOverlay) then [Block(c, FULL_BLOCK_C, true)] else [])
  }

  /** The first `n` tiles of sector column `sx`. */
  function ColumnStamps(f: Facts, s: Sector, offX: int, offY: int, sx: nat, n: nat): (ss: seq<Stamp>)
    requires sx < SECTOR_SIZE && n <= SECTOR_SIZE
    ensures AllWellFormed(ss) && forall i :: 0 <= i < |ss| ==> ss[i].on
  {
    if n == 0 then []
    else
      var c := Cell(offX + sx, offY + n - 1);
      ColumnStamps(f, s, offX, offY, sx, n - 1) +
      (if InGrid(c) then LandscapeStamps(f, s[sx * SECTOR_SIZE + n - 1], c) else [])
  }

  /** The first `n` columns of a sector placed at (offX, offY). */
  function SectorStamps(f: Facts, s: Sector, offX: int, offY: int, n: nat): (ss: seq<Stamp>)
    requires n <= SECTOR_SIZE
    ensures AllWellFormed(ss) && forall i :: 0 <= i < |ss| ==> ss[i].on
  {
    if n == 0 then []
    else SectorStamps(f, s, offX, offY, n - 1) + ColumnStamps(f, s, offX, offY, n - 1, SECTOR_SIZE)
  }

  /** The first `n` scenery locations. */
  function SceneryStamps(f: Facts, base: Cell, n: nat): (ss: seq<Stamp>)
    requires n <= |f.sceneryLocs|
    ensures AllWellFormed(ss) && forall i :: 0 <= i < |ss| ==> ss[i].on
  {
    if n == 0 then []
    else
      var loc := f.sceneryLocs[n - 1];
      SceneryStamps(f, base, n - 1) +
      Footprint(f.Scenery(loc.defId), loc.direction, Cell(loc.x - base.x, loc.y - base.y), true)
  }

  /** The first `n` boundary locations: only fixed walls, and only inside the grid. */
  function WallStamps(f: Facts, base: Cell, n: nat): (ss: seq<Stamp>)
    requires n <= |f.boundaryLocs|
    ensures AllWellFormed(ss) && forall i :: 0 <= i < |ss| ==> ss[i].on
  {
    if n == 0 then []
    else
      var loc := f.boundaryLocs[n - 1];
      var c := Cell(loc.x - base.x, loc.y - base.y);
      WallStamps(f, base, n - 1) +
      (if f.FixedWall(loc.defId) && InGrid(c) then BoundaryStamps(c, loc.direction, true) else [])
  }

  // ----- the live overlay -----

  function LiveBoundaryStamps(f: Facts, base: Cell, bs: seq<LiveBoundary>, n: nat): (ss: seq<Stamp>)
    requires n <= |bs|
    ensures AllWellFormed(ss)
  {
    if n == 0 then []
    else
      var b := bs[n - 1];
      var c := Cell(b.x - base.x, b.y - base.y);
      LiveBoundaryStamps(f, base, bs, n - 1) +
      (if InGrid(c) then BoundaryStamps(c, b.dir, !b.removed && b.id >= 0 && f.LiveWall(b.id)) else [])
  }

  function StaticDir(f: Facts, s: LiveScenery): int {
    var p := f.SceneryAt(s.x, s.y);
    if p.Some? then p.value.direction else 0
  }

  function StaticDef(f: Facts, s: LiveScenery): Option<SceneryDef> {
    var p := f.SceneryAt(s.x, s.y);
    if p.Some? then f.Scenery(p.value.defId) else None
  }

  /** One live scenery record: clear what stood there, then stamp what stands there now. */
  function RecordStamps(f: Facts, base: Cell, s: LiveScenery): (ss: seq<Stamp>)
    ensures AllWellFormed(ss)
  {
    var c := Cell(s.x - base.x, s.y - base.y);
    if !InGrid(c) then []
    else
      (if StaticDef(f, s).Some? then Footprint(StaticDef(f, s), StaticDir(f, s), c, false)
       else if s.removed then [Block(c, SOLID, false)]
       else []) +
      (if s.removed then [] else Footprint(f.Scenery(s.id), StaticDir(f, s), c, true))
  }

  function LiveSceneryStamps(f: Facts, base: Cell, rs: seq<LiveScenery>, n: nat): (ss: seq<Stamp>)
    requires n <= |rs|
    ensures AllWellFormed(ss)
  {
    if n == 0 then [] else LiveSceneryStamps(f, base, rs, n - 1) + RecordStamps(f, base, rs[n - 1])
  }

  function OverlayStamps(f: Facts, base: Cell, live: Option<LiveState>): (ss: seq<Stamp>)
    ensures AllWellFormed(ss)
  {
    if live.None? then []
    else
      LiveBoundaryStamps(f, base, live.value.boundaries, |live.value.boundaries|) +
      LiveSceneryStamps(f, base, live.value.scenery, |live.value.scenery|)
  }

  // ----- the whole grid -----

  /** Sectors the archive holds; a missing one is void. */
  type Landscape = map<SectorKey, Sector>

  const ARCHIVE_OFFSET_X := 48
  const ARCHIVE_OFFSET_Y := 37

  function SectorAt(ls: Landscape, f: Facts, plane: int, midX: int, midY: int, dsx: int, dsy: int): (ss: seq<Stamp>)
    ensures AllWellFormed(ss) && forall i :: 0 <= i < |ss| ==> ss[i].on
  {
    var key := SectorKey(plane, midX - 1 + dsx + ARCHIVE_OFFSET_X, midY - 1 + dsy + ARCHIVE_OFFSET_Y);
    if key in ls then SectorStamps(f, ls[key], dsx * SECTOR_SIZE, dsy * SECTOR_SIZE, SECTOR_SIZE) else []
  }

  function LandStamps(ls: Landscape, f: Facts, plane: int, midX: int, midY: int): (ss: seq<Stamp>)
    ensures AllWellFormed(ss) && forall i :: 0 <= i < |ss| ==> ss[i].on
  {
    SectorAt(ls, f, plane, midX, midY, 0, 0) + SectorAt(ls, f, plane, midX, midY, 0, 1) +
    SectorAt(ls, f, plane, midX, midY, 1, 0) + SectorAt(ls, f, plane, midX, midY, 1, 1)
  }

  function StaticStamps(ls: Landscape, f: Facts, plane: int, midX: int, midY: int, base: Cell): (ss: seq<Stamp>)
    ensures AllWellFormed(ss) && forall i :: 0 <= i < |ss| ==> ss[i].on
  {
    LandStamps(ls, f, plane, midX, midY) + SceneryStamps(f, base, |f.sceneryLocs|)
      + WallStamps(f, base, |f.boundaryLocs|)
  }

  function Blank(): (m: Mask)
    ensures forall x, y :: 0 <= x < GRID_SIZE && 0 <= y < GRID_SIZE ==> m[x][y] == 0
  {
    seq(GRID_SIZE, x requires 0 <= x < GRID_SIZE => seq(GRID_SIZE, y requires 0 <= y < GRID_SIZE => 0))
  }

  lemma BlankMirrored()
    ensures Mirrored(Blank())
  {
    hide Clear;
    forall x, y | 0 <= x < GRID_SIZE && 0 <= y < GRID_SIZE ensures Blank()[x][y] == 0 {
    }
    ZeroClear(WALL_NORTH);
    ZeroClear(WALL_SOUTH);
    ZeroClear(WALL_EAST);
    ZeroClear(WALL_WEST);
  }

  lemma ZeroClear(bits: bv8)
    ensures Clear(0, bits)
  {
  }
}
