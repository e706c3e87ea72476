/** The methods that layer walls, scenery, boundaries and the live overlay onto the grid in place. */
module GridBuilder {
  import opened Flags
  import opened Walks
  import opened Grids
  import opened Stamps
  import opened Options
  import opened FactTables
  import opened Layers

  /** Sets or clears bits of one tile, ignoring tiles outside the grid. */
  method SetOrClear(g: Grid, x: int, y: int, bits: bv8, on: bool, ghost m: Mask)
    requires g.Valid() && g.Shows(m)
    modifies g.mask
    ensures g.Shows(Apply(m, Mark(Cell(x, y), bits, on)))
  {
    hide Marked;
    if x < 0 || x >= GRID_SIZE || y < 0 || y >= GRID_SIZE {
      return;
    }
    g.mask[x, y] := Marked(g.mask[x, y], bits, on);
  }

  lemma StampOne(m: Mask, s: Stamp)
    requires WellFormed(s)
    ensures AllWellFormed([s]) && StampAll(m, [s]) == ApplyAll(m, Marks(s))
  {
    assert [s][..0] == [];
    assert AllMarks([s]) == [] + Marks(s) == Marks(s);
  }

  /** One edge: the tile's bit, and the mirrored bit of its neighbour. */
  method MarkEdge(g: Grid, x: int, y: int, side: Dir, on: bool, ghost m: Mask) returns (ghost m': Mask)
    requires g.Valid() && g.Shows(m) && Cardinal(side)
    modifies g.mask
    ensures g.Shows(m') && AllWellFormed([Edge(Cell(x, y), side, on)])
    ensures m' == StampAll(m, [Edge(Cell(x, y), side, on)])
  {
    hide Apply, OwnBit, StampAll;
    ghost var k0 := Mark(Cell(x, y), OwnBit(side), on);
    ghost var k1 := Mark(Move(Cell(x, y), side), OwnBit(Opposite(side)), on);
    SetOrClear(g, x, y, OwnBit(side), on, m);
    SetOrClear(g, x + Dx(side), y + Dy(side), OwnBit(Opposite(side)), on, Apply(m, k0));
    m' := Apply(Apply(m, k0), k1);
    StampOne(m, Edge(Cell(x, y), side, on));
    ApplyTwo(m, k0, k1);
  }

  method MarkBlock(g: Grid, x: int, y: int, bits: bv8, on: bool, ghost m: Mask) returns (ghost m': Mask)
    requires g.Valid() && g.Shows(m) && Clear(bits, WALLS)
    modifies g.mask
    ensures g.Shows(m') && AllWellFormed([Block(Cell(x, y), bits, on)])
    ensures m' == StampAll(m, [Block(Cell(x, y), bits, on)])
  {
    hide Apply, StampAll;
    SetOrClear(g, x, y, bits, on, m);
    m' := Apply(m, Mark(Cell(x, y), bits, on));
    StampOne(m, Block(Cell(x, y), bits, on));
    ApplyOne(m, Mark(Cell(x, y), bits, on));
  }

  /** What one footprint tile contributes. */
  method StampTile(g: Grid, gx: int, gy: int, kind: int, dir: int, on: bool, ghost m: Mask) returns (ghost m': Mask)
    requires g.Valid() && g.Shows(m) && (kind == 1 || kind == 2)
    modifies g.mask
    ensures m' == StampAll(m, TileStamps(kind, dir, Cell(gx, gy), on)) && g.Shows(m')
  {
    hide StampAll;
    m' := m;
    if kind == 1 {
      m' := MarkBlock(g, gx, gy, SOLID, on, m);
    } else if dir == 0 {
      m' := MarkEdge(g, gx, gy, W, on, m);
    } else if dir == 2 {
      m' := MarkEdge(g, gx, gy, S, on, m);
    } else if dir == 4 {
      m' := MarkEdge(g, gx, gy, E, on, m);
    } else if dir == 6 {
      m' := MarkEdge(g, gx, gy, N, on, m);
    } else {
      StampNone(m);
    }
  }

  lemma StampNone(m: Mask)
    ensures StampAll(m, []) == m
  {
  }

  /** One row of a footprint, `w` tiles from (gx, gy). */
  method StampRow(g: Grid, gx: int, gy: int, w: nat, kind: int, dir: int, block: bool, ghost m: Mask)
    returns (ghost m': Mask)
    requires g.Valid() && g.Shows(m) && (kind == 1 || kind == 2)
    modifies g.mask
    ensures m' == StampAll(m, RowStamps(kind, dir, Cell(gx, gy), w, block)) && g.Shows(m')
  {
    hide StampAll, TileStamps;
    m' := m;
    StampNone(m);
    for dx := 0 to w
      invariant m' == StampAll(m, RowStamps(kind, dir, Cell(gx, gy), dx, block)) && g.Shows(m')
    {
      StampConcat(m, RowStamps(kind, dir, Cell(gx, gy), dx, block), TileStamps(kind, dir, Cell(gx + dx, gy), block));
      m' := StampTile(g, gx + dx, gy, kind, dir, block, m');
    }
  }

  /** Stamps (or clears) every tile of a scenery object's footprint. */
  method StampSceneryFootprint(g: Grid, worldX: int, worldY: int, dir: int, def: Option<SceneryDef>, block: bool,
    ghost m: Mask)
    returns (ghost m': Mask)
    requires g.Valid() && g.Shows(m)
    modifies g.mask
    ensures m' == StampAll(m, Footprint(def, dir, Cell(worldX - g.baseX, worldY - g.baseY), block)) && g.Shows(m')
  {
    hide StampAll, RowStamps;
    m' := m;
    StampNone(m);
    if def.None? || def.value.id == SCENERY_COLLISION_SKIP_ID {
      return;
    }
    var kind := def.value.kind;
    if kind != 1 && kind != 2 {
      return;
    }
    var w, h := def.value.width, def.value.height;
    if dir != 0 && dir != 4 {
      w, h := h, w;
    }
    if w < 1 {
      w := 1;
    }
    if h < 1 {
      h := 1;
    }
    var gx, gy := worldX - g.baseX, worldY - g.baseY;
    for dy := 0 to h
      invariant m' == StampAll(m, RectStamps(kind, dir, Cell(gx, gy), w, dy, block)) && g.Shows(m')
    {
      StampConcat(m, RectStamps(kind, dir, Cell(gx, gy), w, dy, block),
        RowStamps(kind, dir, Cell(gx, gy + dy), w, block));
      m' := StampRow(g, gx, gy + dy, w, kind, dir, block, m');
    }
  }

  /** The edge or diagonal a boundary direction names, set or cleared. */
  method SetOrClearEdge(g: Grid, gx: int, gy: int, dir: int, block: bool, ghost m: Mask) returns (ghost m': Mask)
    requires g.Valid() && g.Shows(m)
    modifies g.mask
    ensures m' == StampAll(m, BoundaryStamps(Cell(gx, gy), dir, block)) && g.Shows(m')
  {
    hide StampAll;
    m' := m;
    if dir == 0 {
      m' := MarkEdge(g, gx, gy, N, block, m);
    } else if dir == 1 {
      m' := MarkEdge(g, gx, gy, W, block, m);
    } else if dir == 2 {
      m' := MarkBlock(g, gx, gy, FULL_BLOCK_A, block, m);
    } else if dir == 3 {
      m' := MarkBlock(g, gx, gy, FULL_BLOCK_B, block, m);
    } else {
      StampNone(m);
    }
  }

  /** One landscape tile. */
  method ApplyTile(g: Grid, f: Facts, tile: Tile, gx: int, gy: int, ghost m: Mask) returns (ghost m': Mask)
    requires g.Valid() && g.Shows(m)
    modifies g.mask
    ensures m' == StampAll(m, LandscapeStamps(f, tile, Cell(gx, gy))) && g.Shows(m')
  {
    hide StampAll;
    ghost var c := Cell(gx, gy);
    m' := m;
    StampNone(m);
    ghost var north: seq<Stamp>, west: seq<Stamp>, diagonal: seq<Stamp>, ground: seq<Stamp> := [], [], [], [];
    var vw := tile.verticalWall;
    if vw > 0 && f.FixedWall(vw - 1) {
      m' := MarkEdge(g, gx, gy, N, true, m');
      north := [Edge(c, N, true)];
    }
    StampNone(m');
    ghost var m1 := m';
    var hw := tile.horizontalWall;
    if hw > 0 && f.FixedWall(hw - 1) {
      m' := MarkEdge(g, gx, gy, W, true, m');
      west := [Edge(c, W, true)];
    }
    StampNone(m');
    ghost var m2 := m';
    var dw := tile.diagonalWalls;
    if dw > 0 {
      var idx := dw - 1;
      if dw > 12000 && dw < 24000 {
        idx := dw - 12001;
      }
      if f.FixedWall(idx) {
        if dw < 12000 {
          m' := MarkBlock(g, gx, gy, FULL_BLOCK_B, true, m');
          diagonal := [Block(c, FULL_BLOCK_B, true)];
        } else if dw > 12000 && dw < 24000 {
          m' := MarkBlock(g, gx, gy, FULL_BLOCK_A, true, m');
          diagonal := [Block(c, FULL_BLOCK_A, true)];
        }
      }
    }
    StampNone(m');
    ghost var m3 := m';
    if f.OverlayBlocks(tile.groundOverlay) {
      m' := MarkBlock(g, gx, gy, FULL_BLOCK_C, true, m');
      ground := [Block(c, FULL_BLOCK_C, true)];
    }
    StampConcat(m, north, west);
    StampConcat(m, north + west, diagonal);
    StampConcat(m, north + west + diagonal, ground);
  }

  /** One sector's walls and ground, placed at (offX, offY). */
  method ApplySectorToGrid(g: Grid, s: Sector, offX: int, offY: int, f: Facts, ghost m: Mask) returns (ghost m': Mask)
    requires g.Valid() && g.Shows(m)
    modifies g.mask
    ensures m' == StampAll(m, SectorStamps(f, s, offX, offY, SECTOR_SIZE)) && g.Shows(m')
  {
    hide StampAll, LandscapeStamps;
    m' := m;
    StampNone(m);
    for sx := 0 to SECTOR_SIZE
      invariant m' == StampAll(m, SectorStamps(f, s, offX, offY, sx)) && g.Shows(m')
    {
      ghost var before := m';
      StampNone(before);
      for sy := 0 to SECTOR_SIZE
        invariant m' == StampAll(before, ColumnStamps(f, s, offX, offY, sx, sy)) && g.Shows(m')
      {
        var gx := offX + sx;
        var gy := offY + sy;
        StampNone(m');
        ghost var inGrid := 0 <= gx < GRID_SIZE && 0 <= gy < GRID_SIZE;
        StampConcat(before, ColumnStamps(f, s, offX, offY, sx, sy),
          if inGrid then LandscapeStamps(f, s[sx * SECTOR_SIZE + sy], Cell(gx, gy)) else []);
        if gx < 0 || gx >= GRID_SIZE || gy < 0 || gy >= GRID_SIZE {
          continue;
        }
        m' := ApplyTile(g, f, s[sx * SECTOR_SIZE + sy], gx, gy, m');
      }
      StampConcat(m, SectorStamps(f, s, offX, offY, sx), ColumnStamps(f, s, offX, offY, sx, SECTOR_SIZE));
    }
  }

  method ApplyScenery(g: Grid, f: Facts, ghost m: Mask) returns (ghost m': Mask)
    requires g.Valid() && g.Shows(m)
    modifies g.mask
    ensures m' == StampAll(m, SceneryStamps(f, Cell(g.baseX, g.baseY), |f.sceneryLocs|)) && g.Shows(m')
  {
    hide StampAll, Footprint;
    ghost var base := Cell(g.baseX, g.baseY);
    m' := m;
    StampNone(m);
    for i := 0 to |f.sceneryLocs|
      invariant m' == StampAll(m, SceneryStamps(f, base, i)) && g.Shows(m')
    {
      var loc := f.sceneryLocs[i];
      StampConcat(m, SceneryStamps(f, base, i),
        Footprint(f.Scenery(loc.defId), loc.direction, Cell(loc.x - base.x, loc.y - base.y), true));
      m' := StampSceneryFootprint(g, loc.x, loc.y, loc.direction, f.Scenery(loc.defId), true, m');
    }
  }

  /** Fixed walls and fences; openable doors stay passable in the static layer. */
  method ApplyBoundaries(g: Grid, f: Facts, ghost m: Mask) returns (ghost m': Mask)
    requires g.Valid() && g.Shows(m)
    modifies g.mask
    ensures m' == StampAll(m, WallStamps(f, Cell(g.baseX, g.baseY), |f.boundaryLocs|)) && g.Shows(m')
  {
    hide StampAll, BoundaryStamps;
    ghost var base := Cell(g.baseX, g.baseY);
    m' := m;
    StampNone(m);
    for i := 0 to |f.boundaryLocs|
      invariant m' == StampAll(m, WallStamps(f, base, i)) && g.Shows(m')
    {
      var loc := f.boundaryLocs[i];
      var local := g.World2Local(loc.x, loc.y);
      StampNone(m');
      StampConcat(m, WallStamps(f, base, i),
        if f.FixedWall(loc.defId) && local.1 then BoundaryStamps(local.0, loc.direction, true) else []);
      if !f.FixedWall(loc.defId) || !local.1 {
        continue;
      }
      m' := SetOrClearEdge(g, local.0.x, local.0.y, loc.direction, true, m');
    }
  }

  method ApplyLiveBoundaries(g: Grid, f: Facts, bs: seq<LiveBoundary>, ghost m: Mask) returns (ghost m': Mask)
    requires g.Valid() && g.Shows(m)
    modifies g.mask
    ensures m' == StampAll(m, LiveBoundaryStamps(f, Cell(g.baseX, g.baseY), bs, |bs|)) && g.Shows(m')
  {
    hide StampAll, BoundaryStamps;
    ghost var base := Cell(g.baseX, g.baseY);
    m' := m;
    StampNone(m);
    for i := 0 to |bs|
      invariant m' == StampAll(m, LiveBoundaryStamps(f, base, bs, i)) && g.Shows(m')
    {
      var b := bs[i];
      var local := g.World2Local(b.x, b.y);
      StampNone(m');
      ghost var walled := !b.removed && b.id >= 0 && f.LiveWall(b.id);
      StampConcat(m, LiveBoundaryStamps(f, base, bs, i), if local.1 then BoundaryStamps(local.0, b.dir, walled)
        else []);
      if !local.1 {
        continue;
      }
      var block := false;
      if !b.removed && b.id >= 0 {
        block := f.LiveWall(b.id);
      }
      m' := SetOrClearEdge(g, local.0.x, local.0.y, b.dir, block, m');
    }
  }

  /** One live scenery record: the static footprint goes, the current one comes. */
  method ApplyRecord(g: Grid, f: Facts, s: LiveScenery, ghost m: Mask) returns (ghost m': Mask)
    requires g.Valid() && g.Shows(m)
    modifies g.mask
    ensures m' == StampAll(m, RecordStamps(f, Cell(g.baseX, g.baseY), s)) && g.Shows(m')
  {
    hide StampAll, Footprint;
    m' := m;
    StampNone(m);
    var local := g.World2Local(s.x, s.y);
    if !local.1 {
      return;
    }
    var dir := 0;
    var staticDef := None;
    var p := f.SceneryAt(s.x, s.y);
    if p.Some? {
      dir := p.value.direction;
      staticDef := f.Scenery(p.value.defId);
    }
    ghost var cleared: seq<Stamp>, placed: seq<Stamp> := [], [];
    if staticDef.Some? {
      m' := StampSceneryFootprint(g, s.x, s.y, dir, staticDef, false, m');
      cleared := Footprint(staticDef, dir, local.0, false);
    } else if s.removed {
      m' := MarkBlock(g, local.0.x, local.0.y, SOLID, false, m');
      cleared := [Block(local.0, SOLID, false)];
    }
    StampNone(m');
    if !s.removed {
      m' := StampSceneryFootprint(g, s.x, s.y, dir, f.Scenery(s.id), true, m');
      placed := Footprint(f.Scenery(s.id), dir, local.0, true);
    }
    StampConcat(m, cleared, placed);
  }

  /** Reconciles the static grid with the live view of doors and scenery. */
  method ApplyLiveOverlay(g: Grid, f: Facts, live: Option<LiveState>, ghost m: Mask) returns (ghost m': Mask)
    requires g.Valid() && g.Shows(m)
    modifies g.mask
    ensures m' == StampAll(m, OverlayStamps(f, Cell(g.baseX, g.baseY), live)) && g.Shows(m')
  {
    hide StampAll, RecordStamps;
    m' := m;
    StampNone(m);
    if live.None? {
      return;
    }
    ghost var base := Cell(g.baseX, g.baseY);
    var bs, rs := live.value.boundaries, live.value.scenery;
    m' := ApplyLiveBoundaries(g, f, bs, m);
    ghost var before := m';
    StampNone(before);
    for i := 0 to |rs|
      invariant m' == StampAll(before, LiveSceneryStamps(f, base, rs, i)) && g.Shows(m')
    {
      StampConcat(before, LiveSceneryStamps(f, base, rs, i), RecordStamps(f, base, rs[i]));
      m' := ApplyRecord(g, f, rs[i], m');
    }
    StampConcat(m, LiveBoundaryStamps(f, base, bs, |bs|), LiveSceneryStamps(f, base, rs, |rs|));
  }

  // ----- the whole grid -----

  const PLANE_HEIGHT := 944

  /** Integer division that truncates towards zero. */
  function Quotient(a: int, b: int): int
    requires b > 0
  {
    if a >= 0 then a / b else -((-a) / b)
  }

  /** Plane, middle region and origin for a player position. */
  datatype Origin = Origin(plane: int, midX: int, midY: int, baseX: int, baseY: int)

  function OriginOf(worldX: int, worldY: int, plane: int): Origin {
    var p := if plane <= 0 then Quotient(worldY, PLANE_HEIGHT) else plane;
    var localY := worldY - p * PLANE_HEIGHT;
    var midX := Quotient(worldX + 24, SECTOR_SIZE);
    var midY := Quotient(localY + 24, SECTOR_SIZE);
    Origin(p, midX, midY, midX * SECTOR_SIZE - SECTOR_SIZE, midY * SECTOR_SIZE - SECTOR_SIZE + p * PLANE_HEIGHT)
  }

  /** Everything `BuildGrid` stamps, in order. */
  function GridStamps(ls: Landscape, f: Facts, o: Origin, live: Option<LiveState>): (ss: seq<Stamp>)
    ensures AllWellFormed(ss)
  {
    StaticStamps(ls, f, o.plane, o.midX, o.midY, Cell(o.baseX, o.baseY))
      + OverlayStamps(f, Cell(o.baseX, o.baseY), live)
  }

  /** The mask `BuildGrid` produces. */
  function BuiltMask(ls: Landscape, f: Facts, o: Origin, live: Option<LiveState>): Mask {
    StampAll(Blank(), GridStamps(ls, f, o, live))
  }

  /** One of the four sectors around the player. */
  method LoadSector(g: Grid, ls: Landscape, f: Facts, o: Origin, dsx: int, dsy: int, ghost m: Mask)
    returns (ghost m': Mask)
    requires g.Valid() && g.Shows(m)
    modifies g.mask
    ensures m' == StampAll(m, SectorAt(ls, f, o.plane, o.midX, o.midY, dsx, dsy)) && g.Shows(m')
  {
    hide StampAll, SectorStamps;
    m' := m;
    StampNone(m);
    var key := SectorKey(o.plane, o.midX - 1 + dsx + ARCHIVE_OFFSET_X, o.midY - 1 + dsy + ARCHIVE_OFFSET_Y);
    if key in ls {
      m' := ApplySectorToGrid(g, ls[key], dsx * SECTOR_SIZE, dsy * SECTOR_SIZE, f, m);
    }
  }

  method LoadSectors(g: Grid, ls: Landscape, f: Facts, o: Origin, ghost m: Mask) returns (ghost m': Mask)
    requires g.Valid() && g.Shows(m)
    modifies g.mask
    ensures m' == StampAll(m, LandStamps(ls, f, o.plane, o.midX, o.midY)) && g.Shows(m')
  {
    hide StampAll, SectorAt;
    ghost var s00, s01 := SectorAt(ls, f, o.plane, o.midX, o.midY, 0, 0),
      SectorAt(ls, f, o.plane, o.midX, o.midY, 0, 1);
    ghost var s10, s11 := SectorAt(ls, f, o.plane, o.midX, o.midY, 1, 0),
      SectorAt(ls, f, o.plane, o.midX, o.midY, 1, 1);
    m' := LoadSector(g, ls, f, o, 0, 0, m);
    m' := LoadSector(g, ls, f, o, 0, 1, m');
    m' := LoadSector(g, ls, f, o, 1, 0, m');
    m' := LoadSector(g, ls, f, o, 1, 1, m');
    StampConcat(m, s00, s01);
    StampConcat(m, s00 + s01, s10);
    StampConcat(m, s00 + s01 + s10, s11);
  }

  /** The grid around a player: landscape, scenery, fixed walls, then the live overlay. */
  method BuildGrid(ls: Landscape, f: Facts, worldX: int, worldY: int, plane: int, live: Option<LiveState>)
    returns (g: Grid)
    ensures g.Valid() && fresh(g) && fresh(g.mask)
    ensures var o := OriginOf(worldX, worldY, plane);
            && g.baseX == o.baseX && g.baseY == o.baseY
            && g.playerX == worldX - o.baseX && g.playerY == worldY - o.baseY
            && g.View() == BuiltMask(ls, f, o, live)
    ensures Mirrored(g.View())
  {
    hide StampAll, LandStamps, OverlayStamps, SceneryStamps, WallStamps, Mirrored, OriginOf, Blank;
    var o := OriginOf(worldX, worldY, plane);
    g := new Grid(o.baseX, o.baseY, worldX - o.baseX, worldY - o.baseY);
    ghost var base := Cell(o.baseX, o.baseY);
    ghost var land := LandStamps(ls, f, o.plane, o.midX, o.midY);
    ghost var scenery := SceneryStamps(f, base, |f.sceneryLocs|);
    ghost var walls := WallStamps(f, base, |f.boundaryLocs|);
    ghost var overlay := OverlayStamps(f, base, live);
    ghost var m := LoadSectors(g, ls, f, o, Blank());
    m := ApplyScenery(g, f, m);
    m := ApplyBoundaries(g, f, m);
    m := ApplyLiveOverlay(g, f, live, m);
    StampConcat(Blank(), land, scenery);
    StampConcat(Blank(), land + scenery, walls);
    StampConcat(Blank(), land + scenery + walls, overlay);
    g.ShownIsView(m);
    BuiltMirrored(ls, f, o, live);
  }

  /** Whatever the archive, the definitions and the live state are, the built grid is mirrored. */
  lemma BuiltMirrored(ls: Landscape, f: Facts, o: Origin, live: Option<LiveState>)
    ensures Mirrored(BuiltMask(ls, f, o, live))
  {
    BlankMirrored();
    StampsKeepMirrored(Blank(), GridStamps(ls, f, o, live));
  }
}
