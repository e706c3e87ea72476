/** What every bit of a built grid stands for. */
module GridContents {
  import opened Flags
  import opened Walks
  import opened Stamps
  import opened Options
  import opened FactTables
  import opened Layers
  import opened GridBuilder
  import opened GridTheorems

  /** What may stand in the way: a wall on the edge north or west of a tile, a diagonal wall of either
      kind, impassable ground or a solid object on it, and the mark that it is an object. */
  datatype Feature = North | West | DiagonalA | DiagonalB | Ground | Object

  datatype Spot = Spot(what: Feature, at: Cell)

  // ----- the landscape -----

  /** A wall, fence or diagonal that no one can open. */
  predicate Fixed(f: Facts, id: int) {
    id in f.boundaryDefs && f.boundaryDefs[id].doorType != 0 && f.boundaryDefs[id].unknown == 0
  }

  /** Water, lava, void: by the overlay table or, without one, overlays 2 and 11; 250 stands for 2. */
  predicate Impassable(f: Facts, raw: int) {
    if |f.tileObjectTypes| == 0 then raw == 2 || raw == 11 || raw == 250
    else if raw == 250 then |f.tileObjectTypes| >= 2 && f.tileObjectTypes[1] != 0
    else 1 <= raw <= |f.tileObjectTypes| && f.tileObjectTypes[raw - 1] != 0
  }

  /** The landscape tile shown at `c`. */
  function TileAt(ls: Landscape, o: Origin, c: Cell): Option<Tile> {
    if !InGrid(c) then None
    else
      var key := SectorKey(o.plane, o.midX + c.x / SECTOR_SIZE + 47, o.midY + c.y / SECTOR_SIZE + 36);
      if key in ls then Some(ls[key][c.x % SECTOR_SIZE * SECTOR_SIZE + c.y % SECTOR_SIZE]) else None
  }

  predicate TileHas(f: Facts, t: Tile, what: Feature) {
    match what
    case North => t.verticalWall > 0 && Fixed(f, t.verticalWall - 1)
    case West => t.horizontalWall > 0 && Fixed(f, t.horizontalWall - 1)
    case DiagonalA => 12000 < t.diagonalWalls < 24000 && Fixed(f, t.diagonalWalls - 12001)
    case DiagonalB => 0 < t.diagonalWalls < 12000 && Fixed(f, t.diagonalWalls - 1)
    case Ground => Impassable(f, t.groundOverlay)
    case Object => false
  }

  predicate LandHas(ls: Landscape, f: Facts, o: Origin, p: Spot) {
    var t := TileAt(ls, o, p.at);
    t.Some? && TileHas(f, t.value, p.what)
  }

  // ----- placed objects -----

  /** The rectangle of an object placed at `q` covers `c`; a quarter turn swaps its sides. */
  predicate Covers(def: SceneryDef, dir: int, q: Cell, c: Cell) {
    var upright := dir == 0 || dir == 4;
    var w := if upright then def.width else def.height;
    var h := if upright then def.height else def.width;
    (c.x == q.x || q.x < c.x < q.x + w) && (c.y == q.y || q.y < c.y < q.y + h)
  }

  /** A solid object blocks every tile it covers; a wall-like one the edge of every tile its direction names. */
  predicate ObjectHas(f: Facts, id: int, dir: int, q: Cell, p: Spot) {
    && id in f.sceneryDefs && f.sceneryDefs[id].id != 1147
    && var def := f.sceneryDefs[id];
       match p.what
       case Ground | Object => def.kind == 1 && Covers(def, dir, q, p.at)
       case North => def.kind == 2 && ((dir == 6 && Covers(def, dir, q, p.at)) ||
                                       (dir == 2 && Covers(def, dir, q, Cell(p.at.x, p.at.y - 1))))
       case West => def.kind == 2 && ((dir == 0 && Covers(def, dir, q, p.at)) ||
                                      (dir == 4 && Covers(def, dir, q, Cell(p.at.x - 1, p.at.y))))
       case DiagonalA | DiagonalB => false
  }

  /** The spot a boundary at `q` with this direction occupies. */
  predicate BoundaryAt(q: Cell, dir: int, p: Spot) {
    && InGrid(q) && p.at == q
    && ((dir == 0 && p.what.North?) || (dir == 1 && p.what.West?) ||
        (dir == 2 && p.what.DiagonalA?) || (dir == 3 && p.what.DiagonalB?))
  }

  function Local(o: Origin, x: int, y: int): Cell {
    Cell(x - o.baseX, y - o.baseY)
  }

  /** The fixed content of a spot: landscape, placed objects, fixed boundaries. */
  predicate StaticHas(ls: Landscape, f: Facts, o: Origin, p: Spot) {
    || LandHas(ls, f, o, p)
    || (exists loc :: loc in f.sceneryLocs && ObjectHas(f, loc.defId, loc.direction, Local(o, loc.x, loc.y), p))
    || (exists loc :: loc in f.boundaryLocs && Fixed(f, loc.defId)
                      && BoundaryAt(Local(o, loc.x, loc.y), loc.direction, p))
  }

  // ----- the live view -----

  /** The boundary that stands there now blocks: a fixed one, or a door that is closed. */
  predicate BlocksNow(f: Facts, b: LiveBoundary) {
    && !b.removed && b.id >= 0 && b.id in f.boundaryDefs
    && (Fixed(f, b.id) || f.boundaryDefs[b.id].doorType == 1)
  }

  /** The last record that names the spot decides, the fixed content if none does. */
  predicate AfterBoundaries(f: Facts, o: Origin, bs: seq<LiveBoundary>, p: Spot, before: bool)
    decreases |bs|
  {
    if bs == [] then before
    else
      var init, b := bs[..|bs| - 1], bs[|bs| - 1];
      if BoundaryAt(Local(o, b.x, b.y), b.dir, p) then BlocksNow(f, b) else AfterBoundaries(f, o, init, p, before)
  }

  /** The direction of the first object placed at the record's tile, 0 without one. */
  function PlacedDir(f: Facts, s: LiveScenery): int {
    var first := f.SceneryAt(s.x, s.y);
    if first.Some? then first.value.direction else 0
  }

  /** The object that stands there now occupies the spot. */
  predicate RecordSets(f: Facts, o: Origin, s: LiveScenery, p: Spot) {
    var q := Local(o, s.x, s.y);
    InGrid(q) && !s.removed && ObjectHas(f, s.id, PlacedDir(f, s), q, p)
  }

  /** The object placed there first occupied the spot or, without one of a known kind, an object removed now
      may have. */
  predicate RecordClears(f: Facts, o: Origin, s: LiveScenery, p: Spot) {
    var q, first := Local(o, s.x, s.y), f.SceneryAt(s.x, s.y);
    && InGrid(q)
    && if first.Some? && first.value.defId in f.sceneryDefs then
         ObjectHas(f, first.value.defId, PlacedDir(f, s), q, p)
       else s.removed && p.at == q && (p.what.Ground? || p.what.Object?)
  }

  predicate AfterScenery(f: Facts, o: Origin, rs: seq<LiveScenery>, p: Spot, before: bool)
    decreases |rs|
  {
    if rs == [] then before
    else
      var init, s := rs[..|rs| - 1], rs[|rs| - 1];
      RecordSets(f, o, s, p) || (!RecordClears(f, o, s, p) && AfterScenery(f, o, init, p, before))
  }

  /** What the built grid has at a spot. */
  predicate BuiltHas(ls: Landscape, f: Facts, o: Origin, live: Option<LiveState>, p: Spot) {
    var fixed := StaticHas(ls, f, o, p);
    if live.None? then fixed
    else AfterScenery(f, o, live.value.scenery, p, AfterBoundaries(f, o, live.value.boundaries, p, fixed))
  }

  // ----- stamps, spot by spot -----

  function EdgeSpot(q: Cell, side: Dir): Spot
    requires Cardinal(side)
  {
    match side
    case N => Spot(North, q)
    case S => Spot(North, Cell(q.x, q.y + 1))
    case W => Spot(West, q)
    case E => Spot(West, Cell(q.x + 1, q.y))
  }

  function BlockBit(what: Feature): bv8 {
    match what
    case DiagonalA => FULL_BLOCK_A
    case DiagonalB => FULL_BLOCK_B
    case Ground => FULL_BLOCK_C
    case Object => 128
    case North | West => 0
  }

  predicate Names(s: Stamp, p: Spot) {
    match s
    case Edge(q, side, _) => Cardinal(side) && p == EdgeSpot(q, side)
    case Block(q, bits, _) => p.at == q && bits & BlockBit(p.what) != 0
  }

  /** The last stamp that names the spot. */
  function Effect(ss: seq<Stamp>, p: Spot): Write {
    if ss == [] then Untouched
    else if Names(ss[|ss| - 1], p) then Written(ss[|ss| - 1].on)
    else Effect(ss[..|ss| - 1], p)
  }

  /** The spot that bit `f` of tile `c` is about. */
  function SpotOf(c: Cell, f: bv8): Spot
    requires SingleBit(f)
  {
    if f == WALL_NORTH then Spot(North, c)
    else if f == WALL_SOUTH then Spot(North, Cell(c.x, c.y + 1))
    else if f == WALL_EAST then Spot(West, c)
    else if f == WALL_WEST then Spot(West, Cell(c.x + 1, c.y))
    else if f == FULL_BLOCK_A then Spot(DiagonalA, c)
    else if f == FULL_BLOCK_B then Spot(DiagonalB, c)
    else if f == FULL_BLOCK_C then Spot(Ground, c)
    else Spot(Object, c)
  }

  lemma EdgeMarks(q: Cell, side: Dir, on: bool, c: Cell, f: bv8)
    requires Cardinal(side) && SingleBit(f)
    ensures Hits(Mark(q, OwnBit(side), on), c, f) || Hits(Mark(Move(q, side), OwnBit(Opposite(side)), on), c, f) <==>
            SpotOf(c, f) == EdgeSpot(q, side)
  {
  }

  lemma BlockMarks(q: Cell, bits: bv8, on: bool, c: Cell, f: bv8)
    requires Clear(bits, WALLS) && SingleBit(f)
    ensures Hits(Mark(q, bits, on), c, f) <==> Names(Block(q, bits, on), SpotOf(c, f))
  {
  }

  lemma StampEffect(s: Stamp, c: Cell, f: bv8)
    requires WellFormed(s) && SingleBit(f)
    ensures LastWrite(Marks(s), c, f) == if Names(s, SpotOf(c, f)) then Written(s.on) else Untouched
  {
    match s
    case Edge(q, side, on) =>
      EdgeMarks(q, side, on, c, f);
      hide Hits, LastWrite, SpotOf, EdgeSpot;
      LastWriteTwo(Mark(q, OwnBit(side), on), Mark(Move(q, side), OwnBit(Opposite(side)), on), c, f);
    case Block(q, bits, on) =>
      BlockMarks(q, bits, on, c, f);
      hide Hits, LastWrite, SpotOf, Names;
      LastWriteOne(Mark(q, bits, on), c, f);
  }

  lemma {:induction false} StampsEffect(ss: seq<Stamp>, c: Cell, f: bv8)
    requires AllWellFormed(ss) && SingleBit(f)
    ensures LastWrite(AllMarks(ss), c, f) == Effect(ss, SpotOf(c, f))
    decreases |ss|
  {
    hide LastWrite, SpotOf, Names, Hits, Marks, WellFormed;
    if ss == [] {
      NoMarks(c, f);
    } else {
      var n := |ss| - 1;
      assert AllMarks(ss) == AllMarks(ss[..n]) + Marks(ss[n]);
      StampsEffect(ss[..n], c, f);
      hide AllMarks;
      LastWriteConcat(AllMarks(ss[..n]), Marks(ss[n]), c, f);
      StampEffect(ss[n], c, f);
    }
  }

  lemma NoMarks(c: Cell, f: bv8)
    ensures AllMarks([]) == [] && LastWrite([], c, f) == Untouched
  {
  }

  /** A bit of the stamped mask is what the last stamp on its spot says. */
  lemma StampedBit(m: Mask, ss: seq<Stamp>, c: Cell, f: bv8)
    requires AllWellFormed(ss) && InGrid(c) && SingleBit(f)
    ensures !Clear(StampAll(m, ss)[c.x][c.y], f) <==>
            match Effect(ss, SpotOf(c, f))
            case Untouched => !Clear(m[c.x][c.y], f)
            case Written(on) => on
  {
    LastWriterWins(m, AllMarks(ss), c, f);
    StampsEffect(ss, c, f);
  }

  lemma {:induction false} EffectConcat(ss: seq<Stamp>, ts: seq<Stamp>, p: Spot)
    ensures Effect(ss + ts, p) == if Effect(ts, p).Untouched? then Effect(ss, p) else Effect(ts, p)
    decreases |ts|
  {
    hide Names;
    if ts == [] {
      assert ss + ts == ss;
    } else {
      assert (ss + ts)[..|ss + ts| - 1] == ss + ts[..|ts| - 1];
      EffectConcat(ss, ts[..|ts| - 1], p);
    }
  }

  // ----- footprints -----

  /** The footprint tile whose stamp names the spot, if any does. */
  function Target(kind: int, dir: int, p: Spot): Option<Cell> {
    if kind == 1 then if p.what.Ground? || p.what.Object? then Some(p.at) else None
    else if kind != 2 then None
    else if p.what.West? then
      if dir == 0 then Some(p.at) else if dir == 4 then Some(Cell(p.at.x - 1, p.at.y)) else None
    else if p.what.North? then
      if dir == 6 then Some(p.at) else if dir == 2 then Some(Cell(p.at.x, p.at.y - 1)) else None
    else None
  }

  predicate TargetIn(kind: int, dir: int, q: Cell, w: nat, h: nat, p: Spot) {
    var t := Target(kind, dir, p);
    t.Some? && q.x <= t.value.x < q.x + w && q.y <= t.value.y < q.y + h
  }

  function If(b: bool, on: bool): Write {
    if b then Written(on) else Untouched
  }

  lemma TileEffect(kind: int, dir: int, q: Cell, on: bool, p: Spot)
    ensures Effect(TileStamps(kind, dir, q, on), p) == If(Target(kind, dir, p) == Some(q), on)
  {
    var ss := TileStamps(kind, dir, q, on);
    assert ss != [] ==> |ss| == 1 && ss[..0] == [];
  }

  lemma {:induction false} RowEffect(kind: int, dir: int, q: Cell, n: nat, on: bool, p: Spot)
    ensures Effect(RowStamps(kind, dir, q, n, on), p) == If(TargetIn(kind, dir, q, n, 1, p), on)
  {
    EffectNone(p);
    hide Effect, Target, TileStamps, AllWellFormed;
    if n > 0 {
      var c := Cell(q.x + n - 1, q.y);
      assert RowStamps(kind, dir, q, n, on) == RowStamps(kind, dir, q, n - 1, on) + TileStamps(kind, dir, c, on);
      hide RowStamps;
      RowEffect(kind, dir, q, n - 1, on, p);
      TileEffect(kind, dir, c, on, p);
      EffectConcat(RowStamps(kind, dir, q, n - 1, on), TileStamps(kind, dir, c, on), p);
    }
  }

  lemma {:induction false} RectEffect(kind: int, dir: int, q: Cell, w: nat, n: nat, on: bool, p: Spot)
    ensures Effect(RectStamps(kind, dir, q, w, n, on), p) == If(TargetIn(kind, dir, q, w, n, p), on)
  {
    EffectNone(p);
    hide Effect, Target, RowStamps, AllWellFormed;
    if n > 0 {
      var row := Cell(q.x, q.y + n - 1);
      assert RectStamps(kind, dir, q, w, n, on) ==
             RectStamps(kind, dir, q, w, n - 1, on) + RowStamps(kind, dir, row, w, on);
      hide RectStamps;
      RectEffect(kind, dir, q, w, n - 1, on, p);
      RowEffect(kind, dir, row, w, on, p);
      EffectConcat(RectStamps(kind, dir, q, w, n - 1, on), RowStamps(kind, dir, row, w, on), p);
    }
  }

  lemma TargetIsCovered(def: SceneryDef, dir: int, q: Cell, p: Spot)
    requires def.id != 1147
    ensures TargetIn(def.kind, dir, q, Columns(def, dir), Rows(def, dir), p) <==>
            match p.what
            case Ground | Object => def.kind == 1 && Covers(def, dir, q, p.at)
            case North => def.kind == 2 && ((dir == 6 && Covers(def, dir, q, p.at)) ||
                                            (dir == 2 && Covers(def, dir, q, Cell(p.at.x, p.at.y - 1))))
            case West => def.kind == 2 && ((dir == 0 && Covers(def, dir, q, p.at)) ||
                                           (dir == 4 && Covers(def, dir, q, Cell(p.at.x - 1, p.at.y))))
            case DiagonalA | DiagonalB => false
  {
  }

  /** A footprint touches exactly the spots its object occupies. */
  lemma FootprintEffect(f: Facts, id: int, dir: int, q: Cell, on: bool, p: Spot)
    ensures Effect(Footprint(f.Scenery(id), dir, q, on), p) == If(ObjectHas(f, id, dir, q, p), on)
  {
    EffectNone(p);
    hide Effect, RectStamps, AllWellFormed, TargetIn, Covers, Columns, Rows;
    if Collides(f.Scenery(id)) {
      var def := f.sceneryDefs[id];
      RectEffect(def.kind, dir, q, Columns(def, dir), Rows(def, dir), on, p);
      TargetIsCovered(def, dir, q, p);
    }
  }

  // ----- the static layers -----

  lemma BoundaryEffect(q: Cell, dir: int, on: bool, p: Spot)
    requires InGrid(q)
    ensures Effect(BoundaryStamps(q, dir, on), p) == If(BoundaryAt(q, dir, p), on)
  {
    var ss := BoundaryStamps(q, dir, on);
    assert ss != [] ==> |ss| == 1 && ss[..0] == [];
  }

  lemma EffectOne(s: Stamp, p: Spot)
    ensures Effect([s], p) == If(Names(s, p), s.on)
  {
    assert [s][..0] == [];
  }

  lemma EffectNone(p: Spot)
    ensures Effect([], p) == Untouched
  {
  }

  /** At most one stamp, under a condition. */
  function Maybe(b: bool, s: Stamp): seq<Stamp> {
    if b then [s] else []
  }

  lemma MaybeEffect(b: bool, s: Stamp, p: Spot)
    ensures Effect(Maybe(b, s), p) == If(b && Names(s, p), s.on)
  {
    EffectNone(p);
    EffectOne(s, p);
  }

  lemma LandscapeParts(f: Facts, t: Tile, q: Cell)
    ensures LandscapeStamps(f, t, q) ==
            Maybe(TileHas(f, t, North), Edge(q, N, true)) + Maybe(TileHas(f, t, West), Edge(q, W, true)) +
            (Maybe(TileHas(f, t, DiagonalB), Block(q, FULL_BLOCK_B, true)) +
             Maybe(TileHas(f, t, DiagonalA), Block(q, FULL_BLOCK_A, true))) +
            Maybe(TileHas(f, t, Ground), Block(q, FULL_BLOCK_C, true))
  {
    hide AllWellFormed;
  }

  lemma LandscapeNames(q: Cell, p: Spot)
    ensures Names(Edge(q, N, true), p) <==> p == Spot(North, q)
    ensures Names(Edge(q, W, true), p) <==> p == Spot(West, q)
    ensures Names(Block(q, FULL_BLOCK_A, true), p) <==> p == Spot(DiagonalA, q)
    ensures Names(Block(q, FULL_BLOCK_B, true), p) <==> p == Spot(DiagonalB, q)
    ensures Names(Block(q, FULL_BLOCK_C, true), p) <==> p == Spot(Ground, q)
  {
  }

  lemma LandscapeEffect(f: Facts, t: Tile, q: Cell, p: Spot)
    ensures Effect(LandscapeStamps(f, t, q), p) == If(p.at == q && TileHas(f, t, p.what), true)
  {
    LandscapeNames(q, p);
    assert !TileHas(f, t, Object);
    hide Effect, TileHas, LandscapeStamps, Maybe, Names;
    LandscapeParts(f, t, q);
    var a := Maybe(TileHas(f, t, North), Edge(q, N, true));
    var b := Maybe(TileHas(f, t, West), Edge(q, W, true));
    var c := Maybe(TileHas(f, t, DiagonalB), Block(q, FULL_BLOCK_B, true));
    var d := Maybe(TileHas(f, t, DiagonalA), Block(q, FULL_BLOCK_A, true));
    var e := Maybe(TileHas(f, t, Ground), Block(q, FULL_BLOCK_C, true));
    MaybeEffect(TileHas(f, t, North), Edge(q, N, true), p);
    MaybeEffect(TileHas(f, t, West), Edge(q, W, true), p);
    MaybeEffect(TileHas(f, t, DiagonalB), Block(q, FULL_BLOCK_B, true), p);
    MaybeEffect(TileHas(f, t, DiagonalA), Block(q, FULL_BLOCK_A, true), p);
    MaybeEffect(TileHas(f, t, Ground), Block(q, FULL_BLOCK_C, true), p);
    EffectConcat(a, b, p);
    EffectConcat(c, d, p);
    EffectConcat(a + b, c + d, p);
    EffectConcat(a + b + (c + d), e, p);
  }

  lemma {:induction false} ColumnEffect(f: Facts, s: Sector, offX: int, offY: int, sx: nat, n: nat, p: Spot)
    requires sx < SECTOR_SIZE && n <= SECTOR_SIZE
    ensures Effect(ColumnStamps(f, s, offX, offY, sx, n), p) ==
            If(InGrid(p.at) && p.at.x == offX + sx && offY <= p.at.y < offY + n
               && TileHas(f, s[sx * SECTOR_SIZE + (p.at.y - offY)], p.what), true)
  {
    EffectNone(p);
    hide Effect, TileHas, LandscapeStamps, AllWellFormed;
    if n > 0 {
      var c, tile := Cell(offX + sx, offY + n - 1), s[sx * SECTOR_SIZE + n - 1];
      var last := if InGrid(c) then LandscapeStamps(f, tile, c) else [];
      assert ColumnStamps(f, s, offX, offY, sx, n) == ColumnStamps(f, s, offX, offY, sx, n - 1) + last;
      hide ColumnStamps;
      ColumnEffect(f, s, offX, offY, sx, n - 1, p);
      LandscapeEffect(f, tile, c, p);
      EffectConcat(ColumnStamps(f, s, offX, offY, sx, n - 1), last, p);
    }
  }

  lemma {:induction false} SectorEffect(f: Facts, s: Sector, offX: int, offY: int, n: nat, p: Spot)
    requires n <= SECTOR_SIZE
    ensures Effect(SectorStamps(f, s, offX, offY, n), p) ==
            If(InGrid(p.at) && offX <= p.at.x < offX + n && offY <= p.at.y < offY + SECTOR_SIZE
               && TileHas(f, s[(p.at.x - offX) * SECTOR_SIZE + (p.at.y - offY)], p.what), true)
  {
    EffectNone(p);
    hide Effect, TileHas, ColumnStamps, AllWellFormed;
    if n > 0 {
      assert SectorStamps(f, s, offX, offY, n) ==
             SectorStamps(f, s, offX, offY, n - 1) + ColumnStamps(f, s, offX, offY, n - 1, SECTOR_SIZE);
      hide SectorStamps;
      SectorEffect(f, s, offX, offY, n - 1, p);
      ColumnEffect(f, s, offX, offY, n - 1, SECTOR_SIZE, p);
      EffectConcat(SectorStamps(f, s, offX, offY, n - 1), ColumnStamps(f, s, offX, offY, n - 1, SECTOR_SIZE), p);
    }
  }

  /** The tile lies in the sector that is `dsx` to the east and `dsy` to the south. */
  predicate InSector(c: Cell, dsx: int, dsy: int) {
    InGrid(c) && c.x / SECTOR_SIZE == dsx && c.y / SECTOR_SIZE == dsy
  }

  lemma SectorAtEffect(ls: Landscape, f: Facts, o: Origin, dsx: int, dsy: int, p: Spot)
    requires 0 <= dsx <= 1 && 0 <= dsy <= 1
    ensures Effect(SectorAt(ls, f, o.plane, o.midX, o.midY, dsx, dsy), p) ==
            If(InSector(p.at, dsx, dsy) && LandHas(ls, f, o, p), true)
  {
    EffectNone(p);
    hide Effect, TileHas, SectorStamps, AllWellFormed;
    var key := SectorKey(o.plane, o.midX - 1 + dsx + ARCHIVE_OFFSET_X, o.midY - 1 + dsy + ARCHIVE_OFFSET_Y);
    if key in ls {
      SectorEffect(f, ls[key], dsx * SECTOR_SIZE, dsy * SECTOR_SIZE, SECTOR_SIZE, p);
    }
  }

  lemma LandEffect(ls: Landscape, f: Facts, o: Origin, p: Spot)
    ensures Effect(LandStamps(ls, f, o.plane, o.midX, o.midY), p) == If(LandHas(ls, f, o, p), true)
  {
    hide Effect, TileHas, SectorAt, AllWellFormed;
    var s00 := SectorAt(ls, f, o.plane, o.midX, o.midY, 0, 0);
    var s01 := SectorAt(ls, f, o.plane, o.midX, o.midY, 0, 1);
    var s10 := SectorAt(ls, f, o.plane, o.midX, o.midY, 1, 0);
    var s11 := SectorAt(ls, f, o.plane, o.midX, o.midY, 1, 1);
    SectorAtEffect(ls, f, o, 0, 0, p);
    SectorAtEffect(ls, f, o, 0, 1, p);
    SectorAtEffect(ls, f, o, 1, 0, p);
    SectorAtEffect(ls, f, o, 1, 1, p);
    EffectConcat(s00, s01, p);
    EffectConcat(s00 + s01, s10, p);
    EffectConcat(s00 + s01 + s10, s11, p);
  }

  /** One of the first `n` placed objects occupies the spot. */
  predicate SomeObject(f: Facts, base: Cell, n: nat, p: Spot)
    requires n <= |f.sceneryLocs|
  {
    exists loc :: loc in f.sceneryLocs[..n]
                  && ObjectHas(f, loc.defId, loc.direction, Cell(loc.x - base.x, loc.y - base.y), p)
  }

  lemma {:induction false} SceneryEffect(f: Facts, base: Cell, n: nat, p: Spot)
    requires n <= |f.sceneryLocs|
    ensures Effect(SceneryStamps(f, base, n), p) == If(SomeObject(f, base, n, p), true)
  {
    EffectNone(p);
    hide Effect, ObjectHas, Footprint, AllWellFormed;
    if n > 0 {
      var loc := f.sceneryLocs[n - 1];
      var q := Cell(loc.x - base.x, loc.y - base.y);
      var last := Footprint(f.Scenery(loc.defId), loc.direction, q, true);
      assert SceneryStamps(f, base, n) == SceneryStamps(f, base, n - 1) + last;
      assert f.sceneryLocs[..n] == f.sceneryLocs[..n - 1] + [loc];
      hide SceneryStamps;
      SceneryEffect(f, base, n - 1, p);
      FootprintEffect(f, loc.defId, loc.direction, q, true, p);
      EffectConcat(SceneryStamps(f, base, n - 1), last, p);
    }
  }

  predicate SomeWall(f: Facts, base: Cell, n: nat, p: Spot)
    requires n <= |f.boundaryLocs|
  {
    exists loc :: loc in f.boundaryLocs[..n] && Fixed(f, loc.defId)
                  && BoundaryAt(Cell(loc.x - base.x, loc.y - base.y), loc.direction, p)
  }

  lemma {:induction false} WallEffect(f: Facts, base: Cell, n: nat, p: Spot)
    requires n <= |f.boundaryLocs|
    ensures Effect(WallStamps(f, base, n), p) == If(SomeWall(f, base, n, p), true)
  {
    EffectNone(p);
    hide Effect, BoundaryStamps, AllWellFormed;
    if n > 0 {
      var loc := f.boundaryLocs[n - 1];
      var q := Cell(loc.x - base.x, loc.y - base.y);
      var last := if f.FixedWall(loc.defId) && InGrid(q) then BoundaryStamps(q, loc.direction, true) else [];
      assert WallStamps(f, base, n) == WallStamps(f, base, n - 1) + last;
      assert f.boundaryLocs[..n] == f.boundaryLocs[..n - 1] + [loc];
      hide WallStamps;
      WallEffect(f, base, n - 1, p);
      if InGrid(q) {
        BoundaryEffect(q, loc.direction, true, p);
      }
      EffectConcat(WallStamps(f, base, n - 1), last, p);
    }
  }

  lemma StaticEffect(ls: Landscape, f: Facts, o: Origin, p: Spot)
    ensures Effect(StaticStamps(ls, f, o.plane, o.midX, o.midY, Cell(o.baseX, o.baseY)), p) ==
            If(StaticHas(ls, f, o, p), true)
  {
    hide Effect, LandStamps, SceneryStamps, WallStamps, AllWellFormed, LandHas, ObjectHas, BoundaryAt, Fixed;
    var base := Cell(o.baseX, o.baseY);
    var n, k := |f.sceneryLocs|, |f.boundaryLocs|;
    var land := LandStamps(ls, f, o.plane, o.midX, o.midY);
    LandEffect(ls, f, o, p);
    SceneryEffect(f, base, n, p);
    WallEffect(f, base, k, p);
    EffectConcat(land, SceneryStamps(f, base, n), p);
    EffectConcat(land + SceneryStamps(f, base, n), WallStamps(f, base, k), p);
    assert f.sceneryLocs[..n] == f.sceneryLocs && f.boundaryLocs[..k] == f.boundaryLocs;
  }

  // ----- the overlay -----

  /** The state of a spot after a list of stamps. */
  predicate Held(before: bool, w: Write) {
    if w.Untouched? then before else w.on
  }

  lemma LiveWalls(f: Facts, b: LiveBoundary)
    ensures !b.removed && b.id >= 0 && f.LiveWall(b.id) <==> BlocksNow(f, b)
  {
  }

  lemma {:induction false} LiveBoundariesEffect(f: Facts, o: Origin, bs: seq<LiveBoundary>, n: nat, p: Spot,
                                                before: bool)
    requires n <= |bs|
    ensures Held(before, Effect(LiveBoundaryStamps(f, Cell(o.baseX, o.baseY), bs, n), p)) ==
            AfterBoundaries(f, o, bs[..n], p, before)
  {
    EffectNone(p);
    hide Effect, BoundaryStamps, AllWellFormed, BoundaryAt, BlocksNow;
    if n > 0 {
      var base, b := Cell(o.baseX, o.baseY), bs[n - 1];
      var q := Cell(b.x - base.x, b.y - base.y);
      var on := !b.removed && b.id >= 0 && f.LiveWall(b.id);
      var last := if InGrid(q) then BoundaryStamps(q, b.dir, on) else [];
      assert LiveBoundaryStamps(f, base, bs, n) == LiveBoundaryStamps(f, base, bs, n - 1) + last;
      assert bs[..n][..n - 1] == bs[..n - 1];
      hide LiveBoundaryStamps;
      LiveBoundariesEffect(f, o, bs, n - 1, p, before);
      LiveWalls(f, b);
      OnlyInGrid(q, b.dir, p);
      if InGrid(q) {
        BoundaryEffect(q, b.dir, on, p);
      }
      EffectConcat(LiveBoundaryStamps(f, base, bs, n - 1), last, p);
    }
  }

  lemma OnlyInGrid(q: Cell, dir: int, p: Spot)
    ensures BoundaryAt(q, dir, p) ==> InGrid(q)
  {
  }

  lemma RecordEffect(f: Facts, o: Origin, s: LiveScenery, p: Spot)
    ensures Effect(RecordStamps(f, Cell(o.baseX, o.baseY), s), p) ==
            if RecordSets(f, o, s, p) then Written(true)
            else if RecordClears(f, o, s, p) then Written(false)
            else Untouched
  {
    EffectNone(p);
    SolidNames(Local(o, s.x, s.y), p);
    hide Effect, ObjectHas, Footprint, AllWellFormed, Names, Facts.SceneryAt;
    var q, dir := Local(o, s.x, s.y), StaticDir(f, s);
    if InGrid(q) {
      var first := f.SceneryAt(s.x, s.y);
      var off := if StaticDef(f, s).Some? then Footprint(StaticDef(f, s), dir, q, false)
                 else if s.removed then [Block(q, SOLID, false)] else [];
      var on := if s.removed then [] else Footprint(f.Scenery(s.id), dir, q, true);
      assert RecordStamps(f, Cell(o.baseX, o.baseY), s) == off + on;
      hide RecordStamps;
      if StaticDef(f, s).Some? {
        FootprintEffect(f, first.value.defId, dir, q, false, p);
      } else {
        EffectOne(Block(q, SOLID, false), p);
      }
      FootprintEffect(f, s.id, dir, q, true, p);
      EffectConcat(off, on, p);
    }
  }

  lemma SolidNames(q: Cell, p: Spot)
    ensures Names(Block(q, SOLID, false), p) <==> p.at == q && (p.what.Ground? || p.what.Object?)
  {
  }

  lemma {:induction false} LiveSceneryEffect(f: Facts, o: Origin, rs: seq<LiveScenery>, n: nat, p: Spot, before: bool)
    requires n <= |rs|
    ensures Held(before, Effect(LiveSceneryStamps(f, Cell(o.baseX, o.baseY), rs, n), p)) ==
            AfterScenery(f, o, rs[..n], p, before)
  {
    EffectNone(p);
    hide Effect, RecordStamps, AllWellFormed, RecordSets, RecordClears;
    if n > 0 {
      var base, s := Cell(o.baseX, o.baseY), rs[n - 1];
      assert LiveSceneryStamps(f, base, rs, n) == LiveSceneryStamps(f, base, rs, n - 1) + RecordStamps(f, base, s);
      assert rs[..n][..n - 1] == rs[..n - 1];
      hide LiveSceneryStamps;
      LiveSceneryEffect(f, o, rs, n - 1, p, before);
      RecordEffect(f, o, s, p);
      EffectConcat(LiveSceneryStamps(f, base, rs, n - 1), RecordStamps(f, base, s), p);
    }
  }

  lemma BuiltEffect(ls: Landscape, f: Facts, o: Origin, live: Option<LiveState>, p: Spot)
    ensures Held(false, Effect(GridStamps(ls, f, o, live), p)) == BuiltHas(ls, f, o, live, p)
  {
    var base := Cell(o.baseX, o.baseY);
    var fixed := StaticStamps(ls, f, o.plane, o.midX, o.midY, base);
    EffectNone(p);
    hide Effect, AllWellFormed, StaticStamps, StaticHas, AfterScenery, AfterBoundaries, LiveBoundaryStamps,
      LiveSceneryStamps;
    StaticEffect(ls, f, o, p);
    EffectConcat(fixed, OverlayStamps(f, base, live), p);
    if live.Some? {
      var bs, rs := live.value.boundaries, live.value.scenery;
      var has := StaticHas(ls, f, o, p);
      LiveBoundariesEffect(f, o, bs, |bs|, p, has);
      LiveSceneryEffect(f, o, rs, |rs|, p, AfterBoundaries(f, o, bs, p, has));
      assert bs[..|bs|] == bs && rs[..|rs|] == rs;
      EffectConcat(LiveBoundaryStamps(f, base, bs, |bs|), LiveSceneryStamps(f, base, rs, |rs|), p);
    }
  }

  // ----- the built grid -----

  lemma BuiltBit(ls: Landscape, f: Facts, o: Origin, live: Option<LiveState>, c: Cell, bit: bv8)
    requires InGrid(c) && SingleBit(bit)
    ensures !Clear(BuiltMask(ls, f, o, live)[c.x][c.y], bit) <==> BuiltHas(ls, f, o, live, SpotOf(c, bit))
  {
    assert Clear(Blank()[c.x][c.y], bit) by {
      ZeroClear(bit);
    }
    hide Clear, Blank, Effect, GridStamps, BuiltHas, SpotOf, StampAll;
    StampedBit(Blank(), GridStamps(ls, f, o, live), c, bit);
    BuiltEffect(ls, f, o, live, SpotOf(c, bit));
  }

  /** Every bit of every tile of every built grid, in terms of what stands there: walls by both tiles of their
      edge, full blocks by diagonals, ground and solid objects. */
  lemma BuiltGridContains(ls: Landscape, f: Facts, o: Origin, live: Option<LiveState>, c: Cell)
    requires InGrid(c)
    ensures var tile := BuiltMask(ls, f, o, live)[c.x][c.y];
            && (tile & WALL_NORTH != 0 <==> BuiltHas(ls, f, o, live, Spot(North, c)))
            && (tile & WALL_SOUTH != 0 <==> BuiltHas(ls, f, o, live, Spot(North, Cell(c.x, c.y + 1))))
            && (tile & WALL_EAST != 0 <==> BuiltHas(ls, f, o, live, Spot(West, c)))
            && (tile & WALL_WEST != 0 <==> BuiltHas(ls, f, o, live, Spot(West, Cell(c.x + 1, c.y))))
            && (tile & FULL_BLOCK_A != 0 <==> BuiltHas(ls, f, o, live, Spot(DiagonalA, c)))
            && (tile & FULL_BLOCK_B != 0 <==> BuiltHas(ls, f, o, live, Spot(DiagonalB, c)))
            && (tile & FULL_BLOCK_C != 0 <==> BuiltHas(ls, f, o, live, Spot(Ground, c)))
            && (tile & 128 != 0 <==> BuiltHas(ls, f, o, live, Spot(Object, c)))
  {
    hide BuiltMask, BuiltHas;
    BuiltBit(ls, f, o, live, c, WALL_NORTH);
    BuiltBit(ls, f, o, live, c, WALL_SOUTH);
    BuiltBit(ls, f, o, live, c, WALL_EAST);
    BuiltBit(ls, f, o, live, c, WALL_WEST);
    BuiltBit(ls, f, o, live, c, FULL_BLOCK_A);
    BuiltBit(ls, f, o, live, c, FULL_BLOCK_B);
    BuiltBit(ls, f, o, live, c, FULL_BLOCK_C);
    BuiltBit(ls, f, o, live, c, 128);
  }

  /** A tile cannot be stood on exactly if a diagonal, impassable ground or a solid object is there. */
  lemma BuiltOpenMeans(ls: Landscape, f: Facts, o: Origin, live: Option<LiveState>, c: Cell)
    requires InGrid(c)
    ensures !Open(BuiltMask(ls, f, o, live), c) <==>
            || BuiltHas(ls, f, o, live, Spot(DiagonalA, c))
            || BuiltHas(ls, f, o, live, Spot(DiagonalB, c))
            || BuiltHas(ls, f, o, live, Spot(Ground, c))
  {
    BuiltGridContains(ls, f, o, live, c);
    hide BuiltMask, BuiltHas;
    var tile := BuiltMask(ls, f, o, live)[c.x][c.y];
    assert tile & FULL_BLOCK == 0 <==>
           tile & FULL_BLOCK_A == 0 && tile & FULL_BLOCK_B == 0 && tile & FULL_BLOCK_C == 0;
  }

  /** The archive's tile for a position on a floor. */
  function ArchiveTile(ls: Landscape, plane: int, x: int, y: int): Option<Tile> {
    var key := SectorKey(plane, x / SECTOR_SIZE + ARCHIVE_OFFSET_X, y / SECTOR_SIZE + ARCHIVE_OFFSET_Y);
    if key in ls then Some(ls[key][x % SECTOR_SIZE * SECTOR_SIZE + y % SECTOR_SIZE]) else None
  }

  lemma Shift(a: int, k: int)
    ensures (a + k * SECTOR_SIZE) / SECTOR_SIZE == a / SECTOR_SIZE + k
    ensures (a + k * SECTOR_SIZE) % SECTOR_SIZE == a % SECTOR_SIZE
  {
  }

  /** Wherever the player stands, a tile of the grid shows the archive's tile for the same world position. */
  lemma TilesAlign(ls: Landscape, worldX: int, worldY: int, plane: int, c: Cell)
    requires InGrid(c)
    ensures var o := OriginOf(worldX, worldY, plane);
            TileAt(ls, o, c) ==
            ArchiveTile(ls, o.plane, o.baseX + c.x, o.baseY + c.y - o.plane * PLANE_HEIGHT)
  {
    var o := OriginOf(worldX, worldY, plane);
    Shift(c.x, o.midX - 1);
    Shift(c.y, o.midY - 1);
    assert o.baseX + c.x == c.x + (o.midX - 1) * SECTOR_SIZE;
    assert o.baseY + c.y - o.plane * PLANE_HEIGHT == c.y + (o.midY - 1) * SECTOR_SIZE;
  }

  // ----- which record decides -----

  predicate NamedBy(o: Origin, b: LiveBoundary, p: Spot) {
    BoundaryAt(Local(o, b.x, b.y), b.dir, p)
  }

  /** After the live boundaries a spot is as its last record says, and as before if no record names it. */
  lemma {:induction false} LastBoundaryDecides(f: Facts, o: Origin, bs: seq<LiveBoundary>, p: Spot, before: bool)
    ensures AfterBoundaries(f, o, bs, p, before) <==>
            || (exists i :: 0 <= i < |bs| && NamedBy(o, bs[i], p) && BlocksNow(f, bs[i])
                            && forall j :: i < j < |bs| ==> !NamedBy(o, bs[j], p))
            || (before && forall j :: 0 <= j < |bs| ==> !NamedBy(o, bs[j], p))
    decreases |bs|
  {
    hide BoundaryAt, BlocksNow;
    if bs != [] {
      var n := |bs| - 1;
      LastBoundaryDecides(f, o, bs[..n], p, before);
      assert forall j :: 0 <= j < n ==> bs[..n][j] == bs[j];
    }
  }

  /** The record takes the spot's content away and puts nothing there. */
  predicate Empties(f: Facts, o: Origin, s: LiveScenery, p: Spot) {
    RecordClears(f, o, s, p) && !RecordSets(f, o, s, p)
  }

  /** After the live scenery a spot is occupied if a record put something there that no later one took away,
      or if it was occupied and none took that away. */
  lemma {:induction false} LastSceneryDecides(f: Facts, o: Origin, rs: seq<LiveScenery>, p: Spot, before: bool)
    ensures AfterScenery(f, o, rs, p, before) <==>
            || (exists i :: 0 <= i < |rs| && RecordSets(f, o, rs[i], p)
                            && forall j :: i < j < |rs| ==> !Empties(f, o, rs[j], p))
            || (before && forall j :: 0 <= j < |rs| ==> !Empties(f, o, rs[j], p))
    decreases |rs|
  {
    hide RecordSets, RecordClears;
    if rs != [] {
      var n := |rs| - 1;
      LastSceneryDecides(f, o, rs[..n], p, before);
      assert forall j :: 0 <= j < n ==> rs[..n][j] == rs[j];
    }
  }
}
