/** A landscape that is built into the maze the step cap is too small for, wherever the player stands:
    four sectors of water around a path of dry ground. */
module MazeGrid {
  import opened Flags
  import opened Walks
  import opened Bfs
  import opened PathTheorems
  import opened Stamps
  import opened Options
  import opened FactTables
  import opened Layers
  import opened GridBuilder

  /** Water everywhere but in the maze. */
  function MazeTile(c: Cell): Tile {
    Tile(if InMaze(c) then 0 else 2, 0, 0, 0)
  }

  function MazeSector(dsx: int, dsy: int): Sector {
    seq(SECTOR_SIZE * SECTOR_SIZE, i requires 0 <= i < SECTOR_SIZE * SECTOR_SIZE =>
      MazeTile(Cell(dsx * SECTOR_SIZE + i / SECTOR_SIZE, dsy * SECTOR_SIZE + i % SECTOR_SIZE)))
  }

  function MazeKey(o: Origin, dsx: int, dsy: int): SectorKey {
    SectorKey(o.plane, o.midX - 1 + dsx + ARCHIVE_OFFSET_X, o.midY - 1 + dsy + ARCHIVE_OFFSET_Y)
  }

  /** The four sectors around the player. */
  function MazeLandscape(o: Origin): Landscape {
    map[MazeKey(o, 0, 0) := MazeSector(0, 0), MazeKey(o, 0, 1) := MazeSector(0, 1),
        MazeKey(o, 1, 0) := MazeSector(1, 0), MazeKey(o, 1, 1) := MazeSector(1, 1)]
  }

  /** No definitions, no locations: the fallback rule for ground overlays makes water block. */
  const NO_FACTS: Facts := Facts(map[], map[], [], [], [])

  type Region = (int, int) -> bool

  /** Inside the region the mask is the maze's, outside it is empty. */
  ghost predicate Laid(m: Mask, done: Region) {
    forall x, y :: 0 <= x < GRID_SIZE && 0 <= y < GRID_SIZE ==>
      m[x][y] == if done(x, y) && !InMaze(Cell(x, y)) then FULL_BLOCK_C else 0
  }

  lemma SectorTile(dsx: int, dsy: int, sx: nat, sy: nat)
    requires sx < SECTOR_SIZE && sy < SECTOR_SIZE
    ensures MazeSector(dsx, dsy)[sx * SECTOR_SIZE + sy] ==
            MazeTile(Cell(dsx * SECTOR_SIZE + sx, dsy * SECTOR_SIZE + sy))
  {
    var i := sx * SECTOR_SIZE + sy;
    assert i / SECTOR_SIZE == sx && i % SECTOR_SIZE == sy;
  }

  lemma MazeTileStamps(c: Cell)
    ensures LandscapeStamps(NO_FACTS, MazeTile(c), c) == if InMaze(c) then [] else [Block(c, FULL_BLOCK_C, true)]
  {
  }

  lemma OneBlock(m: Mask, c: Cell)
    requires InGrid(c)
    ensures AllWellFormed([Block(c, FULL_BLOCK_C, true)])
    ensures StampAll(m, [Block(c, FULL_BLOCK_C, true)]) == m[c.x := m[c.x][c.y := m[c.x][c.y] | FULL_BLOCK_C]]
  {
    StampOne(m, Block(c, FULL_BLOCK_C, true));
    ApplyOne(m, Mark(c, FULL_BLOCK_C, true));
  }

  function WithTile(done: Region, c: Cell): Region {
    (x, y) => done(x, y) || Cell(x, y) == c
  }

  lemma TileLaid(m: Mask, done: Region, c: Cell)
    requires Laid(m, done) && InGrid(c)
    ensures Laid(StampAll(m, LandscapeStamps(NO_FACTS, MazeTile(c), c)), WithTile(done, c))
  {
    MazeTileStamps(c);
    if InMaze(c) {
      StampNone(m);
    } else {
      OneBlock(m, c);
      var tile := m[c.x][c.y];
      assert tile | FULL_BLOCK_C == FULL_BLOCK_C;
    }
  }

  /** The first `n` tiles of column `x0` from row `y0` on. */
  function WithColumn(done: Region, x0: int, y0: int, n: nat): Region {
    (x, y) => done(x, y) || (x == x0 && y0 <= y < y0 + n)
  }

  lemma SameRegion(m: Mask, done: Region, done': Region)
    requires Laid(m, done)
    requires forall x, y :: 0 <= x < GRID_SIZE && 0 <= y < GRID_SIZE ==> done(x, y) == done'(x, y)
    ensures Laid(m, done')
  {
  }

  lemma ColumnUnfolds(dsx: int, dsy: int, sx: nat, n: nat)
    requires 0 <= dsx < 2 && 0 <= dsy < 2 && sx < SECTOR_SIZE && n <= SECTOR_SIZE
    ensures var s, x, y := MazeSector(dsx, dsy), dsx * SECTOR_SIZE, dsy * SECTOR_SIZE;
            var c := Cell(x + sx, y + n - 1);
            ColumnStamps(NO_FACTS, s, x, y, sx, n) ==
            if n == 0 then []
            else ColumnStamps(NO_FACTS, s, x, y, sx, n - 1) + LandscapeStamps(NO_FACTS, MazeTile(c), c)
  {
    hide MazeSector, MazeTile, LandscapeStamps;
    if n > 0 {
      SectorTile(dsx, dsy, sx, n - 1);
    }
  }

  lemma {:induction false} ColumnLaid(m: Mask, done: Region, dsx: int, dsy: int, sx: nat, n: nat)
    requires 0 <= dsx < 2 && 0 <= dsy < 2 && sx < SECTOR_SIZE && n <= SECTOR_SIZE && Laid(m, done)
    ensures var ss := ColumnStamps(NO_FACTS, MazeSector(dsx, dsy), dsx * SECTOR_SIZE, dsy * SECTOR_SIZE, sx, n);
            Laid(StampAll(m, ss), WithColumn(done, dsx * SECTOR_SIZE + sx, dsy * SECTOR_SIZE, n))
  {
    hide Laid, StampAll, ColumnStamps, LandscapeStamps, MazeSector, MazeTile;
    var s, x0, y0 := MazeSector(dsx, dsy), dsx * SECTOR_SIZE + sx, dsy * SECTOR_SIZE;
    ColumnUnfolds(dsx, dsy, sx, n);
    if n == 0 {
      StampNone(m);
      SameRegion(m, done, WithColumn(done, x0, y0, 0));
    } else {
      ColumnLaid(m, done, dsx, dsy, sx, n - 1);
      var before := ColumnStamps(NO_FACTS, s, dsx * SECTOR_SIZE, y0, sx, n - 1);
      var c := Cell(x0, y0 + n - 1);
      var last := LandscapeStamps(NO_FACTS, MazeTile(c), c);
      StampConcat(m, before, last);
      var done1 := WithColumn(done, x0, y0, n - 1);
      TileLaid(StampAll(m, before), done1, c);
      SameRegion(StampAll(m, before + last), WithTile(done1, c), WithColumn(done, x0, y0, n));
    }
  }

  /** The first `n` columns of a sector. */
  function WithColumns(done: Region, x0: int, y0: int, n: nat): Region {
    (x, y) => done(x, y) || (x0 <= x < x0 + n && y0 <= y < y0 + SECTOR_SIZE)
  }

  lemma SectorUnfolds(s: Sector, x: int, y: int, n: nat)
    requires n <= SECTOR_SIZE
    ensures SectorStamps(NO_FACTS, s, x, y, n) ==
            if n == 0 then []
            else SectorStamps(NO_FACTS, s, x, y, n - 1) + ColumnStamps(NO_FACTS, s, x, y, n - 1, SECTOR_SIZE)
  {
    hide ColumnStamps;
  }

  lemma {:induction false} SectorLaid(m: Mask, done: Region, dsx: int, dsy: int, n: nat)
    requires 0 <= dsx < 2 && 0 <= dsy < 2 && n <= SECTOR_SIZE && Laid(m, done)
    ensures var ss := SectorStamps(NO_FACTS, MazeSector(dsx, dsy), dsx * SECTOR_SIZE, dsy * SECTOR_SIZE, n);
            Laid(StampAll(m, ss), WithColumns(done, dsx * SECTOR_SIZE, dsy * SECTOR_SIZE, n))
  {
    hide Laid, StampAll, ColumnStamps, SectorStamps, MazeSector;
    var s, x0, y0 := MazeSector(dsx, dsy), dsx * SECTOR_SIZE, dsy * SECTOR_SIZE;
    SectorUnfolds(s, x0, y0, n);
    if n == 0 {
      StampNone(m);
      SameRegion(m, done, WithColumns(done, x0, y0, 0));
    } else {
      SectorLaid(m, done, dsx, dsy, n - 1);
      var before := SectorStamps(NO_FACTS, s, x0, y0, n - 1);
      var last := ColumnStamps(NO_FACTS, s, x0, y0, n - 1, SECTOR_SIZE);
      StampConcat(m, before, last);
      var done1 := WithColumns(done, x0, y0, n - 1);
      ColumnLaid(StampAll(m, before), done1, dsx, dsy, n - 1, SECTOR_SIZE);
      SameRegion(StampAll(m, before + last), WithColumn(done1, x0 + n - 1, y0, SECTOR_SIZE),
                 WithColumns(done, x0, y0, n));
    }
  }

  lemma KeysDiffer(o: Origin, dsx: int, dsy: int)
    requires 0 <= dsx < 2 && 0 <= dsy < 2
    ensures MazeKey(o, dsx, dsy) in MazeLandscape(o)
    ensures MazeLandscape(o)[MazeKey(o, dsx, dsy)] == MazeSector(dsx, dsy)
  {
    hide MazeSector;
  }

  lemma SectorAtLaid(m: Mask, done: Region, o: Origin, dsx: int, dsy: int)
    requires 0 <= dsx < 2 && 0 <= dsy < 2 && Laid(m, done)
    ensures var ss := SectorAt(MazeLandscape(o), NO_FACTS, o.plane, o.midX, o.midY, dsx, dsy);
            Laid(StampAll(m, ss), WithColumns(done, dsx * SECTOR_SIZE, dsy * SECTOR_SIZE, SECTOR_SIZE))
  {
    hide Laid, StampAll, SectorStamps, MazeSector, MazeLandscape;
    KeysDiffer(o, dsx, dsy);
    SectorLaid(m, done, dsx, dsy, SECTOR_SIZE);
  }

  lemma LandLaid(m: Mask, done: Region, o: Origin)
    requires Laid(m, done)
    ensures Laid(StampAll(m, LandStamps(MazeLandscape(o), NO_FACTS, o.plane, o.midX, o.midY)), (x, y) => true)
  {
    hide Laid, StampAll, SectorAt, MazeLandscape;
    var ls := MazeLandscape(o);
    var a, b := SectorAt(ls, NO_FACTS, o.plane, o.midX, o.midY, 0, 0),
      SectorAt(ls, NO_FACTS, o.plane, o.midX, o.midY, 0, 1);
    var c, d := SectorAt(ls, NO_FACTS, o.plane, o.midX, o.midY, 1, 0),
      SectorAt(ls, NO_FACTS, o.plane, o.midX, o.midY, 1, 1);
    var n := SECTOR_SIZE;
    SectorAtLaid(m, done, o, 0, 0);
    var done1 := WithColumns(done, 0, 0, n);
    StampConcat(m, a, b);
    SectorAtLaid(StampAll(m, a), done1, o, 0, 1);
    var done2 := WithColumns(done1, 0, n, n);
    StampConcat(m, a + b, c);
    SectorAtLaid(StampAll(m, a + b), done2, o, 1, 0);
    var done3 := WithColumns(done2, n, 0, n);
    StampConcat(m, a + b + c, d);
    SectorAtLaid(StampAll(m, a + b + c), done3, o, 1, 1);
    SameRegion(StampAll(m, a + b + c + d), WithColumns(done3, n, n, n), (x, y) => true);
  }

  lemma LaidIsMaze(m: Mask)
    requires Laid(m, (x, y) => true)
    ensures m == Maze()
  {
    var z := Maze();
    forall x | 0 <= x < GRID_SIZE ensures m[x] == z[x] {
      assert forall y :: 0 <= y < GRID_SIZE ==> m[x][y] == z[x][y];
    }
  }

  /** For every position of the player there is a landscape that is built into the maze. */
  lemma MazeIsBuilt(o: Origin)
    ensures BuiltMask(MazeLandscape(o), NO_FACTS, o, None) == Maze()
  {
    var land := LandStamps(MazeLandscape(o), NO_FACTS, o.plane, o.midX, o.midY);
    assert GridStamps(MazeLandscape(o), NO_FACTS, o, None) == land;
    BlankLaid();
    hide Laid, StampAll, LandStamps, MazeLandscape;
    LandLaid(Blank(), (x, y) => false, o);
    LaidIsMaze(StampAll(Blank(), land));
  }

  lemma BlankLaid()
    ensures Laid(Blank(), (x, y) => false)
  {
  }

  /** So the step cap loses paths on grids that are built: wherever the player stands, some landscape has a
      reachable tile at 193 moves from another, and no path between them is reported. */
  lemma BuiltGridLosesPath(worldX: int, worldY: int, plane: int, n: nat)
    requires n == GRID_SIZE - 1
    ensures var o := OriginOf(worldX, worldY, plane);
            var m := BuiltMask(MazeLandscape(o), NO_FACTS, o, None);
            && Shortest(m, Cell(0, 0), TileGoal(Cell(0, 3)), MazeWalk(n)) && Length(MazeWalk(n)) == MAX_STEPS + 1
            && !Solvable(m, Cell(0, 0), TileGoal(Cell(0, 3)))
  {
    hide BuiltMask, MazeLandscape, Maze, Shortest, Solvable, Length, MazeWalk;
    MazeIsBuilt(OriginOf(worldX, worldY, plane));
    StepCapLosesPath(n);
  }
}
