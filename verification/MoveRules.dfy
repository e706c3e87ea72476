/** Moves and answers, in bits of named tiles. */
module MoveRules {
  import opened Flags
  import opened Walks
  import opened Corners
  import opened Bfs
  import opened Stamps
  import opened Options
  import opened FactTables
  import opened Layers
  import opened GridBuilder

  // ----- one move -----

  /** The bits are eight different ones. */
  lemma BitsDiffer()
    ensures FULL_BLOCK == FULL_BLOCK_A | FULL_BLOCK_B | FULL_BLOCK_C
    ensures WALL_NORTH | WALL_EAST | WALL_SOUTH | WALL_WEST | FULL_BLOCK == 0x7f
    ensures SingleBit(WALL_NORTH) && SingleBit(WALL_EAST) && SingleBit(WALL_SOUTH) && SingleBit(WALL_WEST)
    ensures SingleBit(FULL_BLOCK_A) && SingleBit(FULL_BLOCK_B) && SingleBit(FULL_BLOCK_C)
  {
  }

  /** The tile lies in the grid and has none of `bits`. */
  predicate Lets(m: Mask, x: int, y: int, bits: bv8) {
    0 <= x < GRID_SIZE && 0 <= y < GRID_SIZE && m[x][y] & bits == 0
  }

  /** A cardinal move reads one tile: no full block, no wall on the edge it comes in by. */
  lemma CardinalMeans(m: Mask, c: Cell)
    ensures Legal(m, c, W) <==> Lets(m, c.x - 1, c.y, FULL_BLOCK | WALL_WEST)
    ensures Legal(m, c, E) <==> Lets(m, c.x + 1, c.y, FULL_BLOCK | WALL_EAST)
    ensures Legal(m, c, N) <==> Lets(m, c.x, c.y - 1, FULL_BLOCK | WALL_SOUTH)
    ensures Legal(m, c, S) <==> Lets(m, c.x, c.y + 1, FULL_BLOCK | WALL_NORTH)
  {
    BlockedMasks();
    hide Lets;
    EntersMeans(m, c, W);
    EntersMeans(m, c, E);
    EntersMeans(m, c, N);
    EntersMeans(m, c, S);
  }

  lemma EntersMeans(m: Mask, c: Cell, d: Dir)
    ensures Enters(m, c, d) <==> Lets(m, c.x + Dx(d), c.y + Dy(d), Barrier(d))
  {
    hide Dx, Dy, Barrier;
  }

  /** A diagonal move reads three tiles: the two beside it and the one it enters. */
  lemma DiagonalMeans(m: Mask, c: Cell)
    ensures Legal(m, c, NW) <==>
            && Lets(m, c.x, c.y - 1, FULL_BLOCK | WALL_SOUTH) && Lets(m, c.x - 1, c.y, FULL_BLOCK | WALL_WEST)
            && Lets(m, c.x - 1, c.y - 1, FULL_BLOCK | WALL_SOUTH | WALL_WEST)
    ensures Legal(m, c, NE) <==>
            && Lets(m, c.x, c.y - 1, FULL_BLOCK | WALL_SOUTH) && Lets(m, c.x + 1, c.y, FULL_BLOCK | WALL_EAST)
            && Lets(m, c.x + 1, c.y - 1, FULL_BLOCK | WALL_SOUTH | WALL_EAST)
    ensures Legal(m, c, SW) <==>
            && Lets(m, c.x, c.y + 1, FULL_BLOCK | WALL_NORTH) && Lets(m, c.x - 1, c.y, FULL_BLOCK | WALL_WEST)
            && Lets(m, c.x - 1, c.y + 1, FULL_BLOCK | WALL_NORTH | WALL_WEST)
    ensures Legal(m, c, SE) <==>
            && Lets(m, c.x, c.y + 1, FULL_BLOCK | WALL_NORTH) && Lets(m, c.x + 1, c.y, FULL_BLOCK | WALL_EAST)
            && Lets(m, c.x + 1, c.y + 1, FULL_BLOCK | WALL_NORTH | WALL_EAST)
  {
    BlockedMasks();
    CardinalMeans(m, c);
    hide Lets;
    EntersMeans(m, c, NW);
    EntersMeans(m, c, NE);
    EntersMeans(m, c, SW);
    EntersMeans(m, c, SE);
    hide Enters;
  }

  // ----- the rule without directions -----

  function Min(a: int, b: int): int {
    if a < b then a else b
  }

  function Max(a: int, b: int): int {
    if a < b then b else a
  }

  /** `b` is one of the eight neighbours of `a`; in the smallest rectangle around both, no tile but
      perhaps `a` is fully blocked, and no edge inside it is walled. */
  predicate FreeStep(m: Mask, a: Cell, b: Cell) {
    var x0, x1, y0, y1 := Min(a.x, b.x), Max(a.x, b.x), Min(a.y, b.y), Max(a.y, b.y);
    && InGrid(a) && InGrid(b) && a != b && x1 <= x0 + 1 && y1 <= y0 + 1
    && (forall x, y :: x0 <= x <= x1 && y0 <= y <= y1 && Cell(x, y) != a ==> m[x][y] & FULL_BLOCK == 0)
    && (y0 < y1 ==> forall x :: x0 <= x <= x1 ==> m[x][y1] & WALL_NORTH == 0)
    && (x0 < x1 ==> forall y :: y0 <= y <= y1 ==> m[x1][y] & WALL_EAST == 0)
  }

  /** `b` can be stepped on: no full block. */
  lemma LetsSplits(m: Mask, x: int, y: int, w: bv8, v: bv8)
    ensures Lets(m, x, y, FULL_BLOCK | w) <==> Lets(m, x, y, FULL_BLOCK) && Lets(m, x, y, w)
    ensures Lets(m, x, y, FULL_BLOCK | w | v) <==>
            Lets(m, x, y, FULL_BLOCK) && Lets(m, x, y, w) && Lets(m, x, y, v)
  {
  }

  /** On a mirrored mask both tiles answer for the edge between them. */
  lemma SameEdge(m: Mask, x: int, y: int)
    requires Mirrored(m) && 0 <= x < GRID_SIZE && 0 <= y < GRID_SIZE
    ensures y > 0 ==> (Lets(m, x, y, WALL_NORTH) <==> Lets(m, x, y - 1, WALL_SOUTH))
    ensures x > 0 ==> (Lets(m, x, y, WALL_EAST) <==> Lets(m, x - 1, y, WALL_WEST))
  {
    hide Mirrored;
    MirrorAt(m, x, y);
  }

  lemma FreeVertical(m: Mask, a: Cell, b: Cell)
    requires InGrid(a) && InGrid(b) && a.x == b.x && (b.y == a.y + 1 || b.y == a.y - 1)
    ensures FreeStep(m, a, b) <==> Lets(m, b.x, b.y, FULL_BLOCK) && Lets(m, a.x, Max(a.y, b.y), WALL_NORTH)
  {
    assert b == Cell(b.x, b.y);
  }

  lemma FreeHorizontal(m: Mask, a: Cell, b: Cell)
    requires InGrid(a) && InGrid(b) && a.y == b.y && (b.x == a.x + 1 || b.x == a.x - 1)
    ensures FreeStep(m, a, b) <==> Lets(m, b.x, b.y, FULL_BLOCK) && Lets(m, Max(a.x, b.x), a.y, WALL_EAST)
  {
    assert b == Cell(b.x, b.y);
  }

  lemma FreeDiagonal(m: Mask, a: Cell, b: Cell)
    requires InGrid(a) && InGrid(b) && (b.y == a.y + 1 || b.y == a.y - 1) && (b.x == a.x + 1 || b.x == a.x - 1)
    ensures FreeStep(m, a, b) <==>
            && Lets(m, a.x, b.y, FULL_BLOCK) && Lets(m, b.x, a.y, FULL_BLOCK) && Lets(m, b.x, b.y, FULL_BLOCK)
            && Lets(m, a.x, Max(a.y, b.y), WALL_NORTH) && Lets(m, b.x, Max(a.y, b.y), WALL_NORTH)
            && Lets(m, Max(a.x, b.x), a.y, WALL_EAST) && Lets(m, Max(a.x, b.x), b.y, WALL_EAST)
  {
    assert b == Cell(b.x, b.y);
  }

  /** The edge between rows `y` and `z`, read off the tile in row `z`. */
  lemma EdgeIntoRow(m: Mask, x: int, y: int, z: int)
    requires Mirrored(m) && InGrid(Cell(x, y)) && InGrid(Cell(x, z)) && (z == y + 1 || z == y - 1)
    ensures Lets(m, x, Max(y, z), WALL_NORTH) <==> Lets(m, x, z, if z < y then WALL_SOUTH else WALL_NORTH)
  {
    hide Mirrored, Lets;
    SameEdge(m, x, Max(y, z));
  }

  lemma EdgeIntoColumn(m: Mask, x: int, z: int, y: int)
    requires Mirrored(m) && InGrid(Cell(x, y)) && InGrid(Cell(z, y)) && (z == x + 1 || z == x - 1)
    ensures Lets(m, Max(x, z), y, WALL_EAST) <==> Lets(m, z, y, if z < x then WALL_WEST else WALL_EAST)
  {
    hide Mirrored, Lets;
    SameEdge(m, Max(x, z), y);
  }

  lemma CardinalIsFree(m: Mask, a: Cell, d: Dir)
    requires Mirrored(m) && InGrid(a) && Cardinal(d) && InGrid(Move(a, d))
    ensures Legal(m, a, d) <==> FreeStep(m, a, Move(a, d))
  {
    var b := Move(a, d);
    CardinalMeans(m, a);
    hide Legal, Mirrored, Lets, FreeStep, Max;
    if d.N? || d.S? {
      LetsSplits(m, b.x, b.y, if d.N? then WALL_SOUTH else WALL_NORTH, 0);
      EdgeIntoRow(m, a.x, a.y, b.y);
      FreeVertical(m, a, b);
    } else {
      LetsSplits(m, b.x, b.y, if d.W? then WALL_WEST else WALL_EAST, 0);
      EdgeIntoColumn(m, a.x, b.x, a.y);
      FreeHorizontal(m, a, b);
    }
  }

  /** A diagonal free step, read off the three tiles it could touch. */
  lemma FreeCorner(m: Mask, a: Cell, b: Cell, v: bv8, h: bv8)
    requires Mirrored(m) && InGrid(a) && InGrid(b)
    requires (b.y == a.y + 1 || b.y == a.y - 1) && (b.x == a.x + 1 || b.x == a.x - 1)
    requires v == (if b.y < a.y then WALL_SOUTH else WALL_NORTH) && h == (if b.x < a.x then WALL_WEST else WALL_EAST)
    ensures FreeStep(m, a, b) <==>
            && Lets(m, a.x, b.y, FULL_BLOCK | v) && Lets(m, b.x, a.y, FULL_BLOCK | h)
            && Lets(m, b.x, b.y, FULL_BLOCK | v | h)
  {
    hide Mirrored, Lets, FreeStep, Max;
    FreeDiagonal(m, a, b);
    EdgeIntoRow(m, a.x, a.y, b.y);
    EdgeIntoRow(m, b.x, a.y, b.y);
    EdgeIntoColumn(m, a.x, b.x, a.y);
    EdgeIntoColumn(m, a.x, b.x, b.y);
    LetsSplits(m, a.x, b.y, v, 0);
    LetsSplits(m, b.x, a.y, h, 0);
    LetsSplits(m, b.x, b.y, v, h);
  }

  lemma DiagonalIsFree(m: Mask, a: Cell, d: Dir)
    requires Mirrored(m) && InGrid(a) && !Cardinal(d) && InGrid(Move(a, d))
    ensures Legal(m, a, d) <==> FreeStep(m, a, Move(a, d))
  {
    var b := Move(a, d);
    DiagonalMeans(m, a);
    hide Legal, Mirrored, Lets, FreeStep;
    FreeCorner(m, a, b, if b.y < a.y then WALL_SOUTH else WALL_NORTH, if b.x < a.x then WALL_WEST else WALL_EAST);
  }

  /** On a mirrored mask a legal move is a free step to the tile it enters. */
  lemma LegalIsFree(m: Mask, a: Cell, d: Dir)
    requires Mirrored(m) && InGrid(a)
    ensures Legal(m, a, d) <==> FreeStep(m, a, Move(a, d))
  {
    if InGrid(Move(a, d)) {
      hide Legal, FreeStep, Mirrored;
      if Cardinal(d) {
        CardinalIsFree(m, a, d);
      } else {
        DiagonalIsFree(m, a, d);
      }
    }
  }

  /** The direction of a step between neighbours. */
  lemma StepHasDirection(a: Cell, b: Cell) returns (d: Dir)
    requires a != b && Max(a.x, b.x) <= Min(a.x, b.x) + 1 && Max(a.y, b.y) <= Min(a.y, b.y) + 1
    ensures Move(a, d) == b
  {
    d := Toward(a, b);
  }

  // ----- whole walks, as the tiles they visit -----

  /** The tiles of a walk, the first and the last included. */
  function Tiles(a: Cell, w: Walk): (cs: seq<Cell>)
    ensures |cs| == Length(w) + 1 && cs[0] == a && cs[|cs| - 1] == End(a, w)
  {
    match w
    case Stay => [a]
    case Then(p, _) => Tiles(a, p) + [End(a, w)]
  }

  /** Tiles of the grid, each a free step from the one before. */
  predicate FreeTrail(m: Mask, cs: seq<Cell>) {
    cs != [] && InGrid(cs[0]) && forall i :: 0 < i < |cs| ==> FreeStep(m, cs[i - 1], cs[i])
  }

  /** A walk is legal if and only if it goes from tile to tile by free steps: it enters no fully blocked
      tile, crosses no walled edge and cuts no blocked or walled corner. */
  lemma {:induction false} WalkIsTrail(m: Mask, a: Cell, w: Walk)
    requires Mirrored(m)
    ensures IsWalk(m, a, w) <==> FreeTrail(m, Tiles(a, w))
  {
    if w.Then? {
      var cs, p := Tiles(a, w), Tiles(a, w.prev);
      WalkIsTrail(m, a, w.prev);
      hide FreeStep, Mirrored, Legal;
      assert cs == p + [End(a, w)];
      if InGrid(End(a, w.prev)) {
        LegalIsFree(m, End(a, w.prev), w.dir);
      }
      assert FreeTrail(m, cs) <==> FreeTrail(m, p) && FreeStep(m, p[|p| - 1], End(a, w)) by {
        TrailSnoc(m, p, End(a, w));
      }
    }
  }

  lemma TrailSnoc(m: Mask, cs: seq<Cell>, c: Cell)
    requires cs != []
    ensures FreeTrail(m, cs + [c]) <==> FreeTrail(m, cs) && FreeStep(m, cs[|cs| - 1], c)
  {
    hide FreeStep;
    var all := cs + [c];
    if FreeTrail(m, all) {
      assert FreeStep(m, all[|cs| - 1], all[|cs|]);
      forall i | 0 < i < |cs| ensures FreeStep(m, cs[i - 1], cs[i]) {
        assert FreeStep(m, all[i - 1], all[i]);
      }
    }
  }

  /** And every such sequence of tiles is a legal walk. */
  lemma {:induction false} TrailIsWalk(m: Mask, cs: seq<Cell>) returns (w: Walk)
    requires FreeTrail(m, cs)
    ensures Tiles(cs[0], w) == cs
    decreases |cs|
  {
    if |cs| == 1 {
      w := Stay;
    } else {
      var init, last := cs[..|cs| - 1], cs[|cs| - 1];
      assert cs == init + [last];
      TrailSnoc(m, init, last);
      var p := TrailIsWalk(m, init);
      var d := StepHasDirection(init[|init| - 1], last);
      w := Then(p, d);
    }
  }

  // ----- the pathfinder's answers -----

  predicate Inside(goal: Goal, x: int, y: int) {
    goal.xLow <= x <= goal.xHigh && goal.yLow <= y <= goal.yHigh
  }

  /** The tile lies in the rectangle or, in border mode, shares an edge with a tile of it that is not walled. */
  predicate Arrives(m: Mask, goal: Goal, x: int, y: int) {
    Inside(goal, x, y) ||
    (goal.reachBorder &&
     ((Inside(goal, x - 1, y) && Lets(m, x - 1, y, WALL_WEST)) ||
      (Inside(goal, x + 1, y) && Lets(m, x + 1, y, WALL_EAST)) ||
      (Inside(goal, x, y - 1) && Lets(m, x, y - 1, WALL_SOUTH)) ||
      (Inside(goal, x, y + 1) && Lets(m, x, y + 1, WALL_NORTH))))
  }

  lemma TouchesMeans(m: Mask, goal: Goal, c: Cell, d: Dir)
    requires Cardinal(d)
    ensures Touches(m, goal, c, d) <==>
            Inside(goal, c.x + Dx(d), c.y + Dy(d)) && Lets(m, c.x + Dx(d), c.y + Dy(d), CrossedEdge(d))
  {
    hide Dx, Dy, CrossedEdge;
  }

  lemma InsideMeans(goal: Goal, c: Cell)
    ensures InRect(goal, c) <==> Inside(goal, c.x, c.y)
  {
  }

  lemma AcceptsMeans(m: Mask, goal: Goal, c: Cell)
    ensures Accepts(m, goal, c) <==> Arrives(m, goal, c.x, c.y)
  {
    hide Touches, Lets, Inside, InRect;
    InsideMeans(goal, c);
    TouchesMeans(m, goal, c, W);
    TouchesMeans(m, goal, c, E);
    TouchesMeans(m, goal, c, N);
    TouchesMeans(m, goal, c, S);
  }

  /** A free trail from `start` to a tile the goal accepts. */
  predicate IsRoute(m: Mask, start: Cell, goal: Goal, cs: seq<Cell>) {
    FreeTrail(m, cs) && cs[0] == start && Arrives(m, goal, cs[|cs| - 1].x, cs[|cs| - 1].y)
  }

  lemma SolvesIsRoute(m: Mask, start: Cell, goal: Goal, w: Walk)
    requires Mirrored(m)
    ensures Solves(m, start, goal, w) <==> IsRoute(m, start, goal, Tiles(start, w))
  {
    WalkIsTrail(m, start, w);
    AcceptsMeans(m, goal, End(start, w));
  }

  /** On every built grid a path is returned if and only if a route of at most 192 steps exists. */
  lemma BuiltSolvable(ls: Landscape, f: Facts, o: Origin, live: Option<LiveState>, start: Cell, goal: Goal)
    ensures var m := BuiltMask(ls, f, o, live);
            Solvable(m, start, goal) <==> exists cs :: IsRoute(m, start, goal, cs) && |cs| <= 2 * GRID_SIZE + 1
  {
    var m := BuiltMask(ls, f, o, live);
    BuiltMirrored(ls, f, o, live);
    hide BuiltMask, Mirrored, Solves, FreeTrail, Arrives;
    if Solvable(m, start, goal) {
      var w :| Solves(m, start, goal, w) && Length(w) <= MAX_STEPS;
      SolvesIsRoute(m, start, goal, w);
    }
    if cs :| IsRoute(m, start, goal, cs) && |cs| <= 2 * GRID_SIZE + 1 {
      var w := TrailIsWalk(m, cs);
      SolvesIsRoute(m, start, goal, w);
    }
  }

  /** And the answer, walked one unit move at a time, is a shortest route: none of its moves enters a fully
      blocked tile, crosses a walled edge or cuts a corner. */
  lemma BuiltAnswer(ls: Landscape, f: Facts, o: Origin, live: Option<LiveState>,
                    start: Cell, goal: Goal, path: seq<Cell>)
    requires IsAnswer(BuiltMask(ls, f, o, live), start, goal, path)
    ensures var m := BuiltMask(ls, f, o, live);
            var cs := Tiles(start, Expand(start, path));
            && IsRoute(m, start, goal, cs) && |cs| <= 2 * GRID_SIZE + 1
            && forall other :: IsRoute(m, start, goal, other) ==> |cs| <= |other|
  {
    var m := BuiltMask(ls, f, o, live);
    BuiltMirrored(ls, f, o, live);
    hide BuiltMask, Mirrored, Solves, FreeTrail, Arrives, Expand;
    var w := Expand(start, path);
    SolvesIsRoute(m, start, goal, w);
    forall other | IsRoute(m, start, goal, other) ensures |Tiles(start, w)| <= |other| {
      var v := TrailIsWalk(m, other);
      SolvesIsRoute(m, start, goal, v);
    }
  }

  // ----- in world coordinates -----

  lemma {:induction false} TurnsOnTrail(a: Cell, w: Walk, next: Dir)
    ensures forall c :: c in Turns(a, w, next) ==> c in Tiles(a, w)
  {
    if w.Then? {
      TurnsOnTrail(a, w.prev, w.dir);
      var cs := Tiles(a, w);
      assert cs == Tiles(a, w.prev) + [End(a, w)];
    }
  }

  lemma CompressOnTrail(a: Cell, w: Walk)
    ensures forall c :: c in Compress(a, w) ==> c in Tiles(a, w)
  {
    if w.Then? {
      TurnsOnTrail(a, w.prev, w.dir);
      assert Tiles(a, w) == Tiles(a, w.prev) + [End(a, w)];
    }
  }

  /** The waypoints, in world coordinates: each is a tile of the route, and the last one lies in the goal
      rectangle or, in border mode, next to it. */
  lemma WorldAnswer(m: Mask, baseX: int, baseY: int, start: Cell, xLow: int, xHigh: int, yLow: int, yHigh: int,
                    reachBorder: bool, path: seq<Corner>)
    requires path != []
    requires IsAnswer(m, start, LocalGoal(baseX, baseY, xLow, xHigh, yLow, yHigh, reachBorder),
                      ToLocal(baseX, baseY, path))
    ensures var cs, last := Tiles(start, Expand(start, ToLocal(baseX, baseY, path))), path[|path| - 1];
            && (forall i :: 0 <= i < |path| ==> Cell(path[i].x - baseX, path[i].y - baseY) in cs)
            && cs[|cs| - 1] == Cell(last.x - baseX, last.y - baseY)
            && (!reachBorder ==> xLow <= last.x <= xHigh && yLow <= last.y <= yHigh)
            && (reachBorder ==> xLow - 1 <= last.x <= xHigh + 1 && yLow - 1 <= last.y <= yHigh + 1)
  {
    var goal := LocalGoal(baseX, baseY, xLow, xHigh, yLow, yHigh, reachBorder);
    var local := ToLocal(baseX, baseY, path);
    var w := Expand(start, local);
    assert forall i :: 0 <= i < |path| ==> local[i] == Cell(path[i].x - baseX, path[i].y - baseY);
    hide Expand, ToLocal, Shortest;
    CompressOnTrail(start, w);
    AcceptsMeans(m, goal, local[|path| - 1]);
    hide Accepts, Lets;
  }
}
