/** What the pathfinder's answers say across calls, and the one promise it does not keep. */
module PathTheorems {
  import opened Flags
  import opened Walks
  import opened Corners
  import opened Bfs

  function TileGoal(c: Cell): Goal {
    Goal(c.x, c.x, c.y, c.y, false)
  }

  lemma SolvesTile(m: Mask, a: Cell, b: Cell, w: Walk)
    ensures Solves(m, a, TileGoal(b), w) <==> IsWalk(m, a, w) && End(a, w) == b
  {
  }

  /** A walk between two tiles, turned round. */
  lemma SolvesBack(m: Mask, a: Cell, b: Cell, w: Walk)
    requires Mirrored(m) && Open(m, a) && Solves(m, a, TileGoal(b), w)
    ensures Solves(m, b, TileGoal(a), Reversed(w)) && Length(Reversed(w)) == Length(w)
  {
    hide Mirrored, Open, Solves, IsWalk, End, Length, Reversed;
    SolvesTile(m, a, b, w);
    SolvesTile(m, b, a, Reversed(w));
    WalkBack(m, a, w);
  }

  /** On a mirrored mask, one of two standable tiles is found from the other exactly if the
      other is found from it. */
  lemma FoundBothWays(m: Mask, a: Cell, b: Cell)
    requires Mirrored(m) && Open(m, a) && Open(m, b)
    ensures Solvable(m, a, TileGoal(b)) <==> Solvable(m, b, TileGoal(a))
  {
    if Solvable(m, a, TileGoal(b)) {
      var w :| Solves(m, a, TileGoal(b), w) && Length(w) <= MAX_STEPS;
      SolvesBack(m, a, b, w);
    }
    if Solvable(m, b, TileGoal(a)) {
      var w :| Solves(m, b, TileGoal(a), w) && Length(w) <= MAX_STEPS;
      SolvesBack(m, b, a, w);
    }
  }

  lemma NoLonger(m: Mask, a: Cell, b: Cell, there: Walk, back: Walk)
    requires Mirrored(m) && Open(m, b)
    requires Shortest(m, a, TileGoal(b), there) && Shortest(m, b, TileGoal(a), back)
    ensures Length(there) <= Length(back)
  {
    SolvesBack(m, b, a, back);
  }

  /** The answers of the two searches expand to walks of the same length. */
  lemma SameLengthBothWays(m: Mask, a: Cell, b: Cell, there: seq<Cell>, back: seq<Cell>)
    requires Mirrored(m) && Open(m, a) && Open(m, b)
    requires IsAnswer(m, a, TileGoal(b), there) && IsAnswer(m, b, TileGoal(a), back)
    ensures Length(Expand(a, there)) == Length(Expand(b, back))
  {
    NoLonger(m, a, b, Expand(a, there), Expand(b, back));
    NoLonger(m, b, a, Expand(b, back), Expand(a, there));
  }

  // ----- a maze the step cap is too small for -----

  /** Two full rows joined at the far end, and one tile beyond: everything else is blocked. */
  predicate InMaze(c: Cell) {
    InGrid(c) && (c.y == 0 || c.y == 2 || c == Cell(GRID_SIZE - 1, 1) || c == Cell(0, 3))
  }

  function Maze(): (m: Mask)
    ensures forall x, y :: 0 <= x < GRID_SIZE && 0 <= y < GRID_SIZE ==>
              m[x][y] == if InMaze(Cell(x, y)) then 0 else FULL_BLOCK_C
  {
    seq(GRID_SIZE, x requires 0 <= x < GRID_SIZE =>
      seq(GRID_SIZE, y requires 0 <= y < GRID_SIZE => if InMaze(Cell(x, y)) then 0 else FULL_BLOCK_C))
  }

  /** How far along the corridor a tile lies. */
  function Along(c: Cell): int {
    if c.y == 0 then c.x
    else if c.y == 1 then GRID_SIZE
    else if c.y == 2 then 2 * GRID_SIZE - c.x
    else 2 * GRID_SIZE + 1
  }

  lemma EntersMaze(a: Cell, d: Dir)
    ensures Enters(Maze(), a, d) <==> InMaze(Move(a, d))
  {
    var b := Move(a, d);
    if InGrid(b) {
      var tile := Maze()[b.x][b.y];
      assert tile == 0 || tile == FULL_BLOCK_C;
      assert tile == 0 ==> Clear(tile, Barrier(d));
      assert tile == FULL_BLOCK_C ==> !Clear(tile, Barrier(d));
    }
  }

  lemma MazeLegal(a: Cell, d: Dir)
    ensures Legal(Maze(), a, d)
      <==> InMaze(Move(a, Vertical(d))) && InMaze(Move(a, Horizontal(d))) && InMaze(Move(a, d))
  {
    hide Maze, InMaze, Move, Enters;
    EntersMaze(a, d);
    EntersMaze(a, Vertical(d));
    EntersMaze(a, Horizontal(d));
  }

  lemma MazeMove(a: Cell, d: Dir)
    requires InMaze(a) && Legal(Maze(), a, d)
    ensures InMaze(Move(a, d)) && Along(Move(a, d)) <= Along(a) + 1
  {
    hide Legal, Maze, InMaze, Along;
    MazeLegal(a, d);
    if Cardinal(d) {
      MazeCardinal(a, d);
    } else {
      MazeDiagonal(a, d);
    }
  }

  lemma MazeCardinal(a: Cell, d: Dir)
    requires Cardinal(d) && InMaze(a) && InMaze(Move(a, d))
    ensures Along(Move(a, d)) <= Along(a) + 1
  {
  }

  /** No corner of the maze can be cut. */
  lemma MazeDiagonal(a: Cell, d: Dir)
    requires !Cardinal(d) && InMaze(a)
    ensures !(InMaze(Move(a, Vertical(d))) && InMaze(Move(a, Horizontal(d))) && InMaze(Move(a, d)))
  {
    if a.y == 1 || a.y == 3 {
    } else if a.y == 0 {
    } else {
    }
  }

  lemma {:induction false} MazeIsLong(w: Walk)
    requires IsWalk(Maze(), Cell(0, 0), w)
    ensures InMaze(End(Cell(0, 0), w)) && Along(End(Cell(0, 0), w)) <= Length(w)
  {
    if w.Then? {
      MazeIsLong(w.prev);
      MazeMove(End(Cell(0, 0), w.prev), w.dir);
    }
  }

  /** `w` leads through the maze from its first tile to `c`. */
  ghost predicate Leads(w: Walk, c: Cell) {
    IsWalk(Maze(), Cell(0, 0), w) && End(Cell(0, 0), w) == c && InMaze(c)
  }

  lemma MazeStep(w: Walk, c: Cell, d: Dir)
    requires Leads(w, c) && InMaze(Move(c, Vertical(d))) && InMaze(Move(c, Horizontal(d))) && InMaze(Move(c, d))
    ensures Leads(Then(w, d), Move(c, d))
  {
    hide Legal, Maze, InMaze, Move, Enters;
    MazeLegal(c, d);
  }

  /** The tile `k` steps along the row from `c`. */
  function RowTile(c: Cell, d: Dir, k: int): Cell {
    Cell(c.x + (if d == E then k else -k), c.y)
  }

  lemma RowStep(c: Cell, d: Dir, k: nat)
    requires (d == E || d == W) && (c.y == 0 || c.y == 2) && InGrid(c) && InGrid(RowTile(c, d, k + 1))
    ensures InGrid(RowTile(c, d, k)) && Move(RowTile(c, d, k), d) == RowTile(c, d, k + 1)
    ensures InMaze(RowTile(c, d, k)) && InMaze(RowTile(c, d, k + 1))
    ensures Vertical(d) == Horizontal(d) == d
  {
  }

  /** `k` moves along a row of the maze. */
  lemma {:induction false} AlongRow(w: Walk, c: Cell, d: Dir, k: nat)
    requires d == E || d == W
    requires Leads(w, c) && (c.y == 0 || c.y == 2) && InGrid(c) && InGrid(RowTile(c, d, k))
    ensures Leads(Onward(w, d, k), RowTile(c, d, k))
    ensures Length(Onward(w, d, k)) == Length(w) + k
  {
    hide Leads;
    assert RowTile(c, d, 0) == c;
    if k > 0 {
      hide InMaze, InGrid, RowTile, Move;
      RowStep(c, d, k - 1);
      AlongRow(w, c, d, k - 1);
      MazeStep(Onward(w, d, k - 1), RowTile(c, d, k - 1), d);
    }
  }

  /** East along the first row, down two, back along the third row, down once more. */
  function MazeWalk(n: nat): Walk {
    Then(Onward(Then(Then(Onward(Stay, E, n), S), S), W, n), S)
  }

  lemma MazeIsSolved(n: nat)
    requires n == GRID_SIZE - 1
    ensures Solves(Maze(), Cell(0, 0), TileGoal(Cell(0, 3)), MazeWalk(n))
    ensures Length(MazeWalk(n)) == MAX_STEPS + 1
  {
    var row := Onward(Stay, E, n);
    AlongRow(Stay, Cell(0, 0), E, n);
    MazeStep(row, Cell(n, 0), S);
    MazeStep(Then(row, S), Cell(n, 1), S);
    var down := Then(Then(row, S), S);
    AlongRow(down, Cell(n, 2), W, n);
    MazeStep(Onward(down, W, n), Cell(0, 2), S);
    SolvesTile(Maze(), Cell(0, 0), Cell(0, 3), MazeWalk(n));
  }

  /** A reachable goal the pathfinder reports as unreachable: a shortest walk has one move more than the
      unwind has steps, although the code calls 2*GridSize enough for any reconstruction. */
  lemma StepCapLosesPath(n: nat)
    requires n == GRID_SIZE - 1
    ensures Shortest(Maze(), Cell(0, 0), TileGoal(Cell(0, 3)), MazeWalk(n)) && Length(MazeWalk(n)) == MAX_STEPS + 1
    ensures !Solvable(Maze(), Cell(0, 0), TileGoal(Cell(0, 3)))
  {
    MazeIsSolved(n);
    hide Maze, IsWalk, MazeWalk;
    forall v | Solves(Maze(), Cell(0, 0), TileGoal(Cell(0, 3)), v) ensures Length(v) >= MAX_STEPS + 1 {
      SolvesTile(Maze(), Cell(0, 0), Cell(0, 3), v);
      MazeIsLong(v);
    }
  }
}
