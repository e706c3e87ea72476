/** The local pathfinder: breadth-first search, unwinding, and corner compression. */
module Bfs {
  import opened Flags
  import opened Sequences
  import opened Walks
  import opened SearchTree
  import opened Corners
  import opened Grids
  import opened Searches

  /** One waypoint in world coordinates. */
  datatype Corner = Corner(x: int, y: int)

  /** The inclusive goal rectangle in grid coordinates. */
  datatype Goal = Goal(xLow: int, xHigh: int, yLow: int, yHigh: int, reachBorder: bool)

  /** The unwind gives up after this many steps. */
  const MAX_STEPS := 2 * GRID_SIZE

  predicate InRect(goal: Goal, c: Cell) {
    goal.xLow <= c.x <= goal.xHigh && goal.yLow <= c.y <= goal.yHigh
  }

  /** The wall bit, on the neighbour in direction `d`, of the edge that leads there. */
  function CrossedEdge(d: Dir): bv8
    requires d.W? || d.E? || d.N? || d.S?
  {
    match d
    case W => WALL_WEST
    case E => WALL_EAST
    case N => WALL_SOUTH
    case S => WALL_NORTH
  }

  /** The neighbour in direction `d` belongs to the goal and no wall stands between. */
  predicate Touches(m: Mask, goal: Goal, c: Cell, d: Dir)
    requires d.W? || d.E? || d.N? || d.S?
  {
    var b := Move(c, d);
    InGrid(b) && InRect(goal, b) && Clear(m[b.x][b.y], CrossedEdge(d))
  }

  /** A tile the search may stop at: in the rectangle or, in border mode, next to it across an open edge. */
  predicate Accepts(m: Mask, goal: Goal, c: Cell) {
    InRect(goal, c) ||
    (goal.reachBorder &&
     (Touches(m, goal, c, W) || Touches(m, goal, c, E) || Touches(m, goal, c, N) || Touches(m, goal, c, S)))
  }

  /** A legal walk from `start` to an accepting tile. */
  predicate Solves(m: Mask, start: Cell, goal: Goal, w: Walk) {
    IsWalk(m, start, w) && Accepts(m, goal, End(start, w))
  }

  /** The border test towards one side. */
  method TouchesGoal(g: Grid, x: int, y: int, wall: bv8, goal: Goal, ghost m: Mask, ghost c: Cell, ghost d: Dir)
    returns (ok: bool)
    requires g.Valid() && g.Shows(m)
    requires (d.W? || d.E? || d.N? || d.S?) && Move(c, d) == Cell(x, y) && InGrid(Cell(x, y)) && wall == CrossedEdge(d)
    ensures ok <==> Touches(m, goal, c, d)
  {
    ok := x >= goal.xLow && x <= goal.xHigh && y >= goal.yLow && y <= goal.yHigh && g.mask[x, y] & wall == 0;
  }

  method AtGoal(g: Grid, curX: int, curY: int, goal: Goal, ghost m: Mask) returns (found: bool)
    requires g.Valid() && g.Shows(m) && InGrid(Cell(curX, curY))
    ensures found <==> Accepts(m, goal, Cell(curX, curY))
  {
    ghost var c := Cell(curX, curY);
    if curX >= goal.xLow && curX <= goal.xHigh && curY >= goal.yLow && curY <= goal.yHigh {
      return true;
    }
    found := false;
    if goal.reachBorder {
      if curX > 0 {
        found := TouchesGoal(g, curX - 1, curY, WALL_WEST, goal, m, c, W);
      }
      if !found && curX < GRID_SIZE - 1 {
        found := TouchesGoal(g, curX + 1, curY, WALL_EAST, goal, m, c, E);
      }
      if !found && curY > 0 {
        found := TouchesGoal(g, curX, curY - 1, WALL_SOUTH, goal, m, c, N);
      }
      if !found && curY < GRID_SIZE - 1 {
        found := TouchesGoal(g, curX, curY + 1, WALL_NORTH, goal, m, c, S);
      }
    }
  }

  /** The search does not write to the grid. */
  ghost predicate Apart(g: Grid, s: Search) {
    g.mask as object !in {s.src as object, s.qx as object, s.qy as object}
  }

  /** What expanding `c` keeps: the arrays hold a breadth-first tree no deeper than one level below `c`. */
  ghost predicate Expanding(m: Mask, start: Cell, s: Search, c: Cell)
    reads s, s.src, s.qx, s.qy
  {
    && s.Valid() && IsTree(m, start, s.tree) && s.taken > 0
    && c in s.tree.walk && InGrid(c) && Bounded(s.tree, Level(s.tree, c) + 1)
  }

  method Enter(s: Search, x: int, y: int, code: int, ghost m: Mask, ghost start: Cell, ghost c: Cell, ghost d: Dir)
    requires Expanding(m, start, s, c)
    requires Legal(m, c, d) && Move(c, d) == Cell(x, y) && s.src[x, y] == 0 && code == SourceOf(d)
    modifies s`write, s`tree, s.src, s.qx, s.qy
    ensures Expanding(m, start, s, c) && s.tree == Grow(old(s.tree), c, d) && Extends(old(s.tree), s.tree)
  {
    GrowKeeps(m, start, s.tree, c, d);
    TreeFits(m, start, Grow(s.tree, c, d));
    s.Push(x, y, code, c, d);
  }

  lemma ExploredExtends(m: Mask, t: Tree, t': Tree, c: Cell, d: Dir)
    requires c in t.walk && Extends(t, t') && Explored(m, t, c, d)
    ensures Explored(m, t', c, d)
  {
  }

  /** The move `d` from `c` has been dealt with: refused, or its tile discovered no deeper than allowed. */
  lemma Settled(m: Mask, start: Cell, s: Search, c: Cell, d: Dir)
    requires Expanding(m, start, s, c)
    requires !Legal(m, c, d) || s.src[Move(c, d).x, Move(c, d).y] != 0
    ensures Explored(m, s.tree, c, d)
  {
  }

  /** The move test: both cardinal parts of the move must be open, and the tile it enters. */
  method Passable(g: Grid, curX: int, curY: int, d: Dir, ghost m: Mask) returns (ok: bool)
    requires g.Valid() && g.Shows(m)
    ensures ok <==> Legal(m, Cell(curX, curY), d)
  {
    var v, h := Vertical(d), Horizontal(d);
    ok := g.Admits(curX + Dx(v), curY + Dy(v), Barrier(v))
          && g.Admits(curX + Dx(h), curY + Dy(h), Barrier(h))
          && g.Admits(curX + Dx(d), curY + Dy(d), Barrier(d));
  }

  /** The order in which a tile's moves are tried. */
  const DIRS: seq<Dir> := [W, E, N, S, NW, NE, SW, SE]

  lemma AllDirs(d: Dir)
    ensures d in DIRS
  {
    assert DIRS[0] == W && DIRS[1] == E && DIRS[2] == N && DIRS[3] == S;
    assert DIRS[4] == NW && DIRS[5] == NE && DIRS[6] == SW && DIRS[7] == SE;
  }

  ghost predicate ExploredAll(m: Mask, t: Tree, c: Cell, ds: seq<Dir>)
    requires c in t.walk
  {
    forall d :: d in ds ==> Explored(m, t, c, d)
  }

  lemma ExploredMore(m: Mask, t: Tree, t': Tree, c: Cell, ds: seq<Dir>, k: nat)
    requires k < |ds| && c in t.walk && Extends(t, t')
    requires ExploredAll(m, t, c, ds[..k]) && Explored(m, t', c, ds[k])
    ensures ExploredAll(m, t', c, ds[..k + 1])
  {
    forall d | d in ds[..k + 1] ensures Explored(m, t', c, d) {
      if d in ds[..k] {
        ExploredExtends(m, t, t', c, d);
      }
    }
  }

  /** One guarded expansion block. */
  method TryMove(g: Grid, s: Search, curX: int, curY: int, d: Dir, ghost m: Mask, ghost start: Cell)
    requires g.Valid() && g.Shows(m) && Apart(g, s) && Expanding(m, start, s, Cell(curX, curY))
    modifies s`write, s`tree, s.src, s.qx, s.qy
    ensures Expanding(m, start, s, Cell(curX, curY)) && Extends(old(s.tree), s.tree)
    ensures Explored(m, s.tree, Cell(curX, curY), d)
  {
    hide IsTree, Bounded, Legal;
    ghost var c := Cell(curX, curY);
    var ok := Passable(g, curX, curY, d, m);
    if ok && s.src[curX + Dx(d), curY + Dy(d)] == 0 {
      Enter(s, curX + Dx(d), curY + Dy(d), SourceOf(d), m, start, c, d);
    }
    Settled(m, start, s, c, d);
  }

  /** All eight expansion blocks. */
  method ExpandTile(g: Grid, s: Search, curX: int, curY: int, ghost m: Mask, ghost start: Cell)
    requires g.Valid() && g.Shows(m) && Apart(g, s) && Expanding(m, start, s, Cell(curX, curY))
    modifies s`write, s`tree, s.src, s.qx, s.qy
    ensures Expanding(m, start, s, Cell(curX, curY)) && Extends(old(s.tree), s.tree)
    ensures ExploredAll(m, s.tree, Cell(curX, curY), DIRS)
  {
    ghost var c := Cell(curX, curY);
    hide IsTree;
    var dirs := DIRS;
    for k := 0 to |dirs|
      invariant g.Shows(m)
      invariant Expanding(m, start, s, c)
      invariant Extends(old(s.tree), s.tree)
      invariant ExploredAll(m, s.tree, c, dirs[..k])
    {
      ghost var before := s.tree;
      TryMove(g, s, curX, curY, dirs[k], m, start);
      ExploredMore(m, before, s.tree, c, dirs, k);
    }
    assert dirs[..|dirs|] == dirs;
  }
  // ----- the search loop -----

  /** What the search loop keeps: the first `r` discovered tiles are expanded and none is accepting. */
  ghost predicate Searched(m: Mask, start: Cell, goal: Goal, t: Tree, r: nat) {
    && IsTree(m, start, t) && r <= |t.order| && Scanned(m, t, r)
    && (forall i :: 0 <= i < r ==> !Accepts(m, goal, t.order[i]))
    && (r < |t.order| ==> Bounded(t, Level(t, t.order[r]) + 1))
  }

  lemma SearchedRoot(m: Mask, start: Cell, goal: Goal)
    requires InGrid(start)
    ensures Searched(m, start, goal, Root(start), 0)
  {
    RootIsTree(m, start);
  }

  lemma ScannedNext(m: Mask, t: Tree, t': Tree, r: nat)
    requires Indexed(t) && Indexed(t') && Extends(t, t') && r < |t.order|
    requires Scanned(m, t, r) && ExploredAll(m, t', t.order[r], DIRS)
    ensures Scanned(m, t', r + 1)
  {
    hide Explored;
    ScannedExtends(m, t, t', r);
    forall i, d | 0 <= i < r + 1 ensures Explored(m, t', t'.order[i], d) {
      AllDirs(d);
    }
  }

  lemma BoundedNext(t: Tree, r: nat)
    requires Indexed(t) && Levelled(t) && r + 1 < |t.order|
    requires Bounded(t, Level(t, t.order[r]) + 1)
    ensures Bounded(t, Level(t, t.order[r + 1]) + 1)
  {
    assert Level(t, t.order[r]) <= Level(t, t.order[r + 1]);
  }

  /** Expanding the tile taken from the queue moves the loop on by one tile. */
  lemma SearchedStep(m: Mask, start: Cell, goal: Goal, t: Tree, t': Tree, r: nat)
    requires Searched(m, start, goal, t, r) && r < |t.order|
    requires !Accepts(m, goal, t.order[r])
    requires IsTree(m, start, t') && Extends(t, t') && Bounded(t', Level(t', t.order[r]) + 1)
    requires ExploredAll(m, t', t.order[r], DIRS)
    ensures Searched(m, start, goal, t', r + 1)
  {
    hide Branch, Accepts, Explored, Levelled, Bounded;
    ScannedNext(m, t, t', r);
    if r + 1 < |t'.order| {
      BoundedNext(t', r);
    }
    assert forall i :: 0 <= i < r + 1 ==> t'.order[i] == t.order[i];
  }

  /** `c` is a nearest accepting tile and `w` a shortest walk to it. */
  ghost predicate Shortest(m: Mask, start: Cell, goal: Goal, w: Walk) {
    Solves(m, start, goal, w) && forall v :: Solves(m, start, goal, v) ==> Length(w) <= Length(v)
  }

  lemma SearchedShortest(m: Mask, start: Cell, goal: Goal, t: Tree, r: nat)
    requires Searched(m, start, goal, t, r) && r < |t.order| && Accepts(m, goal, t.order[r])
    ensures Shortest(m, start, goal, t.walk[t.order[r]])
  {
    assert Branch(m, start, t, t.order[r]);
    forall v | Solves(m, start, goal, v) ensures Level(t, t.order[r]) <= Length(v) {
      FirstIsNearest(m, start, t, r, c => Accepts(m, goal, c), v);
    }
  }

  lemma SearchedNone(m: Mask, start: Cell, goal: Goal, t: Tree, r: nat, v: Walk)
    requires Searched(m, start, goal, t, r) && r == |t.order|
    ensures !Solves(m, start, goal, v)
  {
    if Solves(m, start, goal, v) {
      FirstIsNearest(m, start, t, r, c => Accepts(m, goal, c), v);
    }
  }

  /** Runs the search until an accepting tile is taken from the queue or the queue is empty. */
  method RunSearch(g: Grid, sx: int, sy: int, goal: Goal, ghost m: Mask)
    returns (found: bool, curX: int, curY: int, src: array2<int>, ghost t: Tree)
    requires g.Valid() && g.Shows(m) && InGrid(Cell(sx, sy))
    ensures src.Length0 == GRID_SIZE && src.Length1 == GRID_SIZE
    ensures IsTree(m, Cell(sx, sy), t)
    ensures forall c :: c in t.walk ==> InGrid(c) && src[c.x, c.y] == WalkCode(t.walk[c])
    ensures found ==> Cell(curX, curY) in t.walk && Shortest(m, Cell(sx, sy), goal, t.walk[Cell(curX, curY)])
    ensures !found ==> forall v :: !Solves(m, Cell(sx, sy), goal, v)
  {
    hide IsTree, Scanned, Bounded, Accepts, IsWalk, Solves;
    ghost var start := Cell(sx, sy);
    var s := new Search(sx, sy);
    SearchedRoot(m, start, goal);
    found, curX, curY := false, sx, sy;
    while s.read != s.write
      invariant s.Valid() && Apart(g, s) && g.Shows(m)
      invariant fresh(s) && fresh(s.src) && fresh(s.qx) && fresh(s.qy)
      invariant Searched(m, start, goal, s.tree, s.taken) && !found
      decreases CAP - s.taken
    {
      s.EmptyIffIndicesMeet();
      ghost var before := s.tree;
      ghost var r := s.taken;
      TreeTile(m, start, before, r);
      curX, curY := s.Pop();
      found := AtGoal(g, curX, curY, goal, m);
      if found {
        SearchedShortest(m, start, goal, s.tree, r);
        break;
      }
      ExpandTile(g, s, curX, curY, m, start);
      SearchedStep(m, start, goal, before, s.tree, r);
    }
    src, t := s.src, s.tree;
    TreeInGrid(m, start, t);
    if !found {
      s.EmptyIffIndicesMeet();
      forall v ensures !Solves(m, start, goal, v) {
        SearchedNone(m, start, goal, t, s.taken, v);
      }
    }
  }

  lemma TreeTile(m: Mask, start: Cell, t: Tree, r: nat)
    requires IsTree(m, start, t) && r < |t.order|
    ensures t.order[r] in t.walk && InGrid(t.order[r])
  {
    assert Branch(m, start, t, t.order[r]);
  }

  lemma TreeInGrid(m: Mask, start: Cell, t: Tree)
    requires IsTree(m, start, t)
    ensures forall c :: c in t.walk ==> InGrid(c)
  {
    forall c | c in t.walk ensures InGrid(c) {
      assert Branch(m, start, t, c);
    }
  }

  // ----- unwinding -----

  predicate HasBit(code: int, bit: int)
    requires bit > 0
  {
    code / bit % 2 == 1
  }

  /** The unwind reads the way back off the code's bits. */
  function BackX(source: int): int {
    if HasBit(source, SOURCE_WEST) then 1 else if HasBit(source, SOURCE_EAST) then -1 else 0
  }

  function BackY(source: int): int {
    if HasBit(source, SOURCE_SOUTH) then 1 else if HasBit(source, SOURCE_NORTH) then -1 else 0
  }

  /** Following the code of a move undoes it. */
  lemma CodeUndoes(d: Dir)
    ensures BackX(SourceOf(d)) == -Dx(d) && BackY(SourceOf(d)) == -Dy(d)
  {
  }

  function ToWorld(baseX: int, baseY: int, c: Cell): Corner {
    Corner(baseX + c.x, baseY + c.y)
  }

  function ToLocal(baseX: int, baseY: int, path: seq<Corner>): (cs: seq<Cell>)
    ensures |cs| == |path|
    ensures forall i :: 0 <= i < |path| ==> path[i] == ToWorld(baseX, baseY, cs[i])
  {
    seq(|path|, i requires 0 <= i < |path| => Cell(path[i].x - baseX, path[i].y - baseY))
  }

  lemma ToLocalAppend(baseX: int, baseY: int, path: seq<Corner>, c: Cell)
    ensures ToLocal(baseX, baseY, path + [ToWorld(baseX, baseY, c)]) == ToLocal(baseX, baseY, path) + [c]
  {
  }

  /** The two-way link between a tile of the tree and its parent, as the unwind uses it. */
  lemma ParentOf(m: Mask, start: Cell, t: Tree, c: Cell)
    requires IsTree(m, start, t) && c in t.walk
    ensures End(start, t.walk[c]) == c && (c == start <==> t.walk[c].Stay?)
    ensures t.walk[c].Then? ==>
              var p := End(start, t.walk[c].prev);
              p in t.walk && t.walk[p] == t.walk[c].prev && InGrid(p) && c == Move(p, t.walk[c].dir)
  {
    assert Branch(m, start, t, c);
  }

  /** Following the code at a tile leads to its parent. */
  lemma Retrace(m: Mask, start: Cell, t: Tree, c: Cell, p: Walk)
    requires IsTree(m, start, t) && c in t.walk && t.walk[c] == p && p.Then?
    ensures var q := Cell(c.x + BackX(WalkCode(p)), c.y + BackY(WalkCode(p)));
            q in t.walk && t.walk[q] == p.prev && InGrid(q)
    ensures WalkCode(p) == SourceOf(p.dir) && End(start, p) == c && c != start
  {
    ParentOf(m, start, t, c);
    CodeUndoes(p.dir);
    hide IsTree, BackX, BackY, SourceOf, Dx, Dy;
    assert Cell(c.x - Dx(p.dir), c.y - Dy(p.dir)) == End(start, p.prev);
  }

  /** Walks the codes back from the accepting tile, recording a corner at every turn; gives up
      after MAX_STEPS steps.  The corners come out goal first. */
  method Unwind(src: array2<int>, sx: int, sy: int, curX: int, curY: int, baseX: int, baseY: int,
                ghost m: Mask, ghost t: Tree)
    returns (ok: bool, reverseCorners: seq<Corner>)
    requires src.Length0 == GRID_SIZE && src.Length1 == GRID_SIZE
    requires IsTree(m, Cell(sx, sy), t) && Cell(curX, curY) in t.walk
    requires forall c :: c in t.walk ==> InGrid(c) && src[c.x, c.y] == WalkCode(t.walk[c])
    ensures var w := t.walk[Cell(curX, curY)];
            && (ok <==> Length(w) <= MAX_STEPS)
            && (ok ==> Flip(ToLocal(baseX, baseY, reverseCorners)) == Compress(Cell(sx, sy), w))
  {
    hide IsTree, Flip, Compress, ToLocal, SourceOf, WalkCode, BackX, BackY, End, Collected;
    assert ToLocal(baseX, baseY, []) == [];
    ghost var start := Cell(sx, sy);
    ghost var w := t.walk[Cell(curX, curY)];
    var x, y := curX, curY;
    ParentOf(m, start, t, Cell(x, y));
    if w.Then? {
      Retrace(m, start, t, Cell(x, y), w);
    }
    var prevSrc := src[x, y];
    var source := prevSrc;
    ToLocalAppend(baseX, baseY, [], Cell(x, y));
    reverseCorners := [] + [ToWorld(baseX, baseY, Cell(x, y))];
    var maxSteps := MAX_STEPS;
    ghost var p, next := w, if w.Then? then w.dir else W;
    ghost var all := [End(start, w)] + Collected(start, w, next);
    while (x != sx || y != sy) && maxSteps > 0
      invariant Cell(x, y) in t.walk && t.walk[Cell(x, y)] == p && source == WalkCode(p)
      invariant w.Then? ==> prevSrc == SourceOf(next)
      invariant ToLocal(baseX, baseY, reverseCorners) + Collected(start, p, next) == all
      invariant 0 <= maxSteps && Length(w) - Length(p) == MAX_STEPS - maxSteps
      decreases maxSteps
    {
      ghost var c := Cell(x, y);
      ParentOf(m, start, t, c);
      Retrace(m, start, t, c, p);
      SourcesDiffer(next, p.dir);
      CollectedThen(start, p, next);
      if prevSrc != source {
        prevSrc := source;
        ToLocalAppend(baseX, baseY, reverseCorners, c);
        reverseCorners := reverseCorners + [ToWorld(baseX, baseY, Cell(x, y))];
      }
      y := y + BackY(source);
      x := x + BackX(source);
      // The parent is a discovered tile, so the off-the-grid exit is never taken.
      assert 0 <= x < GRID_SIZE && 0 <= y < GRID_SIZE;
      source := src[x, y];
      maxSteps := maxSteps - 1;
      p, next := p.prev, p.dir;
    }
    ParentOf(m, start, t, Cell(x, y));
    ok := x == sx && y == sy;
    if ok {
      CollectedStay(start, next);
      assert ToLocal(baseX, baseY, reverseCorners) == all;
      FlipWhole(start, w);
    }
  }

  /** The unwind's corner list, goal first, is the flipped compression. */
  lemma FlipWhole(start: Cell, w: Walk)
    ensures Flip([End(start, w)] + Collected(start, w, if w.Then? then w.dir else W)) == Compress(start, w)
  {
    var last := End(start, w);
    var below := if w.Then? then Collected(start, w.prev, w.dir) else [];
    assert Collected(start, w, if w.Then? then w.dir else W) == below;
    if w.Then? {
      FlipCollected(start, w.prev, w.dir);
    } else {
      assert Flip(below) == [];
    }
    assert Flip([last]) == [last];
    hide Flip, Turns, Collected, End;
    FlipAppend([last], below);
  }

  /** Turns the goal-first list into walk order. */
  method FlipCorners(reverseCorners: seq<Corner>) returns (out: seq<Corner>)
    ensures out == Flip(reverseCorners)
  {
    var n := |reverseCorners|;
    var a := new Corner[n](_ => Corner(0, 0));
    for i := 0 to n
      invariant forall k :: n - i <= k < n ==> a[k] == reverseCorners[n - 1 - k]
    {
      a[n - 1 - i] := reverseCorners[i];
    }
    out := a[..];
  }

  // ----- the pathfinder -----

  function LocalGoal(baseX: int, baseY: int, xLow: int, xHigh: int, yLow: int, yHigh: int, reachBorder: bool): Goal {
    Goal(xLow - baseX, xHigh - baseX, yLow - baseY, yHigh - baseY, reachBorder)
  }

  /** The waypoints, walked one unit move at a time from `start`, are a shortest solution; they are
      exactly its corners. */
  ghost predicate IsAnswer(m: Mask, start: Cell, goal: Goal, cs: seq<Cell>) {
    var w := Expand(start, cs);
    && Shortest(m, start, goal, w) && Length(w) <= MAX_STEPS
    && cs == Compress(start, w)
    && (cs == [start] || WellTurned(start, cs))
    && Accepts(m, goal, cs[|cs| - 1])
  }

  /** A solution the unwind has steps for exists. */
  ghost predicate Solvable(m: Mask, start: Cell, goal: Goal) {
    exists w :: Solves(m, start, goal, w) && Length(w) <= MAX_STEPS
  }

  lemma ShortestIsAnswer(m: Mask, start: Cell, goal: Goal, w: Walk)
    requires Shortest(m, start, goal, w) && Length(w) <= MAX_STEPS
    ensures IsAnswer(m, start, goal, Compress(start, w)) && Solvable(m, start, goal) && Compress(start, w) != []
  {
    ExpandCompress(start, w);
    if w.Then? {
      CompressTurns(start, w);
    }
  }

  lemma NoneSolves(m: Mask, start: Cell, goal: Goal)
    requires forall v :: !Solves(m, start, goal, v)
    ensures !Solvable(m, start, goal)
  {
  }

  lemma TooFar(m: Mask, start: Cell, goal: Goal, w: Walk)
    requires Shortest(m, start, goal, w) && Length(w) > MAX_STEPS
    ensures !Solvable(m, start, goal)
  {
  }

  /** The waypoints from (startX, startY) to the goal rectangle, in walk order; `[]` stands for nil. */
  method FindPath(g: Grid, startX: int, startY: int, xLow: int, xHigh: int, yLow: int, yHigh: int, reachBorder: bool)
    returns (path: seq<Corner>)
    requires g.Valid()
    ensures var start := g.World2Local(startX, startY).0;
            var goal := LocalGoal(g.baseX, g.baseY, xLow, xHigh, yLow, yHigh, reachBorder);
            && (path != [] <==> Solvable(g.View(), start, goal))
            && (path != [] ==> IsAnswer(g.View(), start, goal, ToLocal(g.baseX, g.baseY, path)))
  {
    hide IsAnswer, Shortest, Solvable, IsTree, Expand, Compress, WalkCode;
    ghost var m := g.View();
    var local := g.World2Local(startX, startY);
    var goal := LocalGoal(g.baseX, g.baseY, xLow, xHigh, yLow, yHigh, reachBorder);
    ghost var start := local.0;
    if !local.1 {
      NoWalkFromOutside(m, start, goal);
      return [];
    }
    var sx, sy := local.0.x, local.0.y;
    var found, curX, curY, src, t := RunSearch(g, sx, sy, goal, m);
    if !found {
      NoneSolves(m, start, goal);
      return [];
    }
    ghost var w := t.walk[Cell(curX, curY)];
    var ok, reverseCorners := Unwind(src, sx, sy, curX, curY, g.baseX, g.baseY, m, t);
    if !ok {
      TooFar(m, start, goal, w);
      return [];
    }
    path := FlipCorners(reverseCorners);
    assert ToLocal(g.baseX, g.baseY, path) == Flip(ToLocal(g.baseX, g.baseY, reverseCorners));
    ShortestIsAnswer(m, start, goal, w);
  }

  lemma NoWalkFromOutside(m: Mask, start: Cell, goal: Goal)
    requires !InGrid(start)
    ensures !Solvable(m, start, goal)
  {
    forall w ensures !IsWalk(m, start, w) {
      WalkStartsInside(m, start, w);
    }
  }

  lemma {:induction false} WalkStartsInside(m: Mask, start: Cell, w: Walk)
    ensures IsWalk(m, start, w) ==> InGrid(start)
  {
    if w.Then? {
      WalkStartsInside(m, start, w.prev);
    }
  }

  method FindPathToTile(g: Grid, startX: int, startY: int, goalX: int, goalY: int, reachBorder: bool)
    returns (path: seq<Corner>)
    requires g.Valid()
    ensures var start := g.World2Local(startX, startY).0;
            var goal := LocalGoal(g.baseX, g.baseY, goalX, goalX, goalY, goalY, reachBorder);
            && (path != [] <==> Solvable(g.View(), start, goal))
            && (path != [] ==> IsAnswer(g.View(), start, goal, ToLocal(g.baseX, g.baseY, path)))
  {
    path := FindPath(g, startX, startY, goalX, goalX, goalY, goalY, reachBorder);
  }
}
