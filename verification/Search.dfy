/** The arrays of one breadth-first search: the parent-direction matrix and the ring queue. */
module Searches {
  import opened Flags
  import opened Walks
  import opened SearchTree

  const CAP := GRID_SIZE * GRID_SIZE

  /** The code written for a tile entered by the move `d`: it names the way back. */
  function SourceOf(d: Dir): int {
    match d
    case W => SOURCE_WEST
    case E => SOURCE_EAST
    case N => SOURCE_SOUTH
    case S => SOURCE_NORTH
    case NW => SOURCE_SOUTH_WEST
    case NE => SOURCE_SOUTH_EAST
    case SW => SOURCE_NORTH_WEST
    case SE => SOURCE_NORTH_EAST
  }

  lemma SourcesDiffer(d: Dir, e: Dir)
    ensures SourceOf(d) == SourceOf(e) <==> d == e
    ensures SourceOf(d) != 0 && SourceOf(d) != VISITED_START
  {
  }

  function WalkCode(w: Walk): (code: int)
    ensures code != 0
  {
    match w
    case Stay => VISITED_START
    case Then(_, d) => SourceOf(d)
  }

  class Search {
    const src: array2<int>
    const qx: array<int>
    const qy: array<int>
    var read: nat
    var write: nat
    ghost var tree: Tree
    ghost var taken: nat

    ghost predicate Shaped() {
      src.Length0 == GRID_SIZE && src.Length1 == GRID_SIZE && qx.Length == CAP && qy.Length == CAP && qx != qy
    }

    /** `src` holds the code of every discovered tile, and 0 elsewhere. */
    ghost predicate SrcCodes()
      requires Shaped()
      reads `tree, src
    {
      forall x, y :: 0 <= x < GRID_SIZE && 0 <= y < GRID_SIZE ==>
        src[x, y] == if Cell(x, y) in tree.walk then WalkCode(tree.walk[Cell(x, y)]) else 0
    }

    /** Slot i of the ring holds the i-th discovered tile. */
    ghost predicate RingHolds()
      requires Shaped()
      reads `tree, qx, qy
    {
      && |tree.order| <= CAP
      && forall i :: 0 <= i < |tree.order| ==> qx[i] == tree.order[i].x && qy[i] == tree.order[i].y
    }

    /** `read` and `write` count taken and discovered tiles modulo CAP. */
    ghost predicate Indices()
      reads this
    {
      && taken <= |tree.order| <= CAP && (taken == 0 ==> |tree.order| == 1)
      && read == taken % CAP && write == |tree.order| % CAP
    }

    ghost predicate Valid()
      reads this, src, qx, qy
    {
      Shaped() && SrcCodes() && RingHolds() && Indices()
    }

    constructor (sx: int, sy: int)
      requires InGrid(Cell(sx, sy))
      ensures Valid() && fresh(src) && fresh(qx) && fresh(qy)
      ensures tree == Root(Cell(sx, sy)) && taken == 0
    {
      src := new int[GRID_SIZE, GRID_SIZE]((x, y) => if x == sx && y == sy then VISITED_START else 0);
      qx, qy := new int[CAP](_ => sx), new int[CAP](_ => sy);
      read, write := 0, 1;
      tree, taken := Root(Cell(sx, sy)), 0;
    }

    /** The wrapped indices meet exactly when the abstract queue is empty. */
    lemma EmptyIffIndicesMeet()
      requires Indices()
      ensures read != write <==> taken < |tree.order|
    {
    }

    /** Takes the oldest discovered tile that has not been expanded yet. */
    method Pop() returns (x: int, y: int)
      requires Valid() && read != write
      modifies `read, `taken
      ensures Valid() && taken == old(taken) + 1 && old(taken) < |tree.order|
      ensures Cell(x, y) == tree.order[old(taken)]
    {
      EmptyIffIndicesMeet();
      x, y := qx[read], qy[read];
      read := (read + 1) % CAP;
      taken := taken + 1;
    }

    /** Enters the tile in direction `d` of `c` into the ring. */
    method Push(x: int, y: int, code: int, ghost c: Cell, ghost d: Dir)
      requires Valid() && taken > 0 && |tree.order| < CAP
      requires c in tree.walk && Move(c, d) == Cell(x, y) && InGrid(Cell(x, y)) && code == SourceOf(d)
      modifies `write, `tree, src, qx, qy
      ensures Valid() && tree == Grow(old(tree), c, d)
    {
      qx[write], qy[write] := x, y;
      src[x, y] := code;
      write := (write + 1) % CAP;
      tree := Grow(tree, c, d);
    }
  }
}
