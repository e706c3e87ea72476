/** Legal moves on a collision mask, the walks they make up, and their reversal. */
module Walks {
  import opened Flags

  datatype Cell = Cell(x: int, y: int)

  datatype Dir = W | E | N | S | NW | NE | SW | SE

  /** A snapshot of the collision bits, indexed column first. */
  type Mask = m: seq<seq<bv8>> | |m| == GRID_SIZE && forall x :: 0 <= x < GRID_SIZE ==> |m[x]| == GRID_SIZE
    witness seq(GRID_SIZE, _ => seq(GRID_SIZE, _ => 0))

  predicate InGrid(c: Cell) {
    0 <= c.x < GRID_SIZE && 0 <= c.y < GRID_SIZE
  }

  function Dx(d: Dir): int {
    match d
    case W | NW | SW => -1
    case E | NE | SE => 1
    case N | S => 0
  }

  /** North is towards smaller y. */
  function Dy(d: Dir): int {
    match d
    case N | NW | NE => -1
    case S | SW | SE => 1
    case W | E => 0
  }

  function Move(c: Cell, d: Dir): Cell {
    Cell(c.x + Dx(d), c.y + Dy(d))
  }

  function Opposite(d: Dir): Dir {
    match d
    case W => E
    case E => W
    case N => S
    case S => N
    case NW => SE
    case SE => NW
    case NE => SW
    case SW => NE
  }

  /** The bits that must be clear on the tile a move in direction `d` enters. */
  function Barrier(d: Dir): bv8 {
    match d
    case W => WEST_BLOCKED
    case E => EAST_BLOCKED
    case N => SOUTH_BLOCKED
    case S => NORTH_BLOCKED
    case NW => SOUTH_WEST_BLOCKED
    case NE => SOUTH_EAST_BLOCKED
    case SW => NORTH_WEST_BLOCKED
    case SE => NORTH_EAST_BLOCKED
  }

  /** The cardinal parts of a direction; a cardinal is its own part. */
  function Vertical(d: Dir): Dir {
    match d
    case N | NW | NE => N
    case S | SW | SE => S
    case W | E => d
  }

  function Horizontal(d: Dir): Dir {
    match d
    case W | NW | SW => W
    case E | NE | SE => E
    case N | S => d
  }

  predicate Enters(m: Mask, a: Cell, d: Dir) {
    var b := Move(a, d);
    InGrid(b) && Clear(m[b.x][b.y], Barrier(d))
  }

  /** May a walker on `a` take one step in direction `d`?  A diagonal needs both cardinals as well. */
  predicate Legal(m: Mask, a: Cell, d: Dir)
    ensures Legal(m, a, d) ==> InGrid(Move(a, d))
  {
    Enters(m, a, Vertical(d)) && Enters(m, a, Horizontal(d)) && Enters(m, a, d)
  }

  /** A walk, as the moves that make it up; the last move is outermost. */
  datatype Walk = Stay | Then(prev: Walk, dir: Dir)

  function Length(w: Walk): nat {
    match w
    case Stay => 0
    case Then(p, _) => Length(p) + 1
  }

  /** Where the moves of `w` lead from `a`. */
  function End(a: Cell, w: Walk): Cell {
    match w
    case Stay => a
    case Then(p, d) => Move(End(a, p), d)
  }

  /** Every move of `w`, taken from `a`, is legal. */
  predicate IsWalk(m: Mask, a: Cell, w: Walk)
    ensures IsWalk(m, a, w) ==> InGrid(a) && InGrid(End(a, w))
  {
    match w
    case Stay => InGrid(a)
    case Then(p, d) => IsWalk(m, a, p) && Legal(m, End(a, p), d)
  }

  function Append(u: Walk, v: Walk): Walk {
    match v
    case Stay => u
    case Then(p, d) => Then(Append(u, p), d)
  }

  lemma {:induction false} WalkAppend(m: Mask, a: Cell, u: Walk, v: Walk)
    ensures Length(Append(u, v)) == Length(u) + Length(v)
    ensures End(a, Append(u, v)) == End(End(a, u), v)
    ensures IsWalk(m, a, Append(u, v)) <==> IsWalk(m, a, u) && IsWalk(m, End(a, u), v)
  {
    if v.Then? {
      WalkAppend(m, a, u, v.prev);
    }
  }

  // ----- reversal -----

  /** Both tiles that share an edge agree on its wall bit. */
  predicate Mirrored(m: Mask) {
    (forall x, y :: 0 <= x < GRID_SIZE && 0 < y < GRID_SIZE ==>
      (Clear(m[x][y], WALL_NORTH) <==> Clear(m[x][y - 1], WALL_SOUTH))) &&
    (forall x, y :: 0 < x < GRID_SIZE && 0 <= y < GRID_SIZE ==>
      (Clear(m[x][y], WALL_EAST) <==> Clear(m[x - 1][y], WALL_WEST)))
  }

  /** Standing on `c` is not ruled out by a full-block bit. */
  predicate Open(m: Mask, c: Cell) {
    InGrid(c) && Clear(m[c.x][c.y], FULL_BLOCK)
  }

  lemma MirrorAt(m: Mask, x: int, y: int)
    requires Mirrored(m)
    ensures 0 <= x < GRID_SIZE && 0 < y < GRID_SIZE ==>
              (Clear(m[x][y], WALL_NORTH) <==> Clear(m[x][y - 1], WALL_SOUTH))
    ensures 0 < x < GRID_SIZE && 0 <= y < GRID_SIZE ==>
              (Clear(m[x][y], WALL_EAST) <==> Clear(m[x - 1][y], WALL_WEST))
  {
  }

  predicate Cardinal(d: Dir) {
    d.W? || d.E? || d.N? || d.S?
  }

  /** One edge, seen from both sides. */
  lemma EdgeBack(m: Mask, a: Cell, d: Dir)
    requires Mirrored(m) && Open(m, a) && Cardinal(d) && Enters(m, a, d)
    ensures Open(m, Move(a, d)) && Enters(m, Move(a, d), Opposite(d))
  {
    var b := Move(a, d);
    ClearSplits(m[a.x][a.y]);
    ClearSplits(m[b.x][b.y]);
    MirrorAt(m, a.x, a.y);
    MirrorAt(m, b.x, b.y);
  }

  /** The far corner of a diagonal test: the combined test adds the two far edges. */
  lemma CornerSplits(m: Mask, a: Cell, d: Dir)
    requires !Cardinal(d)
    ensures Enters(m, a, d) <==>
            Enters(m, Move(a, Horizontal(d)), Vertical(d)) && Enters(m, Move(a, Vertical(d)), Horizontal(d))
  {
    var b := Move(a, d);
    if InGrid(b) {
      ClearSplits(m[b.x][b.y]);
    }
  }

  /** Where the cardinal parts of a diagonal lead, forwards and backwards. */
  lemma DiagonalParts(a: Cell, d: Dir)
    requires !Cardinal(d)
    ensures var v, h, b := Vertical(d), Horizontal(d), Move(a, d);
            && Cardinal(v) && Cardinal(h) && !Cardinal(Opposite(d))
            && Move(Move(a, h), v) == b && Move(Move(a, v), h) == b && Move(b, Opposite(d)) == a
            && Vertical(Opposite(d)) == Opposite(v) && Horizontal(Opposite(d)) == Opposite(h)
            && Move(b, Opposite(v)) == Move(a, h) && Move(b, Opposite(h)) == Move(a, v)
  {
  }

  /** A legal move enters a tile with no full-block bit, and can be undone.  A diagonal uses the
      four edges around one corner; reversed, it uses the same four. */
  lemma MoveBack(m: Mask, a: Cell, d: Dir)
    requires Mirrored(m) && Open(m, a) && Legal(m, a, d)
    ensures Open(m, Move(a, d))
    ensures Move(Move(a, d), Opposite(d)) == a
    ensures Legal(m, Move(a, d), Opposite(d))
  {
    if Cardinal(d) {
      hide Mirrored, Enters, Open;
      EdgeBack(m, a, d);
    } else {
      DiagonalParts(a, d);
      hide Mirrored, Enters, Open, Move, Vertical, Horizontal, Opposite, Cardinal;
      var v, h, b := Vertical(d), Horizontal(d), Move(a, d);
      CornerSplits(m, a, d);
      CornerSplits(m, b, Opposite(d));
      EdgeBack(m, a, v);
      EdgeBack(m, a, h);
      EdgeBack(m, Move(a, h), v);
      EdgeBack(m, Move(a, v), h);
    }
  }

  function Reversed(w: Walk): Walk {
    match w
    case Stay => Stay
    case Then(p, d) => Append(Then(Stay, Opposite(d)), Reversed(p))
  }

  /** On a mirrored mask a walk from a tile without a full-block bit can be walked back. */
  lemma {:induction false} WalkBack(m: Mask, a: Cell, w: Walk)
    requires Mirrored(m) && Open(m, a) && IsWalk(m, a, w)
    ensures Open(m, End(a, w)) && Length(Reversed(w)) == Length(w)
    ensures IsWalk(m, End(a, w), Reversed(w)) && End(End(a, w), Reversed(w)) == a
  {
    if w.Then? {
      WalkBack(m, a, w.prev);
      MoveBack(m, End(a, w.prev), w.dir);
      WalkAppend(m, End(a, w), Then(Stay, Opposite(w.dir)), Reversed(w.prev));
    }
  }

  // ----- distance -----

  /** `b` can be reached from `a` in at most `n` legal moves. */
  ghost predicate Within(m: Mask, a: Cell, b: Cell, n: nat) {
    exists w :: Length(w) <= n && IsWalk(m, a, w) && End(a, w) == b
  }

  /** On a mirrored mask, distance between tiles without a full-block bit is symmetric. */
  lemma DistanceSymmetric(m: Mask, a: Cell, b: Cell, n: nat)
    requires Mirrored(m) && Open(m, a) && Open(m, b)
    ensures Within(m, a, b, n) <==> Within(m, b, a, n)
  {
    if Within(m, a, b, n) {
      var w :| Length(w) <= n && IsWalk(m, a, w) && End(a, w) == b;
      WalkBack(m, a, w);
    }
    if Within(m, b, a, n) {
      var w :| Length(w) <= n && IsWalk(m, b, w) && End(b, w) == a;
      WalkBack(m, b, w);
    }
  }
}
