/** Setting and clearing bits of the mask, one edge or tile at a time. */
module Stamps {
  import opened Flags
  import opened Walks

  /** Sets (`on`) or clears bits of one tile; outside the grid it does nothing. */
  datatype Mark = Mark(c: Cell, bits: bv8, on: bool)

  function Marked(tile: bv8, bits: bv8, on: bool): bv8 {
    if on then tile | bits else tile & !bits
  }

  function Apply(m: Mask, k: Mark): Mask {
    if InGrid(k.c) then m[k.c.x := m[k.c.x][k.c.y := Marked(m[k.c.x][k.c.y], k.bits, k.on)]] else m
  }

  function ApplyAll(m: Mask, ks: seq<Mark>): Mask {
    if ks == [] then m else Apply(ApplyAll(m, ks[..|ks| - 1]), ks[|ks| - 1])
  }

  lemma {:induction false} ApplyConcat(m: Mask, ks: seq<Mark>, ls: seq<Mark>)
    ensures ApplyAll(m, ks + ls) == ApplyAll(ApplyAll(m, ks), ls)
    decreases |ls|
  {
    if ls == [] {
      assert ks + ls == ks;
    } else {
      assert (ks + ls)[..|ks + ls| - 1] == ks + ls[..|ls| - 1];
      ApplyConcat(m, ks, ls[..|ls| - 1]);
    }
  }

  // ----- last-writer meaning -----

  predicate SingleBit(f: bv8) {
    f == 1 || f == 2 || f == 4 || f == 8 || f == 16 || f == 32 || f == 64 || f == 128
  }

  datatype Write = Untouched | Written(on: bool)

  predicate Hits(k: Mark, c: Cell, f: bv8) {
    k.c == c && k.bits & f != 0
  }

  /** The last mark that touches bit `f` of tile `c`. */
  function LastWrite(ks: seq<Mark>, c: Cell, f: bv8): Write {
    if ks == [] then Untouched
    else
      var k := ks[|ks| - 1];
      if Hits(k, c, f) then Written(k.on) else LastWrite(ks[..|ks| - 1], c, f)
  }

  lemma MarkedBit(tile: bv8, bits: bv8, on: bool, f: bv8)
    requires SingleBit(f)
    ensures bits & f != 0 ==> (Clear(Marked(tile, bits, on), f) <==> !on)
    ensures bits & f == 0 ==> (Clear(Marked(tile, bits, on), f) <==> Clear(tile, f))
  {
  }

  /** Every bit ends as its last writer left it, and keeps its value if nothing writes it. */
  lemma {:induction false} LastWriterWins(m: Mask, ks: seq<Mark>, c: Cell, f: bv8)
    requires InGrid(c) && SingleBit(f)
    ensures Clear(ApplyAll(m, ks)[c.x][c.y], f) <==>
            match LastWrite(ks, c, f)
            case Untouched => Clear(m[c.x][c.y], f)
            case Written(on) => !on
    decreases |ks|
  {
    if ks != [] {
      var init, k := ks[..|ks| - 1], ks[|ks| - 1];
      LastWriterWins(m, init, c, f);
      MarkedBit(ApplyAll(m, init)[c.x][c.y], k.bits, k.on, f);
    }
  }

  lemma BitsDetermineTile(a: bv8, b: bv8)
    requires Clear(a, 1) <==> Clear(b, 1)
    requires Clear(a, 2) <==> Clear(b, 2)
    requires Clear(a, 4) <==> Clear(b, 4)
    requires Clear(a, 8) <==> Clear(b, 8)
    requires Clear(a, 16) <==> Clear(b, 16)
    requires Clear(a, 32) <==> Clear(b, 32)
    requires Clear(a, 64) <==> Clear(b, 64)
    requires Clear(a, 128) <==> Clear(b, 128)
    ensures a == b
  {
  }

  /** Two masks that agree on every single bit are equal. */
  lemma SameBits(m: Mask, n: Mask)
    requires forall c, f :: InGrid(c) && SingleBit(f) ==> (Clear(m[c.x][c.y], f) <==> Clear(n[c.x][c.y], f))
    ensures m == n
  {
    forall x, y | 0 <= x < GRID_SIZE && 0 <= y < GRID_SIZE ensures m[x][y] == n[x][y] {
      var c := Cell(x, y);
      forall f | SingleBit(f) ensures Clear(m[x][y], f) <==> Clear(n[x][y], f) {
        assert InGrid(c);
      }
      BitsDetermineTile(m[x][y], n[x][y]);
    }
    forall x | 0 <= x < GRID_SIZE ensures m[x] == n[x] {
    }
  }

  /** Applying the same marks a second time changes nothing. */
  lemma ApplyTwice(m: Mask, ks: seq<Mark>)
    ensures ApplyAll(ApplyAll(m, ks), ks) == ApplyAll(m, ks)
  {
    var n := ApplyAll(m, ks);
    forall c, f | InGrid(c) && SingleBit(f)
      ensures Clear(ApplyAll(n, ks)[c.x][c.y], f) <==> Clear(n[c.x][c.y], f)
    {
      LastWriterWins(m, ks, c, f);
      LastWriterWins(n, ks, c, f);
    }
    SameBits(ApplyAll(n, ks), n);
  }

  // ----- stamps -----

  /** What a layer contributes: one edge (both tiles' bits), or bits of one tile. */
  datatype Stamp = Edge(c: Cell, side: Dir, on: bool) | Block(c: Cell, bits: bv8, on: bool)

  /** The bit a tile carries for the edge on its `side`.  The low-x edge is called WALL_EAST. */
  function OwnBit(side: Dir): bv8
    requires Cardinal(side)
  {
    match side
    case N => WALL_NORTH
    case S => WALL_SOUTH
    case W => WALL_EAST
    case E => WALL_WEST
  }

  const WALLS: bv8 := 15

  /** Edges are cardinal, and blocks touch no wall bit. */
  predicate WellFormed(s: Stamp) {
    match s
    case Edge(_, side, _) => Cardinal(side)
    case Block(_, bits, _) => Clear(bits, WALLS)
  }

  predicate AllWellFormed(ss: seq<Stamp>) {
    forall i :: 0 <= i < |ss| ==> WellFormed(ss[i])
  }

  function Marks(s: Stamp): seq<Mark>
    requires WellFormed(s)
  {
    match s
    case Edge(c, side, on) => [Mark(c, OwnBit(side), on), Mark(Move(c, side), OwnBit(Opposite(side)), on)]
    case Block(c, bits, on) => [Mark(c, bits, on)]
  }

  function AllMarks(ss: seq<Stamp>): seq<Mark>
    requires AllWellFormed(ss)
  {
    if ss == [] then [] else AllMarks(ss[..|ss| - 1]) + Marks(ss[|ss| - 1])
  }

  function StampAll(m: Mask, ss: seq<Stamp>): Mask
    requires AllWellFormed(ss)
  {
    ApplyAll(m, AllMarks(ss))
  }

  lemma {:induction false} AllMarksConcat(ss: seq<Stamp>, ts: seq<Stamp>)
    requires AllWellFormed(ss) && AllWellFormed(ts)
    ensures AllWellFormed(ss + ts) && AllMarks(ss + ts) == AllMarks(ss) + AllMarks(ts)
    decreases |ts|
  {
    if ts == [] {
      assert ss + ts == ss;
    } else {
      assert (ss + ts)[..|ss + ts| - 1] == ss + ts[..|ts| - 1];
      AllMarksConcat(ss, ts[..|ts| - 1]);
    }
  }

  lemma StampConcat(m: Mask, ss: seq<Stamp>, ts: seq<Stamp>)
    requires AllWellFormed(ss) && AllWellFormed(ts)
    ensures AllWellFormed(ss + ts) && StampAll(m, ss + ts) == StampAll(StampAll(m, ss), ts)
  {
    AllMarksConcat(ss, ts);
    ApplyConcat(m, AllMarks(ss), AllMarks(ts));
  }

  // ----- the edge-mirror invariant -----

  /** The bits on both sides of the edge on `side` of `c` agree. */
  predicate EdgeAgrees(m: Mask, c: Cell, side: Dir)
    requires Cardinal(side)
  {
    InGrid(c) && InGrid(Move(c, side)) ==>
      (Clear(m[c.x][c.y], OwnBit(side)) <==>
       Clear(m[Move(c, side).x][Move(c, side).y], OwnBit(Opposite(side))))
  }

  lemma MirroredEdge(m: Mask, c: Cell, side: Dir)
    requires Mirrored(m) && Cardinal(side)
    ensures EdgeAgrees(m, c, side)
  {
    hide Mirrored, Clear;
    match side
    case N => MirrorAt(m, c.x, c.y);
    case S => MirrorAt(m, c.x, c.y + 1);
    case W => MirrorAt(m, c.x, c.y);
    case E => MirrorAt(m, c.x + 1, c.y);
  }

  /** A mask is mirrored if and only if both tiles of every edge agree on it, from either side. */
  lemma MirroredEdges(m: Mask)
    ensures Mirrored(m) <==> forall c, side :: Cardinal(side) ==> EdgeAgrees(m, c, side)
  {
    if Mirrored(m) {
      hide EdgeAgrees, Mirrored;
      forall c, side | Cardinal(side) ensures EdgeAgrees(m, c, side) {
        MirroredEdge(m, c, side);
      }
    } else {
      NotMirrored(m);
    }
  }

  lemma NotMirrored(m: Mask)
    requires !Mirrored(m)
    ensures exists c, side :: Cardinal(side) && !EdgeAgrees(m, c, side)
  {
    hide Clear;
    if x, y :| 0 <= x < GRID_SIZE && 0 < y < GRID_SIZE
               && !(Clear(m[x][y], WALL_NORTH) <==> Clear(m[x][y - 1], WALL_SOUTH)) {
      assert !EdgeAgrees(m, Cell(x, y), N);
    } else {
      var x, y :| 0 < x < GRID_SIZE && 0 <= y < GRID_SIZE
                  && !(Clear(m[x][y], WALL_EAST) <==> Clear(m[x - 1][y], WALL_WEST));
      assert !EdgeAgrees(m, Cell(x, y), W);
    }
  }

  /** A mark on the edge bit of `c` towards `side` is exactly a mark of this bit. */
  lemma MarkOnBit(m: Mask, k: Mark, c: Cell, f: bv8)
    requires InGrid(c) && SingleBit(f)
    ensures Clear(Apply(m, k)[c.x][c.y], f) <==>
            if k.c == c && k.bits & f != 0 then !k.on else Clear(m[c.x][c.y], f)
  {
    MarkedBit(m[c.x][c.y], k.bits, k.on, f);
  }

  lemma OwnBits(side: Dir, s: Dir)
    requires Cardinal(side) && Cardinal(s)
    ensures SingleBit(OwnBit(side))
    ensures OwnBit(s) & OwnBit(side) != 0 <==> s == side
    ensures Cardinal(Opposite(side))
  {
  }

  lemma BlockMisses(bits: bv8, side: Dir)
    requires Clear(bits, WALLS) && Cardinal(side)
    ensures bits & OwnBit(side) == 0
  {
  }

  lemma ApplyOne(m: Mask, k: Mark)
    ensures ApplyAll(m, [k]) == Apply(m, k)
  {
    assert [k][..0] == [];
  }

  lemma ApplyTwo(m: Mask, k0: Mark, k1: Mark)
    ensures ApplyAll(m, [k0, k1]) == Apply(Apply(m, k0), k1)
  {
    assert [k0, k1][..1] == [k0];
    ApplyOne(m, k0);
  }

  lemma BlockKeepsEdge(m: Mask, k: Mark, c: Cell, side: Dir)
    requires Clear(k.bits, WALLS) && Cardinal(side) && EdgeAgrees(m, c, side)
    ensures EdgeAgrees(Apply(m, k), c, side)
  {
    var b, back := Move(c, side), Opposite(side);
    if InGrid(c) && InGrid(b) {
      OwnBits(side, side);
      OwnBits(back, back);
      BlockMisses(k.bits, side);
      BlockMisses(k.bits, back);
      MarkOnBit(m, k, c, OwnBit(side));
      MarkOnBit(m, k, b, OwnBit(back));
    }
  }

  /** The two marks of an edge hit both bits of an edge, or neither. */
  lemma EdgeKeepsEdge(m: Mask, at: Cell, e: Dir, on: bool, c: Cell, side: Dir)
    requires Cardinal(e) && Cardinal(side) && EdgeAgrees(m, c, side)
    ensures EdgeAgrees(Apply(Apply(m, Mark(at, OwnBit(e), on)), Mark(Move(at, e), OwnBit(Opposite(e)), on)), c, side)
  {
    hide Apply, Clear;
    var b, back := Move(c, side), Opposite(side);
    var k0, k1 := Mark(at, OwnBit(e), on), Mark(Move(at, e), OwnBit(Opposite(e)), on);
    if InGrid(c) && InGrid(b) {
      OwnBits(side, e);
      OwnBits(side, Opposite(e));
      OwnBits(back, e);
      OwnBits(back, Opposite(e));
      assert k0.c == c && e == side <==> k1.c == b && Opposite(e) == back;
      assert k1.c == c && Opposite(e) == side <==> k0.c == b && e == back;
      hide OwnBit, Move;
      MarkOnBit(m, k0, c, OwnBit(side));
      MarkOnBit(m, k0, b, OwnBit(back));
      MarkOnBit(Apply(m, k0), k1, c, OwnBit(side));
      MarkOnBit(Apply(m, k0), k1, b, OwnBit(back));
    }
  }

  /** Every stamp, set or cleared and overhanging the grid or not, leaves all edges mirrored. */
  lemma StampKeepsEdge(m: Mask, s: Stamp, c: Cell, side: Dir)
    requires WellFormed(s) && Cardinal(side) && EdgeAgrees(m, c, side)
    ensures EdgeAgrees(ApplyAll(m, Marks(s)), c, side)
  {
    hide EdgeAgrees, ApplyAll, Apply;
    match s
    case Block(at, bits, on) =>
      ApplyOne(m, Mark(at, bits, on));
      BlockKeepsEdge(m, Mark(at, bits, on), c, side);
    case Edge(at, e, on) =>
      ApplyTwo(m, Mark(at, OwnBit(e), on), Mark(Move(at, e), OwnBit(Opposite(e)), on));
      EdgeKeepsEdge(m, at, e, on, c, side);
  }

  lemma {:induction false} StampsKeepMirrored(m: Mask, ss: seq<Stamp>)
    requires AllWellFormed(ss) && Mirrored(m)
    ensures Mirrored(StampAll(m, ss))
    decreases |ss|
  {
    if ss != [] {
      var init, s := ss[..|ss| - 1], ss[|ss| - 1];
      StampsKeepMirrored(m, init);
      var n := StampAll(m, init);
      ApplyConcat(m, AllMarks(init), Marks(s));
      MirroredEdges(n);
      forall c, side | Cardinal(side) ensures EdgeAgrees(StampAll(m, ss), c, side) {
        StampKeepsEdge(n, s, c, side);
      }
      MirroredEdges(StampAll(m, ss));
    }
  }
}
