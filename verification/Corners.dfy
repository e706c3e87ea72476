/** Corner compression of a walk, its expansion back into unit moves, and the goal-first list in which the
    unwind collects it. */
module Corners {
  import opened Sequences
  import opened Walks

  function Abs(n: int): nat {
    if n < 0 then -n else n
  }

  /** The waypoint list of a walk: every tile at which the direction changes, then the last tile.
      The start tile itself is listed only by the empty walk. */
  function Compress(a: Cell, w: Walk): seq<Cell> {
    match w
    case Stay => [a]
    case Then(p, d) => Turns(a, p, d) + [End(a, w)]
  }

  /** The tiles of `w` where the direction changes, when the move after `w` is `next`. */
  function Turns(a: Cell, w: Walk, next: Dir): seq<Cell> {
    match w
    case Stay => []
    case Then(p, d) => Turns(a, p, d) + (if d != next then [End(a, w)] else [])
  }

  /** The unit move a walker makes from `p` towards the waypoint `q`: each axis by its sign. */
  function Toward(p: Cell, q: Cell): Dir
    requires p != q
  {
    if q.x < p.x then
      if q.y < p.y then NW else if q.y > p.y then SW else W
    else if q.x > p.x then
      if q.y < p.y then NE else if q.y > p.y then SE else E
    else if q.y < p.y then N else S
  }

  /** `q` lies on a straight or diagonal line from `p`. */
  predicate Aligned(p: Cell, q: Cell) {
    p.x == q.x || p.y == q.y || Abs(q.x - p.x) == Abs(q.y - p.y)
  }

  function Chebyshev(p: Cell, q: Cell): nat {
    if Abs(q.x - p.x) >= Abs(q.y - p.y) then Abs(q.x - p.x) else Abs(q.y - p.y)
  }

  /** `w` followed by `k` moves in direction `d`. */
  function Onward(w: Walk, d: Dir, k: nat): Walk {
    if k == 0 then w else Then(Onward(w, d, k - 1), d)
  }

  /** The tile the walker heads for the last waypoint from. */
  function Anchor(a: Cell, cs: seq<Cell>): Cell {
    if |cs| <= 1 then a else cs[|cs| - 2]
  }

  /** All unit moves of a walker that visits the waypoints `cs` one after the other. */
  function Expand(a: Cell, cs: seq<Cell>): Walk {
    if cs == [] then Stay
    else
      var w, p, q := Expand(a, cs[..|cs| - 1]), Anchor(a, cs), cs[|cs| - 1];
      if p == q then w else Onward(w, Toward(p, q), Chebyshev(p, q))
  }

  lemma ExpandSnoc(a: Cell, cs: seq<Cell>, c: Cell)
    requires Anchor(a, cs + [c]) != c
    ensures Expand(a, cs + [c]) ==
            var p := Anchor(a, cs + [c]); Onward(Expand(a, cs), Toward(p, c), Chebyshev(p, c))
  {
    assert (cs + [c])[..|cs + [c]| - 1] == cs;
  }

  lemma {:induction false} OnwardLeadsTo(a: Cell, w: Walk, d: Dir, k: nat)
    ensures var p, q := End(a, w), End(a, Onward(w, d, k));
            q == Cell(p.x + (if Dx(d) == 0 then 0 else if Dx(d) == 1 then k else 0 - k),
                      p.y + (if Dy(d) == 0 then 0 else if Dy(d) == 1 then k else 0 - k))
  {
    if k > 0 {
      OnwardLeadsTo(a, w, d, k - 1);
    }
  }

  /** One straight run is recovered from its two ends. */
  lemma RunRecovered(a: Cell, w: Walk, d: Dir, k: nat)
    requires k >= 1
    ensures var p, q := End(a, w), End(a, Onward(w, d, k));
            p != q && Aligned(p, q) && Toward(p, q) == d && Chebyshev(p, q) == k
  {
    OnwardLeadsTo(a, w, d, k);
  }

  /** A walk is a shorter walk and its last straight run. */
  lemma {:induction false} LastRun(a: Cell, w: Walk) returns (head: Walk, k: nat)
    requires w.Then?
    ensures k >= 1 && w == Onward(head, w.dir, k) && Length(head) < Length(w)
    ensures head.Then? ==> head.dir != w.dir
    ensures Turns(a, w.prev, w.dir) == if head == Stay then [] else Compress(a, head)
  {
    if w.prev.Stay? || w.prev.dir != w.dir {
      head, k := w.prev, 1;
      assert Onward(head, w.dir, 0) == head;
    } else {
      head, k := LastRun(a, w.prev);
      k := k + 1;
    }
  }

  /** The waypoints of a walk are those of a shorter walk and its own end. */
  lemma Unroll(a: Cell, w: Walk) returns (head: Walk, k: nat, init: seq<Cell>)
    requires w.Then?
    ensures k >= 1 && w == Onward(head, w.dir, k) && Length(head) < Length(w)
    ensures head.Then? ==> head.dir != w.dir
    ensures init == if head == Stay then [] else Compress(a, head)
    ensures Compress(a, w) == init + [End(a, w)]
    ensures Anchor(a, Compress(a, w)) == End(a, head) && End(a, head) != End(a, w)
  {
    head, k := LastRun(a, w);
    init := Turns(a, w.prev, w.dir);
    RunRecovered(a, head, w.dir, k);
  }

  /** Corner compression is exact: expanding the waypoints gives back every unit move. */
  lemma {:induction false} ExpandCompress(a: Cell, w: Walk)
    ensures Expand(a, Compress(a, w)) == w
    decreases Length(w)
  {
    if w.Then? {
      var head, k, init := Unroll(a, w);
      RunRecovered(a, head, w.dir, k);
      ExpandSnoc(a, init, End(a, w));
      if head.Then? {
        ExpandCompress(a, head);
      }
    }
  }

  /** Every segment is straight or diagonal and not empty, and adjacent segments turn. */
  predicate WellTurned(a: Cell, cs: seq<Cell>) {
    cs == [] ||
    var init, p, q := cs[..|cs| - 1], Anchor(a, cs), cs[|cs| - 1];
    && WellTurned(a, init)
    && p != q && Aligned(p, q)
    && (init != [] ==> Anchor(a, init) != p && Toward(Anchor(a, init), p) != Toward(p, q))
  }

  lemma {:induction false} CompressTurns(a: Cell, w: Walk)
    requires w.Then?
    ensures WellTurned(a, Compress(a, w))
    ensures var cs := Compress(a, w); var p, q := Anchor(a, cs), cs[|cs| - 1]; p != q && Toward(p, q) == w.dir
    decreases Length(w)
  {
    var head, k, init := Unroll(a, w);
    var cs := Compress(a, w);
    assert cs[..|cs| - 1] == init && cs[|cs| - 1] == End(a, w);
    RunRecovered(a, head, w.dir, k);
    if head.Then? {
      CompressTurns(a, head);
    }
  }

  // ----- the order in which the unwind loop meets the corners -----

  /** The tiles the unwind still records below `w`, goal side first. */
  function Collected(a: Cell, w: Walk, next: Dir): seq<Cell> {
    match w
    case Stay => []
    case Then(p, d) => (if d != next then [End(a, w)] else []) + Collected(a, p, d)
  }

  lemma CollectedStay(a: Cell, next: Dir)
    ensures Collected(a, Stay, next) == []
  {
  }

  lemma CollectedThen(a: Cell, w: Walk, next: Dir)
    requires w.Then?
    ensures Collected(a, w, next) == (if w.dir != next then [End(a, w)] else []) + Collected(a, w.prev, w.dir)
  {
  }

  lemma {:induction false} FlipCollected(a: Cell, w: Walk, next: Dir)
    ensures Flip(Collected(a, w, next)) == Turns(a, w, next)
  {
    if w.Then? {
      var turn := if w.dir != next then [End(a, w)] else [];
      FlipAppend(turn, Collected(a, w.prev, w.dir));
      assert Flip(turn) == turn;
      FlipCollected(a, w.prev, w.dir);
    }
  }
}
