/** The tree a breadth-first search builds, and what it says about all walks. */
module SearchTree {
  import opened Flags
  import opened Walks

  /** Every discovered tile in discovery order, with the walk that discovered it. */
  datatype Tree = Tree(order: seq<Cell>, walk: map<Cell, Walk>)

  function Level(t: Tree, c: Cell): nat
    requires c in t.walk
  {
    Length(t.walk[c])
  }

  /** A walk is recorded for exactly the tiles of the discovery order, each of which is listed once. */
  ghost predicate Indexed(t: Tree) {
    (forall i :: 0 <= i < |t.order| ==> t.order[i] in t.walk) &&
    (forall c :: c in t.walk ==> c in t.order) &&
    (forall i, j :: 0 <= i < j < |t.order| ==> t.order[i] != t.order[j])
  }

  /** Each recorded walk is legal, ends at its tile, and extends the recorded walk of its parent. */
  ghost predicate Branch(m: Mask, start: Cell, t: Tree, c: Cell)
    requires c in t.walk
  {
    var w := t.walk[c];
    && IsWalk(m, start, w) && End(start, w) == c
    && (w.Then? ==> End(start, w.prev) in t.walk && t.walk[End(start, w.prev)] == w.prev)
  }

  ghost predicate Levelled(t: Tree)
    requires Indexed(t)
  {
    forall i, j :: 0 <= i < j < |t.order| ==> Level(t, t.order[i]) <= Level(t, t.order[j])
  }

  ghost predicate IsTree(m: Mask, start: Cell, t: Tree) {
    && Indexed(t) && Levelled(t)
    && t.order != [] && t.order[0] == start && t.walk[start] == Stay
    && forall c :: c in t.walk ==> Branch(m, start, t, c)
  }

  /** The walk of every discovered tile is at most `n` moves long. */
  ghost predicate Bounded(t: Tree, n: nat) {
    forall c :: c in t.walk ==> Level(t, c) <= n
  }

  /** The move `d` from `c`, if legal, leads to a tile discovered at most one level deeper. */
  ghost predicate Explored(m: Mask, t: Tree, c: Cell, d: Dir)
    requires c in t.walk
  {
    InGrid(c) && Legal(m, c, d) ==> Move(c, d) in t.walk && Level(t, Move(c, d)) <= Level(t, c) + 1
  }

  /** The first `r` discovered tiles have been expanded in all eight directions. */
  ghost predicate Scanned(m: Mask, t: Tree, r: nat)
    requires Indexed(t) && r <= |t.order|
  {
    forall i, d :: 0 <= i < r ==> Explored(m, t, t.order[i], d)
  }

  ghost predicate Extends(t: Tree, t': Tree) {
    t.order <= t'.order && forall c :: c in t.walk ==> c in t'.walk && t'.walk[c] == t.walk[c]
  }

  function Root(start: Cell): Tree {
    Tree([start], map[start := Stay])
  }

  lemma RootIsTree(m: Mask, start: Cell)
    requires InGrid(start)
    ensures IsTree(m, start, Root(start)) && Scanned(m, Root(start), 0) && Bounded(Root(start), 0)
  {
  }

  /** Discovering the tile in direction `d` of `c`. */
  function Grow(t: Tree, c: Cell, d: Dir): Tree
    requires c in t.walk
  {
    Tree(t.order + [Move(c, d)], t.walk[Move(c, d) := Then(t.walk[c], d)])
  }

  lemma GrowIndexed(t: Tree, c: Cell, d: Dir)
    requires Indexed(t) && c in t.walk && Move(c, d) !in t.walk
    ensures Indexed(Grow(t, c, d))
  {
    var t' := Grow(t, c, d);
    forall x | x in t'.walk ensures x in t'.order {
      if x == Move(c, d) {
        assert t'.order[|t.order|] == x;
      }
    }
  }

  lemma LengthThen(w: Walk, d: Dir)
    ensures Length(Then(w, d)) == Length(w) + 1
  {
  }

  lemma GrowLevelled(t: Tree, c: Cell, d: Dir)
    requires Indexed(t) && Levelled(t) && c in t.walk && Move(c, d) !in t.walk
    requires Bounded(t, Level(t, c) + 1)
    ensures Indexed(Grow(t, c, d)) && Levelled(Grow(t, c, d))
    ensures Bounded(Grow(t, c, d), Level(t, c) + 1)
  {
    hide Length, Move;
    GrowIndexed(t, c, d);
    var t' := Grow(t, c, d);
    LengthThen(t.walk[c], d);
    forall i, j | 0 <= i < j < |t'.order| ensures Level(t', t'.order[i]) <= Level(t', t'.order[j]) {
      assert t'.order[i] == t.order[i] && t.order[i] in t.walk && Level(t', t.order[i]) == Level(t, t.order[i]);
      if j < |t.order| {
        assert Level(t', t.order[j]) == Level(t, t.order[j]);
      }
    }
  }

  lemma GrowBranches(m: Mask, start: Cell, t: Tree, c: Cell, d: Dir, x: Cell)
    requires c in t.walk && InGrid(c) && Branch(m, start, t, c)
    requires Legal(m, c, d) && Move(c, d) !in t.walk
    requires x == Move(c, d) || (x in t.walk && Branch(m, start, t, x))
    ensures Branch(m, start, Grow(t, c, d), x)
  {
  }

  /** Discovering a new tile from the tile being expanded keeps the tree a breadth-first tree. */
  lemma GrowKeeps(m: Mask, start: Cell, t: Tree, c: Cell, d: Dir)
    requires IsTree(m, start, t) && c in t.walk && InGrid(c)
    requires Legal(m, c, d) && Move(c, d) !in t.walk
    requires Bounded(t, Level(t, c) + 1)
    ensures IsTree(m, start, Grow(t, c, d)) && Extends(t, Grow(t, c, d))
    ensures Bounded(Grow(t, c, d), Level(t, c) + 1)
  {
    var t' := Grow(t, c, d);
    GrowLevelled(t, c, d);
    forall x | x in t'.walk ensures Branch(m, start, t', x) {
      GrowBranches(m, start, t, c, d, x);
    }
  }

  lemma ScannedExtends(m: Mask, t: Tree, t': Tree, r: nat)
    requires Indexed(t) && Indexed(t') && Extends(t, t') && r <= |t.order|
    requires Scanned(m, t, r)
    ensures Scanned(m, t', r)
  {
    forall i, d | 0 <= i < r ensures Explored(m, t', t'.order[i], d) {
      assert Explored(m, t, t.order[i], d);
    }
  }

  // ----- what the tree says about every walk -----

  /** A walk either ends on a tile the tree reaches at least as fast, or is as long as the
      next tile to be expanded is deep. */
  lemma {:induction false} TreeIsFastest(m: Mask, start: Cell, t: Tree, r: nat, w: Walk)
    requires IsTree(m, start, t) && r <= |t.order| && Scanned(m, t, r)
    requires IsWalk(m, start, w)
    ensures var c := End(start, w);
            || (c in t.walk && Level(t, c) <= Length(w))
            || (r < |t.order| && Level(t, t.order[r]) <= Length(w))
  {
    if w.Then? {
      TreeIsFastest(m, start, t, r, w.prev);
      var p := End(start, w.prev);
      if p in t.walk && Level(t, p) <= Length(w.prev) {
        var i :| 0 <= i < |t.order| && t.order[i] == p;
        if i < r {
          assert Explored(m, t, t.order[i], w.dir);
        }
      }
    }
  }

  /** The first expanded tile with a property is a nearest one. */
  lemma FirstIsNearest(m: Mask, start: Cell, t: Tree, r: nat, accepts: Cell -> bool, w: Walk)
    requires IsTree(m, start, t) && r <= |t.order| && Scanned(m, t, r)
    requires forall i :: 0 <= i < r ==> !accepts(t.order[i])
    requires IsWalk(m, start, w) && accepts(End(start, w))
    ensures r < |t.order| && Level(t, t.order[r]) <= Length(w)
  {
    hide IsWalk, End, Length, Branch, Scanned;
    TreeIsFastest(m, start, t, r, w);
    var c := End(start, w);
    if c in t.walk && Level(t, c) <= Length(w) {
      var i :| 0 <= i < |t.order| && t.order[i] == c;
      assert i >= r;
      assert i == r || Level(t, t.order[r]) <= Level(t, t.order[i]);
    }
  }

  // ----- the number of discovered tiles -----

  function Slot(c: Cell): int {
    c.x * GRID_SIZE + c.y
  }

  lemma {:induction false} DistinctBelow(s: seq<int>, n: nat)
    requires forall i :: 0 <= i < |s| ==> 0 <= s[i] < n
    requires forall i, j :: 0 <= i < j < |s| ==> s[i] != s[j]
    ensures |s| <= n
    decreases n
  {
    if s != [] {
      assert s[0] < n;
      if i :| 0 <= i < |s| && s[i] == n - 1 {
        var u := s[..i] + s[i + 1..];
        DistinctBelow(u, n - 1);
      } else {
        DistinctBelow(s, n - 1);
      }
    }
  }

  /** No tile is discovered twice, so the ring of GRID_SIZE squared slots cannot overflow. */
  lemma TreeFits(m: Mask, start: Cell, t: Tree)
    requires IsTree(m, start, t)
    ensures |t.order| <= GRID_SIZE * GRID_SIZE
  {
    var slots := seq(|t.order|, i requires 0 <= i < |t.order| => Slot(t.order[i]));
    forall i | 0 <= i < |slots| ensures 0 <= slots[i] < GRID_SIZE * GRID_SIZE {
      assert Branch(m, start, t, t.order[i]);
    }
    forall i, j | 0 <= i < j < |slots| ensures slots[i] != slots[j] {
      assert Branch(m, start, t, t.order[i]) && Branch(m, start, t, t.order[j]);
      assert t.order[i] != t.order[j];
    }
    DistinctBelow(slots, GRID_SIZE * GRID_SIZE);
  }
}
