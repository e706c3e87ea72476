/** What holds of every built grid: symmetric paths, and the meaning of the live overlay. */
module GridTheorems {
  import opened Flags
  import opened Walks
  import opened Corners
  import opened Bfs
  import opened PathTheorems
  import opened Stamps
  import opened Options
  import opened FactTables
  import opened Layers
  import opened GridBuilder

  /** On every grid `BuildGrid` can produce, two tiles that are not fully blocked find each other
      or neither does, and the two answers are equally long. */
  lemma BuiltGridSymmetric(ls: Landscape, f: Facts, o: Origin, live: Option<LiveState>, a: Cell, b: Cell)
    requires var m := BuiltMask(ls, f, o, live); Open(m, a) && Open(m, b)
    ensures var m := BuiltMask(ls, f, o, live);
            && (Solvable(m, a, TileGoal(b)) <==> Solvable(m, b, TileGoal(a)))
            && (forall there, back :: IsAnswer(m, a, TileGoal(b), there) && IsAnswer(m, b, TileGoal(a), back) ==>
                 Length(Expand(a, there)) == Length(Expand(b, back)))
  {
    hide BuiltMask, Solvable, IsAnswer, Open;
    var m := BuiltMask(ls, f, o, live);
    BuiltMirrored(ls, f, o, live);
    FoundBothWays(m, a, b);
    forall there, back | IsAnswer(m, a, TileGoal(b), there) && IsAnswer(m, b, TileGoal(a), back)
      ensures Length(Expand(a, there)) == Length(Expand(b, back))
    {
      SameLengthBothWays(m, a, b, there, back);
    }
  }

  /** Each bit of the built grid is what the last record touching it says, else the static value. */
  lemma OverlayLastWriter(m: Mask, f: Facts, base: Cell, live: Option<LiveState>, c: Cell, bit: bv8)
    requires InGrid(c) && SingleBit(bit)
    ensures Clear(StampAll(m, OverlayStamps(f, base, live))[c.x][c.y], bit) <==>
            match LastWrite(AllMarks(OverlayStamps(f, base, live)), c, bit)
            case Untouched => Clear(m[c.x][c.y], bit)
            case Written(on) => !on
  {
    LastWriterWins(m, AllMarks(OverlayStamps(f, base, live)), c, bit);
  }

  /** Reconciling with the same live view again changes nothing. */
  lemma OverlayTwice(m: Mask, f: Facts, base: Cell, live: Option<LiveState>)
    ensures var ss := OverlayStamps(f, base, live); StampAll(StampAll(m, ss), ss) == StampAll(m, ss)
  {
    ApplyTwice(m, AllMarks(OverlayStamps(f, base, live)));
  }

  // ----- a live record that repeats the static definition -----

  lemma {:induction false} LastWriteConcat(ks: seq<Mark>, ls: seq<Mark>, c: Cell, f: bv8)
    ensures LastWrite(ks + ls, c, f)
      == if LastWrite(ls, c, f).Untouched? then LastWrite(ks, c, f) else LastWrite(ls, c, f)
    decreases |ls|
  {
    hide Hits;
    if ls == [] {
      assert ks + ls == ks;
    } else {
      assert (ks + ls)[..|ks + ls| - 1] == ks + ls[..|ls| - 1];
      LastWriteConcat(ks, ls[..|ls| - 1], c, f);
    }
  }

  predicate SameTarget(s: Stamp, t: Stamp) {
    t == s.(on := t.on)
  }

  /** Two stamp lists that differ only in setting or clearing. */
  predicate SameTargets(ss: seq<Stamp>, ts: seq<Stamp>) {
    |ss| == |ts| && forall i :: 0 <= i < |ss| ==> SameTarget(ss[i], ts[i])
  }

  lemma TargetsConcat(a: seq<Stamp>, b: seq<Stamp>, c: seq<Stamp>, d: seq<Stamp>)
    requires SameTargets(a, b) && SameTargets(c, d)
    ensures SameTargets(a + c, b + d)
  {
  }

  /** They touch the same bits. */
  lemma {:induction false} SameTouches(ss: seq<Stamp>, ts: seq<Stamp>, c: Cell, f: bv8)
    requires AllWellFormed(ss) && AllWellFormed(ts) && SameTargets(ss, ts)
    ensures LastWrite(AllMarks(ss), c, f).Untouched? <==> LastWrite(AllMarks(ts), c, f).Untouched?
    decreases |ss|
  {
    if ss != [] {
      var n := |ss| - 1;
      SameTouches(ss[..n], ts[..n], c, f);
      LastWriteConcat(AllMarks(ss[..n]), Marks(ss[n]), c, f);
      LastWriteConcat(AllMarks(ts[..n]), Marks(ts[n]), c, f);
      MarksTouch(ss[n], ts[n], c, f);
    }
  }

  lemma MarksTouch(s: Stamp, t: Stamp, c: Cell, f: bv8)
    requires WellFormed(s) && WellFormed(t) && SameTarget(s, t)
    ensures LastWrite(Marks(s), c, f).Untouched? <==> LastWrite(Marks(t), c, f).Untouched?
  {
    match s
    case Block(p, bits, on) =>
      HitsEither(p, bits, on, t.on, c, f);
      hide LastWrite, Hits;
      LastWriteOne(Mark(p, bits, on), c, f);
      LastWriteOne(Mark(p, bits, t.on), c, f);
    case Edge(p, side, on) =>
      HitsEither(p, OwnBit(side), on, t.on, c, f);
      HitsEither(Move(p, side), OwnBit(Opposite(side)), on, t.on, c, f);
      hide LastWrite, Hits, OwnBit, Move, Opposite;
      LastWriteTwo(Mark(p, OwnBit(side), on), Mark(Move(p, side), OwnBit(Opposite(side)), on), c, f);
      LastWriteTwo(Mark(p, OwnBit(side), t.on), Mark(Move(p, side), OwnBit(Opposite(side)), t.on), c, f);
  }

  lemma HitsEither(p: Cell, bits: bv8, on: bool, on': bool, c: Cell, f: bv8)
    ensures Hits(Mark(p, bits, on), c, f) <==> Hits(Mark(p, bits, on'), c, f)
  {
  }

  lemma LastWriteOne(k: Mark, c: Cell, f: bv8)
    ensures LastWrite([k], c, f) == if Hits(k, c, f) then Written(k.on) else Untouched
  {
    assert [k][..0] == [];
  }

  lemma LastWriteTwo(k: Mark, l: Mark, c: Cell, f: bv8)
    ensures LastWrite([k, l], c, f) ==
            if Hits(l, c, f) then Written(l.on) else if Hits(k, c, f) then Written(k.on) else Untouched
  {
    hide Hits;
    assert [k, l][..1] == [k];
    LastWriteOne(k, c, f);
  }

  lemma MarksSet(s: Stamp, c: Cell, f: bv8)
    requires WellFormed(s) && s.on
    ensures LastWrite(Marks(s), c, f) != Written(false)
  {
    match s
    case Block(p, bits, on) => LastWriteOne(Mark(p, bits, on), c, f);
    case Edge(p, side, on) =>
      LastWriteTwo(Mark(p, OwnBit(side), on), Mark(Move(p, side), OwnBit(Opposite(side)), on), c, f);
  }

  lemma {:induction false} OnlySets(ss: seq<Stamp>, c: Cell, f: bv8)
    requires AllWellFormed(ss) && forall i :: 0 <= i < |ss| ==> ss[i].on
    ensures LastWrite(AllMarks(ss), c, f) != Written(false)
    decreases |ss|
  {
    if ss != [] {
      var n := |ss| - 1;
      OnlySets(ss[..n], c, f);
      LastWriteConcat(AllMarks(ss[..n]), Marks(ss[n]), c, f);
      MarksSet(ss[n], c, f);
    }
  }

  /** The mask has every bit that `ss` would set. */
  ghost predicate Carries(m: Mask, ss: seq<Stamp>)
    requires AllWellFormed(ss)
  {
    forall c, f :: InGrid(c) && SingleBit(f) && LastWrite(AllMarks(ss), c, f) == Written(true)
      ==> !Clear(m[c.x][c.y], f)
  }

  /** Clearing some stamps and setting the same ones again leaves a mask that carries them alone. */
  lemma ClearThenSet(m: Mask, off: seq<Stamp>, on: seq<Stamp>)
    requires AllWellFormed(off) && AllWellFormed(on) && SameTargets(off, on)
    requires forall i :: 0 <= i < |on| ==> on[i].on
    requires Carries(m, on)
    ensures AllWellFormed(off + on) && StampAll(m, off + on) == m
  {
    AllMarksConcat(off, on);
    var ks := AllMarks(off) + AllMarks(on);
    forall c, f | InGrid(c) && SingleBit(f)
      ensures Clear(ApplyAll(m, ks)[c.x][c.y], f) <==> Clear(m[c.x][c.y], f)
    {
      LastWriterWins(m, ks, c, f);
      LastWriteConcat(AllMarks(off), AllMarks(on), c, f);
      SameTouches(off, on, c, f);
      OnlySets(on, c, f);
    }
    SameBits(ApplyAll(m, ks), m);
  }

  /** Setting and clearing a footprint addresses the same edges and tiles. */
  lemma {:induction false} RowsMatch(kind: int, dir: int, c: Cell, n: nat)
    ensures SameTargets(RowStamps(kind, dir, c, n, false), RowStamps(kind, dir, c, n, true))
  {
    if n > 0 {
      RowsMatch(kind, dir, c, n - 1);
      var t := Cell(c.x + n - 1, c.y);
      TargetsConcat(RowStamps(kind, dir, c, n - 1, false), RowStamps(kind, dir, c, n - 1, true),
                    TileStamps(kind, dir, t, false), TileStamps(kind, dir, t, true));
    }
  }

  lemma {:induction false} RectsMatch(kind: int, dir: int, c: Cell, w: nat, n: nat)
    ensures SameTargets(RectStamps(kind, dir, c, w, n, false), RectStamps(kind, dir, c, w, n, true))
  {
    if n > 0 {
      hide SameTargets, RowStamps;
      var r := Cell(c.x, c.y + n - 1);
      RectsMatch(kind, dir, c, w, n - 1);
      RowsMatch(kind, dir, r, w);
      TargetsConcat(RectStamps(kind, dir, c, w, n - 1, false), RectStamps(kind, dir, c, w, n - 1, true),
                    RowStamps(kind, dir, r, w, false), RowStamps(kind, dir, r, w, true));
    }
  }

  lemma FootprintsMatch(def: Option<SceneryDef>, dir: int, c: Cell)
    ensures SameTargets(Footprint(def, dir, c, false), Footprint(def, dir, c, true))
  {
    if Collides(def) {
      hide SameTargets, RectStamps;
      RectsMatch(def.value.kind, dir, c, Columns(def.value, dir), Rows(def.value, dir));
    }
  }

  /** The live record names the definition the static layer has at its tile. */
  predicate Repeats(f: Facts, s: LiveScenery) {
    var p := f.SceneryAt(s.x, s.y);
    !s.removed && p.Some? && s.id == p.value.defId
  }

  /** The stamps of such a record clear the static footprint and set it again. */
  lemma RecordClearsAndSets(f: Facts, base: Cell, s: LiveScenery)
    requires Repeats(f, s)
    ensures var c := Cell(s.x - base.x, s.y - base.y);
            var def, dir := StaticDef(f, s), StaticDir(f, s);
            RecordStamps(f, base, s) ==
            if InGrid(c) then Footprint(def, dir, c, false) + Footprint(def, dir, c, true) else []
  {
    var c := Cell(s.x - base.x, s.y - base.y);
    var def, dir := StaticDef(f, s), StaticDir(f, s);
    hide Footprint, Facts.SceneryAt, Facts.Scenery, InGrid;
    assert def == f.Scenery(s.id);
    hide StaticDef, StaticDir;
    FootprintNone(dir, c);
  }

  lemma FootprintNone(dir: int, c: Cell)
    ensures Footprint(None, dir, c, false) == []
  {
  }

  /** A live record that repeats the static definition changes nothing on a grid that carries
      the static footprint. */
  lemma RepeatedRecord(m: Mask, f: Facts, base: Cell, s: LiveScenery)
    requires Repeats(f, s)
    requires Carries(m, Footprint(StaticDef(f, s), StaticDir(f, s), Cell(s.x - base.x, s.y - base.y), true))
    ensures StampAll(m, RecordStamps(f, base, s)) == m
  {
    hide StampAll, Carries, SameTargets, RecordStamps, Footprint, StaticDef, StaticDir;
    var c := Cell(s.x - base.x, s.y - base.y);
    var def, dir := StaticDef(f, s), StaticDir(f, s);
    RecordClearsAndSets(f, base, s);
    if InGrid(c) {
      FootprintsMatch(def, dir, c);
      ClearThenSet(m, Footprint(def, dir, c, false), Footprint(def, dir, c, true));
    } else {
      StampNone(m);
    }
  }

  /** A list of set-stamps leaves a mask that carries each part of the list. */
  lemma SetsCarry(m: Mask, before: seq<Stamp>, part: seq<Stamp>, after: seq<Stamp>)
    requires AllWellFormed(before) && AllWellFormed(part) && AllWellFormed(after)
    requires forall i :: 0 <= i < |part| ==> part[i].on
    requires forall i :: 0 <= i < |after| ==> after[i].on
    ensures AllWellFormed(before + part + after) && Carries(StampAll(m, before + part + after), part)
  {
    AllMarksConcat(before, part);
    AllMarksConcat(before + part, after);
    var ks := AllMarks(before + part + after);
    forall c, f | InGrid(c) && SingleBit(f) && LastWrite(AllMarks(part), c, f) == Written(true)
      ensures !Clear(ApplyAll(m, ks)[c.x][c.y], f)
    {
      LastWriterWins(m, ks, c, f);
      LastWriteConcat(AllMarks(before), AllMarks(part), c, f);
      LastWriteConcat(AllMarks(before + part), AllMarks(after), c, f);
      OnlySets(after, c, f);
    }
  }

  /** The scenery layer is what comes before location `i`, its footprint, and what comes after. */
  lemma {:induction false} SceneryPart(f: Facts, base: Cell, i: nat, n: nat) returns (after: seq<Stamp>)
    requires i < n <= |f.sceneryLocs|
    ensures AllWellFormed(after) && forall k :: 0 <= k < |after| ==> after[k].on
    ensures var loc := f.sceneryLocs[i];
            SceneryStamps(f, base, n) ==
            SceneryStamps(f, base, i) +
            Footprint(f.Scenery(loc.defId), loc.direction, Cell(loc.x - base.x, loc.y - base.y), true) + after
    decreases n
  {
    hide Footprint;
    if n == i + 1 {
      after := [];
    } else {
      var rest := SceneryPart(f, base, i, n - 1);
      var loc := f.sceneryLocs[n - 1];
      after := rest + Footprint(f.Scenery(loc.defId), loc.direction, Cell(loc.x - base.x, loc.y - base.y), true);
    }
  }

  /** The grid the static layers alone produce carries every static footprint. */
  lemma StaticCarries(ls: Landscape, f: Facts, o: Origin, s: LiveScenery)
    requires Repeats(f, s)
    ensures var base := Cell(o.baseX, o.baseY);
            Carries(BuiltMask(ls, f, o, None),
              Footprint(StaticDef(f, s), StaticDir(f, s), Cell(s.x - base.x, s.y - base.y), true))
  {
    hide StampAll, Carries, LandStamps, SceneryStamps, WallStamps, Footprint;
    var base := Cell(o.baseX, o.baseY);
    var p := f.SceneryAt(s.x, s.y).value;
    var i :| 0 <= i < |f.sceneryLocs| && f.sceneryLocs[i] == p;
    var after := SceneryPart(f, base, i, |f.sceneryLocs|);
    var land := LandStamps(ls, f, o.plane, o.midX, o.midY);
    var walls := WallStamps(f, base, |f.boundaryLocs|);
    var part := Footprint(StaticDef(f, s), StaticDir(f, s), Cell(s.x - base.x, s.y - base.y), true);
    SetsCarry(Blank(), land + SceneryStamps(f, base, i), part, after + walls);
    assert GridStamps(ls, f, o, None) == land + SceneryStamps(f, base, i) + part + (after + walls);
  }

  /** Live records that only repeat fixed definitions leave the built grid exactly static. */
  lemma RepeatedLiveIsStatic(ls: Landscape, f: Facts, o: Origin, rs: seq<LiveScenery>)
    requires forall i :: 0 <= i < |rs| ==> Repeats(f, rs[i])
    ensures BuiltMask(ls, f, o, Some(LiveState([], rs))) == BuiltMask(ls, f, o, None)
  {
    var base := Cell(o.baseX, o.baseY);
    var m := BuiltMask(ls, f, o, None);
    var fixed := StaticStamps(ls, f, o.plane, o.midX, o.midY, base);
    hide StampAll, StaticStamps;
    assert GridStamps(ls, f, o, None) == fixed;
    StampConcat(Blank(), fixed, LiveSceneryStamps(f, base, rs, |rs|));
    assert GridStamps(ls, f, o, Some(LiveState([], rs))) == fixed + LiveSceneryStamps(f, base, rs, |rs|);
    RepeatedRecords(ls, f, o, rs, |rs|);
  }

  lemma {:induction false} RepeatedRecords(ls: Landscape, f: Facts, o: Origin, rs: seq<LiveScenery>, n: nat)
    requires n <= |rs| && forall i :: 0 <= i < |rs| ==> Repeats(f, rs[i])
    ensures var m := BuiltMask(ls, f, o, None);
            StampAll(m, LiveSceneryStamps(f, Cell(o.baseX, o.baseY), rs, n)) == m
  {
    hide StampAll, RecordStamps, BuiltMask, Footprint, Carries;
    var base := Cell(o.baseX, o.baseY);
    var m := BuiltMask(ls, f, o, None);
    if n == 0 {
      StampNone(m);
    } else {
      RepeatedRecords(ls, f, o, rs, n - 1);
      StampConcat(m, LiveSceneryStamps(f, base, rs, n - 1), RecordStamps(f, base, rs[n - 1]));
      StaticCarries(ls, f, o, rs[n - 1]);
      RepeatedRecord(m, f, base, rs[n - 1]);
    }
  }

  // ----- the origin -----

  /** A player at non-negative coordinates stands in the middle half of the grid. */
  lemma PlayerInMiddle(worldX: int, worldY: int, plane: int)
    requires worldX >= 0 && worldY >= 0 && (plane > 0 ==> worldY >= plane * PLANE_HEIGHT)
    ensures var o := OriginOf(worldX, worldY, plane);
            24 <= worldX - o.baseX < 72 && 24 <= worldY - o.baseY < 72
  {
  }

  /** The same footprint one floor up gets the same grid layout, one band further on. */
  lemma FloorsAlign(worldX: int, worldY: int)
    requires worldY >= 0
    ensures var o, up := OriginOf(worldX, worldY, 0), OriginOf(worldX, worldY + PLANE_HEIGHT, 0);
            up.plane == o.plane + 1 && up.midX == o.midX && up.midY == o.midY
            && up.baseX == o.baseX && up.baseY == o.baseY + PLANE_HEIGHT
  {
  }
}
