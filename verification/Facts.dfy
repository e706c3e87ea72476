/** The world definitions the grid is built from: arbitrary inputs here. */
module FactTables {
  import opened Options

  /** Scenery type 1 is solid, type 2 a directional wall; other types do not block. */
  datatype SceneryDef = SceneryDef(id: int, kind: int, width: int, height: int)

  datatype BoundaryDef = BoundaryDef(doorType: int, unknown: int) {
    /** A fixed wall or fence. */
    predicate BlocksMovement() {
      doorType != 0 && unknown == 0
    }

    /** A door, while it is closed. */
    predicate BlocksWhenClosed() {
      doorType == 1
    }
  }

  /** One placed instance of a scenery or boundary definition. */
  datatype Loc = Loc(defId: int, x: int, y: int, direction: int)

  datatype Facts = Facts(
    boundaryDefs: map<int, BoundaryDef>,
    sceneryDefs: map<int, SceneryDef>,
    boundaryLocs: seq<Loc>,
    sceneryLocs: seq<Loc>,
    tileObjectTypes: seq<int>)
  {
    function Scenery(id: int): Option<SceneryDef> {
      if id in sceneryDefs then Some(sceneryDefs[id]) else None
    }

    predicate FixedWall(id: int) {
      id in boundaryDefs && boundaryDefs[id].BlocksMovement()
    }

    /** The rule for live boundaries: closed doors block as well. */
    predicate LiveWall(id: int) {
      id in boundaryDefs && (boundaryDefs[id].BlocksMovement() || boundaryDefs[id].BlocksWhenClosed())
    }

    /** Is the ground overlay impassable?  The byte is a 1-based table index, 250 stands for 2. */
    predicate OverlayBlocks(raw: int) {
      var overlay := if raw == 250 then 2 else raw;
      if overlay <= 0 then false
      else if tileObjectTypes == [] then overlay == 2 || overlay == 11
      else overlay - 1 < |tileObjectTypes| && tileObjectTypes[overlay - 1] != 0
    }

    /** The first scenery placed on a world tile, from position `i` of the list on. */
    function SceneryAt(x: int, y: int, i: nat := 0): (r: Option<Loc>)
      requires i <= |sceneryLocs|
      decreases |sceneryLocs| - i
      ensures r.None? ==> forall k :: i <= k < |sceneryLocs| ==> sceneryLocs[k].x != x || sceneryLocs[k].y != y
      ensures r.Some? ==>
        exists k :: i <= k < |sceneryLocs| && r.value == sceneryLocs[k] && r.value.x == x && r.value.y == y &&
                    forall j :: i <= j < k ==> sceneryLocs[j].x != x || sceneryLocs[j].y != y
    {
      if i == |sceneryLocs| then None
      else if sceneryLocs[i].x == x && sceneryLocs[i].y == y then Some(sceneryLocs[i])
      else SceneryAt(x, y, i + 1)
    }
  }

  const SECTOR_SIZE := 48

  /** The bytes of a landscape tile that matter for collision. */
  datatype Tile = Tile(groundOverlay: int, horizontalWall: int, verticalWall: int, diagonalWalls: int)

  /** A 48 by 48 sector, column first. */
  type Sector = s: seq<Tile> | |s| == SECTOR_SIZE * SECTOR_SIZE
    witness seq(SECTOR_SIZE * SECTOR_SIZE, _ => Tile(0, 0, 0, 0))

  datatype SectorKey = SectorKey(plane: int, sx: int, sy: int)

  datatype LiveBoundary = LiveBoundary(x: int, y: int, dir: int, id: int, removed: bool)
  datatype LiveScenery = LiveScenery(x: int, y: int, id: int, removed: bool)
  datatype LiveState = LiveState(boundaries: seq<LiveBoundary>, scenery: seq<LiveScenery>)
}
