/** The collision bits of one tile and the directions of a move. */
module Flags {

  /** Side length of the local grid: four 48-tile sectors. */
  const GRID_SIZE := 96

  const WALL_NORTH: bv8 := 1
  const WALL_EAST: bv8 := 2
  const WALL_SOUTH: bv8 := 4
  const WALL_WEST: bv8 := 8
  const FULL_BLOCK_A: bv8 := 16
  const FULL_BLOCK_B: bv8 := 32
  const FULL_BLOCK_C: bv8 := 64
  const FULL_BLOCK: bv8 := 112

  const WEST_BLOCKED: bv8 := 120
  const SOUTH_BLOCKED: bv8 := 116
  const NORTH_BLOCKED: bv8 := 113
  const EAST_BLOCKED: bv8 := 114
  const SOUTH_EAST_BLOCKED: bv8 := 118
  const SOUTH_WEST_BLOCKED: bv8 := 124
  const NORTH_EAST_BLOCKED: bv8 := 115
  const NORTH_WEST_BLOCKED: bv8 := 121

  /** Parent-direction codes written by the search, and the marker of its first tile. */
  const SOURCE_SOUTH := 1
  const SOURCE_WEST := 2
  const SOURCE_NORTH := 4
  const SOURCE_EAST := 8
  const SOURCE_NORTH_EAST := 12
  const SOURCE_NORTH_WEST := 6
  const SOURCE_SOUTH_EAST := 9
  const SOURCE_SOUTH_WEST := 3
  const VISITED_START := 99

  /** The combined constants are the disjunctions their names announce. */
  lemma BlockedMasks()
    ensures FULL_BLOCK == FULL_BLOCK_A | FULL_BLOCK_B | FULL_BLOCK_C
    ensures WEST_BLOCKED == FULL_BLOCK | WALL_WEST
    ensures SOUTH_BLOCKED == FULL_BLOCK | WALL_SOUTH
    ensures NORTH_BLOCKED == FULL_BLOCK | WALL_NORTH
    ensures EAST_BLOCKED == FULL_BLOCK | WALL_EAST
    ensures SOUTH_EAST_BLOCKED == FULL_BLOCK | WALL_SOUTH | WALL_EAST
    ensures SOUTH_WEST_BLOCKED == FULL_BLOCK | WALL_SOUTH | WALL_WEST
    ensures NORTH_EAST_BLOCKED == FULL_BLOCK | WALL_NORTH | WALL_EAST
    ensures NORTH_WEST_BLOCKED == FULL_BLOCK | WALL_NORTH | WALL_WEST
  {
  }

  predicate Clear(tile: bv8, bits: bv8) {
    tile & bits == 0
  }

  /** A combined test passes exactly when each of its parts does. */
  lemma ClearSplits(tile: bv8)
    ensures Clear(tile, WEST_BLOCKED) <==> Clear(tile, FULL_BLOCK) && Clear(tile, WALL_WEST)
    ensures Clear(tile, SOUTH_BLOCKED) <==> Clear(tile, FULL_BLOCK) && Clear(tile, WALL_SOUTH)
    ensures Clear(tile, NORTH_BLOCKED) <==> Clear(tile, FULL_BLOCK) && Clear(tile, WALL_NORTH)
    ensures Clear(tile, EAST_BLOCKED) <==> Clear(tile, FULL_BLOCK) && Clear(tile, WALL_EAST)
    ensures Clear(tile, SOUTH_EAST_BLOCKED) <==> Clear(tile, SOUTH_BLOCKED) && Clear(tile, WALL_EAST)
    ensures Clear(tile, SOUTH_WEST_BLOCKED) <==> Clear(tile, SOUTH_BLOCKED) && Clear(tile, WALL_WEST)
    ensures Clear(tile, NORTH_EAST_BLOCKED) <==> Clear(tile, NORTH_BLOCKED) && Clear(tile, WALL_EAST)
    ensures Clear(tile, NORTH_WEST_BLOCKED) <==> Clear(tile, NORTH_BLOCKED) && Clear(tile, WALL_WEST)
  {
  }
}
