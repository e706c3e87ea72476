/** The collision grid around the player. */
module Grids {
  import opened Flags
  import opened Walks

  class Grid {
    const mask: array2<bv8>
    var baseX: int
    var baseY: int
    var playerX: int
    var playerY: int

    ghost predicate Valid() {
      mask.Length0 == GRID_SIZE && mask.Length1 == GRID_SIZE
    }

    /** `m` is the current contents of the mask. */
    ghost predicate Shows(m: Mask)
      requires Valid()
      reads mask
    {
      forall x, y :: 0 <= x < GRID_SIZE && 0 <= y < GRID_SIZE ==> m[x][y] == mask[x, y]
    }

    /** A snapshot of the whole mask. */
    ghost function View(): (m: Mask)
      requires Valid()
      reads mask
      ensures Shows(m)
    {
      seq(GRID_SIZE, x requires 0 <= x < GRID_SIZE reads mask =>
        seq(GRID_SIZE, y requires 0 <= y < GRID_SIZE reads mask => mask[x, y]))
    }

    lemma ShownIsView(m: Mask)
      requires Valid() && Shows(m)
      ensures View() == m
    {
      forall x | 0 <= x < GRID_SIZE ensures View()[x] == m[x] {
      }
    }

    /** The tile lies in the grid and has none of `bits`. */
    predicate Admits(x: int, y: int, bits: bv8)
      requires Valid()
      reads mask
    {
      0 <= x < GRID_SIZE && 0 <= y < GRID_SIZE && mask[x, y] & bits == 0
    }

    /** A grid with every tile at zero. */
    constructor (baseX: int, baseY: int, playerX: int, playerY: int)
      ensures Valid() && fresh(mask)
      ensures forall x, y :: 0 <= x < GRID_SIZE && 0 <= y < GRID_SIZE ==> mask[x, y] == 0
      ensures this.baseX == baseX && this.baseY == baseY && this.playerX == playerX && this.playerY == playerY
    {
      mask := new bv8[GRID_SIZE, GRID_SIZE]((x, y) => 0);
      this.baseX, this.baseY := baseX, baseY;
      this.playerX, this.playerY := playerX, playerY;
    }

    /** The local tile of a world position, and whether it lies in the grid. */
    function World2Local(worldX: int, worldY: int): (r: (Cell, bool))
      reads this
      ensures r.1 <==> InGrid(r.0)
      ensures Local2World(r.0) == (worldX, worldY)
    {
      var c := Cell(worldX - baseX, worldY - baseY);
      (c, c.x >= 0 && c.x < GRID_SIZE && c.y >= 0 && c.y < GRID_SIZE)
    }

    function Local2World(c: Cell): (int, int)
      reads this
    {
      (baseX + c.x, baseY + c.y)
    }
  }
}
