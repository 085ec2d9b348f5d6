/**
 * The entities of the simulation (src/App.js): cells, terrain, organisms,
 * and the square grids that hold cells and terrain; plus the food count of
 * a grid, which the rebuild and the spawn loop keep in step with a counter.
 */
module Ecosystem {

  /** CELL_TYPES: what a grid cell holds. `Occupied` is CELL_TYPES.ORGANISM. */
  datatype Cell = Empty | Food | Occupied

  /** TERRAIN_TYPES. */
  datatype Terrain = Land | Water

  /** A grid coordinate: `x` indexes the row, `y` the column (grid[x][y]). */
  datatype Pos = Pos(x: int, y: int)

  datatype Traits = Traits(speed: int, vision: int, colorHue: int, size: int, pattern: int)

  /** An organism record; `id` stands for the opaque `Date.now() + Math.random()` value. */
  datatype Organism = Organism(id: int, x: int, y: int, habitat: Terrain, energy: int, traits: Traits)

  type Grid = seq<seq<Cell>>
  type TerrainMap = seq<seq<Terrain>>

  const METABOLIC_COST: int := 1
  const ENERGY_FROM_FOOD: int := 10
  const INITIAL_ORGANISMS: nat := 10
  const TERRAIN_BLOCK_SIZE: nat := 5
  /** The per-tick budget of food spawn attempts. */
  const SPAWN_TRIES: nat := 100

  /** `g` is an n-by-n matrix. */
  ghost predicate IsSquare<T>(g: seq<seq<T>>, n: int) {
    |g| == n && forall r :: 0 <= r < n ==> |g[r]| == n
  }

  predicate InGrid(n: int, x: int, y: int) {
    0 <= x < n && 0 <= y < n
  }

  ghost predicate AllInGrid(orgs: seq<Organism>, n: int) {
    forall k :: 0 <= k < |orgs| ==> InGrid(n, orgs[k].x, orgs[k].y)
  }

  ghost predicate AllPosInGrid(ps: seq<Pos>, n: int) {
    forall k :: 0 <= k < |ps| ==> InGrid(n, ps[k].x, ps[k].y)
  }

  /** Number of FOOD cells in one row. */
  function RowFood(row: seq<Cell>): nat {
    if row == [] then 0 else RowFood(row[..|row| - 1]) + (if row[|row| - 1] == Food then 1 else 0)
  }

  /** Number of FOOD cells in a grid. */
  function GridFood(g: seq<seq<Cell>>): nat {
    if g == [] then 0 else GridFood(g[..|g| - 1]) + RowFood(g[|g| - 1])
  }

  /** Writing `v` over `row[c]` changes the row's food count by what left and what arrived. */
  lemma {:induction false} RowFoodUpdate(row: seq<Cell>, c: nat, v: Cell)
    requires c < |row|
    ensures RowFood(row[c := v]) + (if row[c] == Food then 1 else 0)
         == RowFood(row) + (if v == Food then 1 else 0)
  {
    var last := |row| - 1;
    if c < last {
      RowFoodUpdate(row[..last], c, v);
      assert row[c := v][..last] == row[..last][c := v];
    } else {
      assert row[c := v][..last] == row[..last];
    }
  }

  /** Writing `v` over cell (r, c) changes the grid's food count by what left and what arrived. */
  lemma {:induction false} GridFoodUpdate(g: seq<seq<Cell>>, r: nat, c: nat, v: Cell)
    requires r < |g| && c < |g[r]|
    ensures GridFood(g[r := g[r][c := v]]) + (if g[r][c] == Food then 1 else 0)
         == GridFood(g) + (if v == Food then 1 else 0)
  {
    var last := |g| - 1;
    var g' := g[r := g[r][c := v]];
    if r < last {
      GridFoodUpdate(g[..last], r, c, v);
      assert g'[..last] == g[..last][r := g[r][c := v]];
    } else {
      RowFoodUpdate(g[r], c, v);
      assert g'[..last] == g[..last];
    }
  }

  /** A row with no FOOD cell counts zero. */
  lemma {:induction false} RowFoodNone(row: seq<Cell>)
    requires forall c :: 0 <= c < |row| ==> row[c] != Food
    ensures RowFood(row) == 0
  {
    if row != [] {
      RowFoodNone(row[..|row| - 1]);
    }
  }

  /** A grid with no FOOD cell counts zero. */
  lemma {:induction false} GridFoodNone(g: seq<seq<Cell>>)
    requires forall r, c :: 0 <= r < |g| && 0 <= c < |g[r]| ==> g[r][c] != Food
    ensures GridFood(g) == 0
  {
    if g != [] {
      GridFoodNone(g[..|g| - 1]);
      RowFoodNone(g[|g| - 1]);
    }
  }
}
