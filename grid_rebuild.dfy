/**
 * Part 2 of a tick (src/App.js:240-279): the grid is rebuilt from scratch.
 * Surviving organisms are marked first, then food from the previous grid is
 * carried over unless it was eaten or is now under an organism, then new food
 * is spawned on EMPTY LAND cells until the food count reaches the spawn rate
 * or SPAWN_TRIES random draws have been spent. The draws are an input:
 * `draws[k]` is the cell drawn on try k.
 */
module GridRebuild {
  import opened Ecosystem

  /** `occupiedByOrganism`: the cells holding at least one organism. */
  function OccupiedSet(orgs: seq<Organism>): set<Pos> {
    set k | 0 <= k < |orgs| :: Pos(orgs[k].x, orgs[k].y)
  }

  /** A cell after organisms are placed on an all-EMPTY grid. */
  function PlacedCell(occ: set<Pos>, r: int, c: int): Cell {
    if Pos(r, c) in occ then Occupied else Empty
  }

  /** A cell after the carry-over of the previous grid's food. */
  function RebuiltCell(prev: Grid, occ: set<Pos>, eaten: set<Pos>, r: int, c: int): Cell
    requires 0 <= r < |prev| && 0 <= c < |prev[r]|
  {
    if Pos(r, c) !in occ && prev[r][c] == Food && Pos(r, c) !in eaten then Food else PlacedCell(occ, r, c)
  }

  function RebuiltGrid(prev: Grid, n: nat, occ: set<Pos>, eaten: set<Pos>): Grid
    requires IsSquare(prev, n)
  {
    seq(n, r requires 0 <= r < n => seq(n, c requires 0 <= c < n => RebuiltCell(prev, occ, eaten, r, c)))
  }

  /**
   * Grid rebuild: every cell holding a survivor is ORGANISM, a cell is FOOD
   * exactly when it was FOOD before, was not eaten and is not occupied, every
   * other cell is EMPTY, and the returned counter is the grid's food count.
   */
  method RebuildGrid(prevGrid: Grid, n: nat, survivors: seq<Organism>, eatenFood: set<Pos>)
    returns (newGrid: Grid, currentFoodCount: nat)
    requires IsSquare(prevGrid, n) && AllInGrid(survivors, n)
    ensures newGrid == RebuiltGrid(prevGrid, n, OccupiedSet(survivors), eatenFood)
    ensures IsSquare(newGrid, n)
    ensures forall k :: 0 <= k < |survivors| ==> newGrid[survivors[k].x][survivors[k].y] == Occupied
    ensures forall r, c :: 0 <= r < n && 0 <= c < n ==>
      && (newGrid[r][c] == Occupied <==> Pos(r, c) in OccupiedSet(survivors))
      && (newGrid[r][c] == Food <==>
            prevGrid[r][c] == Food && Pos(r, c) !in eatenFood && Pos(r, c) !in OccupiedSet(survivors))
    ensures currentFoodCount == GridFood(newGrid)
  {
    // 1. an all-EMPTY grid
    newGrid := seq(n, _ => seq(n, _ => Empty));

    // 2. organisms
    var occupiedByOrganism: set<Pos> := {};
    var k := 0;
    while k < |survivors|
      invariant 0 <= k <= |survivors|
      invariant IsSquare(newGrid, n)
      invariant occupiedByOrganism == OccupiedSet(survivors[..k])
      invariant forall r, c :: 0 <= r < n && 0 <= c < n ==> newGrid[r][c] == PlacedCell(occupiedByOrganism, r, c)
    {
      var org := survivors[k];
      newGrid := newGrid[org.x := newGrid[org.x][org.y := Occupied]];
      occupiedByOrganism := occupiedByOrganism + {Pos(org.x, org.y)};
      assert survivors[..k + 1] == survivors[..k] + [org];
      k := k + 1;
    }
    assert survivors[..k] == survivors;
    var occ := occupiedByOrganism;

    // 3. food carried over from the previous grid
    GridFoodNone(newGrid);
    currentFoodCount := 0;
    var r := 0;
    while r < n
      invariant 0 <= r <= n
      invariant IsSquare(newGrid, n)
      invariant currentFoodCount == GridFood(newGrid)
      invariant forall a, b :: 0 <= a < n && 0 <= b < n ==>
        newGrid[a][b] == if a < r then RebuiltCell(prevGrid, occ, eatenFood, a, b) else PlacedCell(occ, a, b)
    {
      var c := 0;
      while c < n
        invariant 0 <= c <= n
        invariant IsSquare(newGrid, n)
        invariant currentFoodCount == GridFood(newGrid)
        invariant forall a, b :: 0 <= a < n && 0 <= b < n ==>
          newGrid[a][b] == if a < r || (a == r && b < c) then RebuiltCell(prevGrid, occ, eatenFood, a, b)
                           else PlacedCell(occ, a, b)
      {
        var key := Pos(r, c);
        if prevGrid[r][c] == Food && key !in eatenFood && key !in occ {
          GridFoodUpdate(newGrid, r, c, Food);
          newGrid := newGrid[r := newGrid[r][c := Food]];
          currentFoodCount := currentFoodCount + 1;
        }
        c := c + 1;
      }
      r := r + 1;
    }

    ghost var spec := RebuiltGrid(prevGrid, n, occ, eatenFood);
    forall a | 0 <= a < n
      ensures newGrid[a] == spec[a]
    {
    }
    forall k | 0 <= k < |survivors|
      ensures newGrid[survivors[k].x][survivors[k].y] == Occupied
    {
      assert Pos(survivors[k].x, survivors[k].y) in occ;
    }
  }

  /**
   * The spawn loop from the state after `tries` draws: it stops when the
   * food count reaches `rate` or the budget is spent; a draw that lands on
   * an EMPTY LAND cell turns it into FOOD.
   */
  function Spawn(g: Grid, t: TerrainMap, n: nat, count: int, rate: int, draws: seq<Pos>, tries: nat): (Grid, int)
    requires IsSquare(g, n) && IsSquare(t, n)
    requires |draws| >= SPAWN_TRIES && AllPosInGrid(draws, n) && tries <= SPAWN_TRIES
    decreases SPAWN_TRIES - tries
  {
    if count < rate && tries < SPAWN_TRIES then
      var p := draws[tries];
      if g[p.x][p.y] == Empty && t[p.x][p.y] == Land then
        Spawn(g[p.x := g[p.x][p.y := Food]], t, n, count + 1, rate, draws, tries + 1)
      else
        Spawn(g, t, n, count, rate, draws, tries + 1)
    else
      (g, count)
  }

  /**
   * Food spawn: the only cells that change are EMPTY LAND cells turned into
   * FOOD, so organisms are never overwritten; the counter stays equal to the
   * grid's food count; it never drops, ends at most at max(count, rate), and
   * grows by at most the remaining number of tries. It falls short of the
   * rate only when the budget ran out: then every remaining draw landed on a
   * cell that is not EMPTY LAND, so every EMPTY LAND draw became FOOD.
   */
  lemma {:induction false} SpawnSpec(g: Grid, t: TerrainMap, n: nat, count: int, rate: int, draws: seq<Pos>, tries: nat)
    requires IsSquare(g, n) && IsSquare(t, n)
    requires |draws| >= SPAWN_TRIES && AllPosInGrid(draws, n) && tries <= SPAWN_TRIES
    requires count == GridFood(g)
    ensures var (g', count') := Spawn(g, t, n, count, rate, draws, tries);
      && IsSquare(g', n)
      && count' == GridFood(g')
      && count <= count' <= (if count < rate then rate else count)
      && count' <= count + (SPAWN_TRIES - tries)
      && (forall r, c :: 0 <= r < n && 0 <= c < n ==>
            g'[r][c] == g[r][c] || (g[r][c] == Empty && t[r][c] == Land && g'[r][c] == Food))
      && (count' < rate ==> forall k :: tries <= k < SPAWN_TRIES ==>
            g'[draws[k].x][draws[k].y] != Empty || t[draws[k].x][draws[k].y] != Land)
    decreases SPAWN_TRIES - tries
  {
    if count < rate && tries < SPAWN_TRIES {
      var p := draws[tries];
      if g[p.x][p.y] == Empty && t[p.x][p.y] == Land {
        var g1 := g[p.x := g[p.x][p.y := Food]];
        GridFoodUpdate(g, p.x, p.y, Food);
        SpawnSpec(g1, t, n, count + 1, rate, draws, tries + 1);
      } else {
        SpawnSpec(g, t, n, count, rate, draws, tries + 1);
      }
    }
  }

  /** The `while (currentFoodCount < foodSpawnRate && tries < 100)` loop. */
  method SpawnFood(g: Grid, t: TerrainMap, n: nat, count: int, foodSpawnRate: int, draws: seq<Pos>)
    returns (newGrid: Grid, currentFoodCount: int)
    requires IsSquare(g, n) && IsSquare(t, n)
    requires |draws| >= SPAWN_TRIES && AllPosInGrid(draws, n)
    requires count == GridFood(g)
    ensures (newGrid, currentFoodCount) == Spawn(g, t, n, count, foodSpawnRate, draws, 0)
    ensures IsSquare(newGrid, n) && currentFoodCount == GridFood(newGrid)
    ensures count <= currentFoodCount <= (if count < foodSpawnRate then foodSpawnRate else count)
    ensures forall r, c :: 0 <= r < n && 0 <= c < n ==>
      newGrid[r][c] == g[r][c] || (g[r][c] == Empty && t[r][c] == Land && newGrid[r][c] == Food)
    ensures currentFoodCount < foodSpawnRate ==> forall k :: 0 <= k < SPAWN_TRIES ==>
      newGrid[draws[k].x][draws[k].y] != Empty || t[draws[k].x][draws[k].y] != Land
  {
    newGrid, currentFoodCount := g, count;
    var tries := 0;
    while currentFoodCount < foodSpawnRate && tries < SPAWN_TRIES
      invariant 0 <= tries <= SPAWN_TRIES
      invariant IsSquare(newGrid, n)
      invariant Spawn(newGrid, t, n, currentFoodCount, foodSpawnRate, draws, tries)
             == Spawn(g, t, n, count, foodSpawnRate, draws, 0)
    {
      var f := draws[tries];
      if newGrid[f.x][f.y] == Empty && t[f.x][f.y] == Land {
        newGrid := newGrid[f.x := newGrid[f.x][f.y := Food]];
        currentFoodCount := currentFoodCount + 1;
      }
      tries := tries + 1;
    }
    SpawnSpec(g, t, n, count, foodSpawnRate, draws, 0);
  }
}
