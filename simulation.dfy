/**
 * One tick of `advanceSimulation` (src/App.js:169-290) as a transition from
 * world to world, the world's construction (src/App.js:53-131), and what
 * follows from running ticks one after another. The terrain map is part of
 * the world and is never written after construction. The spawn draws of a
 * tick are an input, one cell per try.
 */
module Simulation {
  import opened Wrappers
  import opened Ecosystem
  import opened Targeting
  import opened OrganismStep
  import opened GridRebuild
  import opened SimStats
  import opened TerrainGen
  import opened Placement

  datatype World = World(grid: Grid, terrain: TerrainMap, organisms: seq<Organism>, stats: Stats)

  ghost predicate ValidWorld(w: World, n: nat) {
    Arena(w.grid, w.terrain, n) && AllInGrid(w.organisms, n)
  }

  ghost predicate ValidDraws(draws: seq<Pos>, n: nat) {
    |draws| >= SPAWN_TRIES && AllPosInGrid(draws, n)
  }

  ghost predicate AllValidDraws(drawsList: seq<seq<Pos>>, n: nat) {
    forall k :: 0 <= k < |drawsList| ==> ValidDraws(drawsList[k], n)
  }

  /** Every organism stands on an ORGANISM cell of the world's grid. */
  ghost predicate Settled(w: World, n: nat)
    requires ValidWorld(w, n)
  {
    forall k :: 0 <= k < |w.organisms| ==> w.grid[w.organisms[k].x][w.organisms[k].y] == Occupied
  }

  lemma RebuiltGridSquare(prev: Grid, n: nat, occ: set<Pos>, eaten: set<Pos>)
    requires IsSquare(prev, n)
    ensures IsSquare(RebuiltGrid(prev, n, occ, eaten), n)
  {
  }

  /** The grid after organisms and carried-over food are placed, before spawning. */
  function Rebuilt(w: World, n: nat): Grid
    requires ValidWorld(w, n)
  {
    var survivors := Survivors(w.organisms, w.grid, w.terrain, n);
    RebuiltGrid(w.grid, n, OccupiedSet(survivors), EatenSet(w.organisms, w.grid, n))
  }

  /** One tick; it keeps the world well-formed and leaves the terrain untouched. */
  function Tick(w: World, n: nat, foodSpawnRate: int, draws: seq<Pos>): (w': World)
    requires ValidWorld(w, n) && ValidDraws(draws, n)
    ensures ValidWorld(w', n) && w'.terrain == w.terrain
  {
    SurvivorsInGrid(w.organisms, w.grid, w.terrain, n);
    var survivors := Survivors(w.organisms, w.grid, w.terrain, n);
    var rebuilt := Rebuilt(w, n);
    RebuiltGridSquare(w.grid, n, OccupiedSet(survivors), EatenSet(w.organisms, w.grid, n));
    SpawnSpec(rebuilt, w.terrain, n, GridFood(rebuilt), foodSpawnRate, draws, 0);
    var spawned := Spawn(rebuilt, w.terrain, n, GridFood(rebuilt), foodSpawnRate, draws, 0);
    World(spawned.0, w.terrain, survivors, UpdateStats(w.stats, survivors))
  }

  /** `advanceSimulation`: update the organisms, rebuild the grid, spawn food, update the stats. */
  method AdvanceSimulation(w: World, n: nat, foodSpawnRate: int, draws: seq<Pos>) returns (w': World)
    requires ValidWorld(w, n) && ValidDraws(draws, n)
    ensures w' == Tick(w, n, foodSpawnRate, draws)
  {
    var livingOrganismsNext, eatenFood := UpdateOrganisms(w.organisms, w.grid, w.terrain, n);
    var newGrid, currentFoodCount := RebuildGrid(w.grid, n, livingOrganismsNext, eatenFood);
    var spawnedGrid, foodCount := SpawnFood(newGrid, w.terrain, n, currentFoodCount, foodSpawnRate, draws);
    w' := World(spawnedGrid, w.terrain, livingOrganismsNext, UpdateStats(w.stats, livingOrganismsNext));
  }

  /**
   * What one tick produces: every survivor's cell is ORGANISM (so the tick
   * leaves the world settled); a FOOD cell is either food carried over
   * (FOOD before, not eaten, not occupied now) or an EMPTY LAND cell of the
   * rebuilt grid that the spawn filled; the food count lies between the
   * carried-over count and max(carried-over, foodSpawnRate), and falls short
   * of the rate only if none of the 100 draws is left on an EMPTY LAND cell;
   * and the stats
   * count the survivors and their energy, advance `step` and carry
   * `totalPopulation`, `foodCount` and `speciesCount` unchanged.
   */
  lemma TickSpec(w: World, n: nat, foodSpawnRate: int, draws: seq<Pos>)
    requires ValidWorld(w, n) && ValidDraws(draws, n)
    ensures var w' := Tick(w, n, foodSpawnRate, draws);
      var occ := OccupiedSet(w'.organisms);
      var eaten := EatenSet(w.organisms, w.grid, n);
      var carried := GridFood(Rebuilt(w, n));
      && w'.organisms == Survivors(w.organisms, w.grid, w.terrain, n)
      && Settled(w', n)
      && (forall r, c :: 0 <= r < n && 0 <= c < n && w'.grid[r][c] == Food ==>
            || (w.grid[r][c] == Food && Pos(r, c) !in eaten && Pos(r, c) !in occ)
            || (Pos(r, c) !in occ && w.terrain[r][c] == Land))
      && (forall r, c :: 0 <= r < n && 0 <= c < n ==>
            (w.grid[r][c] == Food && Pos(r, c) !in eaten && Pos(r, c) !in occ ==> w'.grid[r][c] == Food))
      && carried <= GridFood(w'.grid) <= (if carried < foodSpawnRate then foodSpawnRate else carried)
      && (GridFood(w'.grid) < foodSpawnRate ==> forall k :: 0 <= k < SPAWN_TRIES ==>
            w'.grid[draws[k].x][draws[k].y] != Empty || w.terrain[draws[k].x][draws[k].y] != Land)
      && w'.stats.organismCount == Some(|w'.organisms|)
      && w'.stats.totalEnergy == Some(TotalEnergy(w'.organisms))
      && w'.stats.step == PlusOne(w.stats.step)
      && w'.stats.totalPopulation == w.stats.totalPopulation
      && w'.stats.foodCount == w.stats.foodCount
      && w'.stats.speciesCount == w.stats.speciesCount
  {
    var w' := Tick(w, n, foodSpawnRate, draws);
    var survivors := w'.organisms;
    var occ := OccupiedSet(survivors);
    var eaten := EatenSet(w.organisms, w.grid, n);
    var rebuilt := Rebuilt(w, n);
    RebuiltGridSquare(w.grid, n, occ, eaten);
    SurvivorsInGrid(w.organisms, w.grid, w.terrain, n);
    SpawnSpec(rebuilt, w.terrain, n, GridFood(rebuilt), foodSpawnRate, draws, 0);
    forall k | 0 <= k < |survivors|
      ensures w'.grid[survivors[k].x][survivors[k].y] == Occupied
    {
      assert Pos(survivors[k].x, survivors[k].y) in occ;
      assert rebuilt[survivors[k].x][survivors[k].y] == Occupied;
    }
  }

  /**
   * In a settled world nobody eats: no cell is recorded as eaten, and each
   * survivor has exactly its energy minus the metabolic cost.
   */
  lemma SettledNoFeeding(w: World, n: nat)
    requires ValidWorld(w, n) && Settled(w, n)
    ensures EatenSet(w.organisms, w.grid, n) == {}
    ensures forall k :: 0 <= k < |w.organisms| && UpdateOrganism(w.organisms[k], w.grid, w.terrain, n).Some? ==>
      UpdateOrganism(w.organisms[k], w.grid, w.terrain, n).value.energy == w.organisms[k].energy - METABOLIC_COST
  {
    forall k | 0 <= k < |w.organisms|
      ensures !Eats(w.organisms[k], w.grid, n)
      ensures UpdateOrganism(w.organisms[k], w.grid, w.terrain, n).Some? ==>
        UpdateOrganism(w.organisms[k], w.grid, w.terrain, n).value.energy == w.organisms[k].energy - METABOLIC_COST
    {
      UpdateOrganismSpec(w.organisms[k], w.grid, w.terrain, n);
    }
  }

  /**
   * The feeding branch fires only against a grid no tick produced: in the
   * world after any tick, no organism eats on the next one.
   */
  lemma NoFeedingAfterTick(w: World, n: nat, foodSpawnRate: int, draws: seq<Pos>)
    requires ValidWorld(w, n) && ValidDraws(draws, n)
    ensures var w' := Tick(w, n, foodSpawnRate, draws);
      EatenSet(w'.organisms, w'.grid, n) == {}
  {
    TickSpec(w, n, foodSpawnRate, draws);
    SettledNoFeeding(Tick(w, n, foodSpawnRate, draws), n);
  }

  /** Every organism has energy in (0, e]. */
  ghost predicate EnergiesWithin(orgs: seq<Organism>, e: int) {
    orgs == [] || (0 < orgs[|orgs| - 1].energy <= e && EnergiesWithin(orgs[..|orgs| - 1], e))
  }

  lemma {:induction false} EnergiesWithinAll(orgs: seq<Organism>, e: int)
    requires EnergiesWithin(orgs, e)
    ensures forall k :: 0 <= k < |orgs| ==> 0 < orgs[k].energy <= e
  {
    if orgs != [] {
      EnergiesWithinAll(orgs[..|orgs| - 1], e);
    }
  }

  /** A tick leaves the world settled, holding exactly the survivors. */
  lemma TickSettles(w: World, n: nat, foodSpawnRate: int, draws: seq<Pos>)
    requires ValidWorld(w, n) && ValidDraws(draws, n)
    ensures Tick(w, n, foodSpawnRate, draws).organisms == Survivors(w.organisms, w.grid, w.terrain, n)
    ensures Settled(Tick(w, n, foodSpawnRate, draws), n)
  {
    TickSpec(w, n, foodSpawnRate, draws);
  }

  /**
   * Survivors of organisms with energy at most `e` have energy in
   * (0, e - 1 + ENERGY_FROM_FOOD], and in (0, e - 1] when none stands on FOOD.
   */
  lemma {:induction false} SurvivorsEnergyBound(orgs: seq<Organism>, g: Grid, t: TerrainMap, n: nat, e: int)
    requires Arena(g, t, n) && AllInGrid(orgs, n)
    requires forall k :: 0 <= k < |orgs| ==> orgs[k].energy <= e
    ensures EnergiesWithin(Survivors(orgs, g, t, n), e - METABOLIC_COST + ENERGY_FROM_FOOD)
    ensures (forall k :: 0 <= k < |orgs| ==> g[orgs[k].x][orgs[k].y] != Food) ==>
      EnergiesWithin(Survivors(orgs, g, t, n), e - METABOLIC_COST)
  {
    if orgs != [] {
      var m := |orgs| - 1;
      SurvivorsEnergyBound(orgs[..m], g, t, n, e);
      UpdateOrganismSpec(orgs[m], g, t, n);
      var rest := Survivors(orgs[..m], g, t, n);
      if UpdateOrganism(orgs[m], g, t, n).Some? {
        assert (rest + [UpdateOrganism(orgs[m], g, t, n).value])[..|rest|] == rest;
      }
    }
  }

  /** Ticks run one after another, tick k drawing its spawn cells from `drawsList[k]` with the food spawn rate `rates[k]` (the rate slider may change between ticks). */
  function RunTicks(w: World, n: nat, rates: seq<int>, drawsList: seq<seq<Pos>>): World
    requires ValidWorld(w, n) && AllValidDraws(drawsList, n) && |rates| == |drawsList|
    decreases |drawsList|
  {
    if drawsList == [] then w
    else RunTicks(Tick(w, n, rates[0], drawsList[0]), n, rates[1..], drawsList[1..])
  }

  /** Terrain immutability: after any number of ticks the terrain map is the initial one. */
  lemma {:induction false} RunTicksKeepsTerrain(w: World, n: nat, rates: seq<int>, drawsList: seq<seq<Pos>>)
    requires ValidWorld(w, n) && AllValidDraws(drawsList, n) && |rates| == |drawsList|
    ensures RunTicks(w, n, rates, drawsList).terrain == w.terrain
    ensures ValidWorld(RunTicks(w, n, rates, drawsList), n)
    decreases |drawsList|
  {
    if drawsList != [] {
      RunTicksKeepsTerrain(Tick(w, n, rates[0], drawsList[0]), n, rates[1..], drawsList[1..]);
    }
  }

  /** One tick from a settled world: it stays settled and every energy bound drops by the metabolic cost. */
  lemma SettledTick(w: World, n: nat, foodSpawnRate: int, draws: seq<Pos>, e: int)
    requires ValidWorld(w, n) && ValidDraws(draws, n) && Settled(w, n)
    requires EnergiesWithin(w.organisms, e)
    ensures Settled(Tick(w, n, foodSpawnRate, draws), n)
    ensures EnergiesWithin(Tick(w, n, foodSpawnRate, draws).organisms, e - METABOLIC_COST)
  {
    TickSettles(w, n, foodSpawnRate, draws);
    EnergiesWithinAll(w.organisms, e);
    SurvivorsEnergyBound(w.organisms, w.grid, w.terrain, n, e);
  }

  /** From a settled world whose energies are at most `e`, every organism is dead after `e` ticks. */
  lemma {:induction false} SettledExtinction(w: World, n: nat, rates: seq<int>, drawsList: seq<seq<Pos>>, e: nat)
    requires ValidWorld(w, n) && AllValidDraws(drawsList, n) && |rates| == |drawsList| && Settled(w, n)
    requires EnergiesWithin(w.organisms, e)
    requires |drawsList| >= e
    ensures RunTicks(w, n, rates, drawsList).organisms == []
    decreases |drawsList|
  {
    if drawsList != [] {
      SettledTick(w, n, rates[0], drawsList[0], e);
      var w1 := Tick(w, n, rates[0], drawsList[0]);
      if e == 0 {
        assert w1.organisms == [];
      }
      SettledExtinction(w1, n, rates[1..], drawsList[1..], if e > 0 then e - 1 else 0);
    }
  }

  /**
   * Because nobody eats after the first tick, a population whose energies
   * are at most `e` is extinct after `e + ENERGY_FROM_FOOD` ticks, whatever
   * the grid, terrain and draws.
   */
  lemma ExtinctionWithin(w: World, n: nat, rates: seq<int>, drawsList: seq<seq<Pos>>, e: nat)
    requires ValidWorld(w, n) && AllValidDraws(drawsList, n) && |rates| == |drawsList|
    requires forall k :: 0 <= k < |w.organisms| ==> w.organisms[k].energy <= e
    requires |drawsList| >= e + ENERGY_FROM_FOOD
    ensures RunTicks(w, n, rates, drawsList).organisms == []
  {
    TickSettles(w, n, rates[0], drawsList[0]);
    SurvivorsEnergyBound(w.organisms, w.grid, w.terrain, n, e);
    SettledExtinction(Tick(w, n, rates[0], drawsList[0]), n, rates[1..], drawsList[1..],
                      e - METABOLIC_COST + ENERGY_FROM_FOOD);
  }

  /** The step counter after a run, from a numeric start: it counts the ticks. */
  lemma {:induction false} StepCountsTicks(w: World, n: nat, rates: seq<int>, drawsList: seq<seq<Pos>>, s: int)
    requires ValidWorld(w, n) && AllValidDraws(drawsList, n) && |rates| == |drawsList|
    requires w.stats.step == Num(s)
    ensures RunTicks(w, n, rates, drawsList).stats.step == Num(s + |drawsList|)
    decreases |drawsList|
  {
    if drawsList != [] {
      StepCountsTicks(Tick(w, n, rates[0], drawsList[0]), n, rates[1..], drawsList[1..], s + 1);
    }
  }

  /** From a record with no step field, the step is NaN after every run of one tick or more. */
  lemma {:induction false} StepStaysNaN(w: World, n: nat, rates: seq<int>, drawsList: seq<seq<Pos>>)
    requires ValidWorld(w, n) && AllValidDraws(drawsList, n) && |rates| == |drawsList|
    requires w.stats.step == Undefined || w.stats.step == NaN
    requires |drawsList| >= 1
    ensures RunTicks(w, n, rates, drawsList).stats.step == NaN
    decreases |drawsList|
  {
    if |drawsList| > 1 {
      StepStaysNaN(Tick(w, n, rates[0], drawsList[0]), n, rates[1..], drawsList[1..]);
    }
  }

  /** The starting grid (src/App.js:53-60): `foodSpawnRate` random cells set to FOOD, repeats allowed. */
  method SeedFood(n: nat, foodSpawnRate: int, draws: seq<Pos>) returns (g: Grid)
    requires AllPosInGrid(draws, n) && |draws| >= foodSpawnRate
    ensures IsSquare(g, n)
    ensures forall r, c :: 0 <= r < n && 0 <= c < n ==>
      && g[r][c] != Occupied
      && (g[r][c] == Food <==> exists i :: 0 <= i < foodSpawnRate && draws[i] == Pos(r, c))
    ensures GridFood(g) <= if foodSpawnRate < 0 then 0 else foodSpawnRate
  {
    g := seq(n, _ => seq(n, _ => Empty));
    GridFoodNone(g);
    var i := 0;
    while i < foodSpawnRate
      invariant 0 <= i <= if foodSpawnRate < 0 then 0 else foodSpawnRate
      invariant IsSquare(g, n)
      invariant GridFood(g) <= i
      invariant forall r, c :: 0 <= r < n && 0 <= c < n ==>
        && g[r][c] != Occupied
        && (g[r][c] == Food <==> exists k :: 0 <= k < i && draws[k] == Pos(r, c))
    {
      var p := draws[i];
      GridFoodUpdate(g, p.x, p.y, Food);
      g := g[p.x := g[p.x][p.y := Food]];
      i := i + 1;
    }
  }

  /**
   * The world at start-up, built in the source's order: grid, terrain,
   * organisms, stats. The stats record is the one written at
   * src/App.js:127-131, which has no `step` field.
   */
  method InitializeWorld(
    n: nat, foodSpawnRate: int,
    foodDraws: seq<Pos>, terrainDraws: seq<seq<real>>,
    placementDraws: seq<seq<Pos>>, ids: seq<int>, hueDraws: seq<real>)
    returns (w: World)
    requires n >= 1
    requires AllPosInGrid(foodDraws, n) && |foodDraws| >= foodSpawnRate
    requires IsSquare(terrainDraws, NumBlocks(n))
    requires |placementDraws| == |ids| == |hueDraws| == INITIAL_ORGANISMS
    requires forall k :: 0 <= k < |placementDraws| ==> |placementDraws[k]| == n * n + 1 && AllPosInGrid(placementDraws[k], n)
    requires forall k :: 0 <= k < |hueDraws| ==> 0.0 <= hueDraws[k] < 1.0
    ensures ValidWorld(w, n)
    ensures forall r, c :: 0 <= r < n && 0 <= c < n ==>
      && w.grid[r][c] != Occupied
      && (w.grid[r][c] == Food <==> exists i :: 0 <= i < foodSpawnRate && foodDraws[i] == Pos(r, c))
      && w.terrain[r][c] == BlockTerrain(terrainDraws[r / TERRAIN_BLOCK_SIZE][c / TERRAIN_BLOCK_SIZE])
    ensures |w.organisms| == INITIAL_ORGANISMS
    ensures forall k :: 0 <= k < |w.organisms| ==>
      && Pos(w.organisms[k].x, w.organisms[k].y) == PlacementSpot(w.terrain, n, placementDraws[k], Land, 0)
      && w.organisms[k].id == ids[k] && w.organisms[k].habitat == Land && w.organisms[k].energy == 20
      && w.organisms[k].traits == Traits(1, 2, HueOf(hueDraws[k]), 1, 0)
    ensures w.stats == InitialStatsAsWritten(foodSpawnRate) && w.stats.step == Undefined
  {
    var grid := SeedFood(n, foodSpawnRate, foodDraws);
    var terrain := GenerateTerrain(n, terrainDraws);
    var organisms := PlaceInitialOrganisms(terrain, n, placementDraws, ids, hueDraws);
    w := World(grid, terrain, organisms, InitialStatsAsWritten(foodSpawnRate));
  }

  /**
   * The start-up world with the step counter the stats update expects: the
   * same grid, terrain and organisms, and `step` starting at 0, so that
   * StepCountsTicks applies to every run from it.
   */
  method InitializeWorldCorrected(
    n: nat, foodSpawnRate: int,
    foodDraws: seq<Pos>, terrainDraws: seq<seq<real>>,
    placementDraws: seq<seq<Pos>>, ids: seq<int>, hueDraws: seq<real>)
    returns (w: World)
    requires n >= 1
    requires AllPosInGrid(foodDraws, n) && |foodDraws| >= foodSpawnRate
    requires IsSquare(terrainDraws, NumBlocks(n))
    requires |placementDraws| == |ids| == |hueDraws| == INITIAL_ORGANISMS
    requires forall k :: 0 <= k < |placementDraws| ==> |placementDraws[k]| == n * n + 1 && AllPosInGrid(placementDraws[k], n)
    requires forall k :: 0 <= k < |hueDraws| ==> 0.0 <= hueDraws[k] < 1.0
    ensures ValidWorld(w, n)
    ensures forall r, c :: 0 <= r < n && 0 <= c < n ==>
      && w.grid[r][c] != Occupied
      && (w.grid[r][c] == Food <==> exists i :: 0 <= i < foodSpawnRate && foodDraws[i] == Pos(r, c))
      && w.terrain[r][c] == BlockTerrain(terrainDraws[r / TERRAIN_BLOCK_SIZE][c / TERRAIN_BLOCK_SIZE])
    ensures |w.organisms| == INITIAL_ORGANISMS
    ensures forall k :: 0 <= k < |w.organisms| ==>
      && Pos(w.organisms[k].x, w.organisms[k].y) == PlacementSpot(w.terrain, n, placementDraws[k], Land, 0)
      && w.organisms[k].id == ids[k] && w.organisms[k].habitat == Land && w.organisms[k].energy == 20
      && w.organisms[k].traits == Traits(1, 2, HueOf(hueDraws[k]), 1, 0)
    ensures w.stats == InitialStats(foodSpawnRate) && w.stats.step == Num(0)
  {
    w := InitializeWorld(n, foodSpawnRate, foodDraws, terrainDraws, placementDraws, ids, hueDraws);
    w := w.(stats := InitialStats(foodSpawnRate));
  }

  /**
   * What reading a cell of the grid gives in JavaScript (`grid[r][c]` in the
   * food-marker loop of every render, `grid[i][j]` in the nearest-food scan,
   * `prevGrid[r][c]` in the carry-over loop; all three read the same
   * snapshot here): the cell, `undefined` for a column past the end
   * of an existing row, and a TypeError for a row past the end (reading an
   * index of `undefined`).
   */
  datatype CellRead = Throws | Missing | Value(cell: Cell)

  function ReadCell(prevGrid: Grid, r: nat, c: nat): (v: CellRead)
    ensures v.Throws? <==> r >= |prevGrid|
    ensures v.Value? ==> r < |prevGrid| && c < |prevGrid[r]| && v.cell == prevGrid[r][c]
  {
    if r >= |prevGrid| then Throws
    else if c >= |prevGrid[r]| then Missing
    else Value(prevGrid[r][c])
  }

  /**
   * A loop over every cell `grid[r][c]` with `r, c < m` throws on some cell:
   * the food-marker loop that every render runs (src/App.js:151-153) and the
   * carry-over loop of a tick (src/App.js:255-258) both have this shape.
   */
  ghost predicate FullGridReadThrows(prevGrid: Grid, m: nat) {
    exists r, c :: 0 <= r < m && 0 <= c < m && ReadCell(prevGrid, r, c).Throws?
  }

  /**
   * As written, the grid, terrain and organisms are built once, at the
   * initial size, and the size slider only changes `gridSize`. After the
   * size grows from n to m, reading row n of the n-by-n grid throws. The
   * first such read is `grid[n][0]` in the food-marker loop of the re-render
   * that the size change triggers (src/App.js:151-153), so that render
   * fails and no tick at the new size ever runs. A tick, if one ran, would
   * throw at the same read in its nearest-food scan (src/App.js:190-192) or
   * in its carry-over loop (src/App.js:255-258).
   */
  lemma GrownGridSizeThrows(prevGrid: Grid, n: nat, m: nat)
    requires IsSquare(prevGrid, n) && n < m
    ensures ReadCell(prevGrid, n, 0).Throws?
    ensures FullGridReadThrows(prevGrid, m)
  {
    assert 0 <= n < m && 0 <= 0 < m && ReadCell(prevGrid, n, 0).Throws?;
  }

  /**
   * The evidently intended behaviour of a size change: the world is rebuilt
   * at the new size m. The result is a valid world of size m, so every
   * render and every tick at that size reads only cells that exist.
   */
  method ResizeWorld(
    m: nat, foodSpawnRate: int,
    foodDraws: seq<Pos>, terrainDraws: seq<seq<real>>,
    placementDraws: seq<seq<Pos>>, ids: seq<int>, hueDraws: seq<real>)
    returns (w: World)
    requires m >= 1
    requires AllPosInGrid(foodDraws, m) && |foodDraws| >= foodSpawnRate
    requires IsSquare(terrainDraws, NumBlocks(m))
    requires |placementDraws| == |ids| == |hueDraws| == INITIAL_ORGANISMS
    requires forall k :: 0 <= k < |placementDraws| ==> |placementDraws[k]| == m * m + 1 && AllPosInGrid(placementDraws[k], m)
    requires forall k :: 0 <= k < |hueDraws| ==> 0.0 <= hueDraws[k] < 1.0
    ensures ValidWorld(w, m)
    ensures !FullGridReadThrows(w.grid, m)
    ensures forall r, c :: 0 <= r < m && 0 <= c < m ==> ReadCell(w.grid, r, c) == Value(w.grid[r][c])
    ensures |w.organisms| == INITIAL_ORGANISMS && w.stats.step == Num(0)
  {
    w := InitializeWorldCorrected(m, foodSpawnRate, foodDraws, terrainDraws, placementDraws, ids, hueDraws);
  }

  /** Every run from the initial population (energy 20) is extinct after 30 ticks. */
  lemma InitialPopulationDiesOut(w: World, n: nat, rates: seq<int>, drawsList: seq<seq<Pos>>)
    requires ValidWorld(w, n) && AllValidDraws(drawsList, n) && |rates| == |drawsList|
    requires forall k :: 0 <= k < |w.organisms| ==> w.organisms[k].energy == 20
    requires |drawsList| >= 30
    ensures RunTicks(w, n, rates, drawsList).organisms == []
  {
    ExtinctionWithin(w, n, rates, drawsList, 20);
  }
}
