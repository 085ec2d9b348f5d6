# The Life Engine — a Dafny model of the tick engine and the organism legend

The Life Engine is a browser ecosystem toy. A square grid of `EMPTY`, `FOOD`
and `ORGANISM` cells lies on a fixed `LAND`/`WATER` terrain map.

Each tick of `advanceSimulation` does the following:
- charges every organism one unit of energy and drops those at 0 or below;
- feeds those standing on food (+10);
- steers each survivor one step toward the nearest food on its own terrain;
- rebuilds the grid: organisms first, then the food that was neither eaten nor covered;
- respawns food on empty land, within a budget of 100 tries;
- updates the stats record.

The world is built at start-up:
- food is seeded at random cells;
- terrain is drawn per 5×5 block;
- ten land-dwelling organisms are placed: on a land cell when one of the n² placement draws hits land, otherwise at a fallback cell, which may be water.

The organism legend sorts organisms into ten named colour groups by hue. It
counts each group and sums its energy, lists the five largest groups with
their average energy, and marks the first as the "buddy of the day".

The model is organised in these modules:
- `Ecosystem` (`ecosystem.dfy`): cells, terrain, organisms, constants and food counting.
- `TerrainGen` (`terrain.dfy`): the terrain map.
- `Placement` (`placement.dfy`): placement of the initial organisms.
- `Targeting` (`targeting.dfy`): the nearest-food scan and the move.
- `OrganismStep` (`organism_step.dfy`): the per-organism update and the survivor list.
- `GridRebuild` (`grid_rebuild.dfy`): the grid rebuild and the food spawn.
- `SimStats` (`sim_stats.dfy`): the stats record.
- `Simulation` (`simulation.dfy`): one tick as a world-to-world transition, world construction, and properties of runs of ticks.
- `Legend` (`legend.dfy`): the organism legend.

Every random draw is an explicit input:
- the cells drawn by the spawn loop, one per try;
- the block terrain draws;
- the placement draws of each organism: `n*n` tries and then the fallback cell;
- the hue draws;
- the ids.

The loops of the source are methods with loop invariants. The loops of the
tick (the nearest-food scan, the organism update, the grid rebuild and the
food spawn) and the placement attempt loop are proved equal to
specification functions, and those functions carry the properties. The
terrain, food-seeding and placement loops state their results directly in
their postconditions.

## Model

| member | source | states |
|---|---|---|
| TerrainGen.NumBlocks | src/App.js:65 | the number of blocks is the ceiling of gridSize/5: `5*nb - 5 < n <= 5*nb` |
| TerrainGen.BlockIndexInRange | src/App.js:78-80 | the block index `r/5` of every cell is below the number of blocks |
| TerrainGen.GenerateTerrain | src/App.js:62-84 | the map is n×n; cell (r, c) gets the terrain drawn for block (r/5, c/5), WATER when the draw is below 0.7 and LAND otherwise; two cells in the same 5×5 block have the same terrain |
| Placement.HueOf | src/App.js:116 | a colour hue drawn as `floor(random*360)` lies in [0, 360) |
| Placement.PlacementSpotSpec | src/App.js:93-106 | the chosen spot is in the grid; if any of the `n*n` tries lands on the habitat, the spot is the first try that does; otherwise it is the fallback draw |
| Placement.PlaceOrganism | src/App.js:87-120 | the attempt loop computes that spot; the organism has the given id, habitat LAND, energy 20, speed 1, vision 2, size 1, pattern 0 and a hue in [0, 360) |
| Placement.PlaceInitialOrganisms | src/App.js:86-123 | exactly INITIAL_ORGANISMS organisms are produced, all inside the grid, so the filter for unplaced organisms removes nothing |
| Targeting.ScanSpec | src/App.js:190-200 | after scanning every cell before (i, j) in row-major order, the scan has found nothing iff none of those cells is a FOOD cell of the habitat; otherwise it has found one of them that is no farther than every scanned candidate and strictly nearer than every candidate scanned before it |
| Targeting.NearestFoodSpec | src/App.js:187-206 | there is no target iff no FOOD cell has the organism's habitat terrain; otherwise the target is such a cell at minimum distance, and ties go to the first in row-major order |
| Targeting.FindTarget | src/App.js:187-200 | the nested loop with strict `<` on the running minimum computes that nearest-food target |
| Targeting.NoWrapTowardTarget | src/App.js:209-212 | a sign step toward a target inside the grid stays inside, so the `(… + gridSize) % gridSize` wrap is plain addition |
| Targeting.StepCloser | src/App.js:209-210 | a sign step along one axis never increases the squared distance to the target on that axis, and strictly decreases it when the coordinates differ |
| Targeting.MoveSpec | src/App.js:202-225 | the new position is in the grid; it is either the old one or a cell of the organism's habitat; there is no move without a target; with a target the organism goes to the cell one sign step toward it on each axis, with no wrap-around, exactly when that cell differs from its own and has its habitat terrain, and otherwise stays; a move brings it strictly closer |
| OrganismStep.UpdateOrganismSpec | src/App.js:173-233 | an organism dies iff `energy - 1 <= 0`; a survivor keeps id, habitat and traits; its energy is `energy - 1` plus 10 exactly when its starting cell is FOOD; it lands in the grid, on its old cell or on its habitat |
| OrganismStep.SurvivorOrigins | src/App.js:172-235 | the survivors are the updates of the non-dying organisms, in their original relative order, none left out |
| OrganismStep.SurvivorsInGrid | src/App.js:172-235 | survivors are in the grid, have positive energy and are no more than the organisms before |
| OrganismStep.UpdateOrganisms | src/App.js:170-235 | the map/filter loop returns exactly the survivor list and the set of eaten cells; each eaten cell was FOOD and lies in the grid |
| Ecosystem.GridFoodUpdate | src/App.js:263-274 | writing one cell changes the food count by what arrived minus what left |
| GridRebuild.RebuildGrid | src/App.js:241-266 | every survivor's cell is ORGANISM; a cell is ORGANISM iff a survivor stands on it; a cell is FOOD iff it was FOOD, was not eaten and is not occupied; everything else is EMPTY; the returned count is the number of FOOD cells |
| GridRebuild.SpawnSpec | src/App.js:268-277 | spawning keeps the grid square and the count exact; the count grows to at most `max(carried, foodSpawnRate)`, never by more than the tries remaining; each cell is unchanged, or is an EMPTY LAND cell that became FOOD; if the count ends below the rate, every remaining draw is on a cell that is not EMPTY LAND in the result (every EMPTY LAND draw was filled) |
| GridRebuild.SpawnFood | src/App.js:268-278 | the `while (count < rate && tries < 100)` loop computes that spawn, with the same bounds and cell guarantees, and if the count stays below the rate, none of the 100 draws is left on an EMPTY LAND cell |
| SimStats.TotalEnergyAtLeastCount | src/App.js:282 | with positive energies, the total energy is at least the survivor count, and zero iff no organism survives |
| Simulation.Tick | src/App.js:169-290 | a tick keeps the world well-formed (square grid and terrain, organisms in the grid) and leaves the terrain untouched |
| Simulation.AdvanceSimulation | src/App.js:169-290 | the three parts run in sequence (organism update, grid rebuild and spawn, stats update) and compute that tick |
| Simulation.TickSpec | src/App.js:169-290 | after a tick the organisms are the survivors, each standing on an ORGANISM cell; every FOOD cell is carried-over food or spawned on LAND; all carried-over food is kept; the food count lies in [carried, max(carried, rate)], and below the rate only if none of the 100 draws is left on an EMPTY LAND cell; `organismCount`, `totalEnergy` and `step + 1` are set and the other stats fields carried over |
| Simulation.SettledNoFeeding | src/App.js:178-184 | when every organism stands on an ORGANISM cell nobody eats, and every survivor just loses the metabolic cost |
| Simulation.NoFeedingAfterTick | src/App.js:178-184 | in the world produced by any tick no organism eats on the next tick: the feeding branch can fire only against the initial grid |
| Simulation.TickSettles | src/App.js:246-251 | a tick leaves every organism on an ORGANISM cell |
| Simulation.SurvivorsEnergyBound | src/App.js:175-184 | survivors of organisms with energy at most e have energy in (0, e + 9], and in (0, e - 1] when none of them starts on FOOD |
| Simulation.SettledTick | src/App.js:175-184 | from a settled world a tick stays settled and lowers every energy bound by the metabolic cost |
| Simulation.SettledExtinction | src/App.js:175-176 | from a settled world with energies at most e, no organism is left after e ticks |
| Simulation.ExtinctionWithin | src/App.js:169-290 | whatever the grid, terrain, draws and per-tick food spawn rates, a population with energies at most e is extinct after e + 10 ticks |
| Simulation.InitialPopulationDiesOut | src/App.js:112 | the initial population (energy 20) is extinct after 30 ticks |
| Simulation.RunTicksKeepsTerrain | src/App.js:62-84 | after any number of ticks the terrain map is the one built at start-up and the world stays well-formed |
| Simulation.StepCountsTicks | src/App.js:283-288 | from a numeric step s, after k ticks the step is s + k |
| Simulation.StepStaysNaN | src/App.js:127-131 | from the initial record as written (no `step`), the step is NaN after every run of one tick or more |
| Simulation.SeedFood | src/App.js:53-60 | the starting grid is n×n with no ORGANISM cell; a cell is FOOD iff one of the first foodSpawnRate draws hit it; there are at most foodSpawnRate FOOD cells |
| Simulation.InitializeWorld | src/App.js:53-131 | the initial world is well-formed; a grid cell is FOOD iff a seeding draw hit it, and none is ORGANISM; each terrain cell has its block's terrain; there are 10 organisms, each at its placement spot with its id, habitat LAND, energy 20, the fixed traits and its drawn hue; the stats record is the one written, with no `step` |
| Simulation.InitializeWorldCorrected | src/App.js:53-131 | the same world, with `step` starting at 0 |
| Simulation.ReadCell | src/App.js:153 | reading a grid cell (`grid[r][c]` in the render's food-marker loop, `grid[i][j]` in the scan at src/App.js:192, `prevGrid[r][c]` at src/App.js:258) throws exactly when its row does not exist; a value that is read is the grid's cell |
| Simulation.GrownGridSizeThrows | src/App.js:151-153 | after the size grows from n to m > n without rebuilding the grid, reading row n of the n×n grid throws, and a loop over all m×m cells throws: the re-render's food-marker loop reads `grid[n][0]` first, so no tick at the new size runs; a tick, if one ran, would throw at the same read in its scan (src/App.js:190-192) or its carry-over loop (src/App.js:255-258) |
| Simulation.ResizeWorld | src/App.js:53-131 | a world rebuilt at the new size m is a valid world of size m, and every read of a loop over the m×m cells (the food-marker loop, the carry-over loop) finds a cell |
| Legend.JsRem | src/OrganismLegend.js:112 | JavaScript `%`: the result lies strictly between -b and b, has the sign of the dividend and differs from it by a multiple of b, which makes it `a - b*trunc(a/b)` |
| Legend.RoundDiv | src/OrganismLegend.js:112 | `Math.round(num/den)` is the integer nearest num/den, halves rounding up |
| Legend.ColorIndex | src/OrganismLegend.js:110-114 | the index lies in (-10, 10); for a hue ≥ 0 it lies in [0, 10) and names the group whose centre (a multiple of 36) is nearest the hue mod 360 on the colour circle |
| Legend.ColorIndexClosedForm | src/OrganismLegend.js:112 | for a hue ≥ 0 the index is `floor(((hue mod 360) + 18)/36) mod 10` |
| Legend.HueWrapsToFirstGroup | src/OrganismLegend.js:112 | hues with hue mod 360 in [342, 360) wrap to group 0, the group of hue 0 |
| Legend.GetColorGroup | src/OrganismLegend.js:110-114 | the result carries the index and, for a hue ≥ 0, that table entry; the entry is missing exactly when the index is negative |
| Legend.RotatingDesc | src/OrganismLegend.js:117-119 | the description is defined iff the list is non-empty, and is then one of the group's descriptions |
| Legend.RotatingDescPeriodic | src/OrganismLegend.js:117-119 | the rotation repeats with period `|descs|` |
| Legend.GroupOrganisms | src/OrganismLegend.js:127-138 | the forEach over the organisms builds exactly the groups of the grouping fold, in first-appearance order |
| Legend.GroupsOfSpec | src/OrganismLegend.js:127-138 | group keys are distinct; a key has a group iff some organism has it; each group's count is its number of organisms and its sumEnergy their energy, with a missing energy counting as 0; the counts add up to the number of organisms |
| Legend.GroupsCoverOrganisms | src/OrganismLegend.js:130-137 | every organism's group exists, and there are no groups iff there are no organisms |
| Legend.SortByCountSpec | src/OrganismLegend.js:141 | sorting gives a permutation of the groups in non-increasing count order |
| Legend.TopGroupsSpec | src/OrganismLegend.js:141 | the list has min(5, #groups) entries, in non-increasing count order, drawn from the groups; any group left out has a count no larger than the fifth entry's |
| Legend.BuddyOfDaySpec | src/OrganismLegend.js:144 | the buddy of the day is missing iff there are no organisms; otherwise it is a group with the largest count |
| Legend.AverageEnergy | src/OrganismLegend.js:158 | zero for an empty group; otherwise the integer nearest sumEnergy/count |

## Left out

- React state, effects and rendering are not modelled. This covers `useState`, the interval runners (src/App.js:293-307, which register two intervals at once), the legend's tick timer and bounce keyframes, and the globe markers (src/App.js:135-165). A tick is one transition from world to world, and `prevGrid` is the same snapshot as `grid`.
- `Math.random` and `Date.now` are inputs: draws of cells, block terrain reals in [0, 1), hue reals in [0, 1), and ids as integers.
- `Math.sqrt` distances are replaced by integer squared distances. These have the same order for grid coordinates, so the same target is chosen.
- The grid size is a fixed parameter `n` of a tick. The source never rebuilds the grid, terrain or organisms when the size slider changes `gridSize`; after that, renders and ticks index the old grid with the new size. The model proves that growing the size makes the next render throw in its food-marker loop (src/App.js:151-153), so no tick at the new size runs (see Findings). It does not model a tick after a shrink, where the scan covers only part of the old grid, moves wrap modulo the new size, and an organism that stays outside the new bounds makes the write at src/App.js:249 throw. `Move` requires `n >= 1`.
- The `PREDATOR` cell type is never produced, so it is not modelled.
- Simulation.Tick: `Math.round(totalEnergy)` is the identity here, because energies are integers.
- Legend.GroupOrganisms: `Math.round(colorHue)` is not modelled for non-integer hues. Hues are integers, as placement produces them.
- Legend.SortByCountSpec: the sort is modelled as stable (equal counts keep their first-appearance order), as `Array.prototype.sort` is, but stability is not proved. The contract states only permutation and order.
- Legend.RotatingDesc: a group whose index is negative (which needs a negative hue) has no descriptions, and rendering it would read `undefined.length`. The rendering is not modelled; the model returns no description.
- src/GlobeView.js, src/GridCanvas.js, src/Statistics.js, src/EvolutionControls.js, src/SimulationControls.js, src/BuddiesLegend.js and src/Announcer.js are not part of this model. They are display code, or random commentary text.

## Findings

| source | as written | input that shows it | evidently intended | confidence | as-written member | corrected member |
|---|---|---|---|---|---|---|
| src/App.js:127-131, 285 | the initial stats record has no `step` field, so `prevStats.step + 1` is `undefined + 1`, which is NaN, and it stays NaN on every later tick | any run of one tick or more from the initial state | `step` starts at 0 and counts the ticks | not executed | Simulation.StepStaysNaN (with Simulation.InitializeWorld, which builds the stepless record) | Simulation.StepCountsTicks (with Simulation.InitializeWorldCorrected) |
| src/App.js:53-123, 151-153 | grid, terrain and organisms are built once, by the initial-state functions, at the initial `gridSize`; the size slider changes only `gridSize`, so after the size grows the re-render that follows runs the food-marker loop over the new size, reads a row past the end of the grid and throws a TypeError; no tick at the new size runs (a tick would throw at the same read in its scan at src/App.js:192 or its carry-over loop at src/App.js:255-258) | the initial 30×30 world, then the size set to 31: the re-render's food-marker loop reads `grid[30][0]` | a size change rebuilds the world at the new size | not executed | Simulation.GrownGridSizeThrows | Simulation.ResizeWorld |
