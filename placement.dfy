/**
 * Initial organism placement (src/App.js:86-123). Each of the
 * INITIAL_ORGANISMS organisms is a LAND dweller; up to gridSize^2 random
 * cells are drawn until one is LAND, and if none is, one more draw places the
 * organism wherever it falls. Random numbers are inputs: `draws` holds an
 * organism's gridSize^2 + 1 candidate cells (the last one is the fallback
 * draw), `hueDraw` the number in [0, 1) its colour hue comes from, `id` its
 * identifier.
 */
module Placement {
  import opened Ecosystem

  /** `Math.floor(Math.random() * 360)`. */
  function HueOf(hueDraw: real): (hue: int)
    requires 0.0 <= hueDraw < 1.0
    ensures 0 <= hue < 360
  {
    (hueDraw * 360.0).Floor
  }

  /**
   * The cell the placement loop settles on once `attempts` draws have
   * missed: the first later draw (below the budget) on `habitat`, otherwise
   * the fallback draw.
   */
  function PlacementSpot(terrain: TerrainMap, n: nat, draws: seq<Pos>, habitat: Terrain, attempts: nat): Pos
    requires IsSquare(terrain, n) && |draws| == n * n + 1 && AllPosInGrid(draws, n)
    requires attempts <= n * n
    decreases n * n - attempts
  {
    if attempts == n * n then draws[n * n]
    else if terrain[draws[attempts].x][draws[attempts].y] == habitat then draws[attempts]
    else PlacementSpot(terrain, n, draws, habitat, attempts + 1)
  }

  /**
   * The placement loop finds the first draw on the habitat when there is
   * one within the budget, and otherwise uses the fallback draw; either way
   * the position is inside the grid, so the `undefined` filter never fires.
   */
  lemma {:induction false} PlacementSpotSpec(terrain: TerrainMap, n: nat, draws: seq<Pos>, habitat: Terrain, attempts: nat)
    requires IsSquare(terrain, n) && |draws| == n * n + 1 && AllPosInGrid(draws, n)
    requires attempts <= n * n
    ensures var p := PlacementSpot(terrain, n, draws, habitat, attempts);
      && InGrid(n, p.x, p.y)
      && ((exists k :: attempts <= k < n * n && terrain[draws[k].x][draws[k].y] == habitat) ==>
            exists k :: attempts <= k < n * n && p == draws[k] && terrain[p.x][p.y] == habitat &&
              forall k' :: attempts <= k' < k ==> terrain[draws[k'].x][draws[k'].y] != habitat)
      && ((forall k :: attempts <= k < n * n ==> terrain[draws[k].x][draws[k].y] != habitat) ==>
            p == draws[n * n])
    decreases n * n - attempts
  {
    if attempts < n * n && terrain[draws[attempts].x][draws[attempts].y] != habitat {
      PlacementSpotSpec(terrain, n, draws, habitat, attempts + 1);
      var p := PlacementSpot(terrain, n, draws, habitat, attempts);
      if exists k :: attempts <= k < n * n && terrain[draws[k].x][draws[k].y] == habitat {
        var k :| attempts <= k < n * n && terrain[draws[k].x][draws[k].y] == habitat;
        assert k != attempts;
        var j :| attempts + 1 <= j < n * n && p == draws[j] && terrain[p.x][p.y] == habitat &&
          forall k' :: attempts + 1 <= k' < j ==> terrain[draws[k'].x][draws[k'].y] != habitat;
        assert forall k' :: attempts <= k' < j ==> terrain[draws[k'].x][draws[k'].y] != habitat;
      }
    } else if attempts < n * n {
      var p := PlacementSpot(terrain, n, draws, habitat, attempts);
      assert p == draws[attempts];
    }
  }

  /** One organism of the initial population (the body of the `map` callback). */
  method PlaceOrganism(terrain: TerrainMap, n: nat, draws: seq<Pos>, id: int, hueDraw: real) returns (org: Organism)
    requires IsSquare(terrain, n) && |draws| == n * n + 1 && AllPosInGrid(draws, n)
    requires 0.0 <= hueDraw < 1.0
    ensures Pos(org.x, org.y) == PlacementSpot(terrain, n, draws, Land, 0)
    ensures InGrid(n, org.x, org.y)
    ensures org.id == id && org.habitat == Land && org.energy == 20
    ensures org.traits == Traits(1, 2, HueOf(hueDraw), 1, 0) && 0 <= org.traits.colorHue < 360
  {
    var habitat := Land;
    var x, y := 0, 0;
    var foundSpot := false;
    var attempts := 0;
    while !foundSpot && attempts < n * n
      invariant 0 <= attempts <= n * n
      invariant !foundSpot ==>
        PlacementSpot(terrain, n, draws, habitat, 0) == PlacementSpot(terrain, n, draws, habitat, attempts)
      invariant foundSpot ==> PlacementSpot(terrain, n, draws, habitat, 0) == Pos(x, y)
    {
      var rand := draws[attempts];
      if terrain[rand.x][rand.y] == habitat {
        x, y := rand.x, rand.y;
        foundSpot := true;
      }
      attempts := attempts + 1;
    }
    if !foundSpot {
      x, y := draws[attempts].x, draws[attempts].y;
    }
    PlacementSpotSpec(terrain, n, draws, habitat, 0);
    org := Organism(id, x, y, habitat, 20, Traits(1, 2, HueOf(hueDraw), 1, 0));
  }

  /** The whole initial population: exactly INITIAL_ORGANISMS organisms, all inside the grid. */
  method PlaceInitialOrganisms(terrain: TerrainMap, n: nat, draws: seq<seq<Pos>>, ids: seq<int>, hueDraws: seq<real>)
    returns (orgs: seq<Organism>)
    requires IsSquare(terrain, n)
    requires |draws| == |ids| == |hueDraws| == INITIAL_ORGANISMS
    requires forall k :: 0 <= k < |draws| ==> |draws[k]| == n * n + 1 && AllPosInGrid(draws[k], n)
    requires forall k :: 0 <= k < |hueDraws| ==> 0.0 <= hueDraws[k] < 1.0
    ensures |orgs| == INITIAL_ORGANISMS
    ensures AllInGrid(orgs, n)
    ensures forall k :: 0 <= k < |orgs| ==>
      && Pos(orgs[k].x, orgs[k].y) == PlacementSpot(terrain, n, draws[k], Land, 0)
      && orgs[k].id == ids[k] && orgs[k].habitat == Land && orgs[k].energy == 20
      && orgs[k].traits == Traits(1, 2, HueOf(hueDraws[k]), 1, 0)
  {
    orgs := [];
    var k := 0;
    while k < INITIAL_ORGANISMS
      invariant 0 <= k <= INITIAL_ORGANISMS
      invariant |orgs| == k
      invariant AllInGrid(orgs, n)
      invariant forall i :: 0 <= i < k ==>
        && Pos(orgs[i].x, orgs[i].y) == PlacementSpot(terrain, n, draws[i], Land, 0)
        && orgs[i].id == ids[i] && orgs[i].habitat == Land && orgs[i].energy == 20
        && orgs[i].traits == Traits(1, 2, HueOf(hueDraws[i]), 1, 0)
    {
      var org := PlaceOrganism(terrain, n, draws[k], ids[k], hueDraws[k]);
      orgs := orgs + [org];
      k := k + 1;
    }
  }
}
