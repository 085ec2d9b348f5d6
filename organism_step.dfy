/**
 * Part 1 of a tick (src/App.js:170-235): every organism pays its metabolic
 * cost and dies at zero energy or below; a survivor standing on FOOD gains
 * ENERGY_FROM_FOOD and that cell is recorded as eaten; then it takes one step
 * toward the nearest food on its terrain. Survivors keep their order
 * (`map` followed by `filter`).
 */
module OrganismStep {
  import opened Wrappers
  import opened Ecosystem
  import opened Targeting

  /** The inputs a tick reads: an n-by-n grid and terrain, and organisms inside them. */
  ghost predicate Arena(g: Grid, t: TerrainMap, n: nat) {
    n >= 1 && IsSquare(g, n) && IsSquare(t, n)
  }

  /** The `map` callback: None for an organism that dies of metabolism. */
  function UpdateOrganism(o: Organism, g: Grid, t: TerrainMap, n: nat): Option<Organism>
    requires Arena(g, t, n) && InGrid(n, o.x, o.y)
  {
    var currentEnergy := o.energy - METABOLIC_COST;
    if currentEnergy <= 0 then None
    else
      var fed := if g[o.x][o.y] == Food then currentEnergy + ENERGY_FROM_FOOD else currentEnergy;
      var p := Move(o, NearestFood(g, t, n, o), t, n);
      Some(o.(x := p.x, y := p.y, energy := fed))
  }

  /** The organism survives metabolism and stands on FOOD, so it eats. */
  predicate Eats(o: Organism, g: Grid, n: nat)
    requires IsSquare(g, n) && InGrid(n, o.x, o.y)
  {
    o.energy - METABOLIC_COST > 0 && g[o.x][o.y] == Food
  }

  /**
   * Energy and survival: an organism dies exactly when its energy minus the
   * metabolic cost is at most 0; a survivor keeps its id, habitat and traits,
   * its energy is `energy - 1`, plus 10 when its starting cell is FOOD, and
   * it ends inside the grid, where it was or on its own terrain.
   */
  lemma UpdateOrganismSpec(o: Organism, g: Grid, t: TerrainMap, n: nat)
    requires Arena(g, t, n) && InGrid(n, o.x, o.y)
    ensures UpdateOrganism(o, g, t, n).None? <==> o.energy - METABOLIC_COST <= 0
    ensures UpdateOrganism(o, g, t, n).Some? ==>
      var o' := UpdateOrganism(o, g, t, n).value;
      && o'.id == o.id && o'.habitat == o.habitat && o'.traits == o.traits
      && o'.energy == o.energy - METABOLIC_COST + (if g[o.x][o.y] == Food then ENERGY_FROM_FOOD else 0)
      && o'.energy > 0
      && InGrid(n, o'.x, o'.y)
      && (Pos(o'.x, o'.y) == Pos(o.x, o.y) || t[o'.x][o'.y] == o.habitat)
  {
    NearestFoodSpec(g, t, n, o);
    MoveSpec(o, NearestFood(g, t, n, o), t, n);
  }

  /** The surviving organisms, updated, in their original order. */
  function Survivors(orgs: seq<Organism>, g: Grid, t: TerrainMap, n: nat): seq<Organism>
    requires Arena(g, t, n) && AllInGrid(orgs, n)
  {
    if orgs == [] then []
    else
      var last := orgs[|orgs| - 1];
      var rest := Survivors(orgs[..|orgs| - 1], g, t, n);
      match UpdateOrganism(last, g, t, n)
      case None => rest
      case Some(o') => rest + [o']
  }

  /** `eatenFoodSet`: the starting cells of the organisms that eat. */
  function EatenSet(orgs: seq<Organism>, g: Grid, n: nat): set<Pos>
    requires IsSquare(g, n) && AllInGrid(orgs, n)
  {
    set k | 0 <= k < |orgs| && Eats(orgs[k], g, n) :: Pos(orgs[k].x, orgs[k].y)
  }

  /**
   * Survivors keep their relative order: `idx` lists, increasing, the input
   * index each survivor comes from, and holds every organism that survives.
   */
  lemma {:induction false} SurvivorOrigins(orgs: seq<Organism>, g: Grid, t: TerrainMap, n: nat) returns (idx: seq<nat>)
    requires Arena(g, t, n) && AllInGrid(orgs, n)
    ensures |idx| == |Survivors(orgs, g, t, n)|
    ensures forall k :: 0 <= k < |idx| ==>
      idx[k] < |orgs| && UpdateOrganism(orgs[idx[k]], g, t, n) == Some(Survivors(orgs, g, t, n)[k])
    ensures forall k1, k2 :: 0 <= k1 < k2 < |idx| ==> idx[k1] < idx[k2]
    ensures forall i :: 0 <= i < |orgs| && UpdateOrganism(orgs[i], g, t, n).Some? ==> i in idx
  {
    if orgs == [] {
      idx := [];
    } else {
      var m := |orgs| - 1;
      var prefix := orgs[..m];
      assert AllInGrid(prefix, n);
      var rest := SurvivorOrigins(prefix, g, t, n);
      assert forall i :: 0 <= i < m ==> prefix[i] == orgs[i];
      if UpdateOrganism(orgs[m], g, t, n).Some? {
        idx := rest + [m];
      } else {
        idx := rest;
      }
    }
  }

  /** Every survivor is inside the grid, with positive energy. */
  lemma {:induction false} SurvivorsInGrid(orgs: seq<Organism>, g: Grid, t: TerrainMap, n: nat)
    requires Arena(g, t, n) && AllInGrid(orgs, n)
    ensures AllInGrid(Survivors(orgs, g, t, n), n)
    ensures |Survivors(orgs, g, t, n)| <= |orgs|
    ensures forall k :: 0 <= k < |Survivors(orgs, g, t, n)| ==> Survivors(orgs, g, t, n)[k].energy > 0
  {
    if orgs != [] {
      var m := |orgs| - 1;
      SurvivorsInGrid(orgs[..m], g, t, n);
      UpdateOrganismSpec(orgs[m], g, t, n);
    }
  }

  /** The `map`/`filter` over the organisms, collecting the eaten cells as it goes. */
  method UpdateOrganisms(orgs: seq<Organism>, g: Grid, t: TerrainMap, n: nat)
    returns (livingOrganismsNext: seq<Organism>, eatenFood: set<Pos>)
    requires Arena(g, t, n) && AllInGrid(orgs, n)
    ensures livingOrganismsNext == Survivors(orgs, g, t, n)
    ensures eatenFood == EatenSet(orgs, g, n)
    ensures AllInGrid(livingOrganismsNext, n)
    ensures forall p :: p in eatenFood ==> InGrid(n, p.x, p.y) && g[p.x][p.y] == Food
  {
    livingOrganismsNext, eatenFood := [], {};
    var k := 0;
    while k < |orgs|
      invariant 0 <= k <= |orgs|
      invariant AllInGrid(orgs[..k], n)
      invariant livingOrganismsNext == Survivors(orgs[..k], g, t, n)
      invariant eatenFood == EatenSet(orgs[..k], g, n)
    {
      var org := orgs[k];
      assert orgs[..k + 1][..k] == orgs[..k];
      var currentEnergy := org.energy - METABOLIC_COST;
      if currentEnergy > 0 {
        if g[org.x][org.y] == Food {
          currentEnergy := currentEnergy + ENERGY_FROM_FOOD;
          eatenFood := eatenFood + {Pos(org.x, org.y)};
        }
        var targetFoodPos := FindTarget(g, t, n, org);
        var finalPos := Move(org, targetFoodPos, t, n);
        livingOrganismsNext := livingOrganismsNext + [org.(x := finalPos.x, y := finalPos.y, energy := currentEnergy)];
      }
      k := k + 1;
    }
    assert orgs[..k] == orgs;
    SurvivorsInGrid(orgs, g, t, n);
  }
}
