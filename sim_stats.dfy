/**
 * The stats record of src/App.js (initial value at lines 127-131, update at
 * lines 281-288). The update spreads the previous record, so
 * `totalPopulation`, `foodCount` and `speciesCount` are carried unchanged;
 * it sets `organismCount`, `totalEnergy` and `step := prevStats.step + 1`.
 * Fields a record may lack are `undefined` in JavaScript.
 */
module SimStats {
  import opened Wrappers
  import opened Ecosystem

  /** The values `step` can take: absent, not-a-number, or an integer. */
  datatype JsNumber = Undefined | NaN | Num(n: int)

  /** JavaScript's `v + 1` on those values: `undefined + 1` and `NaN + 1` are both NaN. */
  function PlusOne(v: JsNumber): JsNumber {
    match v
    case Num(k) => Num(k + 1)
    case _ => NaN
  }

  datatype Stats = Stats(
    totalPopulation: int,
    foodCount: int,
    speciesCount: int,
    step: JsNumber,
    organismCount: Option<int>,
    totalEnergy: Option<int>)

  /** `reduce((sum, org) => sum + org.energy, 0)`. */
  function TotalEnergy(orgs: seq<Organism>): int {
    if orgs == [] then 0 else TotalEnergy(orgs[..|orgs| - 1]) + orgs[|orgs| - 1].energy
  }

  /** The sum of positive energies is at least the number of organisms. */
  lemma {:induction false} TotalEnergyAtLeastCount(orgs: seq<Organism>)
    requires forall k :: 0 <= k < |orgs| ==> orgs[k].energy > 0
    ensures TotalEnergy(orgs) >= |orgs|
    ensures TotalEnergy(orgs) == 0 <==> orgs == []
  {
    if orgs != [] {
      TotalEnergyAtLeastCount(orgs[..|orgs| - 1]);
    }
  }

  /** The initial record exactly as the source writes it: it has no `step` field. */
  function InitialStatsAsWritten(foodSpawnRate: int): Stats {
    Stats(INITIAL_ORGANISMS, foodSpawnRate, 1, Undefined, None, None)
  }

  /** The initial record with the step counter the update expects, starting at 0. */
  function InitialStats(foodSpawnRate: int): Stats {
    Stats(INITIAL_ORGANISMS, foodSpawnRate, 1, Num(0), None, None)
  }

  /**
   * The stats update of one tick. Energies are integers here, so
   * `Math.round` of their sum is the sum itself.
   */
  function UpdateStats(prevStats: Stats, survivors: seq<Organism>): Stats {
    prevStats.(
      step := PlusOne(prevStats.step),
      organismCount := Some(|survivors|),
      totalEnergy := Some(TotalEnergy(survivors)))
  }
}
