/**
 * The fixed classification of fuels that count as clean energy: the
 * `EnergySource` enum, in declaration order.
 */
module EnergySource {

  /** `EnergySource.values()` in declaration order, as fuel names. */
  const CleanFuelOrder: seq<string> := ["biomass", "nuclear", "hydro", "wind", "solar"]

  /** The clean-energy set. */
  const CleanFuels: set<string> := {"biomass", "nuclear", "hydro", "wind", "solar"}

  /**
   * The `anyMatch` over `EnergySource.values()`: some enum constant has this
   * fuel name.
   */
  predicate IsClean(fuel: string)
  {
    exists i :: 0 <= i < |CleanFuelOrder| && CleanFuelOrder[i] == fuel
  }

  lemma CleanFuelsMatchEnum(fuel: string)
    ensures IsClean(fuel) <==> fuel in CleanFuels
  {
    if fuel in CleanFuels {
      var i := if fuel == "biomass" then 0 else if fuel == "nuclear" then 1
               else if fuel == "hydro" then 2 else if fuel == "wind" then 3 else 4;
      assert CleanFuelOrder[i] == fuel;
    }
  }

  lemma CleanFuelOrderDistinct()
    ensures forall i, j :: 0 <= i < j < |CleanFuelOrder| ==> CleanFuelOrder[i] != CleanFuelOrder[j]
  {
  }
}
