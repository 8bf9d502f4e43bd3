/** The cost breakdown that "Compute Area" derives from a parking lot's
    rounded area: labor hours, equipment hours, material, labor and
    equipment cost, and the total with a 10% waste factor.

    Money is in whole dollars, except the total, which is held in tenths of
    a dollar so that the factor 1.1 stays exact. */
module CostModel {
  import opened Rounding

  /** Dollars of material per square metre. */
  const UnitCost: nat := 10
  /** Dollars per labor hour. */
  const LaborRate: nat := 50
  /** Dollars per equipment hour. */
  const EquipRate: nat := 70
  /** The waste factor 1.1, in tenths. */
  const WasteFactorTenths: nat := 11
  /** Square metres handled per labor hour. */
  const AreaPerLaborHour: nat := 100
  /** Labor hours per equipment hour. */
  const LaborHoursPerEquipHour: nat := 10

  datatype Breakdown = Breakdown(
    area: nat,          // m², already rounded
    hours: nat,         // labor hours
    equipHours: nat,    // equipment hours
    material: nat,      // dollars
    labor: nat,         // dollars
    equipment: nat,     // dollars
    totalTenths: nat)   // tenths of a dollar
  {
    /** Material, labor and equipment together, before the waste factor. */
    function Subtotal(): nat {
      material + labor + equipment
    }
  }

  /** The breakdown for a rounded area, as `computeArea` derives it. */
  function Estimate(area: nat): (b: Breakdown)
    ensures b.area == area
    // hours is the nearest integer to area / 100, ties up
    ensures 100 * b.hours - 50 <= area < 100 * b.hours + 50
    // equipment hours is the nearest integer to hours / 10, ties up
    ensures 10 * b.equipHours - 5 <= b.hours < 10 * b.equipHours + 5
    ensures b.material == 10 * area
    ensures b.labor == 50 * b.hours
    ensures b.equipment == 70 * b.equipHours
    // the total is 1.1 times the subtotal, never below it
    ensures b.totalTenths == 11 * b.Subtotal()
    ensures b.totalTenths >= 10 * b.Subtotal()
    ensures b.totalTenths == 0 <==> area == 0
  {
    var hours := RoundDiv(area, AreaPerLaborHour);
    var equipHours := RoundDiv(hours, LaborHoursPerEquipHour);
    var material := area * UnitCost;
    var labor := hours * LaborRate;
    var equipment := equipHours * EquipRate;
    Breakdown(area, hours, equipHours, material, labor, equipment,
              (material + labor + equipment) * WasteFactorTenths)
  }

  /** The figures agree with the platform's real arithmetic: both hour counts
      are the platform's rounding of the real quotients, and the total in
      dollars is exactly 1.1 times the subtotal. */
  lemma EstimateMatchesPlatform(area: nat)
    ensures Estimate(area).hours == RoundReal(area as real / 100.0)
    ensures Estimate(area).equipHours == RoundReal(Estimate(area).hours as real / 10.0)
    ensures Estimate(area).totalTenths as real / 10.0 == 1.1 * Estimate(area).Subtotal() as real
  {
    var b := Estimate(area);
    RoundDivMatchesRoundReal(area, AreaPerLaborHour);
    RoundDivMatchesRoundReal(b.hours, LaborHoursPerEquipHour);
  }

  /** Every figure is non-decreasing in the area. */
  lemma EstimateMonotone(a1: nat, a2: nat)
    requires a1 <= a2
    ensures Estimate(a1).hours <= Estimate(a2).hours
    ensures Estimate(a1).equipHours <= Estimate(a2).equipHours
    ensures Estimate(a1).material <= Estimate(a2).material
    ensures Estimate(a1).labor <= Estimate(a2).labor
    ensures Estimate(a1).equipment <= Estimate(a2).equipment
    ensures Estimate(a1).totalTenths <= Estimate(a2).totalTenths
  {
    RoundDivMonotone(a1, a2, AreaPerLaborHour);
    RoundDivMonotone(Estimate(a1).hours, Estimate(a2).hours, LaborHoursPerEquipHour);
  }

  /** The rounding thresholds: 50 m² already bills one labor hour, 49 m²
      bills none, and equipment hours start at 5 labor hours (450 m²). */
  lemma EstimateThresholds()
    ensures Estimate(49).hours == 0 && Estimate(50).hours == 1
    ensures Estimate(449).equipHours == 0 && Estimate(450).equipHours == 1
    ensures Estimate(450).totalTenths == 11 * (4500 + 250 + 70)
  {
  }
}
