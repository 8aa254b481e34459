/**
 * The composition-to-demand transform of the battery-composition analysis.
 *
 * A composition table holds, per battery chemistry, the mass of each
 * component in one battery. The transform turns each chemistry column into
 * fractional composition (each mass divided by the column total) and then
 * into the annual demand for each component, in millions of tons per year,
 * implied by electrifying a fixed number of trucks per year, each carrying a
 * battery of fixed mass.
 *
 * Python floats are modelled as `real`; floating-point rounding is not
 * modelled, so the sums and products below are exact.
 */
module BatteryComposition {

  // ---------------------------------------------------------------------
  // Fleet constants
  // ---------------------------------------------------------------------

  /** Number of trucks in the US in 2021. */
  const TrucksIn2021: real := 4060000.0
  /** Years over which the whole truck fleet is electrified. */
  const YearsToRamp: int := 10
  /** Trucks electrified per year: the fleet spread evenly over the ramp. */
  const EvsPerYear: real := TrucksIn2021 / YearsToRamp as real
  /** Battery mass of one electric semi truck, in tons. */
  const SemiBatteryMass: real := 5.0
  /** Demand is reported in millions of tons. */
  const Million: real := 1000000.0

  /** The factor that turns a fraction of one battery into millions of tons per year. */
  function ScaleFactor(batteryMass: real, evsPerYear: real): (factor: real)
    ensures factor * Million == batteryMass * evsPerYear
  {
    batteryMass * evsPerYear / Million
  }

  /** The fixed constants give 406000 trucks a year and a factor of 2.03 million tons. */
  lemma FleetConstants()
    ensures EvsPerYear == 406000.0
    ensures ScaleFactor(SemiBatteryMass, EvsPerYear) == 2.03
  {
  }

  // ---------------------------------------------------------------------
  // Column arithmetic
  // ---------------------------------------------------------------------

  /** The total of a column, as a series' `sum()` gives it (0 for no rows). */
  function Sum(s: seq<real>): real
  {
    if s == [] then 0.0 else s[0] + Sum(s[1..])
  }

  /**
   * `parts` is `whole` divided cell by cell by `divisor`: each part times
   * the divisor gives back its cell.
   */
  predicate SharesOf(parts: seq<real>, whole: seq<real>, divisor: real)
  {
    |parts| == |whole| &&
    forall k :: 0 <= k < |whole| ==> parts[k] * divisor == whole[k]
  }

  /** A column divided cell by cell by a non-zero divisor. */
  function DivideBy(s: seq<real>, divisor: real): (quotients: seq<real>)
    requires divisor != 0.0
    ensures SharesOf(quotients, s, divisor)
  {
    seq(|s|, i requires 0 <= i < |s| => s[i] / divisor)
  }

  /**
   * Dividing a column by its own total is defined: the column has no rows
   * (dividing no cells by the zero total gives no cells), or its total is
   * not zero.
   */
  predicate DefinedTotal(masses: seq<real>)
  {
    masses == [] || Sum(masses) != 0.0
  }

  /**
   * A mass column turned into fractional composition: one fraction per
   * mass, each the mass's share of the column total.
   */
  function Normalize(masses: seq<real>): (fractions: seq<real>)
    requires DefinedTotal(masses)
    ensures |fractions| == |masses|
    ensures masses != [] ==> SharesOf(fractions, masses, Sum(masses))
  {
    if masses == [] then [] else DivideBy(masses, Sum(masses))
  }

  /**
   * A fraction column turned into annual demand: each fraction times the
   * battery mass times the vehicles per year, over one million, evaluated
   * left to right as the analysis writes it.
   */
  function Demand(fractions: seq<real>, batteryMass: real, evsPerYear: real): (demand: seq<real>)
    ensures |demand| == |fractions|
    ensures ScaleFactor(batteryMass, evsPerYear) != 0.0 ==>
              DivideBy(demand, ScaleFactor(batteryMass, evsPerYear)) == fractions
  {
    var demand := seq(|fractions|, i requires 0 <= i < |fractions| =>
      fractions[i] * batteryMass * evsPerYear / Million);
    DemandDividesBack(demand, fractions, batteryMass, evsPerYear);
    demand
  }

  /** Cells computed as `f * mass * evs / 1e6`, divided by the scale factor, give back `f`. */
  lemma DemandDividesBack(demand: seq<real>, fractions: seq<real>, batteryMass: real, evsPerYear: real)
    requires |demand| == |fractions|
    requires forall i :: 0 <= i < |fractions| ==>
               demand[i] == fractions[i] * batteryMass * evsPerYear / Million
    ensures ScaleFactor(batteryMass, evsPerYear) != 0.0 ==>
              DivideBy(demand, ScaleFactor(batteryMass, evsPerYear)) == fractions
  {
    var scale := ScaleFactor(batteryMass, evsPerYear);
    if scale != 0.0 {
      var back := DivideBy(demand, scale);
      forall i | 0 <= i < |fractions|
        ensures back[i] == fractions[i]
      {
        assert demand[i] == fractions[i] * scale;
        assert back[i] * scale == demand[i];
      }
    }
  }

  /** Multiplying every cell by the same factor multiplies the total by it. */
  lemma {:induction false} SumScaled(s: seq<real>, t: seq<real>, c: real)
    requires |s| == |t|
    requires forall i :: 0 <= i < |s| ==> s[i] == t[i] * c
    ensures Sum(s) == Sum(t) * c
  {
    if s != [] {
      SumScaled(s[1..], t[1..], c);
    }
  }

  /** The total of non-negative masses is non-negative. */
  lemma {:induction false} SumNonNegative(masses: seq<real>)
    requires forall k :: 0 <= k < |masses| ==> masses[k] >= 0.0
    ensures Sum(masses) >= 0.0
  {
    if masses != [] {
      SumNonNegative(masses[1..]);
    }
  }

  /** In a column of non-negative masses no cell exceeds the total. */
  lemma {:induction false} CellAtMostSum(masses: seq<real>, i: int)
    requires forall k :: 0 <= k < |masses| ==> masses[k] >= 0.0
    requires 0 <= i < |masses|
    ensures masses[i] <= Sum(masses)
  {
    if i > 0 {
      CellAtMostSum(masses[1..], i - 1);
    } else {
      SumNonNegative(masses[1..]);
    }
  }

  /** The shares of a column total the column's total over the divisor. */
  lemma SharesSum(parts: seq<real>, whole: seq<real>, divisor: real)
    requires SharesOf(parts, whole, divisor)
    ensures Sum(parts) * divisor == Sum(whole)
  {
    SumScaled(whole, parts, divisor);
  }

  /** After normalisation a column sums to exactly one. */
  lemma NormalizedSumIsOne(masses: seq<real>)
    requires Sum(masses) != 0.0
    ensures Sum(Normalize(masses)) == 1.0
  {
    var total := Sum(masses);
    var fractions := Normalize(masses);
    SharesSum(fractions, masses, total);
    assert Sum(fractions) * total == Sum(masses);
    assert Sum(masses) == total;
    CancelFactor(Sum(fractions), total);
  }

  /** `x * t == t` with `t` non-zero forces `x == 1`. */
  lemma CancelFactor(x: real, t: real)
    requires t != 0.0 && x * t == t
    ensures x == 1.0
  {
    assert (x - 1.0) * t == 0.0;
  }

  /**
   * With non-negative masses and a positive total every fraction lies in
   * [0, 1], and a fraction is zero exactly when its mass is zero.
   */
  lemma FractionBounds(masses: seq<real>)
    requires forall k :: 0 <= k < |masses| ==> masses[k] >= 0.0
    requires Sum(masses) > 0.0
    ensures forall i :: 0 <= i < |masses| ==>
              0.0 <= Normalize(masses)[i] <= 1.0 &&
              (Normalize(masses)[i] == 0.0 <==> masses[i] == 0.0)
  {
    forall k | 0 <= k < |masses|
      ensures masses[k] <= Sum(masses)
    {
      CellAtMostSum(masses, k);
    }
    SharesBounded(Normalize(masses), masses, Sum(masses));
  }

  /** Shares of a positive total whose cells lie in [0, total] lie in [0, 1]; only zero cells give zero. */
  lemma SharesBounded(parts: seq<real>, whole: seq<real>, total: real)
    requires SharesOf(parts, whole, total) && total > 0.0
    requires forall k :: 0 <= k < |whole| ==> 0.0 <= whole[k] <= total
    ensures forall i :: 0 <= i < |whole| ==>
              0.0 <= parts[i] <= 1.0 && (parts[i] == 0.0 <==> whole[i] == 0.0)
  {
    forall i | 0 <= i < |whole|
      ensures 0.0 <= parts[i] <= 1.0 && (parts[i] == 0.0 <==> whole[i] == 0.0)
    {
      ShareBounds(parts[i], whole[i], total);
    }
  }

  /** A share `f` of a positive total, `f * total == m` with `0 <= m <= total`, lies in [0, 1]. */
  lemma ShareBounds(f: real, m: real, total: real)
    requires total > 0.0 && f * total == m && 0.0 <= m <= total
    ensures 0.0 <= f <= 1.0
    ensures f == 0.0 <==> m == 0.0
  {
  }

  /** `a` and `b` are proportional: any two cells of `a` stand in the ratio of the matching cells of `b`. */
  predicate Proportional(a: seq<real>, b: seq<real>)
  {
    |a| == |b| &&
    forall i, j :: 0 <= i < |a| && 0 <= j < |a| ==> a[i] * b[j] == a[j] * b[i]
  }

  /** Normalisation keeps the ratio between any two components of a column. */
  lemma RatiosPreserved(masses: seq<real>)
    requires Sum(masses) != 0.0
    ensures Proportional(Normalize(masses), masses)
  {
    SharesCrossMultiply(Normalize(masses), masses, Sum(masses));
  }

  /** Shares of one divisor keep the ratio of their cells. */
  lemma SharesCrossMultiply(parts: seq<real>, whole: seq<real>, divisor: real)
    requires SharesOf(parts, whole, divisor)
    ensures Proportional(parts, whole)
  {
    forall i, j | 0 <= i < |whole| && 0 <= j < |whole|
      ensures parts[i] * whole[j] == parts[j] * whole[i]
    {
      var pi, pj := parts[i], parts[j];
      calc {
        pi * whole[j];
        pi * (pj * divisor);
        pj * (pi * divisor);
        pj * whole[i];
      }
    }
  }

  /** With a positive total, normalisation keeps the order of the components' masses. */
  lemma OrderPreserved(masses: seq<real>)
    requires Sum(masses) > 0.0
    ensures forall i, j :: 0 <= i < |masses| && 0 <= j < |masses| ==>
              (masses[i] <= masses[j] <==> Normalize(masses)[i] <= Normalize(masses)[j])
  {
    SharesKeepOrder(Normalize(masses), masses, Sum(masses));
  }

  /** Shares of a positive divisor are ordered as their cells are. */
  lemma SharesKeepOrder(parts: seq<real>, whole: seq<real>, divisor: real)
    requires SharesOf(parts, whole, divisor) && divisor > 0.0
    ensures forall i, j :: 0 <= i < |whole| && 0 <= j < |whole| ==>
              (whole[i] <= whole[j] <==> parts[i] <= parts[j])
  {
    forall i, j | 0 <= i < |whole| && 0 <= j < |whole|
      ensures whole[i] <= whole[j] <==> parts[i] <= parts[j]
    {
      assert whole[j] - whole[i] == (parts[j] - parts[i]) * divisor;
      if parts[i] > parts[j] {
        assert (parts[i] - parts[j]) * divisor > 0.0;
      }
    }
  }

  /** A demand column totals its fraction column's total times the scale factor. */
  lemma DemandSum(fractions: seq<real>, batteryMass: real, evsPerYear: real)
    ensures Sum(Demand(fractions, batteryMass, evsPerYear))
         == Sum(fractions) * ScaleFactor(batteryMass, evsPerYear)
  {
    var demand := Demand(fractions, batteryMass, evsPerYear);
    var scale := ScaleFactor(batteryMass, evsPerYear);
    forall i | 0 <= i < |demand|
      ensures demand[i] == fractions[i] * scale
    {
      assert fractions[i] * batteryMass * evsPerYear == fractions[i] * (batteryMass * evsPerYear);
    }
    SumScaled(demand, fractions, scale);
  }

  /**
   * Whatever the chemistry, its demand column, computed from the normalised
   * column with the fixed fleet constants, totals 2.03 million tons a year.
   */
  lemma DemandTotalIsFixed(masses: seq<real>)
    requires Sum(masses) != 0.0
    ensures Sum(Demand(Normalize(masses), SemiBatteryMass, EvsPerYear)) == 2.03
  {
    NormalizedSumIsOne(masses);
    DemandSum(Normalize(masses), SemiBatteryMass, EvsPerYear);
    FleetConstants();
  }

  /** Demand is linear in the battery mass and in the number of vehicles per year. */
  lemma DemandLinear(fractions: seq<real>, batteryMass: real, evsPerYear: real, k: real)
    ensures forall i :: 0 <= i < |fractions| ==>
              Demand(fractions, k * batteryMass, evsPerYear)[i]
              == k * Demand(fractions, batteryMass, evsPerYear)[i]
    ensures forall i :: 0 <= i < |fractions| ==>
              Demand(fractions, batteryMass, k * evsPerYear)[i]
              == k * Demand(fractions, batteryMass, evsPerYear)[i]
  {
  }

  /**
   * Two components of 60 and 40 kg make fractions 0.6 and 0.4; with the
   * fleet constants the first one's demand is 1.218 million tons a year.
   */
  lemma WorkedExample()
    ensures Normalize([60.0, 40.0]) == [0.6, 0.4]
    ensures Demand(Normalize([60.0, 40.0]), SemiBatteryMass, EvsPerYear)[0] == 1.218
  {
    assert Sum([60.0, 40.0]) == 100.0 by {
      assert [60.0, 40.0][1..] == [40.0];
      assert [40.0][1..] == [];
    }
    FleetConstants();
  }

  // ---------------------------------------------------------------------
  // Tables
  // ---------------------------------------------------------------------

  /** The label of the column that names the components (the table's rows). */
  const ComponentLabel: string := "Component"

  /** One column of a table: component names, or numbers (masses, fractions or demand). */
  datatype Series = Text(names: seq<string>) | Numbers(values: seq<real>)

  function Length(s: Series): nat
  {
    match s
    case Text(names) => |names|
    case Numbers(values) => |values|
  }

  /**
   * What the transform needs of a table: every chemistry column (every
   * column not labelled `Component`) is numeric, and dividing it by its
   * total is defined (it has no rows or a non-zero total).
   */
  predicate Normalizable(labels: seq<string>, columns: seq<Series>)
  {
    |labels| == |columns| &&
    forall k :: 0 <= k < |columns| && labels[k] != ComponentLabel ==>
      columns[k].Numbers? && DefinedTotal(columns[k].values)
  }

  /** A column after normalisation: the `Component` column is skipped, any other keeps its rows. */
  function FractionColumn(name: string, column: Series): (r: Series)
    requires name != ComponentLabel ==> column.Numbers? && DefinedTotal(column.values)
    ensures name == ComponentLabel ==> r == column
    ensures name != ComponentLabel ==> r.Numbers? && Length(r) == Length(column)
  {
    if name == ComponentLabel then column else Numbers(Normalize(column.values))
  }

  /**
   * A column of the demand table, computed from the normalised column: the
   * `Component` column is skipped, any other keeps its rows.
   */
  function DemandColumn(name: string, column: Series, batteryMass: real, evsPerYear: real): (r: Series)
    requires name != ComponentLabel ==> column.Numbers? && DefinedTotal(column.values)
    ensures name == ComponentLabel ==> r == column
    ensures name != ComponentLabel ==> r.Numbers? && Length(r) == Length(column)
  {
    if name == ComponentLabel then column
    else Numbers(Demand(Normalize(column.values), batteryMass, evsPerYear))
  }

  /**
   * The fractional-composition table derived from a composition table: same
   * columns and rows, the `Component` column unchanged, every other column numeric.
   */
  function FractionTable(labels: seq<string>, columns: seq<Series>): (r: seq<Series>)
    requires Normalizable(labels, columns)
    ensures |r| == |columns|
    ensures forall k :: 0 <= k < |columns| ==>
              Length(r[k]) == Length(columns[k]) &&
              (labels[k] == ComponentLabel ==> r[k] == columns[k]) &&
              (labels[k] != ComponentLabel ==> r[k].Numbers?)
  {
    seq(|columns|, k requires 0 <= k < |columns| => FractionColumn(labels[k], columns[k]))
  }

  /**
   * The annual-demand table derived from a composition table: same columns
   * and rows, the `Component` column unchanged, every other column numeric.
   */
  function DemandTable(labels: seq<string>, columns: seq<Series>,
                       batteryMass: real, evsPerYear: real): (r: seq<Series>)
    requires Normalizable(labels, columns)
    ensures |r| == |columns|
    ensures forall k :: 0 <= k < |columns| ==>
              Length(r[k]) == Length(columns[k]) &&
              (labels[k] == ComponentLabel ==> r[k] == columns[k]) &&
              (labels[k] != ComponentLabel ==> r[k].Numbers?)
  {
    seq(|columns|, k requires 0 <= k < |columns| =>
      DemandColumn(labels[k], columns[k], batteryMass, evsPerYear))
  }

  /**
   * A table with no rows (only a header) can be transformed: both derived
   * tables are the table itself, every column still empty.
   */
  lemma HeaderOnlyTable(labels: seq<string>, columns: seq<Series>, batteryMass: real, evsPerYear: real)
    requires |labels| == |columns|
    requires forall k :: 0 <= k < |columns| ==> Length(columns[k]) == 0
    requires forall k :: 0 <= k < |columns| && labels[k] != ComponentLabel ==> columns[k].Numbers?
    ensures Normalizable(labels, columns)
    ensures FractionTable(labels, columns) == columns
    ensures DemandTable(labels, columns, batteryMass, evsPerYear) == columns
  {
  }

  /**
   * In the fractional-composition table every chemistry column sums to one,
   * or to zero when the table has no rows.
   */
  lemma FractionTableSumsToOne(labels: seq<string>, columns: seq<Series>)
    requires Normalizable(labels, columns)
    ensures forall k :: 0 <= k < |columns| && labels[k] != ComponentLabel ==>
              Sum(FractionTable(labels, columns)[k].values)
              == if columns[k].values == [] then 0.0 else 1.0
  {
    forall k | 0 <= k < |columns| && labels[k] != ComponentLabel
      ensures Sum(FractionTable(labels, columns)[k].values)
              == if columns[k].values == [] then 0.0 else 1.0
    {
      if columns[k].values != [] {
        NormalizedSumIsOne(columns[k].values);
      }
    }
  }

  /**
   * With non-negative masses every cell of the fractional-composition table
   * lies in [0, 1], and exactly the zero masses give zero fractions.
   */
  lemma FractionTableBounds(labels: seq<string>, columns: seq<Series>)
    requires Normalizable(labels, columns)
    requires forall k, i :: 0 <= k < |columns| && columns[k].Numbers? && 0 <= i < |columns[k].values| ==>
               columns[k].values[i] >= 0.0
    ensures forall k, i :: 0 <= k < |columns| && labels[k] != ComponentLabel &&
                           0 <= i < |columns[k].values| ==>
              0.0 <= FractionTable(labels, columns)[k].values[i] <= 1.0 &&
              (FractionTable(labels, columns)[k].values[i] == 0.0 <==> columns[k].values[i] == 0.0)
  {
    forall k | 0 <= k < |columns| && labels[k] != ComponentLabel && columns[k].values != []
      ensures forall i :: 0 <= i < |columns[k].values| ==>
                0.0 <= FractionTable(labels, columns)[k].values[i] <= 1.0 &&
                (FractionTable(labels, columns)[k].values[i] == 0.0 <==> columns[k].values[i] == 0.0)
    {
      var masses := columns[k].values;
      assert forall i :: 0 <= i < |masses| ==> masses[i] >= 0.0;
      SumNonNegative(masses);
      FractionBounds(masses);
    }
  }

  /**
   * With the fleet constants every chemistry column of the demand table
   * totals 2.03 million tons a year, or zero when the table has no rows.
   */
  lemma DemandTableTotals(labels: seq<string>, columns: seq<Series>)
    requires Normalizable(labels, columns)
    ensures forall k :: 0 <= k < |columns| && labels[k] != ComponentLabel ==>
              Sum(DemandTable(labels, columns, SemiBatteryMass, EvsPerYear)[k].values)
              == if columns[k].values == [] then 0.0 else 2.03
  {
    forall k | 0 <= k < |columns| && labels[k] != ComponentLabel
      ensures Sum(DemandTable(labels, columns, SemiBatteryMass, EvsPerYear)[k].values)
              == if columns[k].values == [] then 0.0 else 2.03
    {
      if columns[k].values != [] {
        DemandTotalIsFixed(columns[k].values);
      }
    }
  }

  /**
   * An in-memory table with labelled columns. Labels are distinct and every
   * column has one cell per row.
   */
  class DataFrame {
    var labels: seq<string>
    var columns: seq<Series>

    ghost predicate Valid()
      reads this
    {
      |labels| == |columns| &&
      (forall i, j :: 0 <= i < j < |labels| ==> labels[i] != labels[j]) &&
      (forall k :: 0 <= k < |columns| ==> Length(columns[k]) == Length(columns[0]))
    }

    /** The number of rows (0 for a table with no columns). */
    ghost function Rows(): nat
      reads this
    {
      if columns == [] then 0 else Length(columns[0])
    }

    /** A table holding the given columns, as loaded from a file. */
    constructor (labels: seq<string>, columns: seq<Series>)
      requires |labels| == |columns|
      requires forall i, j :: 0 <= i < j < |labels| ==> labels[i] != labels[j]
      requires forall k :: 0 <= k < |columns| ==> Length(columns[k]) == Length(columns[0])
      ensures Valid()
      ensures this.labels == labels && this.columns == columns
    {
      this.labels := labels;
      this.columns := columns;
    }

    /** A deep copy: a new table with the same labels and cells. */
    constructor Copy(source: DataFrame)
      requires source.Valid()
      ensures Valid()
      ensures labels == source.labels && columns == source.columns
    {
      labels := source.labels;
      columns := source.columns;
    }

    /** Overwrites the column at position `k` (`df[labels[k]] = s`); nothing else changes. */
    method Assign(k: nat, s: Series)
      requires Valid()
      requires k < |columns|
      requires Length(s) == Rows()
      modifies this
      ensures Valid()
      ensures labels == old(labels)
      ensures columns == old(columns)[k := s]
    {
      columns := columns[k := s];
    }
  }

  /**
   * One pass of the analysis' loop over a chemistry column: divide column
   * `i` of `composition` by its total in place, then write that column,
   * scaled to annual demand, into column `i` of `demand`. Every other
   * column of both tables is unchanged.
   */
  method NormalizeAndScale(composition: DataFrame, demand: DataFrame, i: nat)
    requires composition != demand
    requires composition.Valid() && demand.Valid()
    requires composition.Rows() == demand.Rows()
    requires i < |composition.columns| && i < |demand.columns|
    requires composition.labels[i] != ComponentLabel
    requires composition.columns[i].Numbers? && DefinedTotal(composition.columns[i].values)
    modifies composition, demand
    ensures composition.Valid() && demand.Valid()
    ensures composition.labels == old(composition.labels) && demand.labels == old(demand.labels)
    ensures composition.columns
         == old(composition.columns)[i := FractionColumn(old(composition.labels[i]), old(composition.columns[i]))]
    ensures demand.columns
         == old(demand.columns)[i := DemandColumn(old(composition.labels[i]), old(composition.columns[i]),
                                                  SemiBatteryMass, EvsPerYear)]
  {
    var column := composition.columns[i].values;
    composition.Assign(i, Numbers(Normalize(column)));
    var fractions := composition.columns[i].values;
    demand.Assign(i, Numbers(Demand(fractions, SemiBatteryMass, EvsPerYear)));
  }

  /**
   * The analysis' transform: copy the composition table, then for every
   * chemistry column normalise it in place and write its annual demand,
   * under the fleet constants, into the copy. Returns the copy.
   */
  method ComputeDemand(composition: DataFrame) returns (demand: DataFrame)
    requires composition.Valid()
    requires Normalizable(composition.labels, composition.columns)
    modifies composition
    ensures fresh(demand)
    ensures composition.Valid() && demand.Valid()
    ensures composition.labels == old(composition.labels)
    ensures demand.labels == old(composition.labels)
    ensures composition.columns == FractionTable(old(composition.labels), old(composition.columns))
    ensures demand.columns
         == DemandTable(old(composition.labels), old(composition.columns), SemiBatteryMass, EvsPerYear)
  {
    demand := new DataFrame.Copy(composition);
    ghost var labels := composition.labels;
    ghost var masses := composition.columns;
    ghost var rows := composition.Rows();
    for i := 0 to |composition.labels|
      invariant composition.Valid() && demand.Valid()
      invariant composition.labels == labels && demand.labels == labels
      invariant |composition.columns| == |masses| && |demand.columns| == |masses|
      invariant forall k :: 0 <= k < i ==>
                  composition.columns[k] == FractionColumn(labels[k], masses[k]) &&
                  demand.columns[k] == DemandColumn(labels[k], masses[k], SemiBatteryMass, EvsPerYear)
      invariant forall k :: i <= k < |masses| ==>
                  composition.columns[k] == masses[k] && demand.columns[k] == masses[k]
      invariant composition.Rows() == rows && demand.Rows() == rows
      invariant composition != demand
    {
      if composition.labels[i] == ComponentLabel {
        continue;
      }
      NormalizeAndScale(composition, demand, i);
    }
    assert forall k :: 0 <= k < |masses| ==> composition.columns[k] == FractionTable(labels, masses)[k];
    assert forall k :: 0 <= k < |masses| ==>
      demand.columns[k] == DemandTable(labels, masses, SemiBatteryMass, EvsPerYear)[k];
  }
}
