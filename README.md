# Battery composition to annual mineral demand

This project models, in Dafny, the arithmetic core of the battery-composition
analysis of the EV truck study (`source/AnalyzeBatteryComposition.py`).

The analysis reads a composition table. It has a `Component` column holding the
component names, plus one column per battery chemistry holding the mass of each
component in one battery. It then:

1. deep-copies the table;
2. for every column except `Component`, divides the column by its own total,
   turning masses into fractional composition, and overwrites the column;
3. writes each normalised column, times the battery mass of one electric semi
   (5 tons) times the trucks electrified per year (4.06 million / 10 years =
   406000), over one million, into the copy. The copy becomes the annual demand
   table, in millions of tons per year.

Structure of the model (module `BatteryComposition`, file `battery_composition.dfy`):

- The fleet constants, and `ScaleFactor`, the factor from a fraction to millions
  of tons per year.
- Column arithmetic on `seq<real>`. `Sum` is a column's total. `DivideBy` and
  `Normalize` give the fractional composition. `Demand` gives annual demand.
  Lemmas state what these promise. A column with no rows normalises to no
  rows, as dividing an empty series by its zero total does.
- Tables. A `Series` is a column of text or of numbers. `FractionTable` and
  `DemandTable` give the two derived tables as functions of the input table.
- `DataFrame`, a class with fields `labels` and `columns` that its methods
  update in place. `Copy` is the deep copy. `Assign` overwrites one column.
- `ComputeDemand`, the loop of the analysis as a method. It modifies the
  composition table in place and returns the new demand table. Each pass
  over a chemistry column is `NormalizeAndScale`, which changes only that
  column of each table. The method's postconditions tie both tables to
  `FractionTable` and `DemandTable` of the original table. The contracts of
  those two functions keep the `Component` column unchanged, and the table
  lemmas give column totals of 1 and 2.03 and the bounds on fractions.

Python floats are modelled as Dafny `real`. Floating-point rounding is not
modelled, so every sum and product is exact.

## Model

| member | source | states |
|---|---|---|
| `BatteryComposition.FleetConstants` | source/AnalyzeBatteryComposition.py:12-15 | 4.06e6 trucks over 10 years is 406000 trucks a year, and with a 5-ton battery the factor from fraction to demand is 2.03 million tons |
| `BatteryComposition.ScaleFactor` | source/AnalyzeBatteryComposition.py:53 | the factor applied to every fraction: times one million it is battery mass times vehicles per year |
| `BatteryComposition.Sum` | source/AnalyzeBatteryComposition.py:49 | the column total `.sum()`, 0 for no rows; `SumScaled`, `SumNonNegative` and `CellAtMostSum` state its properties (scaling, sign, bound on each cell) |
| `BatteryComposition.DivideBy` | source/AnalyzeBatteryComposition.py:49 | dividing a column by a non-zero divisor gives cells that, times the divisor, give back the original cells, one per row |
| `BatteryComposition.Normalize` | source/AnalyzeBatteryComposition.py:49 | one fraction per mass; for a column with rows, each fraction times the column total gives back its mass (so the fractions are the masses' shares of the total) |
| `BatteryComposition.Demand` | source/AnalyzeBatteryComposition.py:53 | one demand cell per fraction; when the scale factor is non-zero, dividing the demand column by it gives back the fraction column exactly |
| `BatteryComposition.NormalizedSumIsOne` | source/AnalyzeBatteryComposition.py:49 | a column divided by its non-zero total sums to exactly 1 |
| `BatteryComposition.SharesSum` | source/AnalyzeBatteryComposition.py:49 | cells divided by a divisor total the original total divided by that divisor |
| `BatteryComposition.FractionBounds` | source/AnalyzeBatteryComposition.py:49 | with non-negative masses and a positive total every fraction is in [0, 1], and a fraction is 0 exactly when its mass is 0 |
| `BatteryComposition.RatiosPreserved` | source/AnalyzeBatteryComposition.py:49 | normalisation keeps ratios: `frac[i] * m[j] == frac[j] * m[i]` for every pair of components |
| `BatteryComposition.OrderPreserved` | source/AnalyzeBatteryComposition.py:49 | with a positive total, `m[i] <= m[j]` exactly when `frac[i] <= frac[j]` |
| `BatteryComposition.DemandSum` | source/AnalyzeBatteryComposition.py:53 | a demand column totals its fraction column's total times the scale factor |
| `BatteryComposition.DemandTotalIsFixed` | source/AnalyzeBatteryComposition.py:49-53 | whatever the chemistry, its demand column totals 2.03 million tons a year |
| `BatteryComposition.DemandLinear` | source/AnalyzeBatteryComposition.py:53 | scaling the battery mass or the vehicle count by k scales every demand cell by k, so doubling either one doubles demand |
| `BatteryComposition.WorkedExample` | source/AnalyzeBatteryComposition.py:49-53 | masses 60 and 40 become fractions 0.6 and 0.4, and the first has a demand of 1.218 million tons a year |
| `BatteryComposition.Normalizable` | source/AnalyzeBatteryComposition.py:45-49 | what the loop needs of a table: every column other than `Component` is numeric and has no rows or a non-zero total, so line 49's division is defined |
| `BatteryComposition.FractionColumn` | source/AnalyzeBatteryComposition.py:45-49 | the `Component` column comes out unchanged; any other column comes out numeric with the same number of rows |
| `BatteryComposition.DemandColumn` | source/AnalyzeBatteryComposition.py:45-53 | the `Component` column comes out unchanged; any other column comes out numeric with the same number of rows |
| `BatteryComposition.FractionTable` | source/AnalyzeBatteryComposition.py:45-49 | same columns and rows as the input, the `Component` column unchanged, every chemistry column numeric |
| `BatteryComposition.DemandTable` | source/AnalyzeBatteryComposition.py:43-53 | same columns and rows as the input, the `Component` column unchanged, every chemistry column numeric |
| `BatteryComposition.HeaderOnlyTable` | source/AnalyzeBatteryComposition.py:45-53 | a table with no rows can be transformed, and both derived tables equal it: every column stays empty |
| `BatteryComposition.FractionTableSumsToOne` | source/AnalyzeBatteryComposition.py:45-49 | in the fractional table every chemistry column sums to 1, or to 0 when the table has no rows |
| `BatteryComposition.FractionTableBounds` | source/AnalyzeBatteryComposition.py:45-49 | with non-negative masses every chemistry cell of the fractional table lies in [0, 1], and it is 0 exactly when its mass is 0 |
| `BatteryComposition.DemandTableTotals` | source/AnalyzeBatteryComposition.py:45-53 | in the demand table every chemistry column totals 2.03, or 0 when the table has no rows |
| `BatteryComposition.DataFrame.constructor` | source/AnalyzeBatteryComposition.py:41 | the table as loaded: the given labels and columns, with distinct labels and equal-length columns |
| `BatteryComposition.DataFrame.Copy` | source/AnalyzeBatteryComposition.py:43 | the deep copy is a new table with the same labels and cells |
| `BatteryComposition.DataFrame.Assign` | source/AnalyzeBatteryComposition.py:49 | assigning a column replaces that column only: labels and every other column are unchanged |
| `BatteryComposition.NormalizeAndScale` | source/AnalyzeBatteryComposition.py:49-53 | one pass of the loop: column `i` of the composition table becomes its fractions, column `i` of the demand table becomes its demand, and every other column and all labels stay unchanged |
| `BatteryComposition.ComputeDemand` | source/AnalyzeBatteryComposition.py:43-53 | afterwards the composition table holds the fractional table, and the returned fresh copy holds the demand table. Both keep the original labels and `Component` column |

## Left out

- Reading the composition CSV (`pd.read_csv`, line 41): file I/O. The loaded table is the argument of `DataFrame.constructor` and `ComputeDemand`.
- `get_top_dir` (lines 18-35): filesystem path resolution.
- Plotting and saving (lines 6-8 and 55-67): the bar chart, its styling, and `savefig`. None of this has custom logic.
- IEEE-754 rounding and NaN propagation: the arithmetic is over `real`, and rounding is not modelled.
- ComputeDemand: requires every chemistry column that has rows to have a non-zero total. For a column with rows whose total is zero, the analysis divides by zero (line 49) and silently produces NaN or infinity. The model cannot represent those values, so it rules the case out by precondition. A table with no rows is not excluded: it is handled, see `HeaderOnlyTable`.
- ComputeDemand: requires every column other than `Component` to be numeric. For a text column, `sum()` concatenates the strings and the division on line 49 then raises a TypeError. The model excludes that case.
- Column assignment by label (`df[column] = ...`) is modelled as assignment by position, because column labels are distinct (a conjunct of `DataFrame.Valid`).
- Comparing demand with baseline market consumption: no code for it appears in `source/AnalyzeBatteryComposition.py`, so none is modelled.
