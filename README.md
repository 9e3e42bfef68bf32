# Static torque table — Dafny model

This project models the computational core of a small robotics utility.
The utility computes the static torque T = m · g · R (g = 9.81 m/s²) for every
pair in a grid of masses and lever lengths. It collects the results in a table
of (mass, lever length, torque) rows, masses in the outer loop. It then splits
that table into three columns for a scatter plot.

Everything is in one module, `StaticTorqueCalculation` (`static_torque.dfy`):

- `StaticTorque` is the torque formula. `G` is the constant 9.81, which is the
  exact rational 981/100 in Dafny.
- `GenerateTorqueTable` is the nested-loop table builder. It is a method with two
  `while` loops that append one row per pair to a local sequence. It is proved
  equal to the recursive specification `TorqueTable`. That specification is built
  from `LeverRow`, the rows of one inner-loop pass.
- The lemmas about `TorqueTable` cover its length and when it is empty. They give
  the row at index `i * |leverLengths| + j`, show that every row obeys the formula,
  characterise the table as a Cartesian product, and describe the block of rows
  that belongs to each mass.
- `ProjectColumns` is the split into mass, lever-length and torque columns done
  by the plotting routine. Its partner is `ZipColumns`, with round-trip lemmas
  in both directions.

Masses and lever lengths are parameters (`seq<real>`). They are not global
state. Dafny sequences are values, so the table builder cannot change its
inputs, and it returns a freshly built sequence.

Arithmetic is idealised. The model computes over `real`, where the original
computes in IEEE-754 doubles. For example, 3 · 9.81 · 0.1 is exactly 2.943 in the
model but need not be in the original. None of the structural properties depend
on rounding. The original does not check that masses and lever lengths are
non-negative. The model follows it and accepts any real values.

## Model

| member | source | states |
|---|---|---|
| StaticTorqueCalculation.StaticTorque | python/statictorquecalculation.py:16-31 | the torque is zero exactly when the mass or the lever length is zero, and non-negative for non-negative inputs; g is 9.81 |
| StaticTorqueCalculation.StaticTorqueIsWeightTimesArm | python/statictorquecalculation.py:31 | torque is the weight m·g times the lever arm and scales linearly with the mass |
| StaticTorqueCalculation.StaticTorqueMonotoneInMass | python/statictorquecalculation.py:31 | with a non-negative lever arm, a heavier mass never yields less torque |
| StaticTorqueCalculation.LeverRow | python/statictorquecalculation.py:46-48 | one inner-loop pass yields one row per lever length |
| StaticTorqueCalculation.TorqueTable | python/statictorquecalculation.py:44-49 | the table has exactly len(masses) · len(lever_lengths) rows |
| StaticTorqueCalculation.GenerateTorqueTable | python/statictorquecalculation.py:33-49 | the nested append loops (masses outer, lever lengths inner) build exactly the specified table |
| StaticTorqueCalculation.TorqueTableEmpty | python/statictorquecalculation.py:44-46 | the table is empty if and only if the masses or the lever lengths are empty; empty input is not an error |
| StaticTorqueCalculation.LeverRowAt | python/statictorquecalculation.py:46-48 | row j of an inner-loop pass is (mass, lever_lengths[j], torque(mass, lever_lengths[j])) |
| StaticTorqueCalculation.TorqueTableAt | python/statictorquecalculation.py:45-48 | the row at index i·len(lever_lengths) + j is (masses[i], lever_lengths[j], torque(masses[i], lever_lengths[j])) |
| StaticTorqueCalculation.LeverRowConsistent | python/statictorquecalculation.py:46-48 | every row of an inner-loop pass has that pass's mass and the formula's torque |
| StaticTorqueCalculation.TorqueTableConsistent | python/statictorquecalculation.py:47-48 | every row's torque is the formula applied to its mass and lever length |
| StaticTorqueCalculation.LeverRowMembers | python/statictorquecalculation.py:46-48 | a row is in an inner-loop pass if and only if it has that mass, one of the lever lengths and the formula's torque |
| StaticTorqueCalculation.TorqueTableMembers | python/statictorquecalculation.py:44-49 | the table is the Cartesian product: a row occurs if and only if its mass is one of the masses, its lever length one of the lever lengths, and its torque the formula's value |
| StaticTorqueCalculation.MassBlock | python/statictorquecalculation.py:45-46 | the len(lever_lengths) rows starting at i·len(lever_lengths) all have mass masses[i], and their lever-length column is lever_lengths in order |
| StaticTorqueCalculation.SmallGridExample | python/statictorquecalculation.py:33-49 | masses [3, 7, 10] by lever lengths [0.1, 0.2] give the six rows (3, 0.1, 2.943) … (10, 0.2, 19.62) in that order |
| StaticTorqueCalculation.ProjectColumns | python/statictorquecalculation.py:75-77 | the mass, lever-length and torque columns each have the table's length |
| StaticTorqueCalculation.ZipColumns | python/statictorquecalculation.py:75-77 | zipping three equal-length columns yields one row per position |
| StaticTorqueCalculation.ZipProjectColumns | python/statictorquecalculation.py:75-77 | zipping the three projected columns back together reproduces the table exactly |
| StaticTorqueCalculation.ProjectZipColumns | python/statictorquecalculation.py:75-77 | projecting zipped columns reproduces the columns exactly |
| StaticTorqueCalculation.PlottedTorques | python/statictorquecalculation.py:75-77 | on a generated table, each plotted torque is the formula applied to the plotted mass and lever length at the same position |

## Left out

- IEEE-754 rounding of `mass * g * lever_length` is not modelled. Arithmetic is exact over `real`.
- `save_torque_table_to_csv` (python/statictorquecalculation.py:51-64) is not modelled. It is file I/O through the `csv` library: a fixed header row, then the rows in table order.
- The rendering part of `plot_torque_values` (python/statictorquecalculation.py:79-87) is not modelled. It is matplotlib figure construction and image output. Only the column projection that feeds it is modelled.
- The `__main__` block (python/statictorquecalculation.py:89-92) is not modelled. It only wires the three stages together.
- The module-level lists `masses` and `lever_lengths` (python/statictorquecalculation.py:17-18) are not modelled as globals. The table builder takes them as parameters.
- The inputs are Dafny sequences, which are values. So "the input lists are left unchanged" holds by construction and is not a separate lemma. Aliasing of Python lists is not modelled.
