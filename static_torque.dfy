/**
 * Static torque T = m * g * R for a grid of masses and lever lengths:
 * the torque formula, the table that pairs every mass with every lever
 * length (masses outermost), and the split of that table into the three
 * columns that the scatter plot consumes.
 *
 * Arithmetic is over `real`: the formula is exact here, where the
 * original evaluates it in IEEE-754 doubles.
 */
module StaticTorqueCalculation {

  /** Acceleration due to gravity, in m/s^2 (exactly 981/100). */
  const G: real := 9.81

  /** One row of the table: mass in kg, lever length in m, torque in Nm. */
  datatype TorqueRecord = TorqueRecord(mass: real, leverLength: real, torque: real)

  // ---------------------------------------------------------------------
  // The torque formula
  // ---------------------------------------------------------------------

  /** The static torque of `mass` hanging at `leverLength` from the pivot. */
  function StaticTorque(mass: real, leverLength: real): (t: real)
    ensures t == 0.0 <==> mass == 0.0 || leverLength == 0.0
    ensures 0.0 <= mass && 0.0 <= leverLength ==> 0.0 <= t
  {
    mass * G * leverLength
  }

  /** Torque is the weight m * G acting at the lever arm, and it scales
      linearly with the mass. */
  lemma StaticTorqueIsWeightTimesArm(mass: real, leverLength: real, k: real)
    ensures StaticTorque(mass, leverLength) == (mass * G) * leverLength
    ensures StaticTorque(k * mass, leverLength) == k * StaticTorque(mass, leverLength)
  {
  }

  /** With a non-negative lever arm, a heavier mass never gives less torque. */
  lemma StaticTorqueMonotoneInMass(m1: real, m2: real, leverLength: real)
    requires m1 <= m2 && 0.0 <= leverLength
    ensures StaticTorque(m1, leverLength) <= StaticTorque(m2, leverLength)
  {
    assert StaticTorque(m2, leverLength) - StaticTorque(m1, leverLength)
        == (m2 - m1) * G * leverLength;
  }

  /** The row the table holds for one (mass, lever length) pair. */
  function Record(mass: real, leverLength: real): TorqueRecord
  {
    TorqueRecord(mass, leverLength, StaticTorque(mass, leverLength))
  }

  /** A row whose torque is the formula applied to its mass and lever length. */
  predicate Consistent(r: TorqueRecord)
  {
    r.torque == StaticTorque(r.mass, r.leverLength)
  }

  // ---------------------------------------------------------------------
  // The table: specification
  // ---------------------------------------------------------------------

  /** The rows produced by one pass of the inner loop: `mass` paired with
      every lever length, in the given order. */
  function LeverRow(mass: real, leverLengths: seq<real>): (rows: seq<TorqueRecord>)
    ensures |rows| == |leverLengths|
    decreases |leverLengths|
  {
    if leverLengths == [] then []
    else
      var n := |leverLengths| - 1;
      LeverRow(mass, leverLengths[..n]) + [Record(mass, leverLengths[n])]
  }

  /** The whole table: one LeverRow per mass, masses in the given order. */
  function TorqueTable(masses: seq<real>, leverLengths: seq<real>): (table: seq<TorqueRecord>)
    ensures |table| == |masses| * |leverLengths|
    decreases |masses|
  {
    if masses == [] then []
    else
      var n := |masses| - 1;
      TorqueTable(masses[..n], leverLengths) + LeverRow(masses[n], leverLengths)
  }

  // ---------------------------------------------------------------------
  // The table: the nested loops
  // ---------------------------------------------------------------------

  /** Builds the table by appending one row per (mass, lever length) pair,
      lever lengths in the inner loop. The inputs are values and are not
      changed; the table is a fresh local sequence. */
  method GenerateTorqueTable(masses: seq<real>, leverLengths: seq<real>)
    returns (torqueTable: seq<TorqueRecord>)
    ensures torqueTable == TorqueTable(masses, leverLengths)
  {
    torqueTable := [];
    var i := 0;
    while i < |masses|
      invariant 0 <= i <= |masses|
      invariant torqueTable == TorqueTable(masses[..i], leverLengths)
    {
      var mass := masses[i];
      var j := 0;
      while j < |leverLengths|
        invariant 0 <= j <= |leverLengths|
        invariant torqueTable == TorqueTable(masses[..i], leverLengths) + LeverRow(mass, leverLengths[..j])
      {
        var leverLength := leverLengths[j];
        var torque := StaticTorque(mass, leverLength);
        torqueTable := torqueTable + [TorqueRecord(mass, leverLength, torque)];
        assert leverLengths[..j + 1][..j] == leverLengths[..j];
        j := j + 1;
      }
      assert leverLengths[..j] == leverLengths;
      assert masses[..i + 1][..i] == masses[..i];
      i := i + 1;
    }
    assert masses[..i] == masses;
  }

  // ---------------------------------------------------------------------
  // The table: properties
  // ---------------------------------------------------------------------

  /** The table is empty exactly when one of the inputs is empty. */
  lemma TorqueTableEmpty(masses: seq<real>, leverLengths: seq<real>)
    ensures TorqueTable(masses, leverLengths) == [] <==> masses == [] || leverLengths == []
  {
    var t := TorqueTable(masses, leverLengths);
    if masses != [] && leverLengths != [] {
      assert |t| >= |leverLengths| by {
        assert |masses| * |leverLengths| >= 1 * |leverLengths|;
      }
    }
  }

  /** Row j of one inner-loop pass pairs the mass with lever length j. */
  lemma {:induction false} LeverRowAt(mass: real, leverLengths: seq<real>, j: nat)
    requires j < |leverLengths|
    ensures LeverRow(mass, leverLengths)[j] == Record(mass, leverLengths[j])
  {
    var n := |leverLengths| - 1;
    if j < n {
      LeverRowAt(mass, leverLengths[..n], j);
    }
  }

  /** The row at index i * |leverLengths| + j pairs mass i with lever length j. */
  lemma {:induction false} TorqueTableAt(masses: seq<real>, leverLengths: seq<real>, i: nat, j: nat)
    requires i < |masses| && j < |leverLengths|
    ensures i * |leverLengths| + j < |TorqueTable(masses, leverLengths)|
    ensures TorqueTable(masses, leverLengths)[i * |leverLengths| + j] == Record(masses[i], leverLengths[j])
  {
    var n := |masses| - 1;
    var w := |leverLengths|;
    var prefix := masses[..n];
    assert |TorqueTable(prefix, leverLengths)| == n * w;
    if i < n {
      assert i * w + j < (i + 1) * w <= n * w by {
        assert (i + 1) * w == i * w + w;
        MulLeft(i + 1, n, w);
      }
      TorqueTableAt(prefix, leverLengths, i, j);
    } else {
      LeverRowAt(masses[n], leverLengths, j);
    }
  }

  lemma MulLeft(a: nat, b: nat, w: nat)
    requires a <= b
    ensures a * w <= b * w
  {
  }

  /** Every row of one inner-loop pass satisfies the formula. */
  lemma {:induction false} LeverRowConsistent(mass: real, leverLengths: seq<real>)
    ensures forall r :: r in LeverRow(mass, leverLengths) ==> Consistent(r) && r.mass == mass
  {
    if leverLengths != [] {
      LeverRowConsistent(mass, leverLengths[..|leverLengths| - 1]);
    }
  }

  /** Every row of the table carries the formula applied to its first two
      components. */
  lemma {:induction false} TorqueTableConsistent(masses: seq<real>, leverLengths: seq<real>)
    ensures forall k :: 0 <= k < |TorqueTable(masses, leverLengths)| ==>
      Consistent(TorqueTable(masses, leverLengths)[k])
  {
    if masses != [] {
      var n := |masses| - 1;
      TorqueTableConsistent(masses[..n], leverLengths);
      LeverRowConsistent(masses[n], leverLengths);
      var t := TorqueTable(masses, leverLengths);
      var front := TorqueTable(masses[..n], leverLengths);
      forall k | 0 <= k < |t| ensures Consistent(t[k]) {
        if k >= |front| {
          assert t[k] in LeverRow(masses[n], leverLengths);
        }
      }
    }
  }

  /** The inner-loop pass for mass m consists of exactly the rows with mass m,
      one for each lever length. */
  lemma {:induction false} LeverRowMembers(mass: real, leverLengths: seq<real>, r: TorqueRecord)
    ensures r in LeverRow(mass, leverLengths) <==>
      r.mass == mass && r.leverLength in leverLengths && Consistent(r)
  {
    if leverLengths != [] {
      var n := |leverLengths| - 1;
      LeverRowMembers(mass, leverLengths[..n], r);
      assert leverLengths == leverLengths[..n] + [leverLengths[n]];
    }
  }

  /** The table is the Cartesian product: a row occurs in it exactly when
      its mass is one of the masses, its lever length one of the lever
      lengths, and its torque the formula's value. */
  lemma {:induction false} TorqueTableMembers(masses: seq<real>, leverLengths: seq<real>, r: TorqueRecord)
    ensures r in TorqueTable(masses, leverLengths) <==>
      r.mass in masses && r.leverLength in leverLengths && Consistent(r)
  {
    if masses != [] {
      var n := |masses| - 1;
      TorqueTableMembers(masses[..n], leverLengths, r);
      LeverRowMembers(masses[n], leverLengths, r);
      assert masses == masses[..n] + [masses[n]];
    }
  }

  /** The block of |leverLengths| rows starting at i * |leverLengths| is the
      inner-loop pass for mass i: every mass in it is masses[i], and its
      lever-length column is leverLengths in order. */
  lemma MassBlock(masses: seq<real>, leverLengths: seq<real>, i: nat)
    requires i < |masses|
    ensures i * |leverLengths| + |leverLengths| <= |TorqueTable(masses, leverLengths)|
    ensures var block := TorqueTable(masses, leverLengths)[i * |leverLengths|..i * |leverLengths| + |leverLengths|];
      && block == LeverRow(masses[i], leverLengths)
      && (forall k :: 0 <= k < |block| ==> block[k].mass == masses[i])
      && ProjectColumns(block).leverLengths == leverLengths
  {
    var w := |leverLengths|;
    var t := TorqueTable(masses, leverLengths);
    var lo := i * w;
    assert lo + w <= |t| by {
      MulLeft(i + 1, |masses|, w);
      assert (i + 1) * w == lo + w;
    }
    var block := t[lo..lo + w];
    var row := LeverRow(masses[i], leverLengths);
    forall j | 0 <= j < w ensures block[j] == row[j] {
      TorqueTableAt(masses, leverLengths, i, j);
      LeverRowAt(masses[i], leverLengths, j);
    }
    assert block == row;
    LeverRowConsistent(masses[i], leverLengths);
    forall k | 0 <= k < w ensures ProjectColumns(block).leverLengths[k] == leverLengths[k] {
      LeverRowAt(masses[i], leverLengths, k);
    }
  }

  /** The example grid masses [3, 7, 10] by lever lengths [0.1, 0.2]. */
  lemma SmallGridExample()
    ensures TorqueTable([3.0, 7.0, 10.0], [0.1, 0.2]) ==
      [ TorqueRecord(3.0, 0.1, 2.943), TorqueRecord(3.0, 0.2, 5.886)
      , TorqueRecord(7.0, 0.1, 6.867), TorqueRecord(7.0, 0.2, 13.734)
      , TorqueRecord(10.0, 0.1, 9.81), TorqueRecord(10.0, 0.2, 19.62) ]
  {
    var ls := [0.1, 0.2];
    assert ls[..1] == [0.1];
    assert LeverRow(3.0, ls) == [TorqueRecord(3.0, 0.1, 2.943), TorqueRecord(3.0, 0.2, 5.886)];
    assert LeverRow(7.0, ls) == [TorqueRecord(7.0, 0.1, 6.867), TorqueRecord(7.0, 0.2, 13.734)];
    assert LeverRow(10.0, ls) == [TorqueRecord(10.0, 0.1, 9.81), TorqueRecord(10.0, 0.2, 19.62)];
    var ms := [3.0, 7.0, 10.0];
    assert ms[..2] == [3.0, 7.0];
    assert ms[..2][..1] == [3.0];
  }

  // ---------------------------------------------------------------------
  // Column projection for the plot
  // ---------------------------------------------------------------------

  /** The three columns the scatter plot is drawn from. */
  datatype PlotColumns = PlotColumns(masses: seq<real>, leverLengths: seq<real>, torques: seq<real>)

  predicate SameLength(c: PlotColumns)
  {
    |c.masses| == |c.leverLengths| == |c.torques|
  }

  /** Splits the table into its mass, lever-length and torque columns. */
  function ProjectColumns(table: seq<TorqueRecord>): (c: PlotColumns)
    ensures SameLength(c) && |c.masses| == |table|
  {
    PlotColumns(
      seq(|table|, k requires 0 <= k < |table| => table[k].mass),
      seq(|table|, k requires 0 <= k < |table| => table[k].leverLength),
      seq(|table|, k requires 0 <= k < |table| => table[k].torque))
  }

  /** Reassembles rows from three columns of equal length, position by position. */
  function ZipColumns(c: PlotColumns): (table: seq<TorqueRecord>)
    requires SameLength(c)
    ensures |table| == |c.masses|
  {
    seq(|c.masses|, k requires 0 <= k < |c.masses| =>
      TorqueRecord(c.masses[k], c.leverLengths[k], c.torques[k]))
  }

  /** Zipping the projected columns gives back the table. */
  lemma ZipProjectColumns(table: seq<TorqueRecord>)
    ensures ZipColumns(ProjectColumns(table)) == table
  {
    var back := ZipColumns(ProjectColumns(table));
    forall k | 0 <= k < |table| ensures back[k] == table[k] { }
  }

  /** Projecting zipped columns gives back the columns. */
  lemma ProjectZipColumns(c: PlotColumns)
    requires SameLength(c)
    ensures ProjectColumns(ZipColumns(c)) == c
  {
  }

  /** On a generated table, every plotted point's torque is the formula
      applied to its mass and lever length. */
  lemma PlottedTorques(masses: seq<real>, leverLengths: seq<real>)
    ensures var c := ProjectColumns(TorqueTable(masses, leverLengths));
      forall k :: 0 <= k < |c.torques| ==> c.torques[k] == StaticTorque(c.masses[k], c.leverLengths[k])
  {
    TorqueTableConsistent(masses, leverLengths);
  }
}
