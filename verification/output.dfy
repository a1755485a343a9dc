/** The table run_model returns: per row, the time, the volume as percent
    change from the initial volume, the concentrations S, N, O, and the tidal
    height Z. */
module ModelOutput {
  import opened Outcomes
  import opened EstuaryState
  import opened EstuaryModel
  import opened Integrator

  datatype Row = Row(time: real, v: real, s: real, n: real, o: real, z: real)

  /** One row of the table from a raw extensive state. The concentrations
      and the height use the raw volume; only afterwards is the volume
      column rewritten as percent change from the initial volume. */
  function OutputRow(m: Model, t: real, y: State): (r: Row)
    requires WellFormed(m) && m.params.v != 0.0 && y.v != 0.0
    ensures r.time == t
    ensures r.s * y.v == y.s && r.n * y.v == y.n && r.o * y.v == y.o
    ensures r.z * m.area == y.v
    ensures m.params.v * (100.0 + r.v) == 100.0 * y.v
  {
    var c := ToConc(y);
    var z := y.v / m.area;
    Row(t, 100.0 * (y.v - m.params.v) / m.params.v, c.s, c.n, c.o, z)
  }

  /** The raw extensive state a row was made from, rebuilt from the height
      column and the concentrations. */
  function RawState(m: Model, r: Row): State {
    FromConc(r.z * m.area, Conc(r.s, r.n, r.o))
  }

  /** Round trip: the raw state is recovered from its row, and the height
      column agrees with the percent-volume column, which holds only because
      Z is computed from the raw volume before that column is rewritten. */
  lemma RowRoundTrip(m: Model, t: real, y: State)
    requires WellFormed(m) && m.params.v != 0.0 && y.v != 0.0
    ensures RawState(m, OutputRow(m, t, y)) == y
    ensures var r := OutputRow(m, t, y);
      r.z * m.area == m.params.v + m.params.v * r.v / 100.0
  {
    var r := OutputRow(m, t, y);
    assert r.z * m.area == y.v;
    ConcRoundTrip(y);
    assert ToConc(y) == Conc(r.s, r.n, r.o);
  }

  /** The whole table, one row per recorded time, in order. */
  function Output(m: Model, tr: Trajectory): (rows: seq<Row>)
    requires WellFormed(m) && m.params.v != 0.0
    requires |tr.ts| == |tr.ys| && VolumesNonZero(tr.ys)
    ensures |rows| == |tr.ts|
    ensures forall k :: 0 <= k < |rows| ==> rows[k] == OutputRow(m, tr.ts[k], tr.ys[k])
  {
    seq(|tr.ts|, k requires 0 <= k < |tr.ts| => OutputRow(m, tr.ts[k], tr.ys[k]))
  }

  /** The first row restates the initial conditions: time 0, no volume
      change, the initial concentrations and the mean depth. */
  lemma FirstRowIsInitialCondition(p: Params, m: Model, sin: real -> real, dt: real, tEnd: real, tSpinup: real,
                                   tr: Trajectory)
    requires Init(p) == Ok(m) && p.v != 0.0 && dt > 0.0
    requires Follows(m, sin, dt, tEnd, tSpinup, tr) && VolumesNonZero(tr.ys)
    ensures Output(m, tr)[0] == Row(0.0, 0.0, p.s, p.n, p.o, p.z)
  {
    var y := tr.ys[0];
    var r := OutputRow(m, 0.0, y);
    assert y == m.y0 && y.v == p.v;
    assert tr.ts[0] == 0.0;
    assert r.s * p.v == p.s * p.v && r.n * p.v == p.n * p.v && r.o * p.v == p.o * p.v;
    assert r.z * m.area == m.area * p.z;
    assert m.area != 0.0;
  }

  /** With admissible raw states and a positive initial volume and depth,
      the concentrations and the height are non-negative and the volume
      never falls more than 100 percent below the initial one. */
  lemma RowsNonNegative(m: Model, tr: Trajectory)
    requires WellFormed(m) && m.params.v > 0.0 && m.params.z > 0.0
    requires |tr.ts| == |tr.ys| && VolumesNonZero(tr.ys)
    requires forall k :: 0 <= k < |tr.ys| ==> NonNegative(tr.ys[k])
    ensures forall k :: 0 <= k < |tr.ts| ==>
      var r := Output(m, tr)[k];
      r.s >= 0.0 && r.n >= 0.0 && r.o >= 0.0 && r.z >= 0.0 && r.v >= -100.0
  {
    var rows := Output(m, tr);
    assert m.area > 0.0;
    forall k | 0 <= k < |tr.ts|
      ensures rows[k].s >= 0.0 && rows[k].n >= 0.0 && rows[k].o >= 0.0 && rows[k].z >= 0.0 && rows[k].v >= -100.0
    {
      var y := tr.ys[k];
      assert y.v > 0.0;
      assert rows[k] == OutputRow(m, tr.ts[k], y);
    }
  }

  /** EstuaryModel.run_model: integrate, then shape the raw trajectory into
      the table. No table is produced where the source would divide by a
      zero volume (a halted run, or a zero volume in some row). */
  method RunModel(m: Model, sin: real -> real, dt: real, tEnd: real, tSpinup: real)
    returns (tr: Trajectory, table: Option<seq<Row>>)
    requires WellFormed(m) && dt > 0.0
    ensures Follows(m, sin, dt, tEnd, tSpinup, tr)
    ensures table.Some? <==> Last(tr.ts) >= tEnd && VolumesNonZero(tr.ys)
    ensures table.Some? ==> m.params.v != 0.0 && table.value == Output(m, tr)
    ensures Last(tr.ts) < tEnd ==> Step(m, sin, tr.ys, Last(tr.ts), dt, tSpinup).None?
  {
    var run := Integrate(m, sin, dt, tEnd, tSpinup);
    tr := run.tr;
    if run.Completed? && VolumesNonZero(tr.ys) {
      assert tr.ys[0].v == m.params.v;
      table := Some(Output(m, tr));
    } else {
      table := None;
    }
  }
}
