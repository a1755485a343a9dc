/** Conservation and mixing: what one clamped Euler step and a whole run
    preserve when the tide or the river are switched off, and how the upwind
    rule moves the salinity on outflow and on inflow. */
module Conservation {
  import opened Outcomes
  import opened EstuaryState
  import opened EstuaryModel
  import opened Integrator
  import opened Runs
  import opened ModelOutput

  /** The tide function is zero at every time (the constructor's default). */
  ghost predicate TideIsZero(p: Params) {
    forall t :: p.tide(t) == 0.0
  }

  /** dV/dt is the tidal flow, so where the tide is zero a step keeps the
      volume. */
  lemma ZeroTideKeepsVolume(m: Model, sin: real -> real, y: State, t: real, dt: real, pScale: real)
    requires y.v > 0.0 && m.params.tide(t) == 0.0
    ensures Advance(m, sin, y, t, dt, pScale).v == y.v
  {
  }

  /** Without river and tide dS/dt is 0, so a step keeps the salt mass. */
  lemma NoForcingKeepsSalt(m: Model, sin: real -> real, y: State, t: real, dt: real, pScale: real)
    requires y.v > 0.0 && y.s >= 0.0
    requires m.params.tide(t) == 0.0 && m.params.riverFlowRate == 0.0
    ensures Advance(m, sin, y, t, dt, pScale).s == y.s
  {
  }

  /** A factor multiplied by a positive number keeps the sign of the product. */
  lemma SignOfFactor(x: real, y: real)
    requires y > 0.0
    ensures x * y >= 0.0 ==> x >= 0.0
    ensures x * y <= 0.0 ==> x <= 0.0
  {
  }

  /** A clamped Euler step whose salt rate is the volume rate times the
      current salinity, with the volume staying positive, keeps the salinity
      concentration. */
  lemma RemovalKeepsRatio(y: State, dt: real, d: State)
    requires y.v > 0.0 && y.s >= 0.0 && y.v + dt * d.v > 0.0
    requires d.s == d.v * (y.s / y.v)
    ensures var y' := Clamp(Euler(y, dt, d));
      y'.v > 0.0 && y'.s / y'.v == y.s / y.v
  {
    var c := y.s / y.v;
    var v' := y.v + dt * d.v;
    assert y.s == c * y.v;
    assert c >= 0.0;
    assert y.s + dt * d.s == c * v';
    assert c * v' >= 0.0;
    var y' := Clamp(Euler(y, dt, d));
    assert y'.v == v' && y'.s == c * v';
  }

  /** Adding a volume w > 0 at concentration so to a volume v > 0 holding
      mass s gives a concentration between s/v and so. */
  lemma MixedConcentration(s: real, v: real, w: real, so: real, s': real, v': real)
    requires v > 0.0 && w > 0.0
    requires v' == v + w && s' == s + w * so
    ensures var c := s / v;
      var c' := s' / v';
      && (c <= so ==> c <= c' <= so)
      && (so <= c ==> so <= c' <= c)
  {
    var c := s / v;
    var c' := s' / v';
    assert c * v == s;
    assert c' * v' == s';
    assert (c' - c) * v' == w * (so - c);
    assert (so - c') * v' == v * (so - c);
    SignOfFactor(c' - c, v');
    SignOfFactor(so - c', v');
    if c <= so {
      assert w * (so - c) >= 0.0 && v * (so - c) >= 0.0;
    }
    if so <= c {
      assert w * (so - c) <= 0.0 && v * (so - c) <= 0.0;
    }
  }

  /** The clamped Euler step that adds a positive volume at salinity so
      leaves nothing to clamp in volume and salt. */
  lemma InflowStepValues(y: State, dt: real, d: State, so: real)
    requires y.v > 0.0 && y.s >= 0.0 && dt > 0.0 && d.v > 0.0 && so >= 0.0
    requires d.s == d.v * so
    ensures Clamp(Euler(y, dt, d)).v == y.v + dt * d.v
    ensures Clamp(Euler(y, dt, d)).s == y.s + dt * d.v * so
    ensures dt * d.v > 0.0
  {
    assert dt * d.s == dt * d.v * so;
  }

  /** A clamped Euler step that adds volume at salinity so moves the
      salinity concentration to a value between the current one and so. */
  lemma MixingBetween(y: State, dt: real, d: State, so: real)
    requires y.v > 0.0 && y.s >= 0.0 && dt > 0.0 && d.v > 0.0 && so >= 0.0
    requires d.s == d.v * so
    ensures var y' := Clamp(Euler(y, dt, d));
      var c := y.s / y.v;
      var c' := y'.s / y'.v;
      && y'.v > y.v
      && (c <= so ==> c <= c' <= so)
      && (so <= c ==> so <= c' <= c)
  {
    var y' := Clamp(Euler(y, dt, d));
    InflowStepValues(y, dt, d, so);
    MixedConcentration(y.s, y.v, dt * d.v, so, y'.s, y'.v);
  }

  /** On outflow without river, water leaves at the estuary's own salinity,
      so as long as the volume stays positive a step keeps the salinity
      concentration S/V while the salt mass drops with the volume. */
  lemma OutflowKeepsSalinity(m: Model, sin: real -> real, y: State, t: real, dt: real, pScale: real)
    requires y.v > 0.0 && y.s >= 0.0 && dt > 0.0
    requires m.params.riverFlowRate == 0.0 && TidalFlow(m, t) <= 0.0
    requires y.v + dt * TidalFlow(m, t) > 0.0
    ensures var y' := Advance(m, sin, y, t, dt, pScale);
      y'.v > 0.0 && y'.s / y'.v == y.s / y.v
  {
    OutflowCarriesEstuarySalt(m, sin, y, t, pScale);
    RemovalKeepsRatio(y, dt, Ode(m, sin, y, t, pScale));
  }

  /** On inflow without river, ocean water mixes in, so a step moves the
      salinity concentration to a weighted mean of the estuary's and the
      ocean's: it ends between the two. */
  lemma InflowMixesTowardOcean(m: Model, sin: real -> real, y: State, t: real, dt: real, pScale: real)
    requires y.v > 0.0 && y.s >= 0.0 && dt > 0.0
    requires m.params.riverFlowRate == 0.0 && TidalFlow(m, t) > 0.0 && m.params.sOcean >= 0.0
    ensures var y' := Advance(m, sin, y, t, dt, pScale);
      var c := y.s / y.v;
      var c' := y'.s / y'.v;
      && y'.v > y.v
      && (c <= m.params.sOcean ==> c <= c' <= m.params.sOcean)
      && (m.params.sOcean <= c ==> m.params.sOcean <= c' <= c)
  {
    InflowCarriesOceanChemistry(m, sin, y, y, t, pScale);
    MixingBetween(y, dt, Ode(m, sin, y, t, pScale), m.params.sOcean);
  }

  /** One step of a run without tide keeps the volume at its initial value,
      and without a river also the salt mass. */
  lemma QuiescentStep(p: Params, m: Model, sin: real -> real, y: State, t: real, dt: real, pScale: real)
    requires Init(p) == Ok(m) && p.v > 0.0 && p.tide(t) == 0.0
    requires y.v == p.v
    requires p.riverFlowRate == 0.0 && p.s >= 0.0 ==> y.s == p.s * p.v
    ensures Advance(m, sin, y, t, dt, pScale).v == p.v
    ensures p.riverFlowRate == 0.0 && p.s >= 0.0 ==> Advance(m, sin, y, t, dt, pScale).s == p.s * p.v
  {
    assert m.params == p;
    ZeroTideKeepsVolume(m, sin, y, t, dt, pScale);
    if p.riverFlowRate == 0.0 && p.s >= 0.0 {
      assert y.s >= 0.0;
      NoForcingKeepsSalt(m, sin, y, t, dt, pScale);
    }
  }

  /** A recorded row of a run whose tide is zero has the initial volume, and
      without a river also the initial salt mass. */
  lemma {:induction false} QuiescentRow(p: Params, m: Model, sin: real -> real, dt: real, tEnd: real, tSpinup: real,
                                        tr: Trajectory, k: nat)
    requires Init(p) == Ok(m) && dt > 0.0 && p.v > 0.0 && TideIsZero(p)
    requires Follows(m, sin, dt, tEnd, tSpinup, tr) && k < |tr.ys|
    ensures tr.ys[k].v == p.v
    ensures p.riverFlowRate == 0.0 && p.s >= 0.0 ==> tr.ys[k].s == p.s * p.v
    decreases k
  {
    if k == 0 {
      assert tr.ys[0] == m.y0;
    } else {
      QuiescentRow(p, m, sin, dt, tEnd, tSpinup, tr, k - 1);
      RecordedStep(m, sin, dt, tEnd, tSpinup, tr, k);
      var scale := ProductivityScale(m, tr.ys[..k], tr.ts[k - 1], dt, tSpinup).value;
      assert p.tide(tr.ts[k]) == 0.0;
      QuiescentStep(p, m, sin, tr.ys[k - 1], tr.ts[k], dt, scale);
    }
  }

  /** Conservation under zero forcing over a whole run: with no tide every
      recorded volume is the initial volume, and with no river either every
      recorded salt mass is the initial one. */
  lemma QuiescentRunConserves(p: Params, m: Model, sin: real -> real, dt: real, tEnd: real, tSpinup: real,
                              tr: Trajectory)
    requires Init(p) == Ok(m) && dt > 0.0 && p.v > 0.0 && TideIsZero(p)
    requires Follows(m, sin, dt, tEnd, tSpinup, tr)
    ensures VolumesNonZero(tr.ys)
    ensures forall k :: 0 <= k < |tr.ys| ==> tr.ys[k].v == p.v
    ensures p.riverFlowRate == 0.0 && p.s >= 0.0 ==> forall k :: 0 <= k < |tr.ys| ==> tr.ys[k].s == p.s * p.v
  {
    forall k | 0 <= k < |tr.ys|
      ensures tr.ys[k].v == p.v
      ensures p.riverFlowRate == 0.0 && p.s >= 0.0 ==> tr.ys[k].s == p.s * p.v
    {
      QuiescentRow(p, m, sin, dt, tEnd, tSpinup, tr, k);
    }
  }

  /** With no tide the volume never reaches zero, so given a non-zero ocean
      nitrogen no step is undefined and the run reaches the end time. */
  lemma QuiescentRunCompletes(p: Params, m: Model, sin: real -> real, dt: real, tEnd: real, tSpinup: real,
                              tr: Trajectory)
    requires Init(p) == Ok(m) && dt > 0.0 && p.v > 0.0 && TideIsZero(p) && p.nOcean != 0.0
    requires Follows(m, sin, dt, tEnd, tSpinup, tr)
    ensures Step(m, sin, tr.ys, Last(tr.ts), dt, tSpinup).Some?
  {
    QuiescentRunConserves(p, m, sin, dt, tEnd, tSpinup, tr);
    var w := Window(tr.ys, dt);
    assert VolumesNonZero(w) by {
      forall j | 0 <= j < |w| ensures w[j].v != 0.0 {
        assert w[j] == tr.ys[|tr.ys| - |w| + j];
      }
    }
  }

  /** The reference scenario: no tide and no river. Every row of the table
      reports 0 percent volume change, the initial salinity and the mean
      depth. */
  lemma QuiescentScenario(p: Params, m: Model, sin: real -> real, dt: real, tEnd: real, tSpinup: real,
                          tr: Trajectory)
    requires Init(p) == Ok(m) && dt > 0.0 && p.v > 0.0 && p.s >= 0.0
    requires TideIsZero(p) && p.riverFlowRate == 0.0
    requires Follows(m, sin, dt, tEnd, tSpinup, tr)
    ensures VolumesNonZero(tr.ys)
    ensures forall k :: 0 <= k < |tr.ts| ==>
      var r := Output(m, tr)[k];
      r.v == 0.0 && r.s == p.s && r.z == p.z
  {
    QuiescentRunConserves(p, m, sin, dt, tEnd, tSpinup, tr);
    var rows := Output(m, tr);
    assert m.area != 0.0;
    forall k | 0 <= k < |tr.ts| ensures rows[k].v == 0.0 && rows[k].s == p.s && rows[k].z == p.z {
      var r := OutputRow(m, tr.ts[k], tr.ys[k]);
      assert rows[k] == r;
      assert r.s * p.v == p.s * p.v;
      assert r.z * m.area == p.z * m.area;
    }
  }
}
