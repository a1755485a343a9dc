/** Properties of every trajectory the marching loop of run_model records:
    how many rows it has, that it is determined by its inputs, which
    productivity scale each step used, and that its states are admissible. */
module Runs {
  import opened Outcomes
  import opened EstuaryState
  import opened EstuaryModel
  import opened Integrator

  /** Termination and row count: a completed run has one row for time 0 and
      one per step, ceil(tEnd/dt) steps when tEnd is positive and none
      otherwise. */
  lemma RowCount(m: Model, sin: real -> real, dt: real, tEnd: real, tSpinup: real, tr: Trajectory)
    requires dt > 0.0 && Follows(m, sin, dt, tEnd, tSpinup, tr)
    requires Last(tr.ts) >= tEnd
    ensures |tr.ts| == |tr.ys| == if tEnd <= 0.0 then 1 else Ceil(tEnd / dt) + 1
  {
    var n := |tr.ts| - 1;
    assert tr.ts[n] == n as real * dt;
    if n > 0 {
      assert tr.ts[0] == 0.0 && tr.ts[0] < tEnd;
      assert tr.ts[n - 1] == (n - 1) as real * dt && tr.ts[n - 1] < tEnd;
      QuotientBounds(tEnd, dt, (n - 1) as real, n as real);
      CeilUnique(tEnd / dt, n);
    }
  }

  /** A ten-day run with hourly steps has 241 rows, the last at hour 240. */
  lemma TenDayHourlyRun(m: Model, sin: real -> real, tSpinup: real, tr: Trajectory)
    requires Follows(m, sin, 1.0, 240.0, tSpinup, tr)
    requires Last(tr.ts) >= 240.0
    ensures |tr.ts| == 241
    ensures Last(tr.ts) == 240.0
  {
    RowCount(m, sin, 1.0, 240.0, tSpinup, tr);
    CeilUnique(240.0 / 1.0, 240);
  }

  /** Two recorded trajectories agree on every row they both have. */
  lemma {:induction false} FollowsAgree(m: Model, sin: real -> real, dt: real, tEnd: real, tSpinup: real,
                                       a: Trajectory, b: Trajectory, k: nat)
    requires dt > 0.0
    requires Follows(m, sin, dt, tEnd, tSpinup, a) && Follows(m, sin, dt, tEnd, tSpinup, b)
    requires k < |a.ys| && k < |b.ys|
    ensures a.ys[..k + 1] == b.ys[..k + 1]
    decreases k
  {
    if k == 0 {
      assert a.ys[..1] == [m.y0] == b.ys[..1];
    } else {
      FollowsAgree(m, sin, dt, tEnd, tSpinup, a, b, k - 1);
      assert StepRecorded(m, sin, dt, tSpinup, a, k);
      assert StepRecorded(m, sin, dt, tSpinup, b, k);
      assert a.ts[k - 1] == b.ts[k - 1];
      assert a.ys[..k + 1] == a.ys[..k] + [a.ys[k]];
      assert b.ys[..k + 1] == b.ys[..k] + [b.ys[k]];
    }
  }

  /** Determinism: the parameters and run controls fix the completed
      trajectory uniquely. */
  lemma RunDeterministic(m: Model, sin: real -> real, dt: real, tEnd: real, tSpinup: real,
                         a: Trajectory, b: Trajectory)
    requires dt > 0.0
    requires Follows(m, sin, dt, tEnd, tSpinup, a) && Last(a.ts) >= tEnd
    requires Follows(m, sin, dt, tEnd, tSpinup, b) && Last(b.ts) >= tEnd
    ensures a == b
  {
    RowCount(m, sin, dt, tEnd, tSpinup, a);
    RowCount(m, sin, dt, tEnd, tSpinup, b);
    var n := |a.ys|;
    FollowsAgree(m, sin, dt, tEnd, tSpinup, a, b, n - 1);
    assert a.ys == a.ys[..n] && b.ys == b.ys[..n];
    assert forall k :: 0 <= k < n ==> a.ts[k] == b.ts[k];
  }

  /** The number of rows the feedback averages over at row k: the window
      length, or all k rows recorded so far when there are fewer. */
  function WindowRows(dt: real, k: nat): (n: nat)
    requires dt > 0.0
    ensures n <= k && (k >= 1 ==> n >= 1)
  {
    if WindowLength(dt) < k then WindowLength(dt) else k
  }

  /** Row k is the clamped Euler update of row k - 1, with the derivative
      taken at the time of row k and the scale computed from rows 0..k-1. */
  lemma RecordedStep(m: Model, sin: real -> real, dt: real, tEnd: real, tSpinup: real, tr: Trajectory, k: nat)
    requires dt > 0.0 && Follows(m, sin, dt, tEnd, tSpinup, tr)
    requires 1 <= k < |tr.ys|
    ensures tr.ts[k] == tr.ts[k - 1] + dt
    ensures tr.ys[k - 1].v != 0.0
    ensures ProductivityScale(m, tr.ys[..k], tr.ts[k - 1], dt, tSpinup).Some?
    ensures tr.ys[k] == Clamp(Euler(tr.ys[k - 1], dt,
      Ode(m, sin, tr.ys[k - 1], tr.ts[k], ProductivityScale(m, tr.ys[..k], tr.ts[k - 1], dt, tSpinup).value)))
  {
    GridStep(tr.ts, dt, k);
    var prefix := tr.ys[..k];
    assert Last(prefix) == tr.ys[k - 1];
    assert StepRecorded(m, sin, dt, tSpinup, tr, k);
  }

  /** Consecutive grid times are dt apart. */
  lemma GridStep(ts: seq<real>, dt: real, k: nat)
    requires OnGrid(ts, dt) && 1 <= k < |ts|
    ensures ts[k] == ts[k - 1] + dt
  {
    assert ts[k] == k as real * dt && ts[k - 1] == (k - 1) as real * dt;
  }

  /** The trailing window seen from row k is rows k - WindowRows(dt, k) .. k - 1. */
  lemma WindowOfPrefix(ys: seq<State>, dt: real, k: nat)
    requires dt > 0.0 && 1 <= k <= |ys|
    ensures Window(ys[..k], dt) == ys[k - WindowRows(dt, k)..k]
  {
  }

  /** Spin-up gating, reproducible from the raw trajectory: a step taken at
      or before the spin-up time uses scale 1; a later step uses the mean N/V
      of the trailing window of rows divided by the ocean nitrogen. Either
      way the derivative is evaluated at the incremented time. */
  lemma SpinupGating(m: Model, sin: real -> real, dt: real, tEnd: real, tSpinup: real, tr: Trajectory, k: nat)
    requires dt > 0.0 && Follows(m, sin, dt, tEnd, tSpinup, tr)
    requires 1 <= k < |tr.ys|
    ensures tr.ys[k - 1].v != 0.0
    ensures tr.ts[k - 1] <= tSpinup ==>
      tr.ys[k] == Clamp(Euler(tr.ys[k - 1], dt, Ode(m, sin, tr.ys[k - 1], tr.ts[k], 1.0)))
    ensures tr.ts[k - 1] > tSpinup ==>
      var w := tr.ys[k - WindowRows(dt, k)..k];
      && m.params.nOcean != 0.0
      && VolumesNonZero(w)
      && tr.ys[k] == Clamp(Euler(tr.ys[k - 1], dt,
           Ode(m, sin, tr.ys[k - 1], tr.ts[k], MeanNConc(w) / m.params.nOcean)))
  {
    RecordedStep(m, sin, dt, tEnd, tSpinup, tr, k);
    WindowOfPrefix(tr.ys, dt, k);
  }

  /** Every recorded state after the first is admissible, and so is the
      first when the initial conditions are. */
  lemma RecordedStatesNonNegative(m: Model, sin: real -> real, dt: real, tEnd: real, tSpinup: real, tr: Trajectory)
    requires dt > 0.0 && Follows(m, sin, dt, tEnd, tSpinup, tr)
    ensures forall k :: 1 <= k < |tr.ys| ==> NonNegative(tr.ys[k])
    ensures NonNegative(m.y0) ==> forall k :: 0 <= k < |tr.ys| ==> NonNegative(tr.ys[k])
  {
    forall k | 1 <= k < |tr.ys| ensures NonNegative(tr.ys[k]) {
      assert StepRecorded(m, sin, dt, tSpinup, tr, k);
    }
  }
}
