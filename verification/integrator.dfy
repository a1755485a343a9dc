/** The fixed-step forward-Euler integrator of EstuaryModel.run_model: the
    productivity feedback after spin-up, one clamped Euler step, and the
    marching loop that records the raw trajectory. */
module Integrator {
  import opened Outcomes
  import opened EstuaryState
  import opened EstuaryModel

  function Last<T>(a: seq<T>): T
    requires |a| >= 1
  {
    a[|a| - 1]
  }

  /** numpy's `ceil` of a real, as an integer: the least integer not below x. */
  function Ceil(x: real): (r: int)
    ensures (r - 1) as real < x <= r as real
  {
    -((-x).Floor)
  }

  /** Only one integer lies in the half-open interval [x, x + 1). */
  lemma CeilUnique(x: real, c: int)
    requires (c - 1) as real < x <= c as real
    ensures Ceil(x) == c
  {
  }

  /** Bounds on a quotient by a positive divisor are the bounds on the
      dividend scaled by the divisor, strict or not, in both directions. */
  lemma QuotientBounds(x: real, d: real, lo: real, hi: real)
    requires d > 0.0
    ensures lo * d < x <==> lo < x / d
    ensures lo * d <= x <==> lo <= x / d
    ensures x <= hi * d <==> x / d <= hi
  {
    assert x / d - lo == (x - lo * d) / d;
    assert hi - x / d == (hi * d - x) / d;
  }

  /** Number of rows in the trailing 24-hour window, `int(ceil(24./dt))`:
      the fewest steps of length dt that span a day. */
  function WindowLength(dt: real): (n: nat)
    requires dt > 0.0
    ensures n >= 1
    ensures (n - 1) as real * dt < HoursPerDay <= n as real * dt
  {
    var q := HoursPerDay / dt;
    var c := Ceil(q);
    QuotientBounds(HoursPerDay, dt, (c - 1) as real, c as real);
    c
  }

  /** numpy's `a[-n:]` for n >= 1: the last n rows, or every row when there
      are fewer than n. */
  function TakeLast<T>(a: seq<T>, n: nat): (w: seq<T>)
    requires n >= 1
    ensures |w| == if n < |a| then n else |a|
    ensures w == a[|a| - |w|..]
  {
    if n < |a| then a[|a| - n..] else a
  }

  /** The stored states the productivity feedback averages over. */
  function Window(ys: seq<State>, dt: real): seq<State>
    requires dt > 0.0
  {
    TakeLast(ys, WindowLength(dt))
  }

  predicate VolumesNonZero(ys: seq<State>) {
    forall k :: 0 <= k < |ys| ==> ys[k].v != 0.0
  }

  /** Sum of the nitrogen concentrations N/V of the rows. */
  function SumNConc(ys: seq<State>): real
    requires VolumesNonZero(ys)
  {
    if |ys| == 0 then 0.0 else ys[0].n / ys[0].v + SumNConc(ys[1..])
  }

  /** Mean nitrogen concentration of the rows, numpy's `mean(N/V)`. */
  function MeanNConc(ys: seq<State>): real
    requires |ys| >= 1 && VolumesNonZero(ys)
  {
    SumNConc(ys) / |ys| as real
  }

  /** A sum of terms that all lie in [lo, hi] lies between |ys|·lo and |ys|·hi. */
  lemma {:induction false} SumNConcBounds(ys: seq<State>, lo: real, hi: real)
    requires VolumesNonZero(ys)
    requires forall k :: 0 <= k < |ys| ==> lo <= ys[k].n / ys[k].v <= hi
    ensures |ys| as real * lo <= SumNConc(ys) <= |ys| as real * hi
  {
    if |ys| > 0 {
      assert VolumesNonZero(ys[1..]) by {
        forall k | 0 <= k < |ys[1..]| ensures ys[1..][k].v != 0.0 {
          assert ys[1..][k] == ys[k + 1];
        }
      }
      forall k | 0 <= k < |ys[1..]| ensures lo <= ys[1..][k].n / ys[1..][k].v <= hi {
        assert ys[1..][k] == ys[k + 1];
      }
      SumNConcBounds(ys[1..], lo, hi);
      var rest := |ys[1..]| as real;
      var head := ys[0].n / ys[0].v;
      assert lo <= head <= hi;
      assert SumNConc(ys) == head + SumNConc(ys[1..]);
      assert |ys| as real * lo == rest * lo + lo;
      assert |ys| as real * hi == rest * hi + hi;
    }
  }

  /** The mean lies between the least and the greatest term. */
  lemma MeanNConcBounds(ys: seq<State>, lo: real, hi: real)
    requires |ys| >= 1 && VolumesNonZero(ys)
    requires forall k :: 0 <= k < |ys| ==> lo <= ys[k].n / ys[k].v <= hi
    ensures lo <= MeanNConc(ys) <= hi
  {
    SumNConcBounds(ys, lo, hi);
    QuotientBounds(SumNConc(ys), |ys| as real, lo, hi);
  }

  /** The productivity scale used for the step taken at time t: 1 until the
      spin-up has passed, then the trailing-window mean of N/V relative to
      the ocean nitrogen. None where that division is by zero. */
  function ProductivityScale(m: Model, ys: seq<State>, t: real, dt: real, tSpinup: real): (r: Option<real>)
    requires dt > 0.0 && |ys| >= 1
    ensures t <= tSpinup ==> r == Some(1.0)
    ensures t > tSpinup ==> (r.Some? <==> m.params.nOcean != 0.0 && VolumesNonZero(Window(ys, dt)))
    ensures t > tSpinup && r.Some? ==> r.value * m.params.nOcean == MeanNConc(Window(ys, dt))
  {
    if t > tSpinup then
      var w := Window(ys, dt);
      if m.params.nOcean != 0.0 && VolumesNonZero(w) then Some(MeanNConc(w) / m.params.nOcean)
      else None
    else
      Some(1.0)
  }

  /** After spin-up the feedback scale lies between the least and greatest
      window concentration relative to the ocean; in particular it is 1 when
      the whole window sits at the ocean nitrogen level. */
  lemma ScaleWithinWindowRange(m: Model, ys: seq<State>, t: real, dt: real, tSpinup: real, lo: real, hi: real)
    requires dt > 0.0 && |ys| >= 1 && t > tSpinup
    requires m.params.nOcean > 0.0 && VolumesNonZero(Window(ys, dt))
    requires forall k :: 0 <= k < |Window(ys, dt)| ==> lo <= Window(ys, dt)[k].n / Window(ys, dt)[k].v <= hi
    ensures ProductivityScale(m, ys, t, dt, tSpinup).Some?
    ensures lo / m.params.nOcean <= ProductivityScale(m, ys, t, dt, tSpinup).value <= hi / m.params.nOcean
    ensures lo == hi == m.params.nOcean ==> ProductivityScale(m, ys, t, dt, tSpinup) == Some(1.0)
  {
    var w := Window(ys, dt);
    var no := m.params.nOcean;
    MeanNConcBounds(w, lo, hi);
    var mean := MeanNConc(w);
    assert ProductivityScale(m, ys, t, dt, tSpinup) == Some(mean / no);
    DivMonotone(lo, mean, no);
    DivMonotone(mean, hi, no);
    if lo == hi == no {
      assert mean == no;
      assert mean / no == 1.0;
    }
  }

  /** Dividing by a positive number keeps order. */
  lemma DivMonotone(a: real, b: real, c: real)
    requires c > 0.0 && a <= b
    ensures a / c <= b / c
  {
    assert b / c - a / c == (b - a) / c;
  }

  /** One clamped Euler step from state y, with the derivative taken at t:
      app/estuary.py:225-229 once the productivity scale is known. */
  function Advance(m: Model, sin: real -> real, y: State, t: real, dt: real, pScale: real): (r: State)
    requires y.v != 0.0
    ensures NonNegative(r)
  {
    Clamp(Euler(y, dt, Ode(m, sin, y, t, pScale)))
  }

  /** One iteration of the marching loop from stored states `ys` at time t:
      the Euler update with the derivative taken at the incremented time
      t + dt, then the clamp. None where the source divides by zero. */
  function Step(m: Model, sin: real -> real, ys: seq<State>, t: real, dt: real, tSpinup: real): (r: Option<State>)
    requires dt > 0.0 && |ys| >= 1
    ensures r.Some? <==> Last(ys).v != 0.0 && ProductivityScale(m, ys, t, dt, tSpinup).Some?
    ensures r.Some? ==> NonNegative(r.value)
    ensures r.Some? ==> r.value == Clamp(Euler(Last(ys), dt,
      Ode(m, sin, Last(ys), t + dt, ProductivityScale(m, ys, t, dt, tSpinup).value)))
  {
    var y := Last(ys);
    match ProductivityScale(m, ys, t, dt, tSpinup)
    case None => None
    case Some(pScale) =>
      if y.v == 0.0 then None else Some(Advance(m, sin, y, t + dt, dt, pScale))
  }

  /** Recorded times and the stack of recorded extensive states. */
  datatype Trajectory = Trajectory(ts: seq<real>, ys: seq<State>)

  /** Times 0, dt, 2·dt, ... */
  predicate OnGrid(ts: seq<real>, dt: real) {
    forall k :: 0 <= k < |ts| ==> ts[k] == k as real * dt
  }

  /** Row k of the trajectory is one Step from the rows before it, taken at
      the time of row k - 1. */
  predicate StepRecorded(m: Model, sin: real -> real, dt: real, tSpinup: real, tr: Trajectory, k: int)
    requires dt > 0.0 && |tr.ts| == |tr.ys| && 1 <= k < |tr.ys|
  {
    Step(m, sin, tr.ys[..k], tr.ts[k - 1], dt, tSpinup) == Some(tr.ys[k])
  }

  /** A trajectory the loop can have recorded: it starts at the initial
      condition at time 0, times advance by dt, every time but the last is
      before the end time, and each state is one Step from those before it. */
  predicate Follows(m: Model, sin: real -> real, dt: real, tEnd: real, tSpinup: real, tr: Trajectory)
    requires dt > 0.0
  {
    && |tr.ts| == |tr.ys| >= 1
    && tr.ys[0] == m.y0
    && OnGrid(tr.ts, dt)
    && (forall k :: 0 <= k < |tr.ts| - 1 ==> tr.ts[k] < tEnd)
    && (forall k :: 1 <= k < |tr.ys| ==> StepRecorded(m, sin, dt, tSpinup, tr, k))
  }

  /** Appending the next grid time keeps the times on the grid. */
  lemma OnGridExtend(ts: seq<real>, dt: real)
    requires |ts| >= 1 && OnGrid(ts, dt)
    ensures OnGrid(ts + [Last(ts) + dt], dt)
  {
    var n := |ts|;
    var ts' := ts + [Last(ts) + dt];
    assert Last(ts) == (n - 1) as real * dt;
    assert ts'[n] == n as real * dt;
    forall k | 0 <= k < n ensures ts'[k] == k as real * dt {
      assert ts'[k] == ts[k];
    }
  }

  /** Recording one more successful step keeps a trajectory one the loop can
      have recorded. */
  lemma FollowsExtend(m: Model, sin: real -> real, dt: real, tEnd: real, tSpinup: real, tr: Trajectory, y: State)
    requires dt > 0.0 && Follows(m, sin, dt, tEnd, tSpinup, tr)
    requires Last(tr.ts) < tEnd
    requires Step(m, sin, tr.ys, Last(tr.ts), dt, tSpinup) == Some(y)
    ensures Follows(m, sin, dt, tEnd, tSpinup, Trajectory(tr.ts + [Last(tr.ts) + dt], tr.ys + [y]))
  {
    var n := |tr.ts|;
    var tr' := Trajectory(tr.ts + [Last(tr.ts) + dt], tr.ys + [y]);
    OnGridExtend(tr.ts, dt);
    forall k | 1 <= k < n
      ensures StepRecorded(m, sin, dt, tSpinup, tr', k)
    {
      assert tr'.ys[..k] == tr.ys[..k];
      assert StepRecorded(m, sin, dt, tSpinup, tr, k);
    }
    assert StepRecorded(m, sin, dt, tSpinup, tr', n) by {
      assert tr'.ys[..n] == tr.ys;
    }
    assert forall k :: 0 <= k < |tr'.ts| - 1 ==> tr'.ts[k] < tEnd;
  }

  /** How a run ended: it reached the end time, or it stopped at the first
      step whose result the source computes as inf or NaN. */
  datatype Run = Completed(tr: Trajectory) | Halted(tr: Trajectory)

  /** A recorded time before the end time leaves room for at least one more
      step under the bound ceil(tEnd/dt). */
  lemma BelowEnd(ts: seq<real>, dt: real, tEnd: real)
    requires dt > 0.0 && |ts| >= 1 && OnGrid(ts, dt) && Last(ts) < tEnd
    ensures |ts| - 1 < Ceil(tEnd / dt)
  {
    var k := |ts| - 1;
    assert k as real * dt < tEnd;
    assert k as real < tEnd / dt by {
      assert tEnd / dt - k as real == (tEnd - k as real * dt) / dt;
    }
  }

  /** The main integration loop of run_model on exact reals. */
  method Integrate(m: Model, sin: real -> real, dt: real, tEnd: real, tSpinup: real) returns (run: Run)
    requires dt > 0.0
    ensures Follows(m, sin, dt, tEnd, tSpinup, run.tr)
    ensures run.Completed? ==> Last(run.tr.ts) >= tEnd
    ensures run.Halted? ==> Last(run.tr.ts) < tEnd
    ensures run.Halted? ==> Step(m, sin, run.tr.ys, Last(run.tr.ts), dt, tSpinup).None?
  {
    var ys := [m.y0];
    var ts := [0.0];
    var t := 0.0;
    while t < tEnd
      invariant Follows(m, sin, dt, tEnd, tSpinup, Trajectory(ts, ys))
      invariant t == Last(ts)
      decreases Ceil(tEnd / dt) - |ts|
    {
      BelowEnd(ts, dt, tEnd);
      var next := Step(m, sin, ys, t, dt, tSpinup);
      if next.None? {
        return Halted(Trajectory(ts, ys));
      }
      FollowsExtend(m, sin, dt, tEnd, tSpinup, Trajectory(ts, ys), next.value);
      ys := ys + [next.value];
      t := t + dt;
      ts := ts + [t];
    }
    return Completed(Trajectory(ts, ys));
  }
}
