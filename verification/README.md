# Estuary box model in Dafny

A model of `EstuaryModel` from `app/estuary.py`, a single-box estuary model.
It tracks four quantities over time: volume V, and the salt, nitrogen and
oxygen held in that volume (S·V, N·V, O·V). The model has three parts:

- **Constructor.** `EstuaryModel.Init` infers the initial extensive state,
  the surface area V/z and the river and tide flags.
- **Right-hand side.** `EstuaryModel.Ode` computes the derivative of the
  state. Its tidal term follows an upwind rule: ocean concentrations on
  inflow, the estuary's own concentrations on outflow or slack water.
- **Run.** `ModelOutput.RunModel` drives `Integrator.Integrate`, the
  fixed-step forward-Euler loop. After spin-up, each step scales
  productivity by the trailing 24-hour mean of N/V relative to the ocean
  nitrogen. Each step clamps negative components to zero. The raw
  trajectory is then shaped into the output table: concentrations, tidal
  height Z, and volume as percent change.

Arithmetic is over Dafny `real`. The tide function is a `real -> real`
field of `Params`. numpy's `sin` is a `real -> real` parameter of the
operations that need it. Both are uninterpreted: no lemma depends on their
values beyond what its hypotheses state. `Pi` is the decimal real
3.141592653589793, the 16 digits numpy prints for its binary64 `pi`.
The two differ by about 1.2e-16, which matters to no lemma because `sin` is
uninterpreted.

Files, one module each: `outcomes.dfy` (`Option`, `Result`), `state.dfy`
(state vector, concentrations, Euler update, clamp), `model.dfy`
(parameters, constructor, right-hand side), `integrator.dfy` (window,
productivity scale, step, loop), `runs.dfy` (row count, determinism, spin-up
gating), `output.dfy` (table, `RunModel`), `conservation.dfy` (conservation
and mixing).

Where the source divides by zero, the model reports that the result is
undefined:

- The constructor divides Python floats, so a zero depth raises
  `ZeroDivisionError`. `Init` returns `Err(ZeroDepth)`.
- The window length `int(ceil(24./dt))` (app/estuary.py:218) also divides
  Python floats. The model only runs with dt > 0, so it has no zero
  divisor there (see `Integrator.Integrate` under "## Left out").
- Every other division is on numpy values and yields inf or NaN without
  raising. This covers a zero volume in the right-hand side, in the trailing
  window or in the output, and a zero ocean nitrogen. `Step` returns `None`
  there, the run halts, and `RunModel` produces no table.

The percent-volume column of the table can be negative (down to −100). So
the non-negativity of the table covers S, N, O and Z only
(`ModelOutput.RowsNonNegative`).

## Model

| member | source | states |
|---|---|---|
| EstuaryState.ToConc | app/estuary.py:150-153 | Each concentration times the volume gives back the extensive mass it came from. |
| EstuaryState.ConcRoundTrip | app/estuary.py:150-153 | A state with non-zero volume is rebuilt exactly from its volume and its concentrations. |
| EstuaryState.Clamp | app/estuary.py:228-229 | After the clamp every component is ≥ 0. A component that was ≥ 0 is unchanged. A negative one becomes exactly 0. Components are clamped independently. |
| EstuaryState.ClampFixedPoints | app/estuary.py:228-229 | The clamp leaves a state unchanged exactly when all its components are ≥ 0, so clamping twice equals clamping once. |
| EstuaryModel.Init | app/estuary.py:96-101 | Construction fails exactly when the depth is 0. Otherwise: area·z = V, V0 = V, y0 holds volume V at concentrations (S, N, O), or is all zero when V = 0. has_river ⇔ river_flow_rate > 0. has_tides ⇔ tide(1.15) ≠ tide(1.85). |
| EstuaryModel.TideFlagSamplesTwoTimes | app/estuary.py:101 | A constant tide is never flagged. A flagged tide takes two different values. |
| EstuaryModel.DefaultsHaveRiverWithoutTides | app/estuary.py:69-101 | With the keyword defaults the model builds, has a river, has no tides, and has area V/5. |
| EstuaryModel.TidalSource | app/estuary.py:155-165 | On inflow (area·tide(t) > 0) the tide carries the ocean's S, N, O. Otherwise it carries the estuary's own S/V, N/V, O/V. |
| EstuaryModel.Ode | app/estuary.py:167-181 | dV/dt equals area·tide(t). With no river and no tide at t, dS/dt = 0. |
| EstuaryModel.InflowCarriesOceanChemistry | app/estuary.py:155-174 | On inflow with no river, dS/dt is flow·S_ocean. Two states with the same volume get the same dS/dt and dN/dt, whatever salt and nitrogen they hold. |
| EstuaryModel.OutflowIgnoresOcean | app/estuary.py:155-179 | On outflow or slack water, changing the ocean S, N, O leaves the whole derivative unchanged. |
| EstuaryModel.OutflowCarriesEstuarySalt | app/estuary.py:161-170 | On outflow with no river, dS/dt is flow·(S/V). |
| EstuaryModel.RedfieldCoupling | app/estuary.py:147-179 | Changing the productivity scale leaves dV/dt and dS/dt unchanged. It changes dO/dt by −154/16 times the change in dN/dt. |
| Integrator.Ceil | app/estuary.py:218 | The result is the least integer not below x. |
| Integrator.WindowLength | app/estuary.py:218 | The window has n ≥ 1 steps, and n is the fewest steps of length dt that cover 24 hours: (n−1)·dt < 24 ≤ n·dt. |
| Integrator.TakeLast | app/estuary.py:220 | numpy's `a[-n:]` is the suffix of length min(n, \|a\|). |
| Integrator.MeanNConcBounds | app/estuary.py:220 | The mean of N/V over the window lies between any lower and upper bound of its terms. |
| Integrator.ProductivityScale | app/estuary.py:215-222 | The scale is exactly 1 when t ≤ t_spinup. Otherwise it is defined exactly when N_ocean ≠ 0 and no window volume is 0, and then scale·N_ocean is the window mean of N/V. |
| Integrator.ScaleWithinWindowRange | app/estuary.py:215-222 | After spin-up the scale lies between the least and the greatest window concentration divided by N_ocean. It is 1 when the whole window sits at N_ocean. |
| Integrator.Step | app/estuary.py:212-229 | A step is defined exactly when the last volume is non-zero and the scale is defined. Its result is ≥ 0 and equals the clamped Euler update, with the derivative evaluated at the incremented time t + dt. |
| Integrator.FollowsExtend | app/estuary.py:224-233 | Appending one defined step, at time t + dt, keeps the trajectory one the loop can produce. |
| Integrator.Integrate | app/estuary.py:205-235 | The loop terminates for dt > 0. Times are 0, dt, 2·dt, …, with as many times as states. The first state is y0. Each later state is one Step from those before it. Every time but the last is < t_end. A completed run ends at a time ≥ t_end. A halted run ends before t_end at an undefined step. |
| Runs.RowCount | app/estuary.py:209-235 | A completed run has 1 row when t_end ≤ 0, and ceil(t_end/dt) + 1 rows otherwise. |
| Runs.TenDayHourlyRun | app/estuary.py:209-235 | With dt = 1 and t_end = 240 the run has 241 rows, and the last time is 240. |
| Runs.RunDeterministic | app/estuary.py:205-235 | Two completed runs with the same model and run controls are identical. |
| Runs.RecordedStep | app/estuary.py:224-233 | Row k is the clamped Euler update of row k−1, at time t_{k−1} + dt, with the scale computed from rows 0..k−1. |
| Runs.SpinupGating | app/estuary.py:215-226 | A step from time ≤ t_spinup uses scale 1. A later step uses the mean N/V of the last min(ceil(24/dt), k) rows divided by N_ocean, which is then non-zero. |
| Runs.RecordedStatesNonNegative | app/estuary.py:228-232 | Every recorded state after the first is ≥ 0 in all components. The first one is too, when the initial conditions are. |
| ModelOutput.OutputRow | app/estuary.py:244-253 | Output S, N, O times the raw V give the raw masses. Z·area equals the raw V. V0·(100 + V%) equals 100·V. |
| ModelOutput.RowRoundTrip | app/estuary.py:244-253 | The raw state is recovered from its row. Z agrees with the percent column, because Z is computed from the raw V before that column is rewritten. |
| ModelOutput.Output | app/estuary.py:237-253 | The table has one row per recorded time, in order. Row k is computed from state k at time k. |
| ModelOutput.FirstRowIsInitialCondition | app/estuary.py:244-253 | The first row is time 0, V% = 0, the initial S, N, O, and Z = z. |
| ModelOutput.RowsNonNegative | app/estuary.py:228-253 | When every recorded state is ≥ 0 and the initial V and z are positive, the table's S, N, O, Z are ≥ 0 and V% ≥ −100. |
| ModelOutput.RunModel | app/estuary.py:183-255 | The raw trajectory is one the loop produces. A table is returned exactly when the run reached t_end with no zero volume, and it is then the output transform of that trajectory. |
| Integrator.Advance | app/estuary.py:224-229 | A clamped Euler step yields a non-negative state. `Step` takes its value from this function. |
| Conservation.ZeroTideKeepsVolume | app/estuary.py:156-168 | Where the tide is zero, a step from a positive volume keeps the volume. |
| Conservation.NoForcingKeepsSalt | app/estuary.py:157-170 | With no river and no tide, a step keeps the salt mass S·V. |
| Conservation.OutflowKeepsSalinity | app/estuary.py:161-170 | On outflow with no river, while the volume stays positive, a step keeps the salinity S/V. |
| Conservation.InflowMixesTowardOcean | app/estuary.py:157-170 | On inflow with no river, a step increases the volume and moves S/V to a value between its old value and S_ocean. |
| Conservation.QuiescentRunConserves | app/estuary.py:209-235 | With a zero tide, every recorded volume equals the initial volume. With no river too, every recorded salt mass equals the initial one. |
| Conservation.QuiescentRunCompletes | app/estuary.py:209-235 | With a zero tide, a positive volume and N_ocean ≠ 0, no step is undefined, so the run reaches t_end. |
| Conservation.QuiescentScenario | app/estuary.py:237-253 | With no tide and no river, every row reports V% = 0, S equal to the initial salinity, and Z = z. |

## Left out

- `quick_plot` and the matplotlib/seaborn styling: plotting only.
- `basic_tidal_flow`: the tide is an arbitrary function of time here, and a sine of floats is not modelled.
- `__call__`: it forwards to `model_ode`, which does not exist, so it has no behaviour to model.
- The Bokeh apps (`app/main.py`, `main.py`), `app/client.py`, `bokeh_test.py`, `quick.py`: user interface, server and demo scripts.
- pandas `DataFrame`/`Index`: the table is a sequence of `Row` values, with the time as a field.
- The unused counter `i` in `run_model`: it does not affect any result.
- Floating-point rounding: times are exact multiples k·dt, where the source accumulates `t += dt` in floats. For a dt that is not exactly representable, the float loop can take one step more or less than the exact count in `Runs.RowCount`.
- Integrator.WindowLength: takes the exact ceiling of 24/dt. The source takes the ceiling of the rounded float quotient. For the double nearest 0.3, the exact quotient is 80.0000000000000029…, so the model gives 81 rows. The source computes `24./0.3 == 80.0` and gives 80.
- Integrator.Integrate: requires dt > 0. The source accepts any dt. With t_end ≤ 0 it returns the single initial row for every dt. With dt ≤ 0 < t_end, `t += dt` (app/estuary.py:225) never reaches t_end, so `while t < t_end` (line 211) never ends. If t_spinup < 0 as well, the first step raises `ZeroDivisionError` at `24./dt` (line 218) when dt = 0.
- ModelOutput.RunModel: requires dt > 0, for the reason given for `Integrator.Integrate`. Every call site in the repository passes dt = 1.0 or 0.5.
- numpy's summation order in `mean`: the mean is exact.
- EstuaryState.ToConc: requires a non-zero volume. The source divides anyway and gets inf or NaN.
- EstuaryModel.TidalSource: requires a non-zero volume, for the same reason.
- EstuaryModel.Ode: requires a non-zero volume, for the same reason. `Step` reports such a step as undefined rather than continuing with NaN.
- Integrator.Step: returns `None` where the source would continue with inf or NaN (a zero volume, or a zero `N_ocean` after spin-up). The run stops there instead of recording non-finite rows.
- ModelOutput.OutputRow: requires a non-zero volume and initial volume, where the source writes inf or NaN into the table.
- ModelOutput.Output: requires non-zero volumes, for the same reason.
- ModelOutput.RunModel: returns no table where the source would return a table containing inf or NaN.
