/** The estuary box model: parameters, the derived quantities the constructor
    infers, and the right-hand side of the system of ODEs (app/estuary.py). */
module EstuaryModel {
  import opened Outcomes
  import opened EstuaryState

  /** numpy's `pi`, the double nearest to the circle constant. */
  const Pi: real := 3.141592653589793

  /** Nitrogen coefficient of the biological source term, 125·16/154. */
  const BioCoefficient: real := 125.0 * 16.0 / 154.0

  /** Oxygen produced per nitrogen consumed by the biological term, 154/16. */
  const Redfield: real := 154.0 / 16.0

  /** Hours per day: gas exchange is given per day and the diurnal cycle
      lasts one day. */
  const HoursPerDay: real := 24.0

  /** Constructor arguments. `tide` gives the tidal transport [m3/hr] at a
      time in hours, positive for inflow and negative for outflow. */
  datatype Params = Params(
    v: real, s: real, n: real, o: real,
    z: real,
    tide: real -> real,
    riverFlowRate: real, nRiver: real, oRiver: real,
    sOcean: real, nOcean: real, oOcean: real,
    g: real, p: real)

  /** A constructed model: its arguments and the parameters inferred from
      them (initial extensive state, initial volume, surface area, flags). */
  datatype Model = Model(
    params: Params,
    y0: State,
    v0: real,
    area: real,
    hasRiver: bool,
    hasTides: bool)

  /** The constructor divides the volume by the depth with Python floats, so
      a zero depth raises instead of producing a model. */
  datatype InitError = ZeroDepth

  /** The default tide: no tidal transport at any time. */
  function NoTide(t: real): real { 0.0 }

  /** The constructor's keyword defaults around the four initial conditions. */
  function DefaultParams(v: real, s: real, n: real, o: real): Params {
    Params(v, s, n, o, 5.0, NoTide, 0.05, 100.0, 231.2, 35.0, 20.0, 231.2, 3.0, 1.0)
  }

  /** The relations between a model's arguments and its inferred fields that
      the rest of the model relies on. */
  predicate WellFormed(m: Model) {
    && m.params.z != 0.0
    && m.v0 == m.params.v
    && m.area * m.params.z == m.params.v
    && m.y0.v == m.params.v
  }

  /** EstuaryModel.__init__: infers the initial extensive state, the initial
      volume, the surface area and the river and tide flags. */
  function Init(p: Params): (r: Result<Model, InitError>)
    ensures r.Err? <==> p.z == 0.0
    ensures r.Ok? ==> WellFormed(r.value) && r.value.params == p
    ensures r.Ok? && p.v != 0.0 ==> ToConc(r.value.y0) == Conc(p.s, p.n, p.o)
    ensures r.Ok? && p.v == 0.0 ==> r.value.y0 == State(0.0, 0.0, 0.0, 0.0)
    ensures r.Ok? ==> (r.value.hasRiver <==> p.riverFlowRate > 0.0)
    ensures r.Ok? ==> (r.value.hasTides <==> p.tide(1.15) != p.tide(1.85))
  {
    if p.z == 0.0 then Err(ZeroDepth)
    else
      Ok(Model(
        params := p,
        y0 := FromConc(p.v, Conc(p.s, p.n, p.o)),
        v0 := p.v,
        area := p.v / p.z,
        hasRiver := p.riverFlowRate > 0.0,
        hasTides := p.tide(1.15) != p.tide(1.85)))
  }

  /** The tide flag is a two-point sample: a tide that is the same at every
      time is never flagged, and a flagged tide takes two different values. */
  lemma TideFlagSamplesTwoTimes(p: Params, m: Model)
    requires Init(p) == Ok(m)
    ensures (forall t :: p.tide(t) == p.tide(0.0)) ==> !m.hasTides
    ensures m.hasTides ==> exists t1, t2 :: p.tide(t1) != p.tide(t2)
  {
    if m.hasTides {
      assert p.tide(1.15) != p.tide(1.85);
    }
  }

  /** With the keyword defaults the model has a river and no tides. */
  lemma DefaultsHaveRiverWithoutTides(v: real, s: real, n: real, o: real)
    ensures Init(DefaultParams(v, s, n, o)).Ok?
    ensures Init(DefaultParams(v, s, n, o)).value.hasRiver
    ensures !Init(DefaultParams(v, s, n, o)).value.hasTides
    ensures Init(DefaultParams(v, s, n, o)).value.area == v / 5.0
  {
  }

  /** Net tidal transport into the box at time `t` [m3/hr]. */
  function TidalFlow(m: Model, t: real): real {
    m.area * m.params.tide(t)
  }

  /** Boundary concentrations of the ocean. */
  function Ocean(m: Model): Conc {
    Conc(m.params.sOcean, m.params.nOcean, m.params.oOcean)
  }

  /** Upwind choice of the concentrations carried by the tide: the ocean's on
      inflow, the estuary's own on outflow or slack water. */
  function TidalSource(m: Model, y: State, t: real): (c: Conc)
    requires y.v != 0.0
    ensures TidalFlow(m, t) > 0.0 ==> c == Ocean(m)
    ensures TidalFlow(m, t) <= 0.0 ==> c == ToConc(y)
  {
    if TidalFlow(m, t) > 0.0 then Ocean(m) else ToConc(y)
  }

  /** Biological production minus respiration J [mmol/m2/day], a diurnal
      forcing scaled by the productivity factor and the feedback scale.
      `sin` stands for numpy's sine. */
  function Biology(m: Model, sin: real -> real, t: real, pScale: real): real {
    pScale * m.params.p * BioCoefficient * sin(2.0 * Pi * (t + 0.75) / HoursPerDay + Pi)
  }

  /** EstuaryModel.estuary_ode: the time derivative of the extensive state at
      time `t`. The volume changes only by tidal transport; salt is diluted by
      the river and carried by the tide; nitrogen and oxygen also feel the
      biological term and oxygen the gas exchange. */
  function Ode(m: Model, sin: real -> real, y: State, t: real, pScale: real): (d: State)
    requires y.v != 0.0
    ensures d.v == m.area * m.params.tide(t)
    ensures m.params.riverFlowRate == 0.0 && m.params.tide(t) == 0.0 ==> d.s == 0.0
  {
    var c := ToConc(y);
    var flow := TidalFlow(m, t);
    var tidal := TidalSource(m, y, t);
    var j := Biology(m, sin, t, pScale);
    var river := m.params.riverFlowRate * m.v0;
    State(
      flow,
      -river * c.s + flow * tidal.s,
      -j * m.area - river * (c.n - m.params.nRiver) + flow * tidal.n,
      j * Redfield * m.area
        + (m.params.g / HoursPerDay) * (m.params.oRiver - c.o) * m.area
        - river * (c.o - m.params.oRiver)
        + flow * tidal.o)
  }
  /** Upwind rule on inflow: the tide brings ocean water, so without a river
      the salt derivative is the flow times the ocean salinity, and neither
      it nor the nitrogen derivative depends on the estuary's own salt or
      nitrogen. */
  lemma InflowCarriesOceanChemistry(m: Model, sin: real -> real, y1: State, y2: State, t: real, pScale: real)
    requires TidalFlow(m, t) > 0.0 && m.params.riverFlowRate == 0.0
    requires y1.v == y2.v && y1.v != 0.0
    ensures Ode(m, sin, y1, t, pScale).s == TidalFlow(m, t) * m.params.sOcean
    ensures Ode(m, sin, y1, t, pScale).s == Ode(m, sin, y2, t, pScale).s
    ensures Ode(m, sin, y1, t, pScale).n == Ode(m, sin, y2, t, pScale).n
  {
    var f := TidalFlow(m, t);
    var j := Biology(m, sin, t, pScale);
    assert TidalSource(m, y1, t) == Ocean(m) == TidalSource(m, y2, t);
    assert Ode(m, sin, y1, t, pScale).s == f * m.params.sOcean == Ode(m, sin, y2, t, pScale).s;
    assert Ode(m, sin, y1, t, pScale).n == -j * m.area + f * m.params.nOcean == Ode(m, sin, y2, t, pScale).n;
  }

  /** Upwind rule on outflow or slack water: the tide carries estuary water
      out, so the ocean boundary concentrations do not enter the derivative
      at all. */
  lemma OutflowIgnoresOcean(m: Model, sin: real -> real, y: State, t: real, pScale: real,
                            s': real, n': real, o': real)
    requires TidalFlow(m, t) <= 0.0 && y.v != 0.0
    ensures var m' := m.(params := m.params.(sOcean := s', nOcean := n', oOcean := o'));
      Ode(m', sin, y, t, pScale) == Ode(m, sin, y, t, pScale)
  {
    var m' := m.(params := m.params.(sOcean := s', nOcean := n', oOcean := o'));
    assert TidalSource(m', y, t) == TidalSource(m, y, t);
  }

  /** On outflow without a river, salt leaves at the estuary's own salinity:
      the salt derivative is the flow times S/V. */
  lemma OutflowCarriesEstuarySalt(m: Model, sin: real -> real, y: State, t: real, pScale: real)
    requires TidalFlow(m, t) <= 0.0 && y.v != 0.0 && m.params.riverFlowRate == 0.0
    ensures Ode(m, sin, y, t, pScale).s == TidalFlow(m, t) * (y.s / y.v)
  {
  }

  /** The biological term moves nitrogen and oxygen in the fixed 16:154
      ratio: changing the productivity scale changes the oxygen derivative
      by -154/16 times the change in the nitrogen derivative. */
  lemma RedfieldCoupling(m: Model, sin: real -> real, y: State, t: real, p1: real, p2: real)
    requires y.v != 0.0
    ensures var d1 := Ode(m, sin, y, t, p1);
            var d2 := Ode(m, sin, y, t, p2);
            && d1.v == d2.v && d1.s == d2.s
            && d1.o - d2.o == -Redfield * (d1.n - d2.n)
  {
  }
}
