/** The extensive state vector of the single-box estuary and the element-wise
    operations the integrator applies to it. */
module EstuaryState {

  /** Extensive state: volume [m3], total salt [kg], total nitrogen and total
      oxygen [mmol]; each mass is a concentration times the volume. */
  datatype State = State(v: real, s: real, n: real, o: real)

  /** Intensive state: salinity [kg/m3], nitrogen and oxygen [mmol/m3]. */
  datatype Conc = Conc(s: real, n: real, o: real)

  /** Every component is physically admissible (not negative). */
  predicate NonNegative(y: State) {
    y.v >= 0.0 && y.s >= 0.0 && y.n >= 0.0 && y.o >= 0.0
  }

  /** Concentrations of a state: the masses divided by its volume. */
  function ToConc(y: State): (c: Conc)
    requires y.v != 0.0
    ensures c.s * y.v == y.s && c.n * y.v == y.n && c.o * y.v == y.o
  {
    Conc(y.s / y.v, y.n / y.v, y.o / y.v)
  }

  /** The extensive state holding concentrations `c` in volume `v`. */
  function FromConc(v: real, c: Conc): (y: State)
    ensures y.v == v
    ensures v != 0.0 ==> ToConc(y) == c
    ensures v == 0.0 ==> y == State(0.0, 0.0, 0.0, 0.0)
  {
    State(v, c.s * v, c.n * v, c.o * v)
  }

  /** Concentration round trip: a state is rebuilt from its volume and its
      concentrations. */
  lemma ConcRoundTrip(y: State)
    requires y.v != 0.0
    ensures FromConc(y.v, ToConc(y)) == y
  {
    var c := ToConc(y);
    assert c.s * y.v == y.s;
    assert c.n * y.v == y.n;
    assert c.o * y.v == y.o;
  }

  /** One explicit (forward) Euler update `y + dt * d`. */
  function Euler(y: State, dt: real, d: State): State {
    State(y.v + dt * d.v, y.s + dt * d.s, y.n + dt * d.n, y.o + dt * d.o)
  }

  /** One component of the clamp: a negative value becomes exactly zero. */
  function ClampComponent(x: real): (r: real)
    ensures r >= 0.0
    ensures r == x || r == 0.0
    ensures x >= 0.0 ==> r == x
  {
    if x < 0.0 then 0.0 else x
  }

  /** Element-wise clamp of a state: every component ends non-negative, and a
      component that was already non-negative keeps its value. */
  function Clamp(y: State): (r: State)
    ensures NonNegative(r)
    ensures y.v >= 0.0 ==> r.v == y.v
    ensures y.s >= 0.0 ==> r.s == y.s
    ensures y.n >= 0.0 ==> r.n == y.n
    ensures y.o >= 0.0 ==> r.o == y.o
    ensures y.v < 0.0 ==> r.v == 0.0
    ensures y.s < 0.0 ==> r.s == 0.0
    ensures y.n < 0.0 ==> r.n == 0.0
    ensures y.o < 0.0 ==> r.o == 0.0
  {
    State(ClampComponent(y.v), ClampComponent(y.s), ClampComponent(y.n), ClampComponent(y.o))
  }

  /** The clamp leaves a state alone exactly when the state is already
      admissible, so clamping twice is clamping once. */
  lemma ClampFixedPoints(y: State)
    ensures Clamp(y) == y <==> NonNegative(y)
    ensures Clamp(Clamp(y)) == Clamp(y)
  {
  }
}
