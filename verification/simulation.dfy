/** The non-isothermal flow simulation: parameter validation, the derived
    scalars of the channel, the closed-form temperature and viscosity profile
    sampled on a uniform grid along the channel, and the summary values.

    Arithmetic is exact over `real`. The transcendental functions are not
    given a definition: they arrive as an `Analysis` record, and a proof that
    needs a law of them assumes it through `Lawful`. */
module FlowSimulation {
  import opened Outcomes

  /** The sixteen input parameters of one simulation run. */
  datatype MathModel = MathModel(
    width: real,               // W, channel width
    depth: real,               // H, channel depth
    length: real,              // L, channel length
    density: real,             // rho
    heatCapacity: real,        // c
    glassTransitionTemp: real, // Tg
    meltingTemp: real,         // T0
    coverSpeed: real,          // Vu
    coverTemp: real,           // Tu
    mu0: real,                 // consistency coefficient
    firstConstantVLF: real,    // C1g
    secondConstantVLF: real,   // C2g
    castingTemp: real,         // Tr, reduction temperature
    flowIndex: real,           // n
    heatTransfer: real,        // alpha_u
    step: real                 // grid step along the channel
  )

  /** What a run reports: the sampled profile and the summary values. */
  datatype ResultModel = ResultModel(
    positions: seq<real>,
    temperatures: seq<real>,
    viscosities: seq<real>,
    productivity: real,
    finalTemperature: real,
    finalViscosity: real
  )

  /** Why a run produces no result. `EmptyProfile`: the grid has no points, so
      reading the last temperature fails. `UnboundedGrid`: the step count is the
      largest `int`, so the loop counter can never exceed it. `DivisionByZero`:
      one of the divisors of the profile is zero. `NonPositiveChi`: chi is zero
      or negative at a grid point, so the logarithm of the temperature formula
      is undefined there. In the last two cases the service carries on with
      infinite or NaN doubles, which exact reals cannot hold; the model reports
      them as errors instead. */
  datatype SimulationError = EmptyProfile | UnboundedGrid | DivisionByZero | NonPositiveChi

  /** `Math.exp`, `Math.log` and `Math.pow`, left uninterpreted. */
  datatype Analysis = Analysis(exp: real -> real, ln: real -> real, pow: (real, real) -> real)

  /** The two laws of the logarithm and the exponential that the profile at the
      channel entrance depends on. */
  ghost predicate Lawful(a: Analysis)
  {
    a.exp(0.0) == 1.0 && forall x :: a.ln(a.exp(x)) == x
  }

  // ---------------------------------------------------------------------
  // Validation
  // ---------------------------------------------------------------------

  /** The check the controller runs before a simulation: the geometry and the
      cover parameters must be positive. */
  function ValidateParameters(m: MathModel): (ok: bool)
    ensures ok ==> m.width != 0.0 && m.depth != 0.0 && m.length != 0.0
  {
    m.width > 0.0 && m.depth > 0.0 && m.length > 0.0
    && m.coverSpeed > 0.0 && m.coverTemp > 0.0
  }

  /** Only the width, depth, length, cover speed and cover temperature take
      part in validation: two models that agree on them validate alike. */
  lemma ValidationIgnoresOtherFields(m1: MathModel, m2: MathModel)
    requires m1.width == m2.width && m1.depth == m2.depth && m1.length == m2.length
    requires m1.coverSpeed == m2.coverSpeed && m1.coverTemp == m2.coverTemp
    ensures ValidateParameters(m1) == ValidateParameters(m2)
  {
  }

  /** A model with a zero or negative step, density or flow index still
      validates. */
  lemma ValidationAdmitsNonPositiveStep(m: MathModel)
    requires m.width > 0.0 && m.depth > 0.0 && m.length > 0.0
    requires m.coverSpeed > 0.0 && m.coverTemp > 0.0
    ensures ValidateParameters(m.(step := 0.0))
    ensures ValidateParameters(m.(step := -m.length, density := 0.0))
  {
  }

  // ---------------------------------------------------------------------
  // Derived scalars
  // ---------------------------------------------------------------------

  /** Average of the melting temperature and Tg + 100. */
  function AverageTemp(m: MathModel): real
  {
    (m.meltingTemp + (m.glassTransitionTemp + 100.0)) / 2.0
  }

  /** Second WLF constant shifted to the reduction temperature. */
  function C2(m: MathModel): real
  {
    m.secondConstantVLF + m.castingTemp - m.glassTransitionTemp
  }

  /** The divisions performed while deriving the scalars are by nonzero values. */
  predicate ScalarsDefined(m: MathModel)
  {
    m.width != 0.0 && m.depth != 0.0 && C2(m) != 0.0
    && C2(m) + (AverageTemp(m) - m.castingTemp) != 0.0
  }

  datatype Scalars = Scalars(
    shapeFactor: real,  // F
    qch: real,          // volumetric flow of the channel
    gamma: real,        // shear rate
    qGamma: real,       // viscous heat generation
    qAlpha: real,       // heat flux through the cover
    averageTemp: real,
    c2: real,
    c1: real,
    b: real             // temperature coefficient of viscosity
  )

  function ShapeFactor(m: MathModel, a: Analysis): real
    requires m.width != 0.0
  {
    0.125 * a.pow(m.depth / m.width, 2.0) - 0.625 * (m.depth / m.width) + 1.0
  }

  function Derive(m: MathModel, a: Analysis): (s: Scalars)
    requires ScalarsDefined(m)
    ensures s.averageTemp == AverageTemp(m) && s.c2 == C2(m)
    ensures s.gamma * m.depth == m.coverSpeed
    ensures s.c1 * s.c2 == m.firstConstantVLF * m.secondConstantVLF
    ensures s.b * (s.c2 + (s.averageTemp - m.castingTemp)) == s.c1
    ensures s.qch == m.depth * m.width * m.coverSpeed * s.shapeFactor / 2.0
  {
    var f := ShapeFactor(m, a);
    var gamma := m.coverSpeed / m.depth;
    var c2 := C2(m);
    var c1 := (m.firstConstantVLF * m.secondConstantVLF) / c2;
    var avg := AverageTemp(m);
    Scalars(
      f,
      (m.depth * m.width * m.coverSpeed / 2.0) * f,
      gamma,
      m.depth * m.width * m.mu0 * a.pow(gamma, m.flowIndex + 1.0),
      m.width * m.heatTransfer * m.coverTemp,
      avg,
      c2,
      c1,
      c1 / (c2 + (avg - m.castingTemp)))
  }

  /** The coefficient of the exponent in the first part of chi. */
  function Denominator1(m: MathModel, s: Scalars): real
  {
    m.width * (1.0 + s.b * m.castingTemp) * m.heatTransfer - s.b * s.qAlpha
  }

  /** rho * c * Q_CH, the heat capacity flow of the channel. */
  function HeatFlow(m: MathModel, s: Scalars): real
  {
    m.density * m.heatCapacity * s.qch
  }

  /** Every division of the computation is by a nonzero value. */
  predicate Computable(m: MathModel, a: Analysis)
  {
    ScalarsDefined(m)
    && Derive(m, a).b != 0.0
    && Denominator1(m, Derive(m, a)) != 0.0
    && HeatFlow(m, Derive(m, a)) != 0.0
  }

  /** Validation lets through a melt of zero density or zero heat capacity,
      yet its heat capacity flow is zero, a divisor of the profile. */
  lemma ValidatedYetNotComputable(m: MathModel, a: Analysis)
    requires ValidateParameters(m)
    requires m.density == 0.0 || m.heatCapacity == 0.0
    ensures !Computable(m, a)
  {
  }

  // ---------------------------------------------------------------------
  // The profile at one point of the channel
  // ---------------------------------------------------------------------

  /** chi at position z, from the derived scalars and the parameters it uses:
      chi = (numerator1 / denominator1) (1 - exp1) + exp2. */
  function ChiFormula(
    a: Analysis, b: real, qGamma: real, width: real, qAlpha: real,
    heatTransfer: real, castingTemp: real, meltingTemp: real,
    z: real, density: real, heatCapacity: real, qch: real): real
    requires b != 0.0 && density * heatCapacity * qch != 0.0
    requires width * (1.0 + b * castingTemp) * heatTransfer - b * qAlpha != 0.0
  {
    var numerator1 := b * qGamma + width * heatTransfer;
    var denominator1 := width * (1.0 + b * castingTemp) * heatTransfer - b * qAlpha;
    var exp1 := a.exp(-denominator1 * z / (density * heatCapacity * qch));
    var part1 := (numerator1 / denominator1) * (1.0 - exp1);
    var numerator2 := width * ((1.0 / b + castingTemp) * heatTransfer - qAlpha) * z;
    var denominator2 := density * heatCapacity * qch;
    var exp2 := a.exp(b * (meltingTemp - castingTemp - (numerator2 / denominator2)));
    part1 + exp2
  }

  /** At z = 0 the first exponential is 1, so the first part vanishes, and the
      second exponent is b (T0 - Tr). */
  lemma ChiFormulaAtEntrance(
    a: Analysis, b: real, qGamma: real, width: real, qAlpha: real,
    heatTransfer: real, castingTemp: real, meltingTemp: real,
    density: real, heatCapacity: real, qch: real)
    requires Lawful(a)
    requires b != 0.0 && density * heatCapacity * qch != 0.0
    requires width * (1.0 + b * castingTemp) * heatTransfer - b * qAlpha != 0.0
    ensures ChiFormula(a, b, qGamma, width, qAlpha, heatTransfer, castingTemp, meltingTemp,
                       0.0, density, heatCapacity, qch)
         == a.exp(b * (meltingTemp - castingTemp))
  {
  }

  /** chi(z) for the model, the argument of the logarithm in the temperature
      formula. */
  function Chi(m: MathModel, a: Analysis, z: real): real
    requires Computable(m, a)
  {
    ChiFormula(a, Derive(m, a).b, Derive(m, a).qGamma, m.width, Derive(m, a).qAlpha,
               m.heatTransfer, m.castingTemp, m.meltingTemp, z, m.density, m.heatCapacity,
               Derive(m, a).qch)
  }

  function TemperatureAt(m: MathModel, a: Analysis, z: real): real
    requires Computable(m, a)
  {
    m.castingTemp + (1.0 / Derive(m, a).b) * a.ln(Chi(m, a, z))
  }

  /** -b (T - Tr), the exponent of the temperature shift of the viscosity. */
  function ViscosityExponent(b: real, t: real, tr: real): real
  {
    -b * (t - tr)
  }

  function ViscosityAt(m: MathModel, a: Analysis, z: real): real
    requires Computable(m, a)
  {
    m.mu0 * a.exp(ViscosityExponent(Derive(m, a).b, TemperatureAt(m, a, z), m.castingTemp))
    * a.pow(Derive(m, a).gamma, m.flowIndex - 1.0)
  }

  /** At the channel entrance chi is exp(b (T0 - Tr)), for the scalars s the
      service derives. */
  lemma ChiAtEntrance(m: MathModel, a: Analysis, s: Scalars)
    requires Computable(m, a) && Lawful(a) && s == Derive(m, a)
    ensures Chi(m, a, 0.0) == a.exp(s.b * (m.meltingTemp - m.castingTemp))
  {
    ChiFormulaAtEntrance(a, s.b, s.qGamma, m.width, s.qAlpha,
                         m.heatTransfer, m.castingTemp, m.meltingTemp, m.density, m.heatCapacity,
                         s.qch);
  }

  /** The melt enters the channel at its melting temperature. */
  lemma TemperatureAtEntrance(m: MathModel, a: Analysis)
    requires Computable(m, a) && Lawful(a)
    ensures TemperatureAt(m, a, 0.0) == m.meltingTemp
  {
    TemperatureAtEntranceOf(m, a, Derive(m, a));
  }

  lemma TemperatureAtEntranceOf(m: MathModel, a: Analysis, s: Scalars)
    requires Computable(m, a) && Lawful(a) && s == Derive(m, a)
    ensures TemperatureAt(m, a, 0.0) == m.meltingTemp
  {
    var d := m.meltingTemp - m.castingTemp;
    ChiAtEntrance(m, a, s);
    assert a.ln(a.exp(s.b * d)) == s.b * d;
    ReciprocalCancels(s.b, d);
  }

  lemma ReciprocalCancels(b: real, d: real)
    requires b != 0.0
    ensures (1.0 / b) * (b * d) == d
  {
    calc {
      (1.0 / b) * (b * d);
      ((1.0 / b) * b) * d;
      { assert (1.0 / b) * b == 1.0; }
      d;
    }
  }

  /** The viscosity at the entrance is mu0 * exp(-b (T0 - Tr)) * gamma^(n-1). */
  lemma ViscosityAtEntrance(m: MathModel, a: Analysis)
    requires Computable(m, a) && Lawful(a)
    ensures ViscosityAt(m, a, 0.0)
         == m.mu0 * a.exp(ViscosityExponent(Derive(m, a).b, m.meltingTemp, m.castingTemp))
            * a.pow(Derive(m, a).gamma, m.flowIndex - 1.0)
  {
    TemperatureAtEntrance(m, a);
  }

  // ---------------------------------------------------------------------
  // The grid
  // ---------------------------------------------------------------------

  const IntMin: int := -0x8000_0000
  const IntMax: int := 0x7FFF_FFFF
  const LongMin: int := -0x8000_0000_0000_0000
  const LongMax: int := 0x7FFF_FFFF_FFFF_FFFF

  /** The outcome of a floating-point division L / step. */
  datatype Quotient = Finite(value: real) | PosInfinity | NegInfinity | NotANumber

  function Divide(x: real, y: real): (q: Quotient)
    ensures y != 0.0 ==> q == Finite(x / y)
    ensures y == 0.0 ==> (q.PosInfinity? <==> x > 0.0) && (q.NegInfinity? <==> x < 0.0)
  {
    if y != 0.0 then Finite(x / y)
    else if x > 0.0 then PosInfinity
    else if x < 0.0 then NegInfinity
    else NotANumber
  }

  /** `Math.round` on a double: the nearest integer with halves rounded up,
      saturated to the `long` range; NaN rounds to 0. */
  function RoundToLong(q: Quotient): (r: int)
    ensures LongMin <= r <= LongMax
    ensures q.Finite? && LongMin <= (q.value + 0.5).Floor <= LongMax ==> r == (q.value + 0.5).Floor
    ensures q.Finite? ==> (r as real) - 0.5 <= q.value || r == LongMin
    ensures q.Finite? ==> q.value < (r as real) + 0.5 || r == LongMax
  {
    match q
    case Finite(x) =>
      var f := (x + 0.5).Floor;
      assert (f as real) <= x + 0.5 < (f as real) + 1.0;
      if f < LongMin then LongMin else if f > LongMax then LongMax else f
    case PosInfinity => LongMax
    case NegInfinity => LongMin
    case NotANumber => 0
  }

  /** The `(int)` cast of a `long`: the low 32 bits read as two's complement. */
  function NarrowToInt(l: int): (r: int)
    ensures IntMin <= r <= IntMax
    ensures (r - l) % 0x1_0000_0000 == 0
    ensures IntMin <= l <= IntMax ==> r == l
  {
    (l - IntMin) % 0x1_0000_0000 + IntMin
  }

  /** `(int) Math.round(length / step)`, the number of grid intervals. */
  function StepsCount(length: real, step: real): (n: int)
    ensures IntMin <= n <= IntMax
  {
    NarrowToInt(RoundToLong(Divide(length, step)))
  }

  /** For a positive step and a grid that fits an `int`, the step count is
      L / step rounded half up, and it is never negative for a positive L. */
  lemma StepsCountRounds(length: real, step: real)
    requires step > 0.0 && length >= 0.0
    requires length / step < IntMax as real
    ensures StepsCount(length, step) == (length / step + 0.5).Floor
    ensures StepsCount(length, step) >= 0
    ensures (StepsCount(length, step) as real) - 0.5 <= length / step < (StepsCount(length, step) as real) + 0.5
  {
  }

  /** A step equal to the channel length gives one interval, two points. */
  lemma StepsCountOfWholeLength(length: real)
    requires length > 0.0
    ensures StepsCount(length, length) == 1
  {
    assert length / length == 1.0;
  }

  /** A zero step with a positive length yields +Infinity, which `Math.round`
      saturates to the largest long; its low 32 bits read as -1. */
  lemma StepsCountOfZeroStep(length: real)
    requires length > 0.0
    ensures StepsCount(length, 0.0) == -1
  {
  }

  /** A negative step whose quotient rounds to zero still yields a one-point
      grid, although the channel is never traversed. */
  lemma StepsCountOfLongNegativeStep(length: real, step: real)
    requires length > 0.0 && step < 0.0 && length < -step / 2.0
    ensures StepsCount(length, step) == 0
  {
    var q := length / step;
    assert q * step == length;
    assert (q + 0.5) * step == length + 0.5 * step;
    PositiveFactor(q + 0.5, step);
    assert q < 0.0;
    assert (q + 0.5).Floor == 0;
  }

  lemma PositiveFactor(x: real, y: real)
    requires y < 0.0 && x * y < 0.0
    ensures x > 0.0
  {
  }

  /** The outcome of a run, as a function of the model. */
  function Outcome(m: MathModel): (r: Result<int, SimulationError>)
    ensures r.Success? ==> 0 <= r.value < IntMax && r.value == StepsCount(m.length, m.step)
    ensures r == Failure(EmptyProfile) <==> StepsCount(m.length, m.step) < 0
  {
    var n := StepsCount(m.length, m.step);
    if n < 0 then Failure(EmptyProfile)
    else if n == IntMax then Failure(UnboundedGrid)
    else Success(n)
  }

  // ---------------------------------------------------------------------
  // A run
  // ---------------------------------------------------------------------

  /** The k-th grid point of a run, k steps down the channel. */
  function GridPoint(m: MathModel, k: int): real
  {
    (k as real) * m.step
  }

  /** chi is positive at every grid point z = k * step, k = 0 .. n, so that
      `Math.log(chi)` is a real number at each of them. */
  predicate ChiPositiveOnGrid(m: MathModel, a: Analysis, n: int)
    requires Computable(m, a)
  {
    forall k: int :: 0 <= k <= n ==> Chi(m, a, GridPoint(m, k)) > 0.0
  }

  /** A one-point grid samples only the entrance, where chi is
      exp(b (T0 - Tr)): its logarithm is defined whenever the exponential only
      takes positive values, as `Math.exp` does. */
  lemma EntranceGridChiPositive(m: MathModel, a: Analysis)
    requires Computable(m, a) && Lawful(a)
    requires forall x :: a.exp(x) > 0.0
    ensures ChiPositiveOnGrid(m, a, 0)
  {
    var s := Derive(m, a);
    ChiAtEntrance(m, a, s);
    forall k: int | 0 <= k <= 0
      ensures Chi(m, a, GridPoint(m, k)) > 0.0
    {
      assert GridPoint(m, k) == 0.0;
    }
  }

  /** The profile sampled on the grid: index-aligned positions, temperatures
      and viscosities, where the k-th position is k * step and each sample is
      the closed-form value at its own position. */
  predicate IsProfile(m: MathModel, a: Analysis, ps: seq<real>, ts: seq<real>, vs: seq<real>)
    requires Computable(m, a)
  {
    && |ts| == |ps| && |vs| == |ps|
    && forall k :: 0 <= k < |ps| ==>
         && ps[k] == (k as real) * m.step
         && ts[k] == TemperatureAt(m, a, ps[k])
         && vs[k] == ViscosityAt(m, a, ps[k])
  }

  /** Every position of a profile sampled on a grid where chi is positive
      has a positive chi. */
  lemma ProfileChiPositive(m: MathModel, a: Analysis, ps: seq<real>, ts: seq<real>, vs: seq<real>, n: int)
    requires Computable(m, a) && IsProfile(m, a, ps, ts, vs)
    requires |ps| == n + 1 && ChiPositiveOnGrid(m, a, n)
    ensures forall k :: 0 <= k < |ps| ==> Chi(m, a, ps[k]) > 0.0
  {
    forall k | 0 <= k < |ps|
      ensures Chi(m, a, ps[k]) > 0.0
    {
      assert ps[k] == GridPoint(m, k);
    }
  }

  /** The loop of a run: samples the grid points i = 0 .. stepsCount. */
  method SampleGrid(m: MathModel, a: Analysis, stepsCount: int)
    returns (positions: seq<real>, temperatures: seq<real>, viscosities: seq<real>)
    requires Computable(m, a) && stepsCount < IntMax
    ensures |positions| == if stepsCount < 0 then 0 else stepsCount + 1
    ensures IsProfile(m, a, positions, temperatures, viscosities)
  {
    positions, temperatures, viscosities := [], [], [];
    var i := 0;
    while i <= stepsCount
      invariant 0 <= i <= (if stepsCount < 0 then 0 else stepsCount + 1)
      invariant |positions| == i
      invariant IsProfile(m, a, positions, temperatures, viscosities)
    {
      var z := (i as real) * m.step;
      positions := positions + [z];
      var temperature := TemperatureAt(m, a, z);
      temperatures := temperatures + [temperature];
      var viscosity := ViscosityAt(m, a, z);
      viscosities := viscosities + [viscosity];
      i := i + 1;
    }
  }

  /** One simulation run: derives the scalars, samples the profile at
      z = i * step for i = 0 .. stepsCount, and reports the productivity and
      the values at the last grid point. A model with a zero divisor, or with
      chi not positive at a grid point, gets no profile unless its grid is
      empty, where the read of the last point fails first. */
  method RunSimulation(m: MathModel, a: Analysis) returns (r: Result<ResultModel, SimulationError>)
    ensures Outcome(m).Failure? ==> r == Failure(Outcome(m).error)
    ensures Outcome(m).Success? && !Computable(m, a) ==> r == Failure(DivisionByZero)
    ensures Outcome(m).Success? && Computable(m, a) && !ChiPositiveOnGrid(m, a, StepsCount(m.length, m.step))
            ==> r == Failure(NonPositiveChi)
    ensures r.Success? <==> Outcome(m).Success? && Computable(m, a)
                            && ChiPositiveOnGrid(m, a, StepsCount(m.length, m.step))
    ensures r.Success? ==>
      && Computable(m, a)
      && (forall k :: 0 <= k < |r.value.positions| ==> Chi(m, a, r.value.positions[k]) > 0.0)
      && |r.value.positions| == StepsCount(m.length, m.step) + 1
      && IsProfile(m, a, r.value.positions, r.value.temperatures, r.value.viscosities)
      && r.value.productivity == 3600.0 * m.density * Derive(m, a).qch
      && r.value.finalTemperature == r.value.temperatures[|r.value.temperatures| - 1]
      && r.value.finalViscosity == r.value.viscosities[|r.value.viscosities| - 1]
  {
    var stepsCount := StepsCount(m.length, m.step);
    if stepsCount == IntMax {
      return Failure(UnboundedGrid);
    }
    if !Computable(m, a) {
      return if stepsCount < 0 then Failure(EmptyProfile) else Failure(DivisionByZero);
    }
    if !ChiPositiveOnGrid(m, a, stepsCount) {
      return Failure(NonPositiveChi);
    }
    var s := Derive(m, a);
    var positions, temperatures, viscosities := SampleGrid(m, a, stepsCount);
    if |temperatures| == 0 {
      assert Outcome(m) == Failure(EmptyProfile);
      return Failure(EmptyProfile);
    }
    assert Outcome(m) == Success(stepsCount);
    ProfileChiPositive(m, a, positions, temperatures, viscosities, stepsCount);
    var productivity := 3600.0 * m.density * s.qch;
    r := Success(ResultModel(positions, temperatures, viscosities, productivity,
                             temperatures[|temperatures| - 1], viscosities[|viscosities| - 1]));
  }

  /** With a positive step the grid positions strictly increase, start at the
      entrance and are evenly spaced. */
  lemma PositionsIncrease(positions: seq<real>, step: real)
    requires step > 0.0
    requires forall i :: 0 <= i < |positions| ==> positions[i] == (i as real) * step
    ensures |positions| > 0 ==> positions[0] == 0.0
    ensures forall i, j :: 0 <= i < j < |positions| ==> positions[i] < positions[j]
    ensures forall i :: 0 < i < |positions| ==> positions[i] - positions[i - 1] == step
  {
    forall i, j | 0 <= i < j < |positions|
      ensures positions[i] < positions[j]
    {
      assert positions[j] - positions[i] == ((j - i) as real) * step;
    }
  }

  /** A sampled profile starts at the channel entrance with the melting
      temperature. */
  lemma ProfileStartsAtMeltingTemp(m: MathModel, a: Analysis, ps: seq<real>, ts: seq<real>, vs: seq<real>)
    requires Computable(m, a) && Lawful(a)
    requires IsProfile(m, a, ps, ts, vs) && |ps| > 0
    ensures ps[0] == 0.0 && ts[0] == m.meltingTemp
  {
    assert ps[0] == 0.0 * m.step;
    TemperatureAtEntrance(m, a);
  }
}
