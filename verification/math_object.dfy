/** The helper formulas of the `MathObject` class, written as they stand, and
    their relation to the derived scalars the simulation service computes.
    All of them agree with the service except the coefficient b. */
module MathObjectFormulas {
  import opened FlowSimulation

  function CalculateC2(secondConstantVLF: real, castingTemperature: real, glassTransitionTemperature: real): real
  {
    secondConstantVLF + castingTemperature - glassTransitionTemperature
  }

  function CalculateC1(firstConstantVLF: real, secondConstantVLF: real, c2: real): real
    requires c2 != 0.0
  {
    firstConstantVLF * secondConstantVLF / c2
  }

  function CalculateF(a: Analysis, h: real, w: real): real
    requires w != 0.0
  {
    0.125 * a.pow(h / w, 2.0) - 0.625 * (h / w) + 1.0
  }

  function CalculateQCH(h: real, w: real, capSpeed: real, f: real): real
  {
    (h * w * capSpeed) / 2.0 * f
  }

  function CalculateGamma(capSpeed: real, h: real): real
    requires h != 0.0
  {
    capSpeed / h
  }

  function CalculateQGamma(a: Analysis, h: real, w: real, consistency: real, gamma: real, flowIndex: real): real
  {
    h * w * consistency * a.pow(gamma, flowIndex + 1.0)
  }

  function CalculateQAlpha(w: real, heatTransfer: real, capTemperature: real): real
  {
    w * heatTransfer * capTemperature
  }

  /** `(int) Math.round(L / step)`, widened back to a double. */
  function CalculateN(length: real, calculationStep: real): real
  {
    NarrowToInt(RoundToLong(Divide(length, calculationStep))) as real
  }

  function CalculateB(secondConstantVLF: real, firstConstantVLF: real, t: real, castingTemperature: real): real
    requires secondConstantVLF != 0.0
  {
    firstConstantVLF / secondConstantVLF + (t - castingTemperature)
  }

  function CalculateT(meltingPoint: real, glassTransitionTemperature: real): real
  {
    (meltingPoint + (glassTransitionTemperature + 100.0)) / 2.0
  }

  /** chi at position zi, computed from the scalars passed in. */
  function CalculateXi(
    a: Analysis, b: real, qGamma: real, w: real, qAlpha: real,
    heatTransfer: real, castingTemperature: real, meltingPoint: real,
    zi: real, density: real, specificHeatCapacity: real, qch: real): real
    requires b != 0.0 && density * specificHeatCapacity * qch != 0.0
    requires w * (1.0 + b * castingTemperature) * heatTransfer - b * qAlpha != 0.0
  {
    var numerator1 := b * qGamma + w * heatTransfer;
    var denominator1 := w * (1.0 + b * castingTemperature) * heatTransfer - b * qAlpha;
    var exp1 := a.exp(-denominator1 * zi / (density * specificHeatCapacity * qch));
    var part1 := (numerator1 / denominator1) * (1.0 - exp1);
    var innerW := w * ((1.0 / b + castingTemperature) * heatTransfer - qAlpha);
    var exp2 := a.exp(b * (meltingPoint - castingTemperature - (innerW * zi / (density * specificHeatCapacity * qch))));
    part1 + exp2
  }

  /** The helpers for C2, C1, F, Q_CH, gamma, q_gamma, q_alpha and the average
      temperature compute the same values as the simulation service. */
  lemma HelpersAgreeWithService(m: MathModel, a: Analysis)
    requires ScalarsDefined(m)
    ensures CalculateC2(m.secondConstantVLF, m.castingTemp, m.glassTransitionTemp) == Derive(m, a).c2
    ensures CalculateC1(m.firstConstantVLF, m.secondConstantVLF, Derive(m, a).c2) == Derive(m, a).c1
    ensures CalculateF(a, m.depth, m.width) == Derive(m, a).shapeFactor
    ensures CalculateQCH(m.depth, m.width, m.coverSpeed, Derive(m, a).shapeFactor) == Derive(m, a).qch
    ensures CalculateGamma(m.coverSpeed, m.depth) == Derive(m, a).gamma
    ensures CalculateQGamma(a, m.depth, m.width, m.mu0, Derive(m, a).gamma, m.flowIndex) == Derive(m, a).qGamma
    ensures CalculateQAlpha(m.width, m.heatTransfer, m.coverTemp) == Derive(m, a).qAlpha
    ensures CalculateT(m.meltingTemp, m.glassTransitionTemp) == Derive(m, a).averageTemp
  {
  }

  /** The helper grid size is the service's step count. */
  lemma GridSizeAgreesWithService(length: real, step: real)
    ensures CalculateN(length, step) == StepsCount(length, step) as real
    ensures step > 0.0 && length >= 0.0 && length / step < IntMax as real
            ==> CalculateN(length, step) == (length / step + 0.5).Floor as real
  {
    if step > 0.0 && length >= 0.0 && length / step < IntMax as real {
      StepsCountRounds(length, step);
    }
  }

  /** The helper chi is the service's chi formula, for any scalars. */
  lemma XiAgreesWithFormula(
    a: Analysis, b: real, qGamma: real, w: real, qAlpha: real,
    heatTransfer: real, castingTemperature: real, meltingPoint: real,
    zi: real, density: real, specificHeatCapacity: real, qch: real)
    requires b != 0.0 && density * specificHeatCapacity * qch != 0.0
    requires w * (1.0 + b * castingTemperature) * heatTransfer - b * qAlpha != 0.0
    ensures CalculateXi(a, b, qGamma, w, qAlpha, heatTransfer, castingTemperature, meltingPoint,
                        zi, density, specificHeatCapacity, qch)
         == ChiFormula(a, b, qGamma, w, qAlpha, heatTransfer, castingTemperature, meltingPoint,
                       zi, density, specificHeatCapacity, qch)
  {
  }

  /** For the scalars the service derives, the helper chi is the service's chi. */
  lemma XiAgreesWithService(m: MathModel, a: Analysis, z: real)
    requires Computable(m, a)
    ensures CalculateXi(a, Derive(m, a).b, Derive(m, a).qGamma, m.width, Derive(m, a).qAlpha,
                        m.heatTransfer, m.castingTemp, m.meltingTemp, z,
                        m.density, m.heatCapacity, Derive(m, a).qch)
         == Chi(m, a, z)
  {
    var s := Derive(m, a);
    XiAgreesWithFormula(a, s.b, s.qGamma, m.width, s.qAlpha, m.heatTransfer, m.castingTemp,
                        m.meltingTemp, z, m.density, m.heatCapacity, s.qch);
  }

  /** At the entrance the helper chi is exp(b (T0 - Tr)). */
  lemma XiAtEntrance(
    a: Analysis, b: real, qGamma: real, w: real, qAlpha: real,
    heatTransfer: real, castingTemperature: real, meltingPoint: real,
    density: real, specificHeatCapacity: real, qch: real)
    requires Lawful(a)
    requires b != 0.0 && density * specificHeatCapacity * qch != 0.0
    requires w * (1.0 + b * castingTemperature) * heatTransfer - b * qAlpha != 0.0
    ensures CalculateXi(a, b, qGamma, w, qAlpha, heatTransfer, castingTemperature, meltingPoint,
                        0.0, density, specificHeatCapacity, qch)
         == a.exp(b * (meltingPoint - castingTemperature))
  {
    XiAgreesWithFormula(a, b, qGamma, w, qAlpha, heatTransfer, castingTemperature, meltingPoint,
                        0.0, density, specificHeatCapacity, qch);
    ChiFormulaAtEntrance(a, b, qGamma, w, qAlpha, heatTransfer, castingTemperature, meltingPoint,
                         density, specificHeatCapacity, qch);
  }

  /** The helper b is not the service's b: with C1g = C2g = 1, Tg = T0 = Tr = 0
      the service derives b = 1/51 while the helper, given the average
      temperature 50, yields 51. */
  lemma CoefficientBDisagrees(a: Analysis)
    ensures var m := MathModel(1.0, 1.0, 1.0, 1.0, 1.0, 0.0, 0.0, 1.0, 1.0, 1.0, 1.0, 1.0, 0.0, 1.0, 1.0, 1.0);
            && ScalarsDefined(m)
            && Derive(m, a).b == 1.0 / 51.0
            && CalculateB(m.secondConstantVLF, m.firstConstantVLF, AverageTemp(m), m.castingTemp) == 51.0
  {
    var m := MathModel(1.0, 1.0, 1.0, 1.0, 1.0, 0.0, 0.0, 1.0, 1.0, 1.0, 1.0, 1.0, 0.0, 1.0, 1.0, 1.0);
    assert AverageTemp(m) == 50.0;
    assert C2(m) == 1.0;
    assert Derive(m, a).c1 == 1.0;
  }
}
