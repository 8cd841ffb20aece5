/**
 * IsotropicTempDepHardening: isotropic plasticity whose hardening curve
 * (true stress as a function of plastic strain) depends on temperature.
 * The user lists one stress-strain curve per temperature; at each
 * quadrature point the material finds the two listed temperatures that
 * bracket the current one and blends the two curves linearly.
 */
module TempDepHardening {
  import opened Wrappers
  import opened RealArith

  type FunctionName = string

  /**
   * A PiecewiseLinear stress-strain curve, known only through its value and
   * its derivative at a plastic strain (how they are computed is not modelled).
   */
  datatype Curve = Curve(value: real -> real, timeDerivative: real -> real)

  /** LinearInterpolation::sample: the value at `t` of the table (xs, ys); not modelled. */
  type Sampler = (seq<real>, seq<real>, real) -> real

  /** The data a LinearInterpolation is built from. */
  datatype LinearInterpolation = LinearInterpolation(xs: seq<real>, ys: seq<real>)

  /** The symmetric elasticity tensor handed to the material, with the one case it accepts. */
  datatype ElasticityTensor =
    | SymmIsotropicElasticityTensor(shearModulus: real)
    | OtherSymmElasticityTensor

  datatype SymmTensor = SymmTensor(xx: real, yy: real, zz: real, xy: real, yz: real, zx: real)

  /** Errors raised while constructing the material. */
  datatype ConfigError =
    | TooFewCurves               // fewer than two hardening functions
    | TemperatureCountMismatch   // not one temperature per hardening function
    | TemperaturesNotIncreasing  // temperatures not listed in strictly increasing order
    | FunctionNotFound(name: FunctionName)  // not the name of a PiecewiseLinear function

  /** Errors raised while computing the stress at a quadrature point. */
  datatype MaterialError =
    | NegativeHardeningFraction
    | NotIsotropicElasticity
    | NonPositiveYieldStress

  // ---------------------------------------------------------------------------
  // The temperature table

  /** Each temperature is strictly above the one before it: what the constructor checks. */
  predicate StrictlyIncreasing(temps: seq<real>)
  {
    forall i :: 1 <= i < |temps| ==> temps[i - 1] < temps[i]
  }

  /** The table the constructor accepts for `count` hardening functions. */
  predicate ValidTable(count: nat, temps: seq<real>)
  {
    2 <= count && |temps| == count && StrictlyIncreasing(temps)
  }

  /** Checking neighbours is enough: a strictly increasing table is ordered between any two entries. */
  lemma {:induction false} IncreasingIsOrdered(temps: seq<real>, i: nat, j: nat)
    requires StrictlyIncreasing(temps)
    requires i < j < |temps|
    ensures temps[i] < temps[j]
    decreases j - i
  {
    if i + 1 < j {
      IncreasingIsOrdered(temps, i + 1, j);
    }
  }

  function Last(temps: seq<real>): real
    requires temps != []
  {
    temps[|temps| - 1]
  }

  /** Interval `i` of the table holds `t`: temps[i] <= t < temps[i+1]. */
  predicate InInterval(temps: seq<real>, t: real, i: int)
  {
    0 <= i < |temps| - 1 && temps[i] <= t < temps[i + 1]
  }

  /** How far `t` lies along interval `i`, from 0 at its lower end to 1 at its upper end. */
  function Fraction(temps: seq<real>, i: nat, t: real): real
    requires i + 1 < |temps| && temps[i] < temps[i + 1]
  {
    (t - temps[i]) / (temps[i + 1] - temps[i])
  }

  /** At most one interval of a strictly increasing table holds a temperature. */
  lemma IntervalUnique(temps: seq<real>, t: real, i: int, j: int)
    requires StrictlyIncreasing(temps)
    requires InInterval(temps, t, i) && InInterval(temps, t, j)
    ensures i == j
  {
    if i + 1 < j { IncreasingIsOrdered(temps, i + 1, j); }
    if j + 1 < i { IncreasingIsOrdered(temps, j + 1, i); }
  }

  /** Every temperature from the first entry up to (not including) the last lies in some interval. */
  lemma {:induction false} IntervalExists(temps: seq<real>, t: real) returns (i: nat)
    requires |temps| >= 2 && temps[0] <= t < Last(temps)
    ensures InInterval(temps, t, i)
    decreases |temps|
  {
    if t < temps[1] || |temps| == 2 {
      i := 0;
    } else {
      var k := IntervalExists(temps[1..], t);
      i := k + 1;
    }
  }

  /** Inside an interval the fraction lies in [0, 1), so it is never negative. */
  lemma FractionInUnitInterval(temps: seq<real>, t: real, i: nat)
    requires StrictlyIncreasing(temps) && InInterval(temps, t, i)
    ensures 0.0 <= Fraction(temps, i, t) < 1.0
  {
    DivBelowOne(t - temps[i], temps[i + 1] - temps[i]);
  }

  /** Which curve a temperature selects, and how much of the next curve is blended in. */
  datatype Bracket = Bracket(index: nat, fraction: real)

  /** At or below the first temperature: the first curve alone. */
  const LowerClamp: Bracket := Bracket(0, 0.0)

  /**
   * At or above the last temperature, as the source writes it: index `len - 1`
   * with fraction 1, which makes the blend read a curve one past the end.
   */
  function UpperClampAsWritten(len: nat): Bracket
    requires len >= 2
  {
    Bracket(len - 1, 1.0)
  }

  /**
   * At or above the last temperature, corrected: the last interval with
   * fraction 1, which blends to the last curve alone.
   */
  function UpperClamp(len: nat): Bracket
    requires len >= 2
  {
    Bracket(len - 2, 1.0)
  }

  /**
   * The bracket the search assigns for temperature `t`, given the bracket
   * used for the upper clamp: strictly inside the table, the interval holding
   * `t` and the fraction along it; otherwise the clamp at that end.
   */
  ghost predicate Chooses(temps: seq<real>, t: real, b: Bracket, upper: Bracket)
    requires |temps| >= 2
  {
    if temps[0] < t < Last(temps) then
      InInterval(temps, t, b.index) && temps[b.index] < temps[b.index + 1] && b.fraction == Fraction(temps, b.index, t)
    else if t <= temps[0] then
      b == LowerClamp
    else
      b == upper
  }

  /** The bracket the material uses (with the corrected upper clamp). */
  ghost predicate Selects(temps: seq<real>, t: real, b: Bracket)
    requires |temps| >= 2
  {
    Chooses(temps, t, b, UpperClamp(|temps|))
  }

  /**
   * A selected bracket names two curves that exist, and its fraction lies in
   * [0, 1] (so the "fraction below zero" error cannot be raised).
   */
  lemma SelectedBracketInRange(temps: seq<real>, t: real, b: Bracket)
    requires |temps| >= 2 && StrictlyIncreasing(temps) && Selects(temps, t, b)
    ensures b.index + 1 < |temps|
    ensures 0.0 <= b.fraction <= 1.0
    ensures temps[0] < t < Last(temps) ==> b.fraction < 1.0
  {
    if temps[0] < t < Last(temps) {
      FractionInUnitInterval(temps, t, b.index);
    }
  }

  /** The selection is a function of the temperature: two brackets selected for it are equal. */
  lemma SelectionUnique(temps: seq<real>, t: real, b1: Bracket, b2: Bracket)
    requires |temps| >= 2 && StrictlyIncreasing(temps)
    requires Selects(temps, t, b1) && Selects(temps, t, b2)
    ensures b1 == b2
  {
    if temps[0] < t < Last(temps) {
      IntervalUnique(temps, t, b1.index, b2.index);
    }
  }

  /**
   * As written, every temperature at or above the last one selects index
   * `len - 1`, and the blend then reads hardening function `len`, past the end.
   */
  lemma AsWrittenUpperClampReadsPastEnd(temps: seq<real>, t: real, b: Bracket)
    requires |temps| >= 2 && StrictlyIncreasing(temps) && t >= Last(temps)
    requires Chooses(temps, t, b, UpperClampAsWritten(|temps|))
    ensures b.index + 1 == |temps|
  {
    IncreasingIsOrdered(temps, 0, |temps| - 1);
  }

  /** The two-entry table {20, 100} at 100 degrees: as written, the blend reads function 2 of 2. */
  lemma AsWrittenCounterexample()
    ensures var temps := [20.0, 100.0];
            Chooses(temps, 100.0, Bracket(1, 1.0), UpperClampAsWritten(|temps|)) && 1 + 1 == |temps|
  {
  }

  // ---------------------------------------------------------------------------
  // Blending two curves

  function Min(a: real, b: real): real { if a <= b then a else b }
  function Max(a: real, b: real): real { if a <= b then b else a }

  /**
   * `(1 - f)` of `lo` plus `f` of `hi`: a value between the two, equal to `lo`
   * when f is 0 and to `hi` when f is 1.
   */
  function Blend(lo: real, hi: real, f: real): (r: real)
    requires 0.0 <= f <= 1.0
    ensures Min(lo, hi) <= r <= Max(lo, hi)
    ensures f == 0.0 ==> r == lo
    ensures f == 1.0 ==> r == hi
  {
    var r := 0.0 + (1.0 - f) * lo + f * hi;
    assert r - lo == f * (hi - lo) && hi - r == (1.0 - f) * (hi - lo);
    if lo <= hi then
      MulNonNegative(f, hi - lo); MulNonNegative(1.0 - f, hi - lo); r
    else
      MulNonNegative(f, lo - hi); MulNonNegative(1.0 - f, lo - hi); r
  }

  /**
   * At a listed temperature the blend of the selected curves is exactly the
   * curve listed for it, at the first and last temperature as well (which
   * needs the corrected upper clamp).
   */
  lemma SelectedBlendAtListedTemperature(temps: seq<real>, curves: seq<real -> real>, k: nat, b: Bracket, strain: real)
    requires |temps| >= 2 && StrictlyIncreasing(temps) && |curves| == |temps| && k < |temps|
    requires Selects(temps, temps[k], b)
    ensures b.index + 1 < |curves| && 0.0 <= b.fraction <= 1.0
    ensures Blend(curves[b.index](strain), curves[b.index + 1](strain), b.fraction) == curves[k](strain)
  {
    SelectedBracketInRange(temps, temps[k], b);
    var len := |temps|;
    IncreasingIsOrdered(temps, 0, len - 1);
    if k == 0 {
    } else if k == len - 1 {
    } else {
      IncreasingIsOrdered(temps, 0, k);
      IncreasingIsOrdered(temps, k, len - 1);
      assert InInterval(temps, temps[k], k);
      IntervalUnique(temps, temps[k], b.index, k);
    }
  }

  /**
   * Above the table (at or beyond its last temperature) the blend of the
   * selected curves is the last curve alone, whatever the temperature.
   */
  lemma SelectedBlendAtOrAboveLast(temps: seq<real>, curves: seq<real -> real>, t: real, b: Bracket, strain: real)
    requires |temps| >= 2 && StrictlyIncreasing(temps) && |curves| == |temps| && t >= Last(temps)
    requires Selects(temps, t, b)
    ensures b.index + 1 < |curves| && 0.0 <= b.fraction <= 1.0
    ensures Blend(curves[b.index](strain), curves[b.index + 1](strain), b.fraction) == curves[|curves| - 1](strain)
  {
    SelectedBracketInRange(temps, t, b);
    IncreasingIsOrdered(temps, 0, |temps| - 1);
  }

  /**
   * Below the table (at or before its first temperature) the blend of the
   * selected curves is the first curve alone, whatever the temperature.
   */
  lemma SelectedBlendAtOrBelowFirst(temps: seq<real>, curves: seq<real -> real>, t: real, b: Bracket, strain: real)
    requires |temps| >= 2 && StrictlyIncreasing(temps) && |curves| == |temps| && t <= temps[0]
    requires Selects(temps, t, b)
    ensures b.index + 1 < |curves| && 0.0 <= b.fraction <= 1.0
    ensures Blend(curves[b.index](strain), curves[b.index + 1](strain), b.fraction) == curves[0](strain)
  {
    SelectedBracketInRange(temps, t, b);
    IncreasingIsOrdered(temps, 0, |temps| - 1);
  }

  // ---------------------------------------------------------------------------
  // Construction

  /**
   * The constructor's checks of the table, in its order: at least two
   * curves, one temperature per curve, temperatures strictly increasing.
   */
  method CheckTable(names: seq<FunctionName>, temps: seq<real>) returns (r: Outcome<ConfigError>)
    ensures r == Pass <==> ValidTable(|names|, temps)
    ensures |names| < 2 ==> r == Fail(TooFewCurves)
    ensures 2 <= |names| && |temps| != |names| ==> r == Fail(TemperatureCountMismatch)
    ensures 2 <= |names| && |temps| == |names| && !StrictlyIncreasing(temps) ==> r == Fail(TemperaturesNotIncreasing)
  {
    var len := |names|;
    if len < 2 {
      return Fail(TooFewCurves);
    }
    var lenTemps := |temps|;
    if len != lenTemps {
      return Fail(TemperatureCountMismatch);
    }
    var i := 1;
    while i < lenTemps
      invariant 1 <= i <= lenTemps
      invariant forall k :: 1 <= k < i ==> temps[k - 1] < temps[k]
    {
      if temps[i] <= temps[i - 1] {
        return Fail(TemperaturesNotIncreasing);
      }
      i := i + 1;
    }
    r := Pass;
  }

  /** The hardening functions found for the listed names, and each one's value at zero plastic strain. */
  datatype Resolved = Resolved(curves: seq<Curve>, yieldStresses: seq<real>)

  /**
   * The constructor's loop over the names: looks each one up as a
   * PiecewiseLinear function (`lookup` gives None when there is none) and
   * collects its value at zero plastic strain as the yield stress at that
   * temperature; the first name that does not resolve is an error.
   */
  method ResolveCurves(names: seq<FunctionName>, lookup: FunctionName -> Option<Curve>) returns (r: Result<Resolved, ConfigError>)
    ensures r.Success? <==> forall i :: 0 <= i < |names| ==> lookup(names[i]).Some?
    ensures r.Success? ==> |r.value.curves| == |names| && |r.value.yieldStresses| == |names|
    ensures r.Success? ==> forall i :: 0 <= i < |names| ==>
              lookup(names[i]) == Some(r.value.curves[i]) && r.value.yieldStresses[i] == r.value.curves[i].value(0.0)
    ensures r.Failure? ==> exists i :: 0 <= i < |names| && lookup(names[i]).None? && r.error == FunctionNotFound(names[i]) &&
                                      forall j :: 0 <= j < i ==> lookup(names[j]).Some?
  {
    var curves: seq<Curve> := [];
    var yieldStresses: seq<real> := [];
    var i := 0;
    while i < |names|
      invariant 0 <= i <= |names|
      invariant |curves| == i && |yieldStresses| == i
      invariant forall j :: 0 <= j < i ==> lookup(names[j]) == Some(curves[j]) && yieldStresses[j] == curves[j].value(0.0)
    {
      var f := lookup(names[i]);
      if f.None? {
        return Failure(FunctionNotFound(names[i]));
      }
      curves := curves + [f.value];
      yieldStresses := yieldStresses + [f.value.value(0.0)];
      i := i + 1;
    }
    r := Success(Resolved(curves, yieldStresses));
  }

  // ---------------------------------------------------------------------------
  // The material

  class IsotropicTempDepHardening {
    /** The temperatures the hardening functions are listed at. */
    const temperatures: seq<real>
    /** One stress-strain curve per listed temperature. */
    const hardeningFunctions: seq<Curve>
    /** Yield stress against temperature: each curve's value at zero plastic strain. */
    const interpYieldStress: LinearInterpolation
    const sample: Sampler

    /** The coupled temperature at each quadrature point. */
    var temperature: seq<real>
    /** Stateful properties at each quadrature point, current and from the previous step. */
    var scalarPlasticStrainOld: seq<real>
    var hardeningVariable: seq<real>
    var hardeningVariableOld: seq<real>
    var plasticStrain: seq<SymmTensor>
    var plasticStrainOld: seq<SymmTensor>

    /** The bracket chosen for the current quadrature point. */
    var hfIndex: nat
    var hfFraction: real
    var yieldStress: real
    var shearModulus: real
    var yieldCondition: real

    ghost predicate Valid()
      reads this
    {
      && ValidTable(|hardeningFunctions|, temperatures)
      && interpYieldStress.xs == temperatures
      && |interpYieldStress.ys| == |temperatures|
      && (forall i :: 0 <= i < |temperatures| ==> interpYieldStress.ys[i] == hardeningFunctions[i].value(0.0))
      && |scalarPlasticStrainOld| == |temperature|
      && |hardeningVariable| == |temperature| && |hardeningVariableOld| == |temperature|
      && |plasticStrain| == |temperature| && |plasticStrainOld| == |temperature|
      && hfIndex + 1 < |temperatures| && 0.0 <= hfFraction <= 1.0
    }

    /** The yield stress interpolated at the temperature of quadrature point `qp`. */
    function InterpolatedYieldStress(qp: nat): real
      reads this
      requires qp < |temperature|
    {
      sample(interpYieldStress.xs, interpYieldStress.ys, temperature[qp])
    }

    constructor (temps: seq<real>, resolved: Resolved, sample: Sampler,
                 temperature: seq<real>, scalarPlasticStrainOld: seq<real>,
                 hardeningVariableOld: seq<real>, plasticStrainOld: seq<SymmTensor>)
      requires ValidTable(|resolved.curves|, temps) && |resolved.yieldStresses| == |temps|
      requires forall i :: 0 <= i < |temps| ==> resolved.yieldStresses[i] == resolved.curves[i].value(0.0)
      requires |scalarPlasticStrainOld| == |temperature| && |hardeningVariableOld| == |temperature|
      requires |plasticStrainOld| == |temperature|
      ensures Valid()
      ensures temperatures == temps && hardeningFunctions == resolved.curves && this.sample == sample
      ensures interpYieldStress == LinearInterpolation(temps, resolved.yieldStresses)
      ensures this.temperature == temperature && this.scalarPlasticStrainOld == scalarPlasticStrainOld
      ensures this.hardeningVariableOld == hardeningVariableOld && hardeningVariable == hardeningVariableOld
      ensures this.plasticStrainOld == plasticStrainOld && plasticStrain == plasticStrainOld
      ensures hfIndex == 0 && hfFraction == 0.0
    {
      temperatures := temps;
      hardeningFunctions := resolved.curves;
      interpYieldStress := LinearInterpolation(temps, resolved.yieldStresses);
      this.sample := sample;
      this.temperature := temperature;
      this.scalarPlasticStrainOld := scalarPlasticStrainOld;
      this.hardeningVariableOld := hardeningVariableOld;
      hardeningVariable := hardeningVariableOld;
      this.plasticStrainOld := plasticStrainOld;
      plasticStrain := plasticStrainOld;
      hfIndex, hfFraction := 0, 0.0;
      yieldStress, shearModulus, yieldCondition := 0.0, 0.0, 0.0;
    }

    /**
     * Construction from the parameters: the table checks, then the lookup of
     * every hardening function; the first failed check is the error.
     */
    static method Create(names: seq<FunctionName>, temps: seq<real>, lookup: FunctionName -> Option<Curve>, sample: Sampler,
                         temperature: seq<real>, scalarPlasticStrainOld: seq<real>,
                         hardeningVariableOld: seq<real>, plasticStrainOld: seq<SymmTensor>)
      returns (r: Result<IsotropicTempDepHardening, ConfigError>)
      requires |scalarPlasticStrainOld| == |temperature| && |hardeningVariableOld| == |temperature|
      requires |plasticStrainOld| == |temperature|
      ensures r.Success? <==> ValidTable(|names|, temps) && forall i :: 0 <= i < |names| ==> lookup(names[i]).Some?
      ensures r.Failure? ==> (r.error.FunctionNotFound? <==> ValidTable(|names|, temps))
      ensures |names| < 2 ==> r == Failure(TooFewCurves)
      ensures 2 <= |names| && |temps| != |names| ==> r == Failure(TemperatureCountMismatch)
      ensures 2 <= |names| && |temps| == |names| && !StrictlyIncreasing(temps) ==> r == Failure(TemperaturesNotIncreasing)
      ensures ValidTable(|names|, temps) && r.Failure? ==>
                exists i :: 0 <= i < |names| && lookup(names[i]).None? && r.error == FunctionNotFound(names[i]) &&
                            forall j :: 0 <= j < i ==> lookup(names[j]).Some?
      ensures r.Success? ==> fresh(r.value) && r.value.Valid() && r.value.temperatures == temps
      ensures r.Success? ==> forall i :: 0 <= i < |names| ==> lookup(names[i]) == Some(r.value.hardeningFunctions[i])
      ensures r.Success? ==> r.value.sample == sample
                             && r.value.interpYieldStress.xs == temps
                             && r.value.temperature == temperature
                             && r.value.scalarPlasticStrainOld == scalarPlasticStrainOld
                             && r.value.hardeningVariableOld == hardeningVariableOld && r.value.hardeningVariable == hardeningVariableOld
                             && r.value.plasticStrainOld == plasticStrainOld && r.value.plasticStrain == plasticStrainOld
    {
      var check := CheckTable(names, temps);
      if check.Fail? {
        return Failure(check.error);
      }
      var resolved := ResolveCurves(names, lookup);
      if resolved.Failure? {
        return Failure(resolved.error);
      }
      var m := new IsotropicTempDepHardening(temps, resolved.value, sample, temperature, scalarPlasticStrainOld,
                                             hardeningVariableOld, plasticStrainOld);
      r := Success(m);
    }

    /**
     * Chooses the two curves to blend for quadrature point `qp` and the
     * fraction of the second: a search over the intervals strictly inside the
     * table, clamped at either end.
     */
    method InitializeHardeningFunctions(qp: nat) returns (r: Outcome<MaterialError>)
      requires Valid() && qp < |temperature|
      modifies this`hfIndex, this`hfFraction
      ensures Valid()
      ensures Selects(temperatures, temperature[qp], Bracket(hfIndex, hfFraction))
      ensures r == Pass  // the check for a negative fraction never fails
    {
      var temp := temperature[qp];
      var len := |temperatures|;
      if temp > temperatures[0] && temp < temperatures[len - 1] {
        var i := 0;
        while i < len - 1
          invariant 0 <= i <= len - 1
          invariant hfIndex + 1 < len && 0.0 <= hfFraction <= 1.0
          invariant (exists j :: 0 <= j < i && InInterval(temperatures, temp, j)) ==>
                      InInterval(temperatures, temp, hfIndex) && hfFraction == Fraction(temperatures, hfIndex, temp)
        {
          if temp >= temperatures[i] && temp < temperatures[i + 1] {
            hfIndex := i;
            var tempLo := temperatures[i];
            var tempHi := temperatures[i + 1];
            hfFraction := (temp - tempLo) / (tempHi - tempLo);
            FractionInUnitInterval(temperatures, temp, i);
          }
          i := i + 1;
        }
        var j := IntervalExists(temperatures, temp);
        assert temperatures[hfIndex] < temperatures[hfIndex + 1];
      } else if temp <= temperatures[0] {
        hfIndex := LowerClamp.index;
        hfFraction := LowerClamp.fraction;
      } else if temp >= temperatures[len - 1] {
        // The source assigns index len - 1 here (see UpperClampAsWritten).
        hfIndex := UpperClamp(len).index;
        hfFraction := UpperClamp(len).fraction;
      }
      if hfFraction < 0.0 {
        r := Fail(NegativeHardeningFraction);
      } else {
        r := Pass;
      }
    }

    /** The hardening stress at plastic-strain increment `scalar`: the blended curve, less the yield stress. */
    function ComputeHardeningValue(qp: nat, scalar: real): (stress: real)
      reads this
      requires Valid() && qp < |scalarPlasticStrainOld|
      ensures var strain := scalarPlasticStrainOld[qp] + scalar;
              var lo := hardeningFunctions[hfIndex].value(strain);
              var hi := hardeningFunctions[hfIndex + 1].value(strain);
              && Min(lo, hi) - yieldStress <= stress <= Max(lo, hi) - yieldStress
              && (hfFraction == 0.0 ==> stress == lo - yieldStress)
              && (hfFraction == 1.0 ==> stress == hi - yieldStress)
    {
      var strain := scalarPlasticStrainOld[qp] + scalar;
      var stress := Blend(hardeningFunctions[hfIndex].value(strain), hardeningFunctions[hfIndex + 1].value(strain), hfFraction);
      stress - yieldStress
    }

    /** The slope of the blended curve at the previous step's plastic strain; the increment is not used. */
    function ComputeHardeningDerivative(qp: nat, scalar: real): (derivative: real)
      reads this
      requires Valid() && qp < |scalarPlasticStrainOld|
      ensures var strainOld := scalarPlasticStrainOld[qp];
              var lo := hardeningFunctions[hfIndex].timeDerivative(strainOld);
              var hi := hardeningFunctions[hfIndex + 1].timeDerivative(strainOld);
              && Min(lo, hi) <= derivative <= Max(lo, hi)
              && (hfFraction == 0.0 ==> derivative == lo)
              && (hfFraction == 1.0 ==> derivative == hi)
    {
      var strainOld := scalarPlasticStrainOld[qp];
      Blend(hardeningFunctions[hfIndex].timeDerivative(strainOld), hardeningFunctions[hfIndex + 1].timeDerivative(strainOld), hfFraction)
    }

    /** The derivative is the same whatever plastic-strain increment it is asked about. */
    lemma HardeningDerivativeIgnoresIncrement(qp: nat, scalar1: real, scalar2: real)
      requires Valid() && qp < |scalarPlasticStrainOld|
      ensures ComputeHardeningDerivative(qp, scalar1) == ComputeHardeningDerivative(qp, scalar2)
    {
    }

    /**
     * Once the bracket is selected for a quadrature point sitting at listed
     * temperature `k`, the hardening value follows curve `k` alone.
     */
    lemma HardeningValueAtListedTemperature(qp: nat, scalar: real, k: nat)
      requires Valid() && qp < |temperature| && k < |temperatures| && temperature[qp] == temperatures[k]
      requires Selects(temperatures, temperature[qp], Bracket(hfIndex, hfFraction))
      ensures ComputeHardeningValue(qp, scalar)
                == hardeningFunctions[k].value(scalarPlasticStrainOld[qp] + scalar) - yieldStress
    {
      var curves := seq(|hardeningFunctions|, i requires 0 <= i < |hardeningFunctions| => hardeningFunctions[i].value);
      SelectedBlendAtListedTemperature(temperatures, curves, k, Bracket(hfIndex, hfFraction), scalarPlasticStrainOld[qp] + scalar);
    }

    /** Sets the yield stress from the temperature of quadrature point `qp`; it must be positive. */
    method ComputeYieldStress(qp: nat) returns (r: Outcome<MaterialError>)
      requires Valid() && qp < |temperature|
      modifies this`yieldStress
      ensures Valid()
      ensures yieldStress == InterpolatedYieldStress(qp)
      ensures r == Pass <==> yieldStress > 0.0
      ensures r != Pass ==> r == Fail(NonPositiveYieldStress)
    {
      yieldStress := sample(interpYieldStress.xs, interpYieldStress.ys, temperature[qp]);
      if yieldStress <= 0.0 {
        r := Fail(NonPositiveYieldStress);
      } else {
        r := Pass;
      }
    }

    /**
     * The start of the return-mapping at quadrature point `qp`: takes the shear
     * modulus from the isotropic elasticity tensor, selects the curves, sets the
     * yield stress, computes the yield condition of the trial stress and resets
     * the hardening variable and plastic strain to their old values.
     */
    method ComputeStressInitialize(qp: nat, effectiveTrialStress: real, elasticityTensor: ElasticityTensor)
      returns (r: Outcome<MaterialError>)
      requires Valid() && qp < |temperature|
      modifies this`shearModulus, this`hfIndex, this`hfFraction, this`yieldStress, this`yieldCondition
      modifies this`hardeningVariable, this`plasticStrain
      ensures Valid()
      ensures r == Pass <==> elasticityTensor.SymmIsotropicElasticityTensor? && InterpolatedYieldStress(qp) > 0.0
      ensures !elasticityTensor.SymmIsotropicElasticityTensor? ==> r == Fail(NotIsotropicElasticity) && unchanged(this)
      ensures elasticityTensor.SymmIsotropicElasticityTensor? ==>
                && shearModulus == elasticityTensor.shearModulus
                && Selects(temperatures, temperature[qp], Bracket(hfIndex, hfFraction))
                && yieldStress == InterpolatedYieldStress(qp)
      ensures elasticityTensor.SymmIsotropicElasticityTensor? && r != Pass ==> r == Fail(NonPositiveYieldStress)
      ensures r == Pass ==>
                && yieldCondition == effectiveTrialStress - hardeningVariableOld[qp] - yieldStress
                && hardeningVariable == old(hardeningVariable)[qp := hardeningVariableOld[qp]]
                && plasticStrain == old(plasticStrain)[qp := plasticStrainOld[qp]]
      ensures r != Pass ==> yieldCondition == old(yieldCondition) && hardeningVariable == old(hardeningVariable)
                            && plasticStrain == old(plasticStrain)
    {
      if !elasticityTensor.SymmIsotropicElasticityTensor? {
        return Fail(NotIsotropicElasticity);
      }
      shearModulus := elasticityTensor.shearModulus;
      r := InitializeHardeningFunctions(qp);
      if r == Pass {
        r := ComputeYieldStress(qp);
        if r == Pass {
          yieldCondition := effectiveTrialStress - hardeningVariableOld[qp] - yieldStress;
          hardeningVariable := hardeningVariable[qp := hardeningVariableOld[qp]];
          plasticStrain := plasticStrain[qp := plasticStrainOld[qp]];
        }
      }
    }
  }
}
