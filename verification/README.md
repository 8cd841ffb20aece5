# Temperature-dependent hardening, feature volume fraction and axisymmetric hoop strain

A Dafny model of three small components of the MOOSE multiphysics framework,
with the properties their code promises proved about the model. `Real` is
modelled as Dafny's exact `real`; a `mooseError` becomes a `Fail`/`Failure`
result (module `Wrappers`), and a debug-build `mooseAssert` a precondition.

- `TempDepHardening` (`temp_dep_hardening.dfy`) models
  `IsotropicTempDepHardening`: an isotropic plasticity material whose
  stress-strain (hardening) curve depends on temperature. The user lists one
  curve per temperature. Construction checks that there are at least two curves,
  one temperature per curve and strictly increasing temperatures, then resolves
  each curve and records its value at zero plastic strain as the yield stress at
  that temperature. At each quadrature point the material searches the table for
  the interval holding the current temperature and blends the two bracketing
  curves linearly, clamping below the first and above the last temperature. The
  curves (`PiecewiseLinear`) and the yield-stress interpolation
  (`LinearInterpolation::sample`) are function values the model does not look
  inside. The material is a class whose methods update its fields, as in the
  source.
- `FeatureVolume` (`feature_volume_fraction.dfy`) models `FeatureVolumeFraction`.
  This postprocessor sums the volumes of the features found by a flood count and
  reports that sum as a fraction of the mesh volume. Its constructor checks the
  Avrami and flood-entity parameters.
- `AxisymmetricRZ` (`axisymmetric_rz_small_strain.dfy`) models
  `ComputeAxisymmetricRZSmallStrain`. Its hoop strain is `u_r / r`, taken as 0
  on the axis. Its set-up check requires every mesh subdomain to use the RZ
  coordinate system.

Contact-penetration detection (`PenetrationLocator`: detection, projection and
segment intersection) is not modelled.

## Model

| member | source | states |
|---|---|---|
| `TempDepHardening.CheckTable` | modules/solid_mechanics/src/materials/IsotropicTempDepHardening.C:37-51 | passes exactly when there are at least two curves, one temperature per curve and every temperature is above the one before; otherwise fails with the first violated check, in the constructor's order |
| `TempDepHardening.ResolveCurves` | modules/solid_mechanics/src/materials/IsotropicTempDepHardening.C:53-64 | succeeds exactly when every name resolves to a PiecewiseLinear curve; then curve i is the one named i and yield stress i is that curve's value at zero plastic strain; otherwise the error names the first name that does not resolve |
| `TempDepHardening.IsotropicTempDepHardening.Create` | modules/solid_mechanics/src/materials/IsotropicTempDepHardening.C:32-70 | construction succeeds exactly when the table is valid and every curve resolves; table errors come before lookup errors; a failure carries the error of the first failed check of lines 38-50 (too few curves, count mismatch, temperatures not increasing) or names the first hardening function that does not resolve (line 58); a constructed material satisfies its invariant and holds the listed temperatures and curves, the sampler and the per-point state it was given |
| `TempDepHardening.IsotropicTempDepHardening.constructor` | modules/solid_mechanics/src/materials/IsotropicTempDepHardening.C:60-69 | stores the curves, builds the yield-stress interpolation from (temperatures, yield stresses) and sets up the per-quadrature-point properties |
| `TempDepHardening.IncreasingIsOrdered` | modules/solid_mechanics/src/materials/IsotropicTempDepHardening.C:46-51 | checking neighbouring temperatures is enough: any earlier temperature is strictly below any later one |
| `TempDepHardening.IntervalUnique` | modules/solid_mechanics/src/materials/IsotropicTempDepHardening.C:93-101 | in a strictly increasing table at most one interval holds a temperature T_i <= temp < T_(i+1), so the search assigns the index at most once |
| `TempDepHardening.IntervalExists` | modules/solid_mechanics/src/materials/IsotropicTempDepHardening.C:91-102 | every temperature from the first entry up to (not including) the last lies in some interval, so the search always assigns an index |
| `TempDepHardening.FractionInUnitInterval` | modules/solid_mechanics/src/materials/IsotropicTempDepHardening.C:98-100 | inside interval i the fraction (temp - T_i) / (T_(i+1) - T_i) lies in [0, 1) |
| `TempDepHardening.SelectedBracketInRange` | modules/solid_mechanics/src/materials/IsotropicTempDepHardening.C:88-118 | a selected bracket names two existing curves and has a fraction in [0, 1] (below 1 strictly inside the table), so the negative-fraction error cannot be raised |
| `TempDepHardening.SelectionUnique` | modules/solid_mechanics/src/materials/IsotropicTempDepHardening.C:88-115 | the selected index and fraction are determined by the temperature: two brackets selected for one temperature are equal |
| `TempDepHardening.AsWrittenUpperClampReadsPastEnd` | modules/solid_mechanics/src/materials/IsotropicTempDepHardening.C:111-129 | as written, every temperature at or above the last one selects index len - 1, so the blend's read of curve index + 1 is past the end of the curve list |
| `TempDepHardening.AsWrittenCounterexample` | modules/solid_mechanics/src/materials/IsotropicTempDepHardening.C:111-114 | the table {20, 100} at temperature 100 selects index 1 as written, and index + 1 = 2 is the number of curves |
| `TempDepHardening.Blend` | modules/solid_mechanics/src/materials/IsotropicTempDepHardening.C:125-129 | the (1 - f, f) blend of two curve values lies between them, equals the first when f = 0 and the second when f = 1 |
| `TempDepHardening.SelectedBlendAtListedTemperature` | modules/solid_mechanics/src/materials/IsotropicTempDepHardening.C:105-129 | at any listed temperature, including the first and the last, the blend of the selected curves is exactly the curve listed for that temperature |
| `TempDepHardening.SelectedBlendAtOrAboveLast` | modules/solid_mechanics/src/materials/IsotropicTempDepHardening.C:111-129 | with the corrected upper clamp, at every temperature at or above the last one the selected bracket stays inside the curve list and its blend is exactly the last curve |
| `TempDepHardening.SelectedBlendAtOrBelowFirst` | modules/solid_mechanics/src/materials/IsotropicTempDepHardening.C:105-129 | at every temperature at or below the first one the blend of the selected curves is exactly the first curve |
| `TempDepHardening.IsotropicTempDepHardening.InitializeHardeningFunctions` | modules/solid_mechanics/src/materials/IsotropicTempDepHardening.C:87-119 | the interval search and end clamps leave the bracket that the selection rule prescribes for the point's temperature (corrected upper clamp), change nothing else, and never raise the negative-fraction error |
| `TempDepHardening.IsotropicTempDepHardening.ComputeHardeningValue` | modules/solid_mechanics/src/materials/IsotropicTempDepHardening.C:121-132 | the hardening value lies between the two bracketing curves at (old plastic strain + increment), minus the yield stress; at fraction 0 or 1 it is the lower or upper curve alone |
| `TempDepHardening.IsotropicTempDepHardening.ComputeHardeningDerivative` | modules/solid_mechanics/src/materials/IsotropicTempDepHardening.C:134-145 | the derivative lies between the two curves' derivatives at the old plastic strain; at fraction 0 or 1 it is one curve's derivative alone |
| `TempDepHardening.IsotropicTempDepHardening.HardeningDerivativeIgnoresIncrement` | modules/solid_mechanics/src/materials/IsotropicTempDepHardening.C:135-137 | the derivative does not depend on the plastic-strain increment it is given |
| `TempDepHardening.IsotropicTempDepHardening.HardeningValueAtListedTemperature` | modules/solid_mechanics/src/materials/IsotropicTempDepHardening.C:122-131 | at a listed temperature the hardening value follows the curve listed for it, minus the yield stress |
| `TempDepHardening.IsotropicTempDepHardening.ComputeYieldStress` | modules/solid_mechanics/src/materials/IsotropicTempDepHardening.C:147-154 | sets the yield stress to the interpolation at the point's temperature and fails exactly when it is not positive |
| `TempDepHardening.IsotropicTempDepHardening.ComputeStressInitialize` | modules/solid_mechanics/src/materials/IsotropicTempDepHardening.C:72-85 | fails with no change when the elasticity tensor is not isotropic; otherwise sets the shear modulus, the selected bracket and the yield stress, and fails exactly when that yield stress is not positive; on success yield condition = trial stress - old hardening variable - yield stress, and the hardening variable and plastic strain at the point are reset to their old values |
| `FeatureVolume.EquilFraction` | modules/phase_field/src/postprocessors/FeatureVolumeFraction.C:17 | the equilibrium fraction is the parameter when given and negative (its default -1) otherwise |
| `FeatureVolume.CheckParameters` | modules/phase_field/src/postprocessors/FeatureVolumeFraction.C:28-32 | passes exactly when (no Avrami file or a non-negative equilibrium fraction) and the flood runs over elements; the Avrami check comes first |
| `FeatureVolume.AvramiFileNeedsEquilFraction` | modules/phase_field/src/postprocessors/FeatureVolumeFraction.C:28-29 | an Avrami file given without an equilibrium fraction always fails construction |
| `FeatureVolume.FeatureVolumeFraction.Create` | modules/phase_field/src/postprocessors/FeatureVolumeFraction.C:23-33 | construction fails exactly when the parameter check fails, with its error; otherwise the new object holds the parameters |
| `FeatureVolume.FeatureVolumeFraction.constructor` | modules/phase_field/src/postprocessors/FeatureVolumeFraction.C:23-27 | stores the mesh volume, the Avrami file and the equilibrium fraction |
| `FeatureVolume.SumAppend` | modules/phase_field/src/postprocessors/FeatureVolumeFraction.C:71-75 | the accumulated total of a concatenation is the sum of the totals of its parts |
| `FeatureVolume.SumBounds` | modules/phase_field/src/postprocessors/FeatureVolumeFraction.C:71-75 | non-negative volumes have a non-negative total at least as large as each volume |
| `FeatureVolume.FractionInUnitInterval` | modules/phase_field/src/postprocessors/FeatureVolumeFraction.C:77 | non-negative volumes over a positive mesh volume give a non-negative fraction; the upper bound 1 holds under the added hypothesis that their total fits in the mesh volume (the source does not check it) |
| `FeatureVolume.FeatureVolumeFraction.CalculateBubbleFraction` | modules/phase_field/src/postprocessors/FeatureVolumeFraction.C:68-78 | the loop accumulates exactly the sum of all feature volumes, and the stored fraction is that sum divided by the mesh volume |
| `FeatureVolume.FeatureVolumeFraction.Finalize` | modules/phase_field/src/postprocessors/FeatureVolumeFraction.C:36-43 | needs a non-empty list of feature volumes; stores it and sets the fraction to its sum over the mesh volume, which is non-negative when the volumes are and the mesh volume is positive |
| `FeatureVolume.FeatureVolumeFraction.GetValue` | modules/phase_field/src/postprocessors/FeatureVolumeFraction.C:62-66 | returns exactly the last computed fraction and changes nothing |
| `AxisymmetricRZ.ComputeStrainZZ` | modules/tensor_mechanics/src/materials/ComputeAxisymmetricRZSmallStrain.C:34-41 | on the axis (r = 0) the hoop strain is 0; elsewhere it is the value e with e * r = u_r, i.e. u_r / r, so it never divides by zero |
| `AxisymmetricRZ.UniformExpansionStrain` | modules/tensor_mechanics/src/materials/ComputeAxisymmetricRZSmallStrain.C:37-38 | off the axis, a radial displacement c * r gives hoop strain c |
| `AxisymmetricRZ.StrainLinearInDisplacement` | modules/tensor_mechanics/src/materials/ComputeAxisymmetricRZSmallStrain.C:37-40 | at a fixed point the hoop strain is linear in the radial displacement, on the axis as well |
| `AxisymmetricRZ.InitialSetup` | modules/tensor_mechanics/src/materials/ComputeAxisymmetricRZSmallStrain.C:25-32 | passes if and only if every subdomain's coordinate system is RZ; otherwise fails with the RZ error |
| `AxisymmetricRZ.AllRZPasses` | modules/tensor_mechanics/src/materials/ComputeAxisymmetricRZSmallStrain.C:28-31 | a mesh with no subdomains or only RZ subdomains passes |
| `AxisymmetricRZ.SetupDependsOnlyOnSubdomainSet` | modules/tensor_mechanics/src/materials/ComputeAxisymmetricRZSmallStrain.C:28-29 | the verdict depends only on which subdomains exist, not on the order they are visited in |

## Findings

| source | as written | input that shows it | evidently intended | confidence | as-written member | corrected member |
|---|---|---|---|---|---|---|
| modules/solid_mechanics/src/materials/IsotropicTempDepHardening.C:113 | At or above the last temperature the index is set to len - 1 with fraction 1. `computeHardeningValue` (line 129) and `computeHardeningDerivative` (line 142) then read hardening function index + 1 = len, one past the end of the list | temperatures {20, 100} and a point at temperature 100: index 1, then a read of function 2 of a two-element list | clamp to the last curve alone: index len - 2 with fraction 1, which blends to exactly the last curve | high; not executed | `TempDepHardening.AsWrittenUpperClampReadsPastEnd` | `TempDepHardening.SelectedBlendAtOrAboveLast` |

The material (`InitializeHardeningFunctions`) uses the corrected clamp `UpperClamp`.
Its invariant `Valid()` keeps index + 1 below the number of curves, which is the
bound the blend at lines 128-129 and 141-142 needs.

## Left out

- Contact-penetration detection (`PenetrationLocator`) is not modelled: it is geometric search over the mesh, outside the three components modelled here.
- `RecomputeRadialReturnHyperbolicViscoplasticity` is not modelled: its `sinh` law is transcendental floating-point arithmetic.
- The Avrami analysis of `FeatureVolumeFraction`: `calculateAvramiValue` is left out because it takes a double logarithm. The CSV writing in `finalize` is left out because it is file I/O.
- Parameter plumbing (`validParams`, `InputParameters`) is not modelled. `getFunctionByName` with its `dynamic_cast` to `PiecewiseLinear` becomes a `lookup` parameter that yields None on failure. The elasticity-tensor `dynamic_cast` becomes a datatype with a non-isotropic case.
- Per-quadrature-point `MaterialProperty` storage becomes sequence fields indexed by quadrature point. The coupled temperature is one of these fields.
- The unused current `scalar_plastic_strain` property is not modelled.
- The internals of `PiecewiseLinear::value`, `PiecewiseLinear::timeDerivative` and `LinearInterpolation::sample` are not modelled. They are function values, so nothing is assumed about them. As a result, positivity of the interpolated yield stress is not derived from the curves.
- The return-mapping driver in the `IsotropicPlasticity` base class that calls these hooks is not modelled.
- The flood count itself (`FeatureFloodCount`) is not modelled. Its `finalize` result arrives as the argument of `Finalize`, and `flood_entity_type` as a parameter.
- The mesh volume comes from another postprocessor by reference. It is modelled as a field whose value is read when the fraction is computed.
- Floating point is not modelled: there is no rounding and no NaN. A NaN temperature, for which none of the three branches of `initializeHardeningFunctions` fires, is not covered.
- `TempDepHardening.IsotropicTempDepHardening.InitializeHardeningFunctions`: at or above the last temperature it uses the corrected index len - 2, not the source's len - 1 (see Findings).
- `FeatureVolume.FeatureVolumeFraction.CalculateBubbleFraction`: requires a nonzero mesh volume. The source divides in floating point, where a zero mesh volume gives an infinite or NaN fraction, and that has no counterpart in exact real arithmetic.
- `FeatureVolume.FeatureVolumeFraction.Finalize`: requires a nonzero mesh volume for the same reason. The non-empty requirement on the feature volumes models a `mooseAssert` that only debug builds check.
- The bracket fields, the yield stress, the shear modulus and the yield condition start at 0 in the model. The source leaves them to be set by `computeStressInitialize` before any use.
