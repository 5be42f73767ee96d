# CPT liquefaction assessment: a Dafny model of `functions.py`

This project models the core of a cone-penetration-test (CPT) liquefaction
assessment. For one sounding, a table of rows holding depth, tip resistance
qc/qt and sleeve friction fs, it computes the following:

- stresses, the soil-behaviour-type index Ic (by fixed-point iteration) and
  the relative density `Dr I` (by a second iteration capped at 100 passes);
- cohesive and non-cohesive layer properties;
- the factor of safety FS against liquefaction triggering for two earthquake
  scenarios (Idriss and Boulanger, 2008);
- the h1/h2 layer-thickness scans;
- the severity indices LPI, LPIish and LSN;
- the pre-drilled-hole ("preforo") check.

Every DataFrame cell is a `Cells.Cell`: a number, NaN (`Missing`) or the
string "No Solution". The helpers give these the same comparison and
arithmetic semantics as the source: a comparison with NaN is false, and
arithmetic on NaN gives NaN. The floating-point primitives log10, ln, exp,
pow, sin and atan are fields of a `Cells.Math` value. They are left
uninterpreted, so every statement about a correlation holds for any such
functions. What is proved is the guards, caps, branches, loops and
accumulations around them.

Modules, by the part of `functions.py` they model:

- `StressColumn`: general calculations of `soil_parameters`.
- `Iteration`: the fixed-point loop shared by the two iterations below.
- `SoilBehaviourType`: the Ic iteration.
- `RelativeDensity`: the `Dr I` iteration.
- `LayerProperties`: the OCR columns and the cohesive and non-cohesive passes.
- `SoilParameters`: the whole of `soil_parameters` composed from the four above.
- `LiquefactionFactor`: `FS_liq`.
- `ThicknessScan`: `h1_h2_basic` and `h1_h2_cumulative`.
- `PotentialIndex`: `LPI` and `LPIish`.
- `SeverityNumber`: `LSN`.
- `Preforo`: `preforo_check`.

The two iterations share one definition of a pass, of the guess after k
passes and of the exit test (`Iteration`). Each is written for any per-row
pass `step` and applied to the source's pass `RowStep(m)`. A row-by-row loop in the source becomes a
method whose postcondition ties each row to a function of that row's inputs.

Where the code and the written description of the system disagree, the model
follows the code:

- The cumulative h1 is not bounded by 10 m. `ThicknessScan.CumulativeH1Unbounded`
  exhibits a sounding where it is 11 m.
- A run only counts once a later row closes it. The cumulative scan also
  needs a span above 0.3 m.
- The basic h2 is not always at most the cumulative h2, for example for a run
  deeper than 10 m.
- LPIish only has a ln-based closed form where its windows are positive.

## Model

| member | source | states |
|---|---|---|
| StressColumn.PressureCell | functions.py:25-32 | qc calc / qt calc is the MPa value times 1000 and is defined exactly when the reading is positive; a non-positive or blank reading becomes NaN |
| StressColumn.ConvertPressures | functions.py:25-32 | the conversion loop leaves every row's qc calc and qt calc equal to PressureCell of its reading, hence only positive numbers |
| StressColumn.FrictionRatio | functions.py:35-43 | Rf is 0 when fs < 0.00001 or qt is missing, NaN when fs is blank, and fs/qt·100 whenever fs >= 0.00001 and qt is a non-zero number |
| StressColumn.UnitWeight | functions.py:46-52 | gamma is the 18.08 default when Rf <= 0, NaN when Rf is NaN, and the Robertson correlation otherwise |
| StressColumn.DefaultUnitWeightRows | functions.py:35-52 | a row with negligible fs or missing qt gets the default unit weight |
| StressColumn.ComputeTotalStress | functions.py:55-60 | the loop leaves every row's total stress equal to the forward accumulation of gamma times depth step from row 0 |
| StressColumn.UniformUnitWeight | functions.py:55-60 | with one unit weight g for the sounding, total stress is g·depth at every row |
| StressColumn.TotalStressNondecreasing | functions.py:55-60 | with non-decreasing non-negative depths and non-negative unit weights, total stress is non-negative and never decreases with depth |
| StressColumn.MissingUnitWeightPropagates | functions.py:55-60 | a missing unit weight makes that row's total stress and every later row's total stress NaN |
| StressColumn.HydrostaticPressure | functions.py:71-72 | the pore pressure is non-negative and positive exactly below the water table |
| StressColumn.EffectiveStress | functions.py:65-72 | effective stress is defined iff total stress is, never exceeds it, and equals it above the water table |
| StressColumn.PoreCalc | functions.py:73 | u calc is the int64 truncation of the hydrostatic pressure: within 1 below it and never negative |
| StressColumn.NetFrictionRatio | functions.py:76-80 | Fr is 0 when fs <= 0, NaN when fs is blank, and fs/(qt − σv)·100 whenever fs > 0 and qt and σv are distinct numbers; a numeric Fr with fs > 0 is always that quotient |
| StressColumn.ComputeWaterColumns | functions.py:63-82 | with a positive water-table depth every row gets its effective stress, u calc and Fr; otherwise all three stay NaN |
| StressColumn.NormalisedTip | functions.py:85 | Qt is defined exactly when qt, total and non-zero effective stress are, and Qt·σ'v = qt − σv (at σ'v = 0 the source raises instead; see Left out) |
| SoilBehaviourType.StressNormalisation | functions.py:95-96 | Cn is defined iff effective stress is non-zero and n1 is known, and never exceeds 1.7 |
| SoilBehaviourType.BehaviourIndex | functions.py:102-109 | Ic is 0 when Fr <= 0 or Qtn <= 0, the Robertson index when both are positive, and NaN otherwise |
| SoilBehaviourType.NextExponent | functions.py:112-118 | n2 is defined iff Ic and effective stress are, never exceeds 1, and is the linear formula when that is at most 1 |
| SoilBehaviourType.PassBounds | functions.py:93-122 | every pass keeps Cn <= 1.7 and n2 <= 1, writes Ic = 0 where Fr or Qtn is not positive, and has a residual exactly where n1 and n2 are numbers |
| Iteration.ConvergedIffNoneBlocks | functions.py:124-131 | the row-by-row exit test holds exactly when no row blocks; with `SoilBehaviourType.Blocks` that is no row with Ic > 0 and residual > 0.01, and with `RelativeDensity.Blocks` (lines 163-172) no row with Dr > 0 and residual > 0.01 |
| SoilBehaviourType.ExitTest | functions.py:124-131 | the scan with early break returns true exactly when the exit test holds |
| SoilBehaviourType.GuessAtMostOne | functions.py:89-122 | after any number of passes every numeric n1 is at most 1 |
| SoilBehaviourType.NoWaterTableStopsAtOnce | functions.py:63-131 | without effective stress and Fr no row gets a numeric Ic and the loop stops after its first pass |
| SoilBehaviourType.SolveBehaviourType | functions.py:89-131 | the loop returns the cells of the first pass after which the exit test holds, or of the last allowed pass, with the pass count |
| RelativeDensity.DrFormula | functions.py:150 | Dr is defined iff qc1 is, and equals 0.478·qc1^0.264 − 1.063 |
| RelativeDensity.PassRowFacts | functions.py:144-156 | a pass writes the Dr of the guess, a non-negative residual, and a qc2 exactly when effective stress is non-zero and qc and the guess are known |
| RelativeDensity.Unsolved | functions.py:166-168 | after the hundredth pass exactly the failing rows hold "No Solution" and the others keep their Dr |
| RelativeDensity.MarkUnsolved | functions.py:166-168 | the marking loop produces Unsolved of the last pass |
| RelativeDensity.ExitTest | functions.py:169-172 | the scan with early break returns true exactly when the exit test holds |
| RelativeDensity.SolveRelativeDensity | functions.py:136-173 | the loop runs at most 100 passes, stops at the first pass meeting the test, and otherwise marks the failing rows after pass 100 |
| RelativeDensity.NoSolutionRows | functions.py:150-168 | "No Solution" appears exactly on the rows still failing after pass 100; other rows hold the Dr of their last guess |
| LayerProperties.OcrRobertson | functions.py:181-185 | OCR R is defined exactly on cohesive rows (Ic >= 2.6) with a Qt and is 0.25·Qt^1.25 |
| LayerProperties.OcrKulhawy | functions.py:188-193 | OCR K is defined exactly on cohesive rows with Qt < 20, is 0.33·Qt, and stays below 6.6 |
| LayerProperties.PoreAt | functions.py:207-212 | the cohesive pass's u0 is non-negative and is the hydrostatic pressure when the water-table depth is known |
| LayerProperties.UndrainedBq | functions.py:214-215 | the clamped Bq keeps Bq + 0.1 positive and leaves any Bq above −0.1 unchanged |
| LayerProperties.FrictionBq | functions.py:263-266 | the friction-angle Bq lies in (0, 1] and is unchanged when already there |
| LayerProperties.ConstrainedModulus | functions.py:224-227 | M is the net tip resistance times Qt capped at 14 |
| LayerProperties.ShearWaveMayne | functions.py:243-244 | Vs M is defined exactly when fs > 0 and is 51.6·ln fs + 18.5 |
| LayerProperties.CohesivePermeability | functions.py:249-252 | k is defined exactly for Ic < 4 other than 3.27, with the two Robertson branches |
| LayerProperties.SoilCharacteristic | functions.py:288-296 | Kc is 1 for Ic <= 1.64 and for 1.64 < Ic < 2.36 with Fr < 0.5, the quartic 5.58Ic³ − 0.403Ic⁴ − 21.63Ic² + 33.75Ic − 17.88 on the rest of 1.64 < Ic <= 2.5, and 6·10^-7·Ic^16.76 above 2.5 |
| LayerProperties.FrictionAngleRobertson | functions.py:280-282 | φ' R is defined exactly for a positive qc and a non-zero effective stress, and is atan((log10(qc/σ'v) + 0.29)/2.68) in degrees |
| LayerProperties.FrictionAngleJefferies | functions.py:297-298 | φ' J is defined exactly when Qtn is, and is 33 + 15.84·log10(Kc·Qtn) − 26.88 |
| LayerProperties.LayerOf | functions.py:204-354 | a row that is neither cohesive nor non-cohesive gets no layer properties; a non-cohesive row gets φ' R = atan((log10(qc/σ'v) + 0.29)/2.68) when qc > 0 and σ'v is a non-zero number, none when qc is not positive, and φ' J from its Kc |
| LayerProperties.ClassifiedDr | functions.py:199-202 | `Dr I` is blanked on cohesive rows and Ic = 0 rows and kept on non-cohesive and Ic-less rows |
| LayerProperties.FinalIc | functions.py:356-357 | an Ic of 0 becomes NaN and any other Ic is kept, so no final Ic is 0 |
| LayerProperties.CohesiveStage | functions.py:204-268 | a non-cohesive row gets nothing from the cohesive pass |
| LayerProperties.CohesivePass | functions.py:197-268 | the loop leaves each row's `Dr I` classified and its cohesive-stage layer |
| LayerProperties.NonCohesiveStage | functions.py:276-354 | the non-cohesive pass leaves every other row's layer untouched |
| LayerProperties.StagesGiveLayerOf | functions.py:197-357 | the two passes in order give each row the layer of its soil type |
| LayerProperties.NonCohesivePass | functions.py:274-357 | the loop leaves each row's final Ic and non-cohesive-stage layer |
| LayerProperties.ComputeLayers | functions.py:179-357 | each row ends with classified Dr, final Ic, both OCRs and the layer of its soil type |
| LayerProperties.LayerKinds | functions.py:204-357 | each row carries the properties of at most one soil type |
| LayerProperties.FrictionBqAlwaysDefault | functions.py:206-266 | because u calc is the truncated hydrostatic pressure, a cohesive row with positive net tip resistance always gets the 0.1 default Bq |
| LayerProperties.UndrainedBqUnclamped | functions.py:206-215 | with a net tip resistance of at least 10 the −0.1 clamp never fires |
| SoilParameters.GeneralCalculations | functions.py:22-85 | the general columns of every row follow the per-row definitions, with and without a water table |
| SoilParameters.ComputeSoilParameters | functions.py:6-360 | the composition: general columns, the Ic iteration's first-exit result, the Dr iteration's first exit within 100 passes (no earlier pass converges; a count below 100 means the last pass converged), and per row the classified Dr, final Ic, OCRs and layer |
| LiquefactionFactor.MagnitudeScaling | functions.py:387-392 | MSF never exceeds 1.8 and is 6.9·exp(−M/4) − 0.058 when that does not |
| LiquefactionFactor.CorrectedTip | functions.py:397-400 | qc1n is defined exactly when `Dr I` is a number |
| LiquefactionFactor.BackCalculation | functions.py:397-400 | qc1n recovers the qc1 from which `Dr I` was computed, wherever pow inverts itself |
| LiquefactionFactor.OverburdenCoefficient | functions.py:405-407 | c_sigma never exceeds 0.3 and is defined exactly when its denominator is non-zero |
| LiquefactionFactor.StressCorrection | functions.py:409-412 | Kσ never exceeds 1.1 and is defined exactly when c_sigma and effective stress are |
| LiquefactionFactor.StressReduction | functions.py:415-420 | rd is written exactly above 20 m |
| LiquefactionFactor.SeismicDemand | functions.py:425-429 | the demand 0.65·PGA·σv/σ'v·rd is defined exactly when PGA, σv, non-zero σ'v and rd are |
| LiquefactionFactor.CyclicStress | functions.py:425-429 | CSR is defined exactly when the demand is, with a non-zero MSF and a non-zero Kσ, and is then demand / MSF / Kσ |
| LiquefactionFactor.FinesContent | functions.py:434-438 | FC is defined exactly when Ic is and lies in [0, 100] |
| LiquefactionFactor.CleanSandTip | functions.py:439 | qc1ncs is defined exactly when qc1n and FC are; FC + 0.01 never vanishes |
| LiquefactionFactor.CleanSandAtLeastTip | functions.py:439 | with a positive exp, the fines correction never lowers a non-negative qc1n |
| LiquefactionFactor.CyclicResistance | functions.py:442-447 | CRR is defined exactly when qc1ncs, MSF and Kσ are usable, and is then the magnitude-7.5 base resistance / MSF / Kσ |
| LiquefactionFactor.SafetyFactor | functions.py:451-457 | FS is 9999 at or above the water table and otherwise the quotient CRR/CSR, defined when CSR is non-zero |
| LiquefactionFactor.FactorOfSafety | functions.py:395-457 | the row loop writes each row's qc1n and, on rows with 0 < Ic < 2.6, Kσ, qc1ncs and both scenarios |
| LiquefactionFactor.RowFacts | functions.py:395-457 | every row gets qc1n; only 0 < Ic < 2.6 rows get more, with Kσ <= 1.1, FS = 9999 above the water table, and no rd or FS below it deeper than 20 m |
| LiquefactionFactor.ScalingCancels | functions.py:425-457 | below the water table FS does not depend on MSF or Kσ: it is the 7.5-magnitude resistance over the raw demand |
| LiquefactionFactor.CorrectedSafetyFactor | functions.py:451-457 | the corrected FS keeps the 9999 sentinel at or above the water table |
| LiquefactionFactor.CorrectedScalesWithCorrections | functions.py:425-457 | the corrected FS is the source's FS times MSF·Kσ and is defined on the same rows |
| ThicknessScan.Extend | functions.py:478-485 | a continuing row becomes the run's last row; a new run starts there with h1 from the row above or row 0 |
| ThicknessScan.BasicScan | functions.py:463-497 | the scan loop with early break returns the basic h1/h2 of the profile |
| ThicknessScan.BasicDefault | functions.py:465-491 | whenever no row lies more than 0.3 below the latest FS < 1 row above it, no run is closed and the result is the default: h1 the deepest depth, h2 = 0. This covers profiles without FS < 1 rows, runs reaching the last row, and runs followed only by FS >= 1 rows within 0.3 of their last row |
| ThicknessScan.BasicClosesRun | functions.py:472-491 | the converse: at the first row more than 0.3 below the latest FS < 1 row p above it, h1 is the depth of the row above the first FS < 1 row f (row 0 when f is row 0) and h2 = depth(p) − depth(f); with BasicDefault this fixes the basic result on every profile |
| ThicknessScan.BasicBounds | functions.py:472-490 | on non-decreasing depths h2 >= 0 and h1 is the depth of some row |
| ThicknessScan.Increment | functions.py:539-545 | only rows with 0 < FS < 1 at most 10 deep add to h2 |
| ThicknessScan.CumulativeScan | functions.py:500-555 | both loops give the cumulative h1 (reset on every break of the run) and h2 (stopping after the first row deeper than 10) |
| ThicknessScan.CumulativeH1Default | functions.py:508-532 | the cumulative h1 stays 10 whenever every run that a non-joining row closes spans at most 0.3. A row joins when FS < 1 and either the row above joined nothing or it is at most 0.3 above. Thin runs are reset, and a run reaching the last row is never closed |
| ThicknessScan.CumulativeClosesRun | functions.py:508-532 | the converse: when rows s..e are the first run of more than 0.3 closed by a non-joining row, the cumulative h1 is the depth of the row above s (row 0 when s is row 0); with CumulativeH1Default this fixes the cumulative h1 on every profile |
| ThicknessScan.DeepRowsAddNothing | functions.py:539-547 | on non-decreasing depths, rows after one deeper than 10 add nothing |
| ThicknessScan.H2IsSumOfIncrements | functions.py:534-547 | on non-decreasing non-negative depths the early stop changes nothing: h2 is the sum of all increments and is non-negative |
| ThicknessScan.CumulativeH1Unbounded | functions.py:508-528 | a closed run starting below 10 m gives a cumulative h1 of 11 |
| PotentialIndex.Window | functions.py:566-572 | each row integrates from the row above, and row 0 over an interval as long as the first depth step |
| PotentialIndex.WindowOrdered | functions.py:566-572 | on non-decreasing depths every window is ordered |
| PotentialIndex.LinearIntegral | functions.py:558-569 | the closed-form integral of (1 − FS)(10 − 0.5z) equals the trapezoid rule, exact for a linear integrand |
| PotentialIndex.LinearIntegralNonNegative | functions.py:558-572 | over a window ending at most 20 deep, a row with FS <= 1 adds a non-negative amount |
| PotentialIndex.LpiTerm | functions.py:565 | rows deeper than 20 m or with FS > 1 or NaN add nothing |
| PotentialIndex.PotentialIndex | functions.py:557-575 | the loop's LPI is the sum of the row terms |
| PotentialIndex.PotentialIndexNonNegative | functions.py:557-575 | LPI is non-negative on non-decreasing depths |
| PotentialIndex.IshFactor | functions.py:577-583 | the LPIish factor is non-negative, and positive only as 1 − FS for FS < 1 |
| PotentialIndex.IshTerm | functions.py:588-596 | rows outside h1 <= z <= 20, shallower than 0.4 or with a zero factor add nothing |
| PotentialIndex.PotentialIndexIsh | functions.py:576-599 | the loop's LPIish is the sum of the row terms |
| PotentialIndex.IshTermNonNegative | functions.py:577-596 | with ln non-decreasing and a positive ordered window, a row adds a non-negative amount |
| PotentialIndex.IshNonNegative | functions.py:576-599 | LPIish is non-negative on non-decreasing positive depths whose first window is positive |
| SeverityNumber.Interpolate | functions.py:632-636 | the interpolator returns the upper curve at the upper FS, and the lower curve at the lower FS for bands 0.1 wide |
| SeverityNumber.BaseStrain | functions.py:654-659 | the base strain is defined exactly for 20 <= qc1ncs <= 200 |
| SeverityNumber.Strain | functions.py:648-701 | eps is defined exactly at depth <= 20 with qc1ncs in [20, 200] |
| SeverityNumber.StrainEnds | functions.py:654-701 | FS >= 2, the 9999 sentinel included, gives eps = 0; no FS keeps the base strain |
| SeverityNumber.StrainAtBandLimits | functions.py:683-696 | at FS 1.0, 1.1, 1.2 and 1.3 eps is the next curve A10..A13 |
| SeverityNumber.LsnTerm | functions.py:703-706 | row 0 and rows without eps add nothing |
| SeverityNumber.SeverityNumber | functions.py:601-713 | the loop's LSN is the sum of the row terms |
| SeverityNumber.LsnIgnoresFirstRow | functions.py:703-706 | the first row's qc1ncs and FS do not affect LSN |
| SeverityNumber.LsnZeroWithoutStrain | functions.py:646-706 | a profile with no strain below its first row has LSN 0 |
| SeverityNumber.LastBandOvershoots | functions.py:698-701 | at FS 1.4 eps is six times its value at FS 1.3 |
| SeverityNumber.BandInterpolateExact | functions.py:632-636 | width-aware interpolation meets both curves, stays between them, and agrees with the source on bands 0.1 wide |
| SeverityNumber.CorrectedStrain | functions.py:698-701 | the corrected strain is defined on the same rows as the source's |
| SeverityNumber.CorrectedLastBandBounded | functions.py:698-701 | with the corrected last band, eps above FS 1.3 lies between 0 and A13 |
| Preforo.CheckPreforo | functions.py:715-724 | "deeper" exactly when both depths are known and GWT >= preforo; "Nan preforo" exactly when preforo is missing; "above" otherwise, including a missing GWT |
| Preforo.NoteAgreesWithCheck | functions.py:383-384 | FS_liq's note is written exactly when the check says "above" with a known GWT |

## Findings

| source | as written | input that shows it | evidently intended | confidence | as-written member | corrected member |
|---|---|---|---|---|---|---|
| functions.py:425-457 | CSR and CRR are both divided by MSF and Kσ, so the two corrections cancel in FS = CRR/CSR | any row below the water table: MSF 1.0 and Kσ 1.0 give the same FS as MSF 1.8 and Kσ 0.9 | Idriss and Boulanger (2008): FS = CRR(M = 7.5, σ'v = 1 atm)·MSF·Kσ / CSR | medium; not executed | LiquefactionFactor.ScalingCancels | LiquefactionFactor.CorrectedSafetyFactor |
| functions.py:632-636, 698-701 | the interpolator fixes the band width at 0.1, but the last band runs from FS 1.3 to 2 | qc1ncs = 100 at 5 m: eps is A13 at FS 1.3 but 6·A13 at FS 1.4 | linear interpolation from A13 at FS 1.3 down to 0 at FS 2 | high; not executed | SeverityNumber.LastBandOvershoots | SeverityNumber.CorrectedStrain |

`LiquefactionFactor.CorrectedScalesWithCorrections` and
`SeverityNumber.CorrectedLastBandBounded` prove the intended properties of
the corrected members. `FactorOfSafety` and `SeverityNumber` still model the
source as written.

## Left out

- `PGA_insertion` (functions.py:366-373) reads an Excel file. The PGA of each
  scenario is an input (`LiquefactionFactor.Event.pga`).
- main.py (batch orchestration, spreadsheet I/O) and graphs.py (plotting) are
  not part of this model.
- Values of the empirical correlations are not modelled. These are log10,
  ln, exp, pow, sin and atan-in-degrees, uninterpreted in `Cells.Math`. In
  particular, pow of a negative base (NaN or complex in the source) is not
  distinguished.
- Division by zero gives NaN in the model. Where the source divides numpy
  values (whole columns, or cells read through `row[...]`), numpy gives
  ±infinity instead. A later cap that would turn +infinity into its cap
  value, such as c_sigma or Kσ, therefore gives NaN in the model.
- StressColumn.NormalisedTip: the `Qt` list comprehension (functions.py:85)
  divides plain Python floats, so an effective stress of exactly 0 raises
  ZeroDivisionError and aborts `soil_parameters`. For example, a first row
  at depth 0 above a positive water table has σv = σ'v = 0. The model does
  not have this error path: it writes NaN and carries on.
- `integrate.quad` is replaced by the exact integral. For LPIish and LSN that
  integral is written with ln, which assumes positive windows; a window
  reaching depth 0 or above is singular in the source.
- Warnings, prints, the LSN row counters and the column-creation
  bookkeeping are not modelled. The non-row outputs are returned
  values rather than cells of row 0.
- The "preforo is below GWT" note that `FS_liq` writes into row 1
  (functions.py:383-384) is modelled only as the predicate
  `Preforo.NotesPreforo`, not as a change to the table.
- SoilBehaviourType.SolveBehaviourType: the source's Ic loop has no
  iteration cap. The model runs at most `maxPasses` passes and reports
  whether the exit test held, so it does not model a non-terminating run.
- The source reads row 1 (or the last row) where a contributing row 0 needs
  it. On a one-row table, or in `h1_h2_basic` an empty one, that lookup
  fails. The model makes these cases preconditions: `HasNextRow`,
  `LpiDefined`, `IshDefined`, and a non-empty profile for `BasicScan`.
- Depths are numbers in every row; a blank depth is not modelled.
- The FS cells the model reads are numbers or NaN, never the empty string.
  `h1_h2_basic` and `h1_h2_cumulative` turn an empty string into NaN
  (functions.py:475-476, 511-512, 537-538), which the model's NaN covers.
  `LPI`, `LPIish` and `LSN` compare FS without that conversion
  (functions.py:564, 580-581 and the LSN band tests from line 661), so an empty
  string there raises TypeError in the source. That error path is not
  modelled.
