/** `soil_parameters` (functions.py:6-360) as one composition: the general
    calculations, the Ic iteration, the Dr iteration, the overconsolidation
    ratios and the two layer passes, each modelled in its own module. */
module SoilParameters {
  import opened Cells
  import opened StressColumn
  import SoilBehaviourType
  import RelativeDensity
  import Iteration
  import opened LayerProperties

  /** The columns of the general calculations (lines 22-85) for one row. */
  datatype StressRow = StressRow(
    depth: real, fs: Cell, qcCalc: Cell, qtCalc: Cell, rf: Cell, gamma: Cell, total: Cell,
    effective: Cell, uCalc: Cell, fr: Cell, qt: Cell)

  function Depths(raw: seq<RawRow>): (d: seq<real>)
    ensures |d| == |raw| && forall i :: 0 <= i < |raw| ==> d[i] == raw[i].depth
  {
    seq(|raw|, i requires 0 <= i < |raw| => raw[i].depth)
  }

  function Sleeve(raw: seq<RawRow>): (fs: seq<Cell>)
    ensures |fs| == |raw| && forall i :: 0 <= i < |raw| ==> fs[i] == raw[i].fs
  {
    seq(|raw|, i requires 0 <= i < |raw| => raw[i].fs)
  }

  function Gammas(rows: seq<StressRow>): (g: seq<Cell>)
    ensures |g| == |rows| && forall i :: 0 <= i < |rows| ==> g[i] == rows[i].gamma
  {
    seq(|rows|, i requires 0 <= i < |rows| => rows[i].gamma)
  }

  /** The general calculations of lines 22-85, row by row. */
  predicate GeneralColumns(m: Math, raw: seq<RawRow>, gwt: Cell, rows: seq<StressRow>)
  {
    && |rows| == |raw|
    && (forall i :: 0 <= i < |raw| ==>
      && rows[i].depth == raw[i].depth && rows[i].fs == raw[i].fs
      && rows[i].qcCalc == PressureCell(raw[i].qcMPa)
      && rows[i].qtCalc == PressureCell(raw[i].qtMPa)
      && rows[i].rf == FrictionRatio(raw[i].fs, rows[i].qtCalc)
      && rows[i].gamma == UnitWeight(m, rows[i].rf, rows[i].qtCalc)
      && rows[i].total == TotalStressAt(Depths(raw), Gammas(rows), i)
      && rows[i].qt == NormalisedTip(rows[i].qtCalc, rows[i].total, rows[i].effective))
    && (Gt(gwt, 0.0) ==> forall i :: 0 <= i < |raw| ==>
      && rows[i].effective == EffectiveStress(gwt.v, raw[i].depth, rows[i].total)
      && rows[i].uCalc == Val(PoreCalc(gwt.v, raw[i].depth))
      && rows[i].fr == NetFrictionRatio(raw[i].fs, rows[i].qtCalc, rows[i].total))
    && (!Gt(gwt, 0.0) ==> forall i :: 0 <= i < |raw| ==>
      rows[i].effective == Missing && rows[i].uCalc == Missing && rows[i].fr == Missing)
  }

  /** Lines 22-85: pressures, Rf, unit weight, total and effective stress,
      `u calc`, Fr and Qt. */
  method GeneralCalculations(m: Math, raw: seq<RawRow>, gwt: Cell) returns (rows: seq<StressRow>)
    ensures GeneralColumns(m, raw, gwt, rows)
  {
    var n := |raw|;
    var depth := Depths(raw);
    var qc, qtCalc := ConvertPressures(raw);                                                 // lines 25-32
    var rf := seq(n, i requires 0 <= i < n => FrictionRatio(raw[i].fs, qtCalc[i]));           // line 43
    var gamma := seq(n, i requires 0 <= i < n => UnitWeight(m, rf[i], qtCalc[i]));            // line 52
    var total := ComputeTotalStress(depth, gamma);                                            // lines 55-60
    var effective, uCalc, fr := ComputeWaterColumns(gwt, depth, total, Sleeve(raw), qtCalc);  // lines 63-82
    var qt := seq(n, i requires 0 <= i < n => NormalisedTip(qtCalc[i], total[i], effective[i])); // line 85
    rows := seq(n, i requires 0 <= i < n =>
      StressRow(depth[i], raw[i].fs, qc[i], qtCalc[i], rf[i], gamma[i], total[i], effective[i],
                uCalc[i], fr[i], qt[i]));
    assert Gammas(rows) == gamma;
  }

  /** The inputs of the Ic iteration, read from the general columns. */
  function IcInputs(rows: seq<StressRow>): (r: seq<SoilBehaviourType.IcInput>)
    ensures |r| == |rows|
    ensures forall i :: 0 <= i < |rows| ==>
      r[i] == SoilBehaviourType.IcInput(rows[i].qtCalc, rows[i].total, rows[i].effective, rows[i].fr)
  {
    seq(|rows|, i requires 0 <= i < |rows| =>
      SoilBehaviourType.IcInput(rows[i].qtCalc, rows[i].total, rows[i].effective, rows[i].fr))
  }

  /** The inputs of the Dr iteration, read from the general columns. */
  function DrInputs(rows: seq<StressRow>): (r: seq<RelativeDensity.DrInput>)
    ensures |r| == |rows|
    ensures forall i :: 0 <= i < |rows| ==> r[i] == RelativeDensity.DrInput(rows[i].qcCalc, rows[i].effective)
  {
    seq(|rows|, i requires 0 <= i < |rows| => RelativeDensity.DrInput(rows[i].qcCalc, rows[i].effective))
  }

  /** What the layer passes read from each row: Ic and Qtn as the
      iteration left them. */
  function LayerInputs(stress: seq<StressRow>, behaviour: seq<SoilBehaviourType.IcRow>): (r: seq<LayerInput>)
    requires |behaviour| == |stress|
    ensures |r| == |stress|
    ensures forall i :: 0 <= i < |stress| ==> r[i] == LayerInput(
      stress[i].depth, behaviour[i].ic, stress[i].qcCalc, stress[i].qtCalc, stress[i].total,
      stress[i].effective, stress[i].uCalc, stress[i].fs, stress[i].fr, stress[i].qt, behaviour[i].qtn)
  {
    seq(|stress|, i requires 0 <= i < |stress| => LayerInput(
      stress[i].depth, behaviour[i].ic, stress[i].qcCalc, stress[i].qtCalc, stress[i].total,
      stress[i].effective, stress[i].uCalc, stress[i].fs, stress[i].fr, stress[i].qt, behaviour[i].qtn))
  }

  /** `soil_parameters` on a sounding `raw` with groundwater-table depth
      `gwt` (the `GWT [m]` cell of the first row), column by column. The Ic
      iteration is run for at most `icMaxPasses` passes. */
  method ComputeSoilParameters(m: Math, raw: seq<RawRow>, gwt: Cell, icMaxPasses: nat)
    returns (stress: seq<StressRow>, behaviour: seq<SoilBehaviourType.IcRow>, icPasses: nat, icConverged: bool,
             drPasses: nat, drI: seq<Cell>, ic: seq<Cell>, ocrR: seq<Cell>, ocrK: seq<Cell>, layers: seq<Layer>)
    requires icMaxPasses >= 1
    ensures GeneralColumns(m, raw, gwt, stress)
    // the Ic iteration
    ensures 1 <= icPasses <= icMaxPasses
    ensures behaviour == SoilBehaviourType.PassAt(SoilBehaviourType.RowStep(m), IcInputs(stress), icPasses - 1)
    ensures icConverged <==> Iteration.Converged(SoilBehaviourType.Blocks, behaviour)
    ensures !icConverged ==> icPasses == icMaxPasses
    ensures forall k :: 0 <= k < icPasses - 1 ==>
      !Iteration.Converged(SoilBehaviourType.Blocks, SoilBehaviourType.PassAt(SoilBehaviourType.RowStep(m), IcInputs(stress), k))
    // the Dr iteration, the overconsolidation ratios and the layer passes
    ensures 1 <= drPasses <= RelativeDensity.MaxPasses
    ensures forall k :: 0 <= k < drPasses - 1 ==>
      !Iteration.Converged(RelativeDensity.Blocks, RelativeDensity.PassAt(RelativeDensity.RowStep(m), DrInputs(stress), k))
    ensures drPasses < RelativeDensity.MaxPasses ==>
      Iteration.Converged(RelativeDensity.Blocks, RelativeDensity.PassAt(RelativeDensity.RowStep(m), DrInputs(stress), drPasses - 1))
    ensures |drI| == |raw| && |ic| == |raw| && |ocrR| == |raw| && |ocrK| == |raw| && |layers| == |raw|
    ensures forall i :: 0 <= i < |raw| ==>
      var inp := LayerInputs(stress, behaviour)[i];
      && drI[i] == ClassifiedDr(inp.ic, RelativeDensity.DrAfter(RelativeDensity.RowStep(m), DrInputs(stress), drPasses)[i])
      && ic[i] == FinalIc(inp.ic)
      && ocrR[i] == OcrRobertson(m, inp.ic, inp.qt)
      && ocrK[i] == OcrKulhawy(inp.ic, inp.qt)
      && layers[i] == LayerOf(m, gwt, inp, ocrR[i])
  {
    stress := GeneralCalculations(m, raw, gwt);
    // the Ic iteration, lines 89-131
    behaviour, icPasses, icConverged :=
      SoilBehaviourType.SolveBehaviourType(SoilBehaviourType.RowStep(m), IcInputs(stress), icMaxPasses);
    // the Dr iteration, lines 135-170
    var dr;
    dr, drPasses := RelativeDensity.SolveRelativeDensity(RelativeDensity.RowStep(m), DrInputs(stress));
    // the overconsolidation ratios and the layer passes, lines 179-357
    drI, ic, ocrR, ocrK, layers := ComputeLayers(m, gwt, LayerInputs(stress, behaviour), dr);
  }
}
