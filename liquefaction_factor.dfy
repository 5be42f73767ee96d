/** `FS_liq` (functions.py:376-459): the factor of safety against
    liquefaction triggering after Idriss and Boulanger (2008), for two
    earthquake scenarios. Every row gets the normalised tip resistance qc1n,
    back-calculated from `Dr I`; the rows with 0 < Ic < 2.6 also get Kσ, rd,
    CSR, CRR, qc1ncs and FS for both scenarios. */
module LiquefactionFactor {
  import opened Cells
  import StressColumn
  import RelativeDensity
  import LayerProperties

  const MsfCap: real := 1.8
  const CSigmaCap: real := 0.3
  const KSigmaCap: real := 1.1
  /** rd is only written above this depth (line 418). */
  const RdDepthLimit: real := 20.0
  /** The FS written on rows at or above the groundwater table (lines 452-454). */
  const AboveWaterTable: real := 9999.0

  /** A scenario: its magnitude and the PGA of its date, read from the first
      row of the table (lines 426 and 428). */
  datatype Event = Event(magnitude: real, pga: Cell)

  /** The cells of a row that `FS_liq` reads. */
  datatype LiqInput = LiqInput(depth: real, ic: Cell, drI: Cell, total: Cell, effective: Cell)

  /** The cells written for one scenario. */
  datatype EventCells = EventCells(rd: Cell, csr: Cell, crr: Cell, fs: Cell)

  const NoEvent: EventCells := EventCells(Missing, Missing, Missing, Missing)

  /** The cells `FS_liq` writes into a row. */
  datatype LiqRow = LiqRow(qc1n: Cell, qc1ncs: Cell, kSigma: Cell, first: EventCells, second: EventCells)

  /** MSF = 6.9 exp(-M/4) - 0.058, capped at 1.8 (lines 387-392). */
  function MagnitudeScaling(m: Math, magnitude: real): (msf: real)
    ensures msf <= MsfCap
    ensures 6.9 * m.exp(-magnitude / 4.0) - 0.058 <= MsfCap ==> msf == 6.9 * m.exp(-magnitude / 4.0) - 0.058
  {
    CapAt(Val(6.9 * m.exp(-magnitude / 4.0) - 0.058), MsfCap).v
  }

  /** qc1n back-calculated from `Dr I` by inverting Dr = 0.478 qc1^0.264
      - 1.063 (lines 397-401); a "No Solution" row and a row without Dr get
      no qc1n. */
  function CorrectedTip(m: Math, drI: Cell): (qc1n: Cell)
    ensures qc1n.Val? <==> drI.Val?
  {
    if drI == NoSolution then Missing
    else Pow(m, Div(Add(drI, Val(1.063)), Val(0.478)), Val(1.0 / 0.264))
  }

  /** Where the power function inverts itself, qc1n recovers exactly the qc1
      from which the relative-density iteration computed `Dr I`. */
  lemma BackCalculation(m: Math, qc1: real)
    requires m.pow(m.pow(qc1, 0.264), 1.0 / 0.264) == qc1
    ensures CorrectedTip(m, RelativeDensity.DrFormula(m, Val(qc1))) == Val(qc1)
  {
    var p := m.pow(qc1, 0.264);
    var dr := RelativeDensity.DrFormula(m, Val(qc1));
    assert dr == Val(0.478 * p - 1.063);
    assert Div(Add(dr, Val(1.063)), Val(0.478)) == Val(p);
  }

  /** c_sigma = 1 / (37.3 - 8.27 qc1n^0.264), capped at 0.3 (lines 405-407). */
  function OverburdenCoefficient(m: Math, qc1n: Cell): (c: Cell)
    ensures c.Val? <==> qc1n.Val? && 37.3 - 8.27 * m.pow(qc1n.v, 0.264) != 0.0
    ensures c.Val? ==> c.v <= CSigmaCap
  {
    CapAt(Div(Val(1.0), Sub(Val(37.3), Mul(Val(8.27), Pow(m, qc1n, Val(0.264))))), CSigmaCap)
  }

  /** Kσ = 1 - c_sigma ln(effective stress / Pa), capped at 1.1 (lines 409-412). */
  function StressCorrection(m: Math, cSigma: Cell, effective: Cell): (k: Cell)
    ensures k.Val? <==> cSigma.Val? && effective.Val?
    ensures k.Val? ==> k.v <= KSigmaCap
  {
    CapAt(Sub(Val(1.0), Mul(cSigma, Ln(m, Div(effective, Val(StressColumn.Pa))))), KSigmaCap)
  }

  /** rd = exp(alpha + beta M) with alpha and beta sine terms of the depth,
      written only above 20 m (lines 415-420). */
  function StressReduction(m: Math, depth: real, magnitude: real): (rd: Cell)
    ensures rd.Val? <==> depth < RdDepthLimit
  {
    var alpha := -1.012 - 1.126 * m.sin(depth / 11.73 + 5.133);
    var beta := 0.106 + 0.118 * m.sin(depth / 11.28 + 5.142);
    if depth < RdDepthLimit then Val(m.exp(alpha + beta * magnitude)) else Missing
  }

  /** 0.65 PGA / g (total / effective stress) rd with g = 1: the cyclic
      stress ratio before the magnitude and overburden corrections. */
  function SeismicDemand(ev: Event, inp: LiqInput, rd: Cell): (d: Cell)
    ensures d.Val? <==> ev.pga.Val? && inp.total.Val? && inp.effective.Val? && inp.effective.v != 0.0 && rd.Val?
    ensures d.Val? ==> d.v == 0.65 * ev.pga.v * inp.total.v / inp.effective.v * rd.v
  {
    Mul(Div(Mul(Mul(Val(0.65), ev.pga), inp.total), inp.effective), rd)
  }

  /** CSR = 0.65 PGA / g (total / effective stress) rd / MSF / Kσ (lines 425-429). */
  function CyclicStress(ev: Event, inp: LiqInput, rd: Cell, msf: real, kSigma: Cell): (csr: Cell)
    ensures csr.Val? <==> SeismicDemand(ev, inp, rd).Val? && msf != 0.0 && kSigma.Val? && kSigma.v != 0.0
    ensures csr.Val? ==> csr.v == SeismicDemand(ev, inp, rd).v / msf / kSigma.v
  {
    Div(Div(SeismicDemand(ev, inp, rd), Val(msf)), kSigma)
  }

  /** FC = 2 (2.8 Ic^2.6), kept within 0 and 100 (lines 434-438). */
  function FinesContent(m: Math, ic: Cell): (fc: Cell)
    ensures fc.Val? <==> ic.Val?
    ensures fc.Val? ==> 0.0 <= fc.v <= 100.0
  {
    var raw := Mul(Val(2.0 * 2.8), Pow(m, ic, Val(2.6)));
    if Gt(raw, 100.0) then Val(100.0) else if Lt(raw, 0.0) then Val(0.0) else raw
  }

  /** qc1ncs = qc1n + (5.4 + qc1n / 16) exp(1.63 + 9.7 / (FC + 0.01)
      - (15.7 / (FC + 0.01))^2) (line 439). The fines content is kept
      non-negative, so the divisions never fail. */
  function CleanSandTip(m: Math, qc1n: Cell, fc: Cell): (qc1ncs: Cell)
    requires fc.Val? ==> fc.v >= 0.0
    ensures qc1ncs.Val? <==> qc1n.Val? && fc.Val?
  {
    if qc1n.Val? && fc.Val? then
      var f := fc.v + 0.01;
      Val(qc1n.v + (5.4 + qc1n.v / 16.0) * m.exp(1.63 + 9.7 / f - (15.7 / f) * (15.7 / f)))
    else Missing
  }

  /** The fines correction only adds: with a positive exponential, a
      non-negative qc1n never decreases. */
  lemma CleanSandAtLeastTip(m: Math, qc1n: Cell, fc: Cell)
    requires forall x :: m.exp(x) > 0.0
    requires qc1n.Val? && qc1n.v >= 0.0 && fc.Val? && fc.v >= 0.0
    ensures CleanSandTip(m, qc1n, fc).Val? && CleanSandTip(m, qc1n, fc).v >= qc1n.v
  {
    var f := fc.v + 0.01;
    var e := m.exp(1.63 + 9.7 / f - (15.7 / f) * (15.7 / f));
    assert e > 0.0;
    assert (5.4 + qc1n.v / 16.0) * e >= 0.0;
  }

  /** exp(q/540 + (q/67)^2 - (q/80)^3 + (q/114)^4 - 3): the cyclic
      resistance ratio for magnitude 7.5 and 1 atm (lines 442-446). */
  function BaseResistance(m: Math, qc1ncs: Cell): Cell
  {
    Map1(qc1ncs, q => m.exp(q / 540.0 + (q / 67.0) * (q / 67.0) - (q / 80.0) * (q / 80.0) * (q / 80.0)
                            + (q / 114.0) * (q / 114.0) * (q / 114.0) * (q / 114.0) - 3.0))
  }

  /** CRR = BaseResistance / MSF / Kσ (lines 442-447). */
  function CyclicResistance(m: Math, qc1ncs: Cell, msf: real, kSigma: Cell): (crr: Cell)
    ensures crr.Val? <==> qc1ncs.Val? && msf != 0.0 && kSigma.Val? && kSigma.v != 0.0
    ensures crr.Val? ==> crr.v == BaseResistance(m, qc1ncs).v / msf / kSigma.v
  {
    Div(Div(BaseResistance(m, qc1ncs), Val(msf)), kSigma)
  }

  /** FS (lines 451-457): 9999 at or above the groundwater table, CRR / CSR
      below it; a missing table depth compares false, so every row counts as
      below it. */
  function SafetyFactor(depth: real, gwt: Cell, crr: Cell, csr: Cell): (fs: Cell)
    ensures Ge(gwt, depth) ==> fs == Val(AboveWaterTable)
    ensures !Ge(gwt, depth) ==> (fs.Val? <==> crr.Val? && csr.Val? && csr.v != 0.0)
    ensures !Ge(gwt, depth) && fs.Val? ==> fs.v * csr.v == crr.v
  {
    if Ge(gwt, depth) then Val(AboveWaterTable) else Div(crr, csr)
  }

  /** The cells of one scenario for a row with 0 < Ic < 2.6. */
  function EventRow(m: Math, gwt: Cell, ev: Event, msf: real, inp: LiqInput, kSigma: Cell, qc1ncs: Cell): EventCells
  {
    var rd := StressReduction(m, inp.depth, ev.magnitude);
    var csr := CyclicStress(ev, inp, rd, msf, kSigma);
    var crr := CyclicResistance(m, qc1ncs, msf, kSigma);
    EventCells(rd, csr, crr, SafetyFactor(inp.depth, gwt, crr, csr))
  }

  /** What one pass of the loop of lines 395-457 writes into a row. */
  function FactorRow(m: Math, gwt: Cell, e1: Event, e2: Event, inp: LiqInput): LiqRow
  {
    var qc1n := CorrectedTip(m, inp.drI);
    if LayerProperties.NonCohesive(inp.ic) then
      var k := StressCorrection(m, OverburdenCoefficient(m, qc1n), inp.effective);
      var qc1ncs := CleanSandTip(m, qc1n, FinesContent(m, inp.ic));
      LiqRow(qc1n, qc1ncs, k,
             EventRow(m, gwt, e1, MagnitudeScaling(m, e1.magnitude), inp, k, qc1ncs),
             EventRow(m, gwt, e2, MagnitudeScaling(m, e2.magnitude), inp, k, qc1ncs))
    else LiqRow(qc1n, Missing, Missing, NoEvent, NoEvent)
  }

  /** `FS_liq` with the groundwater-table depth `gwt` of the first row and
      the two scenarios: the row loop of lines 395-457. */
  method FactorOfSafety(m: Math, gwt: Cell, e1: Event, e2: Event, inputs: seq<LiqInput>)
    returns (rows: seq<LiqRow>)
    ensures |rows| == |inputs|
    ensures forall i :: 0 <= i < |inputs| ==> rows[i] == FactorRow(m, gwt, e1, e2, inputs[i])
  {
    var msf1 := MagnitudeScaling(m, e1.magnitude);   // lines 387-389
    var msf2 := MagnitudeScaling(m, e2.magnitude);   // lines 390-392
    rows := [];
    for i := 0 to |inputs|
      invariant |rows| == i
      invariant forall j :: 0 <= j < i ==> rows[j] == FactorRow(m, gwt, e1, e2, inputs[j])
    {
      var inp := inputs[i];
      var qc1n := CorrectedTip(m, inp.drI);
      var row := LiqRow(qc1n, Missing, Missing, NoEvent, NoEvent);
      if Gt(inp.ic, 0.0) && Lt(inp.ic, 2.6) {
        var k := StressCorrection(m, OverburdenCoefficient(m, qc1n), inp.effective);
        var qc1ncs := CleanSandTip(m, qc1n, FinesContent(m, inp.ic));
        row := LiqRow(qc1n, qc1ncs, k, EventRow(m, gwt, e1, msf1, inp, k, qc1ncs),
                      EventRow(m, gwt, e2, msf2, inp, k, qc1ncs));
      }
      rows := rows + [row];
    }
  }

  /** Every row gets qc1n; only the rows with 0 < Ic < 2.6 get anything else,
      and those keep the caps on Kσ. A row at or above the groundwater table
      gets FS = 9999; a row below it and deeper than 20 m gets no rd, so no
      CSR and no FS. */
  lemma RowFacts(m: Math, gwt: Cell, e1: Event, e2: Event, inp: LiqInput)
    ensures var r := FactorRow(m, gwt, e1, e2, inp);
      && r.qc1n == CorrectedTip(m, inp.drI)
      && (!LayerProperties.NonCohesive(inp.ic) ==>
            r.qc1ncs == Missing && r.kSigma == Missing && r.first == NoEvent && r.second == NoEvent)
      && (LayerProperties.NonCohesive(inp.ic) ==>
            && (r.kSigma.Val? ==> r.kSigma.v <= KSigmaCap)
            && (r.qc1ncs.Val? <==> inp.drI.Val?)
            && (Ge(gwt, inp.depth) ==> r.first.fs == Val(AboveWaterTable) && r.second.fs == Val(AboveWaterTable))
            && (!Ge(gwt, inp.depth) && inp.depth >= RdDepthLimit ==>
                  r.first.rd == Missing && r.first.fs == Missing && r.second.fs == Missing))
  {
  }

  /** Both CRR and CSR are divided by MSF and Kσ, so below the groundwater
      table the two corrections cancel: FS does not depend on them. */
  lemma ScalingCancels(m: Math, gwt: Cell, ev: Event, inp: LiqInput, qc1ncs: Cell,
                       msfA: real, kA: Cell, msfB: real, kB: Cell)
    requires !Ge(gwt, inp.depth)
    requires msfA != 0.0 && kA.Val? && kA.v != 0.0 && msfB != 0.0 && kB.Val? && kB.v != 0.0
    ensures EventRow(m, gwt, ev, msfA, inp, kA, qc1ncs).fs == EventRow(m, gwt, ev, msfB, inp, kB, qc1ncs).fs
    ensures EventRow(m, gwt, ev, msfA, inp, kA, qc1ncs).fs
         == Div(BaseResistance(m, qc1ncs), SeismicDemand(ev, inp, StressReduction(m, inp.depth, ev.magnitude)))
  {
    var rd := StressReduction(m, inp.depth, ev.magnitude);
    Cancel(BaseResistance(m, qc1ncs), SeismicDemand(ev, inp, rd), msfA, kA.v);
    Cancel(BaseResistance(m, qc1ncs), SeismicDemand(ev, inp, rd), msfB, kB.v);
  }

  lemma Cancel(a: Cell, b: Cell, s: real, k: real)
    requires s != 0.0 && k != 0.0
    ensures Div(Div(Div(a, Val(s)), Val(k)), Div(Div(b, Val(s)), Val(k))) == Div(a, b)
  {
    if a.Val? && b.Val? && b.v != 0.0 {
      var q := a.v / s / k;
      var d := b.v / s / k;
      assert d * (s * k) == b.v;
      assert q * (s * k) == a.v;
      assert d != 0.0;
      assert q / d == a.v / b.v by {
        assert q / d * b.v == q / d * d * (s * k);
      }
    }
  }

  /** FS as Idriss and Boulanger (2008) define it: the resistance for
      magnitude 7.5 and 1 atm scaled up by MSF and Kσ, over the demand. */
  function CorrectedSafetyFactor(m: Math, gwt: Cell, ev: Event, msf: real, inp: LiqInput, kSigma: Cell,
                                 qc1ncs: Cell): (fs: Cell)
    ensures Ge(gwt, inp.depth) ==> fs == Val(AboveWaterTable)
  {
    var rd := StressReduction(m, inp.depth, ev.magnitude);
    if Ge(gwt, inp.depth) then Val(AboveWaterTable)
    else Div(Mul(Mul(BaseResistance(m, qc1ncs), Val(msf)), kSigma), SeismicDemand(ev, inp, rd))
  }

  /** Below the groundwater table the corrected FS is the one the source
      computes times MSF and Kσ, so a smaller earthquake or a shallower row
      with Kσ above 1 is safer, as the method intends. */
  lemma CorrectedScalesWithCorrections(m: Math, gwt: Cell, ev: Event, msf: real, inp: LiqInput, kSigma: Cell,
                                       qc1ncs: Cell)
    requires !Ge(gwt, inp.depth)
    requires msf != 0.0 && kSigma.Val? && kSigma.v != 0.0
    ensures var asWritten := EventRow(m, gwt, ev, msf, inp, kSigma, qc1ncs).fs;
      var corrected := CorrectedSafetyFactor(m, gwt, ev, msf, inp, kSigma, qc1ncs);
      && (corrected.Val? <==> asWritten.Val?)
      && (corrected.Val? ==> corrected.v == asWritten.v * msf * kSigma.v)
  {
    var rd := StressReduction(m, inp.depth, ev.magnitude);
    ScalingCancels(m, gwt, ev, inp, qc1ncs, msf, kSigma, msf, kSigma);
    ScaledQuotient(BaseResistance(m, qc1ncs), SeismicDemand(ev, inp, rd), msf, kSigma.v);
  }

  lemma ScaledQuotient(a: Cell, b: Cell, s: real, k: real)
    ensures Div(Mul(Mul(a, Val(s)), Val(k)), b).Val? <==> Div(a, b).Val?
    ensures Div(a, b).Val? ==> Div(Mul(Mul(a, Val(s)), Val(k)), b).v == Div(a, b).v * s * k
  {
    if a.Val? && b.Val? && b.v != 0.0 {
      ScaleUp(a.v, b.v, s * k);
      assert a.v * s * k == a.v * (s * k);
      assert a.v / b.v * (s * k) == a.v / b.v * s * k;
    }
  }

  lemma ScaleUp(a: real, b: real, s: real)
    requires b != 0.0
    ensures a * s / b == a / b * s
  {
  }
}
