/** The layer properties at the end of `soil_parameters`
    (functions.py:174-357): overconsolidation ratios for every row, then
    one pass over the cohesive rows (Ic >= 2.6) and one over the
    non-cohesive rows (0 < Ic < 2.6), each writing the empirical
    correlations of its soil type. The correlations themselves are taken
    as given; what is modelled is which row gets which property, the
    guards on each correlation, and the clamps. */
module LayerProperties {
  import opened Cells
  import StressColumn

  const CohesiveIc: real := 2.6

  /** The cells of one row that the layer passes read. */
  datatype LayerInput = LayerInput(
    depth: real, ic: Cell, qcCalc: Cell, qtCalc: Cell, total: Cell, effective: Cell,
    uCalc: Cell, fs: Cell, fr: Cell, qt: Cell, qtn: Cell)

  /** The property columns the two passes write. */
  datatype Layer = Layer(
    cuBq: Cell, cu14: Cell, modulus: Cell, k0a: Cell, k0b: Cell, vsR: Cell, vsM: Cell,
    permeability: Cell, phiM: Cell, phiR: Cell, phiK: Cell, phiJ: Cell, phiU: Cell,
    drB: Cell, drK: Cell, drJ: Cell, psi: Cell)

  const NoLayer: Layer := Layer(Missing, Missing, Missing, Missing, Missing, Missing, Missing,
    Missing, Missing, Missing, Missing, Missing, Missing, Missing, Missing, Missing, Missing)

  predicate Cohesive(ic: Cell) { Ge(ic, CohesiveIc) }
  predicate NonCohesive(ic: Cell) { Gt(ic, 0.0) && Lt(ic, CohesiveIc) }

  /** Net tip resistance qt - total stress. */
  function NetTip(inp: LayerInput): Cell { Sub(inp.qtCalc, inp.total) }

  function Pow10(m: Math, x: Cell): Cell { Pow(m, Val(10.0), x) }

  /** OCR after Robertson (2009), lines 179-183: cohesive rows only. */
  function OcrRobertson(m: Math, ic: Cell, qt: Cell): (r: Cell)
    ensures r.Val? <==> Cohesive(ic) && qt.Val?
    ensures r.Val? ==> r.v == 0.25 * m.pow(qt.v, 1.25)
  {
    if Cohesive(ic) then Mul(Val(0.25), Pow(m, qt, Val(1.25))) else Missing
  }

  /** OCR after Kulhawy and Mayne (1990), lines 186-191, with k = 0.33:
      cohesive rows with Qt < 20 only, so the ratio stays below 6.6. */
  function OcrKulhawy(ic: Cell, qt: Cell): (r: Cell)
    ensures r.Val? <==> Cohesive(ic) && Lt(qt, 20.0)
    ensures r.Val? ==> r.v < 6.6 && r.v == 0.33 * qt.v
  {
    if Cohesive(ic) && Lt(qt, 20.0) then Val(0.33 * qt.v) else Missing
  }

  /** The hydrostatic pressure of the cohesive pass (lines 208-212, 257-261):
      a NaN groundwater table compares false, which gives 0. */
  function PoreAt(gwt: Cell, depth: real): (u0: real)
    ensures u0 >= 0.0
    ensures gwt.Val? ==> u0 == StressColumn.HydrostaticPressure(gwt.v, depth)
  {
    if gwt.Val? && depth >= gwt.v then (depth - gwt.v) * StressColumn.WaterUnitWeight else 0.0
  }

  /** Bq = (u calc - u0) / (qt - total stress), lines 213 and 262. */
  function RawBq(gwt: Cell, inp: LayerInput): Cell
  {
    Div(Sub(inp.uCalc, Val(PoreAt(gwt, inp.depth))), NetTip(inp))
  }

  /** Lines 214-215: a Bq at or below -0.1 becomes -0.009999999, which keeps
      the logarithm of Bq + 0.1 in the cone factor defined. */
  function UndrainedBq(bq: Cell): (r: Cell)
    ensures r.Val? <==> bq.Val?
    ensures r.Val? ==> r.v + 0.1 > 0.0
    ensures Gt(bq, -0.1) ==> r == bq
  {
    if Le(bq, -0.1) then Val(-0.009999999) else bq
  }

  /** Lines 263-266: Bq for the friction angle, moved into (0, 1]. */
  function FrictionBq(bq: Cell): (r: Cell)
    ensures r.Val? <==> bq.Val?
    ensures r.Val? ==> 0.0 < r.v <= 1.0
    ensures Gt(bq, 0.0) && Le(bq, 1.0) ==> r == bq
  {
    if Le(bq, 0.0) then Val(0.1) else if Gt(bq, 1.0) then Val(1.0) else bq
  }

  /** M after Robertson (2009), lines 224-227 and 342-346. */
  function ConstrainedModulus(net: Cell, qt: Cell): (r: Cell)
    ensures r == Mul(net, CapAt(qt, 14.0))
  {
    if Ge(qt, 14.0) then Mul(net, Val(14.0)) else Mul(net, qt)
  }

  /** Vs after Robertson (2009): (10^(0.55 Ic + 1.68) (qt - total) / Pa)^0.5. */
  function ShearWaveRobertson(m: Math, ic: Cell, net: Cell): Cell
  {
    Pow(m, Div(Mul(Pow10(m, Add(Mul(Val(0.55), ic), Val(1.68))), net), Val(StressColumn.Pa)), Val(0.5))
  }

  /** Vs after Mayne (2006), lines 243-244 and 333-334: positive fs only. */
  function ShearWaveMayne(m: Math, fs: Cell): (r: Cell)
    ensures r.Val? <==> Gt(fs, 0.0)
    ensures r.Val? ==> r.v == 51.6 * m.ln(fs.v) + 18.5
  {
    if Gt(fs, 0.0) then Val(51.6 * m.ln(fs.v) + 18.5) else Missing
  }

  /** Permeability of a cohesive row after Robertson (2015), lines 249-252.
      The two ranges are open at 3.27, so a row with Ic exactly 3.27, or
      with Ic of 4 or more, gets no value. */
  function CohesivePermeability(m: Math, ic: Cell): (r: Cell)
    ensures r.Val? <==> ic.Val? && ic.v < 4.0 && ic.v != 3.27
    ensures Lt(ic, 3.27) ==> r == Val(m.pow(10.0, 0.952 - 3.04 * ic.v))
    ensures Gt(ic, 3.27) && Lt(ic, 4.0) ==> r == Val(m.pow(10.0, -4.52 - 1.37 * ic.v))
  {
    if Lt(ic, 3.27) then Val(m.pow(10.0, 0.952 - 3.04 * ic.v))
    else if Gt(ic, 3.27) && Lt(ic, 4.0) then Val(m.pow(10.0, -4.52 - 1.37 * ic.v))
    else Missing
  }

  /** The cohesive properties of a row, lines 205-268. */
  function CohesiveLayer(m: Math, gwt: Cell, inp: LayerInput, ocrR: Cell): Layer
  {
    var net := NetTip(inp);
    var nkt := Sub(Val(10.5), Mul(Val(4.6), Ln(m, Add(UndrainedBq(RawBq(gwt, inp)), Val(0.1)))));
    var avsNet := Mul(Pow10(m, Add(Mul(Val(0.55), inp.ic), Val(1.68))), net);
    var bq := FrictionBq(RawBq(gwt, inp));
    Layer(
      cuBq := Div(net, nkt),
      cu14 := Div(net, Val(14.0)),
      modulus := ConstrainedModulus(net, inp.qt),
      k0a := Mul(Div(net, inp.effective), Val(0.1)),
      k0b := Mul(Val(0.5), Pow(m, ocrR, Val(0.5))),
      vsR := if Gt(avsNet, 0.0) then ShearWaveRobertson(m, inp.ic, net) else Missing,
      vsM := ShearWaveMayne(m, inp.fs),
      permeability := CohesivePermeability(m, inp.ic),
      phiM := if Gt(inp.qt, 0.0)
              then Mul(Mul(Val(29.5), Pow(m, bq, Val(0.121))),
                       Add(Add(Val(0.256), Mul(Val(0.336), bq)), Log10(m, inp.qt)))
              else Missing,
      phiR := Missing, phiK := Missing, phiJ := Missing, phiU := Missing,
      drB := Missing, drK := Missing, drJ := Missing, psi := Missing)
  }

  /** Kc after Jefferies and Been (2006), lines 288-296; the row is
      non-cohesive, so Ic is a number. */
  function SoilCharacteristic(m: Math, ic: real, fr: Cell): (kc: real)
    ensures ic <= 1.64 ==> kc == 1.0
    ensures 1.64 < ic < 2.36 && Lt(fr, 0.5) ==> kc == 1.0
    ensures 1.64 < ic <= 2.5 && !(ic < 2.36 && Lt(fr, 0.5)) ==>
      kc == 5.58 * ic * ic * ic - 0.403 * ic * ic * ic * ic - 21.63 * ic * ic + 33.75 * ic - 17.88
    ensures 2.5 < ic ==> kc == 0.0000006 * m.pow(ic, 16.76)
  {
    if ic <= 1.64 then 1.0
    else if 1.64 < ic < 2.36 && Lt(fr, 0.5) then 1.0
    else if 1.64 < ic <= 2.5 then 5.58 * ic * ic * ic - 0.403 * ic * ic * ic * ic - 21.63 * ic * ic + 33.75 * ic - 17.88
    else 0.0000006 * m.pow(ic, 16.76)
  }

  /** φ' R after Robertson and Campanella (1983), lines 280-282: only for a
      positive qc, atan((log10(qc / effective stress) + 0.29) / 2.68) in
      degrees. */
  function FrictionAngleRobertson(m: Math, qcCalc: Cell, effective: Cell): (phi: Cell)
    ensures phi.Val? <==> Gt(qcCalc, 0.0) && effective.Val? && effective.v != 0.0
    ensures phi.Val? ==> phi.v == m.atanDegrees((m.log10(qcCalc.v / effective.v) + 0.29) / 2.68)
  {
    if Gt(qcCalc, 0.0)
    then Map1(Mul(Val(1.0 / 2.68), Add(Log10(m, Div(qcCalc, effective)), Val(0.29))), m.atanDegrees)
    else Missing
  }

  /** φ' J after Jefferies and Been (2006), lines 297-298, with φ'cv = 33 degrees:
      33 + 15.84 log10(Kc Qtn) - 26.88. */
  function FrictionAngleJefferies(m: Math, kc: real, qtn: Cell): (phi: Cell)
    ensures phi.Val? <==> qtn.Val?
    ensures phi.Val? ==> phi.v == 33.0 + 15.84 * m.log10(kc * qtn.v) - 26.88
  {
    var kcQtn := Mul(Val(kc), qtn);
    assert qtn.Val? ==> kcQtn == Val(kc * qtn.v);
    Sub(Add(Val(33.0), Mul(Val(15.84), Log10(m, kcQtn))), Val(26.88))
  }

  /** The non-cohesive properties of a row, lines 276-346. */
  function NonCohesiveLayer(m: Math, inp: LayerInput): Layer
    requires inp.ic.Val?
  {
    var net := NetTip(inp);
    var kc := Val(SoilCharacteristic(m, inp.ic.v, inp.fr));
    var stressRatio := Pow(m, Div(inp.effective, Val(StressColumn.Pa)), Val(0.5));
    Layer(
      cuBq := Missing, cu14 := Missing,
      modulus := if Gt(inp.ic, 2.2) then ConstrainedModulus(net, inp.qt)
                 else Mul(Mul(Val(0.0188), Pow10(m, Add(Mul(Val(0.55), inp.ic), Val(1.68)))), net),
      k0a := Missing, k0b := Missing,
      vsR := ShearWaveRobertson(m, inp.ic, net),
      vsM := ShearWaveMayne(m, inp.fs),
      permeability := Pow10(m, Sub(Val(0.952), Mul(Val(3.04), inp.ic))),
      phiM := Missing,
      phiR := FrictionAngleRobertson(m, inp.qcCalc, inp.effective),
      phiK := Add(Val(17.6), Mul(Val(11.0), Log10(m, inp.qtn))),
      phiJ := FrictionAngleJefferies(m, kc.v, inp.qtn),
      phiU := Mul(Val(25.0), Pow(m, Div(inp.qtCalc, Pow(m, inp.effective, Val(0.5))), Val(0.1))),
      drB := Mul(Val(1.0 / 2.41), Ln(m, Div(Div(Div(inp.qcCalc, Val(StressColumn.Pa)), stressRatio), Val(15.7)))),
      drK := Pow(m, Div(inp.qtn, Val(350.0)), Val(0.5)),
      drJ := Mul(Val(1.0 / 3.10), Ln(m, Div(Div(inp.qtCalc, Val(StressColumn.Pa)), Mul(Val(17.68), stressRatio)))),
      psi := Sub(Val(0.56), Mul(Val(0.33), Log10(m, Mul(kc, inp.qtn)))))
  }

  /** The properties a row ends up with: cohesive, non-cohesive or none. */
  function LayerOf(m: Math, gwt: Cell, inp: LayerInput, ocrR: Cell): (l: Layer)
    ensures !Cohesive(inp.ic) && !NonCohesive(inp.ic) ==> l == NoLayer
    ensures NonCohesive(inp.ic) && Gt(inp.qcCalc, 0.0) && inp.effective.Val? && inp.effective.v != 0.0 ==>
      l.phiR == Val(m.atanDegrees((m.log10(inp.qcCalc.v / inp.effective.v) + 0.29) / 2.68))
    ensures NonCohesive(inp.ic) && !Gt(inp.qcCalc, 0.0) ==> l.phiR == Missing
    ensures NonCohesive(inp.ic) ==>
      l.phiJ == FrictionAngleJefferies(m, SoilCharacteristic(m, inp.ic.v, inp.fr), inp.qtn)
  {
    if Cohesive(inp.ic) then CohesiveLayer(m, gwt, inp, ocrR)
    else if NonCohesive(inp.ic) then NonCohesiveLayer(m, inp)
    else NoLayer
  }

  /** `Dr I` after lines 199-202: blanked on cohesive rows and on rows
      without data (Ic = 0). */
  function ClassifiedDr(ic: Cell, dr: Cell): (r: Cell)
    ensures r != Missing ==> r == dr && !Cohesive(ic) && !Eq(ic, 0.0)
    ensures NonCohesive(ic) || !ic.Val? ==> r == dr
  {
    if Cohesive(ic) || Eq(ic, 0.0) then Missing else dr
  }

  /** Ic after lines 356-357: a 0 (no data) becomes NaN. */
  function FinalIc(ic: Cell): (r: Cell)
    ensures Eq(ic, 0.0) ==> r == Missing
    ensures !Eq(ic, 0.0) ==> r == ic
    ensures !Eq(r, 0.0)
  {
    if Eq(ic, 0.0) then Missing else ic
  }

  /** The layer a row has after the cohesive pass. */
  function CohesiveStage(m: Math, gwt: Cell, inp: LayerInput): (l: Layer)
    ensures !Cohesive(inp.ic) ==> l == NoLayer
  {
    if Cohesive(inp.ic) then CohesiveLayer(m, gwt, inp, OcrRobertson(m, inp.ic, inp.qt)) else NoLayer
  }

  /** The loop of lines 197-268: blank `Dr I` on cohesive rows and rows
      without data, and write the cohesive properties. `drIn` is the `Dr I`
      column the relative-density iteration left behind. */
  method CohesivePass(m: Math, gwt: Cell, inputs: seq<LayerInput>, drIn: seq<Cell>)
    returns (drI: seq<Cell>, layers: seq<Layer>)
    requires |drIn| == |inputs|
    ensures |drI| == |inputs| && |layers| == |inputs|
    ensures forall i :: 0 <= i < |inputs| ==> drI[i] == ClassifiedDr(inputs[i].ic, drIn[i])
    ensures forall i :: 0 <= i < |inputs| ==> layers[i] == CohesiveStage(m, gwt, inputs[i])
  {
    var n := |inputs|;
    var d := drIn;
    var l := seq(n, _ => NoLayer);
    for i := 0 to n
      invariant |d| == n && |l| == n
      invariant forall j :: 0 <= j < i ==> d[j] == ClassifiedDr(inputs[j].ic, drIn[j])
      invariant forall j :: i <= j < n ==> d[j] == drIn[j]
      invariant forall j :: 0 <= j < i ==> l[j] == CohesiveStage(m, gwt, inputs[j])
      invariant forall j :: i <= j < n ==> l[j] == NoLayer
    {
      var inp := inputs[i];
      if Ge(inp.ic, CohesiveIc) {
        d := d[i := Missing];
      }
      if Eq(inp.ic, 0.0) {
        d := d[i := Missing];
      }
      if Ge(inp.ic, CohesiveIc) {
        l := l[i := CohesiveLayer(m, gwt, inp, OcrRobertson(m, inp.ic, inp.qt))];
      }
    }
    drI, layers := d, l;
  }

  /** The layer a row has after the non-cohesive pass, over the layer
      `before` it had after the cohesive one. */
  function NonCohesiveStage(m: Math, inp: LayerInput, before: Layer): (l: Layer)
    ensures !NonCohesive(inp.ic) ==> l == before
  {
    if NonCohesive(inp.ic) then NonCohesiveLayer(m, inp) else before
  }

  /** The two passes together give every row the layer of its soil type. */
  lemma StagesGiveLayerOf(m: Math, gwt: Cell, inp: LayerInput)
    ensures NonCohesiveStage(m, inp, CohesiveStage(m, gwt, inp))
         == LayerOf(m, gwt, inp, OcrRobertson(m, inp.ic, inp.qt))
  {
  }

  /** The loop of lines 272-357: write the non-cohesive properties over the
      layers of the cohesive pass, and turn Ic = 0 into NaN. */
  method NonCohesivePass(m: Math, inputs: seq<LayerInput>, cohesive: seq<Layer>)
    returns (ic: seq<Cell>, layers: seq<Layer>)
    requires |cohesive| == |inputs|
    ensures |ic| == |inputs| && |layers| == |inputs|
    ensures forall i :: 0 <= i < |inputs| ==> ic[i] == FinalIc(inputs[i].ic)
    ensures forall i :: 0 <= i < |inputs| ==> layers[i] == NonCohesiveStage(m, inputs[i], cohesive[i])
  {
    var n := |inputs|;
    var c := seq(n, i requires 0 <= i < n => inputs[i].ic);
    var l := cohesive;
    for i := 0 to n
      invariant |c| == n && |l| == n
      invariant forall j :: 0 <= j < i ==> c[j] == FinalIc(inputs[j].ic)
      invariant forall j :: i <= j < n ==> c[j] == inputs[j].ic
      invariant forall j :: 0 <= j < i ==> l[j] == NonCohesiveStage(m, inputs[j], cohesive[j])
      invariant forall j :: i <= j < n ==> l[j] == cohesive[j]
    {
      // lines 275-355: the sand properties where 0 < Ic < 2.6
      l := l[i := NonCohesiveStage(m, inputs[i], l[i])];
      // lines 356-357: no data
      if Eq(inputs[i].ic, 0.0) {
        c := c[i := Missing];
      }
    }
    ic, layers := c, l;
  }

  /** Lines 179-357: the overconsolidation ratios, then the two passes. */
  method ComputeLayers(m: Math, gwt: Cell, inputs: seq<LayerInput>, drIn: seq<Cell>)
    returns (drI: seq<Cell>, ic: seq<Cell>, ocrR: seq<Cell>, ocrK: seq<Cell>, layers: seq<Layer>)
    requires |drIn| == |inputs|
    ensures |drI| == |inputs| && |ic| == |inputs| && |ocrR| == |inputs| && |ocrK| == |inputs|
    ensures |layers| == |inputs|
    ensures forall i :: 0 <= i < |inputs| ==>
      && drI[i] == ClassifiedDr(inputs[i].ic, drIn[i])
      && ic[i] == FinalIc(inputs[i].ic)
      && ocrR[i] == OcrRobertson(m, inputs[i].ic, inputs[i].qt)
      && ocrK[i] == OcrKulhawy(inputs[i].ic, inputs[i].qt)
      && layers[i] == LayerOf(m, gwt, inputs[i], ocrR[i])
  {
    var n := |inputs|;
    ocrR := seq(n, i requires 0 <= i < n => OcrRobertson(m, inputs[i].ic, inputs[i].qt));   // line 183
    ocrK := seq(n, i requires 0 <= i < n => OcrKulhawy(inputs[i].ic, inputs[i].qt));        // line 191
    var cohesive;
    drI, cohesive := CohesivePass(m, gwt, inputs, drIn);
    ic, layers := NonCohesivePass(m, inputs, cohesive);
    forall i | 0 <= i < n
      ensures layers[i] == LayerOf(m, gwt, inputs[i], ocrR[i])
    {
      StagesGiveLayerOf(m, gwt, inputs[i]);
    }
  }

  /** Each row gets the properties of at most one soil type: a cohesive row
      has none of the sand properties, a non-cohesive row none of the clay
      ones, and a row with no Ic, or Ic = 0, none at all. */
  lemma LayerKinds(m: Math, gwt: Cell, inp: LayerInput, ocrR: Cell)
    ensures var l := LayerOf(m, gwt, inp, ocrR);
      && (Cohesive(inp.ic) ==>
            l.phiR == l.phiK == l.phiJ == l.phiU == l.drB == l.drK == l.drJ == l.psi == Missing)
      && (NonCohesive(inp.ic) ==> l.cuBq == l.cu14 == l.k0a == l.k0b == l.phiM == Missing)
      && (!inp.ic.Val? || Eq(inp.ic, 0.0) ==> l == NoLayer)
  {
  }

  /** On a cohesive row the friction angle of Mayne (2006) uses Bq = 0.1 in
      every case: `u calc` is the hydrostatic pressure rounded down, so
      u calc - u0 is never positive, and with a positive net tip resistance
      Bq is at most 0. */
  lemma FrictionBqAlwaysDefault(gwt: real, inp: LayerInput)
    requires inp.uCalc == Val(StressColumn.PoreCalc(gwt, inp.depth))
    requires Gt(NetTip(inp), 0.0)
    ensures FrictionBq(RawBq(Val(gwt), inp)) == Val(0.1)
  {
    var x := StressColumn.PoreCalc(gwt, inp.depth) - PoreAt(Val(gwt), inp.depth);
    var net := NetTip(inp).v;
    assert x <= 0.0;
    assert RawBq(Val(gwt), inp) == Val(x / net);
    assert x / net <= 0.0 by {
      assert x / net * net == x;
    }
  }

  /** With the same `u calc`, the undrained clamp of lines 214-215 never
      fires once the net tip resistance reaches 10 kPa: the rounding loses
      less than 1 kPa, so Bq stays above -0.1. */
  lemma UndrainedBqUnclamped(gwt: real, inp: LayerInput)
    requires inp.uCalc == Val(StressColumn.PoreCalc(gwt, inp.depth))
    requires Ge(NetTip(inp), 10.0)
    ensures UndrainedBq(RawBq(Val(gwt), inp)) == RawBq(Val(gwt), inp)
  {
    var x := StressColumn.PoreCalc(gwt, inp.depth) - PoreAt(Val(gwt), inp.depth);
    var net := NetTip(inp).v;
    assert -1.0 < x <= 0.0;
    assert RawBq(Val(gwt), inp) == Val(x / net);
    assert x / net > -0.1 by {
      assert x / net * net == x;
      assert -0.1 * net <= -1.0;
    }
  }
}
