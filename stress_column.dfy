/** The general calculations at the start of `soil_parameters`
    (functions.py:25-85): pressure conversion, friction ratio, unit weight,
    total stress, pore pressure, effective stress and the normalised tip
    resistance Qt. */
module StressColumn {
  import opened Cells

  const Pa: real := 101.325              // atmospheric pressure, kPa
  const DefaultUnitWeight: real := 18.08 // kN/m^3, used where Rf <= 0 (pre-drilled hole)
  const WaterUnitWeight: real := 9.81    // kN/m^3

  /** One row of a sounding as read from the spreadsheet. */
  datatype RawRow = RawRow(depth: real, qcMPa: Cell, qtMPa: Cell, fs: Cell)

  /** `qc calc` / `qt calc` of one row: MPa to kPa, and a non-positive or
      blank reading becomes NaN. */
  function PressureCell(mpa: Cell): (r: Cell)
    ensures r.Val? <==> Gt(mpa, 0.0)
    ensures r.Val? ==> r.v == mpa.v * 1000.0 && r.v > 0.0
  {
    var kpa := Mul(mpa, Val(1000.0));
    if Le(kpa, 0.0) then Missing else kpa
  }

  /** Lines 25-32: the two columns are converted as a whole, then a loop
      overwrites the non-positive cells with NaN. */
  method ConvertPressures(raw: seq<RawRow>) returns (qc: seq<Cell>, qt: seq<Cell>)
    ensures |qc| == |raw| && |qt| == |raw|
    ensures forall i :: 0 <= i < |raw| ==> qc[i] == PressureCell(raw[i].qcMPa)
    ensures forall i :: 0 <= i < |raw| ==> qt[i] == PressureCell(raw[i].qtMPa)
    ensures forall i :: 0 <= i < |raw| ==> (qc[i].Val? ==> qc[i].v > 0.0) && (qt[i].Val? ==> qt[i].v > 0.0)
  {
    var n := |raw|;
    var a := new Cell[n](i requires 0 <= i < n => Mul(raw[i].qcMPa, Val(1000.0)));
    var b := new Cell[n](i requires 0 <= i < n => Mul(raw[i].qtMPa, Val(1000.0)));
    for i := 0 to n
      invariant forall j :: 0 <= j < i ==> a[j] == PressureCell(raw[j].qcMPa) && b[j] == PressureCell(raw[j].qtMPa)
      invariant forall j :: i <= j < n ==> a[j] == Mul(raw[j].qcMPa, Val(1000.0)) && b[j] == Mul(raw[j].qtMPa, Val(1000.0))
    {
      if Le(a[i], 0.0) {
        a[i] := Missing;
      }
      if Le(b[i], 0.0) {
        b[i] := Missing;
      }
    }
    qc, qt := a[..], b[..];
  }

  /** `calcRf` (lines 35-41): friction ratio in percent of qt. */
  function FrictionRatio(fs: Cell, qtCalc: Cell): (r: Cell)
    ensures Lt(fs, 0.00001) || !qtCalc.Val? ==> r == Val(0.0)
    ensures r.Val? && r.v != 0.0 ==> fs.Val? && qtCalc.Val? && qtCalc.v != 0.0 && r.v == fs.v / qtCalc.v * 100.0
    ensures !fs.Val? && qtCalc.Val? ==> r == Missing
    ensures Ge(fs, 0.00001) && qtCalc.Val? && qtCalc.v != 0.0 ==> r == Val(fs.v / qtCalc.v * 100.0)
  {
    if Lt(fs, 0.00001) then Val(0.0)
    else if !qtCalc.Val? then Val(0.0)
    else Mul(Div(fs, qtCalc), Val(100.0))
  }

  /** `calcGamma` (lines 46-50): unit weight, the default where Rf <= 0. */
  function UnitWeight(m: Math, rf: Cell, qtCalc: Cell): (r: Cell)
    ensures Le(rf, 0.0) ==> r == Val(DefaultUnitWeight)
    ensures !rf.Val? ==> r == Missing
    ensures Gt(rf, 0.0) && qtCalc.Val? ==>
      r == Val(9.81 * (0.27 * m.log10(rf.v) + 0.36 * m.log10(qtCalc.v / Pa) + 1.236))
  {
    if Le(rf, 0.0) then Val(DefaultUnitWeight)
    else Map2(rf, qtCalc, (r, q) => 9.81 * (0.27 * m.log10(r) + 0.36 * m.log10(q / Pa) + 1.236))
  }

  /** A row whose sleeve friction is negligible, or whose qt is missing, gets
      the default unit weight whatever the empirical correlation would say. */
  lemma DefaultUnitWeightRows(m: Math, fs: Cell, qtCalc: Cell)
    requires Lt(fs, 0.00001) || !qtCalc.Val?
    ensures UnitWeight(m, FrictionRatio(fs, qtCalc), qtCalc) == Val(DefaultUnitWeight)
  {
  }

  /** Total stress at row i: an explicit forward accumulation of the unit
      weight over the depth steps (lines 55-60), with no averaging of
      adjacent unit weights. */
  function TotalStressAt(depth: seq<real>, gamma: seq<Cell>, i: nat): Cell
    requires |depth| == |gamma| && i < |depth|
  {
    if i == 0 then Mul(gamma[0], Val(depth[0]))
    else Add(Mul(Val(depth[i] - depth[i - 1]), gamma[i]), TotalStressAt(depth, gamma, i - 1))
  }

  method ComputeTotalStress(depth: seq<real>, gamma: seq<Cell>) returns (ts: seq<Cell>)
    requires |depth| == |gamma|
    ensures |ts| == |depth|
    ensures forall i :: 0 <= i < |ts| ==> ts[i] == TotalStressAt(depth, gamma, i)
  {
    var n := |depth|;
    // line 55: the whole column as gamma * depth
    var a := new Cell[n](i requires 0 <= i < n => Mul(gamma[i], Val(depth[i])));
    var i := 1;
    while i < n
      invariant 1 <= i
      invariant forall j :: 0 <= j < n && j < i ==> a[j] == TotalStressAt(depth, gamma, j)
      invariant forall j :: i <= j < n ==> a[j] == Mul(gamma[j], Val(depth[j]))
    {
      ghost var before := a[..];
      a[i] := Add(Mul(Val(depth[i] - depth[i - 1]), gamma[i]), a[i - 1]);
      assert a[..] == before[i := TotalStressAt(depth, gamma, i)];
      i := i + 1;
    }
    ts := a[..];
  }

  /** With one unit weight for the whole sounding the accumulation is exact:
      total stress is unit weight times depth. */
  lemma {:induction false} UniformUnitWeight(depth: seq<real>, gamma: seq<Cell>, g: real, i: nat)
    requires |depth| == |gamma| && i < |depth|
    requires forall j :: 0 <= j <= i ==> gamma[j] == Val(g)
    ensures TotalStressAt(depth, gamma, i) == Val(g * depth[i])
  {
    if i > 0 {
      UniformUnitWeight(depth, gamma, g, i - 1);
      assert (depth[i] - depth[i - 1]) * g + g * depth[i - 1] == g * depth[i];
    }
  }

  /** For depths that do not decrease from a non-negative start and
      non-negative unit weights, total stress is a non-negative number and
      never decreases with depth. */
  lemma {:induction false} TotalStressNondecreasing(depth: seq<real>, gamma: seq<Cell>, i: nat)
    requires |depth| == |gamma| && i < |depth|
    requires depth[0] >= 0.0
    requires forall j :: 0 < j <= i ==> depth[j - 1] <= depth[j]
    requires forall j :: 0 <= j <= i ==> Ge(gamma[j], 0.0)
    ensures Ge(TotalStressAt(depth, gamma, i), 0.0)
    ensures i > 0 ==> TotalStressAt(depth, gamma, i - 1).v <= TotalStressAt(depth, gamma, i).v
  {
    if i == 0 {
      assert gamma[0].v * depth[0] >= 0.0;
    } else {
      TotalStressNondecreasing(depth, gamma, i - 1);
      assert (depth[i] - depth[i - 1]) * gamma[i].v >= 0.0;
    }
  }

  /** A missing unit weight makes the total stress of that row and of every
      row below it missing. */
  lemma {:induction false} MissingUnitWeightPropagates(depth: seq<real>, gamma: seq<Cell>, j: nat, i: nat)
    requires |depth| == |gamma| && j <= i < |depth|
    requires !gamma[j].Val?
    ensures TotalStressAt(depth, gamma, i) == Missing
  {
    if i > j {
      MissingUnitWeightPropagates(depth, gamma, j, i - 1);
    }
  }

  /** Hydrostatic pore pressure u0 (kPa) below the groundwater table, 0 above
      it (lines 71-72, 209-212, 258-261). */
  function HydrostaticPressure(gwt: real, depth: real): (u0: real)
    ensures u0 >= 0.0
    ensures u0 > 0.0 <==> depth > gwt
  {
    if depth >= gwt then (depth - gwt) * WaterUnitWeight else 0.0
  }

  /** Effective stress of a row when the groundwater table is known
      (lines 65, 71-72): total stress less the hydrostatic pressure. */
  function EffectiveStress(gwt: real, depth: real, total: Cell): (r: Cell)
    ensures r.Val? <==> total.Val?
    ensures r.Val? ==> r.v == total.v - HydrostaticPressure(gwt, depth) && r.v <= total.v
    ensures depth < gwt ==> r == total
  {
    if depth >= gwt then Sub(total, Val((depth - gwt) * WaterUnitWeight)) else total
  }

  /** `u calc` (lines 67, 73): the hydrostatic pressure cast to int64, which
      truncates; the argument is never negative, so truncation is Floor. */
  function PoreCalc(gwt: real, depth: real): (u: real)
    ensures 0.0 <= u <= HydrostaticPressure(gwt, depth) < u + 1.0
  {
    if depth >= gwt then ((depth - gwt) * WaterUnitWeight).Floor as real else 0.0
  }

  /** `Fr (%)` (lines 76-80): sleeve friction over net tip resistance. */
  function NetFrictionRatio(fs: Cell, qtCalc: Cell, total: Cell): (r: Cell)
    ensures Le(fs, 0.0) ==> r == Val(0.0)
    ensures Gt(fs, 0.0) && qtCalc.Val? && total.Val? && qtCalc.v != total.v ==>
      r == Val(fs.v / (qtCalc.v - total.v) * 100.0)
    ensures !fs.Val? ==> r == Missing
    ensures !Le(fs, 0.0) && r.Val? ==>
      fs.Val? && qtCalc.Val? && total.Val? && qtCalc.v - total.v != 0.0 &&
      r.v == fs.v / (qtCalc.v - total.v) * 100.0
  {
    if Le(fs, 0.0) then Val(0.0) else Mul(Div(fs, Sub(qtCalc, total)), Val(100.0))
  }

  /** Lines 63-82. Only a positive groundwater-table depth lets the loop
      run; otherwise (the source only warns) effective stress, `u calc` and
      Fr stay NaN for every row. */
  method ComputeWaterColumns(gwt: Cell, depth: seq<real>, total: seq<Cell>, fs: seq<Cell>, qtCalc: seq<Cell>)
    returns (effective: seq<Cell>, uCalc: seq<Cell>, fr: seq<Cell>)
    requires |total| == |depth| && |fs| == |depth| && |qtCalc| == |depth|
    ensures |effective| == |depth| && |uCalc| == |depth| && |fr| == |depth|
    ensures Gt(gwt, 0.0) ==> forall i :: 0 <= i < |depth| ==>
      && effective[i] == EffectiveStress(gwt.v, depth[i], total[i])
      && uCalc[i] == Val(PoreCalc(gwt.v, depth[i]))
      && fr[i] == NetFrictionRatio(fs[i], qtCalc[i], total[i])
    ensures !Gt(gwt, 0.0) ==> forall i :: 0 <= i < |depth| ==>
      effective[i] == Missing && uCalc[i] == Missing && fr[i] == Missing
  {
    var n := |depth|;
    var e := seq(n, _ => Missing);
    var u := seq(n, _ => Missing);
    var f := seq(n, _ => Missing);
    if Gt(gwt, 0.0) {
      var g := gwt.v;
      e := total;                  // line 65
      u := seq(n, _ => Val(0.0));  // line 67
      for i := 0 to n
        invariant |e| == n && |u| == n && |f| == n
        invariant forall j :: 0 <= j < i ==>
          e[j] == EffectiveStress(g, depth[j], total[j]) && u[j] == Val(PoreCalc(g, depth[j])) &&
          f[j] == NetFrictionRatio(fs[j], qtCalc[j], total[j])
        invariant forall j :: i <= j < n ==> e[j] == total[j] && u[j] == Val(0.0)
      {
        if depth[i] >= g {
          e := e[i := Sub(total[i], Val((depth[i] - g) * WaterUnitWeight))];
          u := u[i := Val(((depth[i] - g) * WaterUnitWeight).Floor as real)];
        }
        if Le(fs[i], 0.0) {
          f := f[i := Val(0.0)];
        } else {
          f := f[i := Mul(Div(fs[i], Sub(qtCalc[i], total[i])), Val(100.0))];
        }
      }
    }
    effective, uCalc, fr := e, u, f;
  }

  /** `Qt` (line 85): net tip resistance over effective stress. */
  function NormalisedTip(qtCalc: Cell, total: Cell, effective: Cell): (r: Cell)
    ensures r.Val? <==> qtCalc.Val? && total.Val? && effective.Val? && effective.v != 0.0
    ensures r.Val? ==> r.v * effective.v == qtCalc.v - total.v
  {
    Div(Sub(qtCalc, total), effective)
  }
}
