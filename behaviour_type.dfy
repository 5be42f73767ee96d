/** The soil-behaviour-type iteration of `soil_parameters`
    (functions.py:89-131): every pass recomputes Cn, Qtn, Ic and the next
    stress exponent n2 for all rows from the current guess n1, and the loop
    stops once no row with Ic > 0 has a signed residual n1 - n2 above the
    tolerance. */
module SoilBehaviourType {
  import opened Cells
  import StressColumn
  import Iteration

  const Tolerance: real := 0.01
  const CnCap: real := 1.7

  /** The inputs of a row, fixed across passes. */
  datatype IcInput = IcInput(qtCalc: Cell, total: Cell, effective: Cell, fr: Cell)

  /** The cells one pass writes into a row. */
  datatype IcRow = IcRow(cn: Cell, qtn: Cell, ic: Cell, n2: Cell, error: Cell)

  /** Cn = (Pa / effective stress)^n1, capped at 1.7 (lines 95-96). */
  function StressNormalisation(m: Math, effective: Cell, n1: Cell): (cn: Cell)
    ensures cn.Val? <==> effective.Val? && effective.v != 0.0 && n1.Val?
    ensures cn.Val? ==> cn.v <= CnCap
  {
    CapAt(Pow(m, Div(Val(StressColumn.Pa), effective), n1), CnCap)
  }

  /** Qtn = ((qt - total stress) / Pa) * Cn (line 99). */
  function NormalisedCone(inp: IcInput, cn: Cell): Cell
  {
    Mul(Div(Sub(inp.qtCalc, inp.total), Val(StressColumn.Pa)), cn)
  }

  /** sqrt((3.47 - log10 Qtn)^2 + (log10 Fr + 1.22)^2) (line 109). */
  function IndexFormula(m: Math, qtn: real, fr: real): real
  {
    var a := 3.47 - m.log10(qtn);
    var b := m.log10(fr) + 1.22;
    m.pow(a * a + b * b, 0.5)
  }

  /** Ic (lines 102-109): 0 marks a row without usable data. The source's
      second test compares with NaN using `==`, which is always false, so
      that branch never runs and is not modelled. */
  function BehaviourIndex(m: Math, fr: Cell, qtn: Cell): (ic: Cell)
    ensures Le(fr, 0.0) || Le(qtn, 0.0) ==> ic == Val(0.0)
    ensures ic.Val? <==> Le(fr, 0.0) || Le(qtn, 0.0) || (fr.Val? && qtn.Val?)
    ensures Gt(fr, 0.0) && Gt(qtn, 0.0) ==> ic == Val(IndexFormula(m, qtn.v, fr.v))
  {
    if Le(fr, 0.0) || Le(qtn, 0.0) then Val(0.0)
    else Map2(qtn, fr, (q, f) => IndexFormula(m, q, f))
  }

  /** n2 = 0.381 Ic + 0.05 (effective stress / Pa) - 0.15, capped at 1
      (lines 112-118). */
  function NextExponent(ic: Cell, effective: Cell): (n2: Cell)
    ensures n2.Val? <==> ic.Val? && effective.Val?
    ensures n2.Val? ==> n2.v <= 1.0
    ensures n2.Val? && 0.381 * ic.v + 0.05 * (effective.v / StressColumn.Pa) - 0.15 <= 1.0 ==>
      n2.v == 0.381 * ic.v + 0.05 * (effective.v / StressColumn.Pa) - 0.15
  {
    CapAt(Sub(Add(Mul(Val(0.381), ic), Mul(Val(0.05), Div(effective, Val(StressColumn.Pa)))), Val(0.15)), 1.0)
  }

  /** One pass over one row; `error` is the signed residual n1 - n2 (line 121). */
  function PassRow(m: Math, inp: IcInput, n1: Cell): IcRow
  {
    var cn := StressNormalisation(m, inp.effective, n1);
    var qtn := NormalisedCone(inp, cn);
    var ic := BehaviourIndex(m, inp.fr, qtn);
    var n2 := NextExponent(ic, inp.effective);
    IcRow(cn, qtn, ic, n2, Sub(n1, n2))
  }

  /** The per-row pass as a value, so that the loop below can be stated
      for any per-row computation and instantiated with this one. */
  function RowStep(m: Math): (IcInput, Cell) -> IcRow
  {
    (inp, n1) => PassRow(m, inp, n1)
  }

  /** Every pass keeps the caps of lines 96 and 115-118 and writes Ic = 0 on
      the rows whose Fr or Qtn is not positive. */
  lemma PassBounds(m: Math, inputs: seq<IcInput>, n1: seq<Cell>, i: nat)
    requires |n1| == |inputs| && i < |inputs|
    ensures var r := Iteration.Pass(RowStep(m), inputs, n1)[i];
      && (r.cn.Val? ==> r.cn.v <= CnCap)
      && (r.n2.Val? ==> r.n2.v <= 1.0)
      && (Le(inputs[i].fr, 0.0) || Le(r.qtn, 0.0) ==> r.ic == Val(0.0))
      && (r.error.Val? <==> n1[i].Val? && r.n2.Val?)
  {
  }

  /** A row stops the loop when Ic > 0 and the signed residual exceeds the
      tolerance (line 128); a row whose n2 overshoots n1 never does. */
  predicate Blocks(r: IcRow)
  {
    Gt(r.ic, 0.0) && Gt(r.error, Tolerance)
  }

  /** Lines 124-131: scan the rows and stop at the first one that blocks. */
  method ExitTest(rows: seq<IcRow>) returns (done: bool)
    ensures done <==> Iteration.Converged(Blocks, rows)
  {
    Iteration.ConvergedIffNoneBlocks(Blocks, rows);
    done := true;
    var i := 0;
    while i < |rows|
      invariant 0 <= i <= |rows|
      invariant forall j :: 0 <= j < i ==> !Blocks(rows[j])
    {
      if Gt(rows[i].ic, 0.0) && Gt(rows[i].error, Tolerance) {
        done := false;
        break;
      }
      i := i + 1;
    }
  }

  /** Line 122: the next guess is the n2 column. */
  function NextExponentOf(r: IcRow): Cell { r.n2 }

  /** Line 89: the first guess is 1 on every row. */
  function FirstExponent(inputs: seq<IcInput>): (n1: seq<Cell>)
    ensures |n1| == |inputs|
  {
    seq(|inputs|, _ => Val(1.0))
  }

  /** The n1 column after k passes. */
  function Guess(step: (IcInput, Cell) -> IcRow, inputs: seq<IcInput>, k: nat): (n1: seq<Cell>)
    ensures |n1| == |inputs|
  {
    Iteration.Guess(step, NextExponentOf, FirstExponent(inputs), inputs, k)
  }

  /** The cells written by pass number k + 1, for this iteration. */
  function PassAt(step: (IcInput, Cell) -> IcRow, inputs: seq<IcInput>, k: nat): (rows: seq<IcRow>)
    ensures |rows| == |inputs|
  {
    Iteration.PassAt(step, NextExponentOf, FirstExponent(inputs), inputs, k)
  }

  /** After the first pass the stress exponent never exceeds 1. */
  lemma GuessAtMostOne(m: Math, inputs: seq<IcInput>, k: nat, i: nat)
    requires i < |inputs|
    ensures var n1 := Guess(RowStep(m), inputs, k); n1[i].Val? ==> n1[i].v <= 1.0
  {
    if k > 0 {
      PassBounds(m, inputs, Guess(RowStep(m), inputs, k - 1), i);
    }
  }

  /** Without a groundwater table neither effective stress nor Fr is set,
      so no row gets a numeric Ic and the first pass already ends the loop. */
  lemma NoWaterTableStopsAtOnce(m: Math, inputs: seq<IcInput>, n1: seq<Cell>)
    requires |n1| == |inputs|
    requires forall i :: 0 <= i < |inputs| ==> inputs[i].effective == Missing && inputs[i].fr == Missing
    ensures forall i :: 0 <= i < |inputs| ==> Iteration.Pass(RowStep(m), inputs, n1)[i].ic == Missing
    ensures Iteration.Converged(Blocks, Iteration.Pass(RowStep(m), inputs, n1))
  {
    Iteration.ConvergedIffNoneBlocks(Blocks, Iteration.Pass(RowStep(m), inputs, n1));
  }

  /** The loop of lines 89-131, for any per-row pass `step` (the source's is
      `RowStep(m)`). The source has no iteration cap; the model runs at most
      maxPasses passes and reports whether the exit test held. It returns
      the cells of the last pass, which is the first pass after which the
      exit test holds. */
  method SolveBehaviourType(step: (IcInput, Cell) -> IcRow, inputs: seq<IcInput>, maxPasses: nat)
    returns (rows: seq<IcRow>, passes: nat, converged: bool)
    requires maxPasses >= 1
    ensures 1 <= passes <= maxPasses
    ensures rows == PassAt(step, inputs, passes - 1)
    ensures converged <==> Iteration.Converged(Blocks, rows)
    ensures !converged ==> passes == maxPasses
    ensures forall k :: 0 <= k < passes - 1 ==> !Iteration.Converged(Blocks, PassAt(step, inputs, k))
  {
    var n1 := FirstExponent(inputs);   // line 89
    rows := Iteration.Pass(step, inputs, n1);
    passes := 1;
    converged := ExitTest(rows);
    while !converged && passes < maxPasses
      invariant 1 <= passes <= maxPasses
      invariant rows == PassAt(step, inputs, passes - 1)
      invariant converged <==> Iteration.Converged(Blocks, rows)
      invariant forall k :: 0 <= k < passes - 1 ==> !Iteration.Converged(Blocks, PassAt(step, inputs, k))
    {
      n1 := Iteration.NextGuess(NextExponentOf, rows);   // line 122
      rows := Iteration.Pass(step, inputs, n1);
      passes := passes + 1;
      converged := ExitTest(rows);
    }
  }
}
