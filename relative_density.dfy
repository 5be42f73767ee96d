/** The relative-density iteration of `soil_parameters` after Idriss and
    Boulanger (2008), functions.py:135-170: every pass recomputes Cn, the
    normalised tip resistance qc1N and `Dr I` for all rows from the current
    guess qc1, which starts as the measured qc. The loop stops once no row
    with a positive Dr has a residual above the tolerance; on the hundredth
    pass it stops anyway and writes "No Solution" on the rows that still
    fail the test. */
module RelativeDensity {
  import opened Cells
  import StressColumn
  import Iteration

  const Tolerance: real := 0.01
  const MaxPasses: nat := 100

  /** The inputs of a row, fixed across passes. */
  datatype DrInput = DrInput(qcCalc: Cell, effective: Cell)

  /** The cells one pass writes into a row. */
  datatype DrRow = DrRow(cn2: Cell, qc2: Cell, dr: Cell, error: Cell)

  /** Dr = 0.478 qc1^0.264 - 1.063 (line 149). */
  function DrFormula(m: Math, qc1: Cell): (dr: Cell)
    ensures dr.Val? <==> qc1.Val?
    ensures dr.Val? ==> dr.v == 0.478 * m.pow(qc1.v, 0.264) - 1.063
  {
    Sub(Mul(Val(0.478), Pow(m, qc1, Val(0.264))), Val(1.063))
  }

  /** One pass over one row (lines 143-152): Cn = (Pa / effective stress)
      ^ (1.338 - 0.249 qc1^0.264), qc2 = Cn qc / Pa, Dr from the guess qc1,
      and the residual |qc1 - qc2|. */
  function PassRow(m: Math, inp: DrInput, qc1: Cell): DrRow
  {
    var cn2 := Pow(m, Div(Val(StressColumn.Pa), inp.effective),
                   Sub(Val(1.338), Mul(Val(0.249), Pow(m, qc1, Val(0.264)))));
    var qc2 := Div(Mul(cn2, inp.qcCalc), Val(StressColumn.Pa));
    DrRow(cn2, qc2, DrFormula(m, qc1), Abs(Sub(qc1, qc2)))
  }

  /** What a pass writes into a row, in terms of its guess: Dr is always the
      Dr of the guess (one pass behind qc2), the residual is never negative,
      and a row without effective stress or qc has no qc2 and no residual. */
  lemma PassRowFacts(m: Math, inp: DrInput, qc1: Cell)
    ensures var r := PassRow(m, inp, qc1);
      && r.dr == DrFormula(m, qc1)
      && (r.error.Val? ==> r.error.v >= 0.0)
      && (r.qc2.Val? <==> inp.effective.Val? && inp.effective.v != 0.0 && qc1.Val? && inp.qcCalc.Val?)
      && (r.error.Val? <==> r.qc2.Val?)
  {
  }

  /** The per-row pass as a value, so that the loop below can be stated for
      any per-row computation and instantiated with this one. */
  function RowStep(m: Math): (DrInput, Cell) -> DrRow
  {
    (inp, qc1) => PassRow(m, inp, qc1)
  }

  /** A row fails the test when Dr > 0 and the residual exceeds the
      tolerance (lines 164 and 167). */
  predicate Blocks(r: DrRow)
  {
    Gt(r.dr, 0.0) && Gt(r.error, Tolerance)
  }

  /** Line 155: the next guess is the qc2 column. */
  function NextTipOf(r: DrRow): Cell { r.qc2 }

  /** Line 135: the first guess is the measured qc. */
  function FirstTip(inputs: seq<DrInput>): (qc1: seq<Cell>)
    ensures |qc1| == |inputs|
  {
    seq(|inputs|, i requires 0 <= i < |inputs| => inputs[i].qcCalc)
  }

  /** The qc1 column before pass k + 1. */
  function Guess(step: (DrInput, Cell) -> DrRow, inputs: seq<DrInput>, k: nat): (qc1: seq<Cell>)
    ensures |qc1| == |inputs|
  {
    Iteration.Guess(step, NextTipOf, FirstTip(inputs), inputs, k)
  }

  /** The cells written by pass number k + 1, for this iteration. */
  function PassAt(step: (DrInput, Cell) -> DrRow, inputs: seq<DrInput>, k: nat): (rows: seq<DrRow>)
    ensures |rows| == |inputs|
  {
    Iteration.PassAt(step, NextTipOf, FirstTip(inputs), inputs, k)
  }

  /** The Dr column a converged pass leaves behind. */
  function DrColumn(rows: seq<DrRow>): (dr: seq<Cell>)
    ensures |dr| == |rows|
    ensures forall i :: 0 <= i < |rows| ==> dr[i] == rows[i].dr
  {
    seq(|rows|, i requires 0 <= i < |rows| => rows[i].dr)
  }

  /** The Dr column after the hundredth pass: the rows that fail the test
      hold "No Solution" instead of their Dr. */
  function Unsolved(rows: seq<DrRow>): (dr: seq<Cell>)
    ensures |dr| == |rows|
    ensures forall i :: 0 <= i < |rows| ==> dr[i] == (if Blocks(rows[i]) then NoSolution else rows[i].dr)
  {
    seq(|rows|, i requires 0 <= i < |rows| => if Blocks(rows[i]) then NoSolution else rows[i].dr)
  }

  /** The `Dr I` column the loop leaves after `passes` passes. */
  function DrAfter(step: (DrInput, Cell) -> DrRow, inputs: seq<DrInput>, passes: nat): (dr: seq<Cell>)
    requires 1 <= passes <= MaxPasses
    ensures |dr| == |inputs|
  {
    if passes < MaxPasses then DrColumn(PassAt(step, inputs, passes - 1))
    else Unsolved(PassAt(step, inputs, MaxPasses - 1))
  }

  /** Lines 161-164 on the hundredth pass: overwrite the failing rows. */
  method MarkUnsolved(rows: seq<DrRow>) returns (dr: seq<Cell>)
    ensures dr == Unsolved(rows)
  {
    var a := new Cell[|rows|](i requires 0 <= i < |rows| => rows[i].dr);
    for i := 0 to |rows|
      invariant forall j :: 0 <= j < i ==> a[j] == Unsolved(rows)[j]
      invariant forall j :: i <= j < |rows| ==> a[j] == rows[j].dr
    {
      if Gt(rows[i].dr, 0.0) && Gt(rows[i].error, Tolerance) {
        a[i] := NoSolution;
      }
    }
    dr := a[..];
  }

  /** Lines 165-168 on the other passes: stop at the first failing row. */
  method ExitTest(rows: seq<DrRow>) returns (done: bool)
    ensures done <==> Iteration.Converged(Blocks, rows)
  {
    Iteration.ConvergedIffNoneBlocks(Blocks, rows);
    done := true;
    var i := 0;
    while i < |rows|
      invariant 0 <= i <= |rows|
      invariant forall j :: 0 <= j < i ==> !Blocks(rows[j])
    {
      if Gt(rows[i].dr, 0.0) && Gt(rows[i].error, Tolerance) {
        done := false;
        break;
      }
      i := i + 1;
    }
  }

  /** The loop of lines 138-170 for any per-row pass `step` (the source's is
      `RowStep(m)`): it runs until a pass meets the test, or for exactly 100
      passes, and returns the `Dr I` column. */
  method SolveRelativeDensity(step: (DrInput, Cell) -> DrRow, inputs: seq<DrInput>)
    returns (dr: seq<Cell>, passes: nat)
    ensures 1 <= passes <= MaxPasses
    ensures forall k :: 0 <= k < passes - 1 ==> !Iteration.Converged(Blocks, PassAt(step, inputs, k))
    ensures passes < MaxPasses ==>
      Iteration.Converged(Blocks, PassAt(step, inputs, passes - 1)) && dr == DrColumn(PassAt(step, inputs, passes - 1))
    ensures passes == MaxPasses ==> dr == Unsolved(PassAt(step, inputs, MaxPasses - 1))
    ensures dr == DrAfter(step, inputs, passes)
  {
    var qc1 := FirstTip(inputs);   // line 135
    var rows := Iteration.Pass(step, inputs, qc1);
    passes := 1;
    var done := ExitTest(rows);
    while !done
      invariant 1 <= passes < MaxPasses
      invariant rows == PassAt(step, inputs, passes - 1)
      invariant done <==> Iteration.Converged(Blocks, rows)
      invariant forall k :: 0 <= k < passes - 1 ==> !Iteration.Converged(Blocks, PassAt(step, inputs, k))
      decreases MaxPasses - passes
    {
      qc1 := Iteration.NextGuess(NextTipOf, rows);   // line 155
      rows := Iteration.Pass(step, inputs, qc1);
      passes := passes + 1;
      if passes == MaxPasses {
        dr := MarkUnsolved(rows);
        return;
      }
      done := ExitTest(rows);
    }
    dr := DrColumn(rows);
  }

  /** "No Solution" appears exactly on the rows that still fail the test
      after the hundredth pass; every other row holds the Dr of the guess
      its last pass started from. */
  lemma NoSolutionRows(m: Math, inputs: seq<DrInput>, passes: nat, i: nat)
    requires 1 <= passes <= MaxPasses && i < |inputs|
    ensures var dr := DrAfter(RowStep(m), inputs, passes);
      && (dr[i] == NoSolution <==> passes == MaxPasses && Blocks(PassAt(RowStep(m), inputs, MaxPasses - 1)[i]))
      && (dr[i] != NoSolution ==> dr[i] == DrFormula(m, Guess(RowStep(m), inputs, passes - 1)[i]))
  {
    PassRowFacts(m, inputs[i], Guess(RowStep(m), inputs, passes - 1)[i]);
  }
}
