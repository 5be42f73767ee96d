/** The fixed-point loops of `soil_parameters`, stated once for both of
    them: the Ic iteration (functions.py:89-131) and the relative-density
    iteration (functions.py:135-170). Each pass computes every row from its
    own fixed input and its current guess, the next guess is one column of
    what the pass wrote, and the loop stops once no row blocks. The per-row
    computation `step`, the column `next` and the test `blocks` are
    parameters; each iteration module supplies its own. */
module Iteration {
  import opened Cells

  /** One pass over all rows: every row from its own input and guess. */
  function Pass<I, R>(step: (I, Cell) -> R, inputs: seq<I>, guess: seq<Cell>): (rows: seq<R>)
    requires |guess| == |inputs|
    ensures |rows| == |inputs|
  {
    seq(|inputs|, i requires 0 <= i < |inputs| => step(inputs[i], guess[i]))
  }

  /** The exit test: no row blocks. Written as a scan from the first row,
      the way the source's loops test it. */
  predicate Converged<R>(blocks: R -> bool, rows: seq<R>)
  {
    |rows| == 0 || (!blocks(rows[0]) && Converged(blocks, rows[1..]))
  }

  lemma {:induction false} ConvergedIffNoneBlocks<R>(blocks: R -> bool, rows: seq<R>)
    ensures Converged(blocks, rows) <==> forall i :: 0 <= i < |rows| ==> !blocks(rows[i])
  {
    if |rows| > 0 {
      ConvergedIffNoneBlocks(blocks, rows[1..]);
      assert forall i :: 1 <= i < |rows| ==> rows[i] == rows[1..][i - 1];
    }
  }

  /** The next guess: the `next` column of the pass just made. */
  function NextGuess<R>(next: R -> Cell, rows: seq<R>): (guess: seq<Cell>)
    ensures |guess| == |rows|
    ensures forall i :: 0 <= i < |rows| ==> guess[i] == next(rows[i])
  {
    seq(|rows|, i requires 0 <= i < |rows| => next(rows[i]))
  }

  /** The guess after k passes, starting from `first`. */
  function Guess<I, R>(step: (I, Cell) -> R, next: R -> Cell, first: seq<Cell>, inputs: seq<I>, k: nat)
    : (guess: seq<Cell>)
    requires |first| == |inputs|
    ensures |guess| == |inputs|
  {
    if k == 0 then first
    else NextGuess(next, Pass(step, inputs, Guess(step, next, first, inputs, k - 1)))
  }

  /** The rows written by pass number k + 1: the pass over the guess left
      by the k passes before it. */
  function PassAt<I, R>(step: (I, Cell) -> R, next: R -> Cell, first: seq<Cell>, inputs: seq<I>, k: nat)
    : (rows: seq<R>)
    requires |first| == |inputs|
    ensures |rows| == |inputs|
  {
    Pass(step, inputs, Guess(step, next, first, inputs, k))
  }
}
