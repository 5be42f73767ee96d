/** Cells of the sounding table.

    The source keeps every quantity in a pandas DataFrame whose cells hold a
    float, NaN (a blank or an undefined value) or, in the `Dr I` column only,
    the string "No Solution". Every comparison with NaN is false, and
    arithmetic on NaN gives NaN. `Cell` makes these three cases explicit and
    the helpers below give them the same semantics. */
module Cells {

  datatype Cell = Missing | NoSolution | Val(v: real)

  // Comparisons against a constant: anything that is not a number compares false.
  predicate Lt(a: Cell, c: real) { a.Val? && a.v < c }
  predicate Le(a: Cell, c: real) { a.Val? && a.v <= c }
  predicate Gt(a: Cell, c: real) { a.Val? && a.v > c }
  predicate Ge(a: Cell, c: real) { a.Val? && a.v >= c }
  predicate Eq(a: Cell, c: real) { a.Val? && a.v == c }

  // Arithmetic: a non-number operand gives a non-number (NaN) result.
  function Add(a: Cell, b: Cell): Cell { if a.Val? && b.Val? then Val(a.v + b.v) else Missing }
  function Sub(a: Cell, b: Cell): Cell { if a.Val? && b.Val? then Val(a.v - b.v) else Missing }
  function Mul(a: Cell, b: Cell): Cell { if a.Val? && b.Val? then Val(a.v * b.v) else Missing }

  /** Floating-point division by zero gives an infinity or NaN; the model
      treats both as a non-number. */
  function Div(a: Cell, b: Cell): Cell
  {
    if a.Val? && b.Val? && b.v != 0.0 then Val(a.v / b.v) else Missing
  }

  function Abs(a: Cell): Cell
  {
    if a.Val? then Val(if a.v < 0.0 then -a.v else a.v) else Missing
  }

  function Map1(a: Cell, f: real -> real): Cell { if a.Val? then Val(f(a.v)) else Missing }
  function Map2(a: Cell, b: Cell, f: (real, real) -> real): Cell
  {
    if a.Val? && b.Val? then Val(f(a.v, b.v)) else Missing
  }

  /** The source's `if x > cap: x = cap` (or `cap if x >= cap else x`):
      a number above the cap becomes the cap, anything else is kept,
      NaN included. */
  function CapAt(a: Cell, cap: real): (r: Cell)
    ensures r.Val? <==> a.Val?
    ensures r.Val? ==> r.v <= cap && (r.v == a.v || r.v == cap)
    ensures Le(a, cap) ==> r == a
  {
    if Gt(a, cap) then Val(cap) else a
  }

  /** A depth column that never decreases from one row to the next, as a
      sounding's depths do. */
  predicate Sorted(d: seq<real>)
  {
    forall i, j :: 0 <= i < j < |d| ==> d[i] <= d[j]
  }

  /** The floating-point primitives the correlations are built from. They
      are left uninterpreted: any functions of these types. */
  datatype Math = Math(
    log10: real -> real,
    ln: real -> real,
    exp: real -> real,
    pow: (real, real) -> real,
    sin: real -> real,
    atanDegrees: real -> real)

  function Log10(m: Math, a: Cell): Cell { Map1(a, m.log10) }
  function Ln(m: Math, a: Cell): Cell { Map1(a, m.ln) }
  function Exp(m: Math, a: Cell): Cell { Map1(a, m.exp) }
  function Pow(m: Math, a: Cell, b: Cell): Cell { Map2(a, b, m.pow) }
}
