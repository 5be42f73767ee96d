/** The liquefaction potential index LPI (functions.py:557-575) and its
    variant LPIish (functions.py:576-599): depth integrals over the FS
    profile, row by row, each row integrating over the interval from the
    row above it down to its own depth. */
module PotentialIndex {
  import opened Cells

  const MaxDepth: real := 20.0
  /** LPIish skips rows shallower than this (line 590). */
  const MinIshDepth: real := 0.4

  /** The integration interval of row i: from the row above, or for row 0
      from as far above it as row 1 is below it (lines 566-572, 591-596). */
  function Window(d: seq<real>, i: nat): (w: (real, real))
    requires i < |d| && (i == 0 ==> |d| > 1)
    ensures w.1 == d[i]
    ensures w.1 - w.0 == (if i == 0 then d[1] - d[0] else d[i] - d[i - 1])
  {
    if i == 0 then (d[0] - (d[1] - d[0]), d[0]) else (d[i - 1], d[i])
  }

  lemma WindowOrdered(d: seq<real>, i: nat)
    requires i < |d| && (i == 0 ==> |d| > 1) && Sorted(d)
    ensures Window(d, i).0 <= Window(d, i).1
  {
    if i == 0 {
      assert d[0] <= d[1];
    } else {
      assert d[i - 1] <= d[i];
    }
  }

  /** The integral of (1 - FS)(10 - 0.5 z) from a to b, in closed form: the
      integrand is linear in z, so the trapezoid rule is exact. */
  function LinearIntegral(fs: real, a: real, b: real): (r: real)
    ensures r == (1.0 - fs) * (b - a) * ((10.0 - 0.5 * a) + (10.0 - 0.5 * b)) / 2.0
  {
    (1.0 - fs) * (10.0 * (b - a) - 0.25 * (b * b - a * a))
  }

  /** Over an interval that ends no deeper than 20 m, a row with FS <= 1
      never adds a negative amount. */
  lemma LinearIntegralNonNegative(fs: real, a: real, b: real)
    requires fs <= 1.0 && a <= b <= MaxDepth
    ensures LinearIntegral(fs, a, b) >= 0.0
  {
    var height := (10.0 - 0.5 * a) + (10.0 - 0.5 * b);
    assert height >= 0.0;
    assert (b - a) * height >= 0.0;
    assert (1.0 - fs) * ((b - a) * height) >= 0.0;
    assert (1.0 - fs) * (b - a) * height == (1.0 - fs) * ((b - a) * height);
  }

  /** A row takes part in LPI when it is at most 20 deep and FS <= 1
      (line 565); a missing FS compares false. */
  predicate LpiRow(depth: real, fs: Cell)
  {
    depth <= MaxDepth && Le(fs, 1.0)
  }

  /** The source reads row 1 for a contributing row 0. */
  predicate LpiDefined(d: seq<real>, fs: seq<Cell>)
  {
    |d| == |fs| && (|d| == 1 ==> !LpiRow(d[0], fs[0]))
  }

  function LpiTerm(d: seq<real>, fs: seq<Cell>, i: nat): (r: real)
    requires LpiDefined(d, fs) && i < |d|
    ensures !LpiRow(d[i], fs[i]) ==> r == 0.0
  {
    if LpiRow(d[i], fs[i]) then LinearIntegral(fs[i].v, Window(d, i).0, Window(d, i).1) else 0.0
  }

  /** LPI from row i on. */
  function LpiFrom(d: seq<real>, fs: seq<Cell>, i: nat): real
    requires LpiDefined(d, fs) && i <= |d|
    decreases |d| - i
  {
    if i == |d| then 0.0 else LpiTerm(d, fs, i) + LpiFrom(d, fs, i + 1)
  }

  /** `LPI` (lines 557-575): the sum over the rows of their terms. */
  method PotentialIndex(d: seq<real>, fs: seq<Cell>) returns (lpi: real)
    requires LpiDefined(d, fs)
    ensures lpi == LpiFrom(d, fs, 0)
  {
    lpi := 0.0;
    var i := 0;
    while i < |d|
      invariant i <= |d|
      invariant lpi + LpiFrom(d, fs, i) == LpiFrom(d, fs, 0)
    {
      if d[i] <= MaxDepth && Le(fs[i], 1.0) {
        var w := Window(d, i);
        lpi := lpi + LinearIntegral(fs[i].v, w.0, w.1);
      }
      i := i + 1;
    }
  }

  /** LPI is never negative on a profile of non-decreasing depths. */
  lemma {:induction false} PotentialIndexNonNegative(d: seq<real>, fs: seq<Cell>, i: nat)
    requires LpiDefined(d, fs) && i <= |d| && Sorted(d)
    ensures LpiFrom(d, fs, i) >= 0.0
    decreases |d| - i
  {
    if i < |d| {
      PotentialIndexNonNegative(d, fs, i + 1);
      if LpiRow(d[i], fs[i]) {
        WindowOrdered(d, i);
        LinearIntegralNonNegative(fs[i].v, Window(d, i).0, Window(d, i).1);
      }
    }
  }

  /** A row's share of LPIish: 1 - FS when FS <= 1 and
      h1 (exp(5 / (25.56 (1 - FS))) - 1) <= 3, else 0 (lines 577-583). At
      FS = 1 the source divides by zero; the factor 1 - FS is 0 there, so
      the share is 0 whatever the test gives. */
  function IshFactor(m: Math, h1: real, fs: Cell): (c: real)
    ensures c >= 0.0
    ensures c > 0.0 ==> Lt(fs, 1.0) && c == 1.0 - fs.v
  {
    if Lt(fs, 1.0) && h1 * (m.exp(5.0 / (25.56 * (1.0 - fs.v))) - 1.0) <= 3.0 then 1.0 - fs.v else 0.0
  }

  /** A row takes part in LPIish when h1 <= depth <= 20 and it is at least
      0.4 deep (lines 588-590). */
  predicate IshRow(h1: real, depth: real)
  {
    h1 <= depth <= MaxDepth && depth >= MinIshDepth
  }

  predicate IshDefined(h1: real, d: seq<real>, fs: seq<Cell>)
  {
    |d| == |fs| && (|d| == 1 ==> !IshRow(h1, d[0]))
  }

  /** The integral of 25.56 c / z from a to b, written with the natural
      logarithm. */
  function IshTerm(m: Math, h1: real, d: seq<real>, fs: seq<Cell>, i: nat): (r: real)
    requires IshDefined(h1, d, fs) && i < |d|
    ensures !IshRow(h1, d[i]) || IshFactor(m, h1, fs[i]) == 0.0 ==> r == 0.0
  {
    if IshRow(h1, d[i]) then
      25.56 * IshFactor(m, h1, fs[i]) * (m.ln(Window(d, i).1) - m.ln(Window(d, i).0))
    else 0.0
  }

  function IshFrom(m: Math, h1: real, d: seq<real>, fs: seq<Cell>, i: nat): real
    requires IshDefined(h1, d, fs) && i <= |d|
    decreases |d| - i
  {
    if i == |d| then 0.0 else IshTerm(m, h1, d, fs, i) + IshFrom(m, h1, d, fs, i + 1)
  }

  /** `LPIish` (lines 576-599) with the h1 of the chosen thickness scan. */
  method PotentialIndexIsh(m: Math, h1: real, d: seq<real>, fs: seq<Cell>) returns (lpi: real)
    requires IshDefined(h1, d, fs)
    ensures lpi == IshFrom(m, h1, d, fs, 0)
  {
    lpi := 0.0;
    var i := 0;
    while i < |d|
      invariant i <= |d|
      invariant lpi + IshFrom(m, h1, d, fs, i) == IshFrom(m, h1, d, fs, 0)
    {
      if h1 <= d[i] <= MaxDepth && d[i] >= MinIshDepth {
        var w := Window(d, i);
        lpi := lpi + 25.56 * IshFactor(m, h1, fs[i]) * (m.ln(w.1) - m.ln(w.0));
      }
      i := i + 1;
    }
  }

  lemma ScaledGapNonNegative(c: real, x: real, y: real)
    requires c >= 0.0 && x <= y
    ensures 25.56 * c * (y - x) >= 0.0
  {
    assert c * (y - x) >= 0.0;
  }

  /** With a logarithm that is non-decreasing on positive numbers, a row's
      LPIish term is never negative once its window is positive and ordered. */
  lemma IshTermNonNegative(m: Math, h1: real, d: seq<real>, fs: seq<Cell>, i: nat)
    requires IshDefined(h1, d, fs) && i < |d|
    requires forall x, y :: 0.0 < x <= y ==> m.ln(x) <= m.ln(y)
    requires IshRow(h1, d[i]) ==> 0.0 < Window(d, i).0 <= Window(d, i).1
    ensures IshTerm(m, h1, d, fs, i) >= 0.0
  {
    if IshRow(h1, d[i]) {
      var w := Window(d, i);
      assert m.ln(w.0) <= m.ln(w.1);
      ScaledGapNonNegative(IshFactor(m, h1, fs[i]), m.ln(w.0), m.ln(w.1));
    }
  }

  /** LPIish is never negative on non-decreasing positive depths whose first
      window stays below the surface, given a logarithm that is
      non-decreasing on positive numbers. */
  lemma {:induction false} IshNonNegative(m: Math, h1: real, d: seq<real>, fs: seq<Cell>, i: nat)
    requires IshDefined(h1, d, fs) && i <= |d| && Sorted(d)
    requires forall x, y :: 0.0 < x <= y ==> m.ln(x) <= m.ln(y)
    requires |d| > 0 ==> d[0] > 0.0
    requires |d| > 1 ==> d[0] - (d[1] - d[0]) > 0.0
    ensures IshFrom(m, h1, d, fs, i) >= 0.0
    decreases |d| - i
  {
    if i < |d| {
      IshNonNegative(m, h1, d, fs, i + 1);
      if IshRow(h1, d[i]) {
        WindowOrdered(d, i);
        if i > 0 {
          assert d[0] <= d[i - 1];
        }
      }
      IshTermNonNegative(m, h1, d, fs, i);
    }
  }
}
