/** The liquefaction severity number LSN (functions.py:601-713): every row
    at most 20 deep with a clean-sand tip resistance qc1ncs between 20 and
    200 gets a volumetric strain eps from the Zhang et al. (2002) curves,
    interpolated in FS, and adds 10 eps / z integrated from the row above
    down to it. */
module SeverityNumber {
  import opened Cells

  const MaxDepth: real := 20.0
  const MinTip: real := 20.0
  const MaxTip: real := 200.0
  /** FS is clamped to this before the last band (lines 699-700). */
  const FsClamp: real := 2.0

  /** The strain curves A_k = c q^e (lines 602-630). */
  function A1(m: Math, q: real): real { 102.0 * m.pow(q, -0.82) }
  function A3(m: Math, q: real): real { 2411.0 * m.pow(q, -1.45) }
  function A5(m: Math, q: real): real { 1701.0 * m.pow(q, -1.42) }
  function A7(m: Math, q: real): real { 1690.0 * m.pow(q, -1.46) }
  function A9(m: Math, q: real): real { 1430.0 * m.pow(q, -1.48) }
  function A10(m: Math, q: real): real { 64.0 * m.pow(q, -0.93) }
  function A11(m: Math, q: real): real { 11.0 * m.pow(q, -0.65) }
  function A12(m: Math, q: real): real { 9.7 * m.pow(q, -0.69) }
  function A13(m: Math, q: real): real { 7.6 * m.pow(q, -0.71) }
  const A14: real := 0.0

  /** `interpolator` (lines 632-636): linear in FS between the band's two
      curves, with the band width fixed at 0.1 (the factor 10). It ignores
      the band's lower FS. */
  function Interpolate(lowEps: real, lowFs: real, upEps: real, upFs: real, fs: real): (r: real)
    ensures fs == upFs ==> r == upEps
    ensures upFs - lowFs == 0.1 && fs == lowFs ==> r == lowEps
  {
    (upFs - fs) * 10.0 * (lowEps - upEps) + upEps
  }

  predicate InBand(fs: Cell, low: real, high: real)
  {
    Ge(fs, low) && Le(fs, high)
  }

  /** eps before the FS bands (lines 654-659): 10 below qc1ncs 33, else A1. */
  function BaseStrain(m: Math, q: real): (eps: Cell)
    ensures eps.Val? <==> MinTip <= q <= MaxTip
  {
    if MinTip <= q <= MaxTip then Val(if q < 33.0 then 10.0 else A1(m, q)) else Missing
  }

  /** eps of a row (lines 648-701): undefined deeper than 20 m, without
      qc1ncs, or with qc1ncs outside [20, 200]; otherwise the first FS band
      that holds picks the interpolation, and a row in no band keeps the
      base strain. */
  function Strain(m: Math, depth: real, qc1ncs: Cell, fs: Cell): (eps: Cell)
    ensures eps.Val? <==> depth <= MaxDepth && qc1ncs.Val? && MinTip <= qc1ncs.v <= MaxTip
  {
    if !(depth <= MaxDepth && qc1ncs.Val?) then Missing
    else
      var q := qc1ncs.v;
      var base := BaseStrain(m, q);
      if InBand(fs, 0.5, 0.6) && 147.0 <= q <= MaxTip then
        Val(Interpolate(A1(m, q), 0.5, A3(m, q), 0.6, fs.v))
      else if InBand(fs, 0.6, 0.7) && 110.0 <= q <= MaxTip then
        Val(if q < 147.0 then Interpolate(base.v, 0.6, A5(m, q), 0.7, fs.v)
            else Interpolate(A3(m, q), 0.6, A5(m, q), 0.7, fs.v))
      else if InBand(fs, 0.7, 0.8) && 80.0 <= q <= MaxTip then
        Val(if q < 110.0 then Interpolate(base.v, 0.7, A7(m, q), 0.8, fs.v)
            else Interpolate(A5(m, q), 0.7, A7(m, q), 0.8, fs.v))
      else if InBand(fs, 0.8, 0.9) && 60.0 <= q <= MaxTip then
        Val(if q < 80.0 then Interpolate(base.v, 0.8, A9(m, q), 0.9, fs.v)
            else Interpolate(A7(m, q), 0.8, A9(m, q), 0.9, fs.v))
      else if InBand(fs, 0.9, 1.0) && MinTip <= q <= MaxTip then
        Val(if q < 60.0 then Interpolate(base.v, 0.9, A10(m, q), 1.0, fs.v)
            else Interpolate(A9(m, q), 0.9, A10(m, q), 1.0, fs.v))
      else if InBand(fs, 1.0, 1.1) && MinTip <= q <= MaxTip then
        Val(Interpolate(A10(m, q), 1.0, A11(m, q), 1.1, fs.v))
      else if InBand(fs, 1.1, 1.2) && MinTip <= q <= MaxTip then
        Val(Interpolate(A11(m, q), 1.1, A12(m, q), 1.2, fs.v))
      else if InBand(fs, 1.2, 1.3) && MinTip <= q <= MaxTip then
        Val(Interpolate(A12(m, q), 1.2, A13(m, q), 1.3, fs.v))
      else if Ge(fs, 1.3) && MinTip <= q <= MaxTip then
        Val(Interpolate(A13(m, q), 1.3, A14, FsClamp, if fs.v > FsClamp then FsClamp else fs.v))
      else base
  }

  /** A row with FS of at least 2 (the 9999 above the water table included)
      gets no strain; a row with qc1ncs in range and no FS keeps the base
      strain. */
  lemma StrainEnds(m: Math, depth: real, q: real, fs: Cell)
    requires depth <= MaxDepth && MinTip <= q <= MaxTip
    ensures Ge(fs, FsClamp) ==> Strain(m, depth, Val(q), fs) == Val(0.0)
    ensures !fs.Val? ==> Strain(m, depth, Val(q), fs) == BaseStrain(m, q)
  {
  }

  /** At the band limits 0.6, ..., 1.3 the interpolation returns the next
      curve: where two bands meet, the first one holds, and gives its upper
      curve. */
  lemma StrainAtBandLimits(m: Math, depth: real, q: real)
    requires depth <= MaxDepth && MinTip <= q <= MaxTip
    ensures Strain(m, depth, Val(q), Val(1.0)) == Val(A10(m, q))
    ensures Strain(m, depth, Val(q), Val(1.1)) == Val(A11(m, q))
    ensures Strain(m, depth, Val(q), Val(1.2)) == Val(A12(m, q))
    ensures Strain(m, depth, Val(q), Val(1.3)) == Val(A13(m, q))
  {
  }

  /** A row's term: row 0 adds nothing (lines 703-704), a row without eps adds
      nothing, any other adds 10 eps (ln z_i - ln z_(i-1)), the integral of
      10 eps / z over its interval. */
  function LsnTerm(m: Math, d: seq<real>, q: seq<Cell>, fs: seq<Cell>, i: nat): (r: real)
    requires |d| == |q| == |fs| && i < |d|
    ensures i == 0 || !Strain(m, d[i], q[i], fs[i]).Val? ==> r == 0.0
  {
    var eps := Strain(m, d[i], q[i], fs[i]);
    if i == 0 || !eps.Val? then 0.0 else 10.0 * eps.v * (m.ln(d[i]) - m.ln(d[i - 1]))
  }

  function LsnFrom(m: Math, d: seq<real>, q: seq<Cell>, fs: seq<Cell>, i: nat): real
    requires |d| == |q| == |fs| && i <= |d|
    decreases |d| - i
  {
    if i == |d| then 0.0 else LsnTerm(m, d, q, fs, i) + LsnFrom(m, d, q, fs, i + 1)
  }

  /** `LSN` (lines 601-713). The row counters feed only a commented-out
      message and are not modelled. */
  method SeverityNumber(m: Math, d: seq<real>, q: seq<Cell>, fs: seq<Cell>) returns (lsn: real)
    requires |d| == |q| == |fs|
    ensures lsn == LsnFrom(m, d, q, fs, 0)
  {
    lsn := 0.0;
    var i := 0;
    while i < |d|
      invariant i <= |d|
      invariant lsn + LsnFrom(m, d, q, fs, i) == LsnFrom(m, d, q, fs, 0)
    {
      var eps := Strain(m, d[i], q[i], fs[i]);
      if i == 0 {
        lsn := 0.0;
      } else if eps.Val? {
        lsn := lsn + 10.0 * eps.v * (m.ln(d[i]) - m.ln(d[i - 1]));
      }
      i := i + 1;
    }
  }

  /** LSN depends on the rows after the first only: the first row's qc1ncs
      and FS change nothing. */
  lemma {:induction false} LsnIgnoresFirstRow(m: Math, d: seq<real>, q: seq<Cell>, fs: seq<Cell>,
                                             q2: seq<Cell>, fs2: seq<Cell>, i: nat)
    requires |d| == |q| == |fs| == |q2| == |fs2| && i <= |d|
    requires forall j :: 1 <= j < |d| ==> q2[j] == q[j] && fs2[j] == fs[j]
    ensures LsnFrom(m, d, q, fs, i) == LsnFrom(m, d, q2, fs2, i)
    decreases |d| - i
  {
    if i < |d| {
      LsnIgnoresFirstRow(m, d, q, fs, q2, fs2, i + 1);
      if i > 0 {
        assert q2[i] == q[i] && fs2[i] == fs[i];
      }
    }
  }

  /** A profile with no row below the first that has a strain has LSN 0. */
  lemma {:induction false} LsnZeroWithoutStrain(m: Math, d: seq<real>, q: seq<Cell>, fs: seq<Cell>, i: nat)
    requires |d| == |q| == |fs| && i <= |d|
    requires forall j :: 1 <= j < |d| ==> !Strain(m, d[j], q[j], fs[j]).Val?
    ensures LsnFrom(m, d, q, fs, i) == 0.0
    decreases |d| - i
  {
    if i < |d| {
      LsnZeroWithoutStrain(m, d, q, fs, i + 1);
    }
  }

  /** Above FS 1.3 the source interpolates with the 0.1 band width although
      the band runs to 2: at FS 1.4 eps is 6 A13, six times its value at
      1.3, and it only falls back to 0 at FS 2. */
  lemma LastBandOvershoots(m: Math, depth: real, q: real)
    requires depth <= MaxDepth && MinTip <= q <= MaxTip
    ensures Strain(m, depth, Val(q), Val(1.3)) == Val(A13(m, q))
    ensures Strain(m, depth, Val(q), Val(1.4)) == Val(6.0 * A13(m, q))
  {
    assert Interpolate(A13(m, q), 1.3, A14, FsClamp, 1.4) == (2.0 - 1.4) * 10.0 * A13(m, q);
  }

  /** Linear interpolation over a band of any width. */
  function BandInterpolate(lowEps: real, lowFs: real, upEps: real, upFs: real, fs: real): (r: real)
    requires lowFs < upFs
  {
    (upFs - fs) / (upFs - lowFs) * (lowEps - upEps) + upEps
  }

  /** The band interpolation meets both curves at the band's ends, stays
      between them inside the band, and agrees with the source's
      interpolation on the bands 0.1 wide. */
  lemma BandInterpolateExact(lowEps: real, lowFs: real, upEps: real, upFs: real, fs: real)
    requires lowFs < upFs
    ensures fs == lowFs ==> BandInterpolate(lowEps, lowFs, upEps, upFs, fs) == lowEps
    ensures fs == upFs ==> BandInterpolate(lowEps, lowFs, upEps, upFs, fs) == upEps
    ensures lowFs <= fs <= upFs && lowEps >= upEps ==>
      upEps <= BandInterpolate(lowEps, lowFs, upEps, upFs, fs) <= lowEps
    ensures upFs - lowFs == 0.1 ==>
      BandInterpolate(lowEps, lowFs, upEps, upFs, fs) == Interpolate(lowEps, lowFs, upEps, upFs, fs)
  {
    var t := (upFs - fs) / (upFs - lowFs);
    assert t * (upFs - lowFs) == upFs - fs;
    var w := upFs - lowFs;
    if fs == upFs {
      assert t == 0.0 / w;
    }
    if fs == lowFs {
      assert t == w / w;
    }
    if upFs - lowFs == 0.1 {
      assert t == (upFs - fs) * 10.0;
    }
    if lowFs <= fs <= upFs && lowEps >= upEps {
      assert 0.0 <= t <= 1.0;
      FractionBounds(t, lowEps - upEps);
    }
  }

  lemma FractionBounds(t: real, x: real)
    requires 0.0 <= t <= 1.0 && x >= 0.0
    ensures 0.0 <= t * x <= x
  {
    assert (1.0 - t) * x >= 0.0;
  }

  /** eps as the Zhang et al. curves intend it, with the last band
      interpolated over its own width from A13 at FS 1.3 to 0 at FS 2. */
  function CorrectedStrain(m: Math, depth: real, qc1ncs: Cell, fs: Cell): (eps: Cell)
    ensures eps.Val? <==> depth <= MaxDepth && qc1ncs.Val? && MinTip <= qc1ncs.v <= MaxTip
  {
    if depth <= MaxDepth && qc1ncs.Val? && MinTip <= qc1ncs.v <= MaxTip && Gt(fs, 1.3) then
      Val(BandInterpolate(A13(m, qc1ncs.v), 1.3, A14, FsClamp, if fs.v > FsClamp then FsClamp else fs.v))
    else Strain(m, depth, qc1ncs, fs)
  }

  /** With the corrected last band, eps above FS 1.3 lies between 0 and
      A13 whenever A13 is not negative, so it never exceeds its value at
      FS 1.3. */
  lemma CorrectedLastBandBounded(m: Math, depth: real, q: real, fs: real)
    requires depth <= MaxDepth && MinTip <= q <= MaxTip && fs > 1.3 && A13(m, q) >= 0.0
    ensures CorrectedStrain(m, depth, Val(q), Val(fs)).Val?
    ensures 0.0 <= CorrectedStrain(m, depth, Val(q), Val(fs)).v <= A13(m, q)
  {
    BandInterpolateExact(A13(m, q), 1.3, A14, FsClamp, if fs > FsClamp then FsClamp else fs);
  }
}
