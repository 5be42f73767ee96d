/** The two layer-thickness scans over a (depth, FS) profile,
    functions.py:463-548: h1 is the depth to the top of the critical
    liquefiable layer and h2 its thickness. Both scans look for runs of
    rows with FS < 1 whose consecutive depths are at most 0.3 apart. */
module ThicknessScan {
  import opened Cells

  /** The largest depth step that keeps a run going. */
  const Gap: real := 0.3
  /** The depth limit of the cumulative scan, and its default h1. */
  const CumulativeDepth: real := 10.0
  /** A first row at most this deep counts its own depth as its increment. */
  const SurfaceRow: real := 0.05

  /** The scan state: no run, or a run from `start` to `last` whose h1 is
      the depth of row `h1Index`. */
  datatype Run = Idle | InRun(start: real, last: real, h1Index: nat)

  datatype Thickness = Thickness(h1: real, h2: real)

  /** A row continues (or starts) the run: FS < 1 and at most 0.3 below the
      run's last depth (lines 478 and 514). A missing FS compares false. */
  predicate Continues(st: Run, depth: real, fs: Cell)
  {
    Lt(fs, 1.0) && (st.Idle? || depth - st.last <= Gap)
  }

  /** Lines 479-485 and 516-522: the row becomes the run's last row; a new
      run takes its h1 from the row above it, or from row 0. */
  function Extend(st: Run, depth: real, i: nat): (r: Run)
    ensures r.InRun? && r.last == depth
    ensures st.InRun? ==> r.start == st.start && r.h1Index == st.h1Index
    ensures st.Idle? ==> r.start == depth && r.h1Index == (if i == 0 then 0 else i - 1)
  {
    if st.Idle? then InRun(depth, depth, if i == 0 then 0 else i - 1) else st.(last := depth)
  }

  predicate WellIndexed(n: nat, i: nat, st: Run)
  {
    i <= n && (st.InRun? ==> st.h1Index < n && st.h1Index <= i)
  }

  /** `h1_h2_basic` from row i on, in state st (lines 472-491). */
  function BasicFrom(d: seq<real>, fs: seq<Cell>, i: nat, st: Run): Thickness
    requires 0 < |d| == |fs| && WellIndexed(|d|, i, st)
    decreases |d| - i
  {
    if i == |d| then Thickness(d[|d| - 1], 0.0)
    else if Continues(st, d[i], fs[i]) then BasicFrom(d, fs, i + 1, Extend(st, d[i], i))
    else if st.InRun? && d[i] - st.last > Gap then Thickness(d[st.h1Index], st.last - st.start)
    else BasicFrom(d, fs, i + 1, st)
  }

  /** `h1_h2_basic` on a non-empty profile: the source reads the deepest
      depth first, which fails on an empty table. */
  method BasicScan(d: seq<real>, fs: seq<Cell>) returns (t: Thickness)
    requires 0 < |d| == |fs|
    ensures t == BasicFrom(d, fs, 0, Idle)
  {
    var st := Idle;
    t := Thickness(d[|d| - 1], 0.0);   // line 468
    var i := 0;
    while i < |d|
      invariant WellIndexed(|d|, i, st)
      invariant BasicFrom(d, fs, i, st) == BasicFrom(d, fs, 0, Idle)
    {
      if Lt(fs[i], 1.0) && (st.Idle? || d[i] - st.last <= Gap) {
        st := Extend(st, d[i], i);
      } else if st.InRun? && d[i] - st.last > Gap {
        t := Thickness(d[st.h1Index], st.last - st.start);
        return;
      }
      i := i + 1;
    }
  }

  predicate NoLiquefiableBetween(fs: seq<Cell>, j: nat, i: nat)
    requires j <= i <= |fs|
  {
    forall k :: j < k < i ==> !Lt(fs[k], 1.0)
  }

  /** No row above row n lies more than 0.3 below the latest FS < 1 row
      above it: the basic scan closes no run there (line 489). */
  predicate NoBasicCloseBefore(d: seq<real>, fs: seq<Cell>, n: nat)
    requires |d| == |fs| && n <= |d|
  {
    forall j, i :: 0 <= j < i < n && Lt(fs[j], 1.0) && NoLiquefiableBetween(fs, j, i) ==> d[i] - d[j] <= Gap
  }

  /** The basic scan's state before row k: idle up to the first FS < 1 row
      f, then a run from f whose last depth is that of the latest FS < 1
      row q. The run never resets. */
  predicate BasicState(d: seq<real>, fs: seq<Cell>, f: nat, k: nat, st: Run, q: nat)
    requires |d| == |fs| && k <= |d|
  {
    && (st.Idle? ==> forall j :: 0 <= j < k ==> !Lt(fs[j], 1.0))
    && (st.InRun? ==>
          && f <= q < k && st == InRun(d[f], d[q], if f == 0 then 0 else f - 1)
          && Lt(fs[f], 1.0) && (forall j :: 0 <= j < f ==> !Lt(fs[j], 1.0))
          && Lt(fs[q], 1.0) && NoLiquefiableBetween(fs, q, k))
  }

  lemma {:induction false} BasicOpenFrom(d: seq<real>, fs: seq<Cell>, f: nat, k: nat, st: Run, q: nat)
    requires 0 < |d| == |fs| && WellIndexed(|d|, k, st) && NoBasicCloseBefore(d, fs, |d|)
    requires BasicState(d, fs, f, k, st, q)
    ensures BasicFrom(d, fs, k, st) == Thickness(d[|d| - 1], 0.0)
    decreases |d| - k
  {
    if k < |d| {
      if Continues(st, d[k], fs[k]) {
        var f' := if st.Idle? then k else f;
        BasicOpenFrom(d, fs, f', k + 1, Extend(st, d[k], k), k);
      } else {
        if st.InRun? {
          assert d[k] - d[q] <= Gap;
        }
        BasicOpenFrom(d, fs, f, k + 1, st, q);
      }
    }
  }

  /** A run only counts once a later row more than 0.3 below its last FS < 1
      row closes it (lines 487-491): without such a row h1 stays the deepest
      depth and h2 stays 0, whether the FS < 1 rows run to the last row or
      are followed by rows with FS >= 1 close below them. */
  lemma BasicDefault(d: seq<real>, fs: seq<Cell>)
    requires 0 < |d| == |fs| && NoBasicCloseBefore(d, fs, |d|)
    ensures BasicFrom(d, fs, 0, Idle) == Thickness(d[|d| - 1], 0.0)
  {
    BasicOpenFrom(d, fs, 0, 0, Idle, 0);
  }

  lemma {:induction false} BasicClosesFrom(d: seq<real>, fs: seq<Cell>, f: nat, p: nat, i: nat,
                                           k: nat, st: Run, q: nat)
    requires 0 < |d| == |fs| && p < i < |d| && k <= i && WellIndexed(|d|, k, st)
    requires Lt(fs[p], 1.0) && NoLiquefiableBetween(fs, p, i) && d[i] - d[p] > Gap
    requires NoBasicCloseBefore(d, fs, i)
    requires BasicState(d, fs, f, k, st, q)
    requires f <= p && Lt(fs[f], 1.0) && (forall j :: 0 <= j < f ==> !Lt(fs[j], 1.0))
    ensures BasicFrom(d, fs, k, st) == Thickness(d[if f == 0 then 0 else f - 1], d[p] - d[f])
    decreases i - k
  {
    if k == i {
      assert st.InRun? && q == p;
    } else if Continues(st, d[k], fs[k]) {
      assert st.Idle? ==> k == f;
      BasicClosesFrom(d, fs, f, p, i, k + 1, Extend(st, d[k], k), k);
    } else {
      if st.InRun? {
        assert d[k] - d[q] <= Gap;
      }
      BasicClosesFrom(d, fs, f, p, i, k + 1, st, q);
    }
  }

  /** The converse: at the first row i more than 0.3 below the latest
      FS < 1 row p above it, the scan closes the run that began at the first
      FS < 1 row f. h1 is the depth of the row above f (row 0 when f is row
      0) and h2 is the run's thickness (lines 489-491). */
  lemma BasicClosesRun(d: seq<real>, fs: seq<Cell>, f: nat, p: nat, i: nat)
    requires 0 < |d| == |fs| && f <= p < i < |d|
    requires Lt(fs[f], 1.0) && forall j :: 0 <= j < f ==> !Lt(fs[j], 1.0)
    requires Lt(fs[p], 1.0) && NoLiquefiableBetween(fs, p, i) && d[i] - d[p] > Gap
    requires NoBasicCloseBefore(d, fs, i)
    ensures BasicFrom(d, fs, 0, Idle) == Thickness(d[if f == 0 then 0 else f - 1], d[p] - d[f])
  {
    BasicClosesFrom(d, fs, f, p, i, 0, Idle, 0);
  }

  predicate RunBehind(d: seq<real>, i: nat, st: Run)
    requires i <= |d|
  {
    st.InRun? ==> 0 < i && st.start <= st.last <= d[i - 1]
  }

  /** On a profile of non-decreasing depths the basic h2 is never negative
      and h1 is always the depth of some row. */
  lemma {:induction false} BasicBounds(d: seq<real>, fs: seq<Cell>, i: nat, st: Run)
    requires 0 < |d| == |fs| && WellIndexed(|d|, i, st) && Sorted(d) && RunBehind(d, i, st)
    ensures BasicFrom(d, fs, i, st).h2 >= 0.0
    ensures exists j :: 0 <= j < |d| && BasicFrom(d, fs, i, st).h1 == d[j]
    decreases |d| - i
  {
    if i == |d| {
      assert BasicFrom(d, fs, i, st).h1 == d[|d| - 1];
    } else if Continues(st, d[i], fs[i]) {
      var next := Extend(st, d[i], i);
      assert st.InRun? ==> d[i - 1] <= d[i];
      BasicBounds(d, fs, i + 1, next);
    } else if st.InRun? && d[i] - st.last > Gap {
      assert BasicFrom(d, fs, i, st).h1 == d[st.h1Index];
    } else {
      assert st.InRun? ==> d[i - 1] <= d[i];
      BasicBounds(d, fs, i + 1, st);
    }
  }

  /** The first loop of `h1_h2_cumulative` from row i on (lines 508-532):
      a row that neither continues the run nor closes one of more than 0.3
      resets the scan; the default h1 is 10. */
  function CumulativeH1From(d: seq<real>, fs: seq<Cell>, i: nat, st: Run): real
    requires |d| == |fs| && WellIndexed(|d|, i, st)
    decreases |d| - i
  {
    if i == |d| then CumulativeDepth
    else if Continues(st, d[i], fs[i]) then CumulativeH1From(d, fs, i + 1, Extend(st, d[i], i))
    else if st.InRun? && st.last - st.start > Gap then d[st.h1Index]
    else CumulativeH1From(d, fs, i + 1, Idle)
  }

  /** A row adds to h2 when 0 < FS < 1 and it is at most 10 deep. */
  predicate Liquefiable(depth: real, fs: Cell)
  {
    Gt(fs, 0.0) && Lt(fs, 1.0) && depth <= CumulativeDepth
  }

  /** The source reads row 1 when row 0 adds to h2 from below the surface
      row; a one-row table fails there. */
  predicate HasNextRow(d: seq<real>, fs: seq<Cell>)
  {
    |d| == |fs| && (|d| == 1 ==> !(Liquefiable(d[0], fs[0]) && d[0] > SurfaceRow))
  }

  /** The increment row i adds to h2 (lines 539-545). */
  function Increment(d: seq<real>, fs: seq<Cell>, i: nat): (r: real)
    requires HasNextRow(d, fs) && i < |d|
    ensures r != 0.0 ==> Liquefiable(d[i], fs[i])
  {
    if !Liquefiable(d[i], fs[i]) then 0.0
    else if i == 0 && d[0] > SurfaceRow then d[1] - d[0]
    else if i == 0 then d[0]
    else d[i] - d[i - 1]
  }

  /** The second loop of `h1_h2_cumulative` from row i on: it stops after
      the first row deeper than 10 (lines 534-547). */
  function H2From(d: seq<real>, fs: seq<Cell>, i: nat): real
    requires HasNextRow(d, fs) && i <= |d|
    decreases |d| - i
  {
    if i == |d| then 0.0
    else Increment(d, fs, i) + (if d[i] > CumulativeDepth then 0.0 else H2From(d, fs, i + 1))
  }

  /** `h1_h2_cumulative` (lines 500-555). */
  method CumulativeScan(d: seq<real>, fs: seq<Cell>) returns (t: Thickness)
    requires |d| == |fs| && (|d| > 0 ==> HasNextRow(d, fs))
    ensures t.h1 == CumulativeH1From(d, fs, 0, Idle)
    ensures |d| > 0 ==> t.h2 == H2From(d, fs, 0)
    ensures |d| == 0 ==> t.h2 == 0.0
  {
    var h1 := CumulativeDepth;
    var st := Idle;
    var i := 0;
    while i < |d|
      invariant WellIndexed(|d|, i, st)
      invariant CumulativeH1From(d, fs, i, st) == CumulativeH1From(d, fs, 0, Idle)
    {
      if Lt(fs[i], 1.0) && (st.Idle? || d[i] - st.last <= Gap) {
        st := Extend(st, d[i], i);
      } else {
        if st.InRun? && st.last - st.start > Gap {
          h1 := d[st.h1Index];
          break;
        }
        st := Idle;
      }
      i := i + 1;
    }
    var h2 := 0.0;
    if |d| > 0 {
      i := 0;
      while i < |d|
        invariant i <= |d|
        invariant h2 + H2From(d, fs, i) == H2From(d, fs, 0)
      {
        h2 := h2 + Increment(d, fs, i);
        if d[i] > CumulativeDepth {
          break;
        }
        i := i + 1;
      }
    }
    t := Thickness(h1, h2);
  }

  /** Row k joins a run in the first loop of `h1_h2_cumulative`: FS < 1,
      and either the row above joined none (the scan is idle) or it is at
      most 0.3 above (lines 514-522). A row that joins nothing resets the
      scan, so the row after it starts afresh. */
  predicate Joins(d: seq<real>, fs: seq<Cell>, k: nat)
    requires k < |d| == |fs|
    decreases k
  {
    Lt(fs[k], 1.0) && (k == 0 || !Joins(d, fs, k - 1) || d[k] - d[k - 1] <= Gap)
  }

  /** Rows s..e form (the beginning of) one run: s starts it and every row
      up to e joins it. */
  predicate RunRows(d: seq<real>, fs: seq<Cell>, s: nat, e: nat)
    requires s <= e < |d| == |fs|
  {
    (s == 0 || !Joins(d, fs, s - 1)) && forall k :: s <= k <= e ==> Joins(d, fs, k)
  }

  /** Every run that a row above row n closes (the row after its last row
      joins nothing) spans at most 0.3 (lines 526-529). */
  predicate NoThickRunClosedBefore(d: seq<real>, fs: seq<Cell>, n: nat)
    requires |d| == |fs| && n <= |d|
  {
    forall s, e :: 0 <= s <= e && e + 1 < n && RunRows(d, fs, s, e) && !Joins(d, fs, e + 1)
      ==> d[e] - d[s] <= Gap
  }

  /** The state of the first loop before row k: idle exactly when row k - 1
      joined nothing, otherwise the run of rows s..k - 1 with its h1 row. */
  predicate CumulativeState(d: seq<real>, fs: seq<Cell>, k: nat, st: Run, s: nat)
    requires k <= |d| == |fs|
  {
    && (st.Idle? ==> k == 0 || !Joins(d, fs, k - 1))
    && (st.InRun? ==>
          && s < k && RunRows(d, fs, s, k - 1)
          && st == InRun(d[s], d[k - 1], if s == 0 then 0 else s - 1))
  }

  /** In any state that follows the rows, the loop's test on row k is
      exactly `Joins`. */
  lemma ContinuesIsJoins(d: seq<real>, fs: seq<Cell>, k: nat, st: Run, s: nat)
    requires k < |d| == |fs| && CumulativeState(d, fs, k, st, s)
    ensures Continues(st, d[k], fs[k]) == Joins(d, fs, k)
  {
    if st.InRun? {
      assert Joins(d, fs, k - 1);
    }
  }

  lemma {:induction false} CumulativeOpenFrom(d: seq<real>, fs: seq<Cell>, k: nat, st: Run, s: nat)
    requires |d| == |fs| && WellIndexed(|d|, k, st) && NoThickRunClosedBefore(d, fs, |d|)
    requires CumulativeState(d, fs, k, st, s)
    ensures CumulativeH1From(d, fs, k, st) == CumulativeDepth
    decreases |d| - k
  {
    if k < |d| {
      ContinuesIsJoins(d, fs, k, st, s);
      if Continues(st, d[k], fs[k]) {
        var start := if st.Idle? then k else s;
        CumulativeOpenFrom(d, fs, k + 1, Extend(st, d[k], k), start);
      } else {
        if st.InRun? {
          assert d[k - 1] - d[s] <= Gap;
        }
        CumulativeOpenFrom(d, fs, k + 1, Idle, s);
      }
    }
  }

  /** The cumulative h1 stays 10 unless a run spanning more than 0.3 is
      closed by a row that joins nothing: thin runs are reset (lines
      530-531) and a run that reaches the last row is never closed. */
  lemma CumulativeH1Default(d: seq<real>, fs: seq<Cell>)
    requires |d| == |fs| && NoThickRunClosedBefore(d, fs, |d|)
    ensures CumulativeH1From(d, fs, 0, Idle) == CumulativeDepth
  {
    CumulativeOpenFrom(d, fs, 0, Idle, 0);
  }

  lemma {:induction false} CumulativeClosesFrom(d: seq<real>, fs: seq<Cell>, s: nat, e: nat,
                                                k: nat, st: Run, r: nat)
    requires |d| == |fs| && s <= e && e + 1 < |d| && k <= e + 1 && WellIndexed(|d|, k, st)
    requires RunRows(d, fs, s, e) && !Joins(d, fs, e + 1) && d[e] - d[s] > Gap
    requires NoThickRunClosedBefore(d, fs, e + 1)
    requires CumulativeState(d, fs, k, st, r)
    ensures CumulativeH1From(d, fs, k, st) == d[if s == 0 then 0 else s - 1]
    decreases e + 1 - k
  {
    ContinuesIsJoins(d, fs, k, st, r);
    if k == e + 1 {
      assert st.InRun? && r == s;
    } else if Continues(st, d[k], fs[k]) {
      var start := if st.Idle? then k else r;
      CumulativeClosesFrom(d, fs, s, e, k + 1, Extend(st, d[k], k), start);
    } else {
      if st.InRun? {
        assert d[k - 1] - d[r] <= Gap;
      }
      CumulativeClosesFrom(d, fs, s, e, k + 1, Idle, r);
    }
  }

  /** The converse: when rows s..e are the first run of more than 0.3 that
      a row joining nothing closes, the cumulative h1 is the depth of the
      row above s, or of row 0 when the run starts there (lines 526-529). */
  lemma CumulativeClosesRun(d: seq<real>, fs: seq<Cell>, s: nat, e: nat)
    requires |d| == |fs| && s <= e && e + 1 < |d|
    requires RunRows(d, fs, s, e) && !Joins(d, fs, e + 1) && d[e] - d[s] > Gap
    requires NoThickRunClosedBefore(d, fs, e + 1)
    ensures CumulativeH1From(d, fs, 0, Idle) == d[if s == 0 then 0 else s - 1]
  {
    CumulativeClosesFrom(d, fs, s, e, 0, Idle, 0);
  }

  /** The sum of every row's increment, without the early stop. */
  function SumIncrements(d: seq<real>, fs: seq<Cell>, i: nat): real
    requires HasNextRow(d, fs) && i <= |d|
    decreases |d| - i
  {
    if i == |d| then 0.0 else Increment(d, fs, i) + SumIncrements(d, fs, i + 1)
  }

  lemma {:induction false} DeepRowsAddNothing(d: seq<real>, fs: seq<Cell>, i: nat, bound: real)
    requires HasNextRow(d, fs) && i <= |d| && Sorted(d) && bound > CumulativeDepth
    requires i < |d| ==> d[i] >= bound
    ensures SumIncrements(d, fs, i) == 0.0
    decreases |d| - i
  {
    if i < |d| {
      DeepRowsAddNothing(d, fs, i + 1, bound);
    }
  }

  /** On non-decreasing depths the early stop changes nothing: h2 is the
      sum of the increments of all rows with 0 < FS < 1 and depth at most
      10, and it is never negative when the depths are. */
  lemma {:induction false} H2IsSumOfIncrements(d: seq<real>, fs: seq<Cell>, i: nat)
    requires HasNextRow(d, fs) && i <= |d| && Sorted(d)
    requires 0 < |d| ==> d[0] >= 0.0
    ensures H2From(d, fs, i) == SumIncrements(d, fs, i)
    ensures SumIncrements(d, fs, i) >= 0.0
    decreases |d| - i
  {
    if i < |d| {
      H2IsSumOfIncrements(d, fs, i + 1);
      if d[i] > CumulativeDepth {
        DeepRowsAddNothing(d, fs, i + 1, d[i]);
      }
      if i > 0 {
        assert d[i - 1] <= d[i];
      } else if |d| > 1 {
        assert d[0] <= d[1];
      }
    }
  }

  /** The cumulative h1 is not bounded by 10: a run of FS < 1 rows that
      starts below 10 m and is closed by a later row sets h1 to the depth
      above it. */
  lemma CumulativeH1Unbounded()
    ensures CumulativeH1From([11.0, 11.2, 11.4, 11.6, 12.0],
                             [Val(2.0), Val(0.5), Val(0.5), Val(0.5), Val(2.0)], 0, Idle) == 11.0
  {
    var d := [11.0, 11.2, 11.4, 11.6, 12.0];
    var fs := [Val(2.0), Val(0.5), Val(0.5), Val(0.5), Val(2.0)];
    assert CumulativeH1From(d, fs, 4, InRun(11.2, 11.6, 0)) == 11.0;
    assert CumulativeH1From(d, fs, 3, InRun(11.2, 11.4, 0)) == 11.0;
    assert CumulativeH1From(d, fs, 2, InRun(11.2, 11.2, 0)) == 11.0;
    assert CumulativeH1From(d, fs, 1, Idle) == 11.0;
  }
}
