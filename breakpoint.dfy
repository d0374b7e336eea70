/** `EventTools.scan_for_break_point`: the index that splits a series into the two halves
    whose two-sample t-statistic is largest in absolute value. The t-test itself
    (`scipy.stats.ttest_ind(pre, post, nan_policy='omit')`) is the parameter `tstat`. */
module BreakPoint {
  import opened Values

  /** The outcome dictionary: `best_break_index` and `max_t_stat`. */
  datatype Break = Break(index: int, stat: real)

  const NoBreak: Break := Break(-1, 0.0)

  /** A split at `t` is tested unless more than half of either side is NaN. */
  predicate Eligible(y: seq<Val>, t: int)
    requires 0 <= t <= |y|
  {
    !(2 * NanCount(y[..t]) > t) && !(2 * NanCount(y[t..]) > |y| - t)
  }

  /** `abs(t_s) > max_t`; a NaN statistic never compares greater. */
  predicate Beats(v: Val, m: real)
  {
    v.Num? && Abs(v.x) > m
  }

  function Magnitude(v: Val): real
    requires v.Num?
  {
    Abs(v.x)
  }

  /** The statistic a split at `t` would be given. */
  function StatAt(y: seq<Val>, t: int, tstat: (seq<Val>, seq<Val>) -> Val): Val
    requires 0 <= t <= |y|
  {
    tstat(y[..t], y[t..])
  }

  /** One pass of the loop body at split `t`: keep the running best unless `t` is eligible
      and beats it strictly, so the first of equal maxima is kept. */
  function Step(y: seq<Val>, tstat: (seq<Val>, seq<Val>) -> Val, acc: Break, t: int): Break
    requires 0 <= t <= |y|
  {
    if Eligible(y, t) && Beats(StatAt(y, t, tstat), acc.stat) then Break(t, Magnitude(StatAt(y, t, tstat)))
    else acc
  }

  /** The running best after the splits `minWindow .. hi - 1`. */
  function ScanUpTo(y: seq<Val>, minWindow: nat, tstat: (seq<Val>, seq<Val>) -> Val, hi: int): Break
    requires hi <= |y| || hi <= minWindow
    decreases hi
  {
    if hi <= minWindow then NoBreak
    else Step(y, tstat, ScanUpTo(y, minWindow, tstat, hi - 1), hi - 1)
  }

  /** `scan_for_break_point(series, min_window)`: splits `min_window .. n - min_window - 1`. */
  function BreakPointOf(y: seq<Val>, minWindow: nat, tstat: (seq<Val>, seq<Val>) -> Val): Break
  {
    ScanUpTo(y, minWindow, tstat, |y| - minWindow)
  }

  /** The running best is either the initial `-1, 0` or a split in range that is eligible,
      carries its own (positive) |t|. */
  lemma {:induction false} ScanUpToTaken(y: seq<Val>, minWindow: nat, tstat: (seq<Val>, seq<Val>) -> Val, hi: int)
    requires hi <= |y| || hi <= minWindow
    ensures var r := ScanUpTo(y, minWindow, tstat, hi);
      && (r.index == -1 || minWindow <= r.index < hi)
      && (r.index == -1 ==> r.stat == 0.0)
      && (r.index != -1 ==> Eligible(y, r.index) && Beats(StatAt(y, r.index, tstat), 0.0)
                             && Magnitude(StatAt(y, r.index, tstat)) == r.stat)
    decreases hi
  {
    if hi > minWindow {
      ScanUpToTaken(y, minWindow, tstat, hi - 1);
    }
  }

  /** The running best bounds the |t| of every eligible split seen so far. */
  lemma {:induction false} ScanUpToBounds(y: seq<Val>, minWindow: nat, tstat: (seq<Val>, seq<Val>) -> Val, hi: int)
    requires hi <= |y| || hi <= minWindow
    ensures var r := ScanUpTo(y, minWindow, tstat, hi);
      && r.stat >= 0.0
      && forall t :: minWindow <= t < hi && Eligible(y, t) && StatAt(y, t, tstat).Num? ==>
           Magnitude(StatAt(y, t, tstat)) <= r.stat
    decreases hi
  {
    if hi > minWindow {
      ScanUpToBounds(y, minWindow, tstat, hi - 1);
    }
  }

  /** Ties keep the earlier split: every eligible split before the chosen one has a strictly
      smaller |t|. */
  lemma {:induction false} ScanUpToFirst(y: seq<Val>, minWindow: nat, tstat: (seq<Val>, seq<Val>) -> Val, hi: int)
    requires hi <= |y| || hi <= minWindow
    ensures var r := ScanUpTo(y, minWindow, tstat, hi);
      forall t :: minWindow <= t < hi && t < r.index && Eligible(y, t) && StatAt(y, t, tstat).Num? ==>
        Magnitude(StatAt(y, t, tstat)) < r.stat
    decreases hi
  {
    if hi > minWindow {
      ScanUpToFirst(y, minWindow, tstat, hi - 1);
      ScanUpToBounds(y, minWindow, tstat, hi - 1);
      ScanUpToTaken(y, minWindow, tstat, hi - 1);
    }
  }

  /** The split `scan_for_break_point` reports: in range, eligible, carrying its own |t|,
      bounding every eligible |t|, and the first split that does so; or `-1, 0` when no
      eligible split has a non-zero, non-NaN statistic (always so for a series of at most
      `2 * min_window` values). */
  lemma BreakPointIsBest(y: seq<Val>, minWindow: nat, tstat: (seq<Val>, seq<Val>) -> Val)
    ensures var r := BreakPointOf(y, minWindow, tstat);
      && (r.index == -1 || minWindow <= r.index < |y| - minWindow)
      && (2 * minWindow >= |y| ==> r == NoBreak)
      && r.stat >= 0.0
      && (r.index == -1 ==> r.stat == 0.0 && forall t :: minWindow <= t < |y| - minWindow && Eligible(y, t) ==>
            !Beats(StatAt(y, t, tstat), 0.0))
      && (r.index != -1 ==>
            Eligible(y, r.index) && Beats(StatAt(y, r.index, tstat), 0.0)
            && Magnitude(StatAt(y, r.index, tstat)) == r.stat)
      && (forall t :: minWindow <= t < |y| - minWindow && Eligible(y, t) && StatAt(y, t, tstat).Num? ==>
            Magnitude(StatAt(y, t, tstat)) <= r.stat)
      && (forall t :: minWindow <= t < r.index && Eligible(y, t) && StatAt(y, t, tstat).Num? ==>
            Magnitude(StatAt(y, t, tstat)) < r.stat)
  {
    var hi := |y| - minWindow;
    ScanUpToTaken(y, minWindow, tstat, hi);
    ScanUpToBounds(y, minWindow, tstat, hi);
    ScanUpToFirst(y, minWindow, tstat, hi);
  }

  /** `scan_for_break_point`, with its loop over the candidate splits. */
  method ScanForBreakPoint(y: seq<Val>, minWindow: nat, tstat: (seq<Val>, seq<Val>) -> Val) returns (r: Break)
    ensures r == BreakPointOf(y, minWindow, tstat)
    ensures r.index == -1 || minWindow <= r.index < |y| - minWindow
    ensures 2 * minWindow >= |y| ==> r == NoBreak
    ensures r.stat >= 0.0
    ensures r.index == -1 ==> r.stat == 0.0 && forall t :: minWindow <= t < |y| - minWindow && Eligible(y, t) ==>
      !Beats(StatAt(y, t, tstat), 0.0)
    ensures r.index != -1 ==>
      Eligible(y, r.index) && Beats(StatAt(y, r.index, tstat), 0.0) && Magnitude(StatAt(y, r.index, tstat)) == r.stat
    ensures forall t :: minWindow <= t < |y| - minWindow && Eligible(y, t) && StatAt(y, t, tstat).Num? ==>
      Magnitude(StatAt(y, t, tstat)) <= r.stat
    ensures forall t :: minWindow <= t < r.index && Eligible(y, t) && StatAt(y, t, tstat).Num? ==>
      Magnitude(StatAt(y, t, tstat)) < r.stat
  {
    var n := |y|;
    var bestT, maxT := -1, 0.0;
    var t := minWindow;
    while t < n - minWindow
      invariant minWindow <= t
      invariant t <= n - minWindow || t == minWindow
      invariant Break(bestT, maxT) == ScanUpTo(y, minWindow, tstat, t)
      decreases n - minWindow - t
    {
      var pre, post := y[..t], y[t..];
      if 2 * NanCount(pre) > |pre| || 2 * NanCount(post) > |post| {
        assert !Eligible(y, t);
        t := t + 1;
        continue;
      }
      assert Eligible(y, t);
      var ts := tstat(pre, post);
      if ts.Num? && Abs(ts.x) > maxT {
        maxT, bestT := Abs(ts.x), t;
      }
      t := t + 1;
    }
    r := Break(bestT, maxT);
    BreakPointIsBest(y, minWindow, tstat);
  }

  /** A test that yields NaN on every split leaves the initial `-1, 0`. */
  lemma {:induction false} AllNaNStatisticsGiveNoBreak(y: seq<Val>, minWindow: nat, tstat: (seq<Val>, seq<Val>) -> Val, hi: int)
    requires hi <= |y| || hi <= minWindow
    requires forall a, b :: tstat(a, b) == NaN
    ensures ScanUpTo(y, minWindow, tstat, hi) == NoBreak
    decreases hi
  {
    if hi > minWindow {
      AllNaNStatisticsGiveNoBreak(y, minWindow, tstat, hi - 1);
    }
  }
}
