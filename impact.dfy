/** `ImpactAnalyzer.analyze_metric`: the before/after comparison of one metric around an
    event month, on short windows of `window` months and on the full stretches either side,
    each with its year-ago counterpart. */
module Impact {
  import opened Wrappers
  import opened Values
  import opened Text
  import opened EventCalendar
  import opened Trend

  /** `absolute_matrix`: holiday-free window means and their relative changes. */
  datatype AbsoluteMatrix = AbsoluteMatrix(
    preAvg: Val, postAvg: Val, yoyPreAvg: Val, yoyPostAvg: Val, changePct: Val, yoyChangePct: Val)

  /** `trend_matrix`: the slopes of the unfiltered windows. */
  datatype TrendMatrix = TrendMatrix(
    preSlopeShort: Val, postSlopeShort: Val, preSlopeFull: Val, postSlopeFull: Val,
    yoyPreSlopeShort: Val, yoyPostSlopeShort: Val, yoyPreSlopeFull: Val, yoyPostSlopeFull: Val)

  /** The returned dictionary, the `{"error": ...}` dictionary for an anchor missing from
      `dates`, or the `ValueError` a year-ago lookup raises on an unparseable date. */
  datatype Analysis =
    | Analysis(absolute: AbsoluteMatrix, trend: TrendMatrix)
    | AnchorNotFound(anchor: string)
    | Raised(date: string)

  /** `safe_mean`: `np.nanmean`, and NaN for an empty window. */
  function SafeMean(vals: seq<Val>): Val
  {
    if |vals| > 0 then NanMean(vals) else NaN
  }

  /** `safe_pct_change(post, pre)`: the relative change from `pre`, NaN when `pre` is NaN or
      zero (NaN is truthy in Python, so only the explicit `isnan` test catches it). */
  function SafePctChange(post: Val, pre: Val): Val
  {
    if pre.Num? && pre.x != 0.0 then
      (if post.Num? then Num((post.x - pre.x) / pre.x) else NaN)
    else NaN
  }

  /** `calculate_slope(y) or np.nan`: a missing slope and a slope of exactly 0.0 (falsy) both
      become NaN. */
  function SlopeOrNaN(y: seq<Val>): Val
  {
    match Slope(y)
    case None => NaN
    case Some(s) => if s == 0.0 then NaN else Num(s)
  }

  /** A year-ago window as `get_window_data` receives it: `(-1, -1)` is an empty range. */
  function MeanOver(cal: Calendar, values: seq<Val>, dates: seq<string>, w: YoyOutcome, mode: Mode): seq<Val>
    requires |dates| <= |values| && w.Aligned?
  {
    Window(cal, values, dates, w.start, w.end, mode)
  }

  /** A range of positions `[start, end)` of the monthly axis. */
  datatype Span = Span(start: int, end: int)

  /** The four stretches around the anchor at `a` on an axis of `n` months: the `window`
      months before it and after it, and everything before it and after it. */
  datatype Stretches = Stretches(pre: Span, post: Span, fullPre: Span, fullPost: Span)

  function StretchesAround(a: int, window: int, n: int): Stretches
  {
    Stretches(Span(a - window, a), Span(a + 1, a + 1 + window), Span(0, a), Span(a + 1, n))
  }

  /** The analysis once the anchor has been found at `a` and all four year-ago windows are
      known. */
  function Matrices(cal: Calendar, values: seq<Val>, dates: seq<string>, a: int, window: int,
                    yps: YoyOutcome, ypo: YoyOutcome, ypf: YoyOutcome, yof: YoyOutcome): Analysis
    requires |dates| <= |values| && yps.Aligned? && ypo.Aligned? && ypf.Aligned? && yof.Aligned?
  {
    var w := StretchesAround(a, window, |dates|);
    var preAvg := SafeMean(Window(cal, values, dates, w.pre.start, w.pre.end, Clean));
    var postAvg := SafeMean(Window(cal, values, dates, w.post.start, w.post.end, Clean));
    var yoyPreAvg := SafeMean(MeanOver(cal, values, dates, yps, Clean));
    var yoyPostAvg := SafeMean(MeanOver(cal, values, dates, ypo, Clean));
    var absolute := AbsoluteMatrix(preAvg, postAvg, yoyPreAvg, yoyPostAvg,
      SafePctChange(postAvg, preAvg), SafePctChange(yoyPostAvg, yoyPreAvg));
    var trend := TrendMatrix(
      SlopeOrNaN(Window(cal, values, dates, w.pre.start, w.pre.end, Full)),
      SlopeOrNaN(Window(cal, values, dates, w.post.start, w.post.end, Full)),
      SlopeOrNaN(Window(cal, values, dates, w.fullPre.start, w.fullPre.end, Full)),
      SlopeOrNaN(Window(cal, values, dates, w.fullPost.start, w.fullPost.end, Full)),
      SlopeOrNaN(MeanOver(cal, values, dates, yps, Full)),
      SlopeOrNaN(MeanOver(cal, values, dates, ypo, Full)),
      SlopeOrNaN(MeanOver(cal, values, dates, ypf, Full)),
      SlopeOrNaN(MeanOver(cal, values, dates, yof, Full)));
    Analysis(absolute, trend)
  }

  /** `analyze_metric(values, dates, anchor_date, window)`. The four year-ago lookups run in
      the source's order, and the first `ValueError` ends the call. */
  function AnalyzeMetric(cal: Calendar, values: seq<Val>, dates: seq<string>, anchorDate: string, window: int): Analysis
    requires |dates| <= |values|
  {
    match IndexOf(dates, anchorDate)
    case None => AnchorNotFound(anchorDate)
    case Some(a) =>
      var w := StretchesAround(a, window, |dates|);
      var yps := AlignedYoy(cal, dates, w.pre.start, w.pre.end);
      var ypo := AlignedYoy(cal, dates, w.post.start, w.post.end);
      var ypf := AlignedYoy(cal, dates, w.fullPre.start, w.fullPre.end);
      var yof := AlignedYoy(cal, dates, w.fullPost.start, w.fullPost.end);
      if yps.ParseError? then Raised(yps.date)
      else if ypo.ParseError? then Raised(ypo.date)
      else if ypf.ParseError? then Raised(ypf.date)
      else if yof.ParseError? then Raised(yof.date)
      else Matrices(cal, values, dates, a, window, yps, ypo, ypf, yof)
  }

  /** The outcomes of `analyze_metric`: the error dictionary exactly when the anchor is not a
      date of the axis, a `ValueError` only for a date that is not "Y-M", and otherwise the
      two matrices. */
  lemma AnalyzeMetricOutcomes(cal: Calendar, values: seq<Val>, dates: seq<string>, anchorDate: string, window: int)
    requires |dates| <= |values|
    ensures var r := AnalyzeMetric(cal, values, dates, anchorDate, window);
      && (r.AnchorNotFound? <==> anchorDate !in dates)
      && (r.Raised? ==> r.date in dates && ParseYearMonth(r.date).None?)
      && ((forall j :: 0 <= j < |dates| ==> ParseYearMonth(dates[j]).Some?) ==> (r.Analysis? <==> anchorDate in dates))
  {
    match IndexOf(dates, anchorDate)
    case None =>
    case Some(a) =>
      var w := StretchesAround(a, window, |dates|);
      LookupRaisesOnDate(cal, dates, w.pre.start, w.pre.end);
      LookupRaisesOnDate(cal, dates, w.post.start, w.post.end);
      LookupRaisesOnDate(cal, dates, w.fullPre.start, w.fullPre.end);
      LookupRaisesOnDate(cal, dates, w.fullPost.start, w.fullPost.end);
  }

  /** A year-ago lookup only raises on a date of the axis that is not "Y-M". */
  lemma LookupRaisesOnDate(cal: Calendar, dates: seq<string>, start: int, end: int)
    ensures var w := AlignedYoy(cal, dates, start, end);
      w.ParseError? ==> w.date in dates && ParseYearMonth(w.date).None?
  {
    var w := AlignedYoy(cal, dates, start, end);
    if w.ParseError? {
      var j :| start <= j < end && dates[j] == w.date && ParseYearMonth(w.date).None?;
      assert j < |dates|;
    }
  }

  /** The full pre-event stretch starts at position 0, so it never has a year-ago window:
      `yoy_pre_slope_full` is always NaN. */
  lemma YoyPreSlopeFullIsNaN(cal: Calendar, values: seq<Val>, dates: seq<string>, anchorDate: string, window: int)
    requires |dates| <= |values|
    ensures var r := AnalyzeMetric(cal, values, dates, anchorDate, window);
      r.Analysis? ==> r.trend.yoyPreSlopeFull == NaN
  {
    var r := AnalyzeMetric(cal, values, dates, anchorDate, window);
    if r.Analysis? {
      var a := IndexOf(dates, anchorDate).value;
      assert AlignedYoy(cal, dates, 0, a) == NoWindow;
      assert Window(cal, values, dates, -1, -1, Full) == [];
    }
  }

  /** The anchor month itself belongs to none of the four windows around it. */
  lemma AnchorInNoWindow(cal: Calendar, dates: seq<string>, a: int, window: int, mode: Mode)
    ensures var w := StretchesAround(a, window, |dates|);
      && a !in KeptIndices(cal, dates, w.pre.start, w.pre.end, mode)
      && a !in KeptIndices(cal, dates, w.post.start, w.post.end, mode)
      && a !in KeptIndices(cal, dates, w.fullPre.start, w.fullPre.end, mode)
      && a !in KeptIndices(cal, dates, w.fullPost.start, w.fullPost.end, mode)
  {
    var w := StretchesAround(a, window, |dates|);
    KeptIndicesMembers(cal, dates, w.pre.start, w.pre.end, mode, a);
    KeptIndicesMembers(cal, dates, w.post.start, w.post.end, mode, a);
    KeptIndicesMembers(cal, dates, w.fullPre.start, w.fullPre.end, mode, a);
    KeptIndicesMembers(cal, dates, w.fullPost.start, w.fullPost.end, mode, a);
  }

  /** `safe_mean` is `np.nanmean` itself: an empty window has no non-NaN values either. */
  lemma SafeMeanIsNanMean(vals: seq<Val>)
    ensures SafeMean(vals) == NanMean(vals)
    ensures SafeMean(vals).Num? <==> exists i :: 0 <= i < |vals| && vals[i].Num?
  {
    CleanMembers(vals);
    if exists i :: 0 <= i < |vals| && vals[i].Num? {
      var i :| 0 <= i < |vals| && vals[i].Num?;
      assert vals[i] in vals;
      assert vals[i].x in Values.Clean(vals);
    } else if |Values.Clean(vals)| > 0 {
      assert Values.Clean(vals)[0] in Values.Clean(vals);
    }
  }

  /** The relative change is defined exactly for two numbers with a non-zero base; it then
      takes the base to the new value (`pre * (1 + change) == post`), and against a positive
      base it is positive exactly for a rise. */
  lemma SafePctChangeMeaning(post: Val, pre: Val)
    ensures SafePctChange(post, pre).Num? <==> post.Num? && pre.Num? && pre.x != 0.0
    ensures SafePctChange(post, pre).Num? ==> pre.x + pre.x * SafePctChange(post, pre).x == post.x
    ensures SafePctChange(post, pre).Num? && pre.x > 0.0 ==> (SafePctChange(post, pre).x > 0.0 <==> post.x > pre.x)
  {
    if post.Num? && pre.Num? && pre.x != 0.0 {
      var c := (post.x - pre.x) / pre.x;
      assert c * pre.x == post.x - pre.x;
      QuotientSign(post.x - pre.x, pre.x);
    }
  }

  /** A flat stretch is reported as NaN, not as a zero slope. */
  lemma FlatTrendIsNaN(y: seq<Val>, c: real)
    requires forall i :: 0 <= i < |y| && y[i].Num? ==> y[i].x == c
    ensures SlopeOrNaN(y) == NaN
  {
    SlopeOfConstant(y, c);
  }

  /** A non-NaN trend entry is the least-squares slope itself, never zero. */
  lemma SlopeOrNaNMeaning(y: seq<Val>)
    ensures SlopeOrNaN(y).Num? <==> Slope(y).Some? && Slope(y).value != 0.0
    ensures SlopeOrNaN(y).Num? ==> SlopeOrNaN(y).x == Slope(y).value
    ensures |Values.Clean(y)| < 2 ==> SlopeOrNaN(y) == NaN
  {
  }
}
