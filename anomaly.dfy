/** `AnomalyDetector`: the local-volatility detector (`detect_volatility_outliers`) and the
    per-year robust z-score / interquartile-range detector (`detect_outliers`). */
module Anomaly {
  import opened Wrappers
  import opened Values
  import opened Text
  import opened Sorting
  import opened Statistics

  /** The record's `type` field. */
  datatype Kind = Surge | Plunge | High | Low

  /** The record's `method` field: `Vol({window}M)`, `Z=...` (the score to two decimals) or
      `IQR`. */
  datatype Rule = Volatility(window: nat) | RobustZ | Iqr

  /** One flagged point: `date`, `val`, `z_score`, `type`, `method`. */
  datatype Outlier = Outlier(date: string, value: real, score: real, kind: Kind, rule: Rule)

  /** The sort key of both detectors: the date string. */
  predicate ByDate(a: Outlier, b: Outlier)
  {
    LexLe(a.date, b.date)
  }

  lemma ByDateIsTotalPreorder()
    ensures TotalPreorder(ByDate)
  {
    forall a: Outlier, b: Outlier ensures ByDate(a, b) || ByDate(b, a) {
      LexLeTotal(a.date, b.date);
    }
    forall a: Outlier, b: Outlier, c: Outlier | ByDate(a, b) && ByDate(b, c) ensures ByDate(a, c) {
      LexLeTransitive(a.date, b.date, c.date);
    }
  }

  /** `sorted(outliers, key=lambda x: x['date'])`. */
  function SortedByDate(os: seq<Outlier>): seq<Outlier>
  {
    ByDateIsTotalPreorder();
    SortBy(os, ByDate)
  }

  lemma SortedByDateIsSortedPermutation(os: seq<Outlier>)
    ensures SortedBy(SortedByDate(os), ByDate)
    ensures multiset(SortedByDate(os)) == multiset(os)
  {
    ByDateIsTotalPreorder();
  }

  // ---------------------------------------------------------------------------------------
  // Counting points

  /** The positions in `[0, hi)` that satisfy `p`. */
  ghost function Where(p: int -> bool, hi: int): set<int>
  {
    set i | 0 <= i < hi && p(i)
  }

  lemma WhereStep(p: int -> bool, hi: int)
    requires hi > 0
    ensures |Where(p, hi)| == |Where(p, hi - 1)| + (if p(hi - 1) then 1 else 0)
  {
    var before := Where(p, hi - 1);
    if p(hi - 1) {
      assert Where(p, hi) == before + {hi - 1};
    } else {
      assert Where(p, hi) == before;
    }
  }

  lemma WhereNone(p: int -> bool, hi: int)
    requires forall i :: 0 <= i < hi ==> !p(i)
    ensures Where(p, hi) == {}
  {
  }

  /** The positions among `idxs[..hi]` that satisfy `p`. */
  ghost function Among(p: int -> bool, idxs: seq<int>, hi: nat): set<int>
    requires hi <= |idxs|
  {
    set i | i in idxs[..hi] && p(i)
  }

  lemma AmongStep(p: int -> bool, idxs: seq<int>, hi: nat)
    requires 0 < hi <= |idxs| && idxs[hi - 1] !in idxs[..hi - 1]
    ensures |Among(p, idxs, hi)| == |Among(p, idxs, hi - 1)| + (if p(idxs[hi - 1]) then 1 else 0)
  {
    var before := Among(p, idxs, hi - 1);
    assert idxs[..hi] == idxs[..hi - 1] + [idxs[hi - 1]];
    if p(idxs[hi - 1]) {
      assert Among(p, idxs, hi) == before + {idxs[hi - 1]};
    } else {
      assert Among(p, idxs, hi) == before;
    }
  }

  /** In a strictly increasing sequence no element repeats an earlier one. */
  lemma IncreasingFresh(idxs: seq<int>, hi: nat)
    requires 0 < hi <= |idxs|
    requires forall j, k :: 0 <= j < k < |idxs| ==> idxs[j] < idxs[k]
    ensures idxs[hi - 1] !in idxs[..hi - 1]
  {
    forall k | 0 <= k < hi - 1 ensures idxs[k] != idxs[hi - 1] {
      assert idxs[k] < idxs[hi - 1];
    }
  }

  /** The positions in `[0, n)` that satisfy `p` and whose key under `g` is `key`. */
  ghost function WithKey(p: int -> bool, g: int -> string, key: string, n: int): set<int>
  {
    set i | 0 <= i < n && g(i) == key && p(i)
  }

  lemma WithKeyNone(p: int -> bool, g: int -> string, key: string, n: int)
    requires forall i :: 0 <= i < n && g(i) == key ==> !p(i)
    ensures WithKey(p, g, key, n) == {}
  {
  }

  /** The positions in `[0, n)` that satisfy `p` and whose key is among `keys[..h]`. */
  ghost function WithKeyIn(p: int -> bool, g: int -> string, keys: seq<string>, h: nat, n: int): set<int>
    requires h <= |keys|
  {
    set i | 0 <= i < n && g(i) in keys[..h] && p(i)
  }

  /** Grouping by distinct keys splits the positions without overlap. */
  lemma WithKeyInStep(p: int -> bool, g: int -> string, keys: seq<string>, h: nat, n: int)
    requires 0 < h <= |keys| && keys[h - 1] !in keys[..h - 1]
    ensures |WithKeyIn(p, g, keys, h, n)| == |WithKeyIn(p, g, keys, h - 1, n)| + |WithKey(p, g, keys[h - 1], n)|
  {
    var before := WithKeyIn(p, g, keys, h - 1, n);
    var group := WithKey(p, g, keys[h - 1], n);
    assert keys[..h] == keys[..h - 1] + [keys[h - 1]];
    assert WithKeyIn(p, g, keys, h, n) == before + group;
    assert before * group == {};
  }

  lemma WithKeyInAll(p: int -> bool, g: int -> string, keys: seq<string>, n: int)
    requires forall i :: 0 <= i < n ==> g(i) in keys
    ensures WithKeyIn(p, g, keys, |keys|, n) == Where(p, n)
  {
    assert keys[..|keys|] == keys;
  }

  // ---------------------------------------------------------------------------------------
  // Local volatility

  /** The relative jump of point `i` from the mean of the non-NaN values among the `window`
      points before it; `None` where the loop skips `i` (a NaN point, no usable baseline, or a
      zero baseline). */
  function Deviation(series: seq<Val>, window: nat, i: nat): (r: Option<real>)
    requires window <= i < |series|
    ensures r.Some? ==> series[i].Num?
  {
    if series[i].NaN? then None
    else
      match NanMean(series[i - window..i])
      case NaN => None
      case Num(baseline) =>
        if baseline == 0.0 then None else Some((series[i].x - baseline) / baseline)
  }

  /** The deviation of `i` when it exceeds the threshold in absolute value. */
  function Spike(series: seq<Val>, window: nat, threshold: real, i: nat): (r: Option<real>)
    requires window <= i < |series|
    ensures r.Some? ==> series[i].Num?
  {
    match Deviation(series, window, i)
    case None => None
    case Some(d) => if Abs(d) > threshold then Some(d) else None
  }

  function VolatilityRecord(date: string, value: real, deviation: real, window: nat): Outlier
  {
    Outlier(date, value, deviation, if deviation > 0.0 then Surge else Plunge, Volatility(window))
  }

  /** What a detector returns: its records, or the `IndexError` of reading `dates[i]` for a
      flagged point past the end of `dates`. */
  datatype Detection = Detected(outliers: seq<Outlier>) | IndexError(index: nat)

  /** The loop of `detect_volatility_outliers` over the points `window .. hi - 1`. */
  function VolatilityScan(series: seq<Val>, dates: seq<string>, window: nat, threshold: real, hi: int): Detection
    requires hi <= |series| || hi <= window
    decreases hi
  {
    if hi <= window then Detected([])
    else
      match VolatilityScan(series, dates, window, threshold, hi - 1)
      case IndexError(j) => IndexError(j)
      case Detected(os) =>
        match Spike(series, window, threshold, hi - 1)
        case None => Detected(os)
        case Some(d) =>
          if hi - 1 >= |dates| then IndexError(hi - 1)
          else Detected(os + [VolatilityRecord(dates[hi - 1], series[hi - 1].x, d, window)])
  }

  /** `detect_volatility_outliers(series, dates, window, threshold_pct)`. */
  function VolatilityOutliers(series: seq<Val>, dates: seq<string>, window: nat, threshold: real): Detection
  {
    match VolatilityScan(series, dates, window, threshold, |series|)
    case Detected(os) => Detected(SortedByDate(os))
    case IndexError(j) => IndexError(j)
  }

  /** The first `IndexError` ends the scan: later points do not change it. */
  lemma {:induction false} VolatilityScanStopsAtError(series: seq<Val>, dates: seq<string>, window: nat, threshold: real, lo: int, hi: int)
    requires lo <= hi <= |series|
    requires VolatilityScan(series, dates, window, threshold, lo).IndexError?
    ensures VolatilityScan(series, dates, window, threshold, hi) == VolatilityScan(series, dates, window, threshold, lo)
    decreases hi - lo
  {
    if lo < hi {
      VolatilityScanStopsAtError(series, dates, window, threshold, lo, hi - 1);
    }
  }

  /** Point `i` is reported as `o`. */
  predicate SpikeAt(series: seq<Val>, dates: seq<string>, window: nat, threshold: real, i: int, o: Outlier)
  {
    && window <= i < |series| && i < |dates|
    && Spike(series, window, threshold, i).Some?
    && o == VolatilityRecord(dates[i], series[i].x, Spike(series, window, threshold, i).value, window)
  }

  /** The scan fails exactly when some point past the end of `dates` is flagged. */
  lemma {:induction false} VolatilityScanFails(series: seq<Val>, dates: seq<string>, window: nat, threshold: real, hi: int)
    requires hi <= |series| || hi <= window
    ensures VolatilityScan(series, dates, window, threshold, hi).IndexError? <==>
      exists i :: window <= i < hi && |dates| <= i && Spike(series, window, threshold, i).Some?
    decreases hi
  {
    if hi > window {
      VolatilityScanFails(series, dates, window, threshold, hi - 1);
    }
  }

  /** Point `i` is reported as `o`, as a predicate on `i`. */
  ghost function IsSpikeAs(series: seq<Val>, dates: seq<string>, window: nat, threshold: real, o: Outlier): int -> bool
  {
    i => SpikeAt(series, dates, window, threshold, i, o)
  }

  /** The points among the first `hi` that are reported as `o`. */
  ghost function SpikesAs(series: seq<Val>, dates: seq<string>, window: nat, threshold: real, hi: int, o: Outlier): set<int>
  {
    Where(IsSpikeAs(series, dates, window, threshold, o), hi)
  }

  /** ... and each record as often as there are points reported as that record: one record
      per flagged point. */
  lemma {:induction false} VolatilityScanCount(series: seq<Val>, dates: seq<string>, window: nat, threshold: real, hi: int, o: Outlier)
    requires hi <= |series| || hi <= window
    ensures var r := VolatilityScan(series, dates, window, threshold, hi);
      r.Detected? ==> multiset(r.outliers)[o] == |SpikesAs(series, dates, window, threshold, hi, o)|
    decreases hi
  {
    var p := IsSpikeAs(series, dates, window, threshold, o);
    if hi <= window {
      WhereNone(p, hi);
    } else if VolatilityScan(series, dates, window, threshold, hi).Detected? {
      RecordAppended(series, dates, window, threshold, hi, o);
      VolatilityScanCount(series, dates, window, threshold, hi - 1, o);
      assert SpikesAs(series, dates, window, threshold, hi - 1, o) == Where(p, hi - 1);
      WhereStep(p, hi);
      assert p(hi - 1) == SpikeAt(series, dates, window, threshold, hi - 1, o);
    }
  }

  /** One step of the scan appends the record of its point when that point is flagged. */
  lemma RecordAppended(series: seq<Val>, dates: seq<string>, window: nat, threshold: real, hi: int, o: Outlier)
    requires window < hi <= |series|
    requires VolatilityScan(series, dates, window, threshold, hi).Detected?
    ensures VolatilityScan(series, dates, window, threshold, hi - 1).Detected?
    ensures multiset(VolatilityScan(series, dates, window, threshold, hi).outliers)[o]
         == multiset(VolatilityScan(series, dates, window, threshold, hi - 1).outliers)[o]
            + (if SpikeAt(series, dates, window, threshold, hi - 1, o) then 1 else 0)
  {
    var prev := VolatilityScan(series, dates, window, threshold, hi - 1);
    var r := VolatilityScan(series, dates, window, threshold, hi);
    assert prev.Detected?;
    match Spike(series, window, threshold, hi - 1)
    case None =>
    case Some(d) =>
      assert r.outliers == prev.outliers + [VolatilityRecord(dates[hi - 1], series[hi - 1].x, d, window)];
  }

  /** Otherwise it holds the record of every flagged point and nothing else. */
  lemma VolatilityScanMembers(series: seq<Val>, dates: seq<string>, window: nat, threshold: real, hi: int)
    requires hi <= |series| || hi <= window
    ensures var r := VolatilityScan(series, dates, window, threshold, hi);
      r.Detected? ==> forall o :: o in r.outliers <==> exists i :: i < hi && SpikeAt(series, dates, window, threshold, i, o)
  {
    var r := VolatilityScan(series, dates, window, threshold, hi);
    if r.Detected? {
      forall o ensures o in r.outliers <==> exists i :: i < hi && SpikeAt(series, dates, window, threshold, i, o) {
        VolatilityScanCount(series, dates, window, threshold, hi, o);
        var spikes := SpikesAs(series, dates, window, threshold, hi, o);
        assert o in r.outliers <==> multiset(r.outliers)[o] > 0;
        if exists i :: i < hi && SpikeAt(series, dates, window, threshold, i, o) {
          var i :| i < hi && SpikeAt(series, dates, window, threshold, i, o);
          assert IsSpikeAs(series, dates, window, threshold, o)(i);
          assert i in spikes;
        }
        if |spikes| > 0 {
          var i :| i in spikes;
          assert IsSpikeAs(series, dates, window, threshold, o)(i);
        }
      }
    }
  }

  /** Correctness of `detect_volatility_outliers`: sorted by date; one record for every point
      that jumps by more than the threshold from its local baseline, and for no other; and an
      `IndexError` only when `dates` is shorter than the series. */
  lemma VolatilityOutliersMeaning(series: seq<Val>, dates: seq<string>, window: nat, threshold: real)
    ensures var r := VolatilityOutliers(series, dates, window, threshold);
      && (r.IndexError? <==> exists i :: window <= i < |series| && |dates| <= i && Spike(series, window, threshold, i).Some?)
      && (|series| <= |dates| ==> r.Detected?)
      && (r.Detected? ==> SortedBy(r.outliers, ByDate))
      && (r.Detected? ==> forall o :: o in r.outliers <==> exists i :: SpikeAt(series, dates, window, threshold, i, o))
      && (r.Detected? ==> forall o :: multiset(r.outliers)[o] == |SpikesAs(series, dates, window, threshold, |series|, o)|)
  {
    VolatilityScanFails(series, dates, window, threshold, |series|);
    VolatilityScanMembers(series, dates, window, threshold, |series|);
    var s := VolatilityScan(series, dates, window, threshold, |series|);
    if s.Detected? {
      SortedByDateIsSortedPermutation(s.outliers);
      forall o ensures o in SortedByDate(s.outliers) <==> o in s.outliers {
        assert o in SortedByDate(s.outliers) <==> o in multiset(SortedByDate(s.outliers));
      }
      forall o ensures multiset(SortedByDate(s.outliers))[o] == |SpikesAs(series, dates, window, threshold, |series|, o)| {
        VolatilityScanCount(series, dates, window, threshold, |series|, o);
      }
    }
  }

  /** What a record's kind means: against a positive baseline `Surge` is a rise above it and
      `Plunge` a fall; against a negative baseline the labels are swapped, because the
      deviation is divided by the signed baseline. */
  lemma DeviationKind(value: real, baseline: real)
    requires baseline != 0.0
    ensures var k := VolatilityRecord("", value, (value - baseline) / baseline, 0).kind;
      && (baseline > 0.0 ==> (k == Surge <==> value > baseline))
      && (baseline < 0.0 ==> (k == Surge <==> value < baseline))
  {
    QuotientSign(value - baseline, baseline);
  }

  /** A point is only ever compared with earlier points, so with `window == 0` nothing is
      flagged. */
  lemma {:induction false} NoWindowNoOutliers(series: seq<Val>, dates: seq<string>, threshold: real, hi: int)
    requires hi <= |series|
    ensures VolatilityScan(series, dates, 0, threshold, hi) == Detected([])
    decreases hi
  {
    if hi > 0 {
      NoWindowNoOutliers(series, dates, threshold, hi - 1);
      assert series[hi - 1 - 0..hi - 1] == [];
    }
  }

  /** A jump from 1 to 10 over a two-month baseline of 1s is a surge of 900%. */
  lemma VolatilityExample()
    ensures VolatilityOutliers([Num(1.0), Num(1.0), Num(10.0)], ["2024-1", "2024-2", "2024-3"], 2, 0.5)
         == Detected([Outlier("2024-3", 10.0, 9.0, Surge, Volatility(2))])
  {
    var series := [Num(1.0), Num(1.0), Num(10.0)];
    assert series[0..2] == [Num(1.0), Num(1.0)];
    assert Clean([Num(1.0)]) == [1.0];
    assert Clean([Num(1.0), Num(1.0)]) == [1.0] + Clean([Num(1.0)]);
    assert Sum([1.0, 1.0]) == 2.0;
    assert NanMean(series[0..2]) == Num(1.0);
    assert Spike(series, 2, 0.5, 2) == Some(9.0);
    var dates := ["2024-1", "2024-2", "2024-3"];
    var rec := Outlier("2024-3", 10.0, 9.0, Surge, Volatility(2));
    assert VolatilityScan(series, dates, 2, 0.5, 3) == Detected([rec]);
    ByDateIsTotalPreorder();
    assert SortBy([rec], ByDate) == Insert(rec, [], ByDate) == [rec];
  }

  /** The body of the loop at point `i`: the deviation of a point that clears every `continue`
      and the threshold. */
  method PointSpike(series: seq<Val>, window: nat, threshold: real, i: nat) returns (flagged: Option<real>)
    requires window <= i < |series|
    ensures flagged == Spike(series, window, threshold, i)
  {
    flagged := None;
    var curr := series[i];
    if curr.Num? {
      var local := Clean(series[i - window..i]);
      if |local| != 0 {
        var baseline := Sum(local) / (|local| as real);
        if baseline != 0.0 {
          var deviation := (curr.x - baseline) / baseline;
          if Abs(deviation) > threshold {
            flagged := Some(deviation);
          }
        }
      }
    }
  }

  /** `detect_volatility_outliers`, with its loop over the points. */
  method DetectVolatilityOutliers(series: seq<Val>, dates: seq<string>, window: nat, threshold: real)
    returns (r: Detection)
    ensures r == VolatilityOutliers(series, dates, window, threshold)
  {
    var outliers: seq<Outlier> := [];
    var i := window;
    while i < |series|
      invariant window <= i && (i <= |series| || i == window)
      invariant VolatilityScan(series, dates, window, threshold, i) == Detected(outliers)
      decreases |series| - i
    {
      var curr := series[i];
      var flagged := PointSpike(series, window, threshold, i);
      if flagged.Some? {
        if i >= |dates| {
          VolatilityScanStopsAtError(series, dates, window, threshold, i + 1, |series|);
          return IndexError(i);
        }
        var deviation := flagged.value;
        outliers := outliers + [Outlier(dates[i], curr.x, deviation, if deviation > 0.0 then Surge else Plunge, Volatility(window))];
      }
      i := i + 1;
    }
    r := Detected(SortedByDate(outliers));
  }

  // ---------------------------------------------------------------------------------------
  // Robust z-score and interquartile range, per year

  /** The dictionary key of a date: the text before its first `-`. */
  function YearOf(d: string): string
  {
    Split(d, '-')[0]
  }

  function YearsOf(dates: seq<string>): (ys: seq<string>)
    ensures |ys| == |dates|
  {
    seq(|dates|, i requires 0 <= i < |dates| => YearOf(dates[i]))
  }

  /** The positions, in increasing order, of the dates among the first `hi` whose year is
      `key`: the `indices` list that `year_data[key]` accumulates. */
  function YearIndices(dates: seq<string>, key: string, hi: int): seq<int>
    requires hi <= |dates|
    decreases hi
  {
    if hi <= 0 then []
    else YearIndices(dates, key, hi - 1) + (if YearOf(dates[hi - 1]) == key then [hi - 1] else [])
  }

  lemma {:induction false} YearIndicesMembers(dates: seq<string>, key: string, hi: int)
    requires hi <= |dates|
    ensures forall j :: j in YearIndices(dates, key, hi) <==> 0 <= j < hi && YearOf(dates[j]) == key
    decreases hi
  {
    if hi > 0 {
      YearIndicesMembers(dates, key, hi - 1);
    }
  }

  /** The series values at the given positions: `year_data[key]['vals']`. */
  function ValuesAt(series: seq<Val>, idxs: seq<int>): (vs: seq<Val>)
    requires forall k :: 0 <= k < |idxs| ==> 0 <= idxs[k] < |series|
    ensures |vs| == |idxs|
  {
    seq(|idxs|, k requires 0 <= k < |idxs| => series[idxs[k]])
  }

  /** The statistics one year's points are judged against. */
  datatype Fences = Fences(median: real, mad: real, q1: real, q3: real)
  {
    function Lower(): real { q1 - 1.5 * (q3 - q1) }
    function Upper(): real { q3 + 1.5 * (q3 - q1) }
  }

  function AbsDeviations(c: seq<real>, m: real): (r: seq<real>)
    ensures |r| == |c|
  {
    seq(|c|, k requires 0 <= k < |c| => Abs(c[k] - m))
  }

  /** The median absolute deviation of `c`, or `std(c)` (`np.std`) when that is zero. */
  function Spread(c: seq<real>, std: seq<real> -> real): real
    requires |c| > 0
  {
    var mad := Median(AbsDeviations(c, Median(c)));
    if mad == 0.0 then std(c) else mad
  }

  /** The statistics of one year's values, or `None` where the loop skips the year: fewer than
      three non-NaN values, or a zero spread. The quartiles bracket the median, and a spread
      taken from the median absolute deviation is positive. */
  function YearFences(vals: seq<Val>, std: seq<real> -> real): (r: Option<Fences>)
    ensures r.None? <==> |Clean(vals)| < 3 || Spread(Clean(vals), std) == 0.0
    ensures r.Some? ==> r.value.mad != 0.0 && r.value.q1 <= r.value.median <= r.value.q3
    ensures r.Some? && Median(AbsDeviations(Clean(vals), Median(Clean(vals)))) != 0.0 ==> r.value.mad > 0.0
  {
    var c := Clean(vals);
    if |c| < 3 then None
    else
      var median := Median(c);
      var mad := Spread(c, std);
      if mad == 0.0 then None
      else
        QuartilesOrdered(c);
        MadNonNegative(c);
        Some(Fences(median, mad, Percentile(c, 25), Percentile(c, 75)))
  }

  lemma MadNonNegative(c: seq<real>)
    requires |c| > 0
    ensures Median(AbsDeviations(c, Median(c))) >= 0.0
  {
    var d := AbsDeviations(c, Median(c));
    PercentileAtLeast(d, 50, 0.0);
    MedianIsPercentile50(d);
  }

  /** `mod_z`: `0.6745 * (v - median) / mad`. */
  function RobustScore(v: real, f: Fences): real
    requires f.mad != 0.0
  {
    0.6745 * (v - f.median) / f.mad
  }

  /** The verdict on one non-NaN value of the year: the z rule first, then the IQR fences. */
  function Judge(date: string, v: real, f: Fences, threshold: real): Option<Outlier>
    requires f.mad != 0.0
  {
    var z := RobustScore(v, f);
    var kind := if v > f.median then High else Low;
    if Abs(z) > threshold then Some(Outlier(date, v, z, kind, RobustZ))
    else if v < f.Lower() || v > f.Upper() then Some(Outlier(date, v, z, kind, Iqr))
    else None
  }

  /** What the inner loop does at the year's point at position `i` of the series. */
  function Verdict(series: seq<Val>, dates: seq<string>, i: int, f: Fences, threshold: real): Option<Outlier>
    requires 0 <= i < |series| && i < |dates| && f.mad != 0.0
  {
    if series[i].NaN? then None else Judge(dates[i], series[i].x, f, threshold)
  }

  predicate InRange(idxs: seq<int>, n: int)
  {
    forall k :: 0 <= k < |idxs| ==> 0 <= idxs[k] < n
  }

  /** The records of the year's first `hi` points. */
  function FlagPoints(series: seq<Val>, dates: seq<string>, idxs: seq<int>, f: Fences, threshold: real, hi: int): seq<Outlier>
    requires |series| == |dates| && InRange(idxs, |series|) && hi <= |idxs| && f.mad != 0.0
    decreases hi
  {
    if hi <= 0 then []
    else
      FlagPoints(series, dates, idxs, f, threshold, hi - 1)
      + match Verdict(series, dates, idxs[hi - 1], f, threshold)
        case None => []
        case Some(o) => [o]
  }

  /** The records of one year, whose points sit at `idxs`. */
  function YearOutliers(series: seq<Val>, dates: seq<string>, idxs: seq<int>, threshold: real, std: seq<real> -> real): seq<Outlier>
    requires |series| == |dates| && InRange(idxs, |series|)
  {
    match YearFences(ValuesAt(series, idxs), std)
    case None => []
    case Some(f) => FlagPoints(series, dates, idxs, f, threshold, |idxs|)
  }

  /** The records of the first `hi` years of `keys`, in the dictionary's insertion order, the
      records of each year as `records` gives them. */
  function AllYears(keys: seq<string>, records: string -> seq<Outlier>, hi: int): seq<Outlier>
    requires hi <= |keys|
    decreases hi
  {
    if hi <= 0 then []
    else AllYears(keys, records, hi - 1) + records(keys[hi - 1])
  }

  /** The records of each year of the series. */
  function PerYear(series: seq<Val>, dates: seq<string>, threshold: real, std: seq<real> -> real): string -> seq<Outlier>
    requires |series| == |dates|
  {
    key => YearRecords(series, dates, key, threshold, std)
  }

  /** The years in the order `year_data` first sees them. */
  function YearKeys(dates: seq<string>): seq<string>
  {
    Dedup(YearsOf(dates))
  }

  /** `detect_outliers(series, dates, threshold)`, with `np.std` as `std`. */
  function Outliers(series: seq<Val>, dates: seq<string>, threshold: real, std: seq<real> -> real): seq<Outlier>
  {
    if |series| != |dates| then []
    else
      var keys := YearKeys(dates);
      SortedByDate(AllYears(keys, PerYear(series, dates, threshold, std), |keys|))
  }

  /** The verdict on one value: flagged exactly when its robust z-score passes the threshold
      or it lies outside the fences; the z rule takes precedence; with a positive spread a
      `High` point is one with a positive score. */
  lemma JudgeMeaning(date: string, v: real, f: Fences, threshold: real)
    requires f.mad != 0.0
    ensures var r := Judge(date, v, f, threshold);
      && (r.Some? <==> Abs(RobustScore(v, f)) > threshold || v < f.Lower() || v > f.Upper())
      && (r.Some? ==> r.value.date == date && r.value.value == v && r.value.score == RobustScore(v, f))
      && (r.Some? ==> (r.value.rule == RobustZ <==> Abs(r.value.score) > threshold))
      && (r.Some? ==> r.value.rule == RobustZ || r.value.rule == Iqr)
      && (r.Some? && f.mad > 0.0 ==> (r.value.kind == High <==> r.value.score > 0.0))
  {
    var t := 0.6745 * (v - f.median);
    QuotientSign(t, f.mad);
  }

  /** A value inside the interquartile box whose robust z-score is within the threshold is
      never flagged. */
  lemma InsideBoxNotFlagged(date: string, v: real, f: Fences, threshold: real)
    requires f.mad != 0.0 && f.q1 <= f.q3
    requires f.q1 <= v <= f.q3 && Abs(RobustScore(v, f)) <= threshold
    ensures Judge(date, v, f, threshold).None?
  {
  }

  lemma {:induction false} FlagPointsMembers(series: seq<Val>, dates: seq<string>, idxs: seq<int>, f: Fences, threshold: real, hi: int)
    requires |series| == |dates| && InRange(idxs, |series|) && hi <= |idxs| && f.mad != 0.0
    ensures forall o :: o in FlagPoints(series, dates, idxs, f, threshold, hi) <==>
      exists m :: 0 <= m < hi && Verdict(series, dates, idxs[m], f, threshold) == Some(o)
    decreases hi
  {
    if hi > 0 {
      FlagPointsMembers(series, dates, idxs, f, threshold, hi - 1);
    }
  }

  lemma {:induction false} AllYearsMembers(keys: seq<string>, records: string -> seq<Outlier>, hi: int, o: Outlier)
    requires hi <= |keys|
    ensures o in AllYears(keys, records, hi) <==> exists k :: 0 <= k < hi && o in records(keys[k])
    decreases hi
  {
    if hi > 0 {
      AllYearsMembers(keys, records, hi - 1, o);
      if exists k :: 0 <= k < hi && o in records(keys[k]) {
        var k :| 0 <= k < hi && o in records(keys[k]);
        if k < hi - 1 {
          assert o in AllYears(keys, records, hi - 1);
        }
      }
    }
  }

  /** The records of the year `key`. */
  function YearRecords(series: seq<Val>, dates: seq<string>, key: string, threshold: real, std: seq<real> -> real): seq<Outlier>
    requires |series| == |dates|
  {
    var idxs := YearIndices(dates, key, |dates|);
    YearIndicesMembers(dates, key, |dates|);
    assert InRange(idxs, |series|) by {
      forall k | 0 <= k < |idxs| ensures 0 <= idxs[k] < |series| {
        assert idxs[k] in idxs;
      }
    }
    YearOutliers(series, dates, idxs, threshold, std)
  }

  /** The fences of the year `key`, as `detect_outliers` computes them from that year's values. */
  function FencesOfYear(series: seq<Val>, dates: seq<string>, key: string, std: seq<real> -> real): Option<Fences>
    requires |series| == |dates|
  {
    var idxs := YearIndices(dates, key, |dates|);
    YearIndicesMembers(dates, key, |dates|);
    assert InRange(idxs, |series|) by {
      forall k | 0 <= k < |idxs| ensures 0 <= idxs[k] < |series| {
        assert idxs[k] in idxs;
      }
    }
    YearFences(ValuesAt(series, idxs), std)
  }

  /** Point `i` is reported as `o`, judged against the fences of its own year. */
  predicate JudgedAt(series: seq<Val>, dates: seq<string>, threshold: real, std: seq<real> -> real, i: int, o: Outlier)
  {
    && |series| == |dates| && 0 <= i < |dates|
    && FencesOfYear(series, dates, YearOf(dates[i]), std).Some?
    && Verdict(series, dates, i, FencesOfYear(series, dates, YearOf(dates[i]), std).value, threshold) == Some(o)
  }

  /** The records of the year `key` are the verdicts on exactly the points of that year. */
  lemma YearRecordsMembers(series: seq<Val>, dates: seq<string>, key: string, threshold: real, std: seq<real> -> real, o: Outlier)
    requires |series| == |dates|
    ensures o in YearRecords(series, dates, key, threshold, std) <==>
      exists i :: 0 <= i < |dates| && YearOf(dates[i]) == key && JudgedAt(series, dates, threshold, std, i, o)
  {
    var idxs := YearIndices(dates, key, |dates|);
    YearIndicesMembers(dates, key, |dates|);
    assert InRange(idxs, |series|) by {
      forall k | 0 <= k < |idxs| ensures 0 <= idxs[k] < |series| {
        assert idxs[k] in idxs;
      }
    }
    var fs := FencesOfYear(series, dates, key, std);
    assert fs == YearFences(ValuesAt(series, idxs), std);
    if fs.Some? {
      FlagPointsMembers(series, dates, idxs, fs.value, threshold, |idxs|);
      assert YearRecords(series, dates, key, threshold, std) == FlagPoints(series, dates, idxs, fs.value, threshold, |idxs|);
      if o in YearRecords(series, dates, key, threshold, std) {
        var m :| 0 <= m < |idxs| && Verdict(series, dates, idxs[m], fs.value, threshold) == Some(o);
        assert idxs[m] in idxs;
        assert JudgedAt(series, dates, threshold, std, idxs[m], o);
      }
      if exists i :: 0 <= i < |dates| && YearOf(dates[i]) == key && JudgedAt(series, dates, threshold, std, i, o) {
        var i :| 0 <= i < |dates| && YearOf(dates[i]) == key && JudgedAt(series, dates, threshold, std, i, o);
        assert i in idxs;
        var m :| 0 <= m < |idxs| && idxs[m] == i;
        assert o in FlagPoints(series, dates, idxs, fs.value, threshold, |idxs|);
      }
    } else {
      assert YearRecords(series, dates, key, threshold, std) == [];
    }
  }

  /** The positions of each year are strictly increasing, so no point is visited twice. */
  lemma {:induction false} YearIndicesIncreasing(dates: seq<string>, key: string, hi: int)
    requires hi <= |dates|
    ensures forall j, k :: 0 <= j < k < |YearIndices(dates, key, hi)| ==> YearIndices(dates, key, hi)[j] < YearIndices(dates, key, hi)[k]
    decreases hi
  {
    if hi > 0 {
      YearIndicesIncreasing(dates, key, hi - 1);
      YearIndicesMembers(dates, key, hi - 1);
      var prev := YearIndices(dates, key, hi - 1);
      var idxs := YearIndices(dates, key, hi);
      assert idxs == prev + (if YearOf(dates[hi - 1]) == key then [hi - 1] else []);
      forall j, k | 0 <= j < k < |idxs| ensures idxs[j] < idxs[k] {
        assert idxs[j] == prev[j] && prev[j] in prev;
        if k < |prev| {
          assert idxs[k] == prev[k];
        } else {
          assert idxs[k] == hi - 1;
        }
      }
    }
  }

  /** The records among the verdicts `v` gives on `idxs[..hi]`, in order. */
  function Collected(v: int -> Option<Outlier>, idxs: seq<int>, hi: nat): seq<Outlier>
    requires hi <= |idxs|
  {
    if hi == 0 then []
    else Collected(v, idxs, hi - 1) + (if v(idxs[hi - 1]).Some? then [v(idxs[hi - 1]).value] else [])
  }

  /** Position `i` gets the verdict `o`, as a predicate on `i`. */
  ghost function Yields(v: int -> Option<Outlier>, o: Outlier): int -> bool
  {
    i => v(i) == Some(o)
  }

  /** Over distinct positions, each record is collected once per position that yields it. */
  lemma {:induction false} CollectedCount(v: int -> Option<Outlier>, idxs: seq<int>, hi: nat, o: Outlier)
    requires hi <= |idxs|
    requires forall j, k :: 0 <= j < k < |idxs| ==> idxs[j] < idxs[k]
    ensures multiset(Collected(v, idxs, hi))[o] == |Among(Yields(v, o), idxs, hi)|
    decreases hi
  {
    if hi == 0 {
      assert Among(Yields(v, o), idxs, hi) == {};
    } else {
      CollectedCount(v, idxs, hi - 1, o);
      IncreasingFresh(idxs, hi);
      AmongStep(Yields(v, o), idxs, hi);
      assert Yields(v, o)(idxs[hi - 1]) == (v(idxs[hi - 1]) == Some(o));
    }
  }

  /** The verdict on each point of the series against the fences `f`. */
  function VerdictOn(series: seq<Val>, dates: seq<string>, f: Fences, threshold: real): int -> Option<Outlier>
    requires f.mad != 0.0
  {
    i => if 0 <= i < |series| && i < |dates| then Verdict(series, dates, i, f, threshold) else None
  }

  lemma {:induction false} FlagPointsIsCollected(series: seq<Val>, dates: seq<string>, idxs: seq<int>, f: Fences, threshold: real, hi: nat)
    requires |series| == |dates| && InRange(idxs, |series|) && hi <= |idxs| && f.mad != 0.0
    ensures FlagPoints(series, dates, idxs, f, threshold, hi) == Collected(VerdictOn(series, dates, f, threshold), idxs, hi)
    decreases hi
  {
    if hi > 0 {
      FlagPointsIsCollected(series, dates, idxs, f, threshold, hi - 1);
    }
  }

  /** Point `i` is reported as `o`, as a predicate on `i`. */
  ghost function IsJudgedAs(series: seq<Val>, dates: seq<string>, threshold: real, std: seq<real> -> real, o: Outlier): int -> bool
  {
    i => JudgedAt(series, dates, threshold, std, i, o)
  }

  /** The year of point `i`, the key the points are grouped by. */
  ghost function YearAt(dates: seq<string>): int -> string
  {
    i => if 0 <= i < |dates| then YearOf(dates[i]) else ""
  }

  /** A year's records hold each record once per point of that year reported as it. */
  lemma YearRecordsCount(series: seq<Val>, dates: seq<string>, key: string, threshold: real, std: seq<real> -> real, o: Outlier)
    requires |series| == |dates|
    ensures multiset(YearRecords(series, dates, key, threshold, std))[o]
         == |WithKey(IsJudgedAs(series, dates, threshold, std, o), YearAt(dates), key, |dates|)|
  {
    if FencesOfYear(series, dates, key, std).Some? {
      YearRecordsCountFlagged(series, dates, key, threshold, std, o);
      YearVerdictsAreJudged(series, dates, key, threshold, std, o);
    } else {
      YearSkippedHasNone(series, dates, key, threshold, std, o);
    }
  }

  lemma YearRecordsCountFlagged(series: seq<Val>, dates: seq<string>, key: string, threshold: real, std: seq<real> -> real, o: Outlier)
    requires |series| == |dates| && FencesOfYear(series, dates, key, std).Some?
    ensures InRange(YearIndices(dates, key, |dates|), |series|)
    ensures multiset(YearRecords(series, dates, key, threshold, std))[o]
         == |Among(Yields(VerdictOn(series, dates, FencesOfYear(series, dates, key, std).value, threshold), o),
                   YearIndices(dates, key, |dates|), |YearIndices(dates, key, |dates|)|)|
  {
    var idxs := YearIndices(dates, key, |dates|);
    YearIndicesIncreasing(dates, key, |dates|);
    YearIndicesInRange(series, dates, key);
    var f := FencesOfYear(series, dates, key, std).value;
    assert YearFences(ValuesAt(series, idxs), std) == Some(f);
    assert YearRecords(series, dates, key, threshold, std) == FlagPoints(series, dates, idxs, f, threshold, |idxs|);
    FlagPointsIsCollected(series, dates, idxs, f, threshold, |idxs|);
    CollectedCount(VerdictOn(series, dates, f, threshold), idxs, |idxs|, o);
  }

  lemma YearVerdictsAreJudged(series: seq<Val>, dates: seq<string>, key: string, threshold: real, std: seq<real> -> real, o: Outlier)
    requires |series| == |dates| && FencesOfYear(series, dates, key, std).Some?
    ensures Among(Yields(VerdictOn(series, dates, FencesOfYear(series, dates, key, std).value, threshold), o),
                  YearIndices(dates, key, |dates|), |YearIndices(dates, key, |dates|)|)
         == WithKey(IsJudgedAs(series, dates, threshold, std, o), YearAt(dates), key, |dates|)
  {
    var idxs := YearIndices(dates, key, |dates|);
    YearIndicesMembers(dates, key, |dates|);
    var p := Yields(VerdictOn(series, dates, FencesOfYear(series, dates, key, std).value, threshold), o);
    var judged := WithKey(IsJudgedAs(series, dates, threshold, std, o), YearAt(dates), key, |dates|);
    assert idxs[..|idxs|] == idxs;
    forall i ensures i in Among(p, idxs, |idxs|) <==> i in judged {
      assert i in Among(p, idxs, |idxs|) <==> i in idxs && p(i);
      assert i in judged <==> 0 <= i < |dates| && YearOf(dates[i]) == key && JudgedAt(series, dates, threshold, std, i, o);
    }
  }

  lemma YearSkippedHasNone(series: seq<Val>, dates: seq<string>, key: string, threshold: real, std: seq<real> -> real, o: Outlier)
    requires |series| == |dates| && FencesOfYear(series, dates, key, std).None?
    ensures YearRecords(series, dates, key, threshold, std) == []
    ensures WithKey(IsJudgedAs(series, dates, threshold, std, o), YearAt(dates), key, |dates|) == {}
  {
    var idxs := YearIndices(dates, key, |dates|);
    YearIndicesInRange(series, dates, key);
    assert YearFences(ValuesAt(series, idxs), std).None?;
    var p, g := IsJudgedAs(series, dates, threshold, std, o), YearAt(dates);
    forall i | 0 <= i < |dates| && g(i) == key ensures !p(i) {
      assert YearOf(dates[i]) == key;
    }
    WithKeyNone(p, g, key, |dates|);
  }

  /** When each year's records hold `o` once per point of that year reported as it, the
      records of distinct years together hold it once per point of any of those years. */
  lemma {:induction false} AllYearsCount(keys: seq<string>, records: string -> seq<Outlier>,
                                         p: int -> bool, g: int -> string, n: int, hi: nat, o: Outlier)
    requires hi <= |keys|
    requires forall j, k :: 0 <= j < k < |keys| ==> keys[j] != keys[k]
    requires forall k :: 0 <= k < |keys| ==> multiset(records(keys[k]))[o] == |WithKey(p, g, keys[k], n)|
    ensures multiset(AllYears(keys, records, hi))[o] == |WithKeyIn(p, g, keys, hi, n)|
    decreases hi
  {
    if hi == 0 {
      assert WithKeyIn(p, g, keys, hi, n) == {};
    } else {
      AllYearsCount(keys, records, p, g, n, hi - 1, o);
      AllYearsStep(keys, records, hi, o);
      assert keys[hi - 1] !in keys[..hi - 1] by {
        forall k | 0 <= k < hi - 1 ensures keys[k] != keys[hi - 1] {
        }
      }
      WithKeyInStep(p, g, keys, hi, n);
    }
  }

  /** The points reported as `o`. */
  ghost function JudgedAs(series: seq<Val>, dates: seq<string>, threshold: real, std: seq<real> -> real, o: Outlier): set<int>
  {
    Where(IsJudgedAs(series, dates, threshold, std, o), |dates|)
  }

  /** `detect_outliers` holds each record once per point reported as it. */
  lemma OutliersCount(series: seq<Val>, dates: seq<string>, threshold: real, std: seq<real> -> real, o: Outlier)
    ensures multiset(Outliers(series, dates, threshold, std))[o] == |JudgedAs(series, dates, threshold, std, o)|
  {
    var p, g := IsJudgedAs(series, dates, threshold, std, o), YearAt(dates);
    if |series| != |dates| {
      WhereNone(p, |dates|);
    } else {
      var keys := YearKeys(dates);
      var records := PerYear(series, dates, threshold, std);
      forall k | 0 <= k < |keys| ensures multiset(records(keys[k]))[o] == |WithKey(p, g, keys[k], |dates|)| {
        YearRecordsCount(series, dates, keys[k], threshold, std, o);
      }
      AllYearsCount(keys, records, p, g, |dates|, |keys|, o);
      forall i | 0 <= i < |dates| ensures g(i) in keys {
        assert YearsOf(dates)[i] == YearOf(dates[i]);
      }
      WithKeyInAll(p, g, keys, |dates|);
      SortedByDateIsSortedPermutation(AllYears(keys, records, |keys|));
    }
  }

  lemma AllYearsStep(keys: seq<string>, records: string -> seq<Outlier>, hi: int, o: Outlier)
    requires 0 < hi <= |keys|
    ensures multiset(AllYears(keys, records, hi))[o]
         == multiset(AllYears(keys, records, hi - 1))[o] + multiset(records(keys[hi - 1]))[o]
  {
  }

  /** Correctness of `detect_outliers`: no records when the two lists differ in length;
      otherwise the records are sorted by date and are exactly the verdicts on each point
      against the fences of its own year, one record per flagged point. */
  lemma OutliersMeaning(series: seq<Val>, dates: seq<string>, threshold: real, std: seq<real> -> real, o: Outlier)
    ensures |series| != |dates| ==> Outliers(series, dates, threshold, std) == []
    ensures SortedBy(Outliers(series, dates, threshold, std), ByDate)
    ensures o in Outliers(series, dates, threshold, std) <==> exists i :: JudgedAt(series, dates, threshold, std, i, o)
    ensures multiset(Outliers(series, dates, threshold, std))[o] == |JudgedAs(series, dates, threshold, std, o)|
  {
    OutliersCount(series, dates, threshold, std, o);
    if |series| == |dates| {
      var keys := YearKeys(dates);
      var records := PerYear(series, dates, threshold, std);
      var all := AllYears(keys, records, |keys|);
      SortedByDateIsSortedPermutation(all);
      assert o in Outliers(series, dates, threshold, std) <==> o in all by {
        assert o in SortedByDate(all) <==> o in multiset(SortedByDate(all));
      }
      AllYearsMembers(keys, records, |keys|, o);
      if o in all {
        var k :| 0 <= k < |keys| && o in records(keys[k]);
        assert records(keys[k]) == YearRecords(series, dates, keys[k], threshold, std);
        YearRecordsMembers(series, dates, keys[k], threshold, std, o);
      }
      if exists i :: JudgedAt(series, dates, threshold, std, i, o) {
        var i :| JudgedAt(series, dates, threshold, std, i, o);
        var key := YearOf(dates[i]);
        assert YearsOf(dates)[i] == key;
        assert key in keys;
        var k :| 0 <= k < |keys| && keys[k] == key;
        YearRecordsMembers(series, dates, key, threshold, std, o);
        assert o in records(keys[k]);
      }
    }
  }

  /** The points of a year lie inside the series. */
  lemma YearIndicesInRange(series: seq<Val>, dates: seq<string>, key: string)
    requires |series| == |dates|
    ensures InRange(YearIndices(dates, key, |dates|), |series|)
  {
    var idxs := YearIndices(dates, key, |dates|);
    YearIndicesMembers(dates, key, |dates|);
    forall k | 0 <= k < |idxs| ensures 0 <= idxs[k] < |series| {
      assert idxs[k] in idxs;
    }
  }

  /** The body of the loop over `year_data`: one year's statistics, then the verdicts on its
      points. */
  method FlagYear(series: seq<Val>, dates: seq<string>, idxs: seq<int>, threshold: real, std: seq<real> -> real)
    returns (os: seq<Outlier>)
    requires |series| == |dates| && InRange(idxs, |series|)
    ensures os == YearOutliers(series, dates, idxs, threshold, std)
  {
    var fences := YearFences(ValuesAt(series, idxs), std);
    if fences.None? {
      return [];
    }
    os := FlagYearPoints(series, dates, idxs, fences.value, threshold);
  }

  /** The inner loop over one year's points, against that year's fences. */
  method FlagYearPoints(series: seq<Val>, dates: seq<string>, idxs: seq<int>, f: Fences, threshold: real)
    returns (os: seq<Outlier>)
    requires |series| == |dates| && InRange(idxs, |series|) && f.mad != 0.0
    ensures os == FlagPoints(series, dates, idxs, f, threshold, |idxs|)
  {
    var lower, upper := f.Lower(), f.Upper();
    os := [];
    var li := 0;
    while li < |idxs|
      invariant 0 <= li <= |idxs|
      invariant os == FlagPoints(series, dates, idxs, f, threshold, li)
      decreases |idxs| - li
    {
      var v := series[idxs[li]];
      var verdict: Option<Outlier> := None;
      if v.Num? {
        var z := 0.6745 * (v.x - f.median) / f.mad;
        var kind := if v.x > f.median then High else Low;
        if Abs(z) > threshold {
          verdict := Some(Outlier(dates[idxs[li]], v.x, z, kind, RobustZ));
        } else if v.x < lower || v.x > upper {
          verdict := Some(Outlier(dates[idxs[li]], v.x, z, kind, Iqr));
        }
      }
      assert verdict == Verdict(series, dates, idxs[li], f, threshold);
      if verdict.Some? {
        os := os + [verdict.value];
      }
      li := li + 1;
    }
  }

  /** The first loop of `detect_outliers`: the years in first-seen order and, for each, the
      positions of its dates. */
  method GroupByYear(dates: seq<string>) returns (keys: seq<string>, groups: map<string, seq<int>>)
    ensures keys == YearKeys(dates)
    ensures forall k :: k in groups <==> k in keys
    ensures forall k :: k in groups ==> groups[k] == YearIndices(dates, k, |dates|)
  {
    keys, groups := [], map[];
    var i := 0;
    while i < |dates|
      invariant 0 <= i <= |dates|
      invariant keys == Dedup(YearsOf(dates)[..i])
      invariant forall k :: k in groups <==> k in keys
      invariant forall k :: k in groups ==> groups[k] == YearIndices(dates, k, i)
      decreases |dates| - i
    {
      var y := YearOf(dates[i]);
      var prefix := YearsOf(dates)[..i + 1];
      assert prefix[..i] == YearsOf(dates)[..i] && prefix[i] == y;
      if y !in groups {
        NewYearHasNoIndices(dates, y, i);
        keys := keys + [y];
        groups := groups[y := []];
      }
      groups := groups[y := groups[y] + [i]];
      i := i + 1;
    }
    assert YearsOf(dates)[..|dates|] == YearsOf(dates);
  }

  /** A year not among the first `i` dates has no positions yet. */
  lemma NewYearHasNoIndices(dates: seq<string>, y: string, i: int)
    requires 0 <= i <= |dates| && y !in YearsOf(dates)[..i]
    ensures YearIndices(dates, y, i) == []
  {
    YearIndicesMembers(dates, y, i);
    assert forall j :: 0 <= j < i ==> YearsOf(dates)[..i][j] == YearOf(dates[j]);
  }

  /** `detect_outliers`: group the positions by year, flag each year in turn, and sort the
      records by date. */
  method DetectOutliers(series: seq<Val>, dates: seq<string>, threshold: real, std: seq<real> -> real)
    returns (r: seq<Outlier>)
    ensures r == Outliers(series, dates, threshold, std)
  {
    if |series| != |dates| {
      return [];
    }
    var keys, groups := GroupByYear(dates);
    var outliers := FlagYears(series, dates, keys, groups, threshold, std);
    r := SortedByDate(outliers);
  }

  /** The second loop of `detect_outliers`: each year in turn, its records appended. */
  method FlagYears(series: seq<Val>, dates: seq<string>, keys: seq<string>, groups: map<string, seq<int>>,
                   threshold: real, std: seq<real> -> real)
    returns (outliers: seq<Outlier>)
    requires |series| == |dates|
    requires forall key :: key in keys ==> key in groups && groups[key] == YearIndices(dates, key, |dates|)
    ensures outliers == AllYears(keys, PerYear(series, dates, threshold, std), |keys|)
  {
    var records := PerYear(series, dates, threshold, std);
    outliers := [];
    var k := 0;
    while k < |keys|
      invariant 0 <= k <= |keys|
      invariant outliers == AllYears(keys, records, k)
      decreases |keys| - k
    {
      assert keys[k] in keys;
      var idxs := groups[keys[k]];
      YearIndicesInRange(series, dates, keys[k]);
      var part := FlagYear(series, dates, idxs, threshold, std);
      assert part == records(keys[k]);
      outliers := outliers + part;
      k := k + 1;
    }
  }
}
