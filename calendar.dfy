/** `EventTools` (eda_toolkit.py:171-210): the holiday-month calendar, window extraction and
    the Chinese-New-Year-aware year-ago window. Dates are the source's "Y-M" strings. */
module EventCalendar {
  import opened Wrappers
  import opened Text
  import opened Values

  /** `HOLIDAY_MONTHS` (year -> list of holiday months) and `CNY_MONTH_MAP` (year -> month of
      Chinese New Year), passed in rather than read from class constants. */
  datatype Calendar = Calendar(holidayMonths: map<int, seq<int>>, cnyMonth: map<int, int>)

  /** The tables the source ships with. */
  const SourceCalendar: Calendar :=
    Calendar(map[2024 := [2, 10], 2025 := [1, 10]], map[2024 := 2, 2025 := 1])

  /** `y, m = map(int, d.split('-'))`; `None` is the `ValueError` raised when the string does
      not split into exactly two integers. */
  function ParseYearMonth(d: string): (r: Option<(int, int)>)
    ensures r.Some? ==> r.value.0 >= 0 && r.value.1 >= 0
  {
    var parts := Split(d, '-');
    if |parts| != 2 then None
    else
      match (ParseInt(parts[0]), ParseInt(parts[1]))
      case (Some(y), Some(m)) => Some((y, m))
      case _ => None
  }

  /** `f"{y}-{m}"`: the unpadded key the year-ago lookup searches for. */
  function YearMonthKey(y: int, m: int): string
  {
    IntToDecimal(y) + "-" + IntToDecimal(m)
  }

  /** The key of a non-negative year and month parses back to that year and month. */
  lemma YearMonthKeyParses(y: nat, m: nat)
    ensures ParseYearMonth(YearMonthKey(y, m)) == Some((y, m))
  {
    var a, b := NatToDecimal(y), NatToDecimal(m);
    assert '-' !in a by { assert IsDigits(a); }
    assert '-' !in b by { assert IsDigits(b); }
    SplitAtSeparator(a, b, '-');
    assert YearMonthKey(y, m) == a + ['-'] + b;
    ParseNatToDecimal(y);
    ParseNatToDecimal(m);
  }

  /** `is_holiday`: the month is listed for its year; false for unknown years and for strings
      that are not "Y-M" (the bare `except` returns False). */
  predicate IsHoliday(cal: Calendar, d: string)
  {
    match ParseYearMonth(d)
    case None => false
    case Some((y, m)) => y in cal.holidayMonths && m in cal.holidayMonths[y]
  }

  /** For a key that the source itself would print, `is_holiday` is exactly table membership. */
  lemma IsHolidayOfKey(cal: Calendar, y: nat, m: nat)
    ensures IsHoliday(cal, YearMonthKey(y, m)) <==> y in cal.holidayMonths && m in cal.holidayMonths[y]
  {
    YearMonthKeyParses(y, m);
  }

  lemma ParseYear2024()
    ensures ParseInt("2024") == Some(2024)
  {
    assert "20"[..1] == "2";
    assert DigitsValue("20") == 20;
    assert "202"[..2] == "20";
    assert DigitsValue("202") == 202;
    assert "2024"[..3] == "202";
    assert DigitsValue("2024") == 2024;
  }

  lemma ParseYear2023()
    ensures ParseInt("2023") == Some(2023)
  {
    assert "20"[..1] == "2";
    assert DigitsValue("20") == 20;
    assert "202"[..2] == "20";
    assert DigitsValue("202") == 202;
    assert "2023"[..3] == "202";
    assert DigitsValue("2023") == 2023;
  }

  lemma ParseMonth02()
    ensures ParseInt("02") == Some(2)
  {
    assert "02"[..1] == "0";
    assert DigitsValue("0") == 0;
    assert DigitsValue("02") == 2;
  }

  /** `int()` accepts a zero-padded month. */
  lemma PaddedMonthIsHoliday()
    ensures ParseYearMonth("2024-02") == Some((2024, 2))
    ensures IsHoliday(SourceCalendar, "2024-02")
  {
    assert "2024-02" == "2024" + ['-'] + "02";
    SplitAtSeparator("2024", "02", '-');
    ParseYear2024();
    ParseMonth02();
  }

  /** A day suffix makes the date unparseable, so it is never a holiday. */
  lemma DailyDateIsNotHoliday()
    ensures ParseYearMonth("2024-02-10") == None
    ensures !IsHoliday(SourceCalendar, "2024-02-10")
  {
    assert "2024-02-10" == "2024" + ['-'] + "02-10";
    assert "02-10" == "02" + ['-'] + "10";
    SplitAtSeparator("02", "10", '-');
    SplitOnSeparatorAfter("2024", "02-10", '-');
  }

  /** Years missing from the table have no holidays. */
  lemma UnknownYearIsNotHoliday()
    ensures !IsHoliday(SourceCalendar, "2023-2")
  {
    assert "2023-2" == "2023" + ['-'] + "2";
    SplitAtSeparator("2023", "2", '-');
    ParseYear2023();
  }

  /** `mode='clean'` drops holiday months; any other mode keeps everything. */
  datatype Mode = Clean | Full

  /** Whether `get_window_data` takes index `i`: it lies in the series and, in clean mode,
      its month is not a holiday. */
  predicate Kept(cal: Calendar, dates: seq<string>, i: int, mode: Mode)
  {
    0 <= i < |dates| && (mode == Clean ==> !IsHoliday(cal, dates[i]))
  }

  /** The indices of `[start, end)` that `get_window_data` takes, in the order it visits them. */
  function KeptIndices(cal: Calendar, dates: seq<string>, start: int, end: int, mode: Mode): seq<int>
    decreases end - start
  {
    if end <= start then []
    else KeptIndices(cal, dates, start, end - 1, mode) + (if Kept(cal, dates, end - 1, mode) then [end - 1] else [])
  }

  /** The values `get_window_data` returns: the series at the kept indices. */
  function Window(cal: Calendar, series: seq<Val>, dates: seq<string>, start: int, end: int, mode: Mode): seq<Val>
    requires |dates| <= |series|
    decreases end - start
  {
    if end <= start then []
    else Window(cal, series, dates, start, end - 1, mode) + (if Kept(cal, dates, end - 1, mode) then [series[end - 1]] else [])
  }

  /** An index is kept exactly when it lies in the window and in the series and, in clean
      mode, its month is not a holiday. */
  lemma {:induction false} KeptIndicesMembers(cal: Calendar, dates: seq<string>, start: int, end: int, mode: Mode, i: int)
    ensures i in KeptIndices(cal, dates, start, end, mode) <==>
      (0 <= i < |dates| && start <= i < end && (mode == Clean ==> !IsHoliday(cal, dates[i])))
    decreases end - start
  {
    if end > start {
      KeptIndicesMembers(cal, dates, start, end - 1, mode, i);
    }
  }

  /** The kept indices lie in the window and in the series, and are strictly increasing. */
  lemma {:induction false} KeptIndicesIncreasing(cal: Calendar, dates: seq<string>, start: int, end: int, mode: Mode)
    ensures forall k :: 0 <= k < |KeptIndices(cal, dates, start, end, mode)| ==>
              start <= KeptIndices(cal, dates, start, end, mode)[k] < end &&
              0 <= KeptIndices(cal, dates, start, end, mode)[k] < |dates|
    ensures forall k, l :: 0 <= k < l < |KeptIndices(cal, dates, start, end, mode)| ==>
              KeptIndices(cal, dates, start, end, mode)[k] < KeptIndices(cal, dates, start, end, mode)[l]
    decreases end - start
  {
    if end > start {
      KeptIndicesIncreasing(cal, dates, start, end - 1, mode);
    }
  }

  /** The window's values are the series read at the kept indices, one for one. */
  lemma {:induction false} WindowAtKeptIndices(cal: Calendar, series: seq<Val>, dates: seq<string>, start: int, end: int, mode: Mode)
    requires |dates| <= |series|
    ensures var r := KeptIndices(cal, dates, start, end, mode);
            var w := Window(cal, series, dates, start, end, mode);
            |w| == |r| && forall k :: 0 <= k < |r| ==> 0 <= r[k] < |series| && w[k] == series[r[k]]
    decreases end - start
  {
    if end > start {
      WindowAtKeptIndices(cal, series, dates, start, end - 1, mode);
    }
  }

  function Clamp(x: int, lo: int, hi: int): (r: int)
    requires lo <= hi
    ensures lo <= r <= hi
    ensures lo <= x <= hi ==> r == x
  {
    if x < lo then lo else if x > hi then hi else x
  }

  /** Full mode yields the slice of the series over the window clipped to its bounds. */
  lemma {:induction false} FullWindowIsSlice(cal: Calendar, series: seq<Val>, dates: seq<string>, start: int, end: int)
    requires |dates| <= |series|
    ensures var lo := Clamp(start, 0, |dates|);
            Window(cal, series, dates, start, end, Full) == series[lo..Clamp(end, lo, |dates|)]
    decreases end - start
  {
    var lo := Clamp(start, 0, |dates|);
    var hi := Clamp(end, lo, |dates|);
    if end > start {
      FullWindowIsSlice(cal, series, dates, start, end - 1);
      var hi' := Clamp(end - 1, lo, |dates|);
      if 0 <= end - 1 < |dates| {
        assert hi == hi' + 1;
        assert series[lo..hi] == series[lo..hi'] + [series[end - 1]];
      } else {
        assert hi == hi';
      }
    }
  }

  /** `get_window_data(series, dates, start, end, mode)`: the values at the kept indices, in
      increasing index order (see `WindowAtKeptIndices` and `FullWindowIsSlice`). */
  method GetWindowData(cal: Calendar, series: seq<Val>, dates: seq<string>, start: int, end: int, mode: Mode)
    returns (vals: seq<Val>)
    requires |dates| <= |series|
    ensures vals == Window(cal, series, dates, start, end, mode)
  {
    vals := [];
    var i := start;
    while i < end
      invariant start <= i && (i <= end || i == start)
      invariant vals == Window(cal, series, dates, start, i, mode)
      decreases end - i
    {
      if 0 <= i < |dates| && (mode == Clean ==> !IsHoliday(cal, dates[i])) {
        vals := vals + [series[i]];
      }
      i := i + 1;
    }
  }

  /** The first month of a window that is its year's Chinese New Year month. */
  predicate IsCny(cal: Calendar, d: string)
  {
    match ParseYearMonth(d)
    case None => false
    case Some((y, m)) => y in cal.cnyMonth && m == cal.cnyMonth[y]
  }

  /** Outcome of the scan at eda_toolkit.py:196-200 from index `i` to `end`. */
  datatype Scan = Found(pos: nat) | NotFound | Unparsable(at: nat)

  function CnyScan(cal: Calendar, dates: seq<string>, start: nat, i: nat, end: nat): Scan
    requires start <= i <= end <= |dates|
    decreases end - i
  {
    if i == end then NotFound
    else
      match ParseYearMonth(dates[i])
      case None => Unparsable(i)
      case Some((y, m)) =>
        if y in cal.cnyMonth && m == cal.cnyMonth[y] then Found(i - start)
        else CnyScan(cal, dates, start, i + 1, end)
  }

  /** The scan stops at the first CNY month or the first unparseable date, whichever comes
      first, and reports the end only when neither occurs. */
  lemma {:induction false} CnyScanOutcome(cal: Calendar, dates: seq<string>, start: nat, i: nat, end: nat)
    requires start <= i <= end <= |dates|
    ensures var r := CnyScan(cal, dates, start, i, end);
      && (r.Found? ==> (i <= start + r.pos < end && IsCny(cal, dates[start + r.pos])
            && forall j :: i <= j < start + r.pos ==> ParseYearMonth(dates[j]).Some? && !IsCny(cal, dates[j])))
      && (r.NotFound? ==> forall j :: i <= j < end ==> ParseYearMonth(dates[j]).Some? && !IsCny(cal, dates[j]))
      && (r.Unparsable? ==> (i <= r.at < end && ParseYearMonth(dates[r.at]).None?
            && forall j :: i <= j < r.at ==> ParseYearMonth(dates[j]).Some? && !IsCny(cal, dates[j])))
    decreases end - i
  {
    if i < end {
      CnyScanOutcome(cal, dates, start, i + 1, end);
    }
  }

  /** A year-ago window, or the `ValueError` raised by an unparseable date in the scan
      (eda_toolkit.py:197 is outside any `try`). `Aligned(-1, -1)` means "no window". */
  datatype YoyOutcome = Aligned(start: int, end: int) | ParseError(date: string)

  const NoWindow: YoyOutcome := Aligned(-1, -1)

  /** What `get_aligned_yoy_indices` returns once the scan has found this year's CNY month at
      offset `pos`: the window re-anchored on last year's CNY index, or the standard shift. */
  function Reanchor(cal: Calendar, dates: seq<string>, start: int, end: int, pos: nat): (r: YoyOutcome)
    requires 0 <= start < |dates| && ParseYearMonth(dates[start]).Some?
    ensures r.Aligned?
  {
    var standard := Aligned(start - 12, end - 12);
    var lastY := ParseYearMonth(dates[start]).value.0 - 1;
    if lastY !in cal.cnyMonth then standard
    else
      match IndexOf(dates, YearMonthKey(lastY, cal.cnyMonth[lastY]))
      case None => standard
      case Some(lastIdx) =>
        var altStart := lastIdx - pos;
        if altStart < 0 then standard else Aligned(altStart, altStart + (end - start))
  }

  /** `get_aligned_yoy_indices(dates, start, end)`. */
  function AlignedYoy(cal: Calendar, dates: seq<string>, start: int, end: int): (r: YoyOutcome)
    ensures r == NoWindow <==> start < 0 || end > |dates| || start < 12
    ensures r.Aligned? && r != NoWindow ==> r.start >= 0 && r.end - r.start == end - start
    ensures r.ParseError? ==> exists j :: start <= j < end && dates[j] == r.date && ParseYearMonth(r.date).None?
  {
    if start < 0 || end > |dates| then NoWindow
    else if start - 12 < 0 then NoWindow
    else if end <= start then Aligned(start - 12, end - 12)
    else
      match CnyScan(cal, dates, start, start, end)
      case Unparsable(j) =>
        CnyScanOutcome(cal, dates, start, start, end);
        ParseError(dates[j])
      case NotFound => Aligned(start - 12, end - 12)
      case Found(pos) =>
        CnyScanOutcome(cal, dates, start, start, end);
        assert pos == 0 || start < start + pos;
        Reanchor(cal, dates, start, end, pos)
  }

  /** The standard 12-period shift is used whenever the window holds no CNY month. */
  lemma AlignedYoyWithoutCny(cal: Calendar, dates: seq<string>, start: int, end: int)
    requires 12 <= start && end <= |dates|
    requires forall j :: start <= j < end ==> ParseYearMonth(dates[j]).Some? && !IsCny(cal, dates[j])
    ensures AlignedYoy(cal, dates, start, end) == Aligned(start - 12, end - 12)
  {
    if start < end {
      CnyScanOutcome(cal, dates, start, start, end);
    }
  }

  /** The re-anchoring branch: when the first CNY month of the window sits at offset `pos` and
      last year's CNY key is found at `lastIdx >= pos`, the year-ago window starts `pos` before
      it, so last year's CNY month lands at the same offset. Otherwise the standard shift. */
  lemma {:induction false} AlignedYoyWithCny(cal: Calendar, dates: seq<string>, start: int, end: int, pos: nat)
    requires 12 <= start && start + pos < end <= |dates|
    requires IsCny(cal, dates[start + pos])
    requires forall j :: start <= j < start + pos ==> ParseYearMonth(dates[j]).Some? && !IsCny(cal, dates[j])
    ensures ParseYearMonth(dates[start]).Some?
    ensures AlignedYoy(cal, dates, start, end) == Reanchor(cal, dates, start, end, pos)
    ensures var lastY := ParseYearMonth(dates[start]).value.0 - 1;
            var found := if lastY in cal.cnyMonth then IndexOf(dates, YearMonthKey(lastY, cal.cnyMonth[lastY])) else None;
            AlignedYoy(cal, dates, start, end)
            == if found.Some? && found.value >= pos then Aligned(found.value - pos, found.value - pos + (end - start))
               else Aligned(start - 12, end - 12)
    ensures var lastY := ParseYearMonth(dates[start]).value.0 - 1;
            var r := AlignedYoy(cal, dates, start, end);
            r != Aligned(start - 12, end - 12) ==>
              lastY in cal.cnyMonth && 0 <= r.start && r.start + pos < |dates|
              && dates[r.start + pos] == YearMonthKey(lastY, cal.cnyMonth[lastY])
  {
    CnyScanFinds(cal, dates, start, start, end, pos);
    if pos > 0 {
      assert start <= start < start + pos;
    }
    assert AlignedYoy(cal, dates, start, end) == Reanchor(cal, dates, start, end, pos);
    ReanchorMeaning(cal, dates, start, end, pos);
  }

  /** Re-anchoring keeps the window's length and starts it `pos` before last year's CNY index
      when that key is found at or past `pos`; otherwise the standard shift. */
  lemma ReanchorMeaning(cal: Calendar, dates: seq<string>, start: int, end: int, pos: nat)
    requires 0 <= start < |dates| && ParseYearMonth(dates[start]).Some?
    ensures var lastY := ParseYearMonth(dates[start]).value.0 - 1;
            var found := if lastY in cal.cnyMonth then IndexOf(dates, YearMonthKey(lastY, cal.cnyMonth[lastY])) else None;
            Reanchor(cal, dates, start, end, pos)
            == if found.Some? && found.value >= pos then Aligned(found.value - pos, found.value - pos + (end - start))
               else Aligned(start - 12, end - 12)
  {
  }

  lemma {:induction false} CnyScanFinds(cal: Calendar, dates: seq<string>, start: nat, i: nat, end: nat, pos: nat)
    requires start <= i <= start + pos < end <= |dates|
    requires IsCny(cal, dates[start + pos])
    requires forall j :: i <= j < start + pos ==> ParseYearMonth(dates[j]).Some? && !IsCny(cal, dates[j])
    ensures CnyScan(cal, dates, start, i, end) == Found(pos)
    decreases end - i
  {
    if i < start + pos {
      CnyScanFinds(cal, dates, start, i + 1, end, pos);
    }
  }

  /** How the scan's outcome decides the result once the bounds checks have passed. */
  lemma AlignedYoyScanned(cal: Calendar, dates: seq<string>, start: int, end: int)
    requires 12 <= start < end <= |dates|
    ensures var s := CnyScan(cal, dates, start, start, end);
      && (s.NotFound? ==> AlignedYoy(cal, dates, start, end) == Aligned(start - 12, end - 12))
      && (s.Unparsable? ==> s.at < |dates| && AlignedYoy(cal, dates, start, end) == ParseError(dates[s.at]))
      && (s.Found? ==>
            (ParseYearMonth(dates[start]).Some?
             && AlignedYoy(cal, dates, start, end) == Reanchor(cal, dates, start, end, s.pos)))
  {
    var s := CnyScan(cal, dates, start, start, end);
    CnyScanOutcome(cal, dates, start, start, end);
    if s.Found? {
      assert s.pos == 0 || start < start + s.pos;
    }
  }

  /** `get_aligned_yoy_indices`, with its early-`break` loop. */
  method GetAlignedYoyIndices(cal: Calendar, dates: seq<string>, start: int, end: int) returns (r: YoyOutcome)
    ensures r == AlignedYoy(cal, dates, start, end)
  {
    if start < 0 || end > |dates| {
      return NoWindow;
    }
    var standardStart, standardEnd := start - 12, end - 12;
    if standardStart < 0 {
      return NoWindow;
    }
    if end <= start {
      return Aligned(standardStart, standardEnd);
    }
    AlignedYoyScanned(cal, dates, start, end);
    var hasCny, cnyPos := false, 0;
    var i := start;
    while i < end
      invariant start <= i <= end
      invariant CnyScan(cal, dates, start, start, end) == CnyScan(cal, dates, start, i, end)
      decreases end - i
    {
      var ym := ParseYearMonth(dates[i]);
      if ym.None? {
        return ParseError(dates[i]);
      }
      if ym.value.0 in cal.cnyMonth && ym.value.1 == cal.cnyMonth[ym.value.0] {
        hasCny, cnyPos := true, i - start;
        break;
      }
      i := i + 1;
    }
    if !hasCny {
      return Aligned(standardStart, standardEnd);
    }
    return Reanchor(cal, dates, start, end, cnyPos);
  }
}
