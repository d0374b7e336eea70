/** `assign_period` (pipeline.py): the part of the day an order hour falls in. */
module Periods {
  import opened Text

  datatype Period = Morning | Noon | Afternoon | Evening | LateNight

  /** The label the pipeline stores; the digit prefix makes the labels sort in the order of
      the day. */
  function Label(p: Period): string
  {
    match p
    case Morning => "1_Morning"
    case Noon => "2_Noon"
    case Afternoon => "3_Afternoon"
    case Evening => "4_Evening"
    case LateNight => "5_LateNight"
  }

  /** `assign_period(h)`. */
  function AssignPeriod(h: int): Period
  {
    if 6 <= h < 11 then Morning
    else if 11 <= h < 14 then Noon
    else if 14 <= h < 17 then Afternoon
    else if 17 <= h < 22 then Evening
    else LateNight
  }

  /** The first hour of each daytime period; `LateNight` takes everything outside 6 to 21. */
  function FirstHour(p: Period): int
  {
    match p
    case Morning => 6
    case Noon => 11
    case Afternoon => 14
    case Evening => 17
    case LateNight => 22
  }

  /** The period after a daytime period. */
  function Following(p: Period): Period
  {
    match p
    case Morning => Noon
    case Noon => Afternoon
    case Afternoon => Evening
    case Evening => LateNight
    case LateNight => LateNight
  }

  /** Each daytime period is the run of hours from its first hour up to the first hour of the
      period after it, and every other integer, including the night hours 22, 23 and 0 to 5
      and any hour out of range, is `LateNight`. */
  lemma AssignPeriodRanges(h: int, p: Period)
    ensures p != LateNight ==> (AssignPeriod(h) == p <==> FirstHour(p) <= h < FirstHour(Following(p)))
    ensures AssignPeriod(h) == LateNight <==> h < 6 || h >= 22
  {
  }

  /** The labels are distinct, and across the day from 06:00 to 21:59 they never decrease in
      string order, so sorting by label sorts by time of day. `calc_overview` groups by
      `period` (temporal_strategy.py:22), and `groupby` sorts its keys: this is why its period
      distribution comes out in time-of-day order. */
  lemma LabelsFollowTheDay(h1: int, h2: int)
    requires 6 <= h1 <= h2 < 22
    ensures LexLe(Label(AssignPeriod(h1)), Label(AssignPeriod(h2)))
    ensures AssignPeriod(h1) != AssignPeriod(h2) ==> Label(AssignPeriod(h1)) != Label(AssignPeriod(h2))
  {
    var a, b := Label(AssignPeriod(h1)), Label(AssignPeriod(h2));
    assert a[0] <= b[0];
    if a[0] == b[0] {
      assert a == b;
      LexLeReflexive(a);
    }
  }
}
