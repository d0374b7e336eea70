/** `DataScouter` (eda_toolkit.py): finding the entity (store) rows of a sheet by keyword
    filtering of its first column, and the metric rows between one entity and the next. */
module Scouter {
  import opened Wrappers
  import opened Text

  /** A cell of the sheet: text, a number, or a missing value (`NaN`/`None`). */
  datatype Cell = Str(s: string) | Num(x: real) | Missing

  /** The `exclude_keywords` `scan_entities` uses when none are given. */
  const DefaultExclusions: seq<string> := ["客流", "时长", "转化率", "买家数", "渗透率", "曝光率", "nan", "占比"]

  /** The keywords that tell a metric label from the name of the next entity. */
  const Blacklist: seq<string> :=
    ["客流", "时长", "转化率", "买家数", "渗透率", "曝光率", "nan", "占比", "人数", "男性", "女性", "新客", "老客", "未知"]

  /** `any(k in s for k in ks)`. */
  predicate ContainsAny(s: string, ks: seq<string>)
  {
    exists j :: 0 <= j < |ks| && Contains(s, ks[j])
  }

  // ---------------------------------------------------------------------------------------
  // `scan_entities`

  /** `exclude_keywords`, with `None` standing for the default list (an empty list stays
      empty). */
  function Exclusions(excludeKeywords: Option<seq<string>>): seq<string>
  {
    match excludeKeywords
    case None => DefaultExclusions
    case Some(ks) => ks
  }

  /** Row `idx` names an entity: its name cell is a text of more than one character with no
      excluded keyword, and the traffic cell three rows below (column 13) is present. */
  predicate Qualifies(names: seq<Cell>, traffic: seq<Cell>, exclude: seq<string>, idx: int)
    requires |names| == |traffic| && 0 <= idx < |names|
  {
    && names[idx].Str? && |names[idx].s| > 1 && !ContainsAny(names[idx].s, exclude)
    && idx + 3 < |traffic| && !traffic[idx + 3].Missing?
  }

  /** The `entities` dictionary after the first `hi` rows: a later row with the same name
      overwrites the earlier one. */
  function Entities(names: seq<Cell>, traffic: seq<Cell>, exclude: seq<string>, hi: int): map<string, nat>
    requires |names| == |traffic| && hi <= |names|
    decreases hi
  {
    if hi <= 0 then map[]
    else
      var m := Entities(names, traffic, exclude, hi - 1);
      if Qualifies(names, traffic, exclude, hi - 1) then m[names[hi - 1].s := hi - 1] else m
  }

  /** The entities are the names of the qualifying rows, each mapped to the last row that
      carries it. */
  lemma {:induction false} EntitiesMeaning(names: seq<Cell>, traffic: seq<Cell>, exclude: seq<string>, hi: int, e: string)
    requires |names| == |traffic| && hi <= |names|
    ensures e in Entities(names, traffic, exclude, hi) <==>
      exists idx :: 0 <= idx < hi && Qualifies(names, traffic, exclude, idx) && names[idx].s == e
    ensures e in Entities(names, traffic, exclude, hi) ==>
      var idx: int := Entities(names, traffic, exclude, hi)[e];
      && idx < hi && Qualifies(names, traffic, exclude, idx) && names[idx].s == e
      && forall j :: idx < j < hi && Qualifies(names, traffic, exclude, j) ==> names[j].s != e
    decreases hi
  {
    if hi > 0 {
      EntitiesMeaning(names, traffic, exclude, hi - 1, e);
    }
  }

  /** `scan_entities(df, name_col_idx, exclude_keywords)`, with `names` the column
      `name_col_idx` and `traffic` column 13 of the sheet. */
  method ScanEntities(names: seq<Cell>, traffic: seq<Cell>, excludeKeywords: Option<seq<string>>)
    returns (entities: map<string, nat>)
    requires |names| == |traffic|
    ensures entities == Entities(names, traffic, Exclusions(excludeKeywords), |names|)
  {
    var exclude := Exclusions(excludeKeywords);
    entities := map[];
    for idx := 0 to |names|
      invariant entities == Entities(names, traffic, exclude, idx)
    {
      var val := names[idx];
      if val.Str? && |val.s| > 1 {
        if ContainsAny(val.s, exclude) {
          continue;
        }
        var trafficRow := idx + 3;
        if trafficRow < |names| && !traffic[trafficRow].Missing? {
          entities := entities[val.s := idx];
        }
      }
    }
  }

  // ---------------------------------------------------------------------------------------
  // `get_metrics_map`

  /** The keys of the metrics dictionary: `Traffic`, `Dwell`, `Duration`, `Conversion`,
      `POS_Buyers`, `New_Buyers`, `Repeat_Buyers`. */
  datatype Metric = Traffic | Dwell | Duration | Conversion | PosBuyers | NewBuyers | RepeatBuyers

  /** The `elif` chain on a label; the more specific `停留时长` is tried before `时长`. */
  function Classify(text: string): Option<Metric>
  {
    if Contains(text, "客流") then Some(Traffic)
    else if Contains(text, "停留时长") then Some(Dwell)
    else if Contains(text, "时长") then Some(Duration)
    else if Contains(text, "转化") then Some(Conversion)
    else if Contains(text, "POS") || Contains(text, "买家") then Some(PosBuyers)
    else if Contains(text, "新客") then Some(NewBuyers)
    else if Contains(text, "老客") then Some(RepeatBuyers)
    else None
  }

  /** A label that looks like the name of the next entity. */
  predicate StartsEntity(text: string)
  {
    |text| > 1 && !ContainsAny(text, Blacklist)
  }

  /** `next_entity_row`: the first row from `from` on whose label starts an entity, or the
      number of rows. */
  function NextEntityRow(labels: seq<string>, from: nat): (r: nat)
    ensures r <= |labels|
    decreases |labels| - from
  {
    if from >= |labels| then |labels|
    else if StartsEntity(labels[from]) then from
    else NextEntityRow(labels, from + 1)
  }

  lemma {:induction false} NextEntityRowMeaning(labels: seq<string>, from: nat)
    ensures var r := NextEntityRow(labels, from);
      && (r == |labels| || (from <= r < |labels| && StartsEntity(labels[r])))
      && forall j :: from <= j < r ==> !StartsEntity(labels[j])
    decreases |labels| - from
  {
    if from < |labels| && !StartsEntity(labels[from]) {
      NextEntityRowMeaning(labels, from + 1);
    }
  }

  /** The verdict of the `elif` chain on every row. */
  function Kinds(labels: seq<string>): (ks: seq<Option<Metric>>)
    ensures |ks| == |labels|
  {
    seq(|labels|, i requires 0 <= i < |labels| => Classify(labels[i]))
  }

  /** The metrics dictionary after the rows `[lo, hi)`, of verdicts `kinds`: the last row of
      each metric. */
  function MetricRows(kinds: seq<Option<Metric>>, lo: nat, hi: int): map<Metric, nat>
    requires hi <= |kinds|
    decreases hi - lo
  {
    if hi <= lo then map[]
    else
      var m := MetricRows(kinds, lo, hi - 1);
      match kinds[hi - 1]
      case None => m
      case Some(k) => m[k := hi - 1]
  }

  lemma {:induction false} MetricRowsMeaning(kinds: seq<Option<Metric>>, lo: nat, hi: int, k: Metric)
    requires hi <= |kinds|
    ensures k in MetricRows(kinds, lo, hi) <==> exists r :: lo <= r < hi && kinds[r] == Some(k)
    ensures k in MetricRows(kinds, lo, hi) ==>
      var r: int := MetricRows(kinds, lo, hi)[k];
      && lo <= r < hi && kinds[r] == Some(k)
      && forall j :: r < j < hi ==> kinds[j] != Some(k)
    decreases hi - lo
  {
    if lo < hi {
      MetricRowsMeaning(kinds, lo, hi - 1, k);
    }
  }

  /** `get_metrics_map(df, name_row_idx)`, with `labels` the `str(...).strip()` text of
      column 0. */
  function MetricsMap(labels: seq<string>, nameRowIdx: nat): map<Metric, nat>
  {
    var next := NextEntityRow(labels, nameRowIdx + 1);
    MetricRows(Kinds(labels), nameRowIdx + 1, next)
  }

  /** What `get_metrics_map` finds: each metric at the last row below the entity, and above
      the next one, whose verdict is that metric; every such row has a label that cannot
      start an entity, and every row between the entity and the next is of that kind. */
  lemma MetricsMapMeaning(labels: seq<string>, nameRowIdx: nat, k: Metric)
    ensures var next := NextEntityRow(labels, nameRowIdx + 1);
      && (next == |labels| || (nameRowIdx < next < |labels| && StartsEntity(labels[next])))
      && (forall j :: nameRowIdx < j < next ==> !StartsEntity(labels[j]))
      && (k in MetricsMap(labels, nameRowIdx) <==>
            exists r :: nameRowIdx < r < next && Kinds(labels)[r] == Some(k))
      && (k in MetricsMap(labels, nameRowIdx) ==>
            var r: int := MetricsMap(labels, nameRowIdx)[k];
            && nameRowIdx < r < next && Kinds(labels)[r] == Some(k) && !StartsEntity(labels[r])
            && forall j :: r < j < next ==> Kinds(labels)[j] != Some(k))
  {
    var next := NextEntityRow(labels, nameRowIdx + 1);
    NextEntityRowMeaning(labels, nameRowIdx + 1);
    MetricRowsMeaning(Kinds(labels), nameRowIdx + 1, next, k);
  }

  /** A text does not contain a keyword whose first character it lacks. */
  lemma AbsentFirstChar(s: string, k: string)
    requires |k| > 0 && k[0] !in s
    ensures !Contains(s, k)
  {
    forall i | 0 <= i <= |s| ensures !(k <= s[i..]) {
      if i < |s| {
        assert s[i..][0] == s[i] && s[i] in s;
      }
    }
  }

  /** A bare `POS` label is not blacklisted, so it is taken for the next entity and ends the
      block before the `elif` chain could read it as `POS_Buyers`. */
  lemma PlainPosLabelEndsBlock()
    ensures Classify("POS") == Some(PosBuyers)
    ensures NextEntityRow(["StoreA", "POS"], 1) == 1
    ensures MetricsMap(["StoreA", "POS"], 0) == map[]
  {
    var pos := "POS";
    assert pos[0..] == pos;
    AbsentFirstChar(pos, "客流");
    AbsentFirstChar(pos, "停留时长");
    AbsentFirstChar(pos, "时长");
    AbsentFirstChar(pos, "转化");
    assert StartsEntity(pos) by {
      forall j | 0 <= j < |Blacklist| ensures !Contains(pos, Blacklist[j]) {
        assert |Blacklist[j]| > 0 && Blacklist[j][0] !in pos by {
          assert j == 0 || j == 1 || j == 2 || j == 3 || j == 4 || j == 5 || j == 6
              || j == 7 || j == 8 || j == 9 || j == 10 || j == 11 || j == 12 || j == 13;
        }
        AbsentFirstChar(pos, Blacklist[j]);
      }
    }
  }

  /** The two loops of `get_metrics_map`: the search for the next entity, with its `break`,
      then the `elif` chain over the rows in between, a later row overwriting an earlier one. */
  method GetMetricsMap(labels: seq<string>, nameRowIdx: nat) returns (metrics: map<Metric, nat>)
    ensures metrics == MetricsMap(labels, nameRowIdx)
  {
    metrics := map[];
    var nextEntityRow := |labels|;
    var r := nameRowIdx + 1;
    while r < |labels|
      invariant nameRowIdx + 1 <= r
      invariant NextEntityRow(labels, r) == NextEntityRow(labels, nameRowIdx + 1)
      decreases |labels| - r
    {
      var val := labels[r];
      if |val| > 1 && !ContainsAny(val, Blacklist) {
        nextEntityRow := r;
        break;
      }
      r := r + 1;
    }
    assert nextEntityRow == NextEntityRow(labels, nameRowIdx + 1);
    if nameRowIdx + 1 < nextEntityRow {
      for r := nameRowIdx + 1 to nextEntityRow
        invariant metrics == MetricRows(Kinds(labels), nameRowIdx + 1, r)
      {
        var kind := ClassifyLabel(labels[r]);
        if kind.Some? {
          metrics := metrics[kind.value := r];
        }
      }
    }
  }

  /** The `elif` chain of the second loop: which metric, if any, the label names. */
  method ClassifyLabel(text: string) returns (kind: Option<Metric>)
    ensures kind == Classify(text)
  {
    if Contains(text, "客流") { kind := Some(Traffic); }
    else if Contains(text, "停留时长") { kind := Some(Dwell); }
    else if Contains(text, "时长") { kind := Some(Duration); }
    else if Contains(text, "转化") { kind := Some(Conversion); }
    else if Contains(text, "POS") || Contains(text, "买家") { kind := Some(PosBuyers); }
    else if Contains(text, "新客") { kind := Some(NewBuyers); }
    else if Contains(text, "老客") { kind := Some(RepeatBuyers); }
    else { kind := None; }
  }
}
