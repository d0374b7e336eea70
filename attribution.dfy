/** `AttributionAnalyzer.calculate_absolute_shift` (eda_toolkit.py): the per-category change
    between two count tables, largest increase first. */
module Attribution {
  import opened Sorting

  /** A count table as the dictionary's `(category, count)` items in insertion order. */
  type Counts = seq<(string, int)>

  /** One row of the returned frame: `Category`, `Pre_Count`, `Post_Count`, `Abs_Change`. */
  datatype ShiftRow = ShiftRow(category: string, preCount: int, postCount: int, absChange: int)

  function Keys(counts: Counts): (ks: seq<string>)
    ensures |ks| == |counts|
  {
    seq(|counts|, i requires 0 <= i < |counts| => counts[i].0)
  }

  /** `counts.get(c, 0)`. */
  function Get(counts: Counts, c: string): int
  {
    if |counts| == 0 then 0
    else if counts[0].0 == c then counts[0].1
    else Get(counts[1..], c)
  }

  lemma {:induction false} GetMeaning(counts: Counts, c: string)
    ensures c !in Keys(counts) ==> Get(counts, c) == 0
    ensures c in Keys(counts) ==>
      exists i :: 0 <= i < |counts| && counts[i] == (c, Get(counts, c)) && c !in Keys(counts)[..i]
  {
    if |counts| > 0 {
      GetMeaning(counts[1..], c);
      assert Keys(counts) == [counts[0].0] + Keys(counts[1..]);
      if c in Keys(counts) && counts[0].0 != c {
        var i :| 0 <= i < |counts[1..]| && counts[1..][i] == (c, Get(counts[1..], c)) && c !in Keys(counts[1..])[..i];
        assert Keys(counts)[..i + 1] == [counts[0].0] + Keys(counts[1..])[..i];
        assert counts[i + 1] == (c, Get(counts, c));
      }
      if c in Keys(counts) && counts[0].0 == c {
        assert counts[0] == (c, Get(counts, c));
        assert Keys(counts)[..0] == [];
      }
    }
  }

  /** `set(pre_counts.keys()) | set(post_counts.keys())`, listed in first-seen order. */
  function Categories(pre: Counts, post: Counts): seq<string>
  {
    Dedup(Keys(pre) + Keys(post))
  }

  function RowOf(pre: Counts, post: Counts, c: string): ShiftRow
  {
    ShiftRow(c, Get(pre, c), Get(post, c), Get(post, c) - Get(pre, c))
  }

  /** `sort_values('Abs_Change', ascending=False)`: larger changes first. */
  predicate ByChangeDescending(a: ShiftRow, b: ShiftRow)
  {
    a.absChange >= b.absChange
  }

  lemma ByChangeDescendingIsTotalPreorder()
    ensures TotalPreorder(ByChangeDescending)
  {
  }

  function Rows(pre: Counts, post: Counts): (rs: seq<ShiftRow>)
    ensures |rs| == |Categories(pre, post)|
  {
    var cats := Categories(pre, post);
    seq(|cats|, k requires 0 <= k < |cats| => RowOf(pre, post, cats[k]))
  }

  /** `calculate_absolute_shift(pre_counts, post_counts)`; the empty frame is `[]`. */
  function AbsoluteShift(pre: Counts, post: Counts): seq<ShiftRow>
  {
    if |pre| == 0 || |post| == 0 then []
    else
      ByChangeDescendingIsTotalPreorder();
      SortBy(Rows(pre, post), ByChangeDescending)
  }

  /** The rows are one per category of either table, each holding both counts (0 where a
      table lacks the category) and their difference. */
  lemma RowsMeaning(pre: Counts, post: Counts, r: ShiftRow)
    ensures r in Rows(pre, post) <==>
      (r.category in Keys(pre) || r.category in Keys(post)) && r == RowOf(pre, post, r.category)
    ensures multiset(Rows(pre, post))[r] <= 1
  {
    var cats := Categories(pre, post);
    var rs := Rows(pre, post);
    if r.category in Keys(pre) || r.category in Keys(post) {
      assert r.category in Keys(pre) + Keys(post);
      if r == RowOf(pre, post, r.category) {
        var k :| 0 <= k < |cats| && cats[k] == r.category;
        assert rs[k] == r;
      }
    }
    if r in rs {
      var k :| 0 <= k < |rs| && rs[k] == r;
      assert cats[k] in Keys(pre) + Keys(post);
    }
    assert forall i, j :: 0 <= i < j < |rs| ==> rs[i] != rs[j] by {
      forall i, j | 0 <= i < j < |rs| ensures rs[i] != rs[j] {
        assert rs[i].category == cats[i] && rs[j].category == cats[j];
      }
    }
    DistinctCount(rs, r);
  }

  /** In a sequence of distinct elements each element occurs at most once. */
  lemma {:induction false} DistinctCount<T>(s: seq<T>, x: T)
    requires forall i, j :: 0 <= i < j < |s| ==> s[i] != s[j]
    ensures multiset(s)[x] <= 1
  {
    if |s| > 0 {
      var rest := s[1..];
      assert s == [s[0]] + rest;
      DistinctCount(rest, x);
      if s[0] == x {
        assert x !in rest by {
          forall k | 0 <= k < |rest| ensures rest[k] != x {
            assert rest[k] == s[k + 1];
          }
        }
      }
    }
  }

  /** What `calculate_absolute_shift` returns: nothing when either table is empty; otherwise
      exactly one row per category of either table, with both counts (0 where missing) and
      `Abs_Change = post - pre`, in non-increasing change. */
  lemma AbsoluteShiftMeaning(pre: Counts, post: Counts, r: ShiftRow)
    ensures AbsoluteShift(pre, post) == [] <==> |pre| == 0 || |post| == 0
    ensures forall i, j :: 0 <= i < j < |AbsoluteShift(pre, post)| ==>
      AbsoluteShift(pre, post)[i].absChange >= AbsoluteShift(pre, post)[j].absChange
    ensures |pre| > 0 && |post| > 0 ==>
      multiset(AbsoluteShift(pre, post))[r] ==
        if (r.category in Keys(pre) || r.category in Keys(post)) && r == RowOf(pre, post, r.category) then 1 else 0
  {
    if |pre| > 0 && |post| > 0 {
      var rs := Rows(pre, post);
      assert pre[0].0 in Keys(pre) + Keys(post) by {
        assert Keys(pre)[0] == pre[0].0;
      }
      assert |rs| > 0;
      RowsMeaning(pre, post, r);
      assert r in rs <==> multiset(rs)[r] > 0;
    }
  }

  /** A category in only one of the tables changes by its whole count. */
  lemma OneSidedChange(pre: Counts, post: Counts, c: string)
    ensures c !in Keys(pre) ==> RowOf(pre, post, c).absChange == Get(post, c)
    ensures c !in Keys(post) ==> RowOf(pre, post, c).absChange == -Get(pre, c)
  {
    GetMeaning(pre, c);
    GetMeaning(post, c);
  }
}
