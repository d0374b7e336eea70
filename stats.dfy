/** The order statistics `detect_outliers` takes from NumPy: `np.median` and
    `np.percentile` with its default linear interpolation, on the non-NaN values of a year. */
module Statistics {
  import opened Sorting
  import opened Values

  predicate RealLe(a: real, b: real)
  {
    a <= b
  }

  lemma RealLeIsTotalPreorder()
    ensures TotalPreorder(RealLe)
  {
  }

  /** The values in ascending order, as both NumPy functions sort before they select. */
  function Ascending(c: seq<real>): (s: seq<real>)
    ensures |s| == |c|
    ensures multiset(s) == multiset(c)
    ensures Ascends(s)
  {
    RealLeIsTotalPreorder();
    var s := SortBy(c, RealLe);
    assert SortedBy(s, RealLe);
    s
  }

  /** `np.median`: the middle value, or the mean of the two middle values for an even count. */
  function Median(c: seq<real>): real
    requires |c| > 0
  {
    var s := Ascending(c);
    var h := |s| / 2;
    if |s| % 2 == 1 then s[h] else (s[h - 1] + s[h]) / 2.0
  }

  /** `p * (n - 1)` never passes `100 * (n - 1)` for a percentage `p`. */
  lemma ScaledRank(p: nat, q: nat, m: nat)
    requires p <= q
    ensures p * m <= q * m
  {
    var d := q - p;
    assert q * m == p * m + d * m;
  }

  predicate Ascends(s: seq<real>)
  {
    forall i, j :: 0 <= i < j < |s| ==> s[i] <= s[j]
  }

  /** The value at rank `k / 100` of the ascending values `s`: the order statistic at the whole
      part of the rank, moved towards the next one by the fractional part. */
  function Interpolate(s: seq<real>, k: nat): real
    requires 0 < |s| && k <= 100 * (|s| - 1)
  {
    var lo := k / 100;
    var rem := k % 100;
    if rem == 0 then s[lo]
    else s[lo] + (rem as real / 100.0) * (s[lo + 1] - s[lo])
  }

  /** `np.percentile(c, p)` with linear interpolation: the rank `p * (n - 1) / 100` of the
      ascending values. */
  function Percentile(c: seq<real>, p: nat): real
    requires |c| > 0 && p <= 100
  {
    var s := Ascending(c);
    ScaledRank(p, 100, |s| - 1);
    Interpolate(s, p * (|s| - 1))
  }

  /** `u * d` grows with `u` for a non-negative `d`. */
  lemma ScaleMonotone(u: real, v: real, d: real)
    requires u <= v && d >= 0.0
    ensures u * d <= v * d
  {
    if u < v && d > 0.0 {
      ProductOfPositives(v - u, d, (v - u) * d);
    }
  }

  /** An interpolated value lies between the two order statistics it interpolates. */
  lemma InterpolationWithin(a: real, b: real, f: real)
    requires a <= b && 0.0 <= f <= 1.0
    ensures a <= a + f * (b - a) <= b
  {
    ScaleMonotone(0.0, f, b - a);
    ScaleMonotone(f, 1.0, b - a);
  }

  lemma InterpolateBetween(s: seq<real>, k: nat)
    requires 0 < |s| && k <= 100 * (|s| - 1) && Ascends(s)
    ensures s[k / 100] <= Interpolate(s, k)
    ensures k % 100 != 0 ==> k / 100 + 1 < |s| && Interpolate(s, k) <= s[k / 100 + 1]
  {
    var lo := k / 100;
    if k % 100 != 0 {
      InterpolationWithin(s[lo], s[lo + 1], (k % 100) as real / 100.0);
    }
  }

  lemma InterpolateSameCell(s: seq<real>, k1: nat, k2: nat)
    requires 0 < |s| && k1 <= k2 <= 100 * (|s| - 1) && Ascends(s) && k1 / 100 == k2 / 100
    ensures Interpolate(s, k1) <= Interpolate(s, k2)
  {
    var lo := k1 / 100;
    if k1 % 100 != 0 {
      assert lo + 1 < |s|;
      ScaleMonotone((k1 % 100) as real / 100.0, (k2 % 100) as real / 100.0, s[lo + 1] - s[lo]);
    } else {
      InterpolateBetween(s, k2);
    }
  }

  /** A higher rank never gives a lower value. */
  lemma InterpolateMonotone(s: seq<real>, k1: nat, k2: nat)
    requires 0 < |s| && k1 <= k2 <= 100 * (|s| - 1) && Ascends(s)
    ensures Interpolate(s, k1) <= Interpolate(s, k2)
  {
    if k1 / 100 == k2 / 100 {
      InterpolateSameCell(s, k1, k2);
    } else {
      InterpolateBetween(s, k1);
      InterpolateBetween(s, k2);
      if k1 % 100 != 0 {
        assert s[k1 / 100 + 1] <= s[k2 / 100];
      } else {
        assert s[k1 / 100] <= s[k2 / 100];
      }
    }
  }

  /** Higher percentages give higher (or equal) percentiles. */
  lemma PercentileMonotone(c: seq<real>, p: nat, q: nat)
    requires |c| > 0 && p <= q <= 100
    ensures Percentile(c, p) <= Percentile(c, q)
  {
    var s := Ascending(c);
    var m := |s| - 1;
    ScaledRank(p, q, m);
    ScaledRank(q, 100, m);
    InterpolateMonotone(s, p * m, q * m);
  }

  /** The 0th and 100th percentiles are the minimum and the maximum. */
  lemma PercentileExtremes(c: seq<real>)
    requires |c| > 0
    ensures Percentile(c, 0) == Ascending(c)[0]
    ensures Percentile(c, 100) == Ascending(c)[|c| - 1]
  {
  }

  /** The median is the 50th percentile. */
  lemma MedianIsPercentile50(c: seq<real>)
    requires |c| > 0
    ensures Median(c) == Percentile(c, 50)
  {
    var n := |c|;
    var h := n / 2;
    if n % 2 == 1 {
      assert 50 * (n - 1) == 100 * h;
    } else {
      assert 50 * (n - 1) == 100 * (h - 1) + 50;
    }
  }

  /** Every percentile, the median included, lies between the smallest and largest value. */
  lemma PercentileBounds(c: seq<real>, p: nat, lo: real, hi: real)
    requires |c| > 0 && p <= 100
    requires forall i :: 0 <= i < |c| ==> lo <= c[i] <= hi
    ensures lo <= Percentile(c, p) <= hi
  {
    var s := Ascending(c);
    PercentileExtremes(c);
    PercentileMonotone(c, 0, p);
    PercentileMonotone(c, p, 100);
    assert s[0] in multiset(c) && s[|s| - 1] in multiset(c);
  }

  /** A lower bound of the values is a lower bound of every percentile. */
  lemma PercentileAtLeast(c: seq<real>, p: nat, lo: real)
    requires |c| > 0 && p <= 100
    requires forall i :: 0 <= i < |c| ==> lo <= c[i]
    ensures lo <= Percentile(c, p)
  {
    var s := Ascending(c);
    PercentileExtremes(c);
    PercentileMonotone(c, 0, p);
    assert s[0] in multiset(c);
  }

  /** The first quartile, median and third quartile come in that order. */
  lemma QuartilesOrdered(c: seq<real>)
    requires |c| > 0
    ensures Percentile(c, 25) <= Median(c) <= Percentile(c, 75)
  {
    MedianIsPercentile50(c);
    PercentileMonotone(c, 25, 50);
    PercentileMonotone(c, 50, 75);
  }
}
