/** `TrendTools.calculate_slope`: the ordinary-least-squares slope of a series against its
    index, fitted on the non-NaN points only. The points keep their original positions as
    x-values, so a gap in the series is a gap on the x-axis. */
module Trend {
  import opened Wrappers
  import opened Values

  /** The non-NaN points of `y` as (position, value), positions counted from `off`. */
  function Points(y: seq<Val>, off: int): seq<(int, real)>
  {
    if |y| == 0 then []
    else (if y[0].Num? then [(off, y[0].x)] else []) + Points(y[1..], off + 1)
  }

  lemma {:induction false} PointsCount(y: seq<Val>, off: int)
    ensures |Points(y, off)| == |Clean(y)|
  {
    if |y| > 0 {
      PointsCount(y[1..], off + 1);
    }
  }

  /** Each point sits at its own position and carries the value found there. */
  lemma {:induction false} PointsAt(y: seq<Val>, off: int)
    ensures forall k :: 0 <= k < |Points(y, off)| ==>
              off <= Points(y, off)[k].0 < off + |y| &&
              y[Points(y, off)[k].0 - off] == Num(Points(y, off)[k].1)
  {
    if |y| > 0 {
      PointsAt(y[1..], off + 1);
      var rest := Points(y[1..], off + 1);
      var ps := Points(y, off);
      forall k | 0 <= k < |ps| ensures off <= ps[k].0 < off + |y| && y[ps[k].0 - off] == Num(ps[k].1) {
        if y[0].Num? && k == 0 {
        } else {
          var j := if y[0].Num? then k - 1 else k;
          assert ps[k] == rest[j];
          assert y[ps[k].0 - off] == y[1..][rest[j].0 - (off + 1)];
        }
      }
    }
  }

  /** Points come in strictly increasing position order. */
  lemma {:induction false} PointsIncreasing(y: seq<Val>, off: int)
    ensures forall k :: 0 <= k < |Points(y, off)| - 1 ==> Points(y, off)[k].0 < Points(y, off)[k + 1].0
  {
    if |y| > 0 {
      PointsIncreasing(y[1..], off + 1);
      PointsAt(y[1..], off + 1);
      var rest := Points(y[1..], off + 1);
      if y[0].Num? {
        var ps := Points(y, off);
        forall k | 0 <= k < |ps| - 1 ensures ps[k].0 < ps[k + 1].0 {
          assert ps[k + 1] == rest[k];
          if k > 0 {
            assert ps[k] == rest[k - 1];
          }
        }
      }
    }
  }

  /** Every non-NaN entry gives a point. */
  lemma {:induction false} PointsComplete(y: seq<Val>, off: int, i: int)
    requires 0 <= i < |y| && y[i].Num?
    ensures (off + i, y[i].x) in Points(y, off)
  {
    if i > 0 {
      assert y[i] == y[1..][i - 1];
      PointsComplete(y[1..], off + 1, i - 1);
    }
  }

  /** The x-values (positions) and y-values of the points. */
  function Xs(ps: seq<(int, real)>): seq<real>
  {
    seq(|ps|, k requires 0 <= k < |ps| => ps[k].0 as real)
  }

  function Ys(ps: seq<(int, real)>): seq<real>
  {
    seq(|ps|, k requires 0 <= k < |ps| => ps[k].1)
  }

  /** The squared x-deviations from `mx`, one per point. */
  function SqTerms(ps: seq<(int, real)>, mx: real): seq<real>
  {
    seq(|ps|, k requires 0 <= k < |ps| => ((ps[k].0 as real) - mx) * ((ps[k].0 as real) - mx))
  }

  /** The products of x- and y-deviations from `(mx, my)`, one per point. */
  function CrossTerms(ps: seq<(int, real)>, mx: real, my: real): seq<real>
  {
    seq(|ps|, k requires 0 <= k < |ps| => ((ps[k].0 as real) - mx) * (ps[k].1 - my))
  }

  /** `calculate_slope(y)`: `None` for fewer than two entries or fewer than two non-NaN
      entries; otherwise the least-squares slope of the non-NaN points at their original
      positions. */
  function Slope(y: seq<Val>): (r: Option<real>)
    ensures r.None? <==> |y| < 2 || |Clean(y)| < 2
  {
    PointsCount(y, 0);
    if |y| < 2 then None
    else
      var ps := Points(y, 0);
      if |ps| < 2 then None
      else
        PointsIncreasing(y, 0);
        Some(Fit(ps))
  }

  /** The ordinary-least-squares slope of points whose first two positions differ: the
      summed products of x- and y-deviations from the means over the summed squared
      x-deviations. */
  function Fit(ps: seq<(int, real)>): real
    requires |ps| >= 2 && ps[0].0 != ps[1].0
  {
    var n := |ps| as real;
    var mx := Sum(Xs(ps)) / n;
    var my := Sum(Ys(ps)) / n;
    SxxPositive(ps, mx);
    Sum(CrossTerms(ps, mx, my)) / Sum(SqTerms(ps, mx))
  }

  /** A sum of non-negative terms is positive as soon as one term is. */
  lemma {:induction false} SumPositive(s: seq<real>, j: nat)
    requires forall k :: 0 <= k < |s| ==> s[k] >= 0.0
    requires j < |s| && s[j] > 0.0
    ensures Sum(s) > 0.0
  {
    if j == 0 {
      SumNonNegative(s[1..]);
    } else {
      SumPositive(s[1..], j - 1);
    }
  }

  lemma {:induction false} SumNonNegative(s: seq<real>)
    requires forall k :: 0 <= k < |s| ==> s[k] >= 0.0
    ensures Sum(s) >= 0.0
  {
    if |s| > 0 {
      SumNonNegative(s[1..]);
    }
  }

  /** Two points at different positions already make the spread of the x-values positive,
      whatever the centre. */
  lemma SxxPositive(ps: seq<(int, real)>, mx: real)
    requires |ps| >= 2 && ps[0].0 != ps[1].0
    ensures Sum(SqTerms(ps, mx)) > 0.0
  {
    var qs := SqTerms(ps, mx);
    forall k | 0 <= k < |qs| ensures qs[k] >= 0.0 {
      SquareNonNegative((ps[k].0 as real) - mx, qs[k]);
    }
    var d0 := (ps[0].0 as real) - mx;
    if d0 != 0.0 {
      SquarePositive(d0, qs[0]);
      SumPositive(qs, 0);
    } else {
      SquarePositive((ps[1].0 as real) - mx, qs[1]);
      SumPositive(qs, 1);
    }
  }

  lemma SquareNonNegative(d: real, q: real)
    requires q == d * d
    ensures q >= 0.0
  {
    if d < 0.0 {
      ProductOfPositives(-d, -d, q);
    } else if d > 0.0 {
      ProductOfPositives(d, d, q);
    }
  }

  lemma SquarePositive(d: real, q: real)
    requires d != 0.0 && q == d * d
    ensures q > 0.0
  {
    if d < 0.0 {
      ProductOfPositives(-d, -d, q);
    } else {
      ProductOfPositives(d, d, q);
    }
  }

  /** Each term of `s` is `a` times the matching term of `t`, plus `b`. */
  predicate Affine(s: seq<real>, t: seq<real>, a: real, b: real)
  {
    |s| == |t| && forall k :: 0 <= k < |s| ==> s[k] == a * t[k] + b
  }

  /** Summing an affine image of some terms gives the affine image of their sum. */
  lemma {:induction false} SumAffine(s: seq<real>, t: seq<real>, a: real, b: real)
    ensures Affine(s, t, a, b) ==> Sum(s) == a * Sum(t) + b * (|s| as real)
  {
    if |s| > 0 && Affine(s, t, a, b) {
      assert Affine(s[1..], t[1..], a, b);
      SumAffine(s[1..], t[1..], a, b);
      AffineStep(a, b, s[0], t[0], Sum(s[1..]), Sum(t[1..]), (|s| - 1) as real, Sum(s), Sum(t));
    }
  }

  lemma AffineStep(a: real, b: real, u: real, v: real, su': real, sv': real, n': real, su: real, sv: real)
    requires u == a * v + b && su' == a * sv' + b * n' && su == u + su' && sv == v + sv'
    ensures su == a * sv + b * (n' + 1.0)
  {
  }

  /** Each term of `s` is `a` times the matching term of `t`. */
  predicate Scales(s: seq<real>, t: seq<real>, a: real)
  {
    |s| == |t| && forall k :: 0 <= k < |s| ==> s[k] == a * t[k]
  }

  /** Summing terms that are `a` times other terms gives `a` times their sum. */
  lemma {:induction false} SumScale(s: seq<real>, t: seq<real>, a: real)
    ensures Scales(s, t, a) ==> Sum(s) == a * Sum(t)
  {
    if |s| > 0 && Scales(s, t, a) {
      assert Scales(s[1..], t[1..], a);
      SumScale(s[1..], t[1..], a);
      ScaleStep(a, s[0], t[0], Sum(s[1..]), Sum(t[1..]), Sum(s), Sum(t));
    }
  }

  lemma ScaleStep(a: real, u: real, v: real, su': real, sv': real, su: real, sv: real)
    requires u == a * v && su' == a * sv' && su == u + su' && sv == v + sv'
    ensures su == a * sv
  {
  }

  /** All points lie on the line `a*x + b`. */
  predicate OnLine(ps: seq<(int, real)>, a: real, b: real)
  {
    forall k :: 0 <= k < |ps| ==> ps[k].1 == a * (ps[k].0 as real) + b
  }

  /** The mean point of points on a line lies on that line. */
  lemma MeansOfLine(ps: seq<(int, real)>, a: real, b: real)
    ensures |ps| > 0 && OnLine(ps, a, b) ==>
              Sum(Ys(ps)) / (|ps| as real) == a * (Sum(Xs(ps)) / (|ps| as real)) + b
  {
    AffineOfLine(ps, a, b);
    SumAffine(Ys(ps), Xs(ps), a, b);
    MeanOfLine(Sum(Xs(ps)), Sum(Ys(ps)), |ps| as real, a, b);
  }

  lemma AffineOfLine(ps: seq<(int, real)>, a: real, b: real)
    ensures OnLine(ps, a, b) ==> Affine(Ys(ps), Xs(ps), a, b)
  {
  }

  lemma MeanOfLine(sx: real, sy: real, n: real, a: real, b: real)
    ensures n > 0.0 && sy == a * sx + b * n ==> sy / n == a * (sx / n) + b
  {
    if n > 0.0 && sy == a * sx + b * n {
      var m := sx / n;
      assert sx == m * n;
      assert sy == (a * m + b) * n;
    }
  }

  /** On points lying on the line `a*x + b` the cross deviations are `a` times the squared
      ones, about any centre `mx` and its image on the line. */
  lemma SxyOfLine(ps: seq<(int, real)>, a: real, b: real, mx: real)
    ensures OnLine(ps, a, b) ==> Sum(CrossTerms(ps, mx, a * mx + b)) == a * Sum(SqTerms(ps, mx))
  {
    TermsOfLine(ps, a, b, mx);
    SumScale(CrossTerms(ps, mx, a * mx + b), SqTerms(ps, mx), a);
  }

  lemma TermsOfLine(ps: seq<(int, real)>, a: real, b: real, mx: real)
    ensures OnLine(ps, a, b) ==> Scales(CrossTerms(ps, mx, a * mx + b), SqTerms(ps, mx), a)
  {
    if OnLine(ps, a, b) {
      var cs := CrossTerms(ps, mx, a * mx + b);
      var qs := SqTerms(ps, mx);
      forall k | 0 <= k < |ps| ensures cs[k] == a * qs[k] {
        LineTerm(ps[k].0 as real, ps[k].1, a, b, mx, cs[k], qs[k]);
      }
    }
  }

  /** On points lying on the line `a*x + b`, each cross term is `a` times the square term. */
  lemma LineTerm(x: real, y: real, a: real, b: real, mx: real, c: real, q: real)
    requires y == a * x + b
    requires c == (x - mx) * (y - (a * mx + b)) && q == (x - mx) * (x - mx)
    ensures c == a * q
  {
    assert y - (a * mx + b) == a * (x - mx);
  }

  lemma RatioOfMultiple(a: real, d: real, c: real)
    ensures d != 0.0 && c == a * d ==> c / d == a
  {
  }

  /** The least-squares fit of points lying on the line `a*x + b` has slope `a`. */
  lemma FitOfLine(ps: seq<(int, real)>, a: real, b: real)
    requires |ps| >= 2 && ps[0].0 != ps[1].0 && OnLine(ps, a, b)
    ensures Fit(ps) == a
  {
    var n := |ps| as real;
    var mx := Sum(Xs(ps)) / n;
    var my := Sum(Ys(ps)) / n;
    MeansOfLine(ps, a, b);
    assert my == a * mx + b;
    SxyOfLine(ps, a, b, mx);
    assert Sum(CrossTerms(ps, mx, my)) == a * Sum(SqTerms(ps, mx));
    SxxPositive(ps, mx);
    RatioOfMultiple(a, Sum(SqTerms(ps, mx)), Sum(CrossTerms(ps, mx, my)));
    assert Sum(CrossTerms(ps, mx, my)) / Sum(SqTerms(ps, mx)) == a;
  }

  /** Points on an exact line, however many NaN gaps lie between them, give that line's
      slope. */
  lemma SlopeOfLine(y: seq<Val>, a: real, b: real)
    requires forall i :: 0 <= i < |y| && y[i].Num? ==> y[i].x == a * (i as real) + b
    ensures Slope(y).Some? ==> Slope(y).value == a
  {
    if Slope(y).Some? {
      PointsAt(y, 0);
      PointsCount(y, 0);
      PointsIncreasing(y, 0);
      var ps := Points(y, 0);
      forall k | 0 <= k < |ps| ensures ps[k].1 == a * (ps[k].0 as real) + b {
        assert y[ps[k].0] == Num(ps[k].1);
      }
      FitOfLine(ps, a, b);
    }
  }

  /** A series whose non-NaN values are all equal has slope 0. */
  lemma SlopeOfConstant(y: seq<Val>, c: real)
    requires forall i :: 0 <= i < |y| && y[i].Num? ==> y[i].x == c
    ensures Slope(y).Some? ==> Slope(y).value == 0.0
  {
    forall i | 0 <= i < |y| && y[i].Num? ensures y[i].x == 0.0 * (i as real) + c {
    }
    SlopeOfLine(y, 0.0, c);
  }
}
