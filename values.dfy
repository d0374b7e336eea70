/** Floating-point cells of a metric series. NumPy's `NaN` is the `NaN` constructor; every
    other float is modelled as an exact `real` (no rounding, no infinities). */
module Values {

  datatype Val = NaN | Num(x: real)

  /** The non-NaN values of `s`, in order (`s[~np.isnan(s)]`). */
  function Clean(s: seq<Val>): seq<real>
  {
    if |s| == 0 then []
    else if s[0].NaN? then Clean(s[1..])
    else [s[0].x] + Clean(s[1..])
  }

  /** `Clean` keeps exactly the non-NaN values. */
  lemma {:induction false} CleanMembers(s: seq<Val>)
    ensures |Clean(s)| <= |s|
    ensures forall x :: x in Clean(s) <==> Num(x) in s
  {
    if |s| > 0 {
      CleanMembers(s[1..]);
      assert s == [s[0]] + s[1..];
    }
  }

  /** `np.isnan(s).sum()`. */
  function NanCount(s: seq<Val>): nat
  {
    if |s| == 0 then 0
    else (if s[0].NaN? then 1 else 0) + NanCount(s[1..])
  }

  /** Every cell is either counted as NaN or kept by `Clean`; there are no NaNs exactly
      when the count is zero. */
  lemma {:induction false} NanCountComplementsClean(s: seq<Val>)
    ensures NanCount(s) + |Clean(s)| == |s|
    ensures NanCount(s) == 0 <==> NaN !in s
  {
    if |s| > 0 {
      NanCountComplementsClean(s[1..]);
      assert s == [s[0]] + s[1..];
    }
  }

  /** Python's `abs` on a float. */
  function Abs(x: real): real
  {
    if x < 0.0 then -x else x
  }

  function Sum(s: seq<real>): real
  {
    if |s| == 0 then 0.0 else s[0] + Sum(s[1..])
  }

  /** `np.nanmean`: the mean of the non-NaN values, NaN when there are none. */
  function NanMean(s: seq<Val>): (r: Val)
    ensures r.Num? <==> |Clean(s)| > 0
  {
    var c := Clean(s);
    if |c| == 0 then NaN else Num(Sum(c) / (|c| as real))
  }

  lemma {:induction false} SumOfConstant(s: seq<real>, c: real)
    requires forall i :: 0 <= i < |s| ==> s[i] == c
    ensures Sum(s) == (|s| as real) * c
  {
    if |s| > 0 {
      SumOfConstant(s[1..], c);
    }
  }

  predicate Within(s: seq<real>, lo: real, hi: real)
  {
    forall i :: 0 <= i < |s| ==> lo <= s[i] <= hi
  }

  lemma {:induction false} SumBounds(s: seq<real>, lo: real, hi: real)
    requires Within(s, lo, hi)
    ensures (|s| as real) * lo <= Sum(s) <= (|s| as real) * hi
  {
    if |s| > 0 {
      assert Within(s[1..], lo, hi);
      SumBounds(s[1..], lo, hi);
    }
  }

  lemma {:induction false} CleanWithin(s: seq<Val>, lo: real, hi: real)
    requires forall x :: Num(x) in s ==> lo <= x <= hi
    ensures Within(Clean(s), lo, hi)
  {
    if |s| > 0 {
      assert forall x :: Num(x) in s[1..] ==> Num(x) in s;
      CleanWithin(s[1..], lo, hi);
      if s[0].Num? {
        assert Num(s[0].x) in s;
      }
    }
  }

  /** A mean lies between any lower and upper bound of the values it averages; in
      particular the mean of a window of equal values is that value. */
  lemma NanMeanBounds(s: seq<Val>, lo: real, hi: real)
    requires forall x :: Num(x) in s ==> lo <= x <= hi
    ensures NanMean(s).Num? ==> lo <= NanMean(s).x <= hi
  {
    var c := Clean(s);
    if |c| > 0 {
      CleanWithin(s, lo, hi);
      SumBounds(c, lo, hi);
      DivideBounds(Sum(c), |c| as real, lo, hi);
    }
  }

  lemma DivideBounds(a: real, n: real, lo: real, hi: real)
    requires n > 0.0 && n * lo <= a <= n * hi
    ensures lo <= a / n <= hi
  {
    var q := a / n;
    assert a == q * n;
  }

  /** Signs of products, stated on a named product `q` so that squares (`u == v`) are covered
      without nonlinear reasoning at the call site. */
  lemma ProductOfPositives(u: real, v: real, q: real)
    requires u > 0.0 && v > 0.0 && q == u * v
    ensures q > 0.0
  {
  }

  /** The sign of a quotient: with a positive divisor it is the sign of the dividend, with a
      negative divisor the opposite. */
  lemma QuotientSign(t: real, d: real)
    requires d != 0.0
    ensures d > 0.0 ==> (t / d > 0.0 <==> t > 0.0)
    ensures d < 0.0 ==> (t / d > 0.0 <==> t < 0.0)
  {
    var z := t / d;
    assert z * d == t;
    if d > 0.0 {
      if z > 0.0 {
        ProductOfPositives(z, d, t);
      } else if z < 0.0 {
        ProductOfPositives(-z, d, -t);
      }
    } else {
      if z > 0.0 {
        ProductOfPositives(z, -d, -t);
      } else if z < 0.0 {
        ProductOfPositives(-z, -d, t);
      }
    }
  }

  /** A part over a whole it does not exceed lies in (0, 1]. */
  lemma QuotientWithinOne(t: real, d: real)
    requires 0.0 < t <= d
    ensures 0.0 < t / d <= 1.0
  {
    var z := t / d;
    assert z * d == t;
    QuotientSign(t, d);
    if z > 1.0 {
      ProductOfPositives(z - 1.0, d, z * d - d);
    }
  }
}
