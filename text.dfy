/** The few pieces of Python's `str` behaviour the toolkit relies on: code-point ordering
    (used by `sorted(..., key=date)`), `split`, `int()` on a digit string, `str()` of an int,
    `list.index` and the `in` substring test. */
module Text {
  import opened Wrappers

  /** Python's `a <= b` on `str`: code-point lexicographic order, a prefix sorting first. */
  predicate LexLe(a: string, b: string)
  {
    |a| == 0 || (|b| > 0 && (a[0] < b[0] || (a[0] == b[0] && LexLe(a[1..], b[1..]))))
  }

  /** Python's `a < b` on `str`. */
  predicate LexLt(a: string, b: string)
  {
    LexLe(a, b) && a != b
  }

  lemma {:induction false} LexLeReflexive(a: string)
    ensures LexLe(a, a)
  {
    if |a| > 0 {
      LexLeReflexive(a[1..]);
    }
  }

  lemma {:induction false} LexLeTotal(a: string, b: string)
    ensures LexLe(a, b) || LexLe(b, a)
  {
    if |a| > 0 && |b| > 0 && a[0] == b[0] {
      LexLeTotal(a[1..], b[1..]);
    }
  }

  lemma {:induction false} LexLeTransitive(a: string, b: string, c: string)
    requires LexLe(a, b) && LexLe(b, c)
    ensures LexLe(a, c)
  {
    if |a| > 0 && |b| > 0 && |c| > 0 && a[0] == b[0] && b[0] == c[0] {
      LexLeTransitive(a[1..], b[1..], c[1..]);
    }
  }

  lemma {:induction false} LexLeAntisymmetric(a: string, b: string)
    requires LexLe(a, b) && LexLe(b, a)
    ensures a == b
  {
    if |a| > 0 && |b| > 0 {
      LexLeAntisymmetric(a[1..], b[1..]);
      assert a == [a[0]] + a[1..];
      assert b == [b[0]] + b[1..];
    }
  }

  /** `s.split(c)` for a one-character separator. */
  function Split(s: string, c: char): (parts: seq<string>)
    ensures |parts| >= 1
  {
    if |s| == 0 then [""]
    else
      var rest := Split(s[1..], c);
      if s[0] == c then [""] + rest
      else [[s[0]] + rest[0]] + rest[1..]
  }

  /** A string without the separator splits into itself. */
  lemma {:induction false} SplitWithoutSeparator(s: string, c: char)
    requires c !in s
    ensures Split(s, c) == [s]
  {
    if |s| > 0 {
      assert c !in s[1..];
      SplitWithoutSeparator(s[1..], c);
      assert s == [s[0]] + s[1..];
    }
  }

  /** `c.join(parts)`, the inverse of `Split`. */
  function Join(parts: seq<string>, c: char): string
    requires |parts| >= 1
  {
    if |parts| == 1 then parts[0] else parts[0] + [c] + Join(parts[1..], c)
  }

  lemma {:induction false} JoinSplit(s: string, c: char)
    ensures Join(Split(s, c), c) == s
  {
    if |s| > 0 {
      var rest := Split(s[1..], c);
      JoinSplit(s[1..], c);
      if s[0] == c {
        assert Split(s, c)[1..] == rest;
      } else {
        var parts := Split(s, c);
        assert parts[1..] == rest[1..];
        if |rest| == 1 {
          assert s == [s[0]] + s[1..];
        } else {
          assert Join(rest, c) == rest[0] + [c] + Join(rest[1..], c);
        }
      }
    }
  }

  /** `a + [c] + b` splits at its one separator when neither side contains it. */
  lemma {:induction false} SplitAtSeparator(a: string, b: string, c: char)
    requires c !in a && c !in b
    ensures Split(a + [c] + b, c) == [a, b]
  {
    if |a| == 0 {
      assert a + [c] + b == [c] + b;
      assert (a + [c] + b)[1..] == b;
      SplitWithoutSeparator(b, c);
    } else {
      assert c !in a[1..];
      SplitAtSeparator(a[1..], b, c);
      assert (a + [c] + b)[1..] == a[1..] + [c] + b;
      assert [a[0]] + a[1..] == a;
    }
  }

  /** Splitting at the first separator: the part before it, then the split of the rest. */
  lemma {:induction false} SplitOnSeparatorAfter(a: string, b: string, c: char)
    requires c !in a
    ensures Split(a + [c] + b, c) == [a] + Split(b, c)
  {
    if |a| == 0 {
      assert a + [c] + b == [c] + b;
      assert (a + [c] + b)[1..] == b;
    } else {
      SplitOnSeparatorAfter(a[1..], b, c);
      assert (a + [c] + b)[1..] == a[1..] + [c] + b;
      assert [a[0]] + a[1..] == a;
    }
  }

  predicate IsDigit(ch: char)
  {
    '0' <= ch <= '9'
  }

  /** A non-empty run of ASCII decimal digits: what Python's `int()` accepts here. */
  predicate IsDigits(s: string)
  {
    |s| > 0 && forall i :: 0 <= i < |s| ==> IsDigit(s[i])
  }

  function DigitsValue(s: string): nat
    requires forall i :: 0 <= i < |s| ==> IsDigit(s[i])
  {
    if |s| == 0 then 0
    else
      assert IsDigit(s[|s| - 1]);
      DigitsValue(s[..|s| - 1]) * 10 + (s[|s| - 1] as int - '0' as int)
  }

  /** `int(s)`; `None` stands for the `ValueError` it raises. */
  function ParseInt(s: string): Option<int>
  {
    if IsDigits(s) then Some(DigitsValue(s)) else None
  }

  function DigitChar(d: nat): (ch: char)
    requires d < 10
    ensures IsDigit(ch) && ch as int - '0' as int == d
  {
    ('0' as int + d) as char
  }

  /** `str(n)` for `n >= 0`: decimal digits without leading zeros. */
  function NatToDecimal(n: nat): (s: string)
    ensures IsDigits(s)
    ensures |s| == 1 || s[0] != '0'
  {
    if n < 10 then [DigitChar(n)] else NatToDecimal(n / 10) + [DigitChar(n % 10)]
  }

  /** `str(n)`. */
  function IntToDecimal(n: int): (s: string)
    ensures n >= 0 ==> s == NatToDecimal(n)
    ensures n < 0 ==> s == "-" + NatToDecimal(-n)
  {
    if n < 0 then "-" + NatToDecimal(-n) else NatToDecimal(n)
  }

  lemma {:induction false} ParseNatToDecimal(n: nat)
    ensures ParseInt(NatToDecimal(n)) == Some(n)
  {
    var s := NatToDecimal(n);
    if n >= 10 {
      ParseNatToDecimal(n / 10);
      assert s[..|s| - 1] == NatToDecimal(n / 10);
      assert DigitsValue(s) == DigitsValue(NatToDecimal(n / 10)) * 10 + n % 10;
    }
  }

  /** `s.index(x)`: the first position holding `x`; `None` is the `ValueError`. */
  function IndexOf<T(==)>(s: seq<T>, x: T): (r: Option<nat>)
    ensures r.None? <==> x !in s
    ensures r.Some? ==> r.value < |s| && s[r.value] == x && x !in s[..r.value]
  {
    if |s| == 0 then None
    else if s[0] == x then Some(0)
    else
      var rest := IndexOf(s[1..], x);
      if rest.None? then None
      else
        assert s[1..][..rest.value] == s[1..rest.value + 1];
        assert s[..rest.value + 1] == [s[0]] + s[1..rest.value + 1];
        Some(rest.value + 1)
  }

  /** Python's substring test `k in s`. */
  predicate Contains(s: string, k: string)
  {
    exists i :: 0 <= i <= |s| && k <= s[i..]
  }
}
