/** `BasketAnalyzer.analyze_associations`: pairwise co-occurrence of products within orders,
    with the confidence of each direction, filtered by a minimum support and cut to the
    `top_n` most frequent pairs. */
module Basket {
  import opened Text
  import opened Sorting
  import Values

  /** One line of the transaction table: its order number and its product name. */
  datatype Row = Row(order: string, item: string)

  /** A result row: `item_a`, `item_b`, `co_occurrence`, `conf_a_b`, `conf_b_a`. */
  datatype Association = Association(itemA: string, itemB: string, coOccurrence: nat, confAB: real, confBA: real)

  predicate Distinct<T(==)>(s: seq<T>)
  {
    forall i, j :: 0 <= i < j < |s| ==> s[i] != s[j]
  }

  lemma LexLeIsTotalPreorder()
    ensures TotalPreorder(LexLe)
  {
    forall a: string, b: string ensures LexLe(a, b) || LexLe(b, a) {
      LexLeTotal(a, b);
    }
    forall a: string, b: string, c: string | LexLe(a, b) && LexLe(b, c) ensures LexLe(a, c) {
      LexLeTransitive(a, b, c);
    }
  }

  /** In a sequence without repetitions every element occurs once. */
  lemma {:induction false} DistinctMultiplicity<T>(s: seq<T>, x: T)
    requires Distinct(s)
    ensures multiset(s)[x] == if x in s then 1 else 0
  {
    if |s| > 0 {
      var p := s[..|s| - 1];
      assert s == p + [s[|s| - 1]];
      assert Distinct(p);
      DistinctMultiplicity(p, x);
      if x == s[|s| - 1] {
        assert x !in p;
      }
    }
  }

  /** A rearrangement of a sequence without repetitions has none either. */
  lemma DistinctOfPermutation<T>(s: seq<T>, t: seq<T>)
    requires Distinct(t) && multiset(s) == multiset(t)
    ensures Distinct(s)
  {
    forall i, j | 0 <= i < j < |s| ensures s[i] != s[j] {
      if s[i] == s[j] {
        var x := s[i];
        assert s == s[..j] + s[j..];
        assert x in s[..j] && x in s[j..];
        assert multiset(s)[x] == multiset(s[..j])[x] + multiset(s[j..])[x];
        DistinctMultiplicity(t, x);
        assert false;
      }
    }
  }

  // ---------------------------------------------------------------------------------------
  // `df.groupby('流水单号')['商品名称'].apply(list)`, keeping orders with more than one row

  function Orders(rows: seq<Row>): seq<string>
  {
    seq(|rows|, i requires 0 <= i < |rows| => rows[i].order)
  }

  /** The group keys in ascending order, as `groupby` sorts them. */
  function OrderIds(rows: seq<Row>): seq<string>
  {
    LexLeIsTotalPreorder();
    SortBy(Dedup(Orders(rows)), LexLe)
  }

  /** The products on the rows of order `id`, in row order. */
  function ItemsOf(rows: seq<Row>, id: string): seq<string>
  {
    if |rows| == 0 then []
    else
      var last := rows[|rows| - 1];
      ItemsOf(rows[..|rows| - 1], id) + (if last.order == id then [last.item] else [])
  }

  /** The item lists of the orders `ids` that have more than one row. */
  function Qualifying(rows: seq<Row>, ids: seq<string>): seq<seq<string>>
  {
    if |ids| == 0 then []
    else
      var b := ItemsOf(rows, ids[|ids| - 1]);
      Qualifying(rows, ids[..|ids| - 1]) + (if |b| > 1 then [b] else [])
  }

  function Baskets(rows: seq<Row>): seq<seq<string>>
  {
    Qualifying(rows, OrderIds(rows))
  }

  /** Some row carries order `id`. */
  predicate HasRow(rows: seq<Row>, id: string)
  {
    exists i :: 0 <= i < |rows| && rows[i].order == id
  }

  /** Two different rows carry order `id`. */
  predicate HasTwoRows(rows: seq<Row>, id: string)
  {
    exists i, j :: 0 <= i < j < |rows| && rows[i].order == id && rows[j].order == id
  }

  lemma {:induction false} ItemsOfHasRow(rows: seq<Row>, id: string)
    ensures |ItemsOf(rows, id)| >= 1 <==> HasRow(rows, id)
  {
    if |rows| > 0 {
      var p := rows[..|rows| - 1];
      var n := |rows| - 1;
      ItemsOfHasRow(p, id);
      if HasRow(p, id) {
        var i :| 0 <= i < |p| && p[i].order == id;
        assert rows[i].order == id;
      }
      if HasRow(rows, id) && rows[n].order != id {
        var i :| 0 <= i < |rows| && rows[i].order == id;
        assert p[i].order == id;
      }
    }
  }

  lemma {:induction false} ItemsOfCount(rows: seq<Row>, id: string)
    ensures |ItemsOf(rows, id)| >= 1 <==> HasRow(rows, id)
    ensures |ItemsOf(rows, id)| > 1 <==> HasTwoRows(rows, id)
  {
    ItemsOfHasRow(rows, id);
    if |rows| > 0 {
      var p := rows[..|rows| - 1];
      var n := |rows| - 1;
      ItemsOfCount(p, id);
      if HasTwoRows(p, id) {
        var i, j :| 0 <= i < j < |p| && p[i].order == id && p[j].order == id;
        assert rows[i].order == id && rows[j].order == id;
      }
      if HasTwoRows(rows, id) {
        var i, j :| 0 <= i < j < |rows| && rows[i].order == id && rows[j].order == id;
        if j < n {
          assert p[i].order == id && p[j].order == id;
        } else {
          assert p[i].order == id;
        }
      }
      if rows[n].order == id && HasRow(p, id) {
        var i :| 0 <= i < |p| && p[i].order == id;
        assert rows[i].order == id && rows[n].order == id;
      }
    }
  }

  lemma {:induction false} QualifyingEmpty(rows: seq<Row>, ids: seq<string>)
    ensures Qualifying(rows, ids) == [] <==> forall k :: 0 <= k < |ids| ==> |ItemsOf(rows, ids[k])| <= 1
  {
    if |ids| > 0 {
      QualifyingEmpty(rows, ids[..|ids| - 1]);
      assert forall k :: 0 <= k < |ids| - 1 ==> ids[..|ids| - 1][k] == ids[k];
    }
  }

  lemma {:induction false} QualifyingLengths(rows: seq<Row>, ids: seq<string>)
    ensures forall k :: 0 <= k < |Qualifying(rows, ids)| ==> |Qualifying(rows, ids)[k]| > 1
  {
    if |ids| > 0 {
      QualifyingLengths(rows, ids[..|ids| - 1]);
    }
  }

  lemma OrderIdsMembers(rows: seq<Row>, id: string)
    ensures id in OrderIds(rows) <==> HasRow(rows, id)
  {
    LexLeIsTotalPreorder();
    var os := Orders(rows);
    var d := Dedup(os);
    var s := SortBy(d, LexLe);
    assert id in s <==> id in multiset(s);
    assert id in d <==> id in multiset(d);
    assert id in d <==> id in os;
    if HasRow(rows, id) {
      var i :| 0 <= i < |rows| && rows[i].order == id;
      assert os[i] == id;
    }
    if id in os {
      var i :| 0 <= i < |os| && os[i] == id;
      assert rows[i].order == id;
    }
  }

  /** Only orders with more than one row are analysed: there is nothing to analyse exactly
      when no order number occurs on two rows, and every basket has at least two product
      lines (possibly of the same product). */
  lemma BasketsQualify(rows: seq<Row>)
    ensures Baskets(rows) == [] <==>
      forall i, j :: 0 <= i < j < |rows| ==> rows[i].order != rows[j].order
    ensures forall k :: 0 <= k < |Baskets(rows)| ==> |Baskets(rows)[k]| > 1
  {
    var ids := OrderIds(rows);
    QualifyingEmpty(rows, ids);
    QualifyingLengths(rows, ids);
    if exists i, j :: 0 <= i < j < |rows| && rows[i].order == rows[j].order {
      var i, j :| 0 <= i < j < |rows| && rows[i].order == rows[j].order;
      var id := rows[i].order;
      assert HasTwoRows(rows, id);
      assert HasRow(rows, id);
      OrderIdsMembers(rows, id);
      var k :| 0 <= k < |ids| && ids[k] == id;
      ItemsOfCount(rows, id);
    } else {
      forall k | 0 <= k < |ids| ensures |ItemsOf(rows, ids[k])| <= 1 {
        ItemsOfCount(rows, ids[k]);
      }
    }
  }

  // ---------------------------------------------------------------------------------------
  // `sorted(list(set(items)))` and `combinations(unique_items, 2)`

  /** The distinct products of a basket in ascending order. */
  function Unique(items: seq<string>): seq<string>
  {
    LexLeIsTotalPreorder();
    SortBy(Dedup(items), LexLe)
  }

  /** Strictly ascending. */
  predicate Increasing(u: seq<string>)
  {
    forall i, j :: 0 <= i < j < |u| ==> LexLt(u[i], u[j])
  }

  lemma UniqueMeaning(items: seq<string>)
    ensures forall x :: x in Unique(items) <==> x in items
    ensures Increasing(Unique(items))
    ensures forall x :: multiset(Unique(items))[x] == if x in items then 1 else 0
  {
    LexLeIsTotalPreorder();
    var d := Dedup(items);
    var u := Unique(items);
    forall x ensures x in u <==> x in items {
      assert x in u <==> x in multiset(u);
      assert x in d <==> x in multiset(d);
    }
    DistinctOfPermutation(u, d);
    forall x ensures multiset(u)[x] == if x in items then 1 else 0 {
      DistinctMultiplicity(u, x);
    }
  }

  /** `combinations(u, 2)`: the pairs `(u[i], u[j])` with `i < j`, in lexicographic order of
      the positions. */
  function Pairs(u: seq<string>): seq<(string, string)>
  {
    if |u| == 0 then [] else Heads(u) + Pairs(u[1..])
  }

  /** The pairs that start with the first element. */
  function Heads(u: seq<string>): seq<(string, string)>
    requires |u| > 0
  {
    seq(|u| - 1, k requires 0 <= k < |u| - 1 => (u[0], u[k + 1]))
  }

  /** The pairs starting with `u[0]` list each later element once. */
  lemma HeadsMultiplicity(u: seq<string>, a: string, b: string)
    requires |u| > 0 && Increasing(u)
    ensures multiset(Heads(u))[(a, b)] == if a == u[0] && b in u[1..] then 1 else 0
  {
    var heads := Heads(u);
    var rest := u[1..];
    assert Distinct(heads) by {
      forall i, j | 0 <= i < j < |heads| ensures heads[i] != heads[j] {
        assert heads[i].1 == u[i + 1] && heads[j].1 == u[j + 1];
        assert LexLt(u[i + 1], u[j + 1]);
      }
    }
    DistinctMultiplicity(heads, (a, b));
    if a == u[0] && b in rest {
      var k :| 0 <= k < |rest| && rest[k] == b;
      assert heads[k] == (a, b);
    }
  }

  /** In a strictly ascending sequence each pair `a < b` of its elements is listed once, and
      no other pair is. */
  lemma {:induction false} PairsMultiplicity(u: seq<string>, a: string, b: string)
    requires Increasing(u)
    ensures multiset(Pairs(u))[(a, b)] == if a in u && b in u && LexLt(a, b) then 1 else 0
  {
    if |u| > 0 {
      var rest := u[1..];
      assert Increasing(rest);
      PairsMultiplicity(rest, a, b);
      HeadsMultiplicity(u, a, b);
      assert multiset(Pairs(u)) == multiset(Heads(u)) + multiset(Pairs(rest));
      assert u == [u[0]] + rest;
      if a == u[0] {
        assert a !in rest;
        if b in u && LexLt(a, b) {
          assert b != u[0];
        }
      } else if a in u && b in u && LexLt(a, b) {
        assert a in rest;
        if b == u[0] {
          var i :| 0 <= i < |rest| && rest[i] == a;
          assert LexLt(u[0], u[i + 1]);
          LexLeAntisymmetric(a, b);
        }
      }
    }
  }

  // ---------------------------------------------------------------------------------------
  // `collections.Counter`: counts with missing keys read as 0, keys in insertion order

  datatype Counter<K> = Counter(counts: map<K, nat>, keys: seq<K>)

  function Count<K>(c: Counter<K>, k: K): nat
  {
    if k in c.counts then c.counts[k] else 0
  }

  /** `c[k] += 1`: a new key goes to the end of the insertion order. */
  function Increment<K>(c: Counter<K>, k: K): Counter<K>
  {
    Counter(c.counts[k := Count(c, k) + 1], if k in c.counts then c.keys else c.keys + [k])
  }

  function IncrementAll<K>(c: Counter<K>, ks: seq<K>): Counter<K>
  {
    if |ks| == 0 then c else Increment(IncrementAll(c, ks[..|ks| - 1]), ks[|ks| - 1])
  }

  /** Every key has been counted at least once and is listed once in insertion order. */
  ghost predicate Tidy<K(!new)>(c: Counter<K>)
  {
    && (forall k :: k in c.counts <==> k in c.keys)
    && (forall k :: k in c.counts ==> c.counts[k] >= 1)
    && Distinct(c.keys)
  }

  lemma {:induction false} IncrementAllCount<K>(c: Counter<K>, ks: seq<K>, k: K)
    ensures Count(IncrementAll(c, ks), k) == Count(c, k) + multiset(ks)[k]
  {
    if |ks| > 0 {
      IncrementAllCount(c, ks[..|ks| - 1], k);
      assert ks == ks[..|ks| - 1] + [ks[|ks| - 1]];
    }
  }

  lemma {:induction false} IncrementAllTidy<K(!new)>(c: Counter<K>, ks: seq<K>)
    requires Tidy(c)
    ensures Tidy(IncrementAll(c, ks))
  {
    if |ks| > 0 {
      IncrementAllTidy(c, ks[..|ks| - 1]);
    }
  }

  /** Baskets holding product `x`. */
  function Holding(bs: seq<seq<string>>, x: string): nat
  {
    if |bs| == 0 then 0 else Holding(bs[..|bs| - 1], x) + (if x in bs[|bs| - 1] then 1 else 0)
  }

  /** Baskets holding both `a` and `b`. */
  function HoldingBoth(bs: seq<seq<string>>, a: string, b: string): nat
  {
    if |bs| == 0 then 0
    else HoldingBoth(bs[..|bs| - 1], a, b) + (if a in bs[|bs| - 1] && b in bs[|bs| - 1] then 1 else 0)
  }

  lemma {:induction false} HoldingBothAtMost(bs: seq<seq<string>>, a: string, b: string)
    ensures HoldingBoth(bs, a, b) <= Holding(bs, a) && HoldingBoth(bs, a, b) <= Holding(bs, b)
  {
    if |bs| > 0 {
      HoldingBothAtMost(bs[..|bs| - 1], a, b);
    }
  }

  /** `item_counts` after the given baskets. */
  function ItemTally(bs: seq<seq<string>>): Counter<string>
  {
    if |bs| == 0 then Counter(map[], [])
    else IncrementAll(ItemTally(bs[..|bs| - 1]), Unique(bs[|bs| - 1]))
  }

  /** `pair_counts` after the given baskets. */
  function PairTally(bs: seq<seq<string>>): Counter<(string, string)>
  {
    if |bs| == 0 then Counter(map[], [])
    else IncrementAll(PairTally(bs[..|bs| - 1]), Pairs(Unique(bs[|bs| - 1])))
  }

  /** `item_counts[x]` is the number of baskets holding `x`, whatever its repetitions. */
  lemma {:induction false} ItemTallyCount(bs: seq<seq<string>>, x: string)
    ensures Count(ItemTally(bs), x) == Holding(bs, x)
  {
    if |bs| > 0 {
      ItemTallyCount(bs[..|bs| - 1], x);
      IncrementAllCount(ItemTally(bs[..|bs| - 1]), Unique(bs[|bs| - 1]), x);
      UniqueMeaning(bs[|bs| - 1]);
    }
  }

  /** `pair_counts[(a, b)]` is the number of baskets holding both, for `a < b`, and 0 for any
      other key order. */
  lemma {:induction false} PairTallyCount(bs: seq<seq<string>>, a: string, b: string)
    ensures Count(PairTally(bs), (a, b)) == if LexLt(a, b) then HoldingBoth(bs, a, b) else 0
  {
    if |bs| > 0 {
      var last := bs[|bs| - 1];
      PairTallyCount(bs[..|bs| - 1], a, b);
      IncrementAllCount(PairTally(bs[..|bs| - 1]), Pairs(Unique(last)), (a, b));
      UniqueMeaning(last);
      PairsMultiplicity(Unique(last), a, b);
    }
  }

  lemma {:induction false} TalliesTidy(bs: seq<seq<string>>)
    ensures Tidy(ItemTally(bs)) && Tidy(PairTally(bs))
  {
    if |bs| > 0 {
      TalliesTidy(bs[..|bs| - 1]);
      IncrementAllTidy(ItemTally(bs[..|bs| - 1]), Unique(bs[|bs| - 1]));
      IncrementAllTidy(PairTally(bs[..|bs| - 1]), Pairs(Unique(bs[|bs| - 1])));
    }
  }

  /** A counted pair is ordered `a < b`, and neither product is counted less often than the
      pair, so both confidences lie in (0, 1]. */
  lemma PairCountsBounded(bs: seq<seq<string>>, a: string, b: string)
    ensures Count(PairTally(bs), (a, b)) > 0 ==> LexLt(a, b)
    ensures Count(PairTally(bs), (a, b)) <= Count(ItemTally(bs), a)
    ensures Count(PairTally(bs), (a, b)) <= Count(ItemTally(bs), b)
  {
    PairTallyCount(bs, a, b);
    ItemTallyCount(bs, a);
    ItemTallyCount(bs, b);
    HoldingBothAtMost(bs, a, b);
  }

  /** A basket holding a single product, however often, is that product once. */
  lemma UniqueOfRepeated(b: seq<string>, x: string)
    requires |b| > 0 && forall k :: 0 <= k < |b| ==> b[k] == x
    ensures Unique(b) == [x]
  {
    UniqueMeaning(b);
    var u := Unique(b);
    assert b[0] in b;
    forall i | 0 <= i < |u| ensures u[i] == x {
      assert u[i] in b;
    }
    assert |u| <= 1 || LexLt(u[0], u[1]);
  }

  /** An order listing one product on several rows counts towards that product but adds no
      pair. */
  lemma RepeatedItemAddsNoPair(bs: seq<seq<string>>, b: seq<string>, x: string)
    requires |b| > 1 && forall k :: 0 <= k < |b| ==> b[k] == x
    ensures Count(ItemTally(bs + [b]), x) == Count(ItemTally(bs), x) + 1
    ensures PairTally(bs + [b]) == PairTally(bs)
  {
    var all := bs + [b];
    assert all[..|all| - 1] == bs && all[|all| - 1] == b;
    UniqueOfRepeated(b, x);
    assert Pairs([x]) == [];
    IncrementAllCount(ItemTally(bs), [x], x);
  }

  // ---------------------------------------------------------------------------------------
  // `pair_counts.most_common(2 * top_n)`, the support cut-off and `head(top_n)`

  /** The order `most_common` ranks by: higher counts first. */
  function ByCount<K>(c: Counter<K>): (K, K) -> bool
  {
    (p: K, q: K) => Count(c, p) >= Count(c, q)
  }

  lemma ByCountIsTotalPreorder<K(!new)>(c: Counter<K>)
    ensures TotalPreorder(ByCount(c))
  {
  }

  /** `most_common(n)`: the `n` highest counts, ties in insertion order; nothing for `n <= 0`. */
  function MostCommon<K(!new)>(c: Counter<K>, n: int): seq<K>
  {
    if n <= 0 then []
    else
      ByCountIsTotalPreorder(c);
      var s := SortBy(c.keys, ByCount(c));
      s[..if n < |s| then n else |s|]
  }

  /** `most_common(n)` keeps `min(n, len(c))` keys of the counter, each once. */
  lemma MostCommonTop<K(!new)>(c: Counter<K>, n: int)
    ensures |MostCommon(c, n)| == if n <= 0 then 0 else if n < |c.keys| then n else |c.keys|
    ensures forall k :: 0 <= k < |MostCommon(c, n)| ==> MostCommon(c, n)[k] in c.keys
    ensures Distinct(c.keys) ==> Distinct(MostCommon(c, n))
  {
    if n > 0 {
      ByCountIsTotalPreorder(c);
      var s := SortBy(c.keys, ByCount(c));
      var m := MostCommon(c, n);
      assert m == s[..|m|];
      forall k | 0 <= k < |m| ensures m[k] in c.keys {
        assert m[k] == s[k] && s[k] in multiset(s);
      }
      if Distinct(c.keys) {
        DistinctOfPermutation(s, c.keys);
      }
    }
  }

  /** `most_common(n)` keeps the highest counts: a key it leaves out counts no more than any
      key it keeps. */
  lemma MostCommonHighest<K(!new)>(c: Counter<K>, n: int, p: K, q: K)
    ensures p in c.keys && p !in MostCommon(c, n) && q in MostCommon(c, n) ==> Count(c, p) <= Count(c, q)
  {
    var m := MostCommon(c, n);
    if n > 0 && p in c.keys && p !in m && q in m {
      ByCountIsTotalPreorder(c);
      var s := SortBy(c.keys, ByCount(c));
      assert m == s[..|m|];
      assert p in multiset(s);
      var j :| 0 <= j < |s| && s[j] == p;
      var i :| 0 <= i < |m| && m[i] == q;
      assert forall k :: 0 <= k < |m| ==> s[k] == m[k] != p;
      assert ByCount(c)(s[i], s[j]);
    }
  }

  /** Both confidences of every candidate have a non-zero denominator. */
  predicate Divisible(items: Counter<string>, cs: seq<(string, string)>)
  {
    forall k :: 0 <= k < |cs| ==> Count(items, cs[k].0) > 0 && Count(items, cs[k].1) > 0
  }

  /** The result row of pair `p`. */
  function RowOf(items: Counter<string>, pairs: Counter<(string, string)>, p: (string, string)): Association
    requires Count(items, p.0) > 0 && Count(items, p.1) > 0
  {
    var count := Count(pairs, p);
    Association(p.0, p.1, count, count as real / Count(items, p.0) as real, count as real / Count(items, p.1) as real)
  }

  /** The rows of the candidates from position `from` on, up to the first one below support
      (`break`). */
  function Supported(items: Counter<string>, pairs: Counter<(string, string)>, cs: seq<(string, string)>,
                     minSupport: int, from: nat): seq<Association>
    requires from <= |cs| && Divisible(items, cs)
    decreases |cs| - from
  {
    if from == |cs| || Count(pairs, cs[from]) < minSupport then []
    else [RowOf(items, pairs, cs[from])] + Supported(items, pairs, cs, minSupport, from + 1)
  }

  /** `DataFrame.head(n)`: the first `n` rows; for a negative `n`, all but the last `-n`. */
  function Head<T>(s: seq<T>, n: int): seq<T>
  {
    if n >= 0 then s[..if n < |s| then n else |s|]
    else s[..if |s| + n > 0 then |s| + n else 0]
  }

  lemma CandidatesCounted(bs: seq<seq<string>>, n: int)
    ensures var cs := MostCommon(PairTally(bs), n);
      && Divisible(ItemTally(bs), cs)
      && (forall k :: 0 <= k < |cs| ==> Count(PairTally(bs), cs[k]) > 0)
      && (forall i, j :: 0 <= i < j < |cs| ==> Count(PairTally(bs), cs[i]) >= Count(PairTally(bs), cs[j]))
  {
    var pairs := PairTally(bs);
    var cs := MostCommon(pairs, n);
    TalliesTidy(bs);
    if n > 0 {
      ByCountIsTotalPreorder(pairs);
      var s := SortBy(pairs.keys, ByCount(pairs));
      assert cs == s[..|cs|];
      forall k | 0 <= k < |cs|
        ensures Count(pairs, cs[k]) > 0
        ensures Count(ItemTally(bs), cs[k].0) > 0 && Count(ItemTally(bs), cs[k].1) > 0
      {
        assert cs[k] == s[k];
        assert s[k] in multiset(s);
        assert cs[k] in pairs.keys;
        PairCountsBounded(bs, cs[k].0, cs[k].1);
      }
      forall i, j | 0 <= i < j < |cs| ensures Count(pairs, cs[i]) >= Count(pairs, cs[j]) {
        assert ByCount(pairs)(s[i], s[j]);
      }
    }
  }

  /** The result for the qualifying baskets `bs`: the rows of the `2 * top_n` most common
      pairs down to the first one below support, cut to `top_n`. */
  function Ranked(bs: seq<seq<string>>, minSupport: int, topN: int): seq<Association>
  {
    Head(Kept(bs, minSupport, 2 * topN), topN)
  }

  /** The rows of the `n` most common pairs down to the first one below support. */
  function Kept(bs: seq<seq<string>>, minSupport: int, n: int): seq<Association>
  {
    CandidatesCounted(bs, n);
    Supported(ItemTally(bs), PairTally(bs), MostCommon(PairTally(bs), n), minSupport, 0)
  }

  /** `analyze_associations(df, min_support, top_n)`. */
  function Associations(rows: seq<Row>, minSupport: int, topN: int): seq<Association>
  {
    var bs := Baskets(rows);
    if |bs| == 0 then [] else Ranked(bs, minSupport, topN)
  }

  lemma {:induction false} SupportedRows(items: Counter<string>, pairs: Counter<(string, string)>, cs: seq<(string, string)>,
                                         minSupport: int, from: nat)
    requires from <= |cs| && Divisible(items, cs)
    ensures var r := Supported(items, pairs, cs, minSupport, from);
      && from + |r| <= |cs|
      && (forall k :: 0 <= k < |r| ==>
           r[k] == RowOf(items, pairs, cs[from + k]) && Count(pairs, cs[from + k]) >= minSupport)
      && (from + |r| == |cs| || Count(pairs, cs[from + |r|]) < minSupport)
    decreases |cs| - from
  {
    if from < |cs| && Count(pairs, cs[from]) >= minSupport {
      SupportedRows(items, pairs, cs, minSupport, from + 1);
      var r := Supported(items, pairs, cs, minSupport, from);
      var rest := Supported(items, pairs, cs, minSupport, from + 1);
      assert r == [RowOf(items, pairs, cs[from])] + rest;
      forall k | 0 <= k < |r|
        ensures r[k] == RowOf(items, pairs, cs[from + k]) && Count(pairs, cs[from + k]) >= minSupport
      {
        if k > 0 {
          assert r[k] == rest[k - 1];
        }
      }
    }
  }

  /** What a result row states about the baskets `bs`: a pair `a < b` bought together in
      `co_occurrence >= min_support` baskets, and each confidence that count over the baskets
      holding the first (resp. second) product, so in (0, 1]. */
  predicate Sound(bs: seq<seq<string>>, minSupport: int, r: Association)
  {
    && LexLt(r.itemA, r.itemB)
    && r.coOccurrence >= minSupport
    && r.coOccurrence == HoldingBoth(bs, r.itemA, r.itemB) > 0
    && Holding(bs, r.itemA) > 0 && Holding(bs, r.itemB) > 0
    && r.confAB == r.coOccurrence as real / Holding(bs, r.itemA) as real
    && r.confBA == r.coOccurrence as real / Holding(bs, r.itemB) as real
    && 0.0 < r.confAB <= 1.0 && 0.0 < r.confBA <= 1.0
  }

  lemma RowSound(bs: seq<seq<string>>, minSupport: int, p: (string, string))
    requires Count(PairTally(bs), p) > 0 && Count(PairTally(bs), p) >= minSupport
    ensures Count(ItemTally(bs), p.0) > 0 && Count(ItemTally(bs), p.1) > 0
    ensures Sound(bs, minSupport, RowOf(ItemTally(bs), PairTally(bs), p))
  {
    var items := ItemTally(bs);
    var pairs := PairTally(bs);
    PairCountsBounded(bs, p.0, p.1);
    PairTallyCount(bs, p.0, p.1);
    ItemTallyCount(bs, p.0);
    ItemTallyCount(bs, p.1);
    Values.QuotientWithinOne(Count(pairs, p) as real, Count(items, p.0) as real);
    Values.QuotientWithinOne(Count(pairs, p) as real, Count(items, p.1) as real);
  }

  lemma HeadIsPrefix<T>(s: seq<T>, n: int)
    ensures |Head(s, n)| <= |s| && (n >= 0 ==> |Head(s, n)| <= n)
    ensures forall k :: 0 <= k < |Head(s, n)| ==> Head(s, n)[k] == s[k]
  {
  }

  /** The candidates behind the ranked rows: row `k` is the row of candidate `k`, which has
      support. */
  lemma RankedFromCandidates(bs: seq<seq<string>>, minSupport: int, topN: int)
    ensures var cs := MostCommon(PairTally(bs), 2 * topN);
      var res := Ranked(bs, minSupport, topN);
      && Divisible(ItemTally(bs), cs)
      && |res| <= |cs| && (res == [] || |res| <= topN)
      && forall k :: 0 <= k < |res| ==>
           res[k] == RowOf(ItemTally(bs), PairTally(bs), cs[k]) && Count(PairTally(bs), cs[k]) >= minSupport
  {
    var items := ItemTally(bs);
    var pairs := PairTally(bs);
    var cs := MostCommon(pairs, 2 * topN);
    CandidatesCounted(bs, 2 * topN);
    var sup := Supported(items, pairs, cs, minSupport, 0);
    SupportedRows(items, pairs, cs, minSupport, 0);
    HeadIsPrefix(sup, topN);
    if topN <= 0 {
      assert cs == [];
    }
  }

  /** At most `top_n` rows, in non-increasing co-occurrence. */
  lemma RankedOrdered(bs: seq<seq<string>>, minSupport: int, topN: int)
    ensures var res := Ranked(bs, minSupport, topN);
      && (res == [] || |res| <= topN)
      && forall i, j :: 0 <= i < j < |res| ==> res[i].coOccurrence >= res[j].coOccurrence
  {
    var cs := MostCommon(PairTally(bs), 2 * topN);
    var res := Ranked(bs, minSupport, topN);
    RankedFromCandidates(bs, minSupport, topN);
    CandidatesCounted(bs, 2 * topN);
    forall i, j | 0 <= i < j < |res| ensures res[i].coOccurrence >= res[j].coOccurrence {
      assert res[i].coOccurrence == Count(PairTally(bs), cs[i]);
      assert res[j].coOccurrence == Count(PairTally(bs), cs[j]);
    }
  }

  /** Every ranked row is sound. */
  lemma RankedSound(bs: seq<seq<string>>, minSupport: int, topN: int)
    ensures var res := Ranked(bs, minSupport, topN);
      forall k :: 0 <= k < |res| ==> Sound(bs, minSupport, res[k])
  {
    var cs := MostCommon(PairTally(bs), 2 * topN);
    var res := Ranked(bs, minSupport, topN);
    RankedFromCandidates(bs, minSupport, topN);
    CandidatesCounted(bs, 2 * topN);
    forall k | 0 <= k < |res| ensures Sound(bs, minSupport, res[k]) {
      RowSound(bs, minSupport, cs[k]);
    }
  }

  // ---------------------------------------------------------------------------------------
  // How many rows, and which supported pairs they leave out

  /** The keys counted at least `m` times. */
  function Above<K(!new)>(c: Counter<K>, m: int): set<K>
  {
    set p | p in c.keys && Count(c, p) >= m
  }

  /** A ranking of counted keys: no key twice, counts running down, and no key left out
      counting more than a key it holds. */
  ghost predicate RanksBy<K(!new)>(c: Counter<K>, cs: seq<K>)
  {
    && Distinct(cs)
    && (forall k :: 0 <= k < |cs| ==> cs[k] in c.keys)
    && (forall i, j :: 0 <= i < j < |cs| ==> Count(c, cs[i]) >= Count(c, cs[j]))
    && (forall p, q :: p in c.keys && p !in cs && q in cs ==> Count(c, p) <= Count(c, q))
  }

  lemma MostCommonRanks<K(!new)>(c: Counter<K>, n: int)
    requires Distinct(c.keys)
    ensures RanksBy(c, MostCommon(c, n))
  {
    var m := MostCommon(c, n);
    MostCommonTop(c, n);
    forall p, q ensures p in c.keys && p !in m && q in m ==> Count(c, p) <= Count(c, q) {
      MostCommonHighest(c, n, p, q);
    }
    if n > 0 {
      ByCountIsTotalPreorder(c);
      var s := SortBy(c.keys, ByCount(c));
      assert m == s[..|m|];
      forall i, j | 0 <= i < j < |m| ensures Count(c, m[i]) >= Count(c, m[j]) {
        assert ByCount(c)(s[i], s[j]);
      }
    }
  }

  lemma {:induction false} DistinctCard<T>(s: seq<T>)
    requires Distinct(s)
    ensures |set x | x in s| == |s|
  {
    if |s| > 0 {
      var init := s[..|s| - 1];
      assert Distinct(init);
      DistinctCard(init);
      assert (set x | x in s) == (set x | x in init) + {s[|s| - 1]};
      assert forall k :: 0 <= k < |init| ==> init[k] == s[k] != s[|s| - 1];
    }
  }

  lemma SubsetCard<T>(a: set<T>, b: set<T>)
    requires a <= b
    ensures |a| <= |b|
  {
    assert b == a + (b - a);
    assert a * (b - a) == {};
  }

  /** Cutting a ranking at its first key counted less than `m` keeps every key counted at
      least `m` times, unless the ranking runs out first. */
  lemma CutCount<K(!new)>(c: Counter<K>, cs: seq<K>, j: nat, m: int)
    requires RanksBy(c, cs) && j <= |cs|
    requires forall k :: 0 <= k < j ==> Count(c, cs[k]) >= m
    requires j < |cs| ==> Count(c, cs[j]) < m
    ensures j == if |cs| < |Above(c, m)| then |cs| else |Above(c, m)|
  {
    var front := set x | x in cs[..j];
    assert Distinct(cs[..j]);
    DistinctCard(cs[..j]);
    forall x | x in front ensures x in Above(c, m) {
      var i :| 0 <= i < j && cs[i] == x;
    }
    SubsetCard(front, Above(c, m));
    if j < |cs| {
      forall p | p in Above(c, m) ensures p in front {
        assert cs[j] in cs;
        var i :| 0 <= i < |cs| && cs[i] == p;
        assert cs[..j][i] == p;
      }
      assert front == Above(c, m);
    }
  }

  /** A counted key missing from the first `j` keys of a ranking counts no more than the
      `j`-th. */
  lemma LeftOutBelow<K(!new)>(c: Counter<K>, cs: seq<K>, j: nat, p: K)
    requires RanksBy(c, cs) && 0 < j <= |cs|
    requires p in c.keys && forall k :: 0 <= k < j ==> cs[k] != p
    ensures Count(c, p) <= Count(c, cs[j - 1])
  {
    assert cs[j - 1] in cs;
    if p in cs {
      var i :| 0 <= i < |cs| && cs[i] == p;
    }
  }

  /** The pairs counted at least `min_support` times. */
  function SupportedPairs(bs: seq<seq<string>>, minSupport: int): set<(string, string)>
  {
    Above(PairTally(bs), minSupport)
  }

  /** A pair has support exactly when its products are ordered `a < b` and bought together
      in at least one and at least `min_support` baskets. */
  lemma SupportedPairsMembers(bs: seq<seq<string>>, minSupport: int, a: string, b: string)
    ensures (a, b) in SupportedPairs(bs, minSupport)
        <==> LexLt(a, b) && 0 < HoldingBoth(bs, a, b) && minSupport <= HoldingBoth(bs, a, b)
  {
    TalliesTidy(bs);
    PairTallyCount(bs, a, b);
  }

  /** The pair a result row is about. */
  function PairOf(r: Association): (string, string)
  {
    (r.itemA, r.itemB)
  }

  /** The candidates run down in count, so the rows before the `break` are one per supported
      pair, all of them unless the `n` candidates run out first. */
  lemma KeptCount(bs: seq<seq<string>>, minSupport: int, n: int)
    ensures |Kept(bs, minSupport, n)|
         == var c := |MostCommon(PairTally(bs), n)|; var sp := |SupportedPairs(bs, minSupport)|;
            if c < sp then c else sp
  {
    var pairs := PairTally(bs);
    var cs := MostCommon(pairs, n);
    TalliesTidy(bs);
    MostCommonRanks(pairs, n);
    CandidatesCounted(bs, n);
    var r := Supported(ItemTally(bs), pairs, cs, minSupport, 0);
    assert r == Kept(bs, minSupport, n);
    SupportedRows(ItemTally(bs), pairs, cs, minSupport, 0);
    forall k | 0 <= k < |r| ensures Count(pairs, cs[k]) >= minSupport {
      assert r[k] == RowOf(ItemTally(bs), pairs, cs[0 + k]);
    }
    CutCount(pairs, cs, |r|, minSupport);
  }

  /** `top_n > 0` rows unless fewer pairs have support. */
  lemma RankedSize(bs: seq<seq<string>>, minSupport: int, topN: int)
    ensures var sp := SupportedPairs(bs, minSupport);
      |Ranked(bs, minSupport, topN)| == if topN <= 0 then 0 else if topN < |sp| then topN else |sp|
  {
    var pairs := PairTally(bs);
    TalliesTidy(bs);
    MostCommonTop(pairs, 2 * topN);
    KeptCount(bs, minSupport, 2 * topN);
    HeadIsPrefix(Kept(bs, minSupport, 2 * topN), topN);
    DistinctCard(pairs.keys);
    SubsetCard(SupportedPairs(bs, minSupport), set x | x in pairs.keys);
  }

  /** One row per supported pair, and any supported pair left out counts no more than the
      last row. */
  lemma RankedPairs(bs: seq<seq<string>>, minSupport: int, topN: int)
    ensures var res := Ranked(bs, minSupport, topN); var sp := SupportedPairs(bs, minSupport);
      && (forall k :: 0 <= k < |res| ==> PairOf(res[k]) in sp)
      && (forall i, j :: 0 <= i < j < |res| ==> PairOf(res[i]) != PairOf(res[j]))
      && (|res| > 0 ==> forall p :: p in sp && (forall k :: 0 <= k < |res| ==> PairOf(res[k]) != p) ==>
            Count(PairTally(bs), p) <= res[|res| - 1].coOccurrence)
  {
    var pairs := PairTally(bs);
    var cs := MostCommon(pairs, 2 * topN);
    var res := Ranked(bs, minSupport, topN);
    TalliesTidy(bs);
    MostCommonRanks(pairs, 2 * topN);
    RankedFromCandidates(bs, minSupport, topN);
    forall k | 0 <= k < |res| ensures PairOf(res[k]) == cs[k] {
    }
    forall p | |res| > 0 && p in SupportedPairs(bs, minSupport) && (forall k :: 0 <= k < |res| ==> PairOf(res[k]) != p)
      ensures Count(pairs, p) <= res[|res| - 1].coOccurrence
    {
      LeftOutBelow(pairs, cs, |res|, p);
    }
  }

  /** What the rows `res` say about the baskets `bs`: `top_n` rows unless fewer pairs have
      support, in non-increasing co-occurrence, each sound and about its own pair, and no
      supported pair left out bought together more often than the last row's. */
  ghost predicate RankedRows(bs: seq<seq<string>>, minSupport: int, topN: int, res: seq<Association>)
  {
    var sp := SupportedPairs(bs, minSupport);
    && |res| == (if topN <= 0 then 0 else if topN < |sp| then topN else |sp|)
    && (forall i, j :: 0 <= i < j < |res| ==> res[i].coOccurrence >= res[j].coOccurrence)
    && (forall k :: 0 <= k < |res| ==> Sound(bs, minSupport, res[k]))
    && (forall i, j :: 0 <= i < j < |res| ==> PairOf(res[i]) != PairOf(res[j]))
    && (|res| > 0 ==> forall a, b ::
          LexLt(a, b) && 0 < HoldingBoth(bs, a, b) && minSupport <= HoldingBoth(bs, a, b)
          && (forall k :: 0 <= k < |res| ==> PairOf(res[k]) != (a, b))
          ==> HoldingBoth(bs, a, b) <= res[|res| - 1].coOccurrence)
  }

  /** No supported pair left out is bought together more often than the last row's pair. */
  lemma RankedLeftOut(bs: seq<seq<string>>, minSupport: int, topN: int)
    ensures var res := Ranked(bs, minSupport, topN);
      |res| > 0 ==> forall a, b ::
        LexLt(a, b) && 0 < HoldingBoth(bs, a, b) && minSupport <= HoldingBoth(bs, a, b)
        && (forall k :: 0 <= k < |res| ==> PairOf(res[k]) != (a, b))
        ==> HoldingBoth(bs, a, b) <= res[|res| - 1].coOccurrence
  {
    var res := Ranked(bs, minSupport, topN);
    RankedPairs(bs, minSupport, topN);
    forall a, b | |res| > 0 && LexLt(a, b) && 0 < HoldingBoth(bs, a, b) && minSupport <= HoldingBoth(bs, a, b)
        && (forall k :: 0 <= k < |res| ==> PairOf(res[k]) != (a, b))
      ensures HoldingBoth(bs, a, b) <= res[|res| - 1].coOccurrence
    {
      SupportedPairsMembers(bs, minSupport, a, b);
      PairTallyCount(bs, a, b);
      assert (a, b) in SupportedPairs(bs, minSupport);
      assert Count(PairTally(bs), (a, b)) <= res[|res| - 1].coOccurrence;
    }
  }

  lemma RankedMeaning(bs: seq<seq<string>>, minSupport: int, topN: int)
    ensures RankedRows(bs, minSupport, topN, Ranked(bs, minSupport, topN))
  {
    RankedOrdered(bs, minSupport, topN);
    RankedSound(bs, minSupport, topN);
    RankedSize(bs, minSupport, topN);
    RankedPairs(bs, minSupport, topN);
    RankedLeftOut(bs, minSupport, topN);
  }

  /** What `analyze_associations` returns: nothing when no order number occurs on two rows,
      and in every case the ranked rows of the baskets of the orders with more than one
      row. */
  lemma AssociationsMeaning(rows: seq<Row>, minSupport: int, topN: int)
    ensures var res := Associations(rows, minSupport, topN);
      && ((forall i, j :: 0 <= i < j < |rows| ==> rows[i].order != rows[j].order) ==> res == [])
      && RankedRows(Baskets(rows), minSupport, topN, res)
  {
    var bs := Baskets(rows);
    BasketsQualify(rows);
    if |bs| == 0 {
      assert SupportedPairs(bs, minSupport) == {};
    } else {
      RankedMeaning(bs, minSupport, topN);
    }
  }

  /** `analyze_associations`: the counting loops, then the rows of the most common pairs. */
  method AnalyzeAssociations(rows: seq<Row>, minSupport: int, topN: int) returns (res: seq<Association>)
    ensures res == Associations(rows, minSupport, topN)
  {
    var baskets := Baskets(rows);
    if |baskets| == 0 {
      return [];
    }
    var itemCounts, pairCounts := TallyBaskets(baskets);
    var candidates := MostCommon(pairCounts, 2 * topN);
    CandidatesCounted(baskets, 2 * topN);
    var results := CollectSupported(itemCounts, pairCounts, candidates, minSupport);
    res := Head(results, topN);
  }

  /** The loop over the baskets, counting each distinct product and each pair of them. */
  method TallyBaskets(baskets: seq<seq<string>>) returns (itemCounts: Counter<string>, pairCounts: Counter<(string, string)>)
    ensures itemCounts == ItemTally(baskets) && pairCounts == PairTally(baskets)
  {
    itemCounts, pairCounts := Counter(map[], []), Counter(map[], []);
    var i := 0;
    while i < |baskets|
      invariant 0 <= i <= |baskets|
      invariant itemCounts == ItemTally(baskets[..i])
      invariant pairCounts == PairTally(baskets[..i])
    {
      var unique := Unique(baskets[i]);
      itemCounts := CountEach(itemCounts, unique);
      pairCounts := CountEach(pairCounts, Pairs(unique));
      assert baskets[..i + 1][..i] == baskets[..i];
      i := i + 1;
    }
    assert baskets[..i] == baskets;
  }

  /** The loop over the candidates that appends a row per pair and stops (`break`) at the
      first pair below support. */
  method CollectSupported(itemCounts: Counter<string>, pairCounts: Counter<(string, string)>,
                          candidates: seq<(string, string)>, minSupport: int) returns (results: seq<Association>)
    requires Divisible(itemCounts, candidates)
    ensures results == Supported(itemCounts, pairCounts, candidates, minSupport, 0)
  {
    results := [];
    var k := 0;
    while k < |candidates|
      invariant 0 <= k <= |candidates|
      invariant results + Supported(itemCounts, pairCounts, candidates, minSupport, k)
             == Supported(itemCounts, pairCounts, candidates, minSupport, 0)
      decreases |candidates| - k
    {
      var p := candidates[k];
      var count := Count(pairCounts, p);
      if count < minSupport {
        break;
      }
      assert Supported(itemCounts, pairCounts, candidates, minSupport, k)
          == [RowOf(itemCounts, pairCounts, p)] + Supported(itemCounts, pairCounts, candidates, minSupport, k + 1);
      results := results + [Association(p.0, p.1, count, count as real / Count(itemCounts, p.0) as real,
                                        count as real / Count(itemCounts, p.1) as real)];
      k := k + 1;
    }
  }

  /** The `+= 1` loop over the keys of one basket. */
  method CountEach<K>(c: Counter<K>, ks: seq<K>) returns (r: Counter<K>)
    ensures r == IncrementAll(c, ks)
  {
    var counts, keys := c.counts, c.keys;
    for j := 0 to |ks|
      invariant Counter(counts, keys) == IncrementAll(c, ks[..j])
    {
      var k := ks[j];
      if k in counts {
        counts := counts[k := counts[k] + 1];
      } else {
        keys := keys + [k];
        counts := counts[k := 1];
      }
      assert ks[..j + 1][..j] == ks[..j];
    }
    assert ks[..|ks|] == ks;
    r := Counter(counts, keys);
  }
}
