/**
 * Python's `collections.Counter` as the report scripts use it: an
 * insertion-ordered dictionary from keys to integer counts, where reading a
 * missing key gives 0 and `c[k] += n` appends a new key at the end, and
 * `most_common(n)`, which sorts the items by descending count, keeps items
 * of equal count in insertion order (the sort is stable) and takes the
 * first `n`.
 */
module Counters {
  import opened PyText

  /** The items of a counter, in insertion order. Every counter of the
      scripts is keyed by strings (statuses, reasons, test names). */
  type Counter = seq<(string, int)>

  function Keys(c: Counter): (ks: seq<string>)
    ensures |ks| == |c| && forall i :: 0 <= i < |c| ==> ks[i] == c[i].0
  {
    seq(|c|, i requires 0 <= i < |c| => c[i].0)
  }

  /** No key occurs twice, as in any Python dictionary. */
  predicate DistinctKeys(c: Counter) {
    forall i, j :: 0 <= i < j < |c| ==> c[i].0 != c[j].0
  }

  /** `c[k]`: the count of `k`, and 0 for a key that was never added. */
  function Get(c: Counter, k: string): int {
    if c == [] then 0 else if c[0].0 == k then c[0].1 else Get(c[1..], k)
  }

  /** `sum(c.values())`. */
  function Total(c: Counter): int {
    if c == [] then 0 else c[0].1 + Total(c[1..])
  }

  /** `c[k] += n`: the count of `k` grows by `n` and no other count changes;
      a key not yet present is appended, so keys stay in insertion order. */
  function Add(c: Counter, k: string, n: int): (r: Counter)
    ensures forall k' :: Get(r, k') == Get(c, k') + (if k' == k then n else 0)
    ensures Keys(r) == if k in Keys(c) then Keys(c) else Keys(c) + [k]
  {
    if c == [] then [(k, n)]
    else if c[0].0 == k then [(k, c[0].1 + n)] + c[1..]
    else [c[0]] + Add(c[1..], k, n)
  }

  /** `c[k] += n` adds `n` to the sum of the counts. */
  lemma {:induction false} AddTotal(c: Counter, k: string, n: int)
    ensures Total(Add(c, k, n)) == Total(c) + n
  {
    if c != [] && c[0].0 != k {
      AddTotal(c[1..], k, n);
    }
  }

  /** `c[k] += n` keeps the keys distinct. */
  lemma AddDistinct(c: Counter, k: string, n: int)
    requires DistinctKeys(c)
    ensures DistinctKeys(Add(c, k, n))
  {
    var r := Add(c, k, n);
    forall i, j | 0 <= i < j < |r| ensures r[i].0 != r[j].0 {
      assert r[i].0 == Keys(r)[i] && r[j].0 == Keys(r)[j];
      if j < |c| {
        assert Keys(r)[i] == c[i].0 && Keys(r)[j] == c[j].0;
      } else {
        assert k !in Keys(c) && Keys(r)[i] == Keys(c)[i];
      }
    }
  }

  /** A key that was never added reads as 0. */
  lemma {:induction false} GetAbsent(c: Counter, k: string)
    requires k !in Keys(c)
    ensures Get(c, k) == 0
  {
    if c != [] {
      assert c[0].0 == Keys(c)[0];
      assert Keys(c[1..]) == Keys(c)[1..];
      GetAbsent(c[1..], k);
    }
  }

  /** Reading a key of a counter with one more item at the end. */
  lemma {:induction false} GetAppend(c: Counter, e: (string, int), k: string)
    ensures Get(c + [e], k) == if k in Keys(c) then Get(c, k) else if e.0 == k then e.1 else 0
  {
    if c != [] {
      assert (c + [e])[1..] == c[1..] + [e];
      assert Keys(c[1..]) == Keys(c)[1..];
      assert Keys(c) == [c[0].0] + Keys(c[1..]);
      GetAppend(c[1..], e, k);
    }
  }

  /** `for k, v in c.items(): acc[k] += v`. */
  function AddAll(acc: Counter, c: Counter): Counter {
    if c == [] then acc else Add(AddAll(acc, c[..|c| - 1]), c[|c| - 1].0, c[|c| - 1].1)
  }

  /** The sum of the values of the items of `c` with key `k`. */
  function SumFor(c: Counter, k: string): int {
    if c == [] then 0 else SumFor(c[..|c| - 1], k) + (if c[|c| - 1].0 == k then c[|c| - 1].1 else 0)
  }

  /** Merging adds, for every key, the values of all its items. */
  lemma {:induction false} AddAllGet(acc: Counter, c: Counter, k: string)
    ensures Get(AddAll(acc, c), k) == Get(acc, k) + SumFor(c, k)
  {
    if c != [] {
      AddAllGet(acc, c[..|c| - 1], k);
    }
  }

  /** In a counter without repeated keys, a key's items sum to its count. */
  lemma {:induction false} SumForDistinct(c: Counter, k: string)
    requires DistinctKeys(c)
    ensures SumFor(c, k) == Get(c, k)
  {
    if c != [] {
      var init, e := c[..|c| - 1], c[|c| - 1];
      assert c == init + [e];
      SumForDistinct(init, k);
      GetAppend(init, e, k);
      if k !in Keys(init) {
        GetAbsent(init, k);
      }
    }
  }

  /** Merging a counter without repeated keys adds its counts. */
  lemma AddAllDistinct(acc: Counter, c: Counter, k: string)
    requires DistinctKeys(c)
    ensures Get(AddAll(acc, c), k) == Get(acc, k) + Get(c, k)
  {
    AddAllGet(acc, c, k);
    SumForDistinct(c, k);
  }

  /** The index of the first occurrence of `k` in `xs`. */
  function FirstIndex(xs: seq<string>, k: string): (i: nat)
    requires k in xs
    ensures i < |xs| && xs[i] == k && k !in xs[..i]
  {
    if xs[0] == k then 0 else 1 + FirstIndex(xs[1..], k)
  }

  /** `ks` holds exactly the values of `xs`, each once, in the order of
      their first occurrence in `xs`. */
  ghost predicate FirstSeenOrder(ks: seq<string>, xs: seq<string>) {
    && (forall k :: k in ks <==> k in xs)
    && (forall i, j :: 0 <= i < j < |ks| ==> FirstIndex(xs, ks[i]) < FirstIndex(xs, ks[j]))
  }

  /** Keys listed in first-seen order are distinct. */
  lemma FirstSeenDistinct(ks: seq<string>, xs: seq<string>)
    requires FirstSeenOrder(ks, xs)
    ensures forall a, b :: 0 <= a < b < |ks| ==> ks[a] != ks[b]
  {
  }

  /** A key listed before another in first-seen order occurs first. */
  lemma FirstSeenBefore(ks: seq<string>, xs: seq<string>, x: string, y: string)
    requires FirstSeenOrder(ks, xs)
    requires x in ks && y in ks && FirstIndex(ks, x) < FirstIndex(ks, y)
    ensures x in xs && y in xs && FirstIndex(xs, x) < FirstIndex(xs, y)
  {
    assert ks[FirstIndex(ks, x)] == x && ks[FirstIndex(ks, y)] == y;
  }

  lemma FirstIndexAppend(xs: seq<string>, x: string, k: string)
    requires k in xs + [x]
    ensures k in xs ==> FirstIndex(xs + [x], k) == FirstIndex(xs, k)
    ensures k !in xs ==> FirstIndex(xs + [x], k) == |xs|
  {
    if k in xs {
      assert (xs + [x])[FirstIndex(xs, k)] == k;
    }
  }

  /** `Counter(xs)`: `c[x] += 1` for each value of `xs` in turn. */
  function CountOf(xs: seq<string>): Counter {
    if xs == [] then [] else Add(CountOf(xs[..|xs| - 1]), xs[|xs| - 1], 1)
  }

  /** `Counter(xs)` has one key per distinct value of `xs`, counting its
      occurrences; the counts add up to `|xs|`. */
  lemma {:induction false} CountOfCounts(xs: seq<string>)
    ensures DistinctKeys(CountOf(xs))
    ensures forall k :: Get(CountOf(xs), k) == multiset(xs)[k]
    ensures Total(CountOf(xs)) == |xs|
  {
    if xs != [] {
      var init, x := xs[..|xs| - 1], xs[|xs| - 1];
      assert xs == init + [x];
      CountOfCounts(init);
      AddTotal(CountOf(init), x, 1);
      AddDistinct(CountOf(init), x, 1);
    }
  }

  /** A value seen before leaves the first-seen order unchanged. */
  lemma FirstSeenRepeat(ks: seq<string>, xs: seq<string>, x: string)
    requires FirstSeenOrder(ks, xs) && x in xs
    ensures FirstSeenOrder(ks, xs + [x])
  {
    forall k | k in xs ensures FirstIndex(xs + [x], k) == FirstIndex(xs, k) {
      FirstIndexAppend(xs, x, k);
    }
    forall k ensures k in ks <==> k in xs + [x] {
      if k in xs + [x] && k != x { assert k in xs; }
    }
  }

  /** A new value goes to the end of the first-seen order. */
  lemma FirstSeenNew(ks: seq<string>, xs: seq<string>, x: string)
    requires FirstSeenOrder(ks, xs) && x !in xs
    ensures FirstSeenOrder(ks + [x], xs + [x])
  {
    forall k | k in xs ensures FirstIndex(xs + [x], k) == FirstIndex(xs, k) {
      FirstIndexAppend(xs, x, k);
    }
    FirstIndexAppend(xs, x, x);
    var ks' := ks + [x];
    forall k ensures k in ks' <==> k in xs + [x] {
      if k in xs + [x] && k != x { assert k in xs; }
      if k in ks' && k != x { assert k in ks; }
    }
    forall i, j | 0 <= i < j < |ks'| ensures FirstIndex(xs + [x], ks'[i]) < FirstIndex(xs + [x], ks'[j]) {
      assert ks'[i] == ks[i] && ks[i] in xs;
      if j < |ks| {
        assert ks'[j] == ks[j] && ks[j] in xs;
      }
    }
  }

  /** The keys of `Counter(xs)` are the values of `xs` in first-seen order. */
  lemma {:induction false} CountOfOrder(xs: seq<string>)
    ensures FirstSeenOrder(Keys(CountOf(xs)), xs)
  {
    if xs != [] {
      var init, x := xs[..|xs| - 1], xs[|xs| - 1];
      assert xs == init + [x];
      CountOfOrder(init);
      assert CountOf(xs) == Add(CountOf(init), x, 1);
      if x in init {
        FirstSeenRepeat(Keys(CountOf(init)), init, x);
      } else {
        FirstSeenNew(Keys(CountOf(init)), init, x);
      }
    }
  }

  /** Counting one more value is `c[x] += 1`. */
  lemma CountOfAppend(xs: seq<string>, x: string)
    ensures CountOf(xs + [x]) == Add(CountOf(xs), x, 1)
  {
    assert (xs + [x])[..|xs|] == xs;
  }

  /** The items whose count is `v`, in their order in `c`. */
  function WithCount(c: Counter, v: int): Counter {
    if c == [] then [] else (if c[0].1 == v then [c[0]] else []) + WithCount(c[1..], v)
  }

  lemma {:induction false} WithCountAppend(c: Counter, e: (string, int), v: int)
    ensures WithCount(c + [e], v) == WithCount(c, v) + (if e.1 == v then [e] else [])
  {
    if c != [] {
      assert (c + [e])[1..] == c[1..] + [e];
      WithCountAppend(c[1..], e, v);
    }
  }

  lemma {:induction false} WithCountPrefix(t: Counter, c: Counter, v: int)
    requires t <= c
    ensures WithCount(t, v) <= WithCount(c, v)
  {
    if t != [] {
      assert t[1..] <= c[1..];
      WithCountPrefix(t[1..], c[1..], v);
    }
  }

  /** Counts never increase from left to right. */
  predicate SortedDesc(c: Counter) {
    forall i, j :: 0 <= i < j < |c| ==> c[i].1 >= c[j].1
  }

  /** Puts `e` after every item whose count is at least `e`'s. */
  function InsertByCount(e: (string, int), c: Counter): Counter {
    if c == [] then [e]
    else if c[0].1 >= e.1 then [c[0]] + InsertByCount(e, c[1..])
    else [e] + c
  }

  lemma NoneWithCount(c: Counter, v: int)
    requires forall i :: 0 <= i < |c| ==> c[i].1 < v
    ensures WithCount(c, v) == []
  {
    if c != [] { NoneWithCount(c[1..], v); }
  }

  lemma {:induction false} InsertByCountItems(e: (string, int), c: Counter)
    ensures multiset(InsertByCount(e, c)) == multiset(c) + multiset{e}
    ensures |InsertByCount(e, c)| == |c| + 1
    ensures Total(InsertByCount(e, c)) == Total(c) + e.1
  {
    if c != [] && c[0].1 >= e.1 {
      InsertByCountItems(e, c[1..]);
      assert c == [c[0]] + c[1..];
    }
  }

  /** Inserting keeps every count at or below a bound the inputs respect. */
  lemma {:induction false} InsertByCountBelow(e: (string, int), c: Counter, v: int)
    requires e.1 <= v && forall i :: 0 <= i < |c| ==> c[i].1 <= v
    ensures forall j :: 0 <= j < |InsertByCount(e, c)| ==> InsertByCount(e, c)[j].1 <= v
  {
    if c != [] && c[0].1 >= e.1 {
      InsertByCountBelow(e, c[1..], v);
      var r := InsertByCount(e, c);
      forall j | 0 <= j < |r| ensures r[j].1 <= v {
        if j > 0 { assert r[j] == InsertByCount(e, c[1..])[j - 1]; }
      }
    }
  }

  lemma {:induction false} InsertByCountSorted(e: (string, int), c: Counter)
    requires SortedDesc(c)
    ensures SortedDesc(InsertByCount(e, c))
  {
    if c != [] && c[0].1 >= e.1 {
      var rest := InsertByCount(e, c[1..]);
      assert SortedDesc(c[1..]);
      InsertByCountSorted(e, c[1..]);
      InsertByCountBelow(e, c[1..], c[0].1);
      var r := InsertByCount(e, c);
      assert r == [c[0]] + rest;
      forall a, b | 0 <= a < b < |r| ensures r[a].1 >= r[b].1 {
        assert r[b] == rest[b - 1];
        if a > 0 { assert r[a] == rest[a - 1]; }
      }
    }
  }

  lemma {:induction false} InsertByCountStable(e: (string, int), c: Counter, v: int)
    requires SortedDesc(c)
    ensures WithCount(InsertByCount(e, c), v) == WithCount(c, v) + (if e.1 == v then [e] else [])
  {
    if c != [] {
      if c[0].1 >= e.1 {
        var rest := InsertByCount(e, c[1..]);
        assert SortedDesc(c[1..]);
        InsertByCountStable(e, c[1..], v);
        var all := [c[0]] + rest;
        assert all[0] == c[0] && all[1..] == rest;
        assert WithCount(all, v) == (if c[0].1 == v then [c[0]] else []) + WithCount(rest, v);
      } else if e.1 == v {
        NoneWithCount(c, v);
      }
    }
  }

  /** The stable sort by descending count that `most_common` performs. */
  function SortByCount(c: Counter): Counter {
    if c == [] then [] else InsertByCount(c[|c| - 1], SortByCount(c[..|c| - 1]))
  }

  /** The sort orders by descending count, keeps exactly the items of `c`
      with their total, and is stable: the items of any one count keep
      their relative order from `c`. */
  lemma {:induction false} SortByCountSpec(c: Counter)
    ensures SortedDesc(SortByCount(c))
    ensures multiset(SortByCount(c)) == multiset(c) && |SortByCount(c)| == |c|
    ensures forall v :: WithCount(SortByCount(c), v) == WithCount(c, v)
    ensures Total(SortByCount(c)) == Total(c)
  {
    if c != [] {
      var init, e := c[..|c| - 1], c[|c| - 1];
      assert c == init + [e];
      SortByCountSpec(init);
      InsertByCountItems(e, SortByCount(init));
      InsertByCountSorted(e, SortByCount(init));
      forall v ensures WithCount(SortByCount(c), v) == WithCount(c, v) {
        InsertByCountStable(e, SortByCount(init), v);
        WithCountAppend(init, e, v);
      }
      TotalAppend(init, e);
    }
  }

  lemma {:induction false} TotalAppend(c: Counter, e: (string, int))
    ensures Total(c + [e]) == Total(c) + e.1
  {
    if c != [] {
      assert (c + [e])[1..] == c[1..] + [e];
      TotalAppend(c[1..], e);
    }
  }

  /** `c.most_common(n)`. */
  function MostCommon(c: Counter, n: nat): Counter {
    Take(SortByCount(c), n)
  }

  /** An item outside a prefix of a descending list counts no more than
      any item of the prefix. */
  lemma PrefixHoldsLargest(s: Counter, m: nat)
    requires SortedDesc(s) && m <= |s|
    ensures forall e, j :: e in multiset(s) - multiset(s[..m]) && 0 <= j < m ==> e.1 <= s[j].1
  {
    assert s == s[..m] + s[m..];
    assert multiset(s) == multiset(s[..m]) + multiset(s[m..]);
    forall e, j | e in multiset(s) - multiset(s[..m]) && 0 <= j < m ensures e.1 <= s[j].1 {
      assert e in multiset(s[m..]);
      var q :| 0 <= q < |s[m..]| && s[m..][q] == e;
      assert s[m + q] == e;
    }
  }

  /** `most_common(n)` is a descending prefix of the sorted items. */
  lemma MostCommonPrefix(c: Counter, n: nat)
    ensures |MostCommon(c, n)| == if n < |c| then n else |c|
    ensures MostCommon(c, n) == SortByCount(c)[..|MostCommon(c, n)|]
    ensures SortedDesc(MostCommon(c, n))
    ensures multiset(MostCommon(c, n)) <= multiset(c)
  {
    var s := SortByCount(c);
    SortByCountSpec(c);
    var r := MostCommon(c, n);
    assert s == r + s[|r|..];
    assert multiset(s) == multiset(r) + multiset(s[|r|..]);
  }

  /** For each count, `most_common(n)` lists a prefix of `c`'s items with
      that count. */
  lemma MostCommonStable(c: Counter, n: nat)
    ensures forall v :: WithCount(MostCommon(c, n), v) <= WithCount(c, v)
  {
    var s := SortByCount(c);
    SortByCountSpec(c);
    MostCommonPrefix(c, n);
    var r := MostCommon(c, n);
    forall v ensures WithCount(r, v) <= WithCount(c, v) {
      WithCountPrefix(r, s, v);
    }
  }

  /** Every item left out counts no more than any item kept. */
  lemma MostCommonLeftOut(c: Counter, n: nat)
    ensures forall e, j :: e in multiset(c) - multiset(MostCommon(c, n)) && 0 <= j < |MostCommon(c, n)|
                           ==> e.1 <= MostCommon(c, n)[j].1
  {
    var s := SortByCount(c);
    SortByCountSpec(c);
    MostCommonPrefix(c, n);
    PrefixHoldsLargest(s, |MostCommon(c, n)|);
  }

  /** `most_common(n)` returns `min(n, |c|)` items of `c` with non-increasing
      counts; items of equal count come in `c`'s own order (for each count,
      the result lists a prefix of `c`'s items with that count); and every
      item left out has a count no larger than any item kept. */
  lemma MostCommonSpec(c: Counter, n: nat)
    ensures |MostCommon(c, n)| == if n < |c| then n else |c|
    ensures SortedDesc(MostCommon(c, n))
    ensures multiset(MostCommon(c, n)) <= multiset(c)
    ensures forall v :: WithCount(MostCommon(c, n), v) <= WithCount(c, v)
    ensures forall e, j :: e in multiset(c) - multiset(MostCommon(c, n)) && 0 <= j < |MostCommon(c, n)|
                           ==> e.1 <= MostCommon(c, n)[j].1
  {
    MostCommonPrefix(c, n);
    MostCommonStable(c, n);
    MostCommonLeftOut(c, n);
  }

  /** The size bound and the order of `most_common(n)`. */
  lemma MostCommonBounds(c: Counter, n: nat)
    ensures |MostCommon(c, n)| <= n && |MostCommon(c, n)| <= |c|
    ensures SortedDesc(MostCommon(c, n))
  {
    MostCommonSpec(c, n);
  }

  /** In a counter with distinct keys, an item's key reads its count. */
  lemma {:induction false} GetAt(c: Counter, i: nat)
    requires DistinctKeys(c) && i < |c|
    ensures Get(c, c[i].0) == c[i].1
  {
    if i > 0 {
      assert c[0].0 != c[i].0;
      assert DistinctKeys(c[1..]) by {
        forall a, b | 0 <= a < b < |c[1..]| ensures c[1..][a].0 != c[1..][b].0 {
          assert c[1..][a] == c[a + 1] && c[1..][b] == c[b + 1];
        }
      }
      GetAt(c[1..], i - 1);
    }
  }

  /** Each item of `most_common(n)` carries the counter's count of its key. */
  lemma MostCommonGet(c: Counter, n: nat, j: nat)
    requires DistinctKeys(c) && j < |MostCommon(c, n)|
    ensures Get(c, MostCommon(c, n)[j].0) == MostCommon(c, n)[j].1
  {
    MostCommonSpec(c, n);
    var e := MostCommon(c, n)[j];
    assert e in multiset(MostCommon(c, n));
    assert e in c;
    var i :| 0 <= i < |c| && c[i] == e;
    GetAt(c, i);
  }
}
