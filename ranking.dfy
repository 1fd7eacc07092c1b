/** The ranking in the render expression:
    `Object.entries(map).sort((a, b) => b[1].count - a[1].count).slice(0, 100)`. */
module Ranking {
  import opened Aggregation

  /** How many entities the page lists. */
  const DisplayLimit: nat := 100

  /** One `[entity, entry]` pair of `Object.entries`. */
  type Item = (string, Entry)

  function Min(a: nat, b: nat): nat {
    if a <= b then a else b
  }

  /** `Object.entries(acc)`: the pairs in insertion order. */
  function ObjectEntries(acc: EntityMap): (r: seq<Item>)
    requires forall k :: k in acc.order ==> k in acc.entries
    ensures |r| == |acc.order|
    ensures forall i :: 0 <= i < |r| ==> r[i].0 == acc.order[i] && r[i].1 == acc.entries[acc.order[i]]
  {
    seq(|acc.order|, i requires 0 <= i < |acc.order| => (acc.order[i], acc.entries[acc.order[i]]))
  }

  /** The dataset count of an item. */
  function CountOf(x: Item): nat {
    x.1.count
  }

  /** The count does not increase from item `i - 1` to item `i`. */
  ghost predicate StepDown(s: seq<Item>, i: nat)
    requires 0 < i < |s|
  {
    CountOf(s[i - 1]) >= CountOf(s[i])
  }

  /** Counts never increase from one item to the next. */
  ghost predicate NonIncreasing(s: seq<Item>) {
    forall i: nat :: 0 < i < |s| ==> StepDown(s, i)
  }

  /** The tail of a non-increasing sequence is non-increasing and starts no
      higher than its head. */
  lemma TailNonIncreasing(s: seq<Item>)
    requires NonIncreasing(s) && s != []
    ensures NonIncreasing(s[1..])
    ensures |s| > 1 ==> CountOf(s[0]) >= CountOf(s[1])
  {
    forall i: nat | 0 < i < |s| - 1
      ensures StepDown(s[1..], i)
    {
      assert StepDown(s, i + 1);
    }
    if |s| > 1 {
      assert StepDown(s, 1);
    }
  }

  /** A prefix of a non-increasing sequence is non-increasing. */
  lemma PrefixNonIncreasing(s: seq<Item>, n: nat)
    requires NonIncreasing(s) && n <= |s|
    ensures NonIncreasing(s[..n])
  {
    forall i: nat | 0 < i < n
      ensures StepDown(s[..n], i)
    {
      assert StepDown(s, i);
    }
  }

  /** In a non-increasing sequence every item has at least the count of
      every later item. */
  lemma {:induction false} NonIncreasingPairwise(s: seq<Item>, i: nat, j: nat)
    requires NonIncreasing(s) && i <= j < |s|
    ensures CountOf(s[i]) >= CountOf(s[j])
    decreases j - i
  {
    if i < j {
      NonIncreasingPairwise(s, i + 1, j);
      assert StepDown(s, i + 1);
    }
  }

  /** The items of `s` whose count is `c`, in order. */
  function WithCount(s: seq<Item>, c: nat): seq<Item> {
    if s == [] then []
    else (if CountOf(s[0]) == c then [s[0]] else []) + WithCount(s[1..], c)
  }

  /** Inserts `x` after every item whose count is at least its own, so that
      it comes after the items it ties with. */
  function Insert(s: seq<Item>, x: Item): (r: seq<Item>)
    requires NonIncreasing(s)
    ensures NonIncreasing(r)
    ensures multiset(r) == multiset(s) + multiset{x}
    ensures |r| == |s| + 1 && (r[0] == x || (s != [] && r[0] == s[0]))
  {
    if s == [] then [x]
    else if CountOf(s[0]) >= CountOf(x) then
      assert s == [s[0]] + s[1..];
      TailNonIncreasing(s);
      var rest := Insert(s[1..], x);
      ConsNonIncreasing(s[0], rest);
      [s[0]] + rest
    else
      ConsNonIncreasing(x, s);
      [x] + s
  }

  /** Putting an item in front of a non-increasing sequence whose first count
      is no larger keeps it non-increasing. */
  lemma ConsNonIncreasing(h: Item, t: seq<Item>)
    requires NonIncreasing(t) && (t != [] ==> CountOf(h) >= CountOf(t[0]))
    ensures NonIncreasing([h] + t)
  {
    var r := [h] + t;
    forall i: nat | 0 < i < |r|
      ensures StepDown(r, i)
    {
      if i > 1 {
        assert r[i - 1] == t[i - 2] && r[i] == t[i - 1] && StepDown(t, i - 1);
      }
    }
  }

  /** The comparator `b.count - a.count` under a stable sort: counts in
      descending order, ties left in their original order. */
  function SortByCount(s: seq<Item>): (r: seq<Item>)
    ensures NonIncreasing(r)
    ensures multiset(r) == multiset(s)
  {
    if s == [] then []
    else
      assert s == s[..|s| - 1] + [s[|s| - 1]];
      Insert(SortByCount(s[..|s| - 1]), s[|s| - 1])
  }

  lemma WithCountCons(h: Item, t: seq<Item>, c: nat)
    ensures WithCount([h] + t, c) == (if CountOf(h) == c then [h] else []) + WithCount(t, c)
  {
    assert ([h] + t)[0] == h && ([h] + t)[1..] == t;
  }

  lemma {:induction false} WithCountConcat(a: seq<Item>, b: seq<Item>, c: nat)
    ensures WithCount(a + b, c) == WithCount(a, c) + WithCount(b, c)
  {
    if a == [] {
      assert a + b == b;
    } else {
      var h := if CountOf(a[0]) == c then [a[0]] else [];
      WithCountConcat(a[1..], b, c);
      assert (a + b)[0] == a[0] && (a + b)[1..] == a[1..] + b;
      assert WithCount(a + b, c) == h + WithCount(a[1..] + b, c);
      assert h + (WithCount(a[1..], c) + WithCount(b, c)) == (h + WithCount(a[1..], c)) + WithCount(b, c);
    }
  }

  /** In a non-increasing sequence that starts below `c`, nothing has count `c`. */
  lemma {:induction false} NoneWithLargerCount(s: seq<Item>, c: nat)
    requires NonIncreasing(s) && s != [] && CountOf(s[0]) < c
    ensures WithCount(s, c) == []
  {
    if |s| > 1 {
      TailNonIncreasing(s);
      NoneWithLargerCount(s[1..], c);
    }
  }

  /** Inserting keeps the items that tie with `x` before it. */
  lemma {:induction false} InsertStable(s: seq<Item>, x: Item, c: nat)
    requires NonIncreasing(s)
    ensures WithCount(Insert(s, x), c) == WithCount(s, c) + (if CountOf(x) == c then [x] else [])
  {
    if s == [] {
      WithCountCons(x, [], c);
    } else if CountOf(s[0]) >= CountOf(x) {
      var t := s[1..];
      TailNonIncreasing(s);
      var rest := Insert(t, x);
      InsertStable(t, x, c);
      assert Insert(s, x) == [s[0]] + rest;
      assert s == [s[0]] + t;
      ConsKeepsWithCount(s[0], t, rest, c, if CountOf(x) == c then [x] else []);
    } else {
      InsertInFront(s, x, c);
    }
  }

  /** Putting the same item in front of two sequences keeps the relation
      between their items of count `c`. */
  lemma ConsKeepsWithCount(h: Item, t: seq<Item>, u: seq<Item>, c: nat, tail: seq<Item>)
    requires WithCount(u, c) == WithCount(t, c) + tail
    ensures WithCount([h] + u, c) == WithCount([h] + t, c) + tail
  {
    var front := if CountOf(h) == c then [h] else [];
    WithCountCons(h, u, c);
    WithCountCons(h, t, c);
    assert front + (WithCount(t, c) + tail) == (front + WithCount(t, c)) + tail;
  }

  /** The step of `InsertStable` where `x` goes in front of `s`. */
  lemma InsertInFront(s: seq<Item>, x: Item, c: nat)
    requires NonIncreasing(s) && s != [] && CountOf(s[0]) < CountOf(x)
    ensures WithCount(Insert(s, x), c) == WithCount(s, c) + (if CountOf(x) == c then [x] else [])
  {
    assert Insert(s, x) == [x] + s;
    WithCountCons(x, s, c);
    NoneWithLargerCount(s, CountOf(x));
  }

  /** Stability: the items with any one count come out in the order they
      went in. */
  lemma {:induction false} SortStable(s: seq<Item>, c: nat)
    ensures WithCount(SortByCount(s), c) == WithCount(s, c)
  {
    if s != [] {
      var init, last := s[..|s| - 1], s[|s| - 1];
      assert s == init + [last];
      SortStable(init, c);
      InsertStable(SortByCount(init), last, c);
      assert SortByCount(s) == Insert(SortByCount(init), last);
      WithCountConcat(init, [last], c);
      assert WithCount([last], c) == (if CountOf(last) == c then [last] else []) + WithCount([], c);
    }
  }

  /** No two items of `s` name the same entity. */
  ghost predicate DistinctNames(s: seq<Item>) {
    forall i, j :: 0 <= i < j < |s| ==> s[i].0 != s[j].0
  }

  /** The keys of an object are distinct. */
  ghost predicate DistinctKeys(order: seq<string>) {
    forall i, j :: 0 <= i < j < |order| ==> order[i] != order[j]
  }

  /** Putting an item in front of items with other names keeps the names
      distinct. */
  lemma ConsDistinct(h: Item, t: seq<Item>)
    requires DistinctNames(t)
    requires forall k :: 0 <= k < |t| ==> t[k].0 != h.0
    ensures DistinctNames([h] + t)
  {
    var r := [h] + t;
    forall i, j | 0 <= i < j < |r|
      ensures r[i].0 != r[j].0
    {
      assert r[j] == t[j - 1];
      if i > 0 {
        assert r[i] == t[i - 1];
      }
    }
  }

  /** Inserting an item whose name is new keeps the names distinct. */
  lemma {:induction false} InsertDistinct(s: seq<Item>, x: Item)
    requires NonIncreasing(s) && DistinctNames(s)
    requires forall k :: 0 <= k < |s| ==> s[k].0 != x.0
    ensures DistinctNames(Insert(s, x))
  {
    if s == [] {
    } else if CountOf(s[0]) >= CountOf(x) {
      var t := s[1..];
      TailNonIncreasing(s);
      assert DistinctNames(t) by {
        forall i, j | 0 <= i < j < |t|
          ensures t[i].0 != t[j].0
        {
          assert t[i] == s[i + 1] && t[j] == s[j + 1];
        }
      }
      InsertDistinct(t, x);
      var rest := Insert(t, x);
      forall k | 0 <= k < |rest|
        ensures rest[k].0 != s[0].0
      {
        assert rest[k] in multiset(rest);
        if rest[k] != x {
          assert rest[k] in multiset(t);
          var j :| 0 <= j < |t| && t[j] == rest[k];
          assert s[j + 1] == rest[k];
        }
      }
      ConsDistinct(s[0], rest);
      assert Insert(s, x) == [s[0]] + rest;
    } else {
      ConsDistinct(x, s);
      assert Insert(s, x) == [x] + s;
    }
  }

  /** Sorting keeps the names distinct. */
  lemma {:induction false} SortDistinct(s: seq<Item>)
    requires DistinctNames(s)
    ensures DistinctNames(SortByCount(s))
  {
    if s != [] {
      var init, last := s[..|s| - 1], s[|s| - 1];
      assert DistinctNames(init) by {
        forall i, j | 0 <= i < j < |init|
          ensures init[i].0 != init[j].0
        {
          assert init[i] == s[i] && init[j] == s[j];
        }
      }
      SortDistinct(init);
      var sorted := SortByCount(init);
      forall k | 0 <= k < |sorted|
        ensures sorted[k].0 != last.0
      {
        assert sorted[k] in multiset(sorted);
        var j :| 0 <= j < |init| && init[j] == sorted[k];
        assert s[j] == sorted[k];
      }
      InsertDistinct(sorted, last);
    }
  }

  /** The entries the page lists: sorted by count, descending, and cut to
      the display limit. They are distinct entries of the map, and each
      entry is listed at most once. */
  function Rank(acc: EntityMap): (r: seq<Item>)
    requires forall k :: k in acc.order ==> k in acc.entries
    requires DistinctKeys(acc.order)
    ensures |r| == Min(DisplayLimit, |acc.order|)
    ensures NonIncreasing(r)
    ensures forall i :: 0 <= i < |r| ==> r[i].0 in acc.entries && r[i].1 == acc.entries[r[i].0]
    ensures DistinctNames(r)
    ensures multiset(r) <= multiset(ObjectEntries(acc))
  {
    var entries := ObjectEntries(acc);
    assert DistinctNames(entries);
    SortedCut(entries, Min(DisplayLimit, |entries|));
    SortByCount(entries)[..Min(DisplayLimit, |entries|)]
  }

  /** The first `n` items of the sorted sequence have non-increasing
      counts, distinct names, and are items of the input. */
  lemma SortedCut(s: seq<Item>, n: nat)
    requires DistinctNames(s) && n <= |s|
    ensures |SortByCount(s)| == |s|
    ensures NonIncreasing(SortByCount(s)[..n])
    ensures DistinctNames(SortByCount(s)[..n])
    ensures multiset(SortByCount(s)[..n]) <= multiset(s)
    ensures forall i :: 0 <= i < n ==> exists j :: 0 <= j < |s| && s[j] == SortByCount(s)[i]
  {
    var sorted := SortByCount(s);
    assert |sorted| == |multiset(sorted)| == |multiset(s)| == |s|;
    var r := sorted[..n];
    PrefixNonIncreasing(sorted, n);
    SortDistinct(s);
    forall i, j | 0 <= i < j < |r|
      ensures r[i].0 != r[j].0
    {
      assert r[i] == sorted[i] && r[j] == sorted[j];
    }
    assert sorted == r + sorted[n..];
    forall i | 0 <= i < n
      ensures exists j :: 0 <= j < |s| && s[j] == sorted[i]
    {
      assert sorted[i] in multiset(s);
    }
  }

  /** The cut is stable too: among the entries of any one count, those
      listed are the first ones in insertion order. */
  lemma RankStable(acc: EntityMap, c: nat)
    requires forall k :: k in acc.order ==> k in acc.entries
    requires DistinctKeys(acc.order)
    ensures WithCount(Rank(acc), c) <= WithCount(ObjectEntries(acc), c)
  {
    var entries := ObjectEntries(acc);
    var sorted := SortByCount(entries);
    var r := Rank(acc);
    assert |sorted| == |multiset(sorted)| == |multiset(entries)| == |entries|;
    assert sorted == r + sorted[|r|..];
    WithCountConcat(r, sorted[|r|..], c);
    SortStable(entries, c);
  }

  /** An item named `k`, when no item of the prefix `s[..n]` is, lies beyond it. */
  lemma PrefixOmits(s: seq<Item>, n: nat, t: nat, k: string)
    requires n <= |s| && t < |s| && s[t].0 == k
    requires forall j :: 0 <= j < n ==> s[j].0 != k
    ensures n <= t
  {
    if t < n {
      assert false;
    }
  }

  /** An entity left out of the ranking has no larger count than any entity
      in it. */
  lemma RankKeepsLargest(acc: EntityMap, k: string, i: nat)
    requires forall k :: k in acc.order ==> k in acc.entries
    requires DistinctKeys(acc.order)
    requires k in acc.order
    requires i < |Rank(acc)|
    requires forall j :: 0 <= j < |Rank(acc)| ==> Rank(acc)[j].0 != k
    ensures acc.entries[k].count <= CountOf(Rank(acc)[i])
  {
    var entries := ObjectEntries(acc);
    var sorted := SortByCount(entries);
    var item := (k, acc.entries[k]);
    var pos :| 0 <= pos < |acc.order| && acc.order[pos] == k;
    assert entries[pos] == item;
    assert item in multiset(sorted);
    var t :| 0 <= t < |sorted| && sorted[t] == item;
    assert |sorted| == |multiset(sorted)| == |multiset(entries)| == |entries|;
    assert Rank(acc) == sorted[..Min(DisplayLimit, |sorted|)];
    forall j | 0 <= j < |Rank(acc)|
      ensures sorted[j].0 != k
    {
      assert Rank(acc)[j] == sorted[j];
    }
    PrefixOmits(sorted, |Rank(acc)|, t, k);
    NonIncreasingPairwise(sorted, i, t);
  }
}
