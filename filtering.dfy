/** The keyword filter applied to all records before aggregation: a record
    is kept when the keyword, lowercased, occurs in its lowercased entity,
    project or dataset. */
module Filtering {
  import opened Validation

  /** `toLowerCase` on one character, for the ASCII letters. */
  function LowerChar(c: char): char {
    if 'A' <= c <= 'Z' then (c as int + 32) as char else c
  }

  /** `s.toLowerCase()`, character by character: same length, no capital
      letter left, every capital replaced by its small letter and every other
      character kept. */
  function ToLower(s: string): (r: string)
    ensures |r| == |s|
    ensures forall i :: 0 <= i < |r| ==> !('A' <= r[i] <= 'Z')
    ensures forall i :: 0 <= i < |s| && 'A' <= s[i] <= 'Z' ==> r[i] as int == s[i] as int - 'A' as int + 'a' as int
    ensures forall i :: 0 <= i < |s| && !('A' <= s[i] <= 'Z') ==> r[i] == s[i]
  {
    seq(|s|, i requires 0 <= i < |s| => LowerChar(s[i]))
  }

  /** Lowercasing twice is lowercasing once. */
  lemma ToLowerIdempotent(s: string)
    ensures ToLower(ToLower(s)) == ToLower(s)
  {
  }

  /** `sub` occurs in `s` starting at position `i`. */
  predicate OccursAt(s: string, sub: string, i: nat) {
    i + |sub| <= |s| && s[i..i + |sub|] == sub
  }

  /** `s.includes(sub)`: `sub` occurs in `s` at some position. The empty
      string occurs in every string, a prefix occurs, and nothing longer than
      `s` does. */
  predicate Includes(s: string, sub: string): (r: bool)
    ensures sub == [] ==> r
    ensures sub <= s ==> r
    ensures |sub| > |s| ==> !r
  {
    assert sub <= s ==> OccursAt(s, sub, 0);
    exists i: nat :: i <= |s| && OccursAt(s, sub, i)
  }

  /** The filter predicate: a case-insensitive substring test on the entity,
      the project or the dataset. */
  predicate Matches(m: Meta, keyword: string): (r: bool)
    ensures keyword == [] ==> r
    ensures r ==> |keyword| <= |m.entity| || |keyword| <= |m.project| || |keyword| <= |m.dataset|
  {
    var k := ToLower(keyword);
    Includes(ToLower(m.entity), k) || Includes(ToLower(m.project), k) || Includes(ToLower(m.dataset), k)
  }

  /** `a` is `b` with some elements left out, in the same order. */
  predicate IsSubsequence<T(==)>(a: seq<T>, b: seq<T>)
    decreases |b|
  {
    if a == [] then true
    else if b == [] then false
    else if a[0] == b[0] then IsSubsequence(a[1..], b[1..])
    else IsSubsequence(a, b[1..])
  }

  /** `Array.prototype.filter`: the elements `keep` accepts, in order. */
  function Filter<T>(s: seq<T>, keep: T -> bool): (r: seq<T>)
    ensures |r| <= |s|
    ensures forall k :: 0 <= k < |r| ==> keep(r[k])
  {
    if s == [] then []
    else if keep(s[0]) then [s[0]] + Filter(s[1..], keep)
    else Filter(s[1..], keep)
  }

  /** The filter's output is a subsequence of its input: it only drops
      elements and never reorders them. */
  lemma {:induction false} FilterIsSubsequence<T>(s: seq<T>, keep: T -> bool)
    ensures IsSubsequence(Filter(s, keep), s)
  {
    if s != [] {
      FilterIsSubsequence(s[1..], keep);
      var r := Filter(s, keep);
      if keep(s[0]) {
        assert r[0] == s[0] && r[1..] == Filter(s[1..], keep);
      }
    }
  }

  /** The filter keeps every accepted element as often as it occurs and
      drops every other one. */
  lemma {:induction false} FilterKeepsExactly<T>(s: seq<T>, keep: T -> bool, x: T)
    ensures multiset(Filter(s, keep))[x] == if keep(x) then multiset(s)[x] else 0
  {
    if s != [] {
      FilterKeepsExactly(s[1..], keep, x);
      assert s == [s[0]] + s[1..];
    }
  }

  /** Filtering what was already filtered with the same test changes nothing. */
  lemma {:induction false} FilterIdempotent<T>(s: seq<T>, keep: T -> bool)
    ensures Filter(Filter(s, keep), keep) == Filter(s, keep)
  {
    if s != [] {
      FilterIdempotent(s[1..], keep);
      if keep(s[0]) {
        var r := Filter(s, keep);
        assert r[0] == s[0] && r[1..] == Filter(s[1..], keep);
      }
    }
  }

  /** A test that accepts every element keeps the whole sequence. */
  lemma {:induction false} FilterKeepsAll<T>(s: seq<T>, keep: T -> bool)
    requires forall k :: 0 <= k < |s| ==> keep(s[k])
    ensures Filter(s, keep) == s
  {
    if s != [] {
      FilterKeepsAll(s[1..], keep);
    }
  }

  /** Filtering two runs of elements is filtering each. */
  lemma {:induction false} FilterConcat<T>(a: seq<T>, b: seq<T>, keep: T -> bool)
    ensures Filter(a + b, keep) == Filter(a, keep) + Filter(b, keep)
  {
    if a == [] {
      assert a + b == b;
    } else {
      var h := if keep(a[0]) then [a[0]] else [];
      FilterConcat(a[1..], b, keep);
      assert (a + b)[0] == a[0] && (a + b)[1..] == a[1..] + b;
      assert Filter(a + b, keep) == h + Filter(a[1..] + b, keep);
      assert Filter(a, keep) == h + Filter(a[1..], keep);
      assert h + (Filter(a[1..], keep) + Filter(b, keep)) == (h + Filter(a[1..], keep)) + Filter(b, keep);
    }
  }

  /** The test the page filters with. */
  function KeywordTest(keyword: string): Meta -> bool {
    m => Matches(m, keyword)
  }

  /** `allMetas.filter(...)`: the records that match the keyword. */
  function FilterMetas(metas: seq<Meta>, keyword: string): (r: seq<Meta>)
    ensures forall k :: 0 <= k < |r| ==> Matches(r[k], keyword)
  {
    Filter(metas, KeywordTest(keyword))
  }

  /** The empty keyword occurs in every string, so it keeps every record. */
  lemma FilterEmptyKeyword(metas: seq<Meta>)
    ensures FilterMetas(metas, "") == metas
  {
    forall k | 0 <= k < |metas|
      ensures KeywordTest("")(metas[k])
    {
      assert ToLower("") == "";
      assert OccursAt(ToLower(metas[k].entity), "", 0);
    }
    FilterKeepsAll(metas, KeywordTest(""));
  }

  /** The filter does not see the keyword's case. */
  lemma KeywordCaseIgnored(m: Meta, keyword: string)
    ensures Matches(m, ToLower(keyword)) == Matches(m, keyword)
  {
    ToLowerIdempotent(keyword);
  }
}
