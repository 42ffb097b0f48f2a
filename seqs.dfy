/**
 * `Array.prototype.filter` and Python list comprehensions with an `if`:
 * the order-preserving selection used by the search, the train panel and the
 * backend pipeline.
 */
module Seqs {

  /** The elements `x` of `s` with `p(x) == keep`, in their original order. */
  function Filter<T(!new)>(s: seq<T>, p: T -> bool, keep: bool): (r: seq<T>)
    ensures |r| <= |s|
    ensures forall x :: x in r <==> x in s && p(x) == keep
    ensures multiset(r) <= multiset(s)
  {
    if |s| == 0 then []
    else
      assert s == [s[0]] + s[1..];
      (if p(s[0]) == keep then [s[0]] else []) + Filter(s[1..], p, keep)
  }

  lemma {:induction false} FilterAppend<T(!new)>(a: seq<T>, b: seq<T>, p: T -> bool, keep: bool)
    ensures Filter(a + b, p, keep) == Filter(a, p, keep) + Filter(b, p, keep)
    decreases |a|
  {
    if |a| > 0 {
      assert (a + b)[1..] == a[1..] + b;
      FilterAppend(a[1..], b, p, keep);
    } else {
      assert a + b == b;
    }
  }

  /** Filtering a sequence extended by one element extends the filtered prefix by at most that element. */
  lemma FilterSnoc<T(!new)>(s: seq<T>, p: T -> bool, keep: bool)
    requires |s| > 0
    ensures Filter(s, p, keep) == Filter(s[..|s| - 1], p, keep) + (if p(s[|s| - 1]) == keep then [s[|s| - 1]] else [])
  {
    var n := |s| - 1;
    assert s == s[..n] + [s[n]];
    FilterAppend(s[..n], [s[n]], p, keep);
    assert [s[n]][1..] == [];
  }

  /** Every element passes exactly one of the two complementary filters. */
  lemma {:induction false} FilterPartition<T(!new)>(s: seq<T>, p: T -> bool)
    ensures multiset(Filter(s, p, true)) + multiset(Filter(s, p, false)) == multiset(s)
    ensures |Filter(s, p, true)| + |Filter(s, p, false)| == |s|
    decreases |s|
  {
    if |s| > 0 {
      FilterPartition(s[1..], p);
      assert s == [s[0]] + s[1..];
      var t, f := Filter(s[1..], p, true), Filter(s[1..], p, false);
      PlaceOne(s[0], t, f, s[1..], p(s[0]), Filter(s, p, true), Filter(s, p, false));
    }
  }

  /** Placing one more element on one of two sides of a split keeps it a split. */
  lemma PlaceOne<T>(x: T, a: seq<T>, b: seq<T>, rest: seq<T>, left: bool, a': seq<T>, b': seq<T>)
    requires multiset(a) + multiset(b) == multiset(rest) && |a| + |b| == |rest|
    requires a' == (if left then [x] else []) + a && b' == (if left then [] else [x]) + b
    ensures multiset(a') + multiset(b') == multiset([x] + rest) && |a'| + |b'| == |rest| + 1
  {
  }

  /** A filter that keeps everything returns its input. */
  lemma {:induction false} FilterAll<T(!new)>(s: seq<T>, p: T -> bool, keep: bool)
    requires forall x :: x in s ==> p(x) == keep
    ensures Filter(s, p, keep) == s
    decreases |s|
  {
    if |s| > 0 {
      FilterAll(s[1..], p, keep);
    }
  }

  /** `s` is an order-preserving subsequence of `t`. */
  predicate IsSubsequence<T(==)>(s: seq<T>, t: seq<T>)
    decreases |t|
  {
    |s| == 0 || (|t| > 0 && ((s[0] == t[0] && IsSubsequence(s[1..], t[1..])) || IsSubsequence(s, t[1..])))
  }

  lemma {:induction false} FilterIsSubsequence<T(!new)>(s: seq<T>, p: T -> bool, keep: bool)
    ensures IsSubsequence(Filter(s, p, keep), s)
    decreases |s|
  {
    if |s| > 0 {
      FilterIsSubsequence(s[1..], p, keep);
      var r := Filter(s, p, keep);
      if p(s[0]) == keep {
        assert r[0] == s[0] && r[1..] == Filter(s[1..], p, keep);
      } else {
        assert r == Filter(s[1..], p, keep);
      }
    }
  }

  /** Index of the first element satisfying `p`, or -1 (`Array.prototype.find`, Python `next(...)`). */
  function FindIndex<T>(s: seq<T>, p: T -> bool): (i: int)
    ensures -1 <= i < |s|
    ensures 0 <= i ==> p(s[i])
    ensures forall k :: 0 <= k < |s| && (i < 0 || k < i) ==> !p(s[k])
  {
    if |s| == 0 then -1
    else if p(s[0]) then 0
    else
      var j := FindIndex(s[1..], p);
      if j < 0 then -1 else j + 1
  }
}
