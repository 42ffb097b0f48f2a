/**
 * Sorting by a three-way comparator, the value-level model of JavaScript's
 * `Array.prototype.sort(compare)` and Python's `list.sort(key=...)`.
 * Insertion sort is the reference definition: its result is a permutation of
 * the input and, when the comparator is a total preorder, sorted.
 */
module Sorting {

  /**
   * The comparator orders consistently: the sign flips with the arguments
   * and "not after" is transitive. Numeric differences and collations satisfy this.
   */
  ghost predicate IsTotalPreorder<T(!new)>(cmp: (T, T) -> int) {
    && (forall a, b :: cmp(a, b) < 0 <==> cmp(b, a) > 0)
    && (forall a, b, c :: cmp(a, b) <= 0 && cmp(b, c) <= 0 ==> cmp(a, c) <= 0)
  }

  ghost predicate Sorted<T>(s: seq<T>, cmp: (T, T) -> int) {
    forall i, j :: 0 <= i < j < |s| ==> cmp(s[i], s[j]) <= 0
  }

  /** Inserts `x` after every element that does not compare above it. */
  function Insert<T>(x: T, s: seq<T>, cmp: (T, T) -> int): (r: seq<T>)
    ensures multiset(r) == multiset(s) + multiset{x}
    ensures |r| == |s| + 1
  {
    if |s| == 0 then [x]
    else if cmp(x, s[0]) < 0 then [x] + s
    else
      assert s == [s[0]] + s[1..];
      [s[0]] + Insert(x, s[1..], cmp)
  }

  function Sort<T>(s: seq<T>, cmp: (T, T) -> int): (r: seq<T>)
    ensures multiset(r) == multiset(s)
    ensures |r| == |s|
  {
    if |s| == 0 then []
    else
      assert s == s[..|s| - 1] + [s[|s| - 1]];
      Insert(s[|s| - 1], Sort(s[..|s| - 1], cmp), cmp)
  }

  /** `h` compares not above any element of `s`. */
  ghost predicate NotAfterAll<T>(h: T, s: seq<T>, cmp: (T, T) -> int) {
    forall k :: 0 <= k < |s| ==> cmp(h, s[k]) <= 0
  }

  lemma SortedCons<T>(h: T, t: seq<T>, cmp: (T, T) -> int)
    requires Sorted(t, cmp) && NotAfterAll(h, t, cmp)
    ensures Sorted([h] + t, cmp)
  {
    var r := [h] + t;
    forall i, j | 0 <= i < j < |r| ensures cmp(r[i], r[j]) <= 0 {
      assert r[j] == t[j - 1];
      if i > 0 {
        assert r[i] == t[i - 1];
      }
    }
  }

  /** Insertion keeps a lower bound that also bounds the inserted element. */
  lemma InsertKeepsBound<T>(h: T, x: T, s: seq<T>, cmp: (T, T) -> int)
    requires NotAfterAll(h, s, cmp) && cmp(h, x) <= 0
    ensures NotAfterAll(h, Insert(x, s, cmp), cmp)
  {
    var r := Insert(x, s, cmp);
    forall k | 0 <= k < |r| ensures cmp(h, r[k]) <= 0 {
      assert r[k] in multiset(r);
      if r[k] != x {
        assert r[k] in multiset(s);
        var j :| 0 <= j < |s| && s[j] == r[k];
      }
    }
  }

  lemma {:induction false} InsertSorted<T(!new)>(x: T, s: seq<T>, cmp: (T, T) -> int)
    requires IsTotalPreorder(cmp)
    requires Sorted(s, cmp)
    ensures Sorted(Insert(x, s, cmp), cmp)
    decreases |s|
  {
    if |s| > 0 {
      if cmp(x, s[0]) >= 0 {
        InsertSorted(x, s[1..], cmp);
        assert cmp(s[0], x) <= 0;
        assert NotAfterAll(s[0], s[1..], cmp) by {
          forall k | 0 <= k < |s[1..]| ensures cmp(s[0], s[1..][k]) <= 0 {
            assert s[1..][k] == s[k + 1];
          }
        }
        InsertKeepsBound(s[0], x, s[1..], cmp);
        SortedCons(s[0], Insert(x, s[1..], cmp), cmp);
      } else {
        assert NotAfterAll(x, s, cmp) by {
          forall k | 0 <= k < |s| ensures cmp(x, s[k]) <= 0 {
            if k > 0 {
              assert cmp(s[0], s[k]) <= 0;
            }
          }
        }
        SortedCons(x, s, cmp);
      }
    }
  }

  /** Under a total preorder the result is sorted. */
  lemma {:induction false} SortSorted<T(!new)>(s: seq<T>, cmp: (T, T) -> int)
    requires IsTotalPreorder(cmp)
    ensures Sorted(Sort(s, cmp), cmp)
    decreases |s|
  {
    if |s| > 0 {
      SortSorted(s[..|s| - 1], cmp);
      InsertSorted(s[|s| - 1], Sort(s[..|s| - 1], cmp), cmp);
    }
  }

  /** Reversing a total preorder (the "desc" direction) gives a total preorder. */
  lemma NegatedPreorder<T(!new)>(cmp: (T, T) -> int, neg: (T, T) -> int)
    requires IsTotalPreorder(cmp)
    requires forall a, b :: neg(a, b) == -cmp(a, b)
    ensures IsTotalPreorder(neg)
  {
    forall a, b, c | neg(a, b) <= 0 && neg(b, c) <= 0 ensures neg(a, c) <= 0 {
      assert cmp(b, a) <= 0 && cmp(c, b) <= 0;
      assert cmp(c, a) <= 0;
    }
  }
}
