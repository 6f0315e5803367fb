/**
 * `Array.prototype.sort` with a comparator, as the leaderboard pages call it.
 * ECMAScript requires the sort to be stable; a stable insertion sort is used here.
 * A comparator returns a negative number when its first argument goes first.
 */
module Sorting {
  import opened Types

  type Comparator = (Submission, Submission) -> int

  /** A comparator the sort can rely on: "a may go before b" is total and transitive. */
  ghost predicate Consistent(cmp: Comparator)
  {
    && (forall a, b :: cmp(a, b) > 0 ==> cmp(b, a) <= 0)
    && (forall a, b, c :: cmp(a, b) <= 0 && cmp(b, c) <= 0 ==> cmp(a, c) <= 0)
  }

  /** No element is placed after one it should precede. */
  ghost predicate SortedBy(s: seq<Submission>, cmp: Comparator)
  {
    forall i, j :: 0 <= i < j < |s| ==> cmp(s[i], s[j]) <= 0
  }

  /** Insert `x` before the first element it may precede. */
  function Insert(x: Submission, s: seq<Submission>, cmp: Comparator): (r: seq<Submission>)
    ensures multiset(r) == multiset(s) + multiset{x}
  {
    if s == [] || cmp(x, s[0]) <= 0 then [x] + s
    else
      assert s == [s[0]] + s[1..];
      [s[0]] + Insert(x, s[1..], cmp)
  }

  /** The sorted copy `[...s].sort(cmp)`. */
  function SortBy(s: seq<Submission>, cmp: Comparator): (r: seq<Submission>)
    ensures multiset(r) == multiset(s)
  {
    if s == [] then []
    else
      assert s == [s[0]] + s[1..];
      Insert(s[0], SortBy(s[1..], cmp), cmp)
  }

  lemma {:induction false} InsertSorted(x: Submission, s: seq<Submission>, cmp: Comparator)
    requires Consistent(cmp) && SortedBy(s, cmp)
    ensures SortedBy(Insert(x, s, cmp), cmp)
  {
    if s != [] {
      if cmp(x, s[0]) <= 0 {
        InsertFrontSorted(x, s, cmp);
      } else {
        InsertSorted(x, s[1..], cmp);
        InsertBehindSorted(x, s, cmp);
      }
    }
  }

  /** `x` may precede the head of a sorted list, hence every element of it. */
  lemma InsertFrontSorted(x: Submission, s: seq<Submission>, cmp: Comparator)
    requires Consistent(cmp) && SortedBy(s, cmp) && s != [] && cmp(x, s[0]) <= 0
    ensures SortedBy([x] + s, cmp)
  {
    forall j | 0 <= j < |s| ensures cmp(x, s[j]) <= 0 {
      if j > 0 {
        assert cmp(s[0], s[j]) <= 0;
      }
    }
  }

  /** The head stays first when `x` goes into the sorted tail. */
  lemma InsertBehindSorted(x: Submission, s: seq<Submission>, cmp: Comparator)
    requires Consistent(cmp) && SortedBy(s, cmp) && s != [] && cmp(x, s[0]) > 0
    requires SortedBy(Insert(x, s[1..], cmp), cmp)
    ensures SortedBy([s[0]] + Insert(x, s[1..], cmp), cmp)
  {
    var tail := Insert(x, s[1..], cmp);
    assert cmp(s[0], x) <= 0;
    forall j | 0 <= j < |tail| ensures cmp(s[0], tail[j]) <= 0 {
      assert tail[j] in multiset(s[1..]) + multiset{x} by {
        assert tail[j] in multiset(tail);
      }
      if tail[j] != x {
        assert tail[j] in s[1..];
        var k :| 1 <= k < |s| && s[k] == tail[j];
        assert cmp(s[0], s[k]) <= 0;
      }
    }
  }

  /** The result is a permutation of the input, ordered by the comparator. */
  lemma {:induction false} SortBySorted(s: seq<Submission>, cmp: Comparator)
    requires Consistent(cmp)
    ensures SortedBy(SortBy(s, cmp), cmp)
    ensures multiset(SortBy(s, cmp)) == multiset(s) && |SortBy(s, cmp)| == |s|
  {
    if s != [] {
      SortBySorted(s[1..], cmp);
      InsertSorted(s[0], SortBy(s[1..], cmp), cmp);
    }
    assert |multiset(SortBy(s, cmp))| == |multiset(s)|;
  }
}
