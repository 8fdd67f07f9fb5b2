/** Python's `list.sort(key=k)`: a stable sort that puts `a` before `b` unless
    `k(b) < k(a)`. Here the order is given as `le(a, b)`, "`a` may come before `b`",
    and the sort is a stable insertion sort. */
module Sorting {

  /** `le` orders every pair one way or the other and is transitive. */
  ghost predicate TotalPreorder<T(!new)>(le: (T, T) -> bool) {
    && (forall a, b :: le(a, b) || le(b, a))
    && (forall a, b, c :: le(a, b) && le(b, c) ==> le(a, c))
  }

  predicate SortedBy<T>(s: seq<T>, le: (T, T) -> bool) {
    forall i, j :: 0 <= i < j < |s| ==> le(s[i], s[j])
  }

  /** `x` placed before the first element it may precede. */
  function Insert<T>(x: T, s: seq<T>, le: (T, T) -> bool): (r: seq<T>)
    ensures multiset(r) == multiset(s) + multiset{x}
  {
    if s == [] then [x]
    else if le(x, s[0]) then [x] + s
    else
      assert s == [s[0]] + s[1..];
      [s[0]] + Insert(x, s[1..], le)
  }

  /** The stable sort: the head is inserted into the sorted tail, ahead of every
      element it ties with, so ties keep their original order. */
  function Sort<T>(s: seq<T>, le: (T, T) -> bool): (r: seq<T>)
    ensures multiset(r) == multiset(s)
  {
    if s == [] then []
    else
      assert s == [s[0]] + s[1..];
      Insert(s[0], Sort(s[1..], le), le)
  }

  lemma {:induction false} InsertSorted<T(!new)>(x: T, s: seq<T>, le: (T, T) -> bool)
    requires TotalPreorder(le) && SortedBy(s, le)
    ensures SortedBy(Insert(x, s, le), le)
    decreases |s|
  {
    if s != [] && !le(x, s[0]) {
      var tail := s[1..];
      assert SortedBy(tail, le);
      InsertSorted(x, tail, le);
      var r := Insert(x, tail, le);
      assert le(s[0], x);
      forall k | 0 <= k < |r| ensures le(s[0], r[k]) {
        assert r[k] in multiset(r);
        if r[k] != x {
          assert r[k] in multiset(tail);
          var m :| 0 <= m < |tail| && tail[m] == r[k];
          assert s[m + 1] == r[k];
        }
      }
      assert Insert(x, s, le) == [s[0]] + r;
    }
  }

  /** The result is sorted, whenever `le` is a total preorder. */
  lemma {:induction false} SortSorted<T(!new)>(s: seq<T>, le: (T, T) -> bool)
    requires TotalPreorder(le)
    ensures SortedBy(Sort(s, le), le)
    decreases |s|
  {
    if s != [] {
      SortSorted(s[1..], le);
      InsertSorted(s[0], Sort(s[1..], le), le);
    }
  }

  /** A list that is already sorted comes back unchanged. */
  lemma {:induction false} SortOfSorted<T>(s: seq<T>, le: (T, T) -> bool)
    requires SortedBy(s, le)
    ensures Sort(s, le) == s
    decreases |s|
  {
    if s != [] {
      var tail := s[1..];
      assert SortedBy(tail, le);
      SortOfSorted(tail, le);
      if tail != [] {
        assert le(s[0], tail[0]);
      }
      assert s == [s[0]] + tail;
    }
  }
}
