/** Python list operations on which the registries build their invariants:
    `list.remove`, comprehensions that filter by `not in`, and the counting facts
    behind "no identifier appears twice". */
module Lists {

  /** No element occurs twice. */
  predicate NoDup<T(==)>(s: seq<T>) {
    forall i, j :: 0 <= i < j < |s| ==> s[i] != s[j]
  }

  /** Strictly ascending, which is how dictionaries keyed by a counter are ordered. */
  predicate Increasing(s: seq<int>) {
    forall i, j :: 0 <= i < j < |s| ==> s[i] < s[j]
  }

  function Elems<T(==)>(s: seq<T>): set<T> {
    set x | x in s
  }

  /** Appending a new element keeps the list free of duplicates. */
  lemma NoDupAppend<T>(s: seq<T>, x: T)
    requires NoDup(s) && x !in s
    ensures NoDup(s + [x])
  {
  }

  /** The position of the first occurrence of `x` (`list.index`). */
  function IndexOf<T(==)>(s: seq<T>, x: T): (i: nat)
    requires x in s
    ensures i < |s| && s[i] == x
    ensures forall k :: 0 <= k < i ==> s[k] != x
  {
    if s[0] == x then 0 else 1 + IndexOf(s[1..], x)
  }

  /** `list.remove(x)`: the first occurrence of `x` is taken out, the rest keeps its order. */
  function RemoveFirst<T(==)>(s: seq<T>, x: T): (r: seq<T>)
    requires x in s
    ensures |r| == |s| - 1
    ensures forall k :: 0 <= k < IndexOf(s, x) ==> r[k] == s[k]
    ensures forall k :: IndexOf(s, x) <= k < |r| ==> r[k] == s[k + 1]
  {
    var i := IndexOf(s, x);
    s[..i] + s[i + 1..]
  }

  /** Removing from a duplicate-free list removes exactly that element. */
  lemma RemoveFirstFromNoDup<T>(s: seq<T>, x: T)
    requires NoDup(s) && x in s
    ensures NoDup(RemoveFirst(s, x))
    ensures |RemoveFirst(s, x)| == |s| - 1
    ensures forall y :: y in RemoveFirst(s, x) <==> y in s && y != x
  {
    var r, i := RemoveFirst(s, x), IndexOf(s, x);
    forall y | y in s && y != x ensures y in r {
      var k :| 0 <= k < |s| && s[k] == y;
      if k < i { assert r[k] == y; } else { assert r[k - 1] == y; }
    }
    forall a, b | 0 <= a < b < |r| ensures r[a] != r[b] {
      var a', b' := if a < i then a else a + 1, if b < i then b else b + 1;
      assert r[a] == s[a'] && r[b] == s[b'];
    }
    forall y | y in r ensures y in s && y != x {
      var k :| 0 <= k < |r| && r[k] == y;
      if k < i { assert s[k] == y; } else { assert s[k + 1] == y; }
    }
  }

  /** Appending an element that is absent and removing it again gives the list back. */
  lemma RemoveFirstAppended<T>(s: seq<T>, x: T)
    requires x !in s
    ensures IndexOf(s + [x], x) == |s| && RemoveFirst(s + [x], x) == s
  {
    assert (s + [x])[|s|] == x;
  }

  /** Removing an element keeps a list strictly ascending. */
  lemma RemoveFirstIncreasing(s: seq<int>, x: int)
    requires Increasing(s) && x in s
    ensures Increasing(RemoveFirst(s, x))
  {
    var r, i := RemoveFirst(s, x), IndexOf(s, x);
    forall a, b | 0 <= a < b < |r| ensures r[a] < r[b] {
      var a', b' := if a < i then a else a + 1, if b < i then b else b + 1;
      assert r[a] == s[a'] && r[b] == s[b'];
    }
  }

  /** `[y for y in s if y not in excluded]`. */
  function Without<T(==)>(s: seq<T>, excluded: seq<T>): (r: seq<T>)
    ensures |r| <= |s|
  {
    if s == [] then []
    else
      var last := s[|s| - 1];
      Without(s[..|s| - 1], excluded) + (if last in excluded then [] else [last])
  }

  lemma WithoutAppend<T>(s: seq<T>, x: T, excluded: seq<T>)
    ensures Without(s + [x], excluded) == Without(s, excluded) + (if x in excluded then [] else [x])
  {
    assert (s + [x])[..|s|] == s;
  }

  /** `Without` keeps exactly the elements of `s` that are not excluded. */
  lemma {:induction false} WithoutMembers<T>(s: seq<T>, excluded: seq<T>)
    ensures forall y :: y in Without(s, excluded) <==> y in s && y !in excluded
    decreases |s|
  {
    if s != [] {
      var init, last := s[..|s| - 1], s[|s| - 1];
      assert s == init + [last];
      WithoutMembers(init, excluded);
    }
  }

  lemma {:induction false} WithoutNoDup<T>(s: seq<T>, excluded: seq<T>)
    requires NoDup(s)
    ensures NoDup(Without(s, excluded))
    decreases |s|
  {
    if s != [] {
      var init, last := s[..|s| - 1], s[|s| - 1];
      assert s == init + [last];
      WithoutNoDup(init, excluded);
      WithoutMembers(init, excluded);
      assert last !in init;
    }
  }

  /** A duplicate-free list has as many elements as it has distinct ones. */
  lemma {:induction false} NoDupCard<T>(s: seq<T>)
    requires NoDup(s)
    ensures |Elems(s)| == |s|
    decreases |s|
  {
    if s != [] {
      var init, last := s[..|s| - 1], s[|s| - 1];
      assert s == init + [last];
      NoDupCard(init);
      assert Elems(s) == Elems(init) + {last};
      assert last !in Elems(init);
    }
  }

  /** For a duplicate-free `excluded` drawn from a duplicate-free `s`, the elements
      in `excluded` and those of `Without(s, excluded)` split `s`: every element of `s`
      is in exactly one of them, and their lengths add up to `|s|`. */
  lemma WithoutPartitions<T>(s: seq<T>, excluded: seq<T>)
    requires NoDup(s) && NoDup(excluded)
    requires forall y :: y in excluded ==> y in s
    ensures forall y :: y in s <==> (y in excluded) != (y in Without(s, excluded))
    ensures |excluded| + |Without(s, excluded)| == |s|
  {
    var w := Without(s, excluded);
    WithoutMembers(s, excluded);
    WithoutNoDup(s, excluded);
    NoDupCard(s);
    NoDupCard(excluded);
    NoDupCard(w);
    assert Elems(w) == Elems(s) - Elems(excluded);
    assert Elems(s) == Elems(w) + Elems(excluded);
    assert Elems(w) !! Elems(excluded);
  }

  /** In a duplicate-free list an element occurs once or not at all. */
  lemma {:induction false} NoDupMultiplicity<T>(s: seq<T>, x: T)
    requires NoDup(s)
    ensures multiset(s)[x] == if x in s then 1 else 0
    decreases |s|
  {
    if s != [] {
      var init, last := s[..|s| - 1], s[|s| - 1];
      assert s == init + [last];
      NoDupMultiplicity(init, x);
      assert last !in init;
    }
  }
}
