/** The C library's `qsort`: sorts an array in place by a comparison function.
    Insertion stands for the library's algorithm; callers use only that the
    result is an ordered permutation. */
module Qsort {

  /** `cmp` orders the members of `s` by `key`. */
  ghost predicate Compares<T(!new)>(cmp: (T, T) -> int, key: T -> int, s: seq<T>) {
    forall x, y :: x in s && y in s ==> (cmp(x, y) > 0 <==> key(x) > key(y))
  }

  ghost predicate SortedBy<T>(key: T -> int, s: seq<T>) {
    forall i, j :: 0 <= i < j < |s| ==> key(s[i]) <= key(s[j])
  }

  function Place<T>(cmp: (T, T) -> int, s: seq<T>, x: T): seq<T> {
    if s == [] || cmp(s[|s| - 1], x) <= 0 then s + [x]
    else Place(cmp, s[..|s| - 1], x) + [s[|s| - 1]]
  }

  function Sorting<T>(cmp: (T, T) -> int, s: seq<T>): seq<T> {
    if s == [] then [] else Place(cmp, Sorting(cmp, s[..|s| - 1]), s[|s| - 1])
  }

  lemma {:induction false} PlacePermutes<T>(cmp: (T, T) -> int, s: seq<T>, x: T)
    ensures multiset(Place(cmp, s, x)) == multiset(s) + multiset{x}
    ensures forall y :: y in Place(cmp, s, x) <==> y in s || y == x
  {
    if s != [] {
      assert s == s[..|s| - 1] + [s[|s| - 1]];
      PlacePermutes(cmp, s[..|s| - 1], x);
    }
  }

  lemma AppendSorted<T>(key: T -> int, s: seq<T>, x: T)
    requires SortedBy(key, s) && forall y :: y in s ==> key(y) <= key(x)
    ensures SortedBy(key, s + [x])
  {
  }

  lemma {:induction false} PlaceKeepsOrder<T(!new)>(cmp: (T, T) -> int, key: T -> int, s: seq<T>, x: T)
    requires SortedBy(key, s)
    requires forall y :: y in s ==> (cmp(y, x) > 0 <==> key(y) > key(x))
    ensures SortedBy(key, Place(cmp, s, x))
  {
    if s == [] {
      return;
    }
    var front, last := s[..|s| - 1], s[|s| - 1];
    assert forall y :: y in s ==> key(y) <= key(last);
    if cmp(last, x) <= 0 {
      AppendSorted(key, s, x);
    } else {
      PlaceKeepsOrder(cmp, key, front, x);
      PlacePermutes(cmp, front, x);
      AppendSorted(key, Place(cmp, front, x), last);
    }
  }

  lemma {:induction false} SortingIsSorted<T(!new)>(cmp: (T, T) -> int, key: T -> int, s: seq<T>)
    requires Compares(cmp, key, s)
    ensures SortedBy(key, Sorting(cmp, s))
    ensures multiset(Sorting(cmp, s)) == multiset(s)
    ensures |Sorting(cmp, s)| == |s|
  {
    if s != [] {
      var front, last := s[..|s| - 1], s[|s| - 1];
      assert s == front + [last];
      SortingIsSorted(cmp, key, front);
      var t := Sorting(cmp, front);
      forall y | y in t ensures cmp(y, last) > 0 <==> key(y) > key(last) {
        assert y in multiset(t) && y in s && last in s;
      }
      PlaceKeepsOrder(cmp, key, t, last);
      PlacePermutes(cmp, t, last);
    }
    assert |multiset(Sorting(cmp, s))| == |multiset(s)|;
  }

  method Sort<T(!new)>(a: array<T>, cmp: (T, T) -> int, ghost key: T -> int)
    requires Compares(cmp, key, a[..])
    modifies a
    ensures SortedBy(key, a[..])
    ensures multiset(a[..]) == multiset(old(a[..]))
  {
    var t := Sorting(cmp, a[..]);
    SortingIsSorted(cmp, key, a[..]);
    forall i | 0 <= i < a.Length {
      a[i] := t[i];
    }
    assert a[..] == t;
  }
}
