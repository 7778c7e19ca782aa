/**
 * `Array.prototype.sort` as both tree builders use it: an in-place sort by
 * a comparator. The comparators in the source never answer 0, so the order
 * they impose is given here as a total preorder `le` ("may come before"),
 * and the sort is an insertion sort that keeps equal elements in their
 * original order.
 */
module Sorting {

  /** Every element may come before every later one. */
  predicate SortedBy<T>(s: seq<T>, le: (T, T) -> bool)
  {
    forall i, j :: 0 <= i < j < |s| ==> le(s[i], s[j])
  }

  ghost predicate TotalPreorder<T(!new)>(le: (T, T) -> bool)
  {
    (forall x, y :: le(x, y) || le(y, x))
    && (forall x, y, z :: le(x, y) && le(y, z) ==> le(x, z))
  }

  /** Sorts `a` in place; the result is sorted and a permutation of the input. */
  method InsertionSort<T(!new)>(a: array<T>, le: (T, T) -> bool)
    requires TotalPreorder(le)
    modifies a
    ensures SortedBy(a[..], le)
    ensures multiset(a[..]) == multiset(old(a[..]))
  {
    var i := 0;
    while i < a.Length
      invariant 0 <= i <= a.Length
      invariant SortedBy(a[..i], le)
      invariant multiset(a[..]) == multiset(old(a[..]))
    {
      if i > 0 {
        Sink(a, i, le);
      }
      i := i + 1;
    }
    assert a[..a.Length] == a[..];
  }

  /** Moves `a[i]` left past every element that may not come before it. */
  method Sink<T(!new)>(a: array<T>, i: nat, le: (T, T) -> bool)
    requires TotalPreorder(le)
    requires 0 < i < a.Length && SortedBy(a[..i], le)
    modifies a
    ensures SortedBy(a[..i + 1], le)
    ensures multiset(a[..]) == multiset(old(a[..]))
  {
    var j := i;
    while j > 0 && !le(a[j - 1], a[j])
      invariant 0 <= j <= i
      invariant multiset(a[..]) == multiset(old(a[..]))
      invariant Sinking(a[..], i, j, le)
      decreases j
    {
      SinkStep(a[..], i, j, le);
      Swap(a, j);
      j := j - 1;
    }
    SinkDone(a[..], i, j, le);
  }

  /** Exchanges `a[j - 1]` and `a[j]`. */
  method Swap<T>(a: array<T>, j: nat)
    requires 0 < j < a.Length
    modifies a
    ensures a[..] == old(a[..])[j - 1 := old(a[j])][j := old(a[j - 1])]
    ensures multiset(a[..]) == multiset(old(a[..]))
  {
    a[j - 1], a[j] := a[j], a[j - 1];
  }

  /**
   * Halfway through sinking `s[i]`, now at `j`: both sides of `j` are
   * sorted, everything left of `j` may come before everything right of it,
   * and the sinking element may come before everything right of it.
   */
  ghost predicate Sinking<T>(s: seq<T>, i: nat, j: nat, le: (T, T) -> bool)
  {
    j <= i < |s|
    && (forall k, m :: 0 <= k < m < j ==> le(s[k], s[m]))
    && (forall k, m :: j < k < m <= i ==> le(s[k], s[m]))
    && (forall k, m :: 0 <= k < j < m <= i ==> le(s[k], s[m]))
    && (forall m :: j < m <= i ==> le(s[j], s[m]))
  }

  lemma SinkStep<T(!new)>(s: seq<T>, i: nat, j: nat, le: (T, T) -> bool)
    requires TotalPreorder(le)
    requires 0 < j && Sinking(s, i, j, le) && !le(s[j - 1], s[j])
    ensures Sinking(s[j - 1 := s[j]][j := s[j - 1]], i, j - 1, le)
  {
    var t := s[j - 1 := s[j]][j := s[j - 1]];
    assert le(s[j], s[j - 1]);
    forall m | j - 1 < m <= i
      ensures le(t[j - 1], t[m])
    {
      if m > j {
        assert le(s[j], s[m]);
      }
    }
  }

  lemma SinkDone<T(!new)>(s: seq<T>, i: nat, j: nat, le: (T, T) -> bool)
    requires TotalPreorder(le)
    requires Sinking(s, i, j, le) && (j == 0 || le(s[j - 1], s[j]))
    ensures SortedBy(s[..i + 1], le)
  {
    forall k, m | 0 <= k < m <= i
      ensures le(s[k], s[m])
    {
      if m == j && k < j - 1 {
        assert le(s[k], s[j - 1]);
      }
    }
  }

  /** Sorts a copy of `s`, as `map(...).sort(...)` sorts a fresh array. */
  method SortSeq<T(!new)>(s: seq<T>, le: (T, T) -> bool) returns (r: seq<T>)
    requires TotalPreorder(le)
    ensures SortedBy(r, le)
    ensures multiset(r) == multiset(s)
  {
    if |s| == 0 {
      return [];
    }
    var a := new T[|s|](i requires 0 <= i < |s| => s[i]);
    assert a[..] == s;
    InsertionSort(a, le);
    r := a[..];
  }
}
