/** The batch's typical proportions: the collected aspect ratios are sorted
    in place in ascending order and the element at index len/2 is taken as
    the median. The median is characterised independently of any sort by
    counting how many ratios lie on either side of it. */
module Median {

  predicate Sorted(s: seq<real>)
  {
    forall i, j :: 0 <= i < j < |s| ==> s[i] <= s[j]
  }

  /** How many elements of `s` are at most `m`. */
  function CountLe(s: seq<real>, m: real): nat
  {
    if s == [] then 0 else (if s[0] <= m then 1 else 0) + CountLe(s[1..], m)
  }

  /** How many elements of `s` are at least `m`. */
  function CountGe(s: seq<real>, m: real): nat
  {
    if s == [] then 0 else (if s[0] >= m then 1 else 0) + CountGe(s[1..], m)
  }

  /** `m` is the element at index |s|/2 of `s` sorted ascending: it occurs in
      `s`, more than |s|/2 elements are at most `m`, and the remaining
      |s| - |s|/2 positions hold elements at least `m`. */
  predicate IsMedian(s: seq<real>, m: real)
  {
    m in s && CountLe(s, m) > |s| / 2 && CountGe(s, m) >= |s| - |s| / 2
  }

  /** The first `n` elements of `a` are in ascending order. */
  predicate SortedPrefix(a: array<real>, n: nat)
    reads a
    requires n <= a.Length
  {
    forall k, l :: 0 <= k < l < n ==> a[k] <= a[l]
  }

  /** Sorts `a` in place, ascending, by insertion. */
  method SortAscending(a: array<real>)
    modifies a
    ensures Sorted(a[..])
    ensures multiset(a[..]) == old(multiset(a[..]))
  {
    for i := 0 to a.Length
      invariant SortedPrefix(a, i)
      invariant multiset(a[..]) == old(multiset(a[..]))
    {
      Insert(a, i);
    }
  }

  /** Moves `a[i]` down into the sorted prefix `a[..i]` by adjacent swaps. */
  method Insert(a: array<real>, i: nat)
    requires i < a.Length && SortedPrefix(a, i)
    modifies a
    ensures SortedPrefix(a, i + 1)
    ensures multiset(a[..]) == old(multiset(a[..]))
  {
    var j := i;
    while j > 0 && a[j - 1] > a[j]
      invariant 0 <= j <= i
      invariant forall k, l :: 0 <= k < l <= i && l != j ==> a[k] <= a[l]
      invariant 0 < j < i ==> a[j - 1] <= a[j + 1]
      invariant multiset(a[..]) == old(multiset(a[..]))
    {
      SwapDown(a, j);
      j := j - 1;
    }
  }

  /** Exchanges `a[j - 1]` and `a[j]`. */
  method SwapDown(a: array<real>, j: nat)
    requires 0 < j < a.Length
    modifies a
    ensures a[..] == old(a[..])[j - 1 := old(a[j])][j := old(a[j - 1])]
    ensures multiset(a[..]) == old(multiset(a[..]))
  {
    a[j - 1], a[j] := a[j], a[j - 1];
  }

  lemma {:induction false} CountAppend(p: seq<real>, q: seq<real>, m: real)
    ensures CountLe(p + q, m) == CountLe(p, m) + CountLe(q, m)
    ensures CountGe(p + q, m) == CountGe(p, m) + CountGe(q, m)
  {
    if p == [] {
      assert p + q == q;
    } else {
      assert (p + q)[1..] == p[1..] + q;
      CountAppend(p[1..], q, m);
    }
  }

  /** Removing the element at index `j` removes one occurrence of it from the
      multiset and from whichever counts it contributed to. */
  lemma RemoveAt(b: seq<real>, j: nat, m: real)
    requires j < |b|
    ensures multiset(b[..j] + b[j + 1..]) == multiset(b) - multiset{b[j]}
    ensures CountLe(b, m) == CountLe(b[..j] + b[j + 1..], m) + (if b[j] <= m then 1 else 0)
    ensures CountGe(b, m) == CountGe(b[..j] + b[j + 1..], m) + (if b[j] >= m then 1 else 0)
  {
    var x := b[j];
    assert b == b[..j] + ([x] + b[j + 1..]);
    CountAppend(b[..j], [x] + b[j + 1..], m);
    CountAppend([x], b[j + 1..], m);
    CountAppend(b[..j], b[j + 1..], m);
  }

  /** The counts depend only on the multiset of elements, so they are the
      same before and after sorting. */
  lemma {:induction false} CountPermutation(a: seq<real>, b: seq<real>, m: real)
    requires multiset(a) == multiset(b)
    ensures CountLe(a, m) == CountLe(b, m) && CountGe(a, m) == CountGe(b, m)
  {
    if a == [] {
      assert |multiset(b)| == 0;
    } else {
      var x := a[0];
      assert x in multiset(b);
      var j :| 0 <= j < |b| && b[j] == x;
      var rest := b[..j] + b[j + 1..];
      RemoveAt(b, j, m);
      assert a == [x] + a[1..];
      assert multiset(a[1..]) == multiset(rest);
      CountPermutation(a[1..], rest, m);
    }
  }

  /** At least `k` elements are at most `m` when the first `k` are. */
  lemma {:induction false} CountLePrefix(s: seq<real>, m: real, k: nat)
    requires k <= |s|
    requires forall i :: 0 <= i < k ==> s[i] <= m
    ensures CountLe(s, m) >= k
  {
    if k > 0 {
      CountLePrefix(s[1..], m, k - 1);
    }
  }

  /** At least |s| - k elements are at least `m` when all from index `k` on are. */
  lemma {:induction false} CountGeSuffix(s: seq<real>, m: real, k: nat)
    requires k <= |s|
    requires forall i :: k <= i < |s| ==> s[i] >= m
    ensures CountGe(s, m) >= |s| - k
  {
    if s != [] {
      CountGeSuffix(s[1..], m, if k == 0 then 0 else k - 1);
    }
  }

  /** The element at index |s|/2 of a sorted permutation of `r` is the median of `r`. */
  lemma MedianOfSorted(r: seq<real>, s: seq<real>)
    requires Sorted(s) && multiset(s) == multiset(r) && s != []
    ensures IsMedian(r, s[|s| / 2])
  {
    var k := |s| / 2;
    var m := s[k];
    assert |r| == |s| by {
      assert |multiset(r)| == |multiset(s)|;
    }
    assert m in multiset(r);
    CountLePrefix(s, m, k + 1);
    CountGeSuffix(s, m, k);
    CountPermutation(s, r, m);
  }

  /** No element is both at most `lo` and at least `hi` when `lo < hi`. */
  lemma {:induction false} CountSplit(s: seq<real>, lo: real, hi: real)
    requires lo < hi
    ensures CountLe(s, lo) + CountGe(s, hi) <= |s|
  {
    if s != [] {
      CountSplit(s[1..], lo, hi);
    }
  }

  /** The median is unique, so the characterisation fixes the value the
      sort-and-index computation returns. */
  lemma MedianUnique(s: seq<real>, m1: real, m2: real)
    requires IsMedian(s, m1) && IsMedian(s, m2)
    ensures m1 == m2
  {
    if m1 < m2 {
      CountSplit(s, m1, m2);
    } else if m2 < m1 {
      CountSplit(s, m2, m1);
    }
  }
}
