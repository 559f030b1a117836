/** How far a sequence is from being sorted. */
module Inversions {
  import opened SortOrder

  /** How many elements are above x. */
  function Above<T>(less: (T, T) -> bool, s: seq<T>, x: T): nat {
    if s == [] then 0 else Above(less, s[..|s| - 1], x) + if less(x, s[|s| - 1]) then 1 else 0
  }

  /** How many pairs stand in the wrong order. */
  function WrongPairs<T>(less: (T, T) -> bool, s: seq<T>): nat {
    if s == [] then 0 else WrongPairs(less, s[..|s| - 1]) + Above(less, s[..|s| - 1], s[|s| - 1])
  }

  lemma {:induction false} AboveConcat<T>(less: (T, T) -> bool, p: seq<T>, q: seq<T>, x: T)
    ensures Above(less, p + q, x) == Above(less, p, x) + Above(less, q, x)
    decreases |q|
  {
    if q == [] {
      assert p + q == p;
    } else {
      assert (p + q)[..|p + q| - 1] == p + q[..|q| - 1];
      AboveConcat(less, p, q[..|q| - 1], x);
    }
  }

  lemma AboveOne<T>(less: (T, T) -> bool, e: T, x: T)
    ensures Above(less, [e], x) == if less(x, e) then 1 else 0
  {
    assert [e][..0] == [];
  }

  lemma SameRest<T>(p: seq<T>, e: T, u: seq<T>, v: seq<T>)
    requires multiset(p + [e]) == multiset(u + [e] + v)
    ensures multiset(p) == multiset(u + v)
  {
    var a, b := multiset(p), multiset(u + v);
    assert multiset(u + [e] + v) == multiset(u) + multiset{e} + multiset(v);
    assert multiset(p + [e]) == a + multiset{e};
    forall x
      ensures a[x] == b[x]
    {
      assert (a + multiset{e})[x] == (b + multiset{e})[x];
    }
  }

  lemma FindLast<T>(p: seq<T>, q: seq<T>) returns (i: int)
    requires multiset(p) == multiset(q) && p != []
    ensures 0 <= i < |q| && q[i] == p[|p| - 1]
  {
    assert p[|p| - 1] in multiset(p);
    i :| 0 <= i < |q| && q[i] == p[|p| - 1];
  }

  /** The order of the elements does not matter to how many are above x. */
  lemma {:induction false} AboveAnyOrder<T>(less: (T, T) -> bool, p: seq<T>, q: seq<T>, x: T)
    requires multiset(p) == multiset(q)
    ensures Above(less, p, x) == Above(less, q, x)
    decreases |p|
  {
    if p == [] {
      assert |multiset(q)| == 0;
    } else {
      var i := FindLast(p, q);
      var e, rest := p[|p| - 1], p[..|p| - 1];
      var u, v := q[..i], q[i + 1..];
      assert q == u + [e] + v && p == rest + [e];
      SameRest(rest, e, u, v);
      AboveAnyOrder(less, rest, u + v, x);
      AboveConcat(less, u, v, x);
      AboveConcat(less, u + [e], v, x);
      AboveConcat(less, u, [e], x);
      AboveOne(less, e, x);
    }
  }

  /** In a sorted sequence the elements above x are the last ones. */
  lemma {:induction false} AboveSorted<T>(less: (T, T) -> bool, s: seq<T>, x: T, k: int)
    requires 0 <= k <= |s|
    requires forall j :: 0 <= j < k ==> !less(x, s[j])
    requires forall j :: k <= j < |s| ==> less(x, s[j])
    ensures Above(less, s, x) == |s| - k
    decreases |s|
  {
    if s != [] {
      AboveSorted(less, s[..|s| - 1], x, if k == |s| then k - 1 else k);
    }
  }

  lemma {:induction false} WrongPairsGrow<T>(less: (T, T) -> bool, s: seq<T>, n: int)
    requires 0 <= n <= |s|
    ensures WrongPairs(less, s[..n]) <= WrongPairs(less, s)
    decreases |s|
  {
    if n == |s| {
      assert s[..n] == s;
    } else {
      WrongPairsGrow(less, s[..|s| - 1], n);
      assert s[..|s| - 1][..n] == s[..n];
    }
  }

  /** There are no inversions in a sorted sequence, and in no other. */
  lemma {:induction false} SortedHasNone<T>(less: (T, T) -> bool, s: seq<T>)
    ensures WrongPairs(less, s) == 0 <==> Sorted(less, s)
    decreases |s|
  {
    if s != [] {
      var rest, x := s[..|s| - 1], s[|s| - 1];
      SortedHasNone(less, rest);
      NoneAboveIs(less, rest, x);
    }
  }

  lemma {:induction false} NoneAboveIs<T>(less: (T, T) -> bool, s: seq<T>, x: T)
    ensures Above(less, s, x) == 0 <==> forall j :: 0 <= j < |s| ==> !less(x, s[j])
    decreases |s|
  {
    if s != [] {
      NoneAboveIs(less, s[..|s| - 1], x);
    }
  }

  /** The element at cur was moved over just the elements above it. */
  lemma SiftedOver<T(!new)>(less: (T, T) -> bool, s: seq<T>, lo: int, sift: int, cur: int)
    requires StrictWeakOrder(less) && 0 <= lo <= sift <= cur < |s| && Sorted(less, s[lo..cur])
    requires forall j :: sift <= j < cur ==> less(s[cur], s[j])
    requires sift == lo || !less(s[cur], s[sift - 1])
    ensures Above(less, s[lo..cur], s[cur]) == cur - sift
  {
    var u := s[lo..cur];
    forall j | 0 <= j < sift - lo
      ensures !less(s[cur], u[j])
    {
      assert u[sift - 1 - lo] == s[sift - 1];
      assert j < sift - 1 - lo ==> !less(u[sift - 1 - lo], u[j]);
    }
    AboveSorted(less, u, s[cur], sift - lo);
  }
}
