/** Orders, sortedness and rearrangements of a stretch of an array. */
module SortOrder {

  /** What a comparison function must be for sorting to make sense. */
  ghost predicate StrictWeakOrder<T(!new)>(less: (T, T) -> bool) {
    && (forall x :: !less(x, x))
    && (forall x, y, z :: less(x, y) && less(y, z) ==> less(x, z))
    && (forall x, y, z :: !less(x, y) && !less(y, z) ==> !less(x, z))
  }

  ghost predicate Sorted<T>(less: (T, T) -> bool, s: seq<T>) {
    forall i, j :: 0 <= i < j < |s| ==> !less(s[j], s[i])
  }

  /** Every element of the stretch is below p. */
  ghost predicate AllBelow<T>(less: (T, T) -> bool, s: seq<T>, lo: int, hi: int, p: T) {
    0 <= lo && hi <= |s| && forall i :: lo <= i < hi ==> less(s[i], p)
  }

  /** No element of the stretch is below p. */
  ghost predicate NoneBelow<T>(less: (T, T) -> bool, s: seq<T>, lo: int, hi: int, p: T) {
    0 <= lo && hi <= |s| && forall i :: lo <= i < hi ==> !less(s[i], p)
  }

  /** No element of the stretch is above p. */
  ghost predicate NoneAbove<T>(less: (T, T) -> bool, s: seq<T>, lo: int, hi: int, p: T) {
    0 <= lo && hi <= |s| && forall i :: lo <= i < hi ==> !less(p, s[i])
  }

  /** t is s with the elements of lo..hi-1 in another order. */
  ghost predicate Rearranged<T>(s: seq<T>, t: seq<T>, lo: int, hi: int) {
    && 0 <= lo <= hi <= |s| == |t|
    && s[..lo] == t[..lo] && s[hi..] == t[hi..]
    && multiset(s[lo..hi]) == multiset(t[lo..hi])
  }

  lemma NotRearranged<T>(s: seq<T>, lo: int, hi: int)
    requires 0 <= lo <= hi <= |s|
    ensures Rearranged(s, s, lo, hi)
  {
  }

  lemma RearrangedTwice<T>(s: seq<T>, t: seq<T>, u: seq<T>, lo: int, hi: int)
    requires Rearranged(s, t, lo, hi) && Rearranged(t, u, lo, hi)
    ensures Rearranged(s, u, lo, hi)
  {
  }

  /** A rearrangement of a part is one of the whole. */
  lemma RearrangedPart<T>(s: seq<T>, t: seq<T>, lo: int, l: int, h: int, hi: int)
    requires Rearranged(s, t, l, h) && 0 <= lo <= l && h <= hi <= |s|
    ensures Rearranged(s, t, lo, hi)
  {
    assert s[..lo] == s[..l][..lo] && t[..lo] == t[..l][..lo];
    assert s[hi..] == s[h..][hi - h..] && t[hi..] == t[h..][hi - h..];
    assert s[lo..l] == s[..l][lo..] && t[lo..l] == t[..l][lo..];
    assert s[h..hi] == s[h..][..hi - h] && t[h..hi] == t[h..][..hi - h];
    assert s[lo..hi] == s[lo..l] + s[l..h] + s[h..hi];
    assert t[lo..hi] == t[lo..l] + t[l..h] + t[h..hi];
  }

  /** Every element of the rearranged stretch was in it before. */
  lemma RearrangedFrom<T>(s: seq<T>, t: seq<T>, lo: int, hi: int, i: int) returns (j: int)
    requires Rearranged(s, t, lo, hi) && lo <= i < hi
    ensures lo <= j < hi && t[i] == s[j]
  {
    assert t[lo..hi][i - lo] in multiset(t[lo..hi]);
    assert t[i] in multiset(s[lo..hi]);
    assert t[i] in s[lo..hi];
    var m :| 0 <= m < hi - lo && s[lo..hi][m] == t[i];
    j := m + lo;
  }

  lemma BoundsKept<T>(less: (T, T) -> bool, s: seq<T>, t: seq<T>, lo: int, hi: int, p: T)
    requires Rearranged(s, t, lo, hi)
    ensures AllBelow(less, s, lo, hi, p) ==> AllBelow(less, t, lo, hi, p)
    ensures NoneBelow(less, s, lo, hi, p) ==> NoneBelow(less, t, lo, hi, p)
    ensures NoneAbove(less, s, lo, hi, p) ==> NoneAbove(less, t, lo, hi, p)
  {
    forall i | lo <= i < hi
      ensures exists j :: lo <= j < hi && t[i] == s[j]
    {
      var j := RearrangedFrom(s, t, lo, hi, i);
    }
  }

  /** Outside the stretch nothing has changed. */
  lemma KeptOutside<T>(s: seq<T>, t: seq<T>, lo: int, hi: int, i: int)
    requires Rearranged(s, t, lo, hi) && 0 <= i < |s| && (i < lo || i >= hi)
    ensures s[i] == t[i]
  {
    assert i < lo ==> s[i] == s[..lo][i] && t[i] == t[..lo][i];
    assert i >= hi ==> s[i] == s[hi..][i - hi] && t[i] == t[hi..][i - hi];
  }

  lemma Swapped<T>(s: seq<T>, lo: int, hi: int, i: int, j: int)
    requires 0 <= lo <= hi <= |s| && lo <= i < hi && lo <= j < hi
    ensures Rearranged(s, s[i := s[j]][j := s[i]], lo, hi)
  {
    var t := s[i := s[j]][j := s[i]];
    if i == j {
      assert t == s;
    } else {
      assert t[lo..hi] == s[lo..hi][i - lo := s[j]][j - lo := s[i]];
      assert s[lo..hi][i - lo] == s[i] && s[lo..hi][j - lo] == s[j];
    }
  }

  /** s with the element at cur taken out and put in at sift. */
  function Sifted<T>(s: seq<T>, sift: int, cur: int): (t: seq<T>)
    requires 0 <= sift <= cur < |s|
    ensures |t| == |s|
  {
    seq(|s|, k requires 0 <= k < |s| => if k == sift then s[cur] else if sift < k <= cur then s[k - 1] else s[k])
  }

  lemma SiftedIsRearranged<T>(s: seq<T>, lo: int, hi: int, sift: int, cur: int)
    requires 0 <= lo <= sift <= cur < hi <= |s|
    ensures Rearranged(s, Sifted(s, sift, cur), lo, hi)
  {
    var t := Sifted(s, sift, cur);
    assert t[..lo] == s[..lo] && t[hi..] == s[hi..];
    var u, v, w := s[lo..sift], s[sift..cur], s[cur + 1..hi];
    assert s[lo..hi] == u + v + [s[cur]] + w;
    assert t[lo..hi] == u + [s[cur]] + v + w;
  }

  /** Putting the next element of a sorted stretch in its place leaves one more sorted. */
  lemma SiftedIsSorted<T(!new)>(less: (T, T) -> bool, s: seq<T>, lo: int, sift: int, cur: int)
    requires StrictWeakOrder(less) && 0 <= lo <= sift <= cur < |s|
    requires Sorted(less, s[lo..cur])
    requires forall j :: sift <= j < cur ==> less(s[cur], s[j])
    requires sift == lo || !less(s[cur], s[sift - 1])
    ensures Sorted(less, Sifted(s, sift, cur)[lo..cur + 1])
  {
    var t := Sifted(s, sift, cur)[lo..cur + 1];
    var u := s[lo..cur];
    assert forall k :: 0 <= k < |t| ==> t[k] == if k == sift - lo then s[cur] else if k > sift - lo then u[k - 1] else u[k];
    forall i, j | 0 <= i < j < |t|
      ensures !less(t[j], t[i])
    {
      var i', j' := if i < sift - lo then i else i - 1, if j < sift - lo then j else j - 1;
      if i == sift - lo {
        assert u[j - 1] == s[lo + j - 1];
      } else if j == sift - lo {
        assert !less(s[cur], u[sift - 1 - lo]);
        assert i < sift - 1 - lo ==> !less(u[sift - 1 - lo], u[i]);
      } else {
        assert t[i] == u[i'] && t[j] == u[j'];
      }
    }
  }

  /** A sorted front, and a sorted back none of whose elements is below any of the front. */
  lemma SortedConcat<T>(less: (T, T) -> bool, s: seq<T>, lo: int, mid: int, hi: int)
    requires 0 <= lo <= mid <= hi <= |s|
    requires Sorted(less, s[lo..mid]) && Sorted(less, s[mid..hi])
    requires forall i, j :: lo <= i < mid <= j < hi ==> !less(s[j], s[i])
    ensures Sorted(less, s[lo..hi])
  {
    var t := s[lo..hi];
    forall i, j | 0 <= i < j < |t|
      ensures !less(t[j], t[i])
    {
      if j < mid - lo {
        assert t[i] == s[lo..mid][i] && t[j] == s[lo..mid][j];
      } else if i >= mid - lo {
        assert t[i] == s[mid..hi][i - (mid - lo)] && t[j] == s[mid..hi][j - (mid - lo)];
      }
    }
  }
}
