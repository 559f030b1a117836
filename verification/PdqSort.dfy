/** Pattern-defeating quicksort on a stretch [begin, end) of an array. */
module PdqSort {
  import opened SortOrder
  import opened Inversions
  import BlockPartition

  const INSERTION_SORT_THRESHOLD := 24
  const NINTHER_THRESHOLD := 128
  const PARTIAL_INSERTION_SORT_LIMIT := 8

  method Swap<T>(a: array<T>, i: int, j: int, ghost lo: int, ghost hi: int)
    requires 0 <= lo <= i < hi <= a.Length && lo <= j < hi
    modifies a
    ensures a[..] == old(a[..])[i := old(a[j])][j := old(a[i])]
    ensures Rearranged(old(a[..]), a[..], lo, hi)
  {
    ghost var s := a[..];
    var t := a[i];
    a[i] := a[j];
    a[j] := t;
    assert a[..] == s[i := s[j]][j := s[i]];
    Swapped(s, lo, hi, i, j);
  }

  /** Moves the element at cur, which is below its predecessor, back to its place. Without the guard
      the element before begin stops it. */
  method SiftBack<T(!new)>(a: array<T>, less: (T, T) -> bool, begin: int, cur: int, guarded: bool) returns (sift: int)
    requires 0 <= begin < cur < a.Length && less(a[cur], a[cur - 1])
    requires guarded || (begin > 0 && !less(a[cur], a[begin - 1]))
    modifies a
    ensures begin <= sift < cur && a[..] == Sifted(old(a[..]), sift, cur)
    ensures forall j :: sift <= j < cur ==> less(old(a[cur]), old(a[..])[j])
    ensures sift == begin || !less(old(a[cur]), old(a[sift - 1]))
  {
    hide Lifted, Sifted;
    ghost var s := a[..];
    var tmp := a[cur];
    a[cur] := a[cur - 1];
    sift := cur - 1;
    assert a[..] == s[cur := s[cur - 1]];
    LiftedOnce(s, cur);
    while (!guarded || sift != begin) && less(tmp, a[sift - 1])
      invariant begin <= sift < cur
      invariant Lifted(s, a[..], sift, cur) && (sift > 0 ==> a[sift - 1] == s[sift - 1])
      invariant forall j :: sift <= j < cur ==> less(tmp, s[j])
      decreases sift
    {
      ghost var t := a[..];
      a[sift] := a[sift - 1];
      assert a[..] == t[sift := t[sift - 1]];
      LiftedMore(s, t, sift, cur);
      sift := sift - 1;
      LiftedFront(s, a[..], sift, cur);
    }
    LiftedIsSifted(s, a[..], sift, cur);
    ghost var t := a[..];
    a[sift] := tmp;
    assert a[..] == t[sift := tmp];
  }

  /** One round of every insertion sort: the element at cur joins the sorted stretch before it. */
  method InsertNext<T(!new)>(a: array<T>, less: (T, T) -> bool, begin: int, cur: int, guarded: bool, ghost hi: int)
    returns (sift: int)
    requires StrictWeakOrder(less) && 0 <= begin < cur < hi <= a.Length
    requires guarded || (begin > 0 && !less(a[cur], a[begin - 1]))
    requires Sorted(less, a[begin..cur])
    modifies a
    ensures begin <= sift <= cur
    ensures Rearranged(old(a[..]), a[..], begin, hi) && Sorted(less, a[begin..cur + 1])
    ensures a[cur + 1..] == old(a[cur + 1..])
    ensures cur - sift == Above(less, old(a[begin..cur]), old(a[cur]))
  {
    hide Rearranged, Sorted, StrictWeakOrder, Sifted, Above;
    ghost var s := a[..];
    sift := cur;
    SiftedNowhere(s, cur);
    if less(a[cur], a[cur - 1]) {
      sift := SiftBack(a, less, begin, cur, guarded);
    }
    assert a[..] == Sifted(s, sift, cur);
    assert s[begin..cur] == old(a[begin..cur]);
    SiftedTail(s, sift, cur);
    assert a[cur + 1..] == a[..][cur + 1..];
    SiftedIsRearranged(s, begin, hi, sift, cur);
    SiftedIsSorted(less, s, begin, sift, cur);
    SiftedOver(less, s, begin, sift, cur);
    assert a[begin..cur + 1] == a[..][begin..cur + 1];
  }

  lemma SiftedNowhere<T>(s: seq<T>, cur: int)
    requires 0 <= cur < |s|
    ensures Sifted(s, cur, cur) == s
  {
  }

  lemma SiftedTail<T>(s: seq<T>, sift: int, cur: int)
    requires 0 <= sift <= cur < |s|
    ensures Sifted(s, sift, cur)[cur + 1..] == s[cur + 1..]
  {
  }

  /** While sifting: the hole is at sift and everything between it and cur has moved up by one. */
  ghost predicate Lifted<T>(s: seq<T>, t: seq<T>, sift: int, cur: int) {
    && 0 <= sift < cur < |s| == |t|
    && (forall j :: 0 <= j <= sift || cur < j < |s| ==> t[j] == s[j])
    && (forall j :: sift < j <= cur ==> t[j] == s[j - 1])
  }

  lemma LiftedOnce<T>(s: seq<T>, cur: int)
    requires 0 < cur < |s|
    ensures Lifted(s, s[cur := s[cur - 1]], cur - 1, cur)
  {
  }

  lemma LiftedFront<T>(s: seq<T>, t: seq<T>, sift: int, cur: int)
    requires Lifted(s, t, sift, cur)
    ensures sift > 0 ==> t[sift - 1] == s[sift - 1]
  {
  }

  lemma LiftedMore<T>(s: seq<T>, t: seq<T>, sift: int, cur: int)
    requires Lifted(s, t, sift, cur) && sift > 0
    ensures Lifted(s, t[sift := t[sift - 1]], sift - 1, cur)
  {
  }

  lemma LiftedIsSifted<T>(s: seq<T>, t: seq<T>, sift: int, cur: int)
    requires Lifted(s, t, sift, cur)
    ensures t[sift := s[cur]] == Sifted(s, sift, cur)
  {
  }

  method InsertionSort<T(!new)>(a: array<T>, begin: int, end: int, less: (T, T) -> bool)
    requires StrictWeakOrder(less) && 0 <= begin <= end <= a.Length
    modifies a
    ensures Rearranged(old(a[..]), a[..], begin, end) && Sorted(less, a[begin..end])
  {
    hide Rearranged, Sorted, StrictWeakOrder;
    NotRearranged(a[..], begin, end);
    ShortIsSorted(less, a[..], begin, end);
    if begin == end {
      return;
    }
    var cur := begin + 1;
    while cur != end
      invariant begin < cur <= end
      invariant Rearranged(old(a[..]), a[..], begin, end) && Sorted(less, a[begin..cur])
    {
      ghost var s := a[..];
      var sift := InsertNext(a, less, begin, cur, true, end);
      RearrangedTwice(old(a[..]), s, a[..], begin, end);
      cur := cur + 1;
    }
  }

  lemma ShortIsSorted<T>(less: (T, T) -> bool, s: seq<T>, begin: int, end: int)
    requires 0 <= begin <= end <= |s|
    ensures begin == end ==> Sorted(less, s[begin..end])
    ensures begin < end ==> Sorted(less, s[begin..begin + 1])
  {
  }

  /** Needs an element before begin that is not above any element of the stretch. */
  method UnguardedInsertionSort<T(!new)>(a: array<T>, begin: int, end: int, less: (T, T) -> bool)
    requires StrictWeakOrder(less) && 0 < begin <= end <= a.Length
    requires NoneBelow(less, a[..], begin, end, a[begin - 1])
    modifies a
    ensures Rearranged(old(a[..]), a[..], begin, end) && Sorted(less, a[begin..end])
  {
    hide Rearranged, Sorted, StrictWeakOrder, NoneBelow;
    NotRearranged(a[..], begin, end);
    ShortIsSorted(less, a[..], begin, end);
    if begin == end {
      return;
    }
    var cur := begin + 1;
    while cur != end
      invariant begin < cur <= end
      invariant Rearranged(old(a[..]), a[..], begin, end) && Sorted(less, a[begin..cur])
    {
      ghost var s := a[..];
      KeptOutside(old(a[..]), s, begin, end, begin - 1);
      BoundsKept(less, old(a[..]), s, begin, end, old(a[begin - 1]));
      BelowNothing(less, s, begin, end, old(a[begin - 1]), cur);
      var sift := InsertNext(a, less, begin, cur, false, end);
      RearrangedTwice(old(a[..]), s, a[..], begin, end);
      cur := cur + 1;
    }
  }

  lemma BelowNothing<T>(less: (T, T) -> bool, s: seq<T>, lo: int, hi: int, p: T, i: int)
    requires NoneBelow(less, s, lo, hi, p) && lo <= i < hi
    ensures !less(s[i], p)
  {
  }

  /** Gives up, without having sorted, once more than eight places were moved over. It sorts just when no more
      than eight pairs stand in the wrong order. */
  method PartialInsertionSort<T(!new)>(a: array<T>, begin: int, end: int, less: (T, T) -> bool) returns (done: bool)
    requires StrictWeakOrder(less) && 0 <= begin <= end <= a.Length
    modifies a
    ensures Rearranged(old(a[..]), a[..], begin, end)
    ensures done ==> Sorted(less, a[begin..end])
    ensures done <==> WrongPairs(less, old(a[begin..end])) <= PARTIAL_INSERTION_SORT_LIMIT
  {
    hide *;
    ghost var s0 := a[..];
    assert s0[begin..end] == a[begin..end];
    NoInversions(less, s0, begin);
    NotRearranged(s0, begin, begin);
    NotRearranged(a[..], begin, end);
    ShortIsSorted(less, a[..], begin, end);
    if begin == end {
      return true;
    }
    var limit := 0;
    var cur := begin + 1;
    NotRearranged(s0, begin, cur);
    while cur != end
      invariant begin < cur <= end && |s0| == a.Length
      invariant Rearranged(s0, a[..], begin, cur) && Sorted(less, a[begin..cur])
      invariant limit == WrongPairs(less, s0[begin..cur]) && limit <= PARTIAL_INSERTION_SORT_LIMIT
      invariant Rearranged(s0, a[..], begin, end)
    {
      ghost var s := a[..];
      var sift := InsertNext(a, less, begin, cur, true, cur + 1);
      OneMoreInserted(less, s0, s, a[..], begin, cur, end);
      limit := limit + (cur - sift);
      if limit > PARTIAL_INSERTION_SORT_LIMIT {
        StillWrong(less, s0, begin, cur + 1, end);
        return false;
      }
      cur := cur + 1;
    }
    done := true;
  }

  lemma NoInversions<T>(less: (T, T) -> bool, s: seq<T>, begin: int)
    requires 0 <= begin <= |s|
    ensures WrongPairs(less, s[begin..begin]) == 0 <= PARTIAL_INSERTION_SORT_LIMIT
    ensures begin < |s| ==> WrongPairs(less, s[begin..begin + 1]) == 0
  {
    if begin < |s| {
      assert s[begin..begin + 1][..0] == [];
    }
  }

  lemma StillWrong<T>(less: (T, T) -> bool, s: seq<T>, begin: int, mid: int, end: int)
    requires 0 <= begin <= mid <= end <= |s|
    ensures WrongPairs(less, s[begin..mid]) <= WrongPairs(less, s[begin..end])
  {
    WrongPairsGrow(less, s[begin..end], mid - begin);
    assert s[begin..end][..mid - begin] == s[begin..mid];
  }

  /** The next element joined a rearranged front. */
  lemma OneMoreInserted<T>(less: (T, T) -> bool, s0: seq<T>, s: seq<T>, t: seq<T>, begin: int, cur: int, end: int)
    requires Rearranged(s0, s, begin, cur) && cur < end <= |s0| && Rearranged(s, t, begin, cur + 1)
    ensures Rearranged(s0, t, begin, cur + 1) && Rearranged(s0, t, begin, end)
    ensures WrongPairs(less, s0[begin..cur + 1]) == WrongPairs(less, s0[begin..cur]) + Above(less, s[begin..cur], s[cur])
  {
    RearrangedPart(s0, s, begin, begin, cur, cur + 1);
    RearrangedTwice(s0, s, t, begin, cur + 1);
    RearrangedPart(s0, t, begin, begin, cur + 1, end);
    assert s[cur] == s[cur..][0] == s0[cur..][0] == s0[cur];
    assert s0[begin..cur + 1][..cur - begin] == s0[begin..cur];
    AboveAnyOrder(less, s0[begin..cur], s[begin..cur], s[cur]);
  }

  method Sort2<T(!new)>(a: array<T>, i: int, j: int, less: (T, T) -> bool, ghost lo: int, ghost hi: int)
    requires 0 <= lo <= i < hi <= a.Length && lo <= j < hi && i != j && StrictWeakOrder(less)
    modifies a
    ensures Rearranged(old(a[..]), a[..], lo, hi)
    ensures !less(a[j], a[i])
    ensures forall k :: 0 <= k < a.Length && k != i && k != j ==> a[k] == old(a[..])[k]
    ensures (a[i] == old(a[i]) && a[j] == old(a[j])) || (a[i] == old(a[j]) && a[j] == old(a[i]) && less(a[i], a[j]))
  {
    hide Rearranged, StrictWeakOrder;
    NotRearranged(a[..], lo, hi);
    Asymmetric(less, a[j], a[i]);
    if less(a[j], a[i]) {
      Swap(a, i, j, lo, hi);
    }
  }

  lemma Asymmetric<T(!new)>(less: (T, T) -> bool, x: T, y: T)
    requires StrictWeakOrder(less)
    ensures less(x, y) ==> !less(y, x)
  {
    assert less(x, y) && less(y, x) ==> less(x, x);
  }

  /** Puts three elements in order. */
  method Sort3<T(!new)>(a: array<T>, i: int, j: int, k: int, less: (T, T) -> bool, ghost lo: int, ghost hi: int)
    requires 0 <= lo <= i < hi <= a.Length && lo <= j < hi && lo <= k < hi && i != j && j != k && i != k
    requires StrictWeakOrder(less)
    modifies a
    ensures Rearranged(old(a[..]), a[..], lo, hi)
    ensures !less(a[j], a[i]) && !less(a[k], a[j])
    ensures forall m :: 0 <= m < a.Length && m != i && m != j && m != k ==> a[m] == old(a[..])[m]
  {
    hide Rearranged;
    ghost var s := a[..];
    Sort2(a, i, j, less, lo, hi);
    ghost var t := a[..];
    Sort2(a, j, k, less, lo, hi);
    ghost var u := a[..];
    Sort2(a, i, j, less, lo, hi);
    RearrangedTwice(s, t, u, lo, hi);
    RearrangedTwice(s, u, a[..], lo, hi);
  }

  /** Every element of the stretch is above p. */
  ghost predicate AllAbove<T>(less: (T, T) -> bool, s: seq<T>, lo: int, hi: int, p: T) {
    0 <= lo && hi <= |s| && forall i :: lo <= i < hi ==> less(p, s[i])
  }

  /** The four unguarded scans; each is stopped at the latest by the element at stop. */
  method ScanUpBelow<T(!new)>(a: array<T>, start: int, pivot: T, less: (T, T) -> bool, ghost lo: int, ghost stop: int)
    returns (first: int)
    requires 0 <= lo <= start <= stop < a.Length && !less(a[stop], pivot) && AllBelow(less, a[..], lo, start, pivot)
    ensures start <= first <= stop && !less(a[first], pivot) && AllBelow(less, a[..], lo, first, pivot)
  {
    first := start;
    while less(a[first], pivot)
      invariant start <= first <= stop && AllBelow(less, a[..], lo, first, pivot)
      decreases stop - first
    {
      first := first + 1;
    }
  }

  method ScanDownNotBelow<T(!new)>(a: array<T>, start: int, pivot: T, less: (T, T) -> bool, ghost hi: int, ghost stop: int)
    returns (last: int)
    requires 0 <= stop <= start < hi <= a.Length && less(a[stop], pivot) && NoneBelow(less, a[..], start + 1, hi, pivot)
    ensures stop <= last <= start && less(a[last], pivot) && NoneBelow(less, a[..], last + 1, hi, pivot)
  {
    last := start;
    while !less(a[last], pivot)
      invariant stop <= last <= start && NoneBelow(less, a[..], last + 1, hi, pivot)
      decreases last
    {
      last := last - 1;
    }
  }

  method ScanDownAbove<T(!new)>(a: array<T>, start: int, pivot: T, less: (T, T) -> bool, ghost hi: int, ghost stop: int)
    returns (last: int)
    requires 0 <= stop <= start < hi <= a.Length && !less(pivot, a[stop]) && AllAbove(less, a[..], start + 1, hi, pivot)
    ensures stop <= last <= start && !less(pivot, a[last]) && AllAbove(less, a[..], last + 1, hi, pivot)
  {
    last := start;
    while less(pivot, a[last])
      invariant stop <= last <= start && AllAbove(less, a[..], last + 1, hi, pivot)
      decreases last
    {
      last := last - 1;
    }
  }

  method ScanUpNotAbove<T(!new)>(a: array<T>, start: int, pivot: T, less: (T, T) -> bool, ghost lo: int, ghost stop: int)
    returns (first: int)
    requires 0 <= lo <= start <= stop < a.Length && less(pivot, a[stop]) && NoneAbove(less, a[..], lo, start, pivot)
    ensures start <= first <= stop && less(pivot, a[first]) && NoneAbove(less, a[..], lo, first, pivot)
  {
    first := start;
    while !less(pivot, a[first])
      invariant start <= first <= stop && NoneAbove(less, a[..], lo, first, pivot)
      decreases stop - first
    {
      first := first + 1;
    }
  }

  /** The first two scans of a partition: up to the first element not below the pivot, which must
      exist, and down to the last one below it. The second is guarded when nothing was passed. */
  method FirstPair<T(!new)>(a: array<T>, begin: int, end: int, pivot: T, less: (T, T) -> bool, ghost stop: int)
    returns (first: int, last: int)
    requires 0 <= begin < stop < end <= a.Length && !less(a[stop], pivot)
    ensures begin < first <= stop && first - 1 <= last < end
    ensures Parted(less, a[..], begin, end, pivot, first, last)
  {
    first := ScanUpBelow(a, begin + 1, pivot, less, begin + 1, stop);
    last := end;
    if first - 1 == begin {
      var again := true;
      while again && first < last
        invariant first <= last <= end
        invariant again ==> NoneBelow(less, a[..], last, end, pivot)
        invariant !again ==> NoneBelow(less, a[..], last + 1, end, pivot) && last < end && less(a[last], pivot)
        decreases last, again
      {
        last := last - 1;
        again := !less(a[last], pivot);
      }
    } else {
      last := ScanDownNotBelow(a, end - 1, pivot, less, end, first - 1);
    }
  }

  /** Up to first everything is below the pivot, after last nothing is; and either both stand on
      misplaced elements or they have met. */
  ghost predicate Parted<T>(less: (T, T) -> bool, s: seq<T>, begin: int, end: int, pivot: T, first: int, last: int) {
    && begin < first <= last + 1 <= end <= |s| && 0 <= begin
    && AllBelow(less, s, begin + 1, first, pivot)
    && if first < last then !less(s[first], pivot) && less(s[last], pivot) && NoneBelow(less, s, last + 1, end, pivot)
       else NoneBelow(less, s, first, end, pivot)
  }

  /** The same with equal elements going left. */
  ghost predicate PartedLeft<T>(less: (T, T) -> bool, s: seq<T>, begin: int, end: int, pivot: T, first: int, last: int) {
    && begin < first <= last + 1 <= end <= |s| && 0 <= begin
    && AllAbove(less, s, last + 1, end, pivot)
    && if first < last then less(pivot, s[first]) && !less(pivot, s[last]) && NoneAbove(less, s, begin + 1, first, pivot)
       else NoneAbove(less, s, begin + 1, last + 1, pivot)
  }

  /** The pivot, kept at begin, changes places with the last element below it. */
  method PlacePivot<T(!new)>(a: array<T>, begin: int, pivotPos: int, pivot: T, less: (T, T) -> bool, ghost end: int)
    requires 0 <= begin <= pivotPos < end <= a.Length && a[begin] == pivot
    requires AllBelow(less, a[..], begin + 1, pivotPos + 1, pivot) && NoneBelow(less, a[..], pivotPos + 1, end, pivot)
    modifies a
    ensures Rearranged(old(a[..]), a[..], begin, end) && a[pivotPos] == pivot
    ensures AllBelow(less, a[..], begin, pivotPos, pivot) && NoneBelow(less, a[..], pivotPos + 1, end, pivot)
  {
    ghost var s := a[..];
    a[begin] := a[pivotPos];
    a[pivotPos] := pivot;
    assert a[..] == s[begin := s[pivotPos]][pivotPos := s[begin]];
    Swapped(s, begin, end, begin, pivotPos);
  }

  /** The elements after the pivot at begin are already split into those below it and the others. */
  ghost predicate Partitioned<T>(less: (T, T) -> bool, s: seq<T>, begin: int, end: int)
    requires 0 <= begin < |s|
  {
    exists m :: begin < m <= end && AllBelow(less, s, begin + 1, m, s[begin]) && NoneBelow(less, s, m, end, s[begin])
  }

  lemma PartedAlready<T>(less: (T, T) -> bool, s: seq<T>, begin: int, end: int, first: int, last: int)
    requires 0 <= begin < end <= |s| && Parted(less, s, begin, end, s[begin], first, last)
    ensures first >= last <==> Partitioned(less, s, begin, end)
  {
    if first >= last {
      assert begin < first <= end && AllBelow(less, s, begin + 1, first, s[begin]) && NoneBelow(less, s, first, end, s[begin]);
    }
  }

  /** Partitions around the pivot at begin; elements equal to it go right. */
  method PartitionRight<T(!new)>(a: array<T>, begin: int, end: int, less: (T, T) -> bool, ghost stop: int)
    returns (pivotPos: int, alreadyPartitioned: bool)
    requires 0 <= begin < stop < end <= a.Length && !less(a[stop], a[begin])
    modifies a
    ensures begin <= pivotPos < end && a[pivotPos] == old(a[begin])
    ensures Rearranged(old(a[..]), a[..], begin, end)
    ensures AllBelow(less, a[..], begin, pivotPos, a[pivotPos]) && NoneBelow(less, a[..], pivotPos + 1, end, a[pivotPos])
    ensures alreadyPartitioned <==> old(Partitioned(less, a[..], begin, end))
  {
    hide Rearranged, AllBelow, NoneBelow, Partitioned;
    var pivot := a[begin];
    NotRearranged(a[..], begin, end);
    var first, last := FirstPair(a, begin, end, pivot, less, stop);
    alreadyPartitioned := first >= last;
    PartedAlready(less, a[..], begin, end, first, last);
    while first < last
      invariant begin < first <= last + 1 <= end && a[begin] == pivot
      invariant Rearranged(old(a[..]), a[..], begin, end)
      invariant Parted(less, a[..], begin, end, pivot, first, last)
      decreases last - first
    {
      ghost var s := a[..];
      Swap(a, first, last, begin, end);
      RearrangedTwice(old(a[..]), s, a[..], begin, end);
      PairSwapped(less, s, begin, end, pivot, first, last);
      ghost var f, l := first, last;
      first := ScanUpBelow(a, first + 1, pivot, less, begin + 1, l);
      last := ScanDownNotBelow(a, last - 1, pivot, less, end, f);
      Met(less, a[..], begin, end, pivot, first, last, f, l);
    }
    pivotPos := first - 1;
    ghost var s := a[..];
    PlacePivot(a, begin, pivotPos, pivot, less, end);
    RearrangedTwice(old(a[..]), s, a[..], begin, end);
  }

  lemma PairSwapped<T>(less: (T, T) -> bool, s: seq<T>, begin: int, end: int, pivot: T, first: int, last: int)
    requires Parted(less, s, begin, end, pivot, first, last) && first < last
    ensures 0 <= begin < first < last < end <= |s|
    ensures var t := s[first := s[last]][last := s[first]];
            && AllBelow(less, t, begin + 1, first + 1, pivot) && NoneBelow(less, t, last, end, pivot)
            && less(t[first], pivot) && !less(t[last], pivot)
  {
  }

  /** Two scans that have crossed stand next to each other. */
  lemma Met<T>(less: (T, T) -> bool, s: seq<T>, begin: int, end: int, pivot: T, first: int, last: int, f: int, l: int)
    requires 0 <= begin < f < first <= l < end <= |s| && f <= last < l
    requires AllBelow(less, s, begin + 1, first, pivot) && !less(s[first], pivot)
    requires NoneBelow(less, s, last + 1, end, pivot) && less(s[last], pivot)
    ensures Parted(less, s, begin, end, pivot, first, last)
  {
    var next := s[last + 1];
    assert last + 1 < first ==> less(next, pivot);
  }

  lemma PairSwappedLeft<T>(less: (T, T) -> bool, s: seq<T>, begin: int, end: int, pivot: T, first: int, last: int)
    requires PartedLeft(less, s, begin, end, pivot, first, last) && first < last
    ensures var t := s[first := s[last]][last := s[first]];
            && NoneAbove(less, t, begin + 1, first + 1, pivot) && AllAbove(less, t, last, end, pivot)
            && less(pivot, t[last]) && !less(pivot, t[first])
  {
  }

  lemma MetLeft<T>(less: (T, T) -> bool, s: seq<T>, begin: int, end: int, pivot: T, first: int, last: int, f: int, l: int)
    requires 0 <= begin <= f < first <= l <= end <= |s| && f <= last < l && first < |s|
    requires NoneAbove(less, s, begin + 1, first, pivot) && less(pivot, s[first])
    requires AllAbove(less, s, last + 1, end, pivot) && !less(pivot, s[last]) && first <= last + 1
    ensures PartedLeft(less, s, begin, end, pivot, first, last)
  {
  }

  /** Partitions around the pivot at begin; elements equal to it go left. */
  method PartitionLeft<T(!new)>(a: array<T>, begin: int, end: int, less: (T, T) -> bool, ghost stop: int)
    returns (pivotPos: int)
    requires 0 <= begin < stop < end <= a.Length && !less(a[begin], a[stop])
    modifies a
    ensures begin <= pivotPos < end && a[pivotPos] == old(a[begin])
    ensures Rearranged(old(a[..]), a[..], begin, end)
    ensures NoneAbove(less, a[..], begin, pivotPos, a[pivotPos]) && AllAbove(less, a[..], pivotPos + 1, end, a[pivotPos])
  {
    hide Rearranged, NoneAbove, AllAbove;
    var pivot := a[begin];
    NotRearranged(a[..], begin, end);
    var first, last := FirstPairLeft(a, begin, end, pivot, less, stop);
    while first < last
      invariant begin < first <= last + 1 <= end && a[begin] == pivot
      invariant Rearranged(old(a[..]), a[..], begin, end)
      invariant PartedLeft(less, a[..], begin, end, pivot, first, last)
      decreases last - first
    {
      ghost var s := a[..];
      Swap(a, first, last, begin, end);
      RearrangedTwice(old(a[..]), s, a[..], begin, end);
      PairSwappedLeft(less, s, begin, end, pivot, first, last);
      ghost var f, l := first, last;
      last := ScanDownAbove(a, last - 1, pivot, less, end, f);
      first := ScanUpNotAbove(a, first + 1, pivot, less, begin + 1, l);
      CrossedLeft(less, a[..], begin, end, pivot, first, last);
      MetLeft(less, a[..], begin, end, pivot, first, last, f, l);
    }
    pivotPos := last;
    ghost var s := a[..];
    PlacePivotLeft(a, begin, pivotPos, pivot, less, end);
    RearrangedTwice(old(a[..]), s, a[..], begin, end);
  }

  lemma CrossedLeft<T>(less: (T, T) -> bool, s: seq<T>, begin: int, end: int, pivot: T, first: int, last: int)
    requires 0 <= begin < first < end <= |s| && begin < last < end
    requires NoneAbove(less, s, begin + 1, first, pivot) && AllAbove(less, s, last + 1, end, pivot)
    ensures first <= last + 1
  {
    var k := if last + 1 < end then last + 1 else last;
    var next := s[k];
    assert k == last + 1 ==> less(pivot, next);
  }

  method FirstPairLeft<T(!new)>(a: array<T>, begin: int, end: int, pivot: T, less: (T, T) -> bool, ghost stop: int)
    returns (first: int, last: int)
    requires 0 <= begin < stop < end <= a.Length && !less(pivot, a[stop])
    ensures begin < first <= last + 1 <= end && stop <= last
    ensures PartedLeft(less, a[..], begin, end, pivot, first, last)
  {
    last := ScanDownAbove(a, end - 1, pivot, less, end, stop);
    first := begin;
    if last + 1 == end {
      var again := true;
      while again && first < last
        invariant begin <= first <= last
        invariant again ==> NoneAbove(less, a[..], begin + 1, first + 1, pivot)
        invariant !again ==> NoneAbove(less, a[..], begin + 1, first, pivot) && begin < first && less(pivot, a[first])
        decreases last - first, again
      {
        first := first + 1;
        again := !less(pivot, a[first]);
      }
    } else {
      first := ScanUpNotAbove(a, begin + 1, pivot, less, begin + 1, last + 1);
    }
  }

  method PlacePivotLeft<T(!new)>(a: array<T>, begin: int, pivotPos: int, pivot: T, less: (T, T) -> bool, ghost end: int)
    requires 0 <= begin <= pivotPos < end <= a.Length && a[begin] == pivot
    requires NoneAbove(less, a[..], begin + 1, pivotPos + 1, pivot) && AllAbove(less, a[..], pivotPos + 1, end, pivot)
    modifies a
    ensures Rearranged(old(a[..]), a[..], begin, end) && a[pivotPos] == pivot
    ensures NoneAbove(less, a[..], begin, pivotPos, pivot) && AllAbove(less, a[..], pivotPos + 1, end, pivot)
  {
    ghost var s := a[..];
    a[begin] := a[pivotPos];
    a[pivotPos] := pivot;
    assert a[..] == s[begin := s[pivotPos]][pivotPos := s[begin]];
    Swapped(s, begin, end, begin, pivotPos);
  }

  /** Swaps the first misplaced pair and leaves what lies between to the block partition. */
  method PartitionRest<T(!new)>(a: array<T>, begin: int, end: int, pivot: T, less: (T, T) -> bool, first: int, last: int)
    returns (border: int)
    requires 0 <= begin < end <= a.Length && a[begin] == pivot
    requires Parted(less, a[..], begin, end, pivot, first, last) && first < last
    modifies a
    ensures begin < border <= end && a[begin] == pivot && Rearranged(old(a[..]), a[..], begin, end)
    ensures AllBelow(less, a[..], begin + 1, border, pivot) && NoneBelow(less, a[..], border, end, pivot)
  {
    hide *;
    ghost var s := a[..];
    PairSwapped(less, s, begin, end, pivot, first, last);
    Swap(a, first, last, begin + 1, end);
    ghost var t := a[..];
    assert t[begin] == s[begin];
    RearrangedPart(s, t, begin, begin + 1, end, end);
    border := BlockPartition.PartitionBlocks(a, first + 1, last, pivot, less, begin + 1, end);
    KeptOutside(t, a[..], begin + 1, end, begin);
    RearrangedPart(t, a[..], begin, begin + 1, end, end);
    RearrangedTwice(s, t, a[..], begin, end);
  }

  /** The same partition done block by block. */
  method PartitionRightBranchless<T(!new)>(a: array<T>, begin: int, end: int, less: (T, T) -> bool, ghost stop: int)
    returns (pivotPos: int, alreadyPartitioned: bool)
    requires 0 <= begin < stop < end <= a.Length && !less(a[stop], a[begin])
    modifies a
    ensures begin <= pivotPos < end && a[pivotPos] == old(a[begin])
    ensures Rearranged(old(a[..]), a[..], begin, end)
    ensures AllBelow(less, a[..], begin, pivotPos, a[pivotPos]) && NoneBelow(less, a[..], pivotPos + 1, end, a[pivotPos])
    ensures alreadyPartitioned <==> old(Partitioned(less, a[..], begin, end))
  {
    hide Rearranged, AllBelow, NoneBelow, Partitioned;
    var pivot := a[begin];
    NotRearranged(a[..], begin, end);
    var first, last := FirstPair(a, begin, end, pivot, less, stop);
    alreadyPartitioned := first >= last;
    PartedAlready(less, a[..], begin, end, first, last);
    if !alreadyPartitioned {
      first := PartitionRest(a, begin, end, pivot, less, first, last);
    }
    pivotPos := first - 1;
    ghost var s := a[..];
    PlacePivot(a, begin, pivotPos, pivot, less, end);
    RearrangedTwice(old(a[..]), s, a[..], begin, end);
  }

  /** Brings the median of three elements, or the pseudomedian of nine, to begin. One element that is
      not above it and one that is not below it stay behind it: they stop the unguarded scans. */
  method ChoosePivot<T(!new)>(a: array<T>, begin: int, end: int, less: (T, T) -> bool) returns (ghost low: int, ghost high: int)
    requires StrictWeakOrder(less) && 0 <= begin && end <= a.Length && end - begin >= INSERTION_SORT_THRESHOLD
    modifies a
    ensures Rearranged(old(a[..]), a[..], begin, end)
    ensures begin < low < end && begin < high < end && !less(a[begin], a[low]) && !less(a[high], a[begin])
  {
    hide Rearranged;
    var size := end - begin;
    var s2 := size / 2;
    ghost var s := a[..];
    if size > NINTHER_THRESHOLD {
      Sort3(a, begin, begin + s2, end - 1, less, begin, end);
      ghost var t := a[..];
      Sort3(a, begin + 1, begin + (s2 - 1), end - 2, less, begin, end);
      RearrangedTwice(s, t, a[..], begin, end);
      t := a[..];
      Sort3(a, begin + 2, begin + (s2 + 1), end - 3, less, begin, end);
      RearrangedTwice(s, t, a[..], begin, end);
      t := a[..];
      Sort3(a, begin + (s2 - 1), begin + s2, begin + (s2 + 1), less, begin, end);
      RearrangedTwice(s, t, a[..], begin, end);
      t := a[..];
      Swap(a, begin, begin + s2, begin, end);
      RearrangedTwice(s, t, a[..], begin, end);
      low, high := begin + s2 - 1, begin + s2 + 1;
    } else {
      Sort3(a, begin + s2, begin, end - 1, less, begin, end);
      low, high := begin + s2, end - 1;
    }
  }

  /** Stands in for std::make_heap followed by std::sort_heap. */
  method HeapSort<T(!new)>(a: array<T>, begin: int, end: int, less: (T, T) -> bool)
    requires StrictWeakOrder(less) && 0 <= begin <= end <= a.Length
    modifies a
    ensures Rearranged(old(a[..]), a[..], begin, end) && Sorted(less, a[begin..end])
  {
    InsertionSort(a, begin, end, less);
  }

  /** Breaks up patterns on the left of a highly unbalanced partition. */
  method ShuffleLeft<T(!new)>(a: array<T>, begin: int, pivotPos: int)
    requires 0 <= begin <= pivotPos <= a.Length
    modifies a
    ensures Rearranged(old(a[..]), a[..], begin, pivotPos)
  {
    hide Rearranged;
    ghost var s := a[..];
    NotRearranged(s, begin, pivotPos);
    var lSize := pivotPos - begin;
    if lSize >= INSERTION_SORT_THRESHOLD {
      SwapMore(a, begin, begin + lSize / 4, begin, pivotPos, s);
      SwapMore(a, pivotPos - 1, pivotPos - lSize / 4, begin, pivotPos, s);
      if lSize > NINTHER_THRESHOLD {
        SwapMore(a, begin + 1, begin + (lSize / 4 + 1), begin, pivotPos, s);
        SwapMore(a, begin + 2, begin + (lSize / 4 + 2), begin, pivotPos, s);
        SwapMore(a, pivotPos - 2, pivotPos - (lSize / 4 + 1), begin, pivotPos, s);
        SwapMore(a, pivotPos - 3, pivotPos - (lSize / 4 + 2), begin, pivotPos, s);
      }
    }
  }

  method ShuffleRight<T(!new)>(a: array<T>, pivotPos: int, end: int)
    requires 0 <= pivotPos < end <= a.Length
    modifies a
    ensures Rearranged(old(a[..]), a[..], pivotPos + 1, end)
  {
    hide Rearranged;
    ghost var s := a[..];
    NotRearranged(s, pivotPos + 1, end);
    var rSize := end - (pivotPos + 1);
    if rSize >= INSERTION_SORT_THRESHOLD {
      SwapMore(a, pivotPos + 1, pivotPos + (1 + rSize / 4), pivotPos + 1, end, s);
      SwapMore(a, end - 1, end - rSize / 4, pivotPos + 1, end, s);
      if rSize > NINTHER_THRESHOLD {
        SwapMore(a, pivotPos + 2, pivotPos + (2 + rSize / 4), pivotPos + 1, end, s);
        SwapMore(a, pivotPos + 3, pivotPos + (3 + rSize / 4), pivotPos + 1, end, s);
        SwapMore(a, end - 2, end - (1 + rSize / 4), pivotPos + 1, end, s);
        SwapMore(a, end - 3, end - (2 + rSize / 4), pivotPos + 1, end, s);
      }
    }
  }

  method SwapMore<T>(a: array<T>, i: int, j: int, ghost lo: int, ghost hi: int, ghost s: seq<T>)
    requires 0 <= lo <= i < hi <= a.Length && lo <= j < hi && Rearranged(s, a[..], lo, hi)
    modifies a
    ensures Rearranged(s, a[..], lo, hi)
  {
    ghost var t := a[..];
    Swap(a, i, j, lo, hi);
    RearrangedTwice(s, t, a[..], lo, hi);
  }

  /** Everything before begin is sorted and not above anything after it. */
  ghost predicate FrontDone<T>(less: (T, T) -> bool, s: seq<T>, start: int, begin: int, end: int) {
    && 0 <= start <= begin <= end <= |s| && Sorted(less, s[start..begin])
    && forall i, j :: start <= i < begin <= j < end ==> !less(s[j], s[i])
  }

  lemma FrontKept<T>(less: (T, T) -> bool, s: seq<T>, t: seq<T>, start: int, begin: int, end: int)
    requires FrontDone(less, s, start, begin, end) && Rearranged(s, t, begin, end)
    ensures FrontDone(less, t, start, begin, end)
  {
    assert t[start..begin] == t[..begin][start..] && s[start..begin] == s[..begin][start..];
    forall i, j | start <= i < begin <= j < end
      ensures !less(t[j], t[i])
    {
      KeptOutside(s, t, begin, end, i);
      var k := RearrangedFrom(s, t, begin, end, j);
    }
  }

  lemma FrontExtended<T>(less: (T, T) -> bool, s: seq<T>, start: int, begin: int, m: int, end: int)
    requires FrontDone(less, s, start, begin, end) && begin <= m <= end && Sorted(less, s[begin..m])
    requires forall i, j :: begin <= i < m <= j < end ==> !less(s[j], s[i])
    ensures FrontDone(less, s, start, m, end)
  {
    SortedConcat(less, s, start, begin, m);
  }

  /** The left part sorted, the pivot, and a right part not below it. */
  lemma PivotJoins<T(!new)>(less: (T, T) -> bool, s: seq<T>, begin: int, pivotPos: int, end: int)
    requires StrictWeakOrder(less) && 0 <= begin <= pivotPos < end <= |s| && Sorted(less, s[begin..pivotPos])
    requires AllBelow(less, s, begin, pivotPos, s[pivotPos]) && NoneBelow(less, s, pivotPos + 1, end, s[pivotPos])
    ensures Sorted(less, s[begin..pivotPos + 1])
    ensures forall i, j :: begin <= i < pivotPos + 1 <= j < end ==> !less(s[j], s[i])
  {
    forall i, j | begin <= i < pivotPos <= j < end
      ensures !less(s[j], s[i])
    {
      assert less(s[i], s[pivotPos]) && (j == pivotPos || !less(s[j], s[pivotPos]));
    }
    assert Sorted(less, s[pivotPos..pivotPos + 1]);
    SortedConcat(less, s, begin, pivotPos, pivotPos + 1);
  }

  /** After partitioning equal elements to the left of a pivot that nothing is below, they are all equal to it. */
  lemma EqualsJoin<T(!new)>(less: (T, T) -> bool, s: seq<T>, begin: int, pivotPos: int, end: int)
    requires StrictWeakOrder(less) && 0 < begin <= pivotPos < end <= |s|
    requires NoneBelow(less, s, begin, end, s[begin - 1]) && !less(s[begin - 1], s[pivotPos])
    requires NoneAbove(less, s, begin, pivotPos, s[pivotPos]) && AllAbove(less, s, pivotPos + 1, end, s[pivotPos])
    ensures Sorted(less, s[begin..pivotPos + 1])
    ensures forall i, j :: begin <= i < pivotPos + 1 <= j < end ==> !less(s[j], s[i])
    ensures NoneBelow(less, s, pivotPos + 1, end, s[pivotPos])
  {
    var p := s[pivotPos];
    forall i | begin <= i <= pivotPos
      ensures !less(s[i], p) && !less(p, s[i])
    {
      assert !less(s[i], s[begin - 1]);
    }
    forall j | pivotPos < j < end
      ensures !less(s[j], p)
    {
      assert less(p, s[j]);
    }
  }

  lemma FrontStarts<T>(less: (T, T) -> bool, s: seq<T>, begin: int, end: int)
    requires 0 <= begin <= end <= |s|
    ensures FrontDone(less, s, begin, begin, end)
  {
  }

  /** A change inside begin..end-1 keeps what the main loop knows. */
  lemma RoundStep<T>(less: (T, T) -> bool, s0: seq<T>, s: seq<T>, t: seq<T>, start: int, begin: int, end: int)
    requires Rearranged(s0, s, start, end) && FrontDone(less, s, start, begin, end) && Rearranged(s, t, begin, end)
    ensures Rearranged(s0, t, start, end) && FrontDone(less, t, start, begin, end)
    ensures begin > 0 ==> t[begin - 1] == s[begin - 1]
    ensures begin > 0 && NoneBelow(less, s, begin, end, s[begin - 1]) ==> NoneBelow(less, t, begin, end, t[begin - 1])
  {
    FrontKept(less, s, t, start, begin, end);
    RearrangedPart(s, t, start, begin, end, end);
    RearrangedTwice(s0, s, t, start, end);
    if begin > 0 {
      KeptOutside(s, t, begin, end, begin - 1);
      BoundsKept(less, s, t, begin, end, s[begin - 1]);
    }
  }

  /** The pivot stands between what is below it and what is not. */
  ghost predicate Split<T>(less: (T, T) -> bool, s: seq<T>, begin: int, pivotPos: int, end: int) {
    && 0 <= begin <= pivotPos < end <= |s|
    && AllBelow(less, s, begin, pivotPos, s[pivotPos]) && NoneBelow(less, s, pivotPos + 1, end, s[pivotPos])
  }

  lemma SplitKept<T>(less: (T, T) -> bool, s: seq<T>, t: seq<T>, begin: int, pivotPos: int, end: int, lo: int, hi: int)
    requires Split(less, s, begin, pivotPos, end) && Rearranged(s, t, lo, hi)
    requires (lo == begin && hi == pivotPos) || (lo == pivotPos + 1 && hi == end)
    ensures Split(less, t, begin, pivotPos, end) && Rearranged(s, t, begin, end)
    ensures lo == begin ==> t[pivotPos + 1..end] == s[pivotPos + 1..end]
    ensures lo == pivotPos + 1 ==> t[begin..pivotPos] == s[begin..pivotPos]
  {
    RearrangedPart(s, t, begin, lo, hi, end);
    KeptOutside(s, t, lo, hi, pivotPos);
    BoundsKept(less, s, t, lo, hi, s[pivotPos]);
    forall i | 0 <= i < |s| && (i < lo || i >= hi)
      ensures t[i] == s[i]
    {
      KeptOutside(s, t, lo, hi, i);
    }
  }

  lemma SplitDone<T(!new)>(less: (T, T) -> bool, s: seq<T>, start: int, begin: int, pivotPos: int, end: int)
    requires StrictWeakOrder(less) && FrontDone(less, s, start, begin, end) && Split(less, s, begin, pivotPos, end)
    requires Sorted(less, s[begin..pivotPos])
    ensures FrontDone(less, s, start, pivotPos + 1, end) && NoneBelow(less, s, pivotPos + 1, end, s[pivotPos])
    ensures Sorted(less, s[pivotPos + 1..end]) ==> Sorted(less, s[start..end])
  {
    PivotJoins(less, s, begin, pivotPos, end);
    FrontExtended(less, s, start, begin, pivotPos + 1, end);
    if Sorted(less, s[pivotPos + 1..end]) {
      SortedConcat(less, s, start, pivotPos + 1, end);
    }
  }

  lemma AllDone<T>(less: (T, T) -> bool, s: seq<T>, start: int, begin: int, end: int)
    requires FrontDone(less, s, start, begin, end) && Sorted(less, s[begin..end])
    ensures Sorted(less, s[start..end])
  {
    SortedConcat(less, s, start, begin, end);
  }

  /** One partition of the main loop, with the answer to a bad one: shuffling, or sorting all of it by
      heapsort once too many were bad; or, after a good one that changed nothing, an attempt at insertion sort. */
  method PartitionStep<T(!new)>(a: array<T>, begin: int, end: int, less: (T, T) -> bool, branchless: bool, badAllowed: int, ghost high: int)
    returns (sorted: bool, pivotPos: int, stillAllowed: int)
    requires StrictWeakOrder(less) && 0 <= begin < high < end <= a.Length && !less(a[high], a[begin])
    modifies a
    ensures Rearranged(old(a[..]), a[..], begin, end)
    ensures if sorted then Sorted(less, a[begin..end]) else Split(less, a[..], begin, pivotPos, end)
  {
    hide Rearranged, Sorted, StrictWeakOrder, AllBelow, NoneBelow, Partitioned;
    var size := end - begin;
    var alreadyPartitioned;
    if branchless {
      pivotPos, alreadyPartitioned := PartitionRightBranchless(a, begin, end, less, high);
    } else {
      pivotPos, alreadyPartitioned := PartitionRight(a, begin, end, less, high);
    }
    sorted, stillAllowed := false, badAllowed;
    ghost var s := a[..];
    assert Split(less, s, begin, pivotPos, end);
    NotRearranged(s, begin, end);
    hide Split;
    var lSize, rSize := pivotPos - begin, end - (pivotPos + 1);
    if lSize < size / 8 || rSize < size / 8 {
      stillAllowed := badAllowed - 1;
      if stillAllowed == 0 {
        HeapSort(a, begin, end, less);
        sorted := true;
      } else {
        ShuffleLeft(a, begin, pivotPos);
        ghost var t := a[..];
        SplitKept(less, s, t, begin, pivotPos, end, begin, pivotPos);
        ShuffleRight(a, pivotPos, end);
        SplitKept(less, t, a[..], begin, pivotPos, end, pivotPos + 1, end);
        RearrangedTwice(s, t, a[..], begin, end);
      }
    } else if alreadyPartitioned {
      sorted := TryInsertionSorts(a, begin, pivotPos, end, less);
    }
    RearrangedTwice(old(a[..]), s, a[..], begin, end);
  }

  method TryInsertionSorts<T(!new)>(a: array<T>, begin: int, pivotPos: int, end: int, less: (T, T) -> bool) returns (sorted: bool)
    requires StrictWeakOrder(less) && 0 <= begin <= pivotPos < end <= a.Length && Split(less, a[..], begin, pivotPos, end)
    modifies a
    ensures Rearranged(old(a[..]), a[..], begin, end) && Split(less, a[..], begin, pivotPos, end)
    ensures sorted ==> Sorted(less, a[begin..end])
  {
    hide *;
    ghost var s := a[..];
    sorted := PartialInsertionSort(a, begin, pivotPos, less);
    ghost var t := a[..];
    SplitKept(less, s, t, begin, pivotPos, end, begin, pivotPos);
    assert t[begin..pivotPos] == a[begin..pivotPos];
    if sorted {
      sorted := PartialInsertionSort(a, pivotPos + 1, end, less);
      SplitKept(less, t, a[..], begin, pivotPos, end, pivotPos + 1, end);
      RearrangedTwice(s, t, a[..], begin, end);
      assert a[..][begin..pivotPos] == t[begin..pivotPos];
      FrontStarts(less, a[..], begin, end);
      SplitDone(less, a[..], begin, begin, pivotPos, end);
      assert a[..][pivotPos + 1..end] == a[pivotPos + 1..end] && a[..][begin..end] == a[begin..end];
    }
  }

  /** The main loop: small stretches are insertion sorted; otherwise a pivot is chosen, the stretch is
      partitioned, the left part sorted by recursion and the right part by going round again. */
  method PdqSortLoop<T(!new)>(a: array<T>, start: int, end: int, less: (T, T) -> bool, branchless: bool, badAllowedAtStart: int,
      leftmostAtStart: bool)
    requires StrictWeakOrder(less) && 0 <= start <= end <= a.Length
    requires leftmostAtStart || (start > 0 && NoneBelow(less, a[..], start, end, a[start - 1]))
    modifies a
    ensures Rearranged(old(a[..]), a[..], start, end) && Sorted(less, a[start..end])
    decreases end - start, 1
  {
    hide Rearranged, Sorted, StrictWeakOrder, AllBelow, NoneBelow, NoneAbove, AllAbove, FrontDone, Split;
    var begin, badAllowed, leftmost := start, badAllowedAtStart, leftmostAtStart;
    NotRearranged(a[..], start, end);
    FrontStarts(less, a[..], start, end);
    var sorted := false;
    while !sorted
      invariant start <= begin <= end && Rearranged(old(a[..]), a[..], start, end)
      invariant if sorted then Sorted(less, a[start..end]) else FrontDone(less, a[..], start, begin, end)
      invariant sorted || leftmost || (begin > 0 && NoneBelow(less, a[..], begin, end, a[begin - 1]))
      decreases !sorted, end - begin
    {
      if end - begin < INSERTION_SORT_THRESHOLD {
        SortSmall(a, start, begin, end, less, leftmost, old(a[..]));
        sorted := true;
      } else {
        ghost var s := a[..];
        ghost var low, high := ChoosePivot(a, begin, end, less);
        RoundStep(less, old(a[..]), s, a[..], start, begin, end);
        if !leftmost && !less(a[begin - 1], a[begin]) {
          begin := SkipEquals(a, start, begin, end, less, low, old(a[..]));
        } else {
          sorted, begin, badAllowed := SortAroundPivot(a, start, begin, end, less, branchless, badAllowed, leftmost, high, old(a[..]));
          leftmost := false;
        }
      }
    }
  }

  /** Partitions, sorts the left part by recursion and says where the right part begins. */
  method SortAroundPivot<T(!new)>(a: array<T>, ghost start: int, begin: int, end: int, less: (T, T) -> bool, branchless: bool,
      badAllowed: int, leftmost: bool, ghost high: int, ghost s0: seq<T>) returns (sorted: bool, next: int, stillAllowed: int)
    requires StrictWeakOrder(less) && 0 <= start <= begin < high < end <= a.Length && !less(a[high], a[begin])
    requires Rearranged(s0, a[..], start, end) && FrontDone(less, a[..], start, begin, end)
    requires leftmost || (begin > 0 && NoneBelow(less, a[..], begin, end, a[begin - 1]))
    modifies a
    ensures begin <= next <= end && Rearranged(s0, a[..], start, end)
    ensures if sorted then Sorted(less, a[start..end]) else
              begin < next && FrontDone(less, a[..], start, next, end) && NoneBelow(less, a[..], next, end, a[next - 1])
    decreases end - begin, 0
  {
    hide *;
    ghost var s := a[..];
    var pivotPos;
    sorted, pivotPos, stillAllowed := PartitionStep(a, begin, end, less, branchless, badAllowed, high);
    RoundStep(less, s0, s, a[..], start, begin, end);
    next := begin;
    if sorted {
      assert a[begin..end] == a[..][begin..end] && a[start..end] == a[..][start..end];
      AllDone(less, a[..], start, begin, end);
    } else {
      ghost var t := a[..];
      SplitBounds(less, t, begin, pivotPos, end, leftmost);
      PdqSortLoop(a, begin, pivotPos, less, branchless, stillAllowed, leftmost);
      SplitKept(less, t, a[..], begin, pivotPos, end, begin, pivotPos);
      RoundStep(less, s0, t, a[..], start, begin, end);
      assert a[..][begin..pivotPos] == a[begin..pivotPos];
      SplitDone(less, a[..], start, begin, pivotPos, end);
      next := pivotPos + 1;
    }
  }

  lemma SplitBounds<T>(less: (T, T) -> bool, s: seq<T>, begin: int, pivotPos: int, end: int, leftmost: bool)
    requires Split(less, s, begin, pivotPos, end)
    requires leftmost || (begin > 0 && NoneBelow(less, s, begin, end, s[begin - 1]))
    ensures 0 <= begin <= pivotPos < end <= |s|
    ensures leftmost || NoneBelow(less, s, begin, pivotPos, s[begin - 1])
  {
  }

  method SortSmall<T(!new)>(a: array<T>, ghost start: int, begin: int, end: int, less: (T, T) -> bool, leftmost: bool, ghost s0: seq<T>)
    requires StrictWeakOrder(less) && 0 <= start <= begin <= end <= a.Length
    requires Rearranged(s0, a[..], start, end) && FrontDone(less, a[..], start, begin, end)
    requires leftmost || (begin > 0 && NoneBelow(less, a[..], begin, end, a[begin - 1]))
    modifies a
    ensures Rearranged(s0, a[..], start, end) && Sorted(less, a[start..end])
  {
    hide *;
    ghost var s := a[..];
    if leftmost {
      InsertionSort(a, begin, end, less);
    } else {
      UnguardedInsertionSort(a, begin, end, less);
    }
    RoundStep(less, s0, s, a[..], start, begin, end);
    assert a[..][begin..end] == a[begin..end] && a[..][start..end] == a[start..end];
    AllDone(less, a[..], start, begin, end);
  }

  /** The pivot equals the element before the stretch: everything not above it goes left and is in place. */
  method SkipEquals<T(!new)>(a: array<T>, ghost start: int, begin: int, end: int, less: (T, T) -> bool, ghost low: int, ghost s0: seq<T>)
    returns (next: int)
    requires StrictWeakOrder(less) && 0 <= start <= begin < low < end <= a.Length && begin > 0 && !less(a[begin], a[low])
    requires Rearranged(s0, a[..], start, end) && FrontDone(less, a[..], start, begin, end)
    requires NoneBelow(less, a[..], begin, end, a[begin - 1]) && !less(a[begin - 1], a[begin])
    modifies a
    ensures begin < next <= end && Rearranged(s0, a[..], start, end) && FrontDone(less, a[..], start, next, end)
    ensures NoneBelow(less, a[..], next, end, a[next - 1])
  {
    hide *;
    ghost var s := a[..];
    var pivotPos := PartitionLeft(a, begin, end, less, low);
    RoundStep(less, s0, s, a[..], start, begin, end);
    EqualsJoin(less, a[..], begin, pivotPos, end);
    FrontExtended(less, a[..], start, begin, pivotPos + 1, end);
    next := pivotPos + 1;
  }

  function PowerOfTwo(n: nat): (p: int)
    ensures p > 0
  {
    if n == 0 then 1 else 2 * PowerOfTwo(n - 1)
  }

  method Log2(n: int) returns (log: nat)
    requires n > 0
    ensures PowerOfTwo(log) <= n < PowerOfTwo(log + 1)
  {
    log := 0;
    var m := n / 2;
    ghost var c := n;
    while m > 0
      invariant c > 0 && m == c / 2 && c * PowerOfTwo(log) <= n < (c + 1) * PowerOfTwo(log)
      decreases m
    {
      Halve(c, m, PowerOfTwo(log));
      log := log + 1;
      c := m;
      m := m / 2;
    }
  }

  lemma Halve(c: int, m: int, p: int)
    requires m == c / 2 && p > 0
    ensures m * (2 * p) <= c * p && (c + 1) * p <= (m + 1) * (2 * p)
  {
    Twice(m, p);
    Twice(m + 1, p);
    if c == 2 * m {
      assert c * p == (2 * m) * p;
    } else {
      assert c + 1 == 2 * (m + 1);
      assert c * p == (2 * m) * p + p;
    }
  }

  lemma Twice(m: int, p: int)
    ensures m * (2 * p) == (2 * m) * p
  {
  }

  /** Sorts [begin, end); branchless tells which partition the comparison and element type allow. */
  method PdqSort<T(!new)>(a: array<T>, begin: int, end: int, less: (T, T) -> bool, branchless: bool)
    requires StrictWeakOrder(less) && 0 <= begin <= end <= a.Length
    modifies a
    ensures Rearranged(old(a[..]), a[..], begin, end) && Sorted(less, a[begin..end])
  {
    if begin == end {
      return;
    }
    var log := Log2(end - begin);
    PdqSortLoop(a, begin, end, less, branchless, log, true);
  }
}
