/** Block partitioning: elements on the wrong side of the pivot are first only noted down, as byte
    offsets in two buffers, and then exchanged in bulk. */
module BlockPartition {
  import opened Bytes
  import opened SortOrder

  const BLOCK_SIZE := 64

  /** The left side is scanned up from its start, the right side down from its end. */
  function Place(up: bool, start: int, i: int): int {
    if up then start + i else start - 1 - i
  }

  ghost predicate Scanned(up: bool, start: int, n: int, length: int) {
    0 <= n && 0 <= start <= length && if up then start + n <= length else n <= start
  }

  /** On the left an element not below the pivot is misplaced, on the right one below it. */
  ghost predicate Wrong<T>(less: (T, T) -> bool, pivot: T, up: bool, x: T) {
    less(x, pivot) != up
  }

  /** The misplaced elements among the first n scanned, in the order of the scan. */
  ghost function Pending<T>(less: (T, T) -> bool, s: seq<T>, pivot: T, up: bool, start: int, n: int): (p: seq<int>)
    requires Scanned(up, start, n, |s|)
    decreases n
  {
    if n == 0 then [] else
      var rest := Pending(less, s, pivot, up, start, n - 1);
      var place := Place(up, start, n - 1);
      if Wrong(less, pivot, up, s[place]) then rest + [place] else rest
  }

  ghost function PendingLeft<T>(less: (T, T) -> bool, s: seq<T>, pivot: T, lo: int, first: int): (p: seq<int>)
    requires 0 <= lo <= first <= |s|
  {
    Pending(less, s, pivot, true, lo, first - lo)
  }

  ghost function PendingRight<T>(less: (T, T) -> bool, s: seq<T>, pivot: T, last: int, hi: int): (p: seq<int>)
    requires 0 <= last <= hi <= |s|
  {
    Pending(less, s, pivot, false, hi, hi - last)
  }

  lemma {:induction false} PendingAt<T>(less: (T, T) -> bool, s: seq<T>, pivot: T, up: bool, start: int, n: int, k: int) returns (i: int)
    requires Scanned(up, start, n, |s|) && 0 <= k < |Pending(less, s, pivot, up, start, n)|
    ensures 0 <= i < n && Place(up, start, i) == Pending(less, s, pivot, up, start, n)[k]
    ensures Wrong(less, pivot, up, s[Place(up, start, i)])
    decreases n
  {
    var rest := Pending(less, s, pivot, up, start, n - 1);
    if k < |rest| {
      i := PendingAt(less, s, pivot, up, start, n - 1, k);
    } else {
      i := n - 1;
    }
  }

  /** Nothing is pending exactly when every scanned element is on its side. */
  lemma {:induction false} NonePending<T>(less: (T, T) -> bool, s: seq<T>, pivot: T, up: bool, start: int, n: int)
    requires Scanned(up, start, n, |s|)
    ensures Pending(less, s, pivot, up, start, n) == []
            <==> forall i :: 0 <= i < n ==> !Wrong(less, pivot, up, s[Place(up, start, i)])
    decreases n
  {
    if n > 0 {
      NonePending(less, s, pivot, up, start, n - 1);
      assert Wrong(less, pivot, up, s[Place(up, start, n - 1)]) ==> |Pending(less, s, pivot, up, start, n)| > 0;
    }
  }

  lemma NonePendingLeft<T>(less: (T, T) -> bool, s: seq<T>, pivot: T, lo: int, first: int)
    requires 0 <= lo <= first <= |s|
    ensures PendingLeft(less, s, pivot, lo, first) == [] <==> AllBelow(less, s, lo, first, pivot)
  {
    NonePending(less, s, pivot, true, lo, first - lo);
    forall j | lo <= j < first
      ensures PendingLeft(less, s, pivot, lo, first) == [] ==> less(s[j], pivot)
    {
      assert Place(true, lo, j - lo) == j;
    }
  }

  lemma NonePendingRight<T>(less: (T, T) -> bool, s: seq<T>, pivot: T, last: int, hi: int)
    requires 0 <= last <= hi <= |s|
    ensures PendingRight(less, s, pivot, last, hi) == [] <==> NoneBelow(less, s, last, hi, pivot)
  {
    NonePending(less, s, pivot, false, hi, hi - last);
    forall j | last <= j < hi
      ensures PendingRight(less, s, pivot, last, hi) == [] ==> !less(s[j], pivot)
    {
      assert Place(false, hi, hi - 1 - j) == j;
    }
  }

  lemma {:induction false} PendingSame<T>(less: (T, T) -> bool, s: seq<T>, t: seq<T>, pivot: T, up: bool, start: int, n: int)
    requires Scanned(up, start, n, |s|) && |t| == |s|
    requires forall i :: 0 <= i < n ==> t[Place(up, start, i)] == s[Place(up, start, i)]
    ensures Pending(less, t, pivot, up, start, n) == Pending(less, s, pivot, up, start, n)
    decreases n
  {
    if n > 0 {
      PendingSame(less, s, t, pivot, up, start, n - 1);
    }
  }

  /** Putting the first pending element right takes it off the list. */
  lemma {:induction false} FirstFixed<T>(less: (T, T) -> bool, s: seq<T>, t: seq<T>, pivot: T, up: bool, start: int, n: int, p: int)
    requires Scanned(up, start, n, |s|) && |t| == |s| && 0 <= p < |t|
    requires |Pending(less, s, pivot, up, start, n)| > 0 && Pending(less, s, pivot, up, start, n)[0] == p
    requires forall i :: 0 <= i < n && Place(up, start, i) != p ==> t[Place(up, start, i)] == s[Place(up, start, i)]
    requires !Wrong(less, pivot, up, t[p])
    ensures Pending(less, t, pivot, up, start, n) == Pending(less, s, pivot, up, start, n)[1..]
    decreases n
  {
    var rest := Pending(less, s, pivot, up, start, n - 1);
    var place := Place(up, start, n - 1);
    if rest == [] {
      assert p == place;
      PendingSame(less, s, t, pivot, up, start, n - 1);
    } else {
      assert rest[0] == p;
      var i := PendingAt(less, s, pivot, up, start, n - 1, 0);
      assert place != p;
      FirstFixed(less, s, t, pivot, up, start, n - 1, p);
      assert rest[1..] + [place] == (rest + [place])[1..];
    }
  }

  /** The last pending element changes places with the last one scanned, which then is no longer part of the side. */
  lemma {:induction false} LastMovedOut<T>(less: (T, T) -> bool, s: seq<T>, pivot: T, up: bool, start: int, n: int)
    requires Scanned(up, start, n, |s|) && |Pending(less, s, pivot, up, start, n)| > 0
    ensures n > 0
    ensures var pending := Pending(less, s, pivot, up, start, n); var k := |pending| - 1;
            && 0 <= pending[k] < |s|
            && var t := s[pending[k] := s[Place(up, start, n - 1)]][Place(up, start, n - 1) := s[pending[k]]];
            && Pending(less, t, pivot, up, start, n - 1) == pending[..k]
            && Wrong(less, pivot, up, t[Place(up, start, n - 1)])
  {
    var pending := Pending(less, s, pivot, up, start, n);
    var k := |pending| - 1;
    var i := PendingAt(less, s, pivot, up, start, n, k);
    var end := Place(up, start, n - 1);
    var t := s[pending[k] := s[end]][end := s[pending[k]]];
    if i == n - 1 {
      assert t == s;
    } else {
      RightSince(less, s, pivot, up, start, n, i);
      assert !Wrong(less, pivot, up, s[Place(up, start, n - 1)]);
      forall m | i <= m < n - 1
        ensures !Wrong(less, pivot, up, t[Place(up, start, m)])
      {
      }
      PendingKept(less, t, pivot, up, start, i, n - 1);
      PendingSame(less, s, t, pivot, up, start, i);
    }
  }

  /** After the last pending place i nothing is misplaced, and what came before it is the rest of the list. */
  lemma {:induction false} RightSince<T>(less: (T, T) -> bool, s: seq<T>, pivot: T, up: bool, start: int, n: int, i: int)
    requires Scanned(up, start, n, |s|) && 0 <= i < n
    requires var pending := Pending(less, s, pivot, up, start, n);
             pending != [] && pending[|pending| - 1] == Place(up, start, i)
    ensures forall m :: i < m < n ==> !Wrong(less, pivot, up, s[Place(up, start, m)])
    ensures var pending := Pending(less, s, pivot, up, start, n);
            Pending(less, s, pivot, up, start, i) == pending[..|pending| - 1]
    decreases n
  {
    if i < n - 1 {
      assert Place(up, start, i) != Place(up, start, n - 1);
      RightSince(less, s, pivot, up, start, n - 1, i);
    } else if !Wrong(less, pivot, up, s[Place(up, start, i)]) {
      var j := PendingAt(less, s, pivot, up, start, n - 1, |Pending(less, s, pivot, up, start, n - 1)| - 1);
    }
  }

  lemma {:induction false} PendingKept<T>(less: (T, T) -> bool, s: seq<T>, pivot: T, up: bool, start: int, m: int, n: int)
    requires Scanned(up, start, n, |s|) && 0 <= m <= n
    requires forall i :: m <= i < n ==> !Wrong(less, pivot, up, s[Place(up, start, i)])
    ensures Pending(less, s, pivot, up, start, n) == Pending(less, s, pivot, up, start, m)
    decreases n
  {
    if m < n {
      PendingKept(less, s, pivot, up, start, m, n - 1);
    }
  }

  /** Exchanging the first pending elements of the two sides takes both off their lists. */
  lemma PairExchanged<T>(less: (T, T) -> bool, s: seq<T>, t: seq<T>, pivot: T, lo: int, first: int, last: int, hi: int, l: int, r: int)
    requires 0 <= lo <= first <= last <= hi <= |s|
    requires var p := PendingLeft(less, s, pivot, lo, first); p != [] && p[0] == l
    requires var p := PendingRight(less, s, pivot, last, hi); p != [] && p[0] == r
    ensures lo <= l < first && last <= r < hi
    ensures t == s[l := s[r]][r := s[l]] ==>
              && PendingLeft(less, t, pivot, lo, first) == PendingLeft(less, s, pivot, lo, first)[1..]
              && PendingRight(less, t, pivot, last, hi) == PendingRight(less, s, pivot, last, hi)[1..]
  {
    FirstPlaces(less, s, pivot, lo, first, last, hi, l, r);
    if t == s[l := s[r]][r := s[l]] {
      FirstFixed(less, s, t, pivot, true, lo, first - lo, l);
      FirstFixed(less, s, t, pivot, false, hi, hi - last, r);
    }
  }

  /** One step of the cyclic move; s is the array with the set-aside element back in the last hole. */
  function CycleStep<T>(s: seq<T>, hole: int, l: int, r: int): (t: seq<T>)
    requires 0 <= hole < |s| && 0 <= l < |s| && 0 <= r < |s|
    ensures |t| == |s|
  {
    s[hole := s[l]][l := s[r]][r := s[hole]]
  }

  lemma CycleStepped<T>(less: (T, T) -> bool, s: seq<T>, pivot: T, lo: int, first: int, last: int, hi: int, hole: int, l: int, r: int)
    requires 0 <= lo <= first <= last <= hole < hi <= |s| && !less(s[hole], pivot)
    requires var p := PendingLeft(less, s, pivot, lo, first); p != [] && p[0] == l
    requires var p := PendingRight(less, s, pivot, last, hi); p != [] && p[0] == r
    ensures lo <= l < first && last <= r < hi && hole != r && hole != l
    ensures !less(CycleStep(s, hole, l, r)[r], pivot)
    ensures PendingLeft(less, CycleStep(s, hole, l, r), pivot, lo, first) == PendingLeft(less, s, pivot, lo, first)[1..]
    ensures PendingRight(less, CycleStep(s, hole, l, r), pivot, last, hi) == PendingRight(less, s, pivot, last, hi)[1..]
    ensures Rearranged(s, CycleStep(s, hole, l, r), lo, hi)
  {
    hide *;
    FirstPlaces(less, s, pivot, lo, first, last, hi, l, r);
    var v := s[l := s[r]][r := s[l]];
    PairExchanged(less, s, v, pivot, lo, first, last, hi, l, r);
    var t := CycleStep(s, hole, l, r);
    CycleStepAt(s, hole, l, r);
    CycleRearranges(s, hole, l, r, lo, hi);
    HoleFilled(less, v, t, pivot, lo, first, last, hi, hole, r);
  }

  lemma FirstPlaces<T>(less: (T, T) -> bool, s: seq<T>, pivot: T, lo: int, first: int, last: int, hi: int, l: int, r: int)
    requires 0 <= lo <= first <= last <= hi <= |s|
    requires var p := PendingLeft(less, s, pivot, lo, first); p != [] && p[0] == l
    requires var p := PendingRight(less, s, pivot, last, hi); p != [] && p[0] == r
    ensures lo <= l < first && last <= r < hi && !less(s[l], pivot) && less(s[r], pivot)
  {
    var i := PendingAt(less, s, pivot, true, lo, first - lo, 0);
    var j := PendingAt(less, s, pivot, false, hi, hi - last, 0);
  }

  lemma CycleStepAt<T>(s: seq<T>, hole: int, l: int, r: int)
    requires 0 <= hole < |s| && 0 <= l < |s| && 0 <= r < |s| && hole != l && l != r && hole != r
    ensures var t := CycleStep(s, hole, l, r);
            && t[hole] == s[l] && t[l] == s[r] && t[r] == s[hole]
            && forall j :: 0 <= j < |s| && j != hole && j != l && j != r ==> t[j] == s[j]
  {
  }

  lemma CycleRearranges<T>(s: seq<T>, hole: int, l: int, r: int, lo: int, hi: int)
    requires 0 <= lo <= hi <= |s| && lo <= hole < hi && lo <= l < hi && lo <= r < hi
    requires hole != l && l != r && hole != r
    ensures Rearranged(s, CycleStep(s, hole, l, r), lo, hi)
  {
    hide *;
    var u := s[hole := s[l]][l := s[hole]];
    Swapped(s, lo, hi, hole, l);
    Swapped(u, lo, hi, l, r);
    CycleIsTwoSwaps(s, hole, l, r);
    RearrangedTwice(s, u, u[l := u[r]][r := u[l]], lo, hi);
  }

  lemma CycleIsTwoSwaps<T>(s: seq<T>, hole: int, l: int, r: int)
    requires 0 <= hole < |s| && 0 <= l < |s| && 0 <= r < |s| && hole != l && l != r && hole != r
    ensures var u := s[hole := s[l]][l := s[hole]];
            CycleStep(s, hole, l, r) == u[l := u[r]][r := u[l]]
  {
  }

  /** Two places of the right side changed, none of them misplaced before or after. */
  lemma HoleFilled<T>(less: (T, T) -> bool, s: seq<T>, t: seq<T>, pivot: T, lo: int, first: int, last: int, hi: int, p: int, q: int)
    requires 0 <= lo <= first <= last <= hi <= |s| == |t| && last <= p < hi && last <= q < hi
    requires !less(s[p], pivot) && !less(t[p], pivot) && !less(s[q], pivot) && !less(t[q], pivot)
    requires forall j :: lo <= j < hi && j != p && j != q ==> t[j] == s[j]
    ensures PendingLeft(less, t, pivot, lo, first) == PendingLeft(less, s, pivot, lo, first)
    ensures PendingRight(less, t, pivot, last, hi) == PendingRight(less, s, pivot, last, hi)
  {
    SameSides(less, s, t, pivot, true, lo, first - lo);
    SameSides(less, s, t, pivot, false, hi, hi - last);
  }

  lemma {:induction false} SameSides<T>(less: (T, T) -> bool, s: seq<T>, t: seq<T>, pivot: T, up: bool, start: int, n: int)
    requires Scanned(up, start, n, |s|) && |t| == |s|
    requires forall i :: 0 <= i < n ==> Wrong(less, pivot, up, t[Place(up, start, i)]) == Wrong(less, pivot, up, s[Place(up, start, i)])
    ensures Pending(less, t, pivot, up, start, n) == Pending(less, s, pivot, up, start, n)
    decreases n
  {
    if n > 0 {
      SameSides(less, s, t, pivot, up, start, n - 1);
    }
  }

  /** The places noted in a buffer, counted up from a base or down from it. */
  function Noted(up: bool, base: int, offsets: seq<Byte>): (p: seq<int>)
    ensures |p| == |offsets|
  {
    seq(|offsets|, i requires 0 <= i < |offsets| => if up then base + offsets[i] else base - offsets[i])
  }

  lemma NotedMore(up: bool, base: int, offsets: seq<Byte>, num: int)
    requires 0 <= num < |offsets|
    ensures Noted(up, base, offsets[..num + 1])
            == Noted(up, base, offsets[..num]) + [if up then base + offsets[num] else base - offsets[num]]
  {
  }

  lemma NotedTail(up: bool, base: int, offsets: seq<Byte>, start: int, num: int, i: int)
    requires 0 <= start && 0 <= i <= num && start + num <= |offsets|
    ensures Noted(up, base, offsets[start + i..start + num]) == Noted(up, base, offsets[start..start + num])[i..]
    ensures Noted(up, base, offsets[start..start + i]) == Noted(up, base, offsets[start..start + num])[..i]
    ensures i < num ==> Noted(up, base, offsets[start..start + num])[i]
                        == if up then base + offsets[start + i] else base - offsets[start + i]
  {
  }

  /** From start on, num offsets in the buffer name exactly the pending places. */
  ghost predicate Notes(up: bool, offsets: array<Byte>, base: int, start: int, num: int, pending: seq<int>)
    reads offsets
  {
    && 0 <= start && 0 <= num && start + num <= offsets.Length
    && Noted(up, base, offsets[start..start + num]) == pending
  }

  lemma NotesNothing(up: bool, offsets: array<Byte>, base: int)
    ensures Notes(up, offsets, base, 0, 0, [])
  {
  }

  lemma NotesCount(up: bool, offsets: array<Byte>, base: int, start: int, num: int, pending: seq<int>)
    requires Notes(up, offsets, base, start, num, pending)
    ensures 0 <= start && 0 <= num && start + num <= offsets.Length && |pending| == num
  {
  }

  /** The first n notes taken off; or the last one. */
  lemma NotesRest(up: bool, offsets: array<Byte>, base: int, start: int, num: int, pending: seq<int>, n: int)
    requires Notes(up, offsets, base, start, num, pending) && 0 <= n <= num
    ensures |pending| == num && Notes(up, offsets, base, start + n, num - n, pending[n..])
    ensures Notes(up, offsets, base, start, n, pending[..n])
    ensures n < num ==> pending[n] == if up then base + offsets[start + n] else base - offsets[start + n]
  {
    var s := offsets[..];
    NotedTail(up, base, s, start, num, n);
    assert s[start + n..start + num] == offsets[start + n..start + num];
    assert s[start..start + n] == offsets[start..start + n] && s[start..start + num] == offsets[start..start + num];
  }

  /** Notes down, without branching on the comparisons, which of the next count elements are not below the pivot. */
  method FillLeft<T(!new)>(a: array<T>, offsets: array<Byte>, base: int, count: int, pivot: T, less: (T, T) -> bool, ghost lo: int)
    returns (num: int)
    requires 0 <= lo <= base && base + count <= a.Length && 0 <= count <= BLOCK_SIZE <= offsets.Length
    requires a as object != offsets as object && PendingLeft(less, a[..], pivot, lo, base) == []
    modifies offsets
    ensures 0 <= num <= count && Notes(true, offsets, base, 0, num, PendingLeft(less, a[..], pivot, lo, base + count))
  {
    hide Noted;
    num := 0;
    assert Noted(true, base, offsets[..0]) == [];
    for i := 0 to count
      invariant 0 <= num <= i && PendingLeft(less, a[..], pivot, lo, base + i) == Noted(true, base, offsets[..num])
    {
      ghost var noted := offsets[..num];
      offsets[num] := i;
      assert offsets[..num] == noted && offsets[..][..num] == noted && offsets[..num + 1] == offsets[..][..num + 1];
      NotedMore(true, base, offsets[..], num);
      num := num + if less(a[base + i], pivot) then 0 else 1;
    }
    assert offsets[0..num] == offsets[..num];
  }

  /** The same downwards, for elements below the pivot. */
  method FillRight<T(!new)>(a: array<T>, offsets: array<Byte>, base: int, count: int, pivot: T, less: (T, T) -> bool, ghost hi: int)
    returns (num: int)
    requires 0 <= base - count && base <= hi <= a.Length && 0 <= count <= BLOCK_SIZE <= offsets.Length
    requires a as object != offsets as object && PendingRight(less, a[..], pivot, base, hi) == []
    modifies offsets
    ensures 0 <= num <= count && Notes(false, offsets, base, 0, num, PendingRight(less, a[..], pivot, base - count, hi))
  {
    hide Noted;
    num := 0;
    assert Noted(false, base, offsets[..0]) == [];
    for i := 0 to count
      invariant 0 <= num <= i && PendingRight(less, a[..], pivot, base - i, hi) == Noted(false, base, offsets[..num])
    {
      ghost var noted := offsets[..num];
      offsets[num] := i + 1;
      assert offsets[..num] == noted && offsets[..][..num] == noted && offsets[..num + 1] == offsets[..][..num + 1];
      NotedMore(false, base, offsets[..], num);
      num := num + if less(a[base - i - 1], pivot) then 1 else 0;
    }
    assert offsets[0..num] == offsets[..num];
  }

  /** Swaps the first num noted elements of the two sides pair by pair. */
  method SwapPairs<T(!new)>(a: array<T>, baseL: int, baseR: int, offsetsL: array<Byte>, offsetsR: array<Byte>, startL: int, startR: int,
      num: int, ghost numL: int, ghost numR: int, less: (T, T) -> bool, ghost pivot: T, ghost lo: int, ghost first: int, ghost last: int, ghost hi: int)
    requires 0 <= lo <= first <= last <= hi <= a.Length && a as object != offsetsL as object && a as object != offsetsR as object
    requires 0 <= num <= numL && num <= numR
    requires Notes(true, offsetsL, baseL, startL, numL, PendingLeft(less, a[..], pivot, lo, first))
    requires Notes(false, offsetsR, baseR, startR, numR, PendingRight(less, a[..], pivot, last, hi))
    modifies a
    ensures Rearranged(old(a[..]), a[..], lo, hi)
    ensures Notes(true, offsetsL, baseL, startL + num, numL - num, PendingLeft(less, a[..], pivot, lo, first))
    ensures Notes(false, offsetsR, baseR, startR + num, numR - num, PendingRight(less, a[..], pivot, last, hi))
  {
    hide *;
    ghost var s := a[..];
    ghost var pl, pr := PendingLeft(less, s, pivot, lo, first), PendingRight(less, s, pivot, last, hi);
    NotRearranged(s, lo, hi);
    assert pl[0..] == pl && pr[0..] == pr;
    NotesCount(true, offsetsL, baseL, startL, numL, pl);
    NotesCount(false, offsetsR, baseR, startR, numR, pr);
    for i := 0 to num
      invariant Rearranged(s, a[..], lo, hi)
      invariant PendingLeft(less, a[..], pivot, lo, first) == pl[i..] && PendingRight(less, a[..], pivot, last, hi) == pr[i..]
    {
      OffsetsName(offsetsL, offsetsR, baseL, baseR, startL, startR, numL, numR, i, pl, pr);
      SwapPair(a, baseL + offsetsL[startL + i], baseR - offsetsR[startR + i], less, pivot, lo, first, last, hi, s);
    }
    NotesRest(true, offsetsL, baseL, startL, numL, pl, num);
    NotesRest(false, offsetsR, baseR, startR, numR, pr, num);
  }

  method SwapPair<T(!new)>(a: array<T>, l: int, r: int, less: (T, T) -> bool, ghost pivot: T, ghost lo: int, ghost first: int,
      ghost last: int, ghost hi: int, ghost s: seq<T>)
    requires 0 <= lo <= first <= last <= hi <= a.Length && Rearranged(s, a[..], lo, hi)
    requires var p := PendingLeft(less, a[..], pivot, lo, first); p != [] && p[0] == l
    requires var p := PendingRight(less, a[..], pivot, last, hi); p != [] && p[0] == r
    modifies a
    ensures Rearranged(s, a[..], lo, hi)
    ensures PendingLeft(less, a[..], pivot, lo, first) == old(PendingLeft(less, a[..], pivot, lo, first))[1..]
    ensures PendingRight(less, a[..], pivot, last, hi) == old(PendingRight(less, a[..], pivot, last, hi))[1..]
  {
    hide *;
    ghost var t := a[..];
    FirstPlaces(less, t, pivot, lo, first, last, hi, l, r);
    a[l], a[r] := a[r], a[l];
    assert a[..] == t[l := t[r]][r := t[l]];
    PairExchanged(less, t, a[..], pivot, lo, first, last, hi, l, r);
    Swapped(t, lo, hi, l, r);
    RearrangedTwice(s, t, a[..], lo, hi);
  }

  /** Takes the first num noted elements of each side to the other one by one cyclic move. */
  method MoveCycle<T(!new)>(a: array<T>, baseL: int, baseR: int, offsetsL: array<Byte>, offsetsR: array<Byte>, startL: int, startR: int,
      num: int, ghost numL: int, ghost numR: int, less: (T, T) -> bool, ghost pivot: T, ghost lo: int, ghost first: int, ghost last: int, ghost hi: int)
    requires 0 <= lo <= first <= last <= hi <= a.Length && a as object != offsetsL as object && a as object != offsetsR as object
    requires 0 < num <= numL && num <= numR
    requires Notes(true, offsetsL, baseL, startL, numL, PendingLeft(less, a[..], pivot, lo, first))
    requires Notes(false, offsetsR, baseR, startR, numR, PendingRight(less, a[..], pivot, last, hi))
    modifies a
    ensures Rearranged(old(a[..]), a[..], lo, hi)
    ensures Notes(true, offsetsL, baseL, startL + num, numL - num, PendingLeft(less, a[..], pivot, lo, first))
    ensures Notes(false, offsetsR, baseR, startR + num, numR - num, PendingRight(less, a[..], pivot, last, hi))
  {
    hide *;
    ghost var s := a[..];
    ghost var pl, pr := PendingLeft(less, s, pivot, lo, first), PendingRight(less, s, pivot, last, hi);
    OffsetsName(offsetsL, offsetsR, baseL, baseR, startL, startR, numL, numR, 0, pl, pr);
    assert pl[0..] == pl && pr[0..] == pr;
    var l, r := baseL + offsetsL[startL], baseR - offsetsR[startR];
    FirstPlaces(less, s, pivot, lo, first, last, hi, l, r);
    var tmp := a[l];
    a[l] := a[r];
    ghost var v := a[..][r := tmp];
    assert v == s[l := s[r]][r := s[l]];
    PairExchanged(less, s, v, pivot, lo, first, last, hi, l, r);
    Swapped(s, lo, hi, l, r);
    for i := 1 to num
      invariant last <= r < hi && v == a[..][r := tmp] && !less(tmp, pivot) && Rearranged(s, v, lo, hi)
      invariant PendingLeft(less, v, pivot, lo, first) == pl[i..] && PendingRight(less, v, pivot, last, hi) == pr[i..]
    {
      OffsetsName(offsetsL, offsetsR, baseL, baseR, startL, startR, numL, numR, i, pl, pr);
      v, r := CyclePair(a, r, baseL + offsetsL[startL + i], baseR - offsetsR[startR + i], tmp, less, pivot, lo, first, last, hi, s, v);
    }
    a[r] := tmp;
    assert a[..] == v;
    NotesRest(true, offsetsL, baseL, startL, numL, pl, num);
    NotesRest(false, offsetsR, baseR, startR, numR, pr, num);
  }

  /** Fills the hole from l and l from r, which becomes the hole. */
  method CyclePair<T(!new)>(a: array<T>, hole: int, l: int, r: int, tmp: T, less: (T, T) -> bool, ghost pivot: T, ghost lo: int,
      ghost first: int, ghost last: int, ghost hi: int, ghost s: seq<T>, ghost v: seq<T>) returns (ghost u: seq<T>, newHole: int)
    requires 0 <= lo <= first <= last <= hole < hi <= a.Length && v == a[..][hole := tmp] && !less(tmp, pivot)
    requires Rearranged(s, v, lo, hi)
    requires var p := PendingLeft(less, v, pivot, lo, first); p != [] && p[0] == l
    requires var p := PendingRight(less, v, pivot, last, hi); p != [] && p[0] == r
    modifies a
    ensures newHole == r && last <= r < hi && u == a[..][r := tmp] && Rearranged(s, u, lo, hi)
    ensures PendingLeft(less, u, pivot, lo, first) == PendingLeft(less, v, pivot, lo, first)[1..]
    ensures PendingRight(less, u, pivot, last, hi) == PendingRight(less, v, pivot, last, hi)[1..]
  {
    hide *;
    ghost var t := a[..];
    CycleStepped(less, v, pivot, lo, first, last, hi, hole, l, r);
    a[hole] := a[l];
    a[l] := a[r];
    newHole := r;
    u := CycleStep(v, hole, l, r);
    CycleStepAt(v, hole, l, r);
    assert a[..] == t[hole := t[l]][l := t[r]];
    assert a[..][r := tmp] == u;
    RearrangedTwice(s, v, u, lo, hi);
  }

  /** Takes the first num noted elements of each side to the other one. */
  method SwapOffsets<T(!new)>(a: array<T>, baseL: int, baseR: int, offsetsL: array<Byte>, offsetsR: array<Byte>, startL: int, startR: int,
      num: int, ghost numL: int, ghost numR: int, useSwaps: bool, less: (T, T) -> bool, ghost pivot: T, ghost lo: int, ghost first: int, ghost last: int, ghost hi: int)
    requires 0 <= lo <= first <= last <= hi <= a.Length && a as object != offsetsL as object && a as object != offsetsR as object
    requires 0 <= num <= numL && num <= numR
    requires Notes(true, offsetsL, baseL, startL, numL, PendingLeft(less, a[..], pivot, lo, first))
    requires Notes(false, offsetsR, baseR, startR, numR, PendingRight(less, a[..], pivot, last, hi))
    modifies a
    ensures Rearranged(old(a[..]), a[..], lo, hi)
    ensures Notes(true, offsetsL, baseL, startL + num, numL - num, PendingLeft(less, a[..], pivot, lo, first))
    ensures Notes(false, offsetsR, baseR, startR + num, numR - num, PendingRight(less, a[..], pivot, last, hi))
  {
    hide *;
    if useSwaps {
      SwapPairs(a, baseL, baseR, offsetsL, offsetsR, startL, startR, num, numL, numR, less, pivot, lo, first, last, hi);
    } else if num > 0 {
      MoveCycle(a, baseL, baseR, offsetsL, offsetsR, startL, startR, num, numL, numR, less, pivot, lo, first, last, hi);
    } else {
      NotRearranged(a[..], lo, hi);
    }
  }

  /** The i-th offsets name the first of what is still pending. */
  lemma OffsetsName(offsetsL: array<Byte>, offsetsR: array<Byte>, baseL: int, baseR: int, startL: int, startR: int,
      numL: int, numR: int, i: int, pl: seq<int>, pr: seq<int>)
    requires Notes(true, offsetsL, baseL, startL, numL, pl) && Notes(false, offsetsR, baseR, startR, numR, pr)
    requires 0 <= i < numL && i < numR
    ensures |pl| == numL && |pr| == numR && 0 <= startL && 0 <= startR
    ensures startL + numL <= offsetsL.Length && startR + numR <= offsetsR.Length
    ensures pl[i..] != [] && pl[i..][0] == baseL + offsetsL[startL + i] && pl[i..][1..] == pl[i + 1..]
    ensures pr[i..] != [] && pr[i..][0] == baseR - offsetsR[startR + i] && pr[i..][1..] == pr[i + 1..]
  {
    NotesRest(true, offsetsL, baseL, startL, numL, pl, i);
    NotesRest(false, offsetsR, baseR, startR, numR, pr, i);
  }

  /** Fills whichever buffer is empty; the unknown elements are shared between the two when both are. */
  method FillBuffers<T(!new)>(a: array<T>, offsetsL: array<Byte>, offsetsR: array<Byte>, baseL: int, baseR: int, startL: int, startR: int,
      oldNumL: int, oldNumR: int, oldFirst: int, oldLast: int, pivot: T, less: (T, T) -> bool, ghost lo: int, ghost hi: int)
    returns (first: int, last: int, numL: int, numR: int)
    requires 0 <= lo <= oldFirst < oldLast <= hi <= a.Length && offsetsL.Length == BLOCK_SIZE == offsetsR.Length && offsetsL != offsetsR
    requires a as object != offsetsL as object && a as object != offsetsR as object
    requires oldNumL == 0 ==> startL == 0 && baseL == oldFirst
    requires oldNumR == 0 ==> startR == 0 && baseR == oldLast
    requires oldNumL == 0 || oldNumR == 0
    requires Notes(true, offsetsL, baseL, startL, oldNumL, PendingLeft(less, a[..], pivot, lo, oldFirst))
    requires Notes(false, offsetsR, baseR, startR, oldNumR, PendingRight(less, a[..], pivot, oldLast, hi))
    modifies offsetsL, offsetsR
    ensures oldFirst <= first <= last <= oldLast && last - first < oldLast - oldFirst
    ensures 0 <= numL && 0 <= numR
    ensures Notes(true, offsetsL, baseL, startL, numL, PendingLeft(less, a[..], pivot, lo, first))
    ensures Notes(false, offsetsR, baseR, startR, numR, PendingRight(less, a[..], pivot, last, hi))
  {
    hide Notes, Pending, PendingLeft, PendingRight;
    NotesCount(true, offsetsL, baseL, startL, oldNumL, PendingLeft(less, a[..], pivot, lo, oldFirst));
    NotesCount(false, offsetsR, baseR, startR, oldNumR, PendingRight(less, a[..], pivot, oldLast, hi));
    first, last, numL, numR := oldFirst, oldLast, oldNumL, oldNumR;
    var numUnknown := last - first;
    var leftSplit := if numL == 0 then if numR == 0 then numUnknown / 2 else numUnknown else 0;
    var rightSplit := if numR == 0 then numUnknown - leftSplit else 0;
    if oldNumL == 0 {
      var count := if leftSplit >= BLOCK_SIZE then BLOCK_SIZE else leftSplit;
      numL := FillLeft(a, offsetsL, first, count, pivot, less, lo);
      first := first + count;
    }
    if oldNumR == 0 {
      var count := if rightSplit >= BLOCK_SIZE then BLOCK_SIZE else rightSplit;
      numR := FillRight(a, offsetsR, last, count, pivot, less, hi);
      last := last - count;
    }
  }

  /** Fills whichever buffer is empty, exchanges as many noted elements as both have, and repeats
      until every element has been looked at; then moves the ones left over to the border. */
  method PartitionBlocks<T(!new)>(a: array<T>, start: int, end: int, pivot: T, less: (T, T) -> bool, ghost lo: int, ghost hi: int)
    returns (border: int)
    requires 0 <= lo <= start <= end <= hi <= a.Length
    requires AllBelow(less, a[..], lo, start, pivot) && NoneBelow(less, a[..], end, hi, pivot)
    modifies a
    ensures lo <= border <= hi && Rearranged(old(a[..]), a[..], lo, hi)
    ensures AllBelow(less, a[..], lo, border, pivot) && NoneBelow(less, a[..], border, hi, pivot)
  {
    hide Notes, Noted, Pending, PendingLeft, PendingRight, Rearranged, AllBelow, NoneBelow;
    var offsetsL, offsetsR := new Byte[BLOCK_SIZE], new Byte[BLOCK_SIZE];
    var first, last := start, end;
    var baseL, baseR := first, last;
    var numL, numR, startL, startR := 0, 0, 0, 0;
    NotRearranged(a[..], lo, hi);
    NonePendingLeft(less, a[..], pivot, lo, first);
    NonePendingRight(less, a[..], pivot, last, hi);
    NotesNothing(true, offsetsL, baseL);
    NotesNothing(false, offsetsR, baseR);
    while first < last
      invariant start <= first <= last <= end && fresh(offsetsL) && fresh(offsetsR) && offsetsL != offsetsR
      invariant offsetsL.Length == BLOCK_SIZE == offsetsR.Length
      invariant numL == 0 ==> startL == 0 && baseL == first
      invariant numR == 0 ==> startR == 0 && baseR == last
      invariant numL == 0 || numR == 0
      invariant Notes(true, offsetsL, baseL, startL, numL, PendingLeft(less, a[..], pivot, lo, first))
      invariant Notes(false, offsetsR, baseR, startR, numR, PendingRight(less, a[..], pivot, last, hi))
      invariant Rearranged(old(a[..]), a[..], lo, hi)
      decreases last - first
    {
      ghost var s := a[..];
      first, last, numL, numR := FillBuffers(a, offsetsL, offsetsR, baseL, baseR, startL, startR, numL, numR, first, last, pivot, less, lo, hi);
      var num := if numL < numR then numL else numR;
      SwapOffsets(a, baseL, baseR, offsetsL, offsetsR, startL, startR, num, numL, numR, numL == numR, less, pivot, lo, first, last, hi);
      RearrangedTwice(old(a[..]), s, a[..], lo, hi);
      numL, numR := numL - num, numR - num;
      startL, startR := startL + num, startR + num;
      NotesCount(true, offsetsL, baseL, startL, numL, PendingLeft(less, a[..], pivot, lo, first));
      NotesCount(false, offsetsR, baseR, startR, numR, PendingRight(less, a[..], pivot, last, hi));
      if numL == 0 {
        startL := 0;
        baseL := first;
        NotesNothing(true, offsetsL, baseL);
      }
      if numR == 0 {
        startR := 0;
        baseR := last;
        NotesNothing(false, offsetsR, baseR);
      }
    }
    NotesCount(true, offsetsL, baseL, startL, numL, PendingLeft(less, a[..], pivot, lo, first));
    NotesCount(false, offsetsR, baseR, startR, numR, PendingRight(less, a[..], pivot, last, hi));
    ghost var s := a[..];
    border := first;
    if numL > 0 {
      border := DrainLeft(a, offsetsL, baseL, startL, numL, border, less, pivot, lo, hi);
    }
    if numR > 0 {
      border := DrainRight(a, offsetsR, baseR, startR, numR, border, less, pivot, lo, hi);
    }
    NonePendingLeft(less, a[..], pivot, lo, border);
    NonePendingRight(less, a[..], pivot, border, hi);
    NotRearranged(s, lo, hi);
    RearrangedTwice(old(a[..]), s, a[..], lo, hi);
  }

  /** The last noted elements of the left side go to its end, which moves down. */
  method DrainLeft<T(!new)>(a: array<T>, offsets: array<Byte>, base: int, start: int, num: int, end: int, less: (T, T) -> bool,
      ghost pivot: T, ghost lo: int, ghost hi: int) returns (last: int)
    requires 0 <= lo <= end <= hi <= a.Length && a as object != offsets as object
    requires Notes(true, offsets, base, start, num, PendingLeft(less, a[..], pivot, lo, end))
    requires PendingRight(less, a[..], pivot, end, hi) == []
    modifies a
    ensures lo <= last <= hi && Rearranged(old(a[..]), a[..], lo, hi)
    ensures PendingLeft(less, a[..], pivot, lo, last) == [] && PendingRight(less, a[..], pivot, last, hi) == []
  {
    hide *;
    var n := num;
    last := end;
    NotRearranged(a[..], lo, hi);
    NotesCount(true, offsets, base, start, num, PendingLeft(less, a[..], pivot, lo, end));
    while n > 0
      invariant 0 <= n <= num && lo <= last <= hi && Rearranged(old(a[..]), a[..], lo, hi)
      invariant Notes(true, offsets, base, start, n, PendingLeft(less, a[..], pivot, lo, last))
      invariant PendingRight(less, a[..], pivot, last, hi) == []
    {
      ghost var s := a[..];
      NotesCount(true, offsets, base, start, n, PendingLeft(less, s, pivot, lo, last));
      NotesRest(true, offsets, base, start, n, PendingLeft(less, s, pivot, lo, last), n - 1);
      n := n - 1;
      last := last - 1;
      MoveOutLeft(a, base + offsets[start + n], last, less, pivot, lo, hi, old(a[..]));
    }
    NotesCount(true, offsets, base, start, 0, PendingLeft(less, a[..], pivot, lo, last));
  }

  method MoveOutLeft<T(!new)>(a: array<T>, p: int, last: int, less: (T, T) -> bool, ghost pivot: T, ghost lo: int, ghost hi: int, ghost s: seq<T>)
    requires 0 <= lo <= last + 1 <= hi <= a.Length && PendingRight(less, a[..], pivot, last + 1, hi) == []
    requires var pending := PendingLeft(less, a[..], pivot, lo, last + 1); pending != [] && pending[|pending| - 1] == p
    requires Rearranged(s, a[..], lo, hi)
    modifies a
    ensures lo <= last && Rearranged(s, a[..], lo, hi) && PendingRight(less, a[..], pivot, last, hi) == []
    ensures PendingLeft(less, a[..], pivot, lo, last)
            == var pending := old(PendingLeft(less, a[..], pivot, lo, last + 1)); pending[..|pending| - 1]
  {
    hide *;
    ghost var t := a[..];
    LastOfLeft(less, t, pivot, lo, last + 1, hi);
    a[p], a[last] := a[last], a[p];
    assert a[..] == t[p := t[last]][last := t[p]];
    RearrangedTwice(s, t, a[..], lo, hi);
  }

  lemma LastOfLeft<T>(less: (T, T) -> bool, s: seq<T>, pivot: T, lo: int, last: int, hi: int)
    requires 0 <= lo <= last <= hi <= |s| && PendingRight(less, s, pivot, last, hi) == []
    requires PendingLeft(less, s, pivot, lo, last) != []
    ensures var pending := PendingLeft(less, s, pivot, lo, last); var p := pending[|pending| - 1];
            && lo <= p < last
            && var t := s[p := s[last - 1]][last - 1 := s[p]];
            && Rearranged(s, t, lo, hi)
            && PendingLeft(less, t, pivot, lo, last - 1) == pending[..|pending| - 1]
            && PendingRight(less, t, pivot, last - 1, hi) == []
  {
    hide Rearranged, AllBelow, NoneBelow;
    var pending := PendingLeft(less, s, pivot, lo, last);
    var p := pending[|pending| - 1];
    var i := PendingAt(less, s, pivot, true, lo, last - lo, |pending| - 1);
    LastMovedOut(less, s, pivot, true, lo, last - lo);
    Swapped(s, lo, hi, p, last - 1);
    var t := s[p := s[last - 1]][last - 1 := s[p]];
    PendingSame(less, s, t, pivot, false, hi, hi - last);
  }

  /** The last noted elements of the right side go to its start, which moves up. */
  method DrainRight<T(!new)>(a: array<T>, offsets: array<Byte>, base: int, start: int, num: int, begin: int, less: (T, T) -> bool,
      ghost pivot: T, ghost lo: int, ghost hi: int) returns (first: int)
    requires 0 <= lo <= begin <= hi <= a.Length && a as object != offsets as object
    requires PendingLeft(less, a[..], pivot, lo, begin) == []
    requires Notes(false, offsets, base, start, num, PendingRight(less, a[..], pivot, begin, hi))
    modifies a
    ensures lo <= first <= hi && Rearranged(old(a[..]), a[..], lo, hi)
    ensures PendingLeft(less, a[..], pivot, lo, first) == [] && PendingRight(less, a[..], pivot, first, hi) == []
  {
    hide *;
    var n := num;
    first := begin;
    NotRearranged(a[..], lo, hi);
    NotesCount(false, offsets, base, start, num, PendingRight(less, a[..], pivot, begin, hi));
    while n > 0
      invariant 0 <= n <= num && lo <= first <= hi && Rearranged(old(a[..]), a[..], lo, hi)
      invariant PendingLeft(less, a[..], pivot, lo, first) == []
      invariant Notes(false, offsets, base, start, n, PendingRight(less, a[..], pivot, first, hi))
    {
      ghost var s := a[..];
      NotesCount(false, offsets, base, start, n, PendingRight(less, s, pivot, first, hi));
      NotesRest(false, offsets, base, start, n, PendingRight(less, s, pivot, first, hi), n - 1);
      n := n - 1;
      MoveOutRight(a, base - offsets[start + n], first, less, pivot, lo, hi, old(a[..]));
      first := first + 1;
    }
    NotesCount(false, offsets, base, start, 0, PendingRight(less, a[..], pivot, first, hi));
  }

  method MoveOutRight<T(!new)>(a: array<T>, p: int, first: int, less: (T, T) -> bool, ghost pivot: T, ghost lo: int, ghost hi: int, ghost s: seq<T>)
    requires 0 <= lo <= first <= hi <= a.Length && PendingLeft(less, a[..], pivot, lo, first) == []
    requires var pending := PendingRight(less, a[..], pivot, first, hi); pending != [] && pending[|pending| - 1] == p
    requires Rearranged(s, a[..], lo, hi)
    modifies a
    ensures first < hi && Rearranged(s, a[..], lo, hi) && PendingLeft(less, a[..], pivot, lo, first + 1) == []
    ensures PendingRight(less, a[..], pivot, first + 1, hi)
            == var pending := old(PendingRight(less, a[..], pivot, first, hi)); pending[..|pending| - 1]
  {
    hide *;
    ghost var t := a[..];
    LastOfRight(less, t, pivot, lo, first, hi);
    a[p], a[first] := a[first], a[p];
    assert a[..] == t[p := t[first]][first := t[p]];
    RearrangedTwice(s, t, a[..], lo, hi);
  }

  lemma LastOfRight<T>(less: (T, T) -> bool, s: seq<T>, pivot: T, lo: int, first: int, hi: int)
    requires 0 <= lo <= first <= hi <= |s| && PendingLeft(less, s, pivot, lo, first) == []
    requires PendingRight(less, s, pivot, first, hi) != []
    ensures var pending := PendingRight(less, s, pivot, first, hi); var p := pending[|pending| - 1];
            && first <= p < hi
            && var t := s[p := s[first]][first := s[p]];
            && Rearranged(s, t, lo, hi)
            && PendingRight(less, t, pivot, first + 1, hi) == pending[..|pending| - 1]
            && PendingLeft(less, t, pivot, lo, first + 1) == []
  {
    hide Rearranged, AllBelow, NoneBelow;
    var pending := PendingRight(less, s, pivot, first, hi);
    var p := pending[|pending| - 1];
    var i := PendingAt(less, s, pivot, false, hi, hi - first, |pending| - 1);
    LastMovedOut(less, s, pivot, false, hi, hi - first);
    Swapped(s, lo, hi, p, first);
    var t := s[p := s[first]][first := s[p]];
    PendingSame(less, s, t, pivot, true, lo, first - lo);
  }
}
