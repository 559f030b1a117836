/** Two plots of the same allocations and frees: one in the order in which they came, one merged from the
    lists. They can differ only in what comes at one time. */
module MemoryTies {
  import opened MemorySteps

  lemma SubsetSize<T>(s: set<T>, t: set<T>)
    requires s <= t
    ensures |s| <= |t|
  {
    assert t == s + (t - s);
  }

  lemma {:induction false} OnceCount<T>(s: seq<T>)
    requires Once(s)
    ensures |set x | x in s| == |s|
    decreases |s|
  {
    if s != [] {
      var n := |s| - 1;
      OnceCount(s[..n]);
      assert s == s[..n] + [s[n]];
      assert (set x | x in s) == (set x | x in s[..n]) + {s[n]};
    }
  }

  ghost predicate SortedBy<T>(key: T -> int, s: seq<T>) {
    forall k, m :: 0 <= k < m < |s| ==> key(s[k]) <= key(s[m])
  }

  ghost predicate SameMembers<T(!new)>(s: seq<T>, t: seq<T>) {
    forall x :: x in s <==> x in t
  }

  lemma KeyNotLess<T(!new)>(key: T -> int, s: seq<T>, t: seq<T>, k: int)
    requires Once(s) && Once(t) && SameMembers(s, t) && SortedBy(key, s) && SortedBy(key, t) && 0 <= k < |s| && k < |t|
    ensures key(s[k]) >= key(t[k])
  {
    if key(s[k]) < key(t[k]) {
      var front, less := s[..k + 1], t[..k];
      forall x | x in front
        ensures x in less
      {
        assert x in s && x in t;
        var q :| 0 <= q < |t| && t[q] == x;
        assert q < k;
        assert less[q] == x;
      }
      OnceCount(front);
      OnceCount(less);
      SubsetSize(set x | x in front, set x | x in less);
      assert false;
    }
  }

  /** Two orders of the same things, each once, by the same key, have the same keys at every place. */
  lemma KeysAgree<T(!new)>(key: T -> int, s: seq<T>, t: seq<T>)
    requires Once(s) && Once(t) && SameMembers(s, t) && SortedBy(key, s) && SortedBy(key, t) && |s| == |t|
    ensures forall k :: 0 <= k < |s| ==> key(s[k]) == key(t[k])
  {
    forall k | 0 <= k < |s|
      ensures key(s[k]) == key(t[k])
    {
      KeyNotLess(key, s, t, k);
      KeyNotLess(key, t, s, k);
    }
  }

  lemma SameSize<T(!new)>(s: seq<T>, t: seq<T>)
    requires Once(s) && Once(t) && SameMembers(s, t)
    ensures |s| == |t|
  {
    OnceCount(s);
    OnceCount(t);
    assert (set x | x in s) == (set x | x in t);
  }

  /** The order in which the steps came, s, and the order t of the merge, each with its order of frees. */
  ghost predicate Orders(data: seq<MemEvent>, frees: seq<int>, sorted: seq<int>, s: seq<Step>, t: seq<Step>) {
    && IsData(data) && ListsFrees(data, frees) && ListsFrees(data, sorted) && FreesInOrder(data, sorted)
    && AllSteps(data, frees, s) && AllSteps(data, sorted, t) && InOrder(data, s) && FreesFirst(data, t)
  }

  lemma SameFrees(data: seq<MemEvent>, p: seq<int>, q: seq<int>)
    requires ListsFrees(data, p) && ListsFrees(data, q)
    ensures SameMembers(p, q) && |p| == |q|
  {
    SameSize(p, q);
  }

  /** What came was freed in the order of the times. */
  lemma FreesCame(data: seq<MemEvent>, frees: seq<int>, s: seq<Step>)
    requires ListsFrees(data, frees) && AllSteps(data, frees, s) && InOrder(data, s)
    ensures FreesInOrder(data, frees)
  {
    hide InOrder, AllSteps;
    forall n, m | 0 <= n < m < |frees|
      ensures TimeFree(data, frees[n]) <= TimeFree(data, frees[m])
    {
      var k, a := SplitBefore(data, frees, s, m);
      FreeIn(data, frees, s, k, a, m, n);
      FreeIn(data, frees, s, k, a, m, m);
      StepIn(data, frees, s, 0, m);
      Ahead(data, s, k, Free(frees[n]), Free(frees[m]));
    }
  }

  /** The steps before the m-th free. */
  lemma SplitBefore(data: seq<MemEvent>, frees: seq<int>, steps: seq<Step>, m: int) returns (k: int, a: int)
    requires AllSteps(data, frees, steps) && Once(frees) && 0 <= m < |frees|
    ensures Split(data, frees, steps, k, a, m) && k < |steps| && steps[k] == Free(frees[m])
  {
    StepIn(data, frees, steps, 0, m);
    k :| 0 <= k < |steps| && steps[k] == Free(frees[m]);
    var f;
    a, f := SplitAt(data, frees, steps, k + 1);
    SplitBack(data, frees, steps, k + 1, a, f);
    assert frees[f - 1] == frees[m];
    assert f - 1 == m;
  }

  lemma TimesAgree(data: seq<MemEvent>, frees: seq<int>, sorted: seq<int>, s: seq<Step>, t: seq<Step>)
    requires Orders(data, frees, sorted, s, t)
    ensures |frees| == |sorted| && forall m :: 0 <= m < |frees| ==> TimeFree(data, frees[m]) == TimeFree(data, sorted[m])
    ensures |s| == |t| && forall k :: 0 <= k < |s| ==> StepTime(data, s[k]) == StepTime(data, t[k])
  {
    hide Begun, EndedIn, StepTime, TimeFree, Precedes;
    SameFrees(data, frees, sorted);
    FreesCame(data, frees, s);
    KeysAgree(i => TimeFree(data, i), frees, sorted);
    StepsOnce(s);
    StepsOnce(t);
    FreesFirstInTurn(data, t);
    forall x
      ensures x in s <==> x in t
    {
      Members(s, x);
      Members(t, x);
    }
    KeysAgree(x => StepTime(data, x), s, t);
  }

  /** An allocation and a later free that come at the same time. */
  ghost predicate Tied(data: seq<MemEvent>, s: seq<Step>, k: int, m: int) {
    0 <= k < m < |s| && s[k].Alloc? && s[m].Free? && StepTime(data, s[k]) == StepTime(data, s[m])
  }

  /** No allocation comes before a free at the same time, unless neither changes anything. */
  ghost predicate Settled(data: seq<MemEvent>, s: seq<Step>) {
    forall k, m :: Tied(data, s, k, m) ==> StepSize(data, s[k]) == 0 == StepSize(data, s[m])
  }

  /** What is freed at the same time has the same size. */
  ghost predicate EqualTies(data: seq<MemEvent>) {
    forall i, j :: 0 <= i < |data| && 0 <= j < |data| && data[i].free >= 0 && data[i].free == data[j].free ==> data[i].size == data[j].size
  }

  ghost predicate SizesAgree(data: seq<MemEvent>, frees: seq<int>, sorted: seq<int>) {
    |frees| == |sorted| && forall m :: 0 <= m < |frees| ==> SizeOf(data, frees[m]) == SizeOf(data, sorted[m])
  }

  lemma TiesAgree(data: seq<MemEvent>, frees: seq<int>, sorted: seq<int>, s: seq<Step>, t: seq<Step>)
    requires Orders(data, frees, sorted, s, t) && EqualTies(data)
    ensures SizesAgree(data, frees, sorted)
  {
    TimesAgree(data, frees, sorted, s, t);
  }

  lemma {:induction false} FreedAgree(data: seq<MemEvent>, frees: seq<int>, sorted: seq<int>, f: int)
    requires SizesAgree(data, frees, sorted) && 0 <= f <= |frees|
    ensures Freed(data, frees[..f]) == Freed(data, sorted[..f])
    decreases f
  {
    if f > 0 {
      FreedAgree(data, frees, sorted, f - 1);
      assert frees[..f][..f - 1] == frees[..f - 1] && sorted[..f][..f - 1] == sorted[..f - 1];
    }
  }

  /** Something done by k in the one order and not in the other: it comes at the same time as what is not
      done in the one and done in the other. */
  lemma Crossing(data: seq<MemEvent>, frees: seq<int>, sorted: seq<int>, s: seq<Step>, t: seq<Step>, k: int, a: int, f: int, b: int, g: int, j: int, m: int)
    requires Orders(data, frees, sorted, s, t) && Split(data, frees, s, k, a, f) && Split(data, sorted, t, k, b, g)
    requires b <= j < a && f <= m < g
    ensures m < |frees| && Alloc(j) in s[..k] && Free(frees[m]) in s && Free(frees[m]) !in s[..k]
    ensures StepTime(data, Alloc(j)) == StepTime(data, Free(frees[m]))
  {
    TimesAgree(data, frees, sorted, s, t);
    SplitBounds(data, frees, s, k, a, f);
    SplitBounds(data, sorted, t, k, b, g);
    hide AllSteps, Split, InOrder, FreesFirst, FreesInOrder;
    AllocIn(data, frees, s, k, a, f, j);
    FreeIn(data, frees, s, k, a, f, m);
    StepIn(data, frees, s, j, m);
    Ahead(data, s, k, Alloc(j), Free(frees[m]));
    AllocIn(data, sorted, t, k, b, g, j);
    FreeIn(data, sorted, t, k, b, g, m);
    StepIn(data, sorted, t, j, m);
    Ahead(data, t, k, Free(sorted[m]), Alloc(j));
  }

  /** The merge never has more allocations behind it than there came. */
  lemma NotAhead(data: seq<MemEvent>, frees: seq<int>, sorted: seq<int>, s: seq<Step>, t: seq<Step>, k: int, a: int, f: int, b: int, g: int)
    requires Orders(data, frees, sorted, s, t) && Split(data, frees, s, k, a, f) && Split(data, sorted, t, k, b, g)
    ensures b <= a && f <= g && a - b == g - f
  {
    TimesAgree(data, frees, sorted, s, t);
    SplitBounds(data, frees, s, k, a, f);
    SplitBounds(data, sorted, t, k, b, g);
    hide AllSteps, Split, InOrder, FreesFirst, FreesInOrder;
    if a < b {
      AllocIn(data, frees, s, k, a, f, a);
      FreeIn(data, frees, s, k, a, f, g);
      StepIn(data, frees, s, a, g);
      Ahead(data, s, k, Free(frees[g]), Alloc(a));
      AllocIn(data, sorted, t, k, b, g, a);
      FreeIn(data, sorted, t, k, b, g, g);
      StepIn(data, sorted, t, a, g);
      Ahead(data, t, k, Alloc(a), Free(sorted[g]));
    }
  }

  lemma TiedBy(data: seq<MemEvent>, s: seq<Step>, k: int, x: Step, y: Step)
    requires Settled(data, s) && 0 <= k <= |s| && x in s[..k] && y in s && y !in s[..k]
    requires x.Alloc? && y.Free? && StepTime(data, x) == StepTime(data, y)
    ensures StepSize(data, x) == 0 == StepSize(data, y)
  {
    assert s == s[..k] + s[k..];
    var p :| 0 <= p < k && s[..k][p] == x;
    var q :| 0 <= q < |s| - k && s[k..][q] == y;
    assert Tied(data, s, p, k + q);
  }

  /** With ties settled, the steps that only one of the two orders has behind it add nothing. */
  lemma SettledAt(data: seq<MemEvent>, frees: seq<int>, sorted: seq<int>, s: seq<Step>, t: seq<Step>, k: int, a: int, f: int, b: int, g: int)
    requires Orders(data, frees, sorted, s, t) && Split(data, frees, s, k, a, f) && Split(data, sorted, t, k, b, g)
    requires Settled(data, s)
    ensures 0 <= b <= a <= |data| && 0 <= f <= g <= |frees|
    ensures Allocated(data, a) == Allocated(data, b) && Freed(data, frees[..f]) == Freed(data, frees[..g])
  {
    NotAhead(data, frees, sorted, s, t, k, a, f, b, g);
    TimesAgree(data, frees, sorted, s, t);
    SplitBounds(data, frees, s, k, a, f);
    SplitBounds(data, sorted, t, k, b, g);
    hide AllSteps, Split, InOrder, FreesFirst, FreesInOrder, Settled, StepTime;
    forall j | b <= j < a
      ensures data[j].size == 0
    {
      Crossing(data, frees, sorted, s, t, k, a, f, b, g, j, f);
      TiedBy(data, s, k, Alloc(j), Free(frees[f]));
    }
    forall m | f <= m < g
      ensures SizeOf(data, frees[m]) == 0
    {
      Crossing(data, frees, sorted, s, t, k, a, f, b, g, b, m);
      TiedBy(data, s, k, Alloc(b), Free(frees[m]));
    }
    AllocatedMore(data, b, a);
    FreedMore(data, frees, f, g);
  }

  lemma OrdersParts(data: seq<MemEvent>, frees: seq<int>, sorted: seq<int>, s: seq<Step>, t: seq<Step>)
    requires Orders(data, frees, sorted, s, t)
    ensures IsData(data) && ListsFrees(data, frees) && ListsFrees(data, sorted) && Once(frees) && Once(sorted)
    ensures AllSteps(data, frees, s) && AllSteps(data, sorted, t) && InOrder(data, s) && FreesFirst(data, t)
  {
    hide IsData, Once, AllSteps, InOrder, FreesFirst;
  }

  lemma PointAt(data: seq<MemEvent>, p: seq<Point>, s: seq<Step>, firstTime: int)
    requires Follows(data, p, s, firstTime)
    ensures |p| == |s| + 1 && p[0].time == firstTime && forall k :: 0 < k < |p| ==> p[k].time == StepTime(data, s[k - 1])
  {
    forall k | 0 < k < |p|
      ensures p[k].time == StepTime(data, s[k - 1])
    {
      assert p[k - 1 + 1].time == StepTime(data, s[k - 1]);
    }
  }

  /** With ties settled the plots are the same. */
  lemma SettledAgrees(data: seq<MemEvent>, frees: seq<int>, sorted: seq<int>, s: seq<Step>, t: seq<Step>, p: seq<Point>, q: seq<Point>, firstTime: int)
    requires Orders(data, frees, sorted, s, t) && SizesAgree(data, frees, sorted) && Settled(data, s)
    requires Follows(data, p, s, firstTime) && Follows(data, q, t, firstTime)
    ensures p == q
  {
    hide *;
    TimesAgree(data, frees, sorted, s, t);
    OrdersParts(data, frees, sorted, s, t);
    PointAt(data, p, s, firstTime);
    PointAt(data, q, t, firstTime);
    forall k | 0 <= k < |p|
      ensures p[k] == q[k]
    {
      var a, f := SplitAt(data, frees, s, k);
      var b, g := SplitAt(data, sorted, t, k);
      SettledAt(data, frees, sorted, s, t, k, a, f, b, g);
      ValueAt(data, frees, p, s, firstTime, k, a, f);
      ValueAt(data, sorted, q, t, firstTime, k, b, g);
      SplitBounds(data, sorted, t, k, b, g);
      FreedAgree(data, frees, sorted, g);
    }
  }

  /** Where the plots agree, the steps that only one of the orders has behind it add nothing. */
  lemma AgreeAt(data: seq<MemEvent>, frees: seq<int>, sorted: seq<int>, s: seq<Step>, t: seq<Step>, p: seq<Point>, q: seq<Point>,
      firstTime: int, k: int, a: int, f: int, b: int, g: int)
    requires Orders(data, frees, sorted, s, t) && SizesAgree(data, frees, sorted)
    requires Follows(data, p, s, firstTime) && Follows(data, q, t, firstTime) && 0 <= k < |p| && p == q
    requires Split(data, frees, s, k, a, f) && Split(data, sorted, t, k, b, g)
    ensures 0 <= b <= a <= |data| && 0 <= f <= g <= |frees|
    ensures (forall j :: b <= j < a ==> data[j].size == 0) && (forall m :: f <= m < g ==> SizeOf(data, frees[m]) == 0)
  {
    NotAhead(data, frees, sorted, s, t, k, a, f, b, g);
    SplitBounds(data, frees, s, k, a, f);
    SplitBounds(data, sorted, t, k, b, g);
    ValueAt(data, frees, p, s, firstTime, k, a, f);
    ValueAt(data, sorted, q, t, firstTime, k, b, g);
    FreedAgree(data, frees, sorted, g);
    AllocatedMore(data, b, a);
    FreedMore(data, frees, f, g);
    hide *;
    AllZero(data, frees, a, f, b, g);
  }

  lemma AllZero(data: seq<MemEvent>, frees: seq<int>, a: int, f: int, b: int, g: int)
    requires IsData(data) && 0 <= b <= a <= |data| && 0 <= f <= g <= |frees|
    requires Allocated(data, a) - Freed(data, frees[..f]) == Allocated(data, b) - Freed(data, frees[..g])
    ensures (forall j :: b <= j < a ==> data[j].size == 0) && (forall m :: f <= m < g ==> SizeOf(data, frees[m]) == 0)
  {
    AllocatedMore(data, b, a);
    FreedMore(data, frees, f, g);
  }

  /** When the plots are the same, no tie has turned: at the free of a tied pair the merge has it behind it. */
  lemma AgreesFree(data: seq<MemEvent>, frees: seq<int>, sorted: seq<int>, s: seq<Step>, t: seq<Step>, p: seq<Point>, q: seq<Point>,
      firstTime: int, x: int, y: int)
    requires Orders(data, frees, sorted, s, t) && SizesAgree(data, frees, sorted) && Tied(data, s, x, y)
    requires Follows(data, p, s, firstTime) && Follows(data, q, t, firstTime) && p == q
    ensures StepSize(data, s[y]) == 0
  {
    hide *;
    TiedIs(data, s, x, y);
    OrdersParts(data, frees, sorted, s, t);
    PointAt(data, p, s, firstTime);
    TimesAgree(data, frees, sorted, s, t);
    var a, f := SplitAt(data, frees, s, y + 1);
    SplitBack(data, frees, s, y + 1, a, f);
    f := f - 1;
    var b, g := SplitAt(data, sorted, t, y);
    SplitBounds(data, frees, s, y, a, f);
    SplitBounds(data, sorted, t, y, b, g);
    assert s[..y][x] == s[x];
    FreeStep(data, frees[f]);
    FreeStep(data, sorted[f]);
    AllocIn(data, frees, s, y, a, f, s[x].i);
    if g <= f {
      AllocIn(data, sorted, t, y, b, g, s[x].i);
      FreeIn(data, sorted, t, y, b, g, f);
      StepIn(data, sorted, t, s[x].i, f);
      Ahead(data, t, y, Alloc(s[x].i), Free(sorted[f]));
      TieBreaks(data, Alloc(s[x].i), Free(sorted[f]));
    }
    AgreeAt(data, frees, sorted, s, t, p, q, firstTime, y, a, f, b, g);
  }

  /** And right after its allocation the merge does not have that behind it. */
  lemma AgreesAlloc(data: seq<MemEvent>, frees: seq<int>, sorted: seq<int>, s: seq<Step>, t: seq<Step>, p: seq<Point>, q: seq<Point>,
      firstTime: int, x: int, y: int)
    requires Orders(data, frees, sorted, s, t) && SizesAgree(data, frees, sorted) && Tied(data, s, x, y)
    requires Follows(data, p, s, firstTime) && Follows(data, q, t, firstTime) && p == q
    ensures StepSize(data, s[x]) == 0
  {
    hide *;
    TiedIs(data, s, x, y);
    OrdersParts(data, frees, sorted, s, t);
    PointAt(data, p, s, firstTime);
    TimesAgree(data, frees, sorted, s, t);
    var a, f := SplitAt(data, frees, s, x + 1);
    SplitBack(data, frees, s, x + 1, a, f);
    var c, m := SplitAt(data, frees, s, y + 1);
    SplitBack(data, frees, s, y + 1, c, m);
    m := m - 1;
    var b, g := SplitAt(data, sorted, t, x + 1);
    SplitBounds(data, frees, s, x + 1, a, f);
    SplitBounds(data, frees, s, y, c, m);
    SplitBounds(data, sorted, t, x + 1, b, g);
    FreesUpTo(data, frees, s, x + 1, a, f, y, c, m);
    FreeStep(data, frees[m]);
    FreeStep(data, sorted[m]);
    AllocStep(data, a - 1);
    if b >= a {
      AllocIn(data, sorted, t, x + 1, b, g, a - 1);
      FreeIn(data, sorted, t, x + 1, b, g, m);
      StepIn(data, sorted, t, a - 1, m);
      Ahead(data, t, x + 1, Alloc(a - 1), Free(sorted[m]));
      TieBreaks(data, Alloc(a - 1), Free(sorted[m]));
    }
    AgreeAt(data, frees, sorted, s, t, p, q, firstTime, x + 1, a, f, b, g);
  }

  lemma TiedIs(data: seq<MemEvent>, s: seq<Step>, k: int, m: int)
    requires Tied(data, s, k, m)
    ensures 0 <= k < m < |s| && s[k].Alloc? && s[m].Free? && StepTime(data, s[k]) == StepTime(data, s[m])
  {
  }

  lemma FreeStep(data: seq<MemEvent>, i: int)
    ensures StepTime(data, Free(i)) == TimeFree(data, i) && StepSize(data, Free(i)) == -SizeOf(data, i)
  {
  }

  lemma AllocStep(data: seq<MemEvent>, i: int)
    ensures StepSize(data, Alloc(i)) == if 0 <= i < |data| then data[i].size else 0
  {
  }

  lemma TieBreaks(data: seq<MemEvent>, x: Step, y: Step)
    requires x.Alloc? && y.Free? && StepTime(data, x) == StepTime(data, y)
    ensures !Precedes(data, x, y)
  {
  }

  lemma PlacesOrdered(data: seq<MemEvent>, t: seq<Step>, k: int, m: int)
    requires FreesFirst(data, t) && 0 <= k < m < |t|
    ensures Precedes(data, t[k], t[m])
  {
  }

  lemma FreesUpTo(data: seq<MemEvent>, frees: seq<int>, s: seq<Step>, k: int, a: int, f: int, y: int, c: int, m: int)
    requires AllSteps(data, frees, s) && Once(frees) && Split(data, frees, s, k, a, f) && k <= y < |s| && Split(data, frees, s, y, c, m)
    ensures f <= m
  {
    SplitBounds(data, frees, s, y, c, m);
    if m < |frees| {
      FreeIn(data, frees, s, k, a, f, m);
      FreeIn(data, frees, s, y, c, m, m);
      assert s[..y][..k] == s[..k];
    }
  }

  /** When sizes agree, the plots are the same if and only if ties are settled. */
  lemma SameIffSettled(data: seq<MemEvent>, frees: seq<int>, sorted: seq<int>, s: seq<Step>, t: seq<Step>, p: seq<Point>, q: seq<Point>, firstTime: int)
    requires Orders(data, frees, sorted, s, t) && SizesAgree(data, frees, sorted)
    requires Follows(data, p, s, firstTime) && Follows(data, q, t, firstTime)
    ensures p == q <==> Settled(data, s)
  {
    hide Orders, SizesAgree, Follows, Tied, StepSize;
    if Settled(data, s) {
      SettledAgrees(data, frees, sorted, s, t, p, q, firstTime);
    } else if p == q {
      forall k, m | Tied(data, s, k, m)
        ensures 0 <= k < |s| && 0 <= m < |s| && StepSize(data, s[k]) == 0 == StepSize(data, s[m])
      {
        TiedIs(data, s, k, m);
        AgreesAlloc(data, frees, sorted, s, t, p, q, firstTime, k, m);
        AgreesFree(data, frees, sorted, s, t, p, q, firstTime, k, m);
      }
    }
  }

  /** However equal times were sorted: a tied pair that both takes on and gives back memory makes the plots differ. */
  lemma TurnedDiffers(data: seq<MemEvent>, frees: seq<int>, sorted: seq<int>, s: seq<Step>, t: seq<Step>, p: seq<Point>, q: seq<Point>,
      firstTime: int, k: int, m: int)
    requires Orders(data, frees, sorted, s, t) && Follows(data, p, s, firstTime) && Follows(data, q, t, firstTime)
    requires Tied(data, s, k, m) && StepSize(data, s[k]) > 0 && StepSize(data, s[m]) < 0
    ensures p != q
  {
    TimesAgree(data, frees, sorted, s, t);
    if p == q {
      SizeAt(data, p, s, firstTime, k);
      SizeAt(data, q, t, firstTime, k);
      SizeAt(data, p, s, firstTime, m);
      SizeAt(data, q, t, firstTime, m);
      GivesBack(data, t[k]);
      GivesBack(data, t[m]);
      PlacesOrdered(data, t, k, m);
      TieBreaks(data, t[k], t[m]);
    }
  }

  /** At one time memory was taken and, after that, memory given back. */
  ghost predicate TakenAndGiven(data: seq<MemEvent>, s: seq<Step>) {
    exists k, m :: Tied(data, s, k, m) && StepSize(data, s[k]) > 0 && StepSize(data, s[m]) < 0
  }

  lemma TiedPair(data: seq<MemEvent>, s: seq<Step>) returns (k: int, m: int)
    requires TakenAndGiven(data, s)
    ensures Tied(data, s, k, m) && 0 <= k < m < |s| && StepSize(data, s[k]) > 0 && StepSize(data, s[m]) < 0
  {
    k, m :| Tied(data, s, k, m) && StepSize(data, s[k]) > 0 && StepSize(data, s[m]) < 0;
  }

  lemma SizeAt(data: seq<MemEvent>, p: seq<Point>, s: seq<Step>, firstTime: int, k: int)
    requires Follows(data, p, s, firstTime) && 0 <= k < |s|
    ensures StepSize(data, s[k]) == p[k + 1].val - p[k].val
  {
  }

  lemma GivesBack(data: seq<MemEvent>, x: Step)
    requires IsData(data)
    ensures StepSize(data, x) > 0 ==> x.Alloc?
    ensures StepSize(data, x) < 0 ==> x.Free?
  {
  }

  /** Two frees changing places. */
  function Exchanged(x: int, i: int, j: int): int {
    if x == i then j else if x == j then i else x
  }

  function ListExchanged(l: seq<int>, i: int, j: int): seq<int> {
    seq(|l|, k requires 0 <= k < |l| => Exchanged(l[k], i, j))
  }

  function StepsExchanged(t: seq<Step>, i: int, j: int): seq<Step> {
    seq(|t|, k requires 0 <= k < |t| => if t[k].Free? then Free(Exchanged(t[k].i, i, j)) else t[k])
  }

  lemma {:induction false} ExchangedLists(t: seq<Step>, i: int, j: int)
    ensures Begun(StepsExchanged(t, i, j)) == Begun(t) && EndedIn(StepsExchanged(t, i, j)) == ListExchanged(EndedIn(t), i, j)
    decreases |t|
  {
    if t != [] {
      var n := |t| - 1;
      ExchangedLists(t[..n], i, j);
      assert StepsExchanged(t, i, j)[..n] == StepsExchanged(t[..n], i, j);
    }
  }

  lemma ExchangedTimes(data: seq<MemEvent>, frees: seq<int>, i: int, j: int)
    requires FreesInOrder(data, frees) && TimeFree(data, i) == TimeFree(data, j)
    ensures FreesInOrder(data, ListExchanged(frees, i, j))
  {
    var l := ListExchanged(frees, i, j);
    forall k, m | 0 <= k < m < |l|
      ensures TimeFree(data, l[k]) <= TimeFree(data, l[m])
    {
      assert TimeFree(data, frees[k]) <= TimeFree(data, frees[m]);
    }
  }

  lemma ExchangedOnce(frees: seq<int>, i: int, j: int)
    requires Once(frees)
    ensures Once(ListExchanged(frees, i, j))
  {
    var l := ListExchanged(frees, i, j);
    forall k, m | 0 <= k < m < |l|
      ensures l[k] != l[m]
    {
      assert frees[k] != frees[m];
    }
  }

  lemma ExchangedIn(frees: seq<int>, i: int, j: int, x: int)
    requires Exchanged(x, i, j) in frees
    ensures x in ListExchanged(frees, i, j)
  {
    var k :| 0 <= k < |frees| && frees[k] == Exchanged(x, i, j);
    assert ListExchanged(frees, i, j)[k] == x;
  }

  lemma ExchangedRange(data: seq<MemEvent>, frees: seq<int>, i: int, j: int, k: int)
    requires ListsFrees(data, frees) && i in frees && j in frees && 0 <= k < |frees|
    ensures 0 <= ListExchanged(frees, i, j)[k] < |data| && data[ListExchanged(frees, i, j)[k]].free >= 0
  {
    var m :| 0 <= m < |frees| && frees[m] == i;
    var n :| 0 <= n < |frees| && frees[n] == j;
  }

  lemma ExchangedFrees(data: seq<MemEvent>, frees: seq<int>, i: int, j: int)
    requires ListsFrees(data, frees) && i in frees && j in frees
    ensures ListsFrees(data, ListExchanged(frees, i, j))
  {
    hide Exchanged, ListExchanged;
    ExchangedOnce(frees, i, j);
    var l := ListExchanged(frees, i, j);
    LengthKept(frees, i, j);
    forall k | 0 <= k < |l|
      ensures 0 <= l[k] < |data| && data[l[k]].free >= 0
    {
      ExchangedRange(data, frees, i, j, k);
    }
    forall x | 0 <= x < |data| && data[x].free >= 0
      ensures x in l
    {
      Same(frees, i, j, x);
      ExchangedIn(frees, i, j, x);
    }
  }

  lemma LengthKept(frees: seq<int>, i: int, j: int)
    ensures |ListExchanged(frees, i, j)| == |frees|
  {
  }

  lemma Same(frees: seq<int>, i: int, j: int, x: int)
    requires x in frees && i in frees && j in frees
    ensures Exchanged(x, i, j) in frees
  {
  }

  lemma ExchangedOrder(data: seq<MemEvent>, t: seq<Step>, i: int, j: int)
    requires FreesFirst(data, t) && TimeFree(data, i) == TimeFree(data, j)
    ensures FreesFirst(data, StepsExchanged(t, i, j))
  {
    var u := StepsExchanged(t, i, j);
    forall k, m | 0 <= k < m < |u|
      ensures Precedes(data, u[k], u[m])
    {
      assert Precedes(data, t[k], t[m]);
    }
  }

  /** The points that follow some steps. */
  function PointsOf(data: seq<MemEvent>, steps: seq<Step>, firstTime: int): (p: seq<Point>)
    ensures |p| == |steps| + 1
  {
    if steps == [] then [Point(firstTime, 0)] else
      var n := |steps| - 1;
      var front := PointsOf(data, steps[..n], firstTime);
      front + [Point(StepTime(data, steps[n]), front[n].val + StepSize(data, steps[n]))]
  }

  lemma {:induction false} PointsFollow(data: seq<MemEvent>, steps: seq<Step>, firstTime: int)
    ensures Follows(data, PointsOf(data, steps, firstTime), steps, firstTime)
    decreases |steps|
  {
    if steps != [] {
      PointsFollow(data, steps[..|steps| - 1], firstTime);
    }
  }

  /** Where frees at one time differ in size, the sort decides: another order of them is as good and gives another plot. */
  lemma TiesDecide(data: seq<MemEvent>, sorted: seq<int>, t: seq<Step>, q: seq<Point>, firstTime: int)
      returns (sorted': seq<int>, t': seq<Step>, q': seq<Point>)
    requires ListsFrees(data, sorted) && FreesInOrder(data, sorted) && AllSteps(data, sorted, t) && FreesFirst(data, t)
    requires Follows(data, q, t, firstTime) && !EqualTies(data)
    ensures ListsFrees(data, sorted') && FreesInOrder(data, sorted') && AllSteps(data, sorted', t') && FreesFirst(data, t')
    ensures Follows(data, q', t', firstTime) && q' != q
  {
    hide *;
    var i, j := UnequalTie(data, sorted);
    sorted', t' := ListExchanged(sorted, i, j), StepsExchanged(t, i, j);
    q' := PointsOf(data, t', firstTime);
    AllStepsAre(data, sorted, t);
    ExchangedLists(t, i, j);
    AllStepsAre(data, sorted', t');
    ExchangedFrees(data, sorted, i, j);
    ExchangedTimes(data, sorted, i, j);
    ExchangedOrder(data, t, i, j);
    PointsFollow(data, t', firstTime);
    Members(t, Free(i));
    var k :| 0 <= k < |t| && t[k] == Free(i);
    SizeAt(data, q, t, firstTime, k);
    ExchangedAt(t, i, j, k);
    SizeAt(data, q', t', firstTime, k);
    FreeStep(data, i);
    FreeStep(data, j);
  }

  lemma UnequalTie(data: seq<MemEvent>, frees: seq<int>) returns (i: int, j: int)
    requires ListsFrees(data, frees) && !EqualTies(data)
    ensures i in frees && j in frees && TimeFree(data, i) == TimeFree(data, j) && SizeOf(data, i) != SizeOf(data, j)
  {
    i, j :| 0 <= i < |data| && 0 <= j < |data| && data[i].free >= 0 && data[i].free == data[j].free && data[i].size != data[j].size;
  }

  lemma AllStepsAre(data: seq<MemEvent>, frees: seq<int>, steps: seq<Step>)
    ensures AllSteps(data, frees, steps) <==> Begun(steps) == UpTo(|data|) && EndedIn(steps) == frees
  {
  }

  lemma ExchangedAt(t: seq<Step>, i: int, j: int, k: int)
    requires 0 <= k < |t| && t[k] == Free(i)
    ensures |StepsExchanged(t, i, j)| == |t| && StepsExchanged(t, i, j)[k] == Free(j)
  {
  }

  ghost predicate MergesTo(data: seq<MemEvent>, sorted: seq<int>, t: seq<Step>, q: seq<Point>, firstTime: int) {
    && ListsFrees(data, sorted) && FreesInOrder(data, sorted) && AllSteps(data, sorted, t) && FreesFirst(data, t)
    && Follows(data, q, t, firstTime)
  }

  /** The merge gives the plot that grew, however the sort leaves equal times, if and only if ties are settled
      and what is freed at one time has one size. */
  lemma AgreesHoweverSorted(data: seq<MemEvent>, frees: seq<int>, s: seq<Step>, p: seq<Point>, sorted: seq<int>, t: seq<Step>, q: seq<Point>,
      firstTime: int)
    requires IsData(data) && ListsFrees(data, frees) && AllSteps(data, frees, s) && InOrder(data, s) && Follows(data, p, s, firstTime)
    requires MergesTo(data, sorted, t, q, firstTime)
    ensures (forall sorted', t', q' :: MergesTo(data, sorted', t', q', firstTime) ==> q' == p) <==> EqualTies(data) && Settled(data, s)
  {
    hide IsData, ListsFrees, AllSteps, InOrder, FreesFirst, FreesInOrder, Follows, EqualTies, Settled;
    if EqualTies(data) && Settled(data, s) {
      forall sorted', t', q' | MergesTo(data, sorted', t', q', firstTime)
        ensures q' == p
      {
        TiesAgree(data, frees, sorted', s, t');
        SettledAgrees(data, frees, sorted', s, t', p, q', firstTime);
      }
    } else if !EqualTies(data) {
      var sorted', t', q' := TiesDecide(data, sorted, t, q, firstTime);
      assert MergesTo(data, sorted', t', q', firstTime) && MergesTo(data, sorted, t, q, firstTime);
      assert q' != p || q != p;
    } else {
      TiesAgree(data, frees, sorted, s, t);
      SameIffSettled(data, frees, sorted, s, t, p, q, firstTime);
      assert MergesTo(data, sorted, t, q, firstTime) && q != p;
    }
  }

  /** Steps at different times can be put in order in one way only. */
  lemma OneOrder(data: seq<MemEvent>, s: seq<Step>, t: seq<Step>)
    requires Strict(data, s) && InOrder(data, t) && |s| == |t| && Once(t) && SameMembers(s, t)
    ensures s == t
  {
    forall k, m | 0 <= k < m < |s|
      ensures s[k] != s[m] && StepTime(data, s[k]) <= StepTime(data, s[m])
    {
      assert StepTime(data, s[k]) < StepTime(data, s[m]);
    }
    KeysAgree(x => StepTime(data, x), s, t);
    forall k | 0 <= k < |s|
      ensures s[k] == t[k]
    {
      assert t[k] in s;
      var m :| 0 <= m < |s| && s[m] == t[k];
      assert StepTime(data, s[m]) == StepTime(data, s[k]);
    }
  }

  /** Every step comes at a later time than the one before. */
  ghost predicate Strict(data: seq<MemEvent>, steps: seq<Step>) {
    forall k, m :: 0 <= k < m < |steps| ==> StepTime(data, steps[k]) < StepTime(data, steps[m])
  }

  /** With all events at different times there are no ties. */
  lemma DistinctTimes(data: seq<MemEvent>, frees: seq<int>, s: seq<Step>)
    requires ListsFrees(data, frees) && AllSteps(data, frees, s)
    requires Strict(data, s)
    ensures EqualTies(data) && Settled(data, s)
  {
    hide AllSteps;
    forall i, j | 0 <= i < |data| && 0 <= j < |data| && data[i].free >= 0 && data[i].free == data[j].free
      ensures i == j
    {
      FreeThere(data, frees, s, i);
      FreeThere(data, frees, s, j);
      var k :| 0 <= k < |s| && s[k] == Free(i);
      var m :| 0 <= m < |s| && s[m] == Free(j);
      FreeStep(data, i);
      FreeStep(data, j);
    }
  }

  lemma FreeThere(data: seq<MemEvent>, frees: seq<int>, s: seq<Step>, i: int)
    requires ListsFrees(data, frees) && AllSteps(data, frees, s) && 0 <= i < |data| && data[i].free >= 0
    ensures Free(i) in s
  {
    Members(s, Free(i));
  }
}
