/** Allocations and frees as steps of a plot: what the value of the plot is after each of them, and what
    the order of steps at one time has to do with it. */
module MemorySteps {

  /** An allocation; free is negative while it lasts. */
  datatype MemEvent = MemEvent(ptr: int, alloc: int, free: int, size: int)

  datatype Point = Point(time: int, val: int)

  /** What makes the plot go up or down: an allocation beginning or ending. */
  datatype Step = Alloc(i: int) | Free(i: int)

  ghost predicate IsData(data: seq<MemEvent>) {
    && (forall i :: 0 <= i < |data| ==> data[i].size >= 0)
    && (forall i, j :: 0 <= i < j < |data| ==> data[i].alloc <= data[j].alloc)
  }

  ghost predicate Once<T>(s: seq<T>) {
    forall k, m :: 0 <= k < m < |s| ==> s[k] != s[m]
  }

  /** frees lists the allocations that have been freed, each once. */
  ghost predicate ListsFrees(data: seq<MemEvent>, frees: seq<int>) {
    && (forall k :: 0 <= k < |frees| ==> 0 <= frees[k] < |data| && data[frees[k]].free >= 0)
    && Once(frees)
    && (forall i :: 0 <= i < |data| && data[i].free >= 0 ==> i in frees)
  }

  ghost predicate FreedLater(data: seq<MemEvent>) {
    forall i :: 0 <= i < |data| && data[i].free >= 0 ==> data[i].alloc < data[i].free
  }

  function TimeFree(data: seq<MemEvent>, i: int): int {
    if 0 <= i < |data| then data[i].free else 0
  }

  function SizeOf(data: seq<MemEvent>, i: int): int {
    if 0 <= i < |data| then data[i].size else 0
  }

  ghost predicate FreesInOrder(data: seq<MemEvent>, frees: seq<int>) {
    forall k, m :: 0 <= k < m < |frees| ==> TimeFree(data, frees[k]) <= TimeFree(data, frees[m])
  }

  function StepTime(data: seq<MemEvent>, s: Step): int {
    match s
    case Alloc(i) => if 0 <= i < |data| then data[i].alloc else 0
    case Free(i) => TimeFree(data, i)
  }

  function StepSize(data: seq<MemEvent>, s: Step): int {
    match s
    case Alloc(i) => SizeOf(data, i)
    case Free(i) => -SizeOf(data, i)
  }

  /** Which allocations begin, in order, and which end. */
  function Begun(steps: seq<Step>): seq<int> {
    if steps == [] then [] else
      Begun(steps[..|steps| - 1]) + if steps[|steps| - 1].Alloc? then [steps[|steps| - 1].i] else []
  }

  function EndedIn(steps: seq<Step>): seq<int> {
    if steps == [] then [] else
      EndedIn(steps[..|steps| - 1]) + if steps[|steps| - 1].Free? then [steps[|steps| - 1].i] else []
  }

  function UpTo(n: int): (s: seq<int>)
    requires n >= 0
  {
    seq(n, i => i)
  }

  /** All allocations begin, in their order, and those listed end, in that order. */
  ghost predicate AllSteps(data: seq<MemEvent>, frees: seq<int>, steps: seq<Step>) {
    Begun(steps) == UpTo(|data|) && EndedIn(steps) == frees
  }

  /** The points follow the steps one by one, each adding what its step adds. */
  ghost predicate Follows(data: seq<MemEvent>, points: seq<Point>, steps: seq<Step>, firstTime: int) {
    && |points| == |steps| + 1 && points[0] == Point(firstTime, 0)
    && forall k :: 0 <= k < |steps| ==>
         points[k + 1] == Point(StepTime(data, steps[k]), points[k].val + StepSize(data, steps[k]))
  }

  ghost predicate InTimeOrder(points: seq<Point>) {
    forall k, m :: 0 <= k < m < |points| ==> points[k].time <= points[m].time
  }

  ghost predicate NonNegative(points: seq<Point>) {
    forall k :: 0 <= k < |points| ==> 0 <= points[k].val
  }

  /** In the order of times. */
  ghost predicate InOrder(data: seq<MemEvent>, steps: seq<Step>) {
    forall k, m :: 0 <= k < m < |steps| ==> StepTime(data, steps[k]) <= StepTime(data, steps[m])
  }

  /** In the order of times and, at one time, frees before allocations. */
  ghost predicate FreesFirst(data: seq<MemEvent>, steps: seq<Step>) {
    forall k, m :: 0 <= k < m < |steps| ==> Precedes(data, steps[k], steps[m])
  }

  ghost predicate Precedes(data: seq<MemEvent>, x: Step, y: Step) {
    StepTime(data, x) < StepTime(data, y) || (StepTime(data, x) == StepTime(data, y) && (x.Free? || y.Alloc?))
  }

  /** An allocation's end comes after its beginning just when it is later. */
  ghost predicate InTurn(data: seq<MemEvent>, steps: seq<Step>) {
    forall p, q :: 0 <= p < |steps| && 0 <= q < |steps| && steps[p].Alloc? && steps[q] == Free(steps[p].i) && 0 <= steps[p].i < |data| ==>
      (p < q <==> data[steps[p].i].alloc < data[steps[p].i].free)
  }

  lemma FreesFirstInTurn(data: seq<MemEvent>, steps: seq<Step>)
    requires FreesFirst(data, steps)
    ensures InTurn(data, steps) && InOrder(data, steps)
  {
    forall k, m | 0 <= k < m < |steps|
      ensures StepTime(data, steps[k]) <= StepTime(data, steps[m])
    {
      assert Precedes(data, steps[k], steps[m]);
    }
    forall p, q | 0 <= p < |steps| && 0 <= q < |steps| && steps[p].Alloc? && steps[q] == Free(steps[p].i) && 0 <= steps[p].i < |data|
      ensures p < q <==> data[steps[p].i].alloc < data[steps[p].i].free
    {
      if p < q {
        assert Precedes(data, steps[p], steps[q]);
      } else {
        assert Precedes(data, steps[q], steps[p]);
      }
    }
  }

  /** Which steps there are. */
  lemma {:induction false} Members(steps: seq<Step>, x: Step)
    ensures x in steps <==> if x.Alloc? then x.i in Begun(steps) else x.i in EndedIn(steps)
  {
    if steps != [] {
      var n := |steps| - 1;
      Members(steps[..n], x);
      assert steps == steps[..n] + [steps[n]];
    }
  }

  /** No step comes twice when no beginning and no end does. */
  lemma {:induction false} StepsOnce(steps: seq<Step>)
    requires Once(Begun(steps)) && Once(EndedIn(steps))
    ensures Once(steps) && |steps| == |Begun(steps)| + |EndedIn(steps)|
  {
    if steps != [] {
      var n := |steps| - 1;
      var front := steps[..n];
      assert forall k :: 0 <= k < |Begun(front)| ==> Begun(front)[k] == Begun(steps)[k];
      assert forall k :: 0 <= k < |EndedIn(front)| ==> EndedIn(front)[k] == EndedIn(steps)[k];
      StepsOnce(front);
      Members(front, steps[n]);
      if steps[n].Alloc? {
        LastIsNew(Begun(front), steps[n].i, Begun(steps));
      } else {
        LastIsNew(EndedIn(front), steps[n].i, EndedIn(steps));
      }
      forall k | 0 <= k < n
        ensures steps[k] != steps[n]
      {
        assert front[k] == steps[k];
        assert front[k] in front;
      }
    }
  }

  lemma LastIsNew(front: seq<int>, x: int, all: seq<int>)
    requires all == front + [x] && Once(all)
    ensures x !in front
  {
    assert all[|front|] == x;
    forall k | 0 <= k < |front|
      ensures front[k] != x
    {
      assert all[k] == front[k];
    }
  }

  /** The steps up to the k-th: a allocations and f frees. */
  ghost predicate Split(data: seq<MemEvent>, frees: seq<int>, steps: seq<Step>, k: int, a: int, f: int) {
    && 0 <= k <= |steps| && 0 <= a <= |data| && 0 <= f <= |frees| && a + f == k
    && Begun(steps[..k]) == UpTo(a) && EndedIn(steps[..k]) == frees[..f]
  }

  lemma SplitBack(data: seq<MemEvent>, frees: seq<int>, steps: seq<Step>, k: int, a: int, f: int)
    requires Split(data, frees, steps, k, a, f) && k > 0
    ensures if steps[k - 1].Alloc? then a > 0 && steps[k - 1] == Alloc(a - 1) && Split(data, frees, steps, k - 1, a - 1, f)
            else f > 0 && steps[k - 1] == Free(frees[f - 1]) && Split(data, frees, steps, k - 1, a, f - 1)
  {
    assert steps[..k][..k - 1] == steps[..k - 1] && steps[..k][k - 1] == steps[k - 1];
    if steps[k - 1].Alloc? {
      assert UpTo(a) == Begun(steps[..k - 1]) + [steps[k - 1].i];
      assert a > 0 && UpTo(a)[a - 1] == a - 1 && UpTo(a)[..a - 1] == UpTo(a - 1);
      assert Begun(steps[..k - 1]) == UpTo(a)[..a - 1];
    } else {
      assert frees[..f] == EndedIn(steps[..k - 1]) + [steps[k - 1].i];
      assert f > 0 && frees[..f][f - 1] == frees[f - 1] && frees[..f][..f - 1] == frees[..f - 1];
      assert EndedIn(steps[..k - 1]) == frees[..f][..f - 1];
    }
  }

  lemma {:induction false} SplitAt(data: seq<MemEvent>, frees: seq<int>, steps: seq<Step>, k: int) returns (a: int, f: int)
    requires AllSteps(data, frees, steps) && Once(frees) && 0 <= k <= |steps|
    ensures Split(data, frees, steps, k, a, f)
    decreases |steps| - k
  {
    if k == |steps| {
      a, f := |data|, |frees|;
      StepsOnce(steps);
      assert steps[..k] == steps && frees[..f] == frees;
    } else {
      a, f := SplitAt(data, frees, steps, k + 1);
      SplitBack(data, frees, steps, k + 1, a, f);
      if steps[k].Alloc? {
        a := a - 1;
      } else {
        f := f - 1;
      }
    }
  }

  lemma AllocIn(data: seq<MemEvent>, frees: seq<int>, steps: seq<Step>, k: int, a: int, f: int, j: int)
    requires Split(data, frees, steps, k, a, f)
    ensures Alloc(j) in steps[..k] <==> 0 <= j < a
  {
    Members(steps[..k], Alloc(j));
    if 0 <= j < a {
      assert UpTo(a)[j] == j;
    }
  }

  lemma FreeIn(data: seq<MemEvent>, frees: seq<int>, steps: seq<Step>, k: int, a: int, f: int, m: int)
    requires Split(data, frees, steps, k, a, f) && Once(frees) && 0 <= m < |frees|
    ensures Free(frees[m]) in steps[..k] <==> m < f
  {
    Members(steps[..k], Free(frees[m]));
    if m < f {
      assert frees[..f][m] == frees[m];
    } else {
      forall n | 0 <= n < f
        ensures frees[..f][n] != frees[m]
      {
        assert frees[n] != frees[m];
      }
    }
  }

  lemma StepIn(data: seq<MemEvent>, frees: seq<int>, steps: seq<Step>, j: int, m: int)
    requires AllSteps(data, frees, steps)
    ensures 0 <= j < |data| ==> Alloc(j) in steps
    ensures 0 <= m < |frees| ==> Free(frees[m]) in steps
  {
    Members(steps, Alloc(j));
    if 0 <= j < |data| {
      assert UpTo(|data|)[j] == j;
    }
    if 0 <= m < |frees| {
      Members(steps, Free(frees[m]));
    }
  }

  /** What is among the first k steps comes before what is not. */
  lemma Ahead(data: seq<MemEvent>, steps: seq<Step>, k: int, x: Step, y: Step)
    requires 0 <= k <= |steps| && x in steps[..k] && y in steps && y !in steps[..k]
    ensures InOrder(data, steps) ==> StepTime(data, x) <= StepTime(data, y)
    ensures FreesFirst(data, steps) ==> Precedes(data, x, y)
  {
    assert steps == steps[..k] + steps[k..];
    var p :| 0 <= p < k && steps[..k][p] == x;
    var q :| 0 <= q < |steps| - k && steps[k..][q] == y;
    assert steps[p] == x && steps[k + q] == y;
  }

  /** The sizes of the first n allocations. */
  function Allocated(data: seq<MemEvent>, n: int): int
    requires n <= |data|
  {
    if n <= 0 then 0 else Allocated(data, n - 1) + data[n - 1].size
  }

  /** The sizes of the listed allocations. */
  function Freed(data: seq<MemEvent>, freed: seq<int>): int {
    if freed == [] then 0 else Freed(data, freed[..|freed| - 1]) + SizeOf(data, freed[|freed| - 1])
  }

  lemma {:induction false} AllocatedMore(data: seq<MemEvent>, a: int, b: int)
    requires IsData(data) && 0 <= a <= b <= |data|
    ensures Allocated(data, a) <= Allocated(data, b)
    ensures forall j :: a <= j < b ==> data[j].size <= Allocated(data, b) - Allocated(data, a)
    ensures (forall j :: a <= j < b ==> data[j].size == 0) ==> Allocated(data, a) == Allocated(data, b)
    decreases b
  {
    if a < b {
      AllocatedMore(data, a, b - 1);
    }
  }

  lemma {:induction false} FreedMore(data: seq<MemEvent>, frees: seq<int>, f: int, g: int)
    requires IsData(data) && 0 <= f <= g <= |frees|
    ensures Freed(data, frees[..f]) <= Freed(data, frees[..g])
    ensures forall m :: f <= m < g ==> SizeOf(data, frees[m]) <= Freed(data, frees[..g]) - Freed(data, frees[..f])
    ensures (forall m :: f <= m < g ==> SizeOf(data, frees[m]) == 0) ==> Freed(data, frees[..f]) == Freed(data, frees[..g])
    decreases g
  {
    if f < g {
      FreedMore(data, frees, f, g - 1);
      assert frees[..g][..g - 1] == frees[..g - 1];
    }
  }

  /** After k steps the plot is at what has been allocated less what has been freed by then. */
  lemma {:induction false} ValueAt(data: seq<MemEvent>, frees: seq<int>, points: seq<Point>, steps: seq<Step>, firstTime: int, k: int, a: int, f: int)
    requires Follows(data, points, steps, firstTime) && Split(data, frees, steps, k, a, f)
    ensures points[k].val == Allocated(data, a) - Freed(data, frees[..f])
    decreases k
  {
    if k > 0 {
      SplitBack(data, frees, steps, k, a, f);
      hide Split, Begun, EndedIn;
      if steps[k - 1].Alloc? {
        ValueAt(data, frees, points, steps, firstTime, k - 1, a - 1, f);
      } else {
        ValueAt(data, frees, points, steps, firstTime, k - 1, a, f - 1);
        assert frees[..f][..f - 1] == frees[..f - 1];
      }
    }
  }

  /** Of the first n allocations, the sizes of those listed; of those begun before a time; of those freed by it. */
  function Listed(data: seq<MemEvent>, n: int, l: seq<int>): int
    requires n <= |data|
  {
    if n <= 0 then 0 else Listed(data, n - 1, l) + if n - 1 in l then data[n - 1].size else 0
  }

  function BegunBefore(data: seq<MemEvent>, n: int, t: int): int
    requires n <= |data|
  {
    if n <= 0 then 0 else BegunBefore(data, n - 1, t) + if data[n - 1].alloc < t then data[n - 1].size else 0
  }

  function FreedBy(data: seq<MemEvent>, n: int, t: int): int
    requires n <= |data|
  {
    if n <= 0 then 0 else FreedBy(data, n - 1, t) + if 0 <= data[n - 1].free <= t then data[n - 1].size else 0
  }

  /** The bytes that are in use before a time and still after it. */
  function StillUsed(data: seq<MemEvent>, n: int, t: int): int
    requires n <= |data|
  {
    if n <= 0 then 0 else
      StillUsed(data, n - 1, t) + if data[n - 1].alloc < t && !(0 <= data[n - 1].free <= t) then data[n - 1].size else 0
  }

  /** The bytes that are freed by a time and have not been allocated before it. */
  function TooEarly(data: seq<MemEvent>, n: int, t: int): int
    requires n <= |data|
  {
    if n <= 0 then 0 else
      TooEarly(data, n - 1, t) + if data[n - 1].alloc >= t && 0 <= data[n - 1].free <= t then data[n - 1].size else 0
  }

  /** At no time is more freed too early than is in use throughout. */
  ghost predicate Covered(data: seq<MemEvent>) {
    forall t :: TooEarly(data, |data|, t) <= StillUsed(data, |data|, t)
  }

  lemma {:induction false} Difference(data: seq<MemEvent>, n: int, t: int)
    requires n <= |data|
    ensures BegunBefore(data, n, t) - FreedBy(data, n, t) == StillUsed(data, n, t) - TooEarly(data, n, t)
    decreases n
  {
    if n > 0 {
      Difference(data, n - 1, t);
    }
  }

  lemma {:induction false} ListedMore(data: seq<MemEvent>, n: int, l: seq<int>, i: int)
    requires n <= |data| && i !in l
    ensures Listed(data, n, l + [i]) == Listed(data, n, l) + if 0 <= i < n then data[i].size else 0
    decreases n
  {
    if n > 0 {
      ListedMore(data, n - 1, l, i);
      assert n - 1 in l + [i] <==> n - 1 in l || n - 1 == i;
    }
  }

  lemma {:induction false} ListedNothing(data: seq<MemEvent>, n: int)
    requires n <= |data|
    ensures Listed(data, n, []) == 0
    decreases n
  {
    if n > 0 {
      ListedNothing(data, n - 1);
    }
  }

  /** Adding up along a list is adding up what is listed. */
  lemma {:induction false} FreedIsListed(data: seq<MemEvent>, l: seq<int>)
    requires Once(l)
    ensures Freed(data, l) == Listed(data, |data|, l)
    decreases |l|
  {
    if l == [] {
      ListedNothing(data, |data|);
    } else {
      var front, x := l[..|l| - 1], l[|l| - 1];
      FreedIsListed(data, front);
      LastIsNew(front, x, l);
      ListedMore(data, |data|, front, x);
      assert l == front + [x];
    }
  }

  lemma {:induction false} ListedIsFreedBy(data: seq<MemEvent>, n: int, l: seq<int>, t: int)
    requires n <= |data| && forall i :: 0 <= i < |data| ==> (i in l <==> 0 <= data[i].free <= t)
    ensures Listed(data, n, l) == FreedBy(data, n, t)
    decreases n
  {
    if n > 0 {
      ListedIsFreedBy(data, n - 1, l, t);
    }
  }

  /** The allocations begun before a time are the first ones. */
  lemma {:induction false} AllocCut(data: seq<MemEvent>, n: int, t: int) returns (a: int)
    requires IsData(data) && 0 <= n <= |data|
    ensures 0 <= a <= n && BegunBefore(data, n, t) == Allocated(data, a)
    ensures forall j :: 0 <= j < n ==> (j < a <==> data[j].alloc < t)
    decreases n
  {
    if n == 0 {
      a := 0;
    } else {
      a := AllocCut(data, n - 1, t);
      if data[n - 1].alloc < t {
        assert a == n - 1;
        a := n;
      }
    }
  }

  /** The allocations freed by a time are the first ones in the order of frees. */
  lemma FreeCut(data: seq<MemEvent>, frees: seq<int>, t: int) returns (f: int)
    requires ListsFrees(data, frees) && FreesInOrder(data, frees)
    ensures 0 <= f <= |frees| && FreedBy(data, |data|, t) == Freed(data, frees[..f])
    ensures forall m :: 0 <= m < |frees| ==> (m < f <==> TimeFree(data, frees[m]) <= t)
  {
    f := FirstAfter(data, frees, |frees|, t);
    forall i | 0 <= i < |data|
      ensures i in frees[..f] <==> 0 <= data[i].free <= t
    {
      if 0 <= data[i].free <= t {
        assert i in frees;
        var m :| 0 <= m < |frees| && frees[m] == i;
        assert m < f && frees[..f][m] == i;
      }
    }
    FreedIsListed(data, frees[..f]);
    ListedIsFreedBy(data, |data|, frees[..f], t);
  }

  lemma {:induction false} FirstAfter(data: seq<MemEvent>, frees: seq<int>, n: int, t: int) returns (f: int)
    requires FreesInOrder(data, frees) && 0 <= n <= |frees|
    ensures 0 <= f <= n && forall m :: 0 <= m < n ==> (m < f <==> TimeFree(data, frees[m]) <= t)
    decreases n
  {
    if n == 0 {
      f := 0;
    } else {
      f := FirstAfter(data, frees, n - 1, t);
      if TimeFree(data, frees[n - 1]) <= t {
        forall m | 0 <= m < n - 1
          ensures TimeFree(data, frees[m]) <= t
        {
          assert TimeFree(data, frees[m]) <= TimeFree(data, frees[n - 1]);
        }
        f := n;
      }
    }
  }

  /** What was allocated and never freed is what the plot ends with. */
  function Unfreed(data: seq<MemEvent>): int {
    if data == [] then 0 else Unfreed(data[..|data| - 1]) + if data[|data| - 1].free >= 0 then 0 else data[|data| - 1].size
  }

  lemma {:induction false} UnfreedListed(data: seq<MemEvent>, n: int, frees: seq<int>)
    requires ListsFrees(data, frees) && 0 <= n <= |data|
    ensures Allocated(data, n) - Listed(data, n, frees) == Unfreed(data[..n])
    decreases n
  {
    if n > 0 {
      UnfreedListed(data, n - 1, frees);
      assert data[..n][..n - 1] == data[..n - 1];
      assert n - 1 in frees <==> data[n - 1].free >= 0;
    }
  }

  lemma UnfreedAtEnd(data: seq<MemEvent>, frees: seq<int>)
    requires ListsFrees(data, frees)
    ensures Allocated(data, |data|) - Freed(data, frees) == Unfreed(data)
  {
    UnfreedListed(data, |data|, frees);
    FreedIsListed(data, frees);
    assert data[..|data|] == data;
  }

  /** Right before the allocations of a time, after its frees, the plot is at the difference of the two. */
  lemma LowPoint(data: seq<MemEvent>, frees: seq<int>, points: seq<Point>, steps: seq<Step>, firstTime: int, t: int) returns (k: int)
    requires IsData(data) && ListsFrees(data, frees) && FreesInOrder(data, frees) && AllSteps(data, frees, steps)
    requires Follows(data, points, steps, firstTime) && FreesFirst(data, steps)
    ensures 0 <= k < |points| && points[k].val == StillUsed(data, |data|, t) - TooEarly(data, |data|, t)
  {
    hide Follows, FreesFirst, AllSteps, BegunBefore, FreedBy, StillUsed, TooEarly, Begun, EndedIn, Split;
    var a := AllocCut(data, |data|, t);
    var f := FreeCut(data, frees, t);
    k := a + f;
    AllLengths(data, frees, points, steps, firstTime);
    var b, g := SplitAt(data, frees, steps, k);
    SplitBounds(data, frees, steps, k, b, g);
    if b > a {
      AllocIn(data, frees, steps, k, b, g, a);
      FreeIn(data, frees, steps, k, b, g, g);
      StepIn(data, frees, steps, a, g);
      Ahead(data, steps, k, Alloc(a), Free(frees[g]));
    } else if b < a {
      AllocIn(data, frees, steps, k, b, g, b);
      FreeIn(data, frees, steps, k, b, g, f);
      StepIn(data, frees, steps, b, f);
      Ahead(data, steps, k, Free(frees[f]), Alloc(b));
    }
    ValueAt(data, frees, points, steps, firstTime, k, b, g);
    Difference(data, |data|, t);
  }

  lemma SplitBounds(data: seq<MemEvent>, frees: seq<int>, steps: seq<Step>, k: int, a: int, f: int)
    requires Split(data, frees, steps, k, a, f)
    ensures 0 <= a <= |data| && 0 <= f <= |frees| && a + f == k <= |steps|
  {
  }

  lemma AllLengths(data: seq<MemEvent>, frees: seq<int>, points: seq<Point>, steps: seq<Step>, firstTime: int)
    requires AllSteps(data, frees, steps) && Once(frees) && Follows(data, points, steps, firstTime)
    ensures |steps| == |data| + |frees| && |points| == |steps| + 1
  {
    StepsOnce(steps);
  }

  /** No point is below the one after the frees of some time. */
  lemma NotBelow(data: seq<MemEvent>, frees: seq<int>, points: seq<Point>, steps: seq<Step>, firstTime: int, k: int)
    requires IsData(data) && ListsFrees(data, frees) && FreesInOrder(data, frees) && AllSteps(data, frees, steps)
    requires Follows(data, points, steps, firstTime) && FreesFirst(data, steps) && Covered(data) && 0 <= k < |points|
    ensures points[k].val >= 0
  {
    hide Follows, FreesFirst, AllSteps, BegunBefore, FreedBy, StillUsed, TooEarly, Begun, EndedIn, Split;
    AllLengths(data, frees, points, steps, firstTime);
    var a, f := SplitAt(data, frees, steps, k);
    SplitBounds(data, frees, steps, k, a, f);
    ValueAt(data, frees, points, steps, firstTime, k, a, f);
    if f == 0 {
      AllocatedMore(data, 0, a);
      assert frees[..0] == [];
    } else {
      var t := TimeFree(data, frees[f - 1]);
      var b := AllocCut(data, |data|, t);
    var g := FreeCut(data, frees, t);
      if a < b {
        AllocIn(data, frees, steps, k, a, f, a);
        FreeIn(data, frees, steps, k, a, f, f - 1);
        StepIn(data, frees, steps, a, f - 1);
        Ahead(data, steps, k, Free(frees[f - 1]), Alloc(a));
      }
      AllocatedMore(data, b, a);
      FreedMore(data, frees, f, g);
      Difference(data, |data|, t);
    }
  }

  /** The plot stays at zero or above if and only if at no time more is freed too early than is in use throughout. */
  lemma SignOfPlot(data: seq<MemEvent>, frees: seq<int>, points: seq<Point>, steps: seq<Step>, firstTime: int)
    requires IsData(data) && ListsFrees(data, frees) && FreesInOrder(data, frees) && AllSteps(data, frees, steps)
    requires Follows(data, points, steps, firstTime) && FreesFirst(data, steps)
    ensures NonNegative(points) <==> Covered(data)
  {
    hide IsData, ListsFrees, FreesInOrder, AllSteps, Follows, FreesFirst, StillUsed, TooEarly;
    if NonNegative(points) {
      forall t
        ensures TooEarly(data, |data|, t) <= StillUsed(data, |data|, t)
      {
        var k := LowPoint(data, frees, points, steps, firstTime, t);
      }
    } else {
      var k :| 0 <= k < |points| && points[k].val < 0;
      if Covered(data) {
        NotBelow(data, frees, points, steps, firstTime, k);
      }
    }
  }

  lemma {:induction false} NothingTooEarly(data: seq<MemEvent>, n: int, t: int)
    requires IsData(data) && n <= |data|
    ensures StillUsed(data, n, t) >= 0 && (FreedLater(data) ==> TooEarly(data, n, t) == 0)
    decreases n
  {
    if n > 0 {
      NothingTooEarly(data, n - 1, t);
    }
  }

  /** With every free later than its allocation nothing is freed too early. */
  lemma LaterIsCovered(data: seq<MemEvent>)
    requires IsData(data) && FreedLater(data)
    ensures Covered(data)
  {
    forall t
      ensures TooEarly(data, |data|, t) <= StillUsed(data, |data|, t)
    {
      NothingTooEarly(data, |data|, t);
    }
  }

  lemma NeverNegative(data: seq<MemEvent>, frees: seq<int>, points: seq<Point>, steps: seq<Step>, firstTime: int)
    requires IsData(data) && ListsFrees(data, frees) && FreesInOrder(data, frees) && AllSteps(data, frees, steps)
    requires Follows(data, points, steps, firstTime) && FreesFirst(data, steps) && FreedLater(data)
    ensures NonNegative(points)
  {
    LaterIsCovered(data);
    SignOfPlot(data, frees, points, steps, firstTime);
  }

  /** A block freed at the very time of its allocation is taken off first. By itself it is not covered; with
      as much in use throughout it is, though its free is no later than its allocation. */
  lemma FreedAtOnce(alone: seq<MemEvent>, beside: seq<MemEvent>)
    requires alone == [MemEvent(64, 5, 5, 8)] && beside == [MemEvent(32, 3, -1, 8), MemEvent(64, 5, 5, 8)]
    ensures IsData(alone) && !FreedLater(alone) && !Covered(alone)
    ensures IsData(beside) && !FreedLater(beside) && Covered(beside)
  {
    assert alone[0].free == 5 && beside[1].free == 5;
    assert TooEarly(alone, 0, 5) == 0 == StillUsed(alone, 0, 5);
    assert TooEarly(alone, 1, 5) == 8 && StillUsed(alone, 1, 5) == 0;
    forall t
      ensures TooEarly(beside, 2, t) <= StillUsed(beside, 2, t)
    {
      assert TooEarly(beside, 0, t) == 0 == StillUsed(beside, 0, t);
      assert TooEarly(beside, 1, t) == 0 && StillUsed(beside, 1, t) == if 3 < t then 8 else 0;
    }
  }
}
