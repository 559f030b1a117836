/** The memory usage plot, made again by merging the allocations of a trace with its frees. */
module MemoryPlot {
  import opened MemorySteps
  import opened SortOrder
  import PdqSort

  ghost predicate IsMax(points: seq<Point>, max: int) {
    && (forall k :: 0 <= k < |points| ==> points[k].val <= max)
    && exists k :: 0 <= k < |points| && points[k].val == max
  }

  ghost predicate Bounded(points: seq<Point>, max: int) {
    NonNegative(points) && IsMax(points, max)
  }

  function SumOf(points: seq<Point>): int {
    if points == [] then 0 else SumOf(points[..|points| - 1]) + points[|points| - 1].val
  }

  /** How far the merge has come: a allocations and f frees have been put in the plot. */
  ghost predicate Merged(data: seq<MemEvent>, frees: seq<int>, points: seq<Point>, steps: seq<Step>, firstTime: int, a: int, f: int) {
    && 0 <= a <= |data| && 0 <= f <= |frees| && |steps| == a + f
    && Follows(data, points, steps, firstTime) && InTimeOrder(points)
    && Begun(steps) == UpTo(a) && EndedIn(steps) == frees[..f] && FreesFirst(data, steps)
    && points[|points| - 1].val == Allocated(data, a) - Freed(data, frees[..f])
    && (0 < a && f < |frees| ==> data[a - 1].alloc < TimeFree(data, frees[f]))
    && (a < |data| ==> points[|points| - 1].time <= data[a].alloc)
    && (f < |frees| ==> points[|points| - 1].time <= TimeFree(data, frees[f]))
  }

  lemma Push(points: seq<Point>, steps: seq<Step>, data: seq<MemEvent>, firstTime: int, s: Step)
    requires Follows(data, points, steps, firstTime) && InTimeOrder(points) && points[|points| - 1].time <= StepTime(data, s)
    ensures var p := points + [Point(StepTime(data, s), points[|points| - 1].val + StepSize(data, s))];
            Follows(data, p, steps + [s], firstTime) && InTimeOrder(p)
    ensures Begun(steps + [s]) == Begun(steps) + if s.Alloc? then [s.i] else []
    ensures EndedIn(steps + [s]) == EndedIn(steps) + if s.Free? then [s.i] else []
  {
    assert (steps + [s])[..|steps|] == steps;
  }

  /** A step no earlier than the others comes last; a free, if all allocations so far are earlier. */
  lemma PushOrder(data: seq<MemEvent>, points: seq<Point>, steps: seq<Step>, firstTime: int, s: Step)
    requires Follows(data, points, steps, firstTime) && InTimeOrder(points) && FreesFirst(data, steps)
    requires points[|points| - 1].time <= StepTime(data, s)
    requires s.Free? ==> forall x :: x in steps && x.Alloc? ==> StepTime(data, x) < StepTime(data, s)
    ensures FreesFirst(data, steps + [s])
  {
    hide Precedes, FreesFirst;
    var more := steps + [s];
    forall k, m | 0 <= k < m < |more|
      ensures Precedes(data, more[k], more[m])
    {
      if m < |steps| {
        InFront(data, steps, k, m);
      } else {
        assert points[k + 1].time <= points[|points| - 1].time && steps[k] in steps;
        IsBefore(data, steps[k], s);
      }
    }
    OrderIs(data, more);
  }

  lemma InFront(data: seq<MemEvent>, steps: seq<Step>, k: int, m: int)
    requires FreesFirst(data, steps) && 0 <= k < m < |steps|
    ensures Precedes(data, steps[k], steps[m])
  {
  }

  lemma IsBefore(data: seq<MemEvent>, x: Step, y: Step)
    requires StepTime(data, x) <= StepTime(data, y) && (x.Alloc? && y.Free? ==> StepTime(data, x) < StepTime(data, y))
    ensures Precedes(data, x, y)
  {
  }

  lemma OrderIs(data: seq<MemEvent>, steps: seq<Step>)
    requires forall k, m :: 0 <= k < m < |steps| ==> Precedes(data, steps[k], steps[m])
    ensures FreesFirst(data, steps)
  {
  }

  /** The next allocation comes before the next free, or there are no more frees. */
  lemma AllocNext(data: seq<MemEvent>, frees: seq<int>, points: seq<Point>, steps: seq<Step>, firstTime: int, a: int, f: int)
    requires IsData(data) && Merged(data, frees, points, steps, firstTime, a, f) && a < |data|
    requires f < |frees| ==> data[a].alloc < TimeFree(data, frees[f])
    ensures Merged(data, frees, points + [Point(data[a].alloc, points[|points| - 1].val + data[a].size)], steps + [Alloc(a)], firstTime, a + 1, f)
  {
    hide Follows, InTimeOrder, Begun, EndedIn, FreesFirst, Freed;
    Push(points, steps, data, firstTime, Alloc(a));
    PushOrder(data, points, steps, firstTime, Alloc(a));
    assert UpTo(a) + [a] == UpTo(a + 1);
  }

  /** The next free comes no later than the next allocation, or there are no more of those. All allocations
      so far were earlier. */
  lemma FreeNext(data: seq<MemEvent>, frees: seq<int>, points: seq<Point>, steps: seq<Step>, firstTime: int, a: int, f: int)
    requires IsData(data) && ListsFrees(data, frees) && FreesInOrder(data, frees)
    requires Merged(data, frees, points, steps, firstTime, a, f) && f < |frees|
    requires a < |data| ==> TimeFree(data, frees[f]) <= data[a].alloc
    ensures 0 <= frees[f] < |data| && forall j :: 0 <= j < a ==> data[j].alloc < data[frees[f]].free
    ensures Merged(data, frees, points + [Point(TimeFree(data, frees[f]), points[|points| - 1].val - data[frees[f]].size)],
                   steps + [Free(frees[f])], firstTime, a, f + 1)
  {
    hide Follows, InTimeOrder, Begun, EndedIn, FreesFirst, Allocated;
    var i := frees[f];
    assert frees[..f + 1] == frees[..f] + [i] && frees[..f + 1][..f] == frees[..f];
    forall x | x in steps && x.Alloc?
      ensures StepTime(data, x) < StepTime(data, Free(i))
    {
      Members(steps, x);
    }
    Push(points, steps, data, firstTime, Free(i));
    PushOrder(data, points, steps, firstTime, Free(i));
  }

  /** All frees come after their allocations if and only if all are later. */
  lemma AllInTurn(data: seq<MemEvent>, frees: seq<int>, steps: seq<Step>)
    requires ListsFrees(data, frees) && InTurn(data, steps) && AllSteps(data, frees, steps)
    ensures FreedLater(data) <==>
              forall p, q :: 0 <= p < |steps| && 0 <= q < |steps| && steps[p].Alloc? && steps[q] == Free(steps[p].i) ==> p < q
  {
    hide Begun, EndedIn;
    if FreedLater(data) {
      forall p, q | 0 <= p < |steps| && 0 <= q < |steps| && steps[p].Alloc? && steps[q] == Free(steps[p].i)
        ensures p < q
      {
        Members(steps, steps[p]);
        Members(steps, steps[q]);
      }
    } else {
      var i :| 0 <= i < |data| && data[i].free >= 0 && data[i].alloc >= data[i].free;
      Members(steps, Alloc(i));
      Members(steps, Free(i));
      assert UpTo(|data|)[i] == i;
      var p :| 0 <= p < |steps| && steps[p] == Alloc(i);
      var q :| 0 <= q < |steps| && steps[q] == Free(i);
      assert !(p < q);
    }
  }

  /** The comparison by which frees are sorted. */
  function FreedBefore(data: seq<MemEvent>): (int, int) -> bool {
    (l: int, r: int) => TimeFree(data, l) < TimeFree(data, r)
  }

  lemma FreedBeforeIsOrder(data: seq<MemEvent>)
    ensures StrictWeakOrder(FreedBefore(data))
  {
  }

  /** Sorting leaves the same frees, now in the order of their times. */
  lemma SortedFrees(data: seq<MemEvent>, before: seq<int>, after: seq<int>)
    requires ListsFrees(data, before) && Rearranged(before, after, 0, |before|) && Sorted(FreedBefore(data), after[0..|after|])
    ensures ListsFrees(data, after) && FreesInOrder(data, after)
  {
    assert before[0..|before|] == before && after[0..|after|] == after;
    assert multiset(before) == multiset(after);
    forall k | 0 <= k < |after|
      ensures 0 <= after[k] < |data| && data[after[k]].free >= 0
    {
      assert after[k] in multiset(after);
      assert after[k] in before;
    }
    forall i | 0 <= i < |data| && data[i].free >= 0
      ensures i in after
    {
      assert i in before;
      assert i in multiset(before);
    }
    forall k, m | 0 <= k < m < |after|
      ensures after[k] != after[m]
    {
      OnceEach(before, after[k]);
      TwiceThere(after, k, m);
    }
    forall k, m | 0 <= k < m < |after|
      ensures TimeFree(data, after[k]) <= TimeFree(data, after[m])
    {
      assert !FreedBefore(data)(after[m], after[k]);
    }
  }

  lemma {:induction false} OnceEach(s: seq<int>, x: int)
    requires forall k, m :: 0 <= k < m < |s| ==> s[k] != s[m]
    ensures multiset(s)[x] <= 1
    decreases |s|
  {
    if s != [] {
      OnceEach(s[..|s| - 1], x);
      assert s == s[..|s| - 1] + [s[|s| - 1]];
      if s[|s| - 1] == x {
        assert x !in s[..|s| - 1];
        assert x !in multiset(s[..|s| - 1]);
      }
    }
  }

  lemma TwiceThere(s: seq<int>, k: int, m: int)
    requires 0 <= k < m < |s|
    ensures s[k] == s[m] ==> multiset(s)[s[k]] >= 2
  {
    assert s == s[..k] + [s[k]] + s[k + 1..m] + [s[m]] + s[m + 1..];
  }

  lemma MergedStart(data: seq<MemEvent>, frees: seq<int>, firstTime: int)
    requires IsData(data) && ListsFrees(data, frees) && FromFirst(data, firstTime)
    ensures Going(data, frees, [Point(firstTime, 0)], [], firstTime, 0, 0, 0, 0, 0)
  {
    hide *;
    NothingMerged(data, frees, firstTime);
    OnePoint(firstTime);
    GoingIs(data, frees, [Point(firstTime, 0)], [], firstTime, 0, 0, 0, 0, 0);
  }

  lemma NothingMerged(data: seq<MemEvent>, frees: seq<int>, firstTime: int)
    requires ListsFrees(data, frees) && FromFirst(data, firstTime)
    ensures Merged(data, frees, [Point(firstTime, 0)], [], firstTime, 0, 0)
  {
    assert frees[..0] == [];
    if |frees| > 0 {
      assert data[frees[0]].free >= 0;
    }
  }

  lemma OnePoint(firstTime: int)
    ensures IsMax([Point(firstTime, 0)], 0) && SumOf([Point(firstTime, 0)]) == 0
  {
    assert [Point(firstTime, 0)][0].val == 0;
  }

  lemma GoingIs(data: seq<MemEvent>, frees: seq<int>, points: seq<Point>, steps: seq<Step>, firstTime: int, a: int, f: int,
      usage: int, max: int, sum: int)
    requires Merged(data, frees, points, steps, firstTime, a, f) && points != [] && usage == points[|points| - 1].val
    requires IsMax(points, max) && sum == SumOf(points)
    ensures Going(data, frees, points, steps, firstTime, a, f, usage, max, sum)
  {
    hide Merged, IsMax, SumOf;
  }

  /** With no frees left, what remains to be allocated was never freed, if all was freed later. */
  lemma RestUnfreed(data: seq<MemEvent>, frees: seq<int>, points: seq<Point>, steps: seq<Step>, firstTime: int, a: int,
      usage: int, max: int, sum: int)
    requires ListsFrees(data, frees) && Going(data, frees, points, steps, firstTime, a, |frees|, usage, max, sum) && a < |data|
    ensures 0 <= a && (FreedLater(data) ==> data[a].free < 0)
  {
    hide Begun, EndedIn, FreesFirst, Allocated, Freed, IsMax, SumOf;
    if data[a].free >= 0 {
      assert frees[..|frees|] == frees && a in frees;
      Members(steps, Free(a));
      var k :| 0 <= k < |steps| && steps[k] == Free(a);
      assert points[k + 1].time <= points[|points| - 1].time;
    }
  }

  /** Nothing happens before the first time of the trace. */
  ghost predicate FromFirst(data: seq<MemEvent>, firstTime: int) {
    forall i :: 0 <= i < |data| ==> firstTime <= data[i].alloc && (data[i].free >= 0 ==> firstTime <= data[i].free)
  }

  lemma MaxMore(points: seq<Point>, max: int, p: Point)
    requires IsMax(points, max)
    ensures IsMax(points + [p], if max < p.val then p.val else max)
    ensures SumOf(points + [p]) == SumOf(points) + p.val
  {
    var more := points + [p];
    var k :| 0 <= k < |points| && points[k].val == max;
    assert more[k].val == max && more[|points|].val == p.val;
    assert more[..|points|] == points;
  }

  class Plot {
    var data: array<Point>
    var min: int
    var max: int
    var sum: int

    constructor (data: array<Point>, min: int, max: int, sum: int)
      ensures this.data == data && this.min == min && this.max == max && this.sum == sum
    {
      this.data, this.min, this.max, this.sum := data, min, max, sum;
    }
  }

  /** Sorts the frees and merges them with the allocations, which are in order already, into a plot that
      starts with nothing in use at the first time of the trace. At one time frees come before allocations, so a
      block is taken off after it has been put on just when it was freed later; and the plot is never below
      zero just when at no time more is freed too early than is in use throughout. */
  method ReconstructMemAllocPlot(data: seq<MemEvent>, frees: array<int>, firstTime: int) returns (plot: Plot, ghost steps: seq<Step>)
    requires IsData(data) && ListsFrees(data, frees[..]) && FromFirst(data, firstTime)
    modifies frees
    ensures ListsFrees(data, frees[..]) && FreesInOrder(data, frees[..])
    ensures fresh(plot) && fresh(plot.data) && plot.data.Length == |data| + frees.Length + 1
    ensures Follows(data, plot.data[..], steps, firstTime) && InTimeOrder(plot.data[..])
    ensures AllSteps(data, frees[..], steps) && FreesFirst(data, steps) && InTurn(data, steps)
    ensures plot.data[plot.data.Length - 1].val == Unfreed(data)
    ensures NonNegative(plot.data[..]) <==> Covered(data)
    ensures plot.min == 0 && IsMax(plot.data[..], plot.max) && plot.sum == SumOf(plot.data[..])
  {
    hide *;
    SortFrees(data, frees);
    var ptr, max, sum;
    ptr, max, sum, steps := Merge(data, frees, firstTime);
    SignOfPlot(data, frees[..], ptr[..], steps, firstTime);
    FreesFirstInTurn(data, steps);
    plot := new Plot(ptr, 0, max, sum);
  }

  method Merge(data: seq<MemEvent>, frees: array<int>, firstTime: int)
    returns (ptr: array<Point>, max: int, sum: int, ghost steps: seq<Step>)
    requires IsData(data) && ListsFrees(data, frees[..]) && FreesInOrder(data, frees[..]) && FromFirst(data, firstTime)
    ensures fresh(ptr) && ptr.Length == |data| + frees.Length + 1
    ensures Follows(data, ptr[..], steps, firstTime) && InTimeOrder(ptr[..])
    ensures AllSteps(data, frees[..], steps) && FreesFirst(data, steps)
    ensures ptr[ptr.Length - 1].val == Unfreed(data)
    ensures IsMax(ptr[..], max) && sum == SumOf(ptr[..])
  {
    hide *;
    ghost var sorted := frees[..];
    ptr := new Point[|data| + frees.Length + 1];
    steps := [];
    var a, f, usage := 0, 0, 0;
    max, sum := 0, 0;
    ptr[0] := Point(firstTime, 0);
    assert ptr[..1] == [Point(firstTime, 0)];
    MergedStart(data, sorted, firstTime);
    while a < |data| && f < frees.Length
      invariant frees[..] == sorted && fresh(ptr) && 0 <= a <= |data| && 0 <= f <= frees.Length
      invariant Going(data, sorted, ptr[..1 + a + f], steps, firstTime, a, f, usage, max, sum)
      decreases |data| - a + frees.Length - f
    {
      Parts(data, sorted, f);
      if data[a].alloc < data[frees[f]].free {
        usage, max, sum := PutAlloc(data, sorted, ptr, steps, firstTime, a, f, usage, max, sum);
        steps := steps + [Alloc(a)];
        a := a + 1;
      } else {
        usage, max, sum := PutFree(data, sorted, frees[f], ptr, steps, firstTime, a, f, usage, max, sum);
        steps := steps + [Free(frees[f])];
        f := f + 1;
      }
    }
    while a < |data|
      invariant frees[..] == sorted && fresh(ptr) && 0 <= a <= |data| && 0 <= f <= frees.Length && (a < |data| ==> f == frees.Length)
      invariant Going(data, sorted, ptr[..1 + a + f], steps, firstTime, a, f, usage, max, sum)
    {
      RestUnfreed(data, sorted, ptr[..1 + a + f], steps, firstTime, a, usage, max, sum);
      assert FreedLater(data) ==> data[a].free < 0;
      usage, max, sum := PutAlloc(data, sorted, ptr, steps, firstTime, a, f, usage, max, sum);
      steps := steps + [Alloc(a)];
      a := a + 1;
    }
    while f < frees.Length
      invariant frees[..] == sorted && fresh(ptr) && a == |data| && 0 <= f <= frees.Length
      invariant Going(data, sorted, ptr[..1 + a + f], steps, firstTime, a, f, usage, max, sum)
    {
      Parts(data, sorted, f);
      usage, max, sum := PutFree(data, sorted, frees[f], ptr, steps, firstTime, a, f, usage, max, sum);
      steps := steps + [Free(frees[f])];
      f := f + 1;
    }
    assert ptr[..1 + a + f] == ptr[..];
    MergedEnd(data, sorted, ptr[..], steps, firstTime, usage, max, sum);
  }

  /** The merge, with the running usage, maximum and sum being those of the points so far. */
  ghost predicate Going(data: seq<MemEvent>, frees: seq<int>, points: seq<Point>, steps: seq<Step>, firstTime: int, a: int, f: int,
      usage: int, max: int, sum: int) {
    && Merged(data, frees, points, steps, firstTime, a, f) && usage == points[|points| - 1].val
    && IsMax(points, max) && sum == SumOf(points)
  }

  method SortFrees(data: seq<MemEvent>, frees: array<int>)
    requires ListsFrees(data, frees[..])
    modifies frees
    ensures ListsFrees(data, frees[..]) && FreesInOrder(data, frees[..])
  {
    hide *;
    ghost var before := frees[..];
    FreedBeforeIsOrder(data);
    PdqSort.PdqSort(frees, 0, frees.Length, FreedBefore(data), true);
    assert frees[0..frees.Length] == frees[..][0..|frees[..]|];
    SortedFrees(data, before, frees[..]);
  }

  lemma Parts(data: seq<MemEvent>, frees: seq<int>, f: int)
    requires ListsFrees(data, frees) && 0 <= f < |frees|
    ensures 0 <= frees[f] < |data| && TimeFree(data, frees[f]) == data[frees[f]].free
  {
  }

  /** One more point, for an allocation. */
  method PutAlloc(data: seq<MemEvent>, ghost frees: seq<int>, ptr: array<Point>, ghost steps: seq<Step>, ghost firstTime: int,
      a: int, f: int, usage: int, max: int, sum: int) returns (newUsage: int, newMax: int, newSum: int)
    requires IsData(data) && ListsFrees(data, frees) && FreesInOrder(data, frees) && 0 <= a < |data| && 0 <= f && 1 + a + f < ptr.Length
    requires Going(data, frees, ptr[..1 + a + f], steps, firstTime, a, f, usage, max, sum)
    requires f < |frees| ==> data[a].alloc < TimeFree(data, frees[f])
    modifies ptr
    ensures Going(data, frees, ptr[..1 + (a + 1) + f], steps + [Alloc(a)], firstTime, a + 1, f, newUsage, newMax, newSum)
  {
    hide *;
    newUsage := usage + data[a].size;
    newMax := if max < newUsage then newUsage else max;
    newSum := sum + newUsage;
    AllocGoes(data, frees, ptr[..1 + a + f], steps, firstTime, a, f, usage, max, sum);
    ghost var more := ptr[..1 + a + f] + [Point(data[a].alloc, newUsage)];
    ptr[1 + a + f] := Point(data[a].alloc, newUsage);
    assert ptr[..1 + (a + 1) + f] == more;
  }

  lemma AllocGoes(data: seq<MemEvent>, frees: seq<int>, points: seq<Point>, steps: seq<Step>, firstTime: int, a: int, f: int,
      usage: int, max: int, sum: int)
    requires IsData(data) && ListsFrees(data, frees) && FreesInOrder(data, frees) && 0 <= a < |data|
    requires Going(data, frees, points, steps, firstTime, a, f, usage, max, sum)
    requires f < |frees| ==> data[a].alloc < TimeFree(data, frees[f])
    ensures var u := usage + data[a].size;
            Going(data, frees, points + [Point(data[a].alloc, u)], steps + [Alloc(a)], firstTime, a + 1, f,
                  u, if max < u then u else max, sum + u)
  {
    hide Merged, IsMax, SumOf, IsData, ListsFrees, FreesInOrder;
    var u := usage + data[a].size;
    AllocNext(data, frees, points, steps, firstTime, a, f);
    MaxMore(points, max, Point(data[a].alloc, u));
  }

  /** One more point, for a free; the highest point stays the highest. */
  method PutFree(data: seq<MemEvent>, ghost frees: seq<int>, i: int, ptr: array<Point>, ghost steps: seq<Step>, ghost firstTime: int,
      a: int, f: int, usage: int, max: int, sum: int) returns (newUsage: int, newMax: int, newSum: int)
    requires IsData(data) && ListsFrees(data, frees) && FreesInOrder(data, frees)
    requires 0 <= a && 0 <= f < |frees| && frees[f] == i && 0 <= i < |data| && 1 + a + f < ptr.Length
    requires Going(data, frees, ptr[..1 + a + f], steps, firstTime, a, f, usage, max, sum)
    requires a < |data| ==> TimeFree(data, frees[f]) <= data[a].alloc
    modifies ptr
    ensures Going(data, frees, ptr[..1 + a + (f + 1)], steps + [Free(i)], firstTime, a, f + 1, newUsage, newMax, newSum) && newMax == max
  {
    hide *;
    newUsage := usage - data[i].size;
    newMax := if max < newUsage then newUsage else max;
    newSum := sum + newUsage;
    FreeGoes(data, frees, ptr[..1 + a + f], steps, firstTime, a, f, usage, max, sum);
    ghost var more := ptr[..1 + a + f] + [Point(data[i].free, newUsage)];
    ptr[1 + a + f] := Point(data[i].free, newUsage);
    assert ptr[..1 + a + (f + 1)] == more;
  }

  lemma FreeGoes(data: seq<MemEvent>, frees: seq<int>, points: seq<Point>, steps: seq<Step>, firstTime: int, a: int, f: int,
      usage: int, max: int, sum: int)
    requires IsData(data) && ListsFrees(data, frees) && FreesInOrder(data, frees)
    requires 0 <= f < |frees| && 0 <= frees[f] < |data| && (a < |data| ==> 0 <= a && TimeFree(data, frees[f]) <= data[a].alloc)
    requires Going(data, frees, points, steps, firstTime, a, f, usage, max, sum)
    ensures var u := usage - data[frees[f]].size;
            && u <= max
            && Going(data, frees, points + [Point(data[frees[f]].free, u)], steps + [Free(frees[f])], firstTime, a, f + 1, u, max, sum + u)
  {
    hide Merged, IsMax, SumOf, IsData, ListsFrees, FreesInOrder;
    var u := usage - data[frees[f]].size;
    FreeNext(data, frees, points, steps, firstTime, a, f);
    NotEmpty(data, frees, points, steps, firstTime, a, f);
    Below(points, max);
    NoNegativeSize(data, frees[f]);
    MaxMore(points, max, Point(data[frees[f]].free, u));
  }

  lemma NotEmpty(data: seq<MemEvent>, frees: seq<int>, points: seq<Point>, steps: seq<Step>, firstTime: int, a: int, f: int)
    requires Merged(data, frees, points, steps, firstTime, a, f)
    ensures |points| == 1 + a + f
  {
  }

  lemma NoNegativeSize(data: seq<MemEvent>, i: int)
    requires IsData(data) && 0 <= i < |data|
    ensures data[i].size >= 0
  {
  }

  lemma Below(points: seq<Point>, max: int)
    requires IsMax(points, max) && |points| > 0
    ensures points[|points| - 1].val <= max
  {
  }

  lemma MergedEnd(data: seq<MemEvent>, frees: seq<int>, points: seq<Point>, steps: seq<Step>, firstTime: int, usage: int, max: int, sum: int)
    requires ListsFrees(data, frees) && Going(data, frees, points, steps, firstTime, |data|, |frees|, usage, max, sum)
    ensures IsMax(points, max) && sum == SumOf(points)
    ensures Follows(data, points, steps, firstTime) && InTimeOrder(points) && FreesFirst(data, steps)
    ensures AllSteps(data, frees, steps)
    ensures |points| > 0 && points[|points| - 1].val == Unfreed(data)
  {
    hide Follows, InTimeOrder, FreesFirst, IsMax, Allocated, Freed, Unfreed, Begun, EndedIn;
    UnfreedAtEnd(data, frees);
    assert frees[..|frees|] == frees;
    NotEmpty(data, frees, points, steps, firstTime, |data|, |frees|);
  }
}
