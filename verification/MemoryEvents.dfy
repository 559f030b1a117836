/** Allocations and frees as they are received, with the memory plot that grows along, and the same plot
    made again afterwards. */
module MemoryEvents {
  import opened MemorySteps
  import opened MemoryTies
  import opened MemoryPlot

  /** The allocations that last, by address. */
  ghost predicate ActiveOk(data: seq<MemEvent>, active: map<int, int>) {
    && (forall p :: p in active ==> 0 <= active[p] < |data| && data[active[p]].ptr == p && data[active[p]].free < 0)
    && (forall i :: 0 <= i < |data| && data[i].free < 0 ==> data[i].ptr in active && active[data[i].ptr] == i)
  }

  ghost predicate NotFreedEarlier(data: seq<MemEvent>) {
    forall i :: 0 <= i < |data| && data[i].free >= 0 ==> data[i].alloc <= data[i].free
  }

  /** The lowest address and the end of the highest block ever allocated. */
  ghost predicate Spans(data: seq<MemEvent>, low: int, high: int) {
    && low <= ADDRESSES - 1 && high >= 0
    && (forall i :: 0 <= i < |data| ==> low <= data[i].ptr && data[i].ptr + data[i].size <= high)
    && (low == ADDRESSES - 1 || exists i :: 0 <= i < |data| && data[i].ptr == low)
    && (high == 0 || exists i :: 0 <= i < |data| && data[i].ptr + data[i].size == high)
  }

  /** The plot so far has a point for each event, the last one at the current usage. */
  ghost predicate PlotOk(data: seq<MemEvent>, frees: seq<int>, points: seq<Point>, steps: seq<Step>, firstTime: int, usage: int) {
    && Begun(steps) == UpTo(|data|) && EndedIn(steps) == frees && (points == [] <==> steps == [])
    && (points != [] ==> Follows(data, points, steps, firstTime) && InTimeOrder(points) && points[|points| - 1].val == usage)
  }

  ghost predicate Before(data: seq<MemEvent>, points: seq<Point>, firstTime: int, time: int) {
    && 0 <= firstTime <= time && (points != [] ==> points[|points| - 1].time <= time)
    && forall i :: 0 <= i < |data| ==> firstTime <= data[i].alloc <= time
  }

  ghost predicate Bounded(points: seq<Point>, max: int) {
    NonNegative(points) && IsMax(points, max)
  }

  lemma BoundedMore(points: seq<Point>, max: int, p: Point)
    requires Bounded(points, max) && p.val >= 0
    ensures Bounded(points + [p], if max < p.val then p.val else max)
    ensures SumOf(points + [p]) == SumOf(points) + p.val
  {
    hide IsMax, SumOf;
    MaxMore(points, max, p);
  }

  /** What has been received, the lists and the plot all agree. */
  ghost predicate Coherent(data: seq<MemEvent>, frees: seq<int>, active: map<int, int>, low: int, high: int, usage: int,
      plot: seq<Point>, steps: seq<Step>, firstTime: int, lastTime: int) {
    && IsData(data) && ListsFrees(data, frees) && NotFreedEarlier(data)
    && ActiveOk(data, active) && Spans(data, low, high)
    && usage == Unfreed(data) && PlotOk(data, frees, plot, steps, firstTime, usage)
    && Before(data, plot, firstTime, lastTime)
  }

  ghost predicate Measured(plot: seq<Point>, min: int, max: int, sum: int) {
    plot != [] ==> Bounded(plot, max) && sum == SumOf(plot) && LeastAfterFirst(plot, min) && min <= max
  }

  /** The least value of the points that come from events. */
  ghost predicate LeastAfterFirst(plot: seq<Point>, min: int) {
    && (forall k :: 1 <= k < |plot| ==> min <= plot[k].val)
    && exists k :: 1 <= k < |plot| && plot[k].val == min
  }

  lemma LeastMore(plot: seq<Point>, min: int, p: Point)
    requires plot != [] && (LeastAfterFirst(plot, min) || (|plot| == 1 && min == p.val))
    ensures LeastAfterFirst(plot + [p], if min > p.val then p.val else min)
  {
    var more := plot + [p];
    assert more[|plot|] == p;
    if LeastAfterFirst(plot, min) {
      var k :| 1 <= k < |plot| && plot[k].val == min;
      assert more[k] == plot[k];
    }
  }

  const ADDRESSES := 0x1_0000_0000_0000_0000

  class MemData {
    const firstTime: int
    var data: seq<MemEvent>
    var frees: seq<int>
    var active: map<int, int>
    var low: int
    var high: int
    var usage: int
    /** Empty as long as there is no plot. */
    var plot: seq<Point>
    var min: int
    var max: int
    var sum: int
    /** The events, in the order in which they came. */
    ghost var steps: seq<Step>
    ghost var lastTime: int

    ghost predicate Valid()
      reads this
    {
      && Coherent(data, frees, active, low, high, usage, plot, steps, firstTime, lastTime)
      && Measured(plot, min, max, sum)
    }

    constructor (firstTime: int)
      requires firstTime >= 0
      ensures Valid() && data == [] && frees == [] && active == map[] && plot == [] && usage == 0 && steps == [] && lastTime == this.firstTime == firstTime
    {
      hide *;
      this.firstTime := firstTime;
      data, frees, active, low, high, usage := [], [], map[], ADDRESSES - 1, 0, 0;
      plot, min, max, sum := [], 0, 0, 0;
      steps, lastTime := [], firstTime;
      new;
      Nothing(firstTime);
      NowValid(this);
    }

    /** An allocation at an address that is in use is an error and changes nothing. */
    method ProcessMemAllocImpl(ptr: int, time: int, size: nat) returns (ok: bool)
      requires Valid() && time >= lastTime
      modifies this
      ensures Valid() && ok == (ptr !in old(active))
      ensures if ok then
                && data == old(data) + [MemEvent(ptr, time, -1, size)] && frees == old(frees)
                && active == old(active)[ptr := |old(data)|] && usage == old(usage) + size
                && steps == old(steps) + [Alloc(|old(data)|)] && lastTime == time
                && plot == Started(old(plot), firstTime) + [Point(time, usage)]
              else data == old(data) && frees == old(frees) && active == old(active) && plot == old(plot) && usage == old(usage)
    {
      hide *;
      if ptr in active {
        return false;
      }
      Known(this);
      Record(ptr, time, size);
      StartedIs(plot, firstTime);
      MemAllocChanged(time);
      NowValid(this);
      ok := true;
    }

    /** The allocation is entered in the lists; the plot lacks its point yet. */
    method Record(ptr: int, time: int, size: nat)
      requires Coherent(data, frees, active, low, high, usage, plot, steps, firstTime, lastTime) && ptr !in active && time >= lastTime
      modifies this`data, this`active, this`low, this`high, this`usage, this`steps, this`lastTime
      ensures usage >= 0 && Coherent(data, frees, active, low, high, usage,
                (if plot == [] then [Point(firstTime, 0)] else plot) + [Point(time, usage)], steps, firstTime, lastTime)
      ensures data == old(data) + [MemEvent(ptr, time, -1, size)] && active == old(active)[ptr := |old(data)|]
      ensures usage == old(usage) + size && steps == old(steps) + [Alloc(|old(data)|)] && lastTime == time
    {
      hide *;
      AllocatedAll(data, frees, active, low, high, usage, plot, steps, firstTime, lastTime, MemEvent(ptr, time, -1, size));
      active := active[ptr := |data|];
      data := data + [MemEvent(ptr, time, -1, size)];
      low := if ptr < low then ptr else low;
      high := if ptr + size > high then ptr + size else high;
      usage := usage + size;
      steps := steps + [Alloc(|data| - 1)];
      lastTime := time;
    }

    /** Freeing an address that is not in use is an error, or nothing at all, and changes nothing. */
    method ProcessMemFreeImpl(ptr: int, time: int) returns (ok: bool)
      requires Valid() && time >= lastTime
      modifies this
      ensures Valid() && ok == (ptr in old(active))
      ensures ok ==> 0 <= old(active[ptr]) < |old(data)|
      ensures if ok then
                && var i := old(active[ptr]);
                && data == old(data)[i := old(data)[i].(free := time)] && frees == old(frees) + [i]
                && active == old(active) - {ptr} && usage == old(usage) - old(data)[i].size
                && steps == old(steps) + [Free(i)] && lastTime == time
                && (FreedLater(data) <==> old(FreedLater(data)) && old(data)[i].alloc < time)
                && plot == Started(old(plot), firstTime) + [Point(time, usage)]
              else data == old(data) && frees == old(frees) && active == old(active) && plot == old(plot) && usage == old(usage)
    {
      hide *;
      if ptr !in active {
        return false;
      }
      Known(this);
      Release(ptr, time);
      StartedIs(plot, firstTime);
      MemAllocChanged(time);
      NowValid(this);
      ok := true;
    }

    /** The free is entered in the lists; the plot lacks its point yet. */
    method Release(ptr: int, time: int)
      requires Coherent(data, frees, active, low, high, usage, plot, steps, firstTime, lastTime) && ptr in active && time >= lastTime
      modifies this`data, this`frees, this`active, this`usage, this`steps, this`lastTime
      ensures usage >= 0 && Coherent(data, frees, active, low, high, usage,
                (if plot == [] then [Point(firstTime, 0)] else plot) + [Point(time, usage)], steps, firstTime, lastTime)
      ensures 0 <= old(active[ptr]) < |old(data)|
      ensures var i := old(active[ptr]);
              && data == old(data)[i := old(data)[i].(free := time)] && frees == old(frees) + [i]
              && usage == old(usage) - old(data)[i].size && steps == old(steps) + [Free(i)]
              && (FreedLater(data) <==> old(FreedLater(data)) && old(data)[i].alloc < time)
      ensures active == old(active) - {ptr} && lastTime == time
    {
      hide *;
      FreedAll(data, frees, active, low, high, usage, plot, steps, firstTime, lastTime, ptr, time);
      var i := active[ptr];
      frees := frees + [i];
      data := data[i := data[i].(free := time)];
      usage := usage - data[i].size;
      active := active - {ptr};
      steps := steps + [Free(i)];
      lastTime := time;
    }

    /** One more point in the plot, which is begun by the first one. */
    method MemAllocChanged(time: int)
      requires usage >= 0 && Measured(plot, min, max, sum)
      modifies this`plot, this`min, this`max, this`sum
      ensures plot == (if old(plot) == [] then [Point(firstTime, 0)] else old(plot)) + [Point(time, usage)]
      ensures Measured(plot, min, max, sum)
    {
      hide *;
      MeasuredIs(plot, min, max, sum);
      var val := usage;
      if plot == [] {
        FirstBounded(firstTime);
        BoundedMore([Point(firstTime, 0)], 0, Point(time, val));
        LeastMore([Point(firstTime, 0)], val, Point(time, val));
        plot := [Point(firstTime, 0)];
        min, max, sum := val, val, val;
        plot := plot + [Point(time, val)];
      } else {
        BoundedMore(plot, max, Point(time, val));
        LeastMore(plot, min, Point(time, val));
        if min > val {
          min := val;
        } else if max < val {
          max := val;
        }
        sum := sum + val;
        plot := plot + [Point(time, val)];
      }
      MeasuredIs(plot, min, max, sum);
    }

    /** The plot made again afterwards. Where frees at one time have one size it is the plot that grew along
        just when no allocation came before a free at the same time, unless neither changed anything. */
    method Reconstruct() returns (again: Plot, ghost sorted: seq<int>, ghost merged: seq<Step>)
      requires Valid()
      ensures fresh(again) && fresh(again.data)
      ensures MergesTo(data, sorted, merged, again.data[..], firstTime)
      ensures again.data.Length == |Started(plot, firstTime)| && again.data[again.data.Length - 1].val == usage
      ensures NonNegative(again.data[..]) <==> Covered(data)
      ensures EqualTies(data) ==> (again.data[..] == Started(plot, firstTime) <==> Settled(data, steps))
      ensures TakenAndGiven(data, steps) ==> again.data[..] != Started(plot, firstTime)
      ensures again.data[..] == plot ==> again.max == max && again.sum == sum
    {
      hide *;
      Known(this);
      CoherentIs(data, frees, active, low, high, usage, plot, steps, firstTime, lastTime);
      MeasuredIs(plot, min, max, sum);
      var list := new int[|frees|](i requires 0 <= i < |frees| reads this => frees[i]);
      assert list[..] == frees;
      StartsEarly(data, plot, firstTime, lastTime);
      again, merged := ReconstructMemAllocPlot(data, list, firstTime);
      sorted := list[..];
      MergesIs(data, sorted, merged, again.data[..], firstTime);
      Compared(data, frees, sorted, steps, merged, plot, again.data[..], firstTime, usage, lastTime);
      if again.data[..] == plot {
        BoundedIs(plot, max);
        OneMax(plot, max, again.max);
      }
    }
  }

  lemma MergesIs(data: seq<MemEvent>, sorted: seq<int>, t: seq<Step>, q: seq<Point>, firstTime: int)
    requires ListsFrees(data, sorted) && FreesInOrder(data, sorted) && AllSteps(data, sorted, t) && FreesFirst(data, t)
    requires Follows(data, q, t, firstTime)
    ensures MergesTo(data, sorted, t, q, firstTime)
  {
  }

  lemma OneMax(points: seq<Point>, max: int, max': int)
    requires IsMax(points, max) && IsMax(points, max')
    ensures max == max'
  {
  }

  /** The plot that grew and the merged one, in terms of ties. */
  lemma Compared(data: seq<MemEvent>, frees: seq<int>, sorted: seq<int>, s: seq<Step>, t: seq<Step>, plot: seq<Point>, q: seq<Point>,
      firstTime: int, usage: int, lastTime: int)
    requires IsData(data) && ListsFrees(data, frees) && PlotOk(data, frees, plot, s, firstTime, usage)
    requires Before(data, plot, firstTime, lastTime) && usage == Unfreed(data) && MergesTo(data, sorted, t, q, firstTime)
    ensures |q| == |Started(plot, firstTime)|
    ensures EqualTies(data) ==> (q == Started(plot, firstTime) <==> Settled(data, s))
    ensures TakenAndGiven(data, s) ==> q != Started(plot, firstTime)
  {
    hide *;
    var p := Started(plot, firstTime);
    StartedFollows(data, frees, plot, s, firstTime, usage, lastTime);
    PlotParts(data, frees, plot, s, firstTime, usage, lastTime);
    OrdersAre(data, frees, sorted, s, t, p, q, firstTime);
    TimesAgree(data, frees, sorted, s, t);
    PointAt(data, p, s, firstTime);
    PointAt(data, q, t, firstTime);
    if EqualTies(data) {
      TiesAgree(data, frees, sorted, s, t);
      SameIffSettled(data, frees, sorted, s, t, p, q, firstTime);
    }
    if TakenAndGiven(data, s) {
      var k, m := TiedPair(data, s);
      TurnedDiffers(data, frees, sorted, s, t, p, q, firstTime, k, m);
    }
  }

  lemma OrdersAre(data: seq<MemEvent>, frees: seq<int>, sorted: seq<int>, s: seq<Step>, t: seq<Step>, p: seq<Point>, q: seq<Point>, firstTime: int)
    requires IsData(data) && ListsFrees(data, frees) && Begun(s) == UpTo(|data|) && EndedIn(s) == frees
    requires Follows(data, p, s, firstTime) && InTimeOrder(p) && MergesTo(data, sorted, t, q, firstTime)
    ensures Orders(data, frees, sorted, s, t) && Follows(data, q, t, firstTime)
  {
    hide IsData, ListsFrees, FreesFirst, FreesInOrder, StepTime;
    forall k, m | 0 <= k < m < |s|
      ensures StepTime(data, s[k]) <= StepTime(data, s[m])
    {
      assert p[k + 1].time <= p[m + 1].time;
    }
  }

  /** A block allocated and freed at one time: the plot goes up and down as the events come, and down and up,
      below zero, when it is made again. */
  method TieTurned() returns (grown: seq<Point>, again: Plot)
    ensures grown == [Point(0, 0), Point(5, 8), Point(5, 0)]
    ensures again.data[..] == [Point(0, 0), Point(5, -8), Point(5, 0)]
  {
    hide *;
    var m := new MemData(0);
    var ok1 := m.ProcessMemAllocImpl(64, 5, 8);
    StartedIs([], 0);
    assert m.plot == [Point(0, 0), Point(5, 8)];
    var ok2 := m.ProcessMemFreeImpl(64, 5);
    StartedIs([Point(0, 0), Point(5, 8)], 0);
    grown := m.plot;
    ghost var sorted, merged;
    again, sorted, merged := m.Reconstruct();
    OneBlock(m.data, sorted, merged, again.data[..]);
  }

  lemma OneBlock(data: seq<MemEvent>, sorted: seq<int>, t: seq<Step>, q: seq<Point>)
    requires data == [MemEvent(64, 5, 5, 8)] && MergesTo(data, sorted, t, q, 0)
    ensures q == [Point(0, 0), Point(5, -8), Point(5, 0)]
  {
    hide *;
    MergesParts(data, sorted, t, q, 0);
    assert data[0].free == 5;
    FreesOfOne(data, sorted);
    var a, f := SplitAt(data, sorted, t, |t|);
    StepIn(data, sorted, t, 0, 0);
    assert t[..|t|] == t;
    AllocIn(data, sorted, t, |t|, a, f, 0);
    FreeIn(data, sorted, t, |t|, a, f, 0);
    SplitBounds(data, sorted, t, |t|, a, f);
    SplitBack(data, sorted, t, 2, 1, 1);
    SplitBack(data, sorted, t, 1, if t[1].Alloc? then 0 else 1, if t[1].Alloc? then 1 else 0);
    OneBlockOrder(data, t);
    OneBlockPoints(data, t, q);
  }

  lemma MergesParts(data: seq<MemEvent>, sorted: seq<int>, t: seq<Step>, q: seq<Point>, firstTime: int)
    requires MergesTo(data, sorted, t, q, firstTime)
    ensures ListsFrees(data, sorted) && Once(sorted) && AllSteps(data, sorted, t) && FreesFirst(data, t) && Follows(data, q, t, firstTime)
  {
  }

  lemma OneBlockOrder(data: seq<MemEvent>, t: seq<Step>)
    requires data == [MemEvent(64, 5, 5, 8)] && FreesFirst(data, t)
    requires t == [Alloc(0), Free(0)] || t == [Free(0), Alloc(0)]
    ensures t == [Free(0), Alloc(0)]
  {
    PlacesOrdered(data, t, 0, 1);
  }

  lemma OneBlockPoints(data: seq<MemEvent>, t: seq<Step>, q: seq<Point>)
    requires data == [MemEvent(64, 5, 5, 8)] && t == [Free(0), Alloc(0)] && Follows(data, q, t, 0)
    ensures q == [Point(0, 0), Point(5, -8), Point(5, 0)]
  {
    assert q[0 + 1] == Point(5, -8) && q[1 + 1] == Point(5, 0);
  }

  lemma FreesOfOne(data: seq<MemEvent>, sorted: seq<int>)
    requires |data| == 1 && data[0].free >= 0 && ListsFrees(data, sorted)
    ensures sorted == [0]
  {
    hide *;
    ZeroListed(data, sorted);
    ZeroAt(data, sorted, 0);
    if |sorted| > 1 {
      ZeroAt(data, sorted, 1);
      DifferentAt(data, sorted, 0, 1);
    }
  }

  lemma ZeroListed(data: seq<MemEvent>, sorted: seq<int>)
    requires |data| == 1 && data[0].free >= 0 && ListsFrees(data, sorted)
    ensures |sorted| > 0
  {
    assert 0 in sorted;
  }

  lemma ZeroAt(data: seq<MemEvent>, sorted: seq<int>, k: int)
    requires |data| == 1 && ListsFrees(data, sorted) && 0 <= k < |sorted|
    ensures sorted[k] == 0
  {
  }

  lemma DifferentAt(data: seq<MemEvent>, sorted: seq<int>, k: int, m: int)
    requires ListsFrees(data, sorted) && 0 <= k < m < |sorted|
    ensures sorted[k] != sorted[m]
  {
  }

  lemma Known(m: MemData)
    requires m.Valid()
    ensures Coherent(m.data, m.frees, m.active, m.low, m.high, m.usage, m.plot, m.steps, m.firstTime, m.lastTime)
    ensures Measured(m.plot, m.min, m.max, m.sum)
  {
  }

  lemma NowValid(m: MemData)
    requires Coherent(m.data, m.frees, m.active, m.low, m.high, m.usage, m.plot, m.steps, m.firstTime, m.lastTime)
    requires Measured(m.plot, m.min, m.max, m.sum)
    ensures m.Valid()
  {
  }

  lemma CoherentIs(data: seq<MemEvent>, frees: seq<int>, active: map<int, int>, low: int, high: int, usage: int,
      plot: seq<Point>, steps: seq<Step>, firstTime: int, lastTime: int)
    ensures Coherent(data, frees, active, low, high, usage, plot, steps, firstTime, lastTime) <==>
              && IsData(data) && ListsFrees(data, frees) && NotFreedEarlier(data)
              && ActiveOk(data, active) && Spans(data, low, high)
              && usage == Unfreed(data) && PlotOk(data, frees, plot, steps, firstTime, usage)
              && Before(data, plot, firstTime, lastTime)
  {
    hide IsData, ListsFrees, NotFreedEarlier, ActiveOk, Spans, Unfreed, PlotOk, Before;
  }

  lemma MeasuredIs(plot: seq<Point>, min: int, max: int, sum: int)
    ensures Measured(plot, min, max, sum) <==> plot == [] || (Bounded(plot, max) && sum == SumOf(plot) && LeastAfterFirst(plot, min) && min <= max)
  {
    hide Bounded, SumOf, LeastAfterFirst;
  }

  lemma Nothing(firstTime: int)
    requires firstTime >= 0
    ensures Coherent([], [], map[], ADDRESSES - 1, 0, 0, [], [], firstTime, firstTime) && Measured([], 0, 0, 0)
  {
    hide *;
    NothingListed();
    NothingDrawn(firstTime);
    CoherentIs([], [], map[], ADDRESSES - 1, 0, 0, [], [], firstTime, firstTime);
    MeasuredIs([], 0, 0, 0);
  }

  lemma NothingListed()
    ensures IsData([]) && ListsFrees([], []) && NotFreedEarlier([]) && ActiveOk([], map[]) && Spans([], ADDRESSES - 1, 0)
  {
  }

  lemma NothingDrawn(firstTime: int)
    requires firstTime >= 0
    ensures Unfreed([]) == 0 && PlotOk([], [], [], [], firstTime, 0) && Before([], [], firstTime, firstTime)
  {
    assert UpTo(0) == [];
  }

  /** An allocation keeps everything in agreement. */
  lemma AllocatedAll(data: seq<MemEvent>, frees: seq<int>, active: map<int, int>, low: int, high: int, usage: int,
      plot: seq<Point>, steps: seq<Step>, firstTime: int, lastTime: int, mem: MemEvent)
    requires Coherent(data, frees, active, low, high, usage, plot, steps, firstTime, lastTime)
    requires mem.ptr !in active && mem.free < 0 && mem.size >= 0 && mem.alloc >= lastTime
    ensures usage + mem.size >= 0
    ensures Coherent(data + [mem], frees, active[mem.ptr := |data|], if mem.ptr < low then mem.ptr else low,
                     if mem.ptr + mem.size > high then mem.ptr + mem.size else high, usage + mem.size,
                     (if plot == [] then [Point(firstTime, 0)] else plot) + [Point(mem.alloc, usage + mem.size)],
                     steps + [Alloc(|data|)], firstTime, mem.alloc)
  {
    hide *;
    CoherentIs(data, frees, active, low, high, usage, plot, steps, firstTime, lastTime);
    AllocatedPlot(data, frees, plot, steps, firstTime, usage, lastTime, mem);
    AllocatedData(data, frees, active, low, high, mem);
    UsageIs(data + [mem]);
    CoherentIs(data + [mem], frees, active[mem.ptr := |data|], if mem.ptr < low then mem.ptr else low,
               if mem.ptr + mem.size > high then mem.ptr + mem.size else high, usage + mem.size,
               (if plot == [] then [Point(firstTime, 0)] else plot) + [Point(mem.alloc, usage + mem.size)],
               steps + [Alloc(|data|)], firstTime, mem.alloc);
  }

  /** So does a free. */
  lemma FreedAll(data: seq<MemEvent>, frees: seq<int>, active: map<int, int>, low: int, high: int, usage: int,
      plot: seq<Point>, steps: seq<Step>, firstTime: int, lastTime: int, ptr: int, time: int)
    requires Coherent(data, frees, active, low, high, usage, plot, steps, firstTime, lastTime)
    requires ptr in active && time >= lastTime
    ensures 0 <= active[ptr] < |data|
    ensures var i := active[ptr];
            var after, left := data[i := data[i].(free := time)], usage - data[i].size;
            && left >= 0 && (FreedLater(after) <==> FreedLater(data) && data[i].alloc < time)
            && Coherent(after, frees + [i], active - {ptr}, low, high, left,
                        (if plot == [] then [Point(firstTime, 0)] else plot) + [Point(time, left)], steps + [Free(i)], firstTime, time)
  {
    hide *;
    CoherentIs(data, frees, active, low, high, usage, plot, steps, firstTime, lastTime);
    FreedData(data, frees, active, low, high, ptr, time, firstTime, lastTime, plot);
    var i := active[ptr];
    var after, left := data[i := data[i].(free := time)], usage - data[i].size;
    FreedPlot(data, frees, plot, steps, firstTime, usage, lastTime, i, time);
    UsageIs(after);
    CoherentIs(after, frees + [i], active - {ptr}, low, high, left,
               (if plot == [] then [Point(firstTime, 0)] else plot) + [Point(time, left)], steps + [Free(i)], firstTime, time);
  }

  lemma ActiveIs(data: seq<MemEvent>, active: map<int, int>, ptr: int)
    requires ActiveOk(data, active) && ptr in active
    ensures 0 <= active[ptr] < |data| && data[active[ptr]].free < 0
  {
  }

  lemma FirstBounded(time: int)
    ensures Bounded([Point(time, 0)], 0) && SumOf([Point(time, 0)]) == 0
  {
    assert [Point(time, 0)][0].val == 0;
  }

  lemma {:induction false} UsageIs(data: seq<MemEvent>)
    requires IsData(data)
    ensures Unfreed(data) >= 0
  {
    if data != [] {
      UsageIs(data[..|data| - 1]);
    }
  }

  /** An allocation: what becomes of the lists. */
  lemma AllocatedData(data: seq<MemEvent>, frees: seq<int>, active: map<int, int>, low: int, high: int, mem: MemEvent)
    requires IsData(data) && ListsFrees(data, frees) && NotFreedEarlier(data) && ActiveOk(data, active) && Spans(data, low, high)
    requires mem.ptr !in active && mem.free < 0 && mem.size >= 0 && forall i :: 0 <= i < |data| ==> data[i].alloc <= mem.alloc
    ensures var more := data + [mem];
            && IsData(more) && ListsFrees(more, frees) && NotFreedEarlier(more) && ActiveOk(more, active[mem.ptr := |data|])
            && Spans(more, if mem.ptr < low then mem.ptr else low, if mem.ptr + mem.size > high then mem.ptr + mem.size else high)
            && Unfreed(more) == Unfreed(data) + mem.size
  {
    hide *;
    AllocatedIsData(data, mem);
    AllocatedUsage(data, mem);
    AllocatedFrees(data, frees, mem);
    AllocatedActive(data, active, mem);
    AllocatedSpans(data, low, high, mem);
  }

  lemma AllocatedIsData(data: seq<MemEvent>, mem: MemEvent)
    requires IsData(data) && NotFreedEarlier(data) && mem.free < 0 && mem.size >= 0 && forall i :: 0 <= i < |data| ==> data[i].alloc <= mem.alloc
    ensures IsData(data + [mem]) && NotFreedEarlier(data + [mem])
  {
  }

  lemma AllocatedUsage(data: seq<MemEvent>, mem: MemEvent)
    requires mem.free < 0
    ensures Unfreed(data + [mem]) == Unfreed(data) + mem.size
  {
    assert (data + [mem])[..|data|] == data;
  }

  lemma AllocatedFrees(data: seq<MemEvent>, frees: seq<int>, mem: MemEvent)
    requires ListsFrees(data, frees) && mem.free < 0
    ensures ListsFrees(data + [mem], frees)
  {
  }

  lemma AllocatedActive(data: seq<MemEvent>, active: map<int, int>, mem: MemEvent)
    requires ActiveOk(data, active) && mem.ptr !in active && mem.free < 0
    ensures ActiveOk(data + [mem], active[mem.ptr := |data|])
  {
  }

  lemma AllocatedSpans(data: seq<MemEvent>, low: int, high: int, mem: MemEvent)
    requires Spans(data, low, high)
    ensures Spans(data + [mem], if mem.ptr < low then mem.ptr else low, if mem.ptr + mem.size > high then mem.ptr + mem.size else high)
  {
    var more := data + [mem];
    assert more[|data|] == mem;
    forall i | 0 <= i < |data|
      ensures more[i] == data[i]
    {
    }
  }

  lemma {:induction false} UnfreedAfter(data: seq<MemEvent>, i: int, time: int)
    requires 0 <= i < |data| && data[i].free < 0 <= time
    ensures Unfreed(data[i := data[i].(free := time)]) == Unfreed(data) - data[i].size
  {
    var n := |data| - 1;
    var after := data[i := data[i].(free := time)];
    if i < n {
      assert after[..n] == data[..n][i := data[..n][i].(free := time)];
      UnfreedAfter(data[..n], i, time);
    } else {
      assert after[..n] == data[..n];
    }
  }

  /** A free: what becomes of the lists. */
  lemma FreedData(data: seq<MemEvent>, frees: seq<int>, active: map<int, int>, low: int, high: int, ptr: int, time: int,
      firstTime: int, lastTime: int, plot: seq<Point>)
    requires IsData(data) && ListsFrees(data, frees) && NotFreedEarlier(data) && ActiveOk(data, active) && Spans(data, low, high)
    requires ptr in active && Before(data, plot, firstTime, lastTime) && time >= lastTime
    ensures var i := active[ptr];
            && 0 <= i < |data| && data[i].free < 0
            && var after := data[i := data[i].(free := time)];
               && IsData(after) && ListsFrees(after, frees + [i]) && NotFreedEarlier(after) && ActiveOk(after, active - {ptr})
               && Spans(after, low, high) && Unfreed(after) == Unfreed(data) - data[i].size
               && (FreedLater(after) <==> FreedLater(data) && data[i].alloc < time)
  {
    hide *;
    var i := active[ptr];
    ActiveIs(data, active, ptr);
    NotAfter(data, plot, firstTime, lastTime, i);
    UnfreedAfter(data, i, time);
    FreedIsData(data, i, time, low, high);
    FreedFrees(data, frees, i, time);
    FreedActive(data, active, ptr, time);
    FreedInTime(data, i, time);
  }

  lemma NotAfter(data: seq<MemEvent>, plot: seq<Point>, firstTime: int, lastTime: int, i: int)
    requires Before(data, plot, firstTime, lastTime) && 0 <= i < |data|
    ensures data[i].alloc <= lastTime && lastTime >= 0
  {
  }

  lemma FreedIsData(data: seq<MemEvent>, i: int, time: int, low: int, high: int)
    requires IsData(data) && NotFreedEarlier(data) && Spans(data, low, high) && 0 <= i < |data| && data[i].alloc <= time
    ensures var after := data[i := data[i].(free := time)]; IsData(after) && NotFreedEarlier(after) && Spans(after, low, high)
  {
    var after := data[i := data[i].(free := time)];
    forall j | 0 <= j < |data|
      ensures after[j].ptr == data[j].ptr && after[j].size == data[j].size
    {
    }
  }

  lemma FreedFrees(data: seq<MemEvent>, frees: seq<int>, i: int, time: int)
    requires ListsFrees(data, frees) && 0 <= i < |data| && data[i].free < 0 <= time
    ensures ListsFrees(data[i := data[i].(free := time)], frees + [i])
  {
    var after, more := data[i := data[i].(free := time)], frees + [i];
    forall j | 0 <= j < |after| && after[j].free >= 0
      ensures j in more
    {
      assert j != i ==> j in frees;
      assert more[|frees|] == i;
    }
  }

  lemma FreedActive(data: seq<MemEvent>, active: map<int, int>, ptr: int, time: int)
    requires ActiveOk(data, active) && ptr in active && 0 <= active[ptr] < |data| && time >= 0
    ensures ActiveOk(data[active[ptr] := data[active[ptr]].(free := time)], active - {ptr})
  {
  }

  lemma FreedInTime(data: seq<MemEvent>, i: int, time: int)
    requires 0 <= i < |data| && data[i].free < 0 <= time
    ensures FreedLater(data[i := data[i].(free := time)]) <==> FreedLater(data) && data[i].alloc < time
  {
    var after := data[i := data[i].(free := time)];
    if FreedLater(after) {
      forall j | 0 <= j < |data| && data[j].free >= 0
        ensures data[j].alloc < data[j].free
      {
        assert after[j] == data[j];
      }
      assert after[i].alloc < after[i].free;
    }
  }

  /** The steps of a plot are about allocations that are listed. */
  lemma StepKnown(data: seq<MemEvent>, frees: seq<int>, steps: seq<Step>, k: int)
    requires ListsFrees(data, frees) && Begun(steps) == UpTo(|data|) && EndedIn(steps) == frees && 0 <= k < |steps|
    ensures 0 <= steps[k].i < |data| && (steps[k].Free? ==> steps[k].i in frees)
  {
    Members(steps, steps[k]);
  }

  /** What is written down about later events changes nothing for the steps so far. */
  lemma FollowsKept(data: seq<MemEvent>, after: seq<MemEvent>, points: seq<Point>, steps: seq<Step>, firstTime: int)
    requires Follows(data, points, steps, firstTime)
    requires forall k :: 0 <= k < |steps| ==> StepTime(after, steps[k]) == StepTime(data, steps[k]) && StepSize(after, steps[k]) == StepSize(data, steps[k])
    ensures Follows(after, points, steps, firstTime)
  {
  }

  function Started(plot: seq<Point>, firstTime: int): seq<Point> {
    if plot == [] then [Point(firstTime, 0)] else plot
  }

  /** A plot without points yet stands for nothing in use since the first time. */
  lemma StartedFollows(data: seq<MemEvent>, frees: seq<int>, plot: seq<Point>, steps: seq<Step>, firstTime: int, usage: int, lastTime: int)
    requires PlotOk(data, frees, plot, steps, firstTime, usage) && Before(data, plot, firstTime, lastTime) && usage == Unfreed(data)
    ensures var points := Started(plot, firstTime);
            && |points| > 0 && Follows(data, points, steps, firstTime) && InTimeOrder(points)
            && points[|points| - 1].val == usage && points[|points| - 1].time <= lastTime
  {
    if plot == [] {
      assert |UpTo(|data|)| == |data| == 0;
    }
  }

  lemma PlotIs(data: seq<MemEvent>, frees: seq<int>, points: seq<Point>, steps: seq<Step>, firstTime: int, usage: int, time: int)
    requires Begun(steps) == UpTo(|data|) && EndedIn(steps) == frees && points != [] && steps != []
    requires Follows(data, points, steps, firstTime) && InTimeOrder(points) && points[|points| - 1] == Point(time, usage)
    requires 0 <= firstTime <= time && forall i :: 0 <= i < |data| ==> firstTime <= data[i].alloc <= time
    ensures PlotOk(data, frees, points, steps, firstTime, usage) && Before(data, points, firstTime, time)
  {
    hide Follows, InTimeOrder, Begun, EndedIn, UpTo;
  }

  lemma PlotParts(data: seq<MemEvent>, frees: seq<int>, plot: seq<Point>, steps: seq<Step>, firstTime: int, usage: int, lastTime: int)
    requires PlotOk(data, frees, plot, steps, firstTime, usage) && Before(data, plot, firstTime, lastTime)
    ensures Begun(steps) == UpTo(|data|) && EndedIn(steps) == frees && 0 <= firstTime <= lastTime
    ensures forall i :: 0 <= i < |data| ==> firstTime <= data[i].alloc <= lastTime
  {
    hide Follows, InTimeOrder, Begun, EndedIn, UpTo;
  }

  lemma OneMore(n: int)
    requires n >= 0
    ensures UpTo(n) + [n] == UpTo(n + 1)
  {
  }

  lemma StartedIs(plot: seq<Point>, firstTime: int)
    ensures Started(plot, firstTime) == if plot == [] then [Point(firstTime, 0)] else plot
  {
  }

  lemma AllocatedPlot(data: seq<MemEvent>, frees: seq<int>, plot: seq<Point>, steps: seq<Step>, firstTime: int, usage: int,
      lastTime: int, mem: MemEvent)
    requires PlotOk(data, frees, plot, steps, firstTime, usage) && Before(data, plot, firstTime, lastTime) && usage == Unfreed(data)
    requires ListsFrees(data, frees) && mem.alloc >= lastTime
    ensures forall i :: 0 <= i < |data| ==> data[i].alloc <= mem.alloc
    ensures var points := (if plot == [] then [Point(firstTime, 0)] else plot) + [Point(mem.alloc, usage + mem.size)];
            && PlotOk(data + [mem], frees, points, steps + [Alloc(|data|)], firstTime, usage + mem.size)
            && Before(data + [mem], points, firstTime, mem.alloc)
  {
    hide *;
    StartedFollows(data, frees, plot, steps, firstTime, usage, lastTime);
    PlotParts(data, frees, plot, steps, firstTime, usage, lastTime);
    var more, points := data + [mem], Started(plot, firstTime);
    forall k | 0 <= k < |steps|
      ensures StepTime(more, steps[k]) == StepTime(data, steps[k]) && StepSize(more, steps[k]) == StepSize(data, steps[k])
    {
      StepKnown(data, frees, steps, k);
      OlderStep(data, mem, steps[k]);
    }
    FollowsKept(data, more, points, steps, firstTime);
    NewAlloc(data, mem);
    Push(points, steps, more, firstTime, Alloc(|data|));
    OneMore(|data|);
    StartedIs(plot, firstTime);
    PlotIs(more, frees, points + [Point(mem.alloc, usage + mem.size)], steps + [Alloc(|data|)], firstTime, usage + mem.size, mem.alloc);
  }

  lemma OlderStep(data: seq<MemEvent>, mem: MemEvent, s: Step)
    requires 0 <= s.i < |data|
    ensures StepTime(data + [mem], s) == StepTime(data, s) && StepSize(data + [mem], s) == StepSize(data, s)
  {
  }

  lemma NewAlloc(data: seq<MemEvent>, mem: MemEvent)
    ensures StepTime(data + [mem], Alloc(|data|)) == mem.alloc && StepSize(data + [mem], Alloc(|data|)) == mem.size
  {
  }

  lemma OtherStep(data: seq<MemEvent>, i: int, time: int, s: Step)
    requires 0 <= i < |data| && s != Free(i)
    ensures var after := data[i := data[i].(free := time)]; StepTime(after, s) == StepTime(data, s) && StepSize(after, s) == StepSize(data, s)
  {
  }

  lemma NewFree(data: seq<MemEvent>, i: int, time: int)
    requires 0 <= i < |data|
    ensures var after := data[i := data[i].(free := time)]; StepTime(after, Free(i)) == time && StepSize(after, Free(i)) == -data[i].size
  {
  }

  lemma FreedAlready(data: seq<MemEvent>, frees: seq<int>, i: int)
    requires ListsFrees(data, frees) && 0 <= i < |data| && data[i].free < 0
    ensures i !in frees
  {
  }

  lemma FreedPlot(data: seq<MemEvent>, frees: seq<int>, plot: seq<Point>, steps: seq<Step>, firstTime: int, usage: int,
      lastTime: int, i: int, time: int)
    requires PlotOk(data, frees, plot, steps, firstTime, usage) && Before(data, plot, firstTime, lastTime) && usage == Unfreed(data)
    requires ListsFrees(data, frees) && time >= lastTime && 0 <= i < |data| && data[i].free < 0
    ensures var points := (if plot == [] then [Point(firstTime, 0)] else plot) + [Point(time, usage - data[i].size)];
            var after := data[i := data[i].(free := time)];
            && PlotOk(after, frees + [i], points, steps + [Free(i)], firstTime, usage - data[i].size)
            && Before(after, points, firstTime, time)
  {
    hide *;
    StartedFollows(data, frees, plot, steps, firstTime, usage, lastTime);
    PlotParts(data, frees, plot, steps, firstTime, usage, lastTime);
    FreedAlready(data, frees, i);
    var after, points := data[i := data[i].(free := time)], Started(plot, firstTime);
    forall k | 0 <= k < |steps|
      ensures StepTime(after, steps[k]) == StepTime(data, steps[k]) && StepSize(after, steps[k]) == StepSize(data, steps[k])
    {
      StepKnown(data, frees, steps, k);
      OtherStep(data, i, time, steps[k]);
    }
    FollowsKept(data, after, points, steps, firstTime);
    NewFree(data, i, time);
    Push(points, steps, after, firstTime, Free(i));
    StartedIs(plot, firstTime);
    PlotIs(after, frees + [i], points + [Point(time, usage - data[i].size)], steps + [Free(i)], firstTime, usage - data[i].size, time);
  }

  lemma BoundedIs(points: seq<Point>, max: int)
    ensures Bounded(points, max) <==> NonNegative(points) && IsMax(points, max)
  {
  }

  lemma StartsEarly(data: seq<MemEvent>, plot: seq<Point>, firstTime: int, lastTime: int)
    requires Before(data, plot, firstTime, lastTime) && NotFreedEarlier(data)
    ensures FromFirst(data, firstTime)
  {
  }
}
