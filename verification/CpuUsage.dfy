/** How many CPUs run the traced program and how many run something else, by sweeping over the
    intervals of all CPUs at once. */
module CpuUsage {

  const INT64_MAX := 0x7fff_ffff_ffff_ffff

  /** A thread running on a CPU; end is negative while it still does. own tells the traced program's threads. */
  datatype Interval = Interval(start: int, end: int, own: bool)

  /** Where the sweep is on one CPU: at the start of interval it, or inside of it. */
  datatype Cpu = Cpu(it: int, startDone: bool)

  datatype Usage = Usage(time: int, other: int, own: int)

  /** Intervals are in order and do not overlap, and only the last may be open. */
  ghost predicate Ordered(s: seq<Interval>) {
    && (forall i :: 0 <= i < |s| ==> 0 <= s[i].start < INT64_MAX && (s[i].end < 0 || s[i].start <= s[i].end < INT64_MAX))
    && (forall i, j :: 0 <= i < j < |s| ==> 0 <= s[i].end <= s[j].start)
  }

  ghost predicate Covers(v: Interval, t: int) {
    v.start <= t && (v.end < 0 || t < v.end)
  }

  /** Whether the CPU is inside an interval of the given kind at a time. */
  ghost predicate Inside(s: seq<Interval>, t: int, own: bool) {
    exists i :: 0 <= i < |s| && s[i].own == own && Covers(s[i], t)
  }

  ghost function InsideCount(cpus: seq<seq<Interval>>, t: int, own: bool): int {
    if cpus == [] then 0 else
      InsideCount(cpus[..|cpus| - 1], t, own) + if Inside(cpus[|cpus| - 1], t, own) then 1 else 0
  }

  lemma {:induction false} InsideCountBounds(cpus: seq<seq<Interval>>, t: int)
    requires forall c :: 0 <= c < |cpus| ==> Ordered(cpus[c])
    ensures 0 <= InsideCount(cpus, t, true) && 0 <= InsideCount(cpus, t, false)
    ensures InsideCount(cpus, t, true) + InsideCount(cpus, t, false) <= |cpus|
    decreases |cpus|
  {
    if cpus != [] {
      InsideCountBounds(cpus[..|cpus| - 1], t);
      NotBoth(cpus[|cpus| - 1], t);
    }
  }

  lemma OneCovers(s: seq<Interval>, t: int, i: int, j: int)
    requires Ordered(s) && 0 <= i < |s| && 0 <= j < |s| && Covers(s[i], t) && Covers(s[j], t)
    ensures i == j
  {
  }

  lemma NotBoth(s: seq<Interval>, t: int)
    requires Ordered(s)
    ensures !(Inside(s, t, true) && Inside(s, t, false))
  {
    forall i, j | 0 <= i < |s| && 0 <= j < |s| && Covers(s[i], t) && Covers(s[j], t)
      ensures s[i].own == s[j].own
    {
      OneCovers(s, t, i, j);
    }
  }

  ghost predicate CpuOk(s: seq<Interval>, c: Cpu) {
    0 <= c.it <= |s| && (c.startDone ==> c.it < |s| && s[c.it].end >= 0)
  }

  /** The time of the next interval to begin or end; of no use at the end of the list. */
  function NextTime(s: seq<Interval>, c: Cpu): int {
    if 0 <= c.it < |s| then if c.startDone then s[c.it].end else s[c.it].start else INT64_MAX
  }

  /** Everything the sweep has passed on this CPU is not after t, and what comes next is. */
  ghost predicate Passed(s: seq<Interval>, c: Cpu, t: int) {
    && CpuOk(s, c) && (c.startDone ==> s[c.it].start <= t)
    && forall i :: 0 <= i < c.it ==> s[i].start <= t && s[i].end <= t
  }

  ghost predicate Ahead(s: seq<Interval>, c: Cpu, t: int) {
    c.it < |s| ==> t < NextTime(s, c)
  }

  /** Whether the sweep counts the CPU as inside an interval of the given kind. */
  function Mark(s: seq<Interval>, c: Cpu, own: bool): int {
    if 0 <= c.it < |s| then if c.startDone && s[c.it].own == own then 1 else 0
    else if s != [] && s[|s| - 1].end < 0 && s[|s| - 1].own == own then 1 else 0
  }

  lemma MarkIsInside(s: seq<Interval>, c: Cpu, t: int, own: bool)
    requires Ordered(s) && Passed(s, c, t) && Ahead(s, c, t)
    ensures Mark(s, c, own) == 1 <==> Inside(s, t, own)
  {
    var k := if c.it < |s| then c.it else |s| - 1;
    if Mark(s, c, own) == 1 {
      assert s[k].own == own && Covers(s[k], t);
    }
    forall i | 0 <= i < |s| && Covers(s[i], t)
      ensures i == k && (c.it < |s| ==> c.startDone) && (c.it == |s| ==> s[k].end < 0)
    {
      assert i < c.it ==> s[i].end < 0;
    }
  }

  function MarkSum(cpus: seq<seq<Interval>>, state: seq<Cpu>, own: bool): int
    requires |cpus| == |state|
  {
    if cpus == [] then 0 else
      MarkSum(cpus[..|cpus| - 1], state[..|state| - 1], own) + Mark(cpus[|cpus| - 1], state[|state| - 1], own)
  }

  lemma {:induction false} MarkSumUpdate(cpus: seq<seq<Interval>>, state: seq<Cpu>, i: int, c: Cpu, own: bool)
    requires |cpus| == |state| && 0 <= i < |cpus|
    ensures MarkSum(cpus, state[i := c], own) == MarkSum(cpus, state, own) - Mark(cpus[i], state[i], own) + Mark(cpus[i], c, own)
    decreases |cpus|
  {
    var last := |cpus| - 1;
    if i == last {
      assert state[i := c][..last] == state[..last];
    } else {
      assert state[i := c][..last] == state[..last][i := c];
      MarkSumUpdate(cpus[..last], state[..last], i, c, own);
    }
  }

  lemma {:induction false} MarkSumBounds(cpus: seq<seq<Interval>>, state: seq<Cpu>)
    requires |cpus| == |state|
    ensures 0 <= MarkSum(cpus, state, true) && 0 <= MarkSum(cpus, state, false)
    ensures MarkSum(cpus, state, true) + MarkSum(cpus, state, false) <= |cpus|
    decreases |cpus|
  {
    if cpus != [] {
      MarkSumBounds(cpus[..|cpus| - 1], state[..|state| - 1]);
    }
  }

  ghost predicate AllPassed(cpus: seq<seq<Interval>>, state: seq<Cpu>, t: int) {
    |cpus| == |state| && forall c :: 0 <= c < |cpus| ==> Ordered(cpus[c]) && Passed(cpus[c], state[c], t)
  }

  ghost predicate AllAhead(cpus: seq<seq<Interval>>, state: seq<Cpu>, t: int) {
    |cpus| == |state| && forall c :: 0 <= c < |cpus| ==> Ahead(cpus[c], state[c], t)
  }

  /** With everything up to t passed and nothing beyond, the marks count the CPUs inside an interval at t. */
  lemma {:induction false} MarksAreInside(cpus: seq<seq<Interval>>, state: seq<Cpu>, t: int, own: bool)
    requires AllPassed(cpus, state, t) && AllAhead(cpus, state, t)
    ensures MarkSum(cpus, state, own) == InsideCount(cpus, t, own)
    decreases |cpus|
  {
    if cpus != [] {
      var last := |cpus| - 1;
      MarksAreInside(cpus[..last], state[..last], t, own);
      MarkIsInside(cpus[last], state[last], t, own);
    }
  }

  function Left(s: seq<Interval>, c: Cpu): int {
    2 * (|s| - c.it) - if c.startDone then 1 else 0
  }

  /** How many beginnings and ends the sweep has still to pass. */
  function AllLeft(cpus: seq<seq<Interval>>, state: seq<Cpu>): int
    requires |cpus| == |state|
  {
    if cpus == [] then 0 else AllLeft(cpus[..|cpus| - 1], state[..|state| - 1]) + Left(cpus[|cpus| - 1], state[|state| - 1])
  }

  lemma {:induction false} AllLeftUpdate(cpus: seq<seq<Interval>>, state: seq<Cpu>, i: int, c: Cpu)
    requires |cpus| == |state| && 0 <= i < |cpus|
    ensures AllLeft(cpus, state[i := c]) == AllLeft(cpus, state) - Left(cpus[i], state[i]) + Left(cpus[i], c)
    decreases |cpus|
  {
    var last := |cpus| - 1;
    if i == last {
      assert state[i := c][..last] == state[..last];
    } else {
      assert state[i := c][..last] == state[..last][i := c];
      AllLeftUpdate(cpus[..last], state[..last], i, c);
    }
  }

  lemma {:induction false} AllLeftBounds(cpus: seq<seq<Interval>>, state: seq<Cpu>, t: int)
    requires AllPassed(cpus, state, t)
    ensures AllLeft(cpus, state) >= 0
    decreases |cpus|
  {
    if cpus != [] {
      AllLeftBounds(cpus[..|cpus| - 1], state[..|state| - 1], t);
    }
  }

  /** The sweep after passing the next beginning or end on one CPU. */
  function Next(s: seq<Interval>, c: Cpu): Cpu {
    if !c.startDone then if 0 <= c.it < |s| && s[c.it].end < 0 then Cpu(c.it + 1, false) else Cpu(c.it, true)
    else Cpu(c.it + 1, false)
  }

  /** Beginning marks the CPU, ending takes the mark away. */
  lemma NextMarks(s: seq<Interval>, c: Cpu, t: int)
    requires Ordered(s) && Passed(s, c, t) && c.it < |s| && NextTime(s, c) == t
    ensures Passed(s, Next(s, c), t) && Left(s, Next(s, c)) < Left(s, c)
    ensures NextTime(s, Next(s, c)) >= t || Next(s, c).it == |s|
    ensures !c.startDone && s[c.it].end < 0 ==> c.it + 1 == |s|
    ensures Mark(s, c, s[c.it].own) == (if c.startDone then 1 else 0) && Mark(s, Next(s, c), s[c.it].own) == (if c.startDone then 0 else 1)
    ensures Mark(s, c, !s[c.it].own) == 0 && Mark(s, Next(s, c), !s[c.it].own) == 0
  {
    if c.it + 1 < |s| {
      assert s[c.it].end <= s[c.it + 1].start && s[c.it].end >= 0;
    }
  }

  /** The latest entry not after t. */
  function Lookup(usage: seq<Usage>, t: int): Usage
    requires usage != []
  {
    if |usage| == 1 || usage[|usage| - 1].time <= t then usage[|usage| - 1] else Lookup(usage[..|usage| - 1], t)
  }

  /** Up to a time the list gives the right counts. */
  ghost predicate Describes(usage: seq<Usage>, cpus: seq<seq<Interval>>, until: int) {
    usage != [] && forall t :: 0 <= t <= until ==> Right(Lookup(usage, t), cpus, t)
  }

  ghost predicate Right(u: Usage, cpus: seq<seq<Interval>>, t: int) {
    u.own == InsideCount(cpus, t, true) && u.other == InsideCount(cpus, t, false)
  }

  /** The list starts with nothing, goes forward in time, and every entry differs from the one before. */
  ghost predicate Tidy(usage: seq<Usage>) {
    && usage != [] && usage[0] == Usage(0, 0, 0)
    && (forall k, m :: 0 <= k < m < |usage| ==> usage[k].time <= usage[m].time)
    && (forall k :: 0 < k < |usage| ==> usage[k - 1].other != usage[k].other || usage[k - 1].own != usage[k].own)
  }

  /** Where the sweep stands between two steps: everything up to t has been passed. */
  ghost predicate Swept(cpus: seq<seq<Interval>>, state: seq<Cpu>, t: int, other: int, own: int) {
    && AllPassed(cpus, state, t) && AllAhead(cpus, state, t)
    && own == MarkSum(cpus, state, true) && other == MarkSum(cpus, state, false)
  }

  /** Until the next beginning or end the counts stay as they are. */
  lemma SteadyUntil(cpus: seq<seq<Interval>>, state: seq<Cpu>, t: int, other: int, own: int, u: int, next: int)
    requires Swept(cpus, state, t, other, own) && t <= u < next
    requires forall c :: 0 <= c < |cpus| && state[c].it < |cpus[c]| ==> next <= NextTime(cpus[c], state[c])
    ensures own == InsideCount(cpus, u, true) && other == InsideCount(cpus, u, false)
  {
    MarksAreInside(cpus, state, u, true);
    MarksAreInside(cpus, state, u, false);
  }

  lemma DescribesMore(usage: seq<Usage>, cpus: seq<seq<Interval>>, state: seq<Cpu>, t: int, other: int, own: int, next: int)
    requires Swept(cpus, state, t, other, own) && Describes(usage, cpus, t) && Tidy(usage) && -1 <= t < next
    requires usage[|usage| - 1].own == own && usage[|usage| - 1].other == other
    requires usage[|usage| - 1].time <= t || usage[|usage| - 1].time == 0
    requires forall c :: 0 <= c < |cpus| && state[c].it < |cpus[c]| ==> next <= NextTime(cpus[c], state[c])
    ensures Describes(usage, cpus, next - 1)
  {
    forall u | 0 <= u <= next - 1
      ensures Right(Lookup(usage, u), cpus, u)
    {
      if u > t {
        SteadyUntil(cpus, state, t, other, own, u, next);
        assert Lookup(usage, u) == usage[|usage| - 1];
      }
    }
  }

  /** The list with an entry for the new counts, if they changed. */
  function Entered(usage: seq<Usage>, next: int, other: int, own: int): (more: seq<Usage>)
    requires usage != []
    ensures more != []
  {
    var back := usage[|usage| - 1];
    if back.other != other || back.own != own then usage + [Usage(next, other, own)] else usage
  }

  lemma TidyMore(usage: seq<Usage>, next: int, other: int, own: int)
    requires Tidy(usage) && usage[|usage| - 1].time <= next
    ensures var more := Entered(usage, next, other, own); var back := more[|more| - 1];
            Tidy(more) && back.time <= next && back.own == own && back.other == other
  {
    var more := Entered(usage, next, other, own);
    forall k, m | 0 <= k < m < |more|
      ensures more[k].time <= more[m].time
    {
      assert m == |usage| ==> usage[k].time <= usage[|usage| - 1].time;
    }
  }

  /** That makes the list right up to the new time. */
  lemma DescribesNow(usage: seq<Usage>, cpus: seq<seq<Interval>>, state: seq<Cpu>, next: int, other: int, own: int)
    requires Swept(cpus, state, next, other, own) && usage != [] && Describes(usage, cpus, next - 1) && 0 <= next
    requires usage[|usage| - 1].time <= next
    ensures Describes(Entered(usage, next, other, own), cpus, next)
  {
    SteadyUntil(cpus, state, next, other, own, next, next + 1);
    hide Swept, InsideCount;
    var more := Entered(usage, next, other, own);
    assert more != usage ==> more[..|usage|] == usage;
    forall u | 0 <= u <= next
      ensures Right(Lookup(more, u), cpus, u)
    {
      if u < next {
        assert Right(Lookup(usage, u), cpus, u);
      } else {
        assert Lookup(more, u) == more[|more| - 1];
      }
    }
  }

  /** The earliest beginning or end that has not been passed yet, if there is one. */
  method NextEvent(cpus: seq<seq<Interval>>, state: array<Cpu>, ghost t: int) returns (nextTime: int, atEnd: bool)
    requires AllPassed(cpus, state[..], t)
    ensures forall c :: 0 <= c < |cpus| && state[c].it < |cpus[c]| ==> !atEnd && nextTime <= NextTime(cpus[c], state[c])
    ensures !atEnd ==> exists c :: 0 <= c < |cpus| && state[c].it < |cpus[c]| && nextTime == NextTime(cpus[c], state[c])
  {
    nextTime, atEnd := INT64_MAX, true;
    var i := 0;
    while i < |cpus|
      invariant 0 <= i <= |cpus|
      invariant forall c :: 0 <= c < i && state[c].it < |cpus[c]| ==> !atEnd && nextTime <= NextTime(cpus[c], state[c])
      invariant atEnd ==> nextTime == INT64_MAX
      invariant !atEnd ==> exists c :: 0 <= c < i && state[c].it < |cpus[c]| && nextTime == NextTime(cpus[c], state[c])
    {
      assert Ordered(cpus[i]) && Passed(cpus[i], state[..][i], t);
      if state[i].it != |cpus[i]| {
        BeforeMax(cpus[i], state[i]);
        var v := cpus[i][state[i].it];
        var ct := if !state[i].startDone then v.start else v.end;
        if ct < nextTime {
          nextTime := ct;
        }
        atEnd := false;
      }
      i := i + 1;
    }
  }

  lemma BeforeMax(s: seq<Interval>, c: Cpu)
    requires Ordered(s) && CpuOk(s, c) && c.it < |s|
    ensures NextTime(s, c) < INT64_MAX
  {
  }

  /** Passes everything on one CPU that happens at the given time. */
  method SweepCpu(cpus: seq<seq<Interval>>, state: array<Cpu>, i: int, nextTime: int, oldOther: int, oldOwn: int)
    returns (other: int, own: int)
    requires 0 <= i < |cpus| <= 255 && AllPassed(cpus, state[..], nextTime)
    requires state[i].it < |cpus[i]| ==> nextTime <= NextTime(cpus[i], state[i])
    requires oldOwn == MarkSum(cpus, state[..], true) && oldOther == MarkSum(cpus, state[..], false)
    modifies state
    ensures AllPassed(cpus, state[..], nextTime) && Ahead(cpus[i], state[i], nextTime)
    ensures state[..] == old(state[..])[i := state[i]]
    ensures own == MarkSum(cpus, state[..], true) && other == MarkSum(cpus, state[..], false) && 0 <= own <= 255 && 0 <= other <= 255
    ensures AllLeft(cpus, state[..]) <= old(AllLeft(cpus, state[..]))
    ensures old(state[i].it < |cpus[i]| && NextTime(cpus[i], state[i]) == nextTime) ==> AllLeft(cpus, state[..]) < old(AllLeft(cpus, state[..]))
  {
    hide *;
    ghost var before := state[..];
    other, own := oldOther, oldOwn;
    Unfold(cpus, state[..], nextTime, i);
    MarkSumBounds(cpus, state[..]);
    assert before == before[i := state[i]];
    assert state[i] == before[i];
    while state[i].it != |cpus[i]| && nextTime == CpuTime(cpus[i], state[i])
      invariant state[..] == before[i := state[i]] && AllPassed(cpus, state[..], nextTime)
      invariant CpuOk(cpus[i], state[i]) && (state[i].it < |cpus[i]| ==> nextTime <= NextTime(cpus[i], state[i]))
      invariant own == MarkSum(cpus, state[..], true) && other == MarkSum(cpus, state[..], false) && 0 <= own <= 255 && 0 <= other <= 255
      invariant state[i] == before[i] || AllLeft(cpus, state[..]) < AllLeft(cpus, before)
      decreases AllLeft(cpus, state[..])
    {
      ghost var here := state[..];
      Unfold(cpus, here, nextTime, i);
      TimeIs(cpus[i], state[i]);
      NextMarks(cpus[i], state[i], nextTime);
      AllLeftBounds(cpus, here, nextTime);
      var v := cpus[i][state[i].it];
      ghost var c := Next(cpus[i], state[i]);
      PassedMore(cpus, here, nextTime, i, c);
      MarkSumUpdate(cpus, here, i, c, true);
      MarkSumUpdate(cpus, here, i, c, false);
      MarkSumBounds(cpus, here[i := c]);
      AllLeftUpdate(cpus, here, i, c);
      NextIs(cpus[i], state[i]);
      if !state[i].startDone {
        if v.own {
          own := own + 1;
        } else {
          other := other + 1;
        }
        if v.end < 0 {
          state[i] := Cpu(state[i].it + 1, false);
        } else {
          state[i] := Cpu(state[i].it, true);
        }
      } else {
        if v.own {
          own := own - 1;
        } else {
          other := other - 1;
        }
        state[i] := Cpu(state[i].it + 1, false);
      }
      assert state[..] == here[i := c];
      Unfold(cpus, state[..], nextTime, i);
    }
    TimeIs(cpus[i], state[i]);
    IsAhead(cpus[i], state[i], nextTime);
  }

  function CpuTime(s: seq<Interval>, c: Cpu): int
    requires CpuOk(s, c) && c.it != |s|
  {
    if !c.startDone then s[c.it].start else s[c.it].end
  }

  lemma TimeIs(s: seq<Interval>, c: Cpu)
    requires CpuOk(s, c)
    ensures 0 <= c.it <= |s| && (c.it != |s| ==> CpuTime(s, c) == NextTime(s, c))
  {
  }

  lemma NextIs(s: seq<Interval>, c: Cpu)
    requires 0 <= c.it < |s|
    ensures Next(s, c) == if !c.startDone then if s[c.it].end < 0 then Cpu(c.it + 1, false) else Cpu(c.it, true) else Cpu(c.it + 1, false)
  {
  }

  lemma IsAhead(s: seq<Interval>, c: Cpu, t: int)
    requires c.it < |s| ==> t <= NextTime(s, c) && t != NextTime(s, c)
    ensures Ahead(s, c, t)
  {
  }

  lemma Unfold(cpus: seq<seq<Interval>>, state: seq<Cpu>, t: int, i: int)
    requires AllPassed(cpus, state, t) && 0 <= i < |cpus|
    ensures |cpus| == |state| && Ordered(cpus[i]) && Passed(cpus[i], state[i], t) && CpuOk(cpus[i], state[i])
  {
  }

  lemma PassedMore(cpus: seq<seq<Interval>>, state: seq<Cpu>, t: int, i: int, c: Cpu)
    requires AllPassed(cpus, state, t) && 0 <= i < |cpus| && Passed(cpus[i], c, t)
    ensures |cpus| == |state| && AllPassed(cpus, state[i := c], t)
  {
  }

  /** One step of the sweep: everything that happens at the next time, on all CPUs. */
  method SweepStep(cpus: seq<seq<Interval>>, state: array<Cpu>, nextTime: int, ghost t: int, oldOther: int, oldOwn: int)
    returns (other: int, own: int)
    requires 0 < |cpus| <= 255 && t < nextTime && Swept(cpus, state[..], t, oldOther, oldOwn)
    requires forall c :: 0 <= c < |cpus| && state[c].it < |cpus[c]| ==> nextTime <= NextTime(cpus[c], state[c])
    requires exists c :: 0 <= c < |cpus| && state[c].it < |cpus[c]| && nextTime == NextTime(cpus[c], state[c])
    modifies state
    ensures Swept(cpus, state[..], nextTime, other, own) && 0 <= own <= 255 && 0 <= other <= 255
    ensures AllLeft(cpus, state[..]) < old(AllLeft(cpus, state[..]))
  {
    hide Ordered, Passed, NextTime, MarkSum, AllLeft, Mark;
    ghost var before := state[..];
    ghost var w :| 0 <= w < |cpus| && before[w].it < |cpus[w]| && nextTime == NextTime(cpus[w], before[w]);
    other, own := oldOther, oldOwn;
    PassedLater(cpus, before, t, nextTime);
    MarkSumBounds(cpus, before);
    var i := 0;
    while i < |cpus|
      invariant 0 <= i <= |cpus| == state.Length && AllPassed(cpus, state[..], nextTime)
      invariant forall c :: 0 <= c < i ==> Ahead(cpus[c], state[c], nextTime)
      invariant forall c :: i <= c < |cpus| ==> state[c] == before[c]
      invariant own == MarkSum(cpus, state[..], true) && other == MarkSum(cpus, state[..], false) && 0 <= own <= 255 && 0 <= other <= 255
      invariant AllLeft(cpus, state[..]) <= AllLeft(cpus, before) && (w < i ==> AllLeft(cpus, state[..]) < AllLeft(cpus, before))
    {
      ghost var here := state[..];
      assert state[i] == before[i] && here[i] == before[i];
      other, own := SweepCpu(cpus, state, i, nextTime, other, own);
      forall d | 0 <= d < |cpus| && d != i
        ensures state[d] == here[d]
      {
        assert state[d] == state[..][d];
      }
      i := i + 1;
    }
    forall c | 0 <= c < |cpus|
      ensures Ahead(cpus[c], state[..][c], nextTime)
    {
    }
  }

  lemma PassedLater(cpus: seq<seq<Interval>>, state: seq<Cpu>, t: int, u: int)
    requires AllPassed(cpus, state, t) && t <= u
    ensures AllPassed(cpus, state, u)
  {
  }

  /** The number of CPUs inside own and foreign intervals, as a list of the times at which it changes. */
  method ReconstructContextSwitchUsage(cpus: seq<seq<Interval>>) returns (usage: seq<Usage>)
    requires 0 < |cpus| <= 255 && forall c :: 0 <= c < |cpus| ==> Ordered(cpus[c])
    ensures Tidy(usage)
    ensures forall t :: t >= 0 ==> Right(Lookup(usage, t), cpus, t)
  {
    hide *;
    usage := [Usage(0, 0, 0)];
    var state := new Cpu[|cpus|](_ => Cpu(0, false));
    var other, own := 0, 0;
    ghost var t := -1;
    SweptStart(cpus, state[..]);
    TidyStart(cpus);
    var done := false;
    while !done
      invariant fresh(state) && state.Length == |cpus| && Swept(cpus, state[..], t, other, own) && t >= -1
      invariant Tidy(usage) && Describes(usage, cpus, t) && usage != []
      invariant usage[|usage| - 1].time <= t || usage[|usage| - 1].time == 0
      invariant usage[|usage| - 1].own == own && usage[|usage| - 1].other == other
      invariant done ==> forall c :: 0 <= c < |cpus| ==> state[c].it >= |cpus[c]|
      decreases AllLeft(cpus, state[..]), !done
    {
      SweptParts(cpus, state[..], t, other, own);
      var nextTime, atEnd := NextEvent(cpus, state, t);
      if atEnd {
        done := true;
      } else {
        ghost var before := state[..];
        NextIsLater(cpus, before, t, other, own, nextTime);
        DescribesMore(usage, cpus, before, t, other, own, nextTime);
        AllLeftBounds(cpus, before, t);
        other, own := SweepStep(cpus, state, nextTime, t, other, own);
        TidyMore(usage, nextTime, other, own);
        DescribesNow(usage, cpus, state[..], nextTime, other, own);
        EnteredIs(usage, nextTime, other, own);
        var back := usage[|usage| - 1];
        if back.other != other || back.own != own {
          usage := usage + [Usage(nextTime, other, own)];
        }
        t := nextTime;
      }
    }
    forall u | u >= 0
      ensures Right(Lookup(usage, u), cpus, u)
    {
      DescribesRest(usage, cpus, state[..], t, other, own, u);
    }
  }

  lemma SweptStart(cpus: seq<seq<Interval>>, state: seq<Cpu>)
    requires |state| == |cpus| && (forall c :: 0 <= c < |cpus| ==> Ordered(cpus[c])) && forall c :: 0 <= c < |state| ==> state[c] == Cpu(0, false)
    ensures Swept(cpus, state, -1, 0, 0)
  {
    MarkNothing(cpus, state, true);
    MarkNothing(cpus, state, false);
  }

  lemma {:induction false} MarkNothing(cpus: seq<seq<Interval>>, state: seq<Cpu>, own: bool)
    requires |state| == |cpus| && forall c :: 0 <= c < |state| ==> state[c] == Cpu(0, false)
    ensures MarkSum(cpus, state, own) == 0
    decreases |cpus|
  {
    if cpus != [] {
      MarkNothing(cpus[..|cpus| - 1], state[..|state| - 1], own);
    }
  }

  lemma TidyStart(cpus: seq<seq<Interval>>)
    ensures Tidy([Usage(0, 0, 0)]) && Describes([Usage(0, 0, 0)], cpus, -1)
  {
  }

  lemma SweptParts(cpus: seq<seq<Interval>>, state: seq<Cpu>, t: int, other: int, own: int)
    requires Swept(cpus, state, t, other, own)
    ensures AllPassed(cpus, state, t)
  {
  }

  lemma NextIsLater(cpus: seq<seq<Interval>>, state: seq<Cpu>, t: int, other: int, own: int, next: int)
    requires Swept(cpus, state, t, other, own)
    requires exists c :: 0 <= c < |cpus| && state[c].it < |cpus[c]| && next == NextTime(cpus[c], state[c])
    ensures t < next
  {
  }

  lemma EnteredIs(usage: seq<Usage>, next: int, other: int, own: int)
    requires usage != []
    ensures Entered(usage, next, other, own)
            == if usage[|usage| - 1].other != other || usage[|usage| - 1].own != own then usage + [Usage(next, other, own)] else usage
  {
  }

  /** After the last beginning or end nothing changes any more. */
  lemma DescribesRest(usage: seq<Usage>, cpus: seq<seq<Interval>>, state: seq<Cpu>, t: int, other: int, own: int, u: int)
    requires Swept(cpus, state, t, other, own) && Tidy(usage) && Describes(usage, cpus, t) && u >= 0 && t >= -1
    requires usage[|usage| - 1].time <= t || usage[|usage| - 1].time == 0
    requires usage[|usage| - 1].own == own && usage[|usage| - 1].other == other
    requires |state| == |cpus| && forall c :: 0 <= c < |cpus| ==> state[c].it >= |cpus[c]|
    ensures Right(Lookup(usage, u), cpus, u)
  {
    if u > t {
      DescribesMore(usage, cpus, state, t, other, own, u + 1);
    }
  }
}
