/** Whole runs of zone events, from the first one on to the statistics made again from the zone forests. */
module ZoneRuns {
  import opened ChildLists
  import opened Timeline
  import opened ZoneTally
  import opened ZoneStatistics

  /** A zone begins or the innermost one ends, on a thread and at a time. */
  datatype ZoneStep = Begin(thread: int, srcloc: int, time: int) | End(thread: int, time: int)

  function Started(ids: seq<int>): (threads: seq<ThreadData>)
    ensures |threads| == |ids|
  {
    seq(|ids|, i requires 0 <= i < |ids| => ThreadData(ids[i], [], [], [], NoCounts()))
  }

  /** One event; an end without a zone is an error and changes nothing. */
  function Happened(td: ThreadData, e: ZoneStep): ThreadData {
    match e
    case Begin(_, srcloc, time) => Begun(td, srcloc, time)
    case End(_, time) => if td.stack == [] || |td.childTimeStack| != |td.stack| then td else AfterEnd(td, time)
  }

  /** The threads after a run of events. */
  function After(ids: seq<int>, events: seq<ZoneStep>): (threads: seq<ThreadData>)
    ensures |threads| == |ids|
  {
    if events == [] then Started(ids) else
      var e := events[|events| - 1];
      var threads := After(ids, events[..|events| - 1]);
      if 0 <= e.thread < |threads| then threads[e.thread := Happened(threads[e.thread], e)] else threads
  }

  /** The zones that have been added to the statistics, in the order they ended. */
  function Logged(ids: seq<int>, events: seq<ZoneStep>): seq<Closed> {
    if events == [] then [] else
      var front, e := events[..|events| - 1], events[|events| - 1];
      Logged(ids, front) + LogOf(After(ids, front), e)
  }

  function LogOf(threads: seq<ThreadData>, e: ZoneStep): seq<Closed> {
    if e.End? && 0 <= e.thread < |threads| && threads[e.thread].stack != [] then EndAdds(threads[e.thread], e.time) else []
  }

  /** When the last event of a thread was. */
  function Now(events: seq<ZoneStep>, thread: int): int {
    if events == [] then 0 else
      if events[|events| - 1].thread == thread then events[|events| - 1].time else Now(events[..|events| - 1], thread)
  }

  /** On every thread times start from zero and do not go back. */
  ghost predicate Monotone(events: seq<ZoneStep>) {
    forall i :: 0 <= i < |events| ==> Now(events[..i], events[i].thread) <= events[i].time
  }

  ghost predicate OnThreads(ids: seq<int>, events: seq<ZoneStep>) {
    forall i :: 0 <= i < |events| ==> 0 <= events[i].thread < |ids| && 0 <= events[i].time
  }

  /** What has ended by now is nested, and so is what has ended inside of the open zones. */
  ghost predicate NestedByNow(td: ThreadData, now: int) {
    && 0 <= now && Nested(td.timeline, 0, now)
    && (forall k :: 0 <= k < |td.stack| ==> 0 <= td.stack[k].start <= now && Nested(td.stack[k].children, td.stack[k].start, now))
    && forall k, m :: 0 <= k < m < |td.stack| ==> td.stack[k].start <= td.stack[m].start
  }

  lemma NestedLater(zs: seq<Zone>, from: int, to: int, later: int)
    requires Nested(zs, from, to) && to <= later
    ensures Nested(zs, from, later)
  {
    forall i | 0 <= i < |zs|
      ensures 0 <= from <= zs[i].data.start <= zs[i].data.end <= later && Nested(zs[i].children, zs[i].data.start, zs[i].data.end)
    {
      NestedAt(zs, from, to, i);
    }
  }

  lemma NestedAt(zs: seq<Zone>, from: int, to: int, i: int)
    requires Nested(zs, from, to) && 0 <= i < |zs|
    ensures 0 <= from <= zs[i].data.start <= zs[i].data.end <= to && Nested(zs[i].children, zs[i].data.start, zs[i].data.end)
  {
  }

  lemma NestedMore(zs: seq<Zone>, z: Zone, from: int, to: int)
    requires Nested(zs, from, to) && 0 <= from <= z.data.start <= z.data.end <= to && Nested(z.children, z.data.start, z.data.end)
    ensures Nested(zs + [z], from, to)
  {
    var more := zs + [z];
    forall i | 0 <= i < |more|
      ensures 0 <= from <= more[i].data.start <= more[i].data.end <= to && Nested(more[i].children, more[i].data.start, more[i].data.end)
    {
      if i < |zs| {
        assert more[i] == zs[i];
        NestedAt(zs, from, to, i);
      }
    }
  }

  lemma TimeGoesOn(td: ThreadData, now: int, later: int)
    requires NestedByNow(td, now) && now <= later
    ensures NestedByNow(td, later)
  {
    NestedLater(td.timeline, 0, now, later);
    hide Nested;
    forall k | 0 <= k < |td.stack|
      ensures 0 <= td.stack[k].start <= later && Nested(td.stack[k].children, td.stack[k].start, later)
    {
      NestedLater(td.stack[k].children, td.stack[k].start, now, later);
    }
  }

  lemma NothingNested(from: int, to: int)
    ensures Nested([], from, to)
  {
  }

  lemma BeginNested(td: ThreadData, srcloc: int, now: int)
    requires NestedByNow(td, now)
    ensures NestedByNow(Begun(td, srcloc, now), now)
  {
    hide Nested, Inc;
    NothingNested(now, now);
  }

  lemma EndNested(td: ThreadData, now: int)
    requires NestedByNow(td, now) && td.stack != [] && |td.childTimeStack| == |td.stack|
    ensures NestedByNow(AfterEnd(td, now), now)
  {
    hide Nested, Dec, TimePopped;
    var last := |td.stack| - 1;
    var z := Ended(td.stack[last], now);
    if last == 0 {
      NestedMore(td.timeline, z, 0, now);
    } else {
      NestedMore(td.stack[last - 1].children, z, td.stack[last - 1].start, now);
      var stack := Closing(td.stack, now);
      forall k | 0 <= k < |stack|
        ensures stack[k].start == td.stack[k].start
        ensures 0 <= stack[k].start <= now && Nested(stack[k].children, stack[k].start, now)
      {
      }
    }
  }

  lemma HappenedNested(td: ThreadData, e: ZoneStep, now: int)
    requires NestedByNow(td, now) && now <= e.time
    ensures NestedByNow(Happened(td, e), e.time)
  {
    hide NestedByNow, Begun, AfterEnd;
    TimeGoesOn(td, now, e.time);
    match e
    case Begin(_, srcloc, time) => BeginNested(td, srcloc, time);
    case End(_, time) =>
      if td.stack != [] && |td.childTimeStack| == |td.stack| {
        EndNested(td, time);
      }
  }

  lemma MonotoneFront(events: seq<ZoneStep>)
    requires Monotone(events) && events != []
    ensures Monotone(events[..|events| - 1]) && Now(events[..|events| - 1], events[|events| - 1].thread) <= events[|events| - 1].time
  {
    var front := events[..|events| - 1];
    forall i | 0 <= i < |front|
      ensures Now(front[..i], front[i].thread) <= front[i].time
    {
      assert front[..i] == events[..i];
    }
  }

  /** In every run in which times do not go back, the zones of every thread are nested at every moment. */
  lemma {:induction false} RunIsNested(ids: seq<int>, events: seq<ZoneStep>, thread: int)
    requires Monotone(events) && 0 <= thread < |ids|
    ensures NestedByNow(After(ids, events)[thread], Now(events, thread))
    decreases |events|
  {
    hide NestedByNow, Happened, Monotone;
    if events == [] {
      NothingBegun(ids[thread]);
    } else {
      MonotoneFront(events);
      var front, e := events[..|events| - 1], events[|events| - 1];
      RunIsNested(ids, front, thread);
      if e.thread == thread {
        HappenedNested(After(ids, front)[thread], e, Now(front, thread));
      }
    }
  }

  lemma NothingBegun(id: int)
    ensures NestedByNow(ThreadData(id, [], [], [], NoCounts()), 0)
  {
  }

  /** The latest event of all. */
  function Latest(events: seq<ZoneStep>): (t: int)
    ensures t >= 0
  {
    if events == [] then 0 else
      var t := Latest(events[..|events| - 1]);
      if events[|events| - 1].time > t then events[|events| - 1].time else t
  }

  lemma {:induction false} NowIsNotLater(events: seq<ZoneStep>, thread: int)
    ensures Now(events, thread) <= Latest(events)
    decreases |events|
  {
    if events != [] {
      NowIsNotLater(events[..|events| - 1], thread);
    }
  }

  ghost predicate NoneOpen(threads: seq<ThreadData>) {
    forall t :: 0 <= t < |threads| ==> threads[t].stack == []
  }

  lemma RunIsFinished(ids: seq<int>, events: seq<ZoneStep>)
    requires Monotone(events) && NoneOpen(After(ids, events))
    ensures Finished(After(ids, events), 0, Latest(events))
  {
    hide Monotone, After, Now, Latest, Nested;
    var threads := After(ids, events);
    forall t | 0 <= t < |threads|
      ensures threads[t].stack == [] && Nested(threads[t].timeline, 0, Latest(events))
    {
      RunIsNested(ids, events, t);
      NowIsNotLater(events, t);
      NestedLater(threads[t].timeline, 0, Now(events, t), Latest(events));
    }
  }

  /** All source locations of the run are listed. */
  ghost predicate Located(events: seq<ZoneStep>, locs: seq<int>) {
    forall i :: 0 <= i < |events| && events[i].Begin? ==> events[i].srcloc in locs
  }

  ghost predicate StackLocated(td: ThreadData, locs: seq<int>) {
    forall k :: 0 <= k < |td.stack| ==> td.stack[k].srcloc in locs
  }

  lemma HappenedLocated(td: ThreadData, e: ZoneStep, locs: seq<int>)
    requires StackLocated(td, locs) && (e.Begin? ==> e.srcloc in locs)
    ensures StackLocated(Happened(td, e), locs)
  {
    hide Inc, Dec, TimePopped;
  }

  /** What ends has begun, at a location that is listed. */
  lemma EndLocated(td: ThreadData, end: int, locs: seq<int>)
    requires StackLocated(td, locs) && td.stack != []
    ensures forall i :: 0 <= i < |EndAdds(td, end)| ==> EndAdds(td, end)[i].loc in locs
  {
    hide Entered, Spans;
  }

  /** Conservation: after any run in which times do not go back and every zone is ended, the self times of all
      locations add up to the times of the outermost zones. */
  lemma SelfTotalsAddUp(live: Live, ids: seq<int>, events: seq<ZoneStep>, locs: seq<int>)
    requires live.Valid() && live.threads == After(ids, events) && Monotone(events) && NoneOpen(live.threads)
    requires forall i, j :: 0 <= i < j < |locs| ==> locs[i] != locs[j]
    requires forall i :: 0 <= i < |live.log| ==> live.log[i].loc in locs
    ensures TotalSelf(live.slz, locs) == AllSpans(live.threads)
  {
    hide *;
    RunIsFinished(ids, events);
    NestedTotalsAddUp(live, locs, 0, Latest(events));
  }

  /** The stack machine fed with a run of events. */
  method RunLive(ids: seq<int>, events: seq<ZoneStep>, ghost locs: seq<int>) returns (live: Live)
    requires OnThreads(ids, events)
    ensures fresh(live) && live.Valid() && live.threads == After(ids, events) && live.log == Logged(ids, events)
    ensures Located(events, locs) ==> forall i :: 0 <= i < |live.log| ==> live.log[i].loc in locs
  {
    hide *;
    live := new Live(ids);
    StartedIs(ids, locs);
    assert events[..0] == [];
    var i := 0;
    while i < |events|
      invariant 0 <= i <= |events| && fresh(live) && live.Valid() && live.threads == After(ids, events[..i])
      invariant live.log == Logged(ids, events[..i])
      invariant Located(events, locs) ==> (forall k :: 0 <= k < |live.log| ==> live.log[k].loc in locs)
                                          && forall t :: 0 <= t < |ids| ==> StackLocated(live.threads[t], locs)
    {
      AfterOne(ids, events, i);
      LogOne(ids, events, i);
      LogIs(live.threads, events[i]);
      IsOnThread(ids, events, i);
      var t := events[i].thread;
      ghost var td := live.threads[t];
      StepIs(td, events[i]);
      IsLocated(events, locs, i);
      if Located(events, locs) {
        HappenedLocated(td, events[i], locs);
      }
      match events[i] {
        case Begin(_, srcloc, time) =>
          live.NewZone(t, srcloc, time);
        case End(_, time) =>
          if Located(events, locs) && td.stack != [] {
            EndLocated(td, time, locs);
          }
          var ok := live.ProcessZoneEnd(t, time);
      }
      i := i + 1;
    }
    assert events[..i] == events;
  }

  lemma StartedIs(ids: seq<int>, locs: seq<int>)
    ensures Logged(ids, []) == []
    ensures After(ids, []) == seq(|ids|, i requires 0 <= i < |ids| => ThreadData(ids[i], [], [], [], NoCounts()))
    ensures forall t :: 0 <= t < |ids| ==> StackLocated(After(ids, [])[t], locs)
  {
  }

  lemma AfterOne(ids: seq<int>, events: seq<ZoneStep>, i: int)
    requires 0 <= i < |events| && OnThreads(ids, events)
    ensures var threads := After(ids, events[..i]); var t := events[i].thread;
            0 <= t < |threads| == |ids| && After(ids, events[..i + 1]) == threads[t := Happened(threads[t], events[i])]
  {
    assert events[..i + 1][..i] == events[..i];
  }

  lemma LogOne(ids: seq<int>, events: seq<ZoneStep>, i: int)
    requires 0 <= i < |events|
    ensures Logged(ids, events[..i + 1]) == Logged(ids, events[..i]) + LogOf(After(ids, events[..i]), events[i])
  {
    assert events[..i + 1][..i] == events[..i];
  }

  lemma LogIs(threads: seq<ThreadData>, e: ZoneStep)
    requires 0 <= e.thread < |threads|
    ensures LogOf(threads, e) == if e.End? && threads[e.thread].stack != [] then EndAdds(threads[e.thread], e.time) else []
  {
  }

  lemma IsOnThread(ids: seq<int>, events: seq<ZoneStep>, i: int)
    requires 0 <= i < |events| && OnThreads(ids, events)
    ensures 0 <= events[i].thread < |ids| && 0 <= events[i].time
  {
  }

  lemma IsLocated(events: seq<ZoneStep>, locs: seq<int>, i: int)
    requires 0 <= i < |events|
    ensures Located(events, locs) && events[i].Begin? ==> events[i].srcloc in locs
  {
  }

  lemma StepIs(td: ThreadData, e: ZoneStep)
    ensures e.Begin? ==> Happened(td, e) == Begun(td, e.srcloc, e.time)
    ensures e.End? && td.stack == [] ==> Happened(td, e) == td
    ensures e.End? && td.stack != [] && |td.childTimeStack| == |td.stack| ==> Happened(td, e) == AfterEnd(td, e.time)
  {
  }

  /** The forests as they would be loaded: roots for each thread and one table of child lists. */
  method LayOut(threads: seq<ThreadData>) returns (table: Table<ZoneData>, roots: seq<seq<ZoneEvent>>)
    ensures |roots| == |threads| && forall t :: 0 <= t < |threads| ==> Represents(table, roots[t], Forest(threads[t]))
  {
    hide *;
    table, roots := [], [];
    ghost var starts: seq<int> := [];
    while |roots| < |threads|
      invariant |roots| == |starts| <= |threads|
      invariant forall t :: 0 <= t < |roots| ==> LaidAt(table, starts[t], roots[t], Forest(threads[t]))
    {
      var t := |roots|;
      var laid := Laid(Forest(threads[t]), |table|);
      ghost var before := table;
      table := table + laid.1;
      forall u | 0 <= u < t
        ensures LaidAt(table, starts[u], roots[u], Forest(threads[u]))
      {
        LaidStays(before, laid.1, starts[u], roots[u], Forest(threads[u]));
      }
      LaidLast(before, Forest(threads[t]));
      starts := starts + [|before|];
      roots := roots + [laid.0];
    }
    forall t | 0 <= t < |threads|
      ensures Represents(table, roots[t], Forest(threads[t]))
    {
      LaidIs(table, starts[t], roots[t], Forest(threads[t]));
    }
  }

  ghost predicate LaidAt(table: Table<ZoneData>, idx: int, vec: seq<ZoneEvent>, zs: seq<Zone>) {
    vec == Laid(zs, idx).0 && Holds(table, idx, Laid(zs, idx).1)
  }

  lemma LaidStays(table: Table<ZoneData>, more: Table<ZoneData>, idx: int, vec: seq<ZoneEvent>, zs: seq<Zone>)
    requires LaidAt(table, idx, vec, zs)
    ensures LaidAt(table + more, idx, vec, zs)
  {
    hide Laid;
    var n := |Laid(zs, idx).1|;
    assert (table + more)[idx..idx + n] == table[idx..idx + n];
  }

  lemma LaidLast(table: Table<ZoneData>, zs: seq<Zone>)
    ensures LaidAt(table + Laid(zs, |table|).1, |table|, Laid(zs, |table|).0, zs)
  {
    hide Laid;
    var lists := Laid(zs, |table|).1;
    assert (table + lists)[|table|..|table| + |lists|] == lists;
  }

  lemma LaidIs(table: Table<ZoneData>, idx: int, vec: seq<ZoneEvent>, zs: seq<Zone>)
    requires LaidAt(table, idx, vec, zs)
    ensures Represents(table, vec, zs)
  {
    hide Laid, Represents, Holds;
    LaidRepresents(zs, idx, table);
  }
}
