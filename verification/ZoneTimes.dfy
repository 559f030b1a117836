/** What a run of zone events records, told from the events alone. */
module ZoneTimes {
  import opened Bytes
  import opened ChildLists
  import opened Timeline
  import opened ZoneTally
  import opened ZoneStatistics
  import opened ZoneRuns

  /** Where, among the first n events, the zone began that is open on the thread with depth open ones inside of it;
      -1 if there is none. Going back, an end stands for one more zone to pass. */
  function OpenAt(events: seq<ZoneStep>, thread: int, n: nat, depth: nat): (b: int)
    requires n <= |events|
    ensures -1 <= b < n && (b >= 0 ==> events[b].Begin? && events[b].thread == thread)
  {
    if n == 0 then -1
    else if events[n - 1].thread != thread then OpenAt(events, thread, n - 1, depth)
    else if events[n - 1].End? then OpenAt(events, thread, n - 1, depth + 1)
    else if depth == 0 then n - 1
    else OpenAt(events, thread, n - 1, depth - 1)
  }

  /** How many open zones of a location, from that depth outwards. */
  function Around(events: seq<ZoneStep>, thread: int, n: nat, depth: nat, loc: int): nat
    requires n <= |events|
  {
    if n == 0 then 0
    else if events[n - 1].thread != thread then Around(events, thread, n - 1, depth, loc)
    else if events[n - 1].End? then Around(events, thread, n - 1, depth + 1, loc)
    else if depth == 0 then Around(events, thread, n - 1, 0, loc) + if Key(events[n - 1].srcloc) == Key(loc) then 1 else 0
    else Around(events, thread, n - 1, depth - 1, loc)
  }

  /** How long the zone that began at b was the innermost one of its thread. */
  function Innermost(events: seq<ZoneStep>, thread: int, n: nat, b: int): int
    requires n <= |events|
  {
    if n == 0 then 0 else
      Innermost(events, thread, n - 1, b)
      + if events[n - 1].thread == thread && OpenAt(events, thread, n - 1, 0) == b then events[n - 1].time - Now(events[..n - 1], thread) else 0
  }

  /** The record of the zone that event j ends. */
  function Told(ids: seq<int>, events: seq<ZoneStep>, j: nat): seq<Closed>
    requires j < |events| && 0 <= events[j].thread < |ids|
  {
    var thread := events[j].thread;
    var b := OpenAt(events, thread, j, 0);
    if events[j].End? && b >= 0 && events[j].time > events[b].time then
      [Closed(events[b].srcloc, events[j].time - events[b].time, Innermost(events, thread, j + 1, b),
              Around(events, thread, j, 1, events[b].srcloc) % 256 != 0, ids[thread])]
    else []
  }

  function AllTold(ids: seq<int>, events: seq<ZoneStep>, n: nat): seq<Closed>
    requires n <= |events| && OnThreads(ids, events)
  {
    if n == 0 then [] else AllTold(ids, events, n - 1) + Told(ids, events, n - 1)
  }

  /** The open zone at that depth is one that has begun and not ended. */
  ghost predicate EntryTold(events: seq<ZoneStep>, thread: int, n: nat, stack: seq<OpenZone>, d: nat)
    requires n <= |events|
  {
    var b := OpenAt(events, thread, n, d);
    if d < |stack| then b >= 0 && events[b].srcloc == stack[|stack| - 1 - d].srcloc && events[b].time == stack[|stack| - 1 - d].start
    else b == -1
  }

  function StackOf(ids: seq<int>, events: seq<ZoneStep>, n: nat, thread: int): seq<OpenZone>
    requires n <= |events| && 0 <= thread < |ids|
  {
    After(ids, events[..n])[thread].stack
  }

  lemma StackStep(ids: seq<int>, events: seq<ZoneStep>, n: nat, thread: int)
    requires n < |events| && 0 <= thread < |ids| && OnThreads(ids, events)
    ensures var e, td := events[n], After(ids, events[..n])[thread];
            After(ids, events[..n + 1])[thread] == if e.thread == thread then Happened(td, e) else td
  {
    AfterOne(ids, events, n);
  }

  lemma {:induction false} EntryIsTold(ids: seq<int>, events: seq<ZoneStep>, n: nat, thread: int, d: nat)
    requires n <= |events| && 0 <= thread < |ids| && OnThreads(ids, events)
    ensures EntryTold(events, thread, n, StackOf(ids, events, n, thread), d)
    decreases n
  {
    hide After, Happened, OnThreads, EntryTold, OpenAt, ThreadOk;
    if n == 0 {
      StartedIs(ids, []);
      assert events[..0] == [];
      NoEntry(events, thread, d);
    } else {
      StackStep(ids, events, n - 1, thread);
      var e, td := events[n - 1], After(ids, events[..n - 1])[thread];
      StepIs(td, e);
      hide AfterEnd, Begun;
      if e.thread != thread {
        EntryIsTold(ids, events, n - 1, thread, d);
        EntryElsewhere(events, thread, n - 1, td.stack, d);
      } else if e.End? {
        EntryIsTold(ids, events, n - 1, thread, d + 1);
        ThreadStaysOk(ids, events, n - 1, thread);
        TimesLength(td);
        StackAfterEnd(td, e.time);
        EntryEnds(events, thread, n - 1, td.stack, StackOf(ids, events, n, thread), d);
      } else {
        StackAfterBegin(td, e.srcloc, e.time);
        if d > 0 {
          EntryIsTold(ids, events, n - 1, thread, d - 1);
        }
        EntryBegins(events, thread, n - 1, td.stack, d);
      }
    }
  }

  lemma NoEntry(events: seq<ZoneStep>, thread: int, d: nat)
    ensures EntryTold(events, thread, 0, [], d)
  {
  }

  lemma EntryElsewhere(events: seq<ZoneStep>, thread: int, n: nat, stack: seq<OpenZone>, d: nat)
    requires n < |events| && events[n].thread != thread && EntryTold(events, thread, n, stack, d)
    ensures EntryTold(events, thread, n + 1, stack, d)
  {
  }

  lemma EntryEnds(events: seq<ZoneStep>, thread: int, n: nat, stack: seq<OpenZone>, after: seq<OpenZone>, d: nat)
    requires n < |events| && events[n].thread == thread && events[n].End? && EntryTold(events, thread, n, stack, d + 1)
    requires if stack == [] then after == [] else |after| == |stack| - 1
    requires forall k :: 0 <= k < |after| ==> after[k].srcloc == stack[k].srcloc && after[k].start == stack[k].start
    ensures EntryTold(events, thread, n + 1, after, d)
  {
  }

  lemma EntryBegins(events: seq<ZoneStep>, thread: int, n: nat, stack: seq<OpenZone>, d: nat)
    requires n < |events| && events[n].thread == thread && events[n].Begin?
    requires d > 0 ==> EntryTold(events, thread, n, stack, d - 1)
    ensures EntryTold(events, thread, n + 1, stack + [OpenZone(events[n].srcloc, events[n].time, 0, [])], d)
  {
  }

  lemma StackAfterBegin(td: ThreadData, srcloc: int, time: int)
    ensures Begun(td, srcloc, time).stack == td.stack + [OpenZone(srcloc, time, 0, [])]
    ensures Begun(td, srcloc, time).childTimeStack == td.childTimeStack + [0]
  {
  }

  /** Ending a zone leaves locations and starts of the others. */
  lemma StackAfterEnd(td: ThreadData, time: int)
    requires |td.childTimeStack| == |td.stack|
    ensures td.stack != [] ==>
              var s, times := AfterEnd(td, time).stack, AfterEnd(td, time).childTimeStack; var m := |td.stack| - 1;
              && |s| == m && (forall k :: 0 <= k < m ==> s[k].srcloc == td.stack[k].srcloc && s[k].start == td.stack[k].start)
              && |times| == m && (forall k :: 0 <= k < m - 1 ==> times[k] == td.childTimeStack[k])
              && (m > 0 ==> times[m - 1] == td.childTimeStack[m - 1] + if time > td.stack[m].start then time - td.stack[m].start else 0)
  {
  }

  lemma {:induction false} ThreadStaysOk(ids: seq<int>, events: seq<ZoneStep>, n: nat, thread: int)
    requires n <= |events| && 0 <= thread < |ids| && OnThreads(ids, events)
    ensures ThreadOk(After(ids, events[..n])[thread]) && After(ids, events[..n])[thread].id == ids[thread]
    decreases n
  {
    hide After, ThreadOk;
    if n == 0 {
      StartedIs(ids, []);
      assert events[..0] == [];
      FreshIsOk(ids[thread]);
    } else {
      StackStep(ids, events, n - 1, thread);
      ThreadStaysOk(ids, events, n - 1, thread);
      var e, td := events[n - 1], After(ids, events[..n - 1])[thread];
      hide Begun, AfterEnd;
      TimesLength(td);
      match e
      case Begin(_, srcloc, time) =>
        BegunOk(td, srcloc, time);
        KeepsId(td, srcloc, time);
      case End(_, time) =>
        if td.stack != [] {
          EndedOk(td, time);
          KeepsId(td, 0, time);
        }
    }
  }

  lemma FreshIsOk(id: int)
    ensures ThreadOk(ThreadData(id, [], [], [], NoCounts()))
  {
  }

  lemma KeepsId(td: ThreadData, srcloc: int, time: int)
    ensures Begun(td, srcloc, time).id == td.id
    ensures td.stack != [] && |td.childTimeStack| == |td.stack| ==> AfterEnd(td, time).id == td.id
  {
  }

  /** The zones of a stack that have at least that many inside of them. */
  function Outer(stack: seq<OpenZone>, d: nat): seq<OpenZone> {
    if d <= |stack| then stack[..|stack| - d] else []
  }

  lemma {:induction false} NestingSame(s: seq<OpenZone>, t: seq<OpenZone>, loc: int)
    requires |s| == |t| && forall k :: 0 <= k < |s| ==> s[k].srcloc == t[k].srcloc
    ensures Nesting(s, loc) == Nesting(t, loc)
    decreases |s|
  {
    if s != [] {
      NestingSame(s[..|s| - 1], t[..|t| - 1], loc);
    }
  }

  lemma OuterPush(stack: seq<OpenZone>, o: OpenZone, d: nat)
    ensures Outer(stack + [o], d) == if d == 0 then stack + [o] else Outer(stack, d - 1)
  {
  }

  lemma NestingPush(stack: seq<OpenZone>, o: OpenZone, loc: int)
    ensures Nesting(stack + [o], loc) == Nesting(stack, loc) + if Key(o.srcloc) == Key(loc) then 1 else 0
  {
    assert (stack + [o])[..|stack|] == stack;
  }

  /** The open zones around are those of the stack. */
  lemma {:induction false} AroundIsTold(ids: seq<int>, events: seq<ZoneStep>, n: nat, thread: int, d: nat, loc: int)
    requires n <= |events| && 0 <= thread < |ids| && OnThreads(ids, events)
    ensures Around(events, thread, n, d, loc) == Nesting(Outer(StackOf(ids, events, n, thread), d), loc)
    decreases n
  {
    hide After, Happened, OnThreads, Outer;
    if n == 0 {
      StartedIs(ids, []);
      assert events[..0] == [];
      OuterOfNothing(d);
    } else {
      StackStep(ids, events, n - 1, thread);
      var e, td := events[n - 1], After(ids, events[..n - 1])[thread];
      StepIs(td, e);
      hide AfterEnd, Begun, Nesting, Key;
      if e.thread != thread {
        AroundIsTold(ids, events, n - 1, thread, d, loc);
      } else if e.End? {
        AroundIsTold(ids, events, n - 1, thread, d + 1, loc);
        ThreadStaysOk(ids, events, n - 1, thread);
        TimesLength(td);
        OuterAfterEnd(td, e.time, d, loc);
      } else {
        StackAfterBegin(td, e.srcloc, e.time);
        OuterPush(td.stack, OpenZone(e.srcloc, e.time, 0, []), d);
        NestingPush(td.stack, OpenZone(e.srcloc, e.time, 0, []), loc);
        AroundIsTold(ids, events, n - 1, thread, if d > 0 then d - 1 else 0, loc);
        OuterAll(td.stack);
      }
    }
  }

  lemma OuterOfNothing(d: nat)
    ensures Outer([], d) == []
  {
  }

  lemma OuterAll(stack: seq<OpenZone>)
    ensures Outer(stack, 0) == stack
  {
  }

  lemma OuterAfterEnd(td: ThreadData, time: int, d: nat, loc: int)
    requires |td.childTimeStack| == |td.stack|
    ensures Nesting(Outer(if td.stack == [] then td.stack else AfterEnd(td, time).stack, d), loc) == Nesting(Outer(td.stack, d + 1), loc)
  {
    StackAfterEnd(td, time);
    hide AfterEnd, Nesting;
    if td.stack != [] {
      NestingSame(Outer(AfterEnd(td, time).stack, d), Outer(td.stack, d + 1), loc);
    }
  }

  /** A zone farther out began earlier. */
  lemma {:induction false} OuterIsEarlier(events: seq<ZoneStep>, thread: int, n: nat, d: nat, d': nat)
    requires n <= |events| && d < d' && OpenAt(events, thread, n, d') >= 0
    ensures OpenAt(events, thread, n, d') < OpenAt(events, thread, n, d)
    decreases n
  {
    if n > 0 {
      if events[n - 1].thread != thread {
        OuterIsEarlier(events, thread, n - 1, d, d');
      } else if events[n - 1].End? {
        OuterIsEarlier(events, thread, n - 1, d + 1, d' + 1);
      } else if d > 0 {
        OuterIsEarlier(events, thread, n - 1, d - 1, d' - 1);
      }
    }
  }

  lemma {:induction false} NotYetInnermost(events: seq<ZoneStep>, thread: int, n: nat, b: int)
    requires n <= |events| && b >= n
    ensures Innermost(events, thread, n, b) == 0
    decreases n
  {
    if n > 0 {
      NotYetInnermost(events, thread, n - 1, b);
    }
  }

  lemma NowStep(events: seq<ZoneStep>, n: nat, thread: int)
    requires n < |events|
    ensures Now(events[..n + 1], thread) == if events[n].thread == thread then events[n].time else Now(events[..n], thread)
  {
    assert events[..n + 1][..n] == events[..n];
  }

  lemma MonotoneUpTo(events: seq<ZoneStep>, n: nat)
    requires Monotone(events) && n <= |events|
    ensures Monotone(events[..n])
    ensures n < |events| ==> Now(events[..n], events[n].thread) <= events[n].time
  {
    forall i | 0 <= i < n
      ensures Now(events[..n][..i], events[..n][i].thread) <= events[..n][i].time
    {
      assert events[..n][..i] == events[..i];
    }
  }

  lemma StartedBefore(ids: seq<int>, events: seq<ZoneStep>, n: nat, thread: int)
    requires Monotone(events) && n <= |events| && 0 <= thread < |ids|
    ensures forall k :: 0 <= k < |StackOf(ids, events, n, thread)| ==> StackOf(ids, events, n, thread)[k].start <= Now(events[..n], thread)
  {
    hide Monotone, After, Now, Nested;
    MonotoneUpTo(events, n);
    RunIsNested(ids, events[..n], thread);
  }

  /** What the time in children leaves: from the begin of an open zone to the begin of the next one inside, or to now. */
  ghost predicate TimeTold(ids: seq<int>, events: seq<ZoneStep>, n: nat, thread: int, d: nat)
    requires n <= |events| && 0 <= thread < |ids|
  {
    var td := After(ids, events[..n])[thread];
    var k := |td.stack| - 1 - d;
    0 <= k < |td.stack| == |td.childTimeStack| ==>
      Innermost(events, thread, n, OpenAt(events, thread, n, d))
      == (if d == 0 then Now(events[..n], thread) else td.stack[k + 1].start) - td.stack[k].start - td.childTimeStack[k]
  }

  lemma {:induction false} TimeIsTold(ids: seq<int>, events: seq<ZoneStep>, n: nat, thread: int, d: nat)
    requires n <= |events| && 0 <= thread < |ids| && OnThreads(ids, events) && Monotone(events)
    ensures TimeTold(ids, events, n, thread, d)
    decreases n
  {
    hide After, Happened, OnThreads, Monotone, Now, TimeTold;
    if n == 0 {
      StartedIs(ids, []);
      assert events[..0] == [];
      NothingTold(ids, events, thread, d);
    } else {
      StackStep(ids, events, n - 1, thread);
      NowStep(events, n - 1, thread);
      MonotoneUpTo(events, n - 1);
      ThreadStaysOk(ids, events, n - 1, thread);
      var e, td := events[n - 1], After(ids, events[..n - 1])[thread];
      TimesLength(td);
      StepIs(td, e);
      hide AfterEnd, Begun, Innermost, OpenAt, ThreadOk;
      if e.thread != thread {
        TimeIsTold(ids, events, n - 1, thread, d);
        OtherThreadTold(ids, events, n - 1, thread, d);
      } else if e.End? {
        TimeIsTold(ids, events, n - 1, thread, d + 1);
        StartedBefore(ids, events, n - 1, thread);
        StackAfterEnd(td, e.time);
        EntryIsTold(ids, events, n - 1, thread, d + 1);
        EndTold(ids, events, n - 1, thread, d);
      } else {
        if d > 0 {
          TimeIsTold(ids, events, n - 1, thread, d - 1);
          EntryIsTold(ids, events, n - 1, thread, d - 1);
        }
        StackAfterBegin(td, e.srcloc, e.time);
        BeginTold(ids, events, n - 1, thread, d);
      }
    }
  }

  lemma NothingTold(ids: seq<int>, events: seq<ZoneStep>, thread: int, d: nat)
    requires 0 <= thread < |ids| && StackOf(ids, events, 0, thread) == []
    ensures TimeTold(ids, events, 0, thread, d)
  {
  }

  lemma OtherThreadTold(ids: seq<int>, events: seq<ZoneStep>, n: nat, thread: int, d: nat)
    requires n < |events| && 0 <= thread < |ids| && events[n].thread != thread && TimeTold(ids, events, n, thread, d)
    requires After(ids, events[..n + 1])[thread] == After(ids, events[..n])[thread]
    requires Now(events[..n + 1], thread) == Now(events[..n], thread)
    ensures TimeTold(ids, events, n + 1, thread, d)
  {
    hide After, Now;
  }

  lemma EndTold(ids: seq<int>, events: seq<ZoneStep>, n: nat, thread: int, d: nat)
    requires n < |events| && 0 <= thread < |ids| && events[n].thread == thread && events[n].End? && TimeTold(ids, events, n, thread, d + 1)
    requires EntryTold(events, thread, n, StackOf(ids, events, n, thread), d + 1)
    requires Now(events[..n + 1], thread) == events[n].time
    requires var td, after := After(ids, events[..n])[thread], After(ids, events[..n + 1])[thread];
             && |td.childTimeStack| == |td.stack|
             && (td.stack == [] ==> after == td)
             && (td.stack != [] ==>
                   var m := |td.stack| - 1;
                   && |after.stack| == m == |after.childTimeStack| && td.stack[m].start <= events[n].time
                   && (forall k :: 0 <= k < m ==> after.stack[k].start == td.stack[k].start)
                   && (forall k :: 0 <= k < m - 1 ==> after.childTimeStack[k] == td.childTimeStack[k])
                   && (m > 0 ==> after.childTimeStack[m - 1] ==
                                   td.childTimeStack[m - 1] + if events[n].time > td.stack[m].start then events[n].time - td.stack[m].start else 0))
    ensures TimeTold(ids, events, n + 1, thread, d)
  {
    hide After, Now;
    var td := After(ids, events[..n])[thread];
    if d + 1 < |td.stack| {
      OuterIsEarlier(events, thread, n, 0, d + 1);
      hide OpenAt;
      assert OpenAt(events, thread, n, d + 1) != OpenAt(events, thread, n, 0);
    }
  }

  lemma BeginTold(ids: seq<int>, events: seq<ZoneStep>, n: nat, thread: int, d: nat)
    requires n < |events| && 0 <= thread < |ids| && events[n].thread == thread && events[n].Begin?
    requires d > 0 ==> TimeTold(ids, events, n, thread, d - 1) && EntryTold(events, thread, n, StackOf(ids, events, n, thread), d - 1)
    requires Now(events[..n + 1], thread) == events[n].time
    requires var td, after := After(ids, events[..n])[thread], After(ids, events[..n + 1])[thread];
             && |td.childTimeStack| == |td.stack|
             && after.stack == td.stack + [OpenZone(events[n].srcloc, events[n].time, 0, [])] && after.childTimeStack == td.childTimeStack + [0]
    ensures TimeTold(ids, events, n + 1, thread, d)
  {
    hide After, Now;
    var td := After(ids, events[..n])[thread];
    if d == 0 {
      NotYetInnermost(events, thread, n, n);
    } else if 1 < d <= |td.stack| {
      OuterIsEarlier(events, thread, n, 0, d - 1);
    }
  }

  lemma ToldIs(ids: seq<int>, events: seq<ZoneStep>, j: nat, stack: seq<OpenZone>)
    requires j < |events| && 0 <= events[j].thread < |ids| && EntryTold(events, events[j].thread, j, stack, 0)
    ensures Told(ids, events, j) ==
              if events[j].End? && stack != [] && events[j].time > stack[|stack| - 1].start then
                var o, b := stack[|stack| - 1], OpenAt(events, events[j].thread, j, 0);
                [Closed(o.srcloc, events[j].time - o.start, Innermost(events, events[j].thread, j + 1, b),
                        Around(events, events[j].thread, j, 1, o.srcloc) % 256 != 0, ids[events[j].thread])]
              else []
  {
    hide Innermost, Around, OpenAt, Key;
  }

  lemma OuterOne(stack: seq<OpenZone>)
    requires stack != []
    ensures Outer(stack, 1) == stack[..|stack| - 1]
  {
  }

  lemma TimeToldIs(ids: seq<int>, events: seq<ZoneStep>, n: nat, thread: int)
    requires n <= |events| && 0 <= thread < |ids| && TimeTold(ids, events, n, thread, 0)
    ensures var td := After(ids, events[..n])[thread];
            td.stack != [] && |td.stack| == |td.childTimeStack| ==>
              Innermost(events, thread, n, OpenAt(events, thread, n, 0))
              == Now(events[..n], thread) - td.stack[|td.stack| - 1].start - td.childTimeStack[|td.stack| - 1]
  {
    hide Innermost, OpenAt, After, Now;
  }

  /** The zone that ends has the record that the events tell of it. */
  lemma RecordIsTold(ids: seq<int>, events: seq<ZoneStep>, j: nat)
    requires j < |events| && OnThreads(ids, events) && 0 <= events[j].thread < |ids| && 0 <= events[j].time
    ensures var log, told := LogOf(After(ids, events[..j]), events[j]), Told(ids, events, j);
            SameButSelf(log, told) && (Monotone(events) ==> log == told)
  {
    hide *;
    var e, thread := events[j], events[j].thread;
    var td := After(ids, events[..j])[thread];
    LogIs(After(ids, events[..j]), e);
    StackIs(ids, events, j, thread);
    EntryIsTold(ids, events, j, thread, 0);
    ToldIs(ids, events, j, td.stack);
    ThreadStaysOk(ids, events, j, thread);
    if e.End? && td.stack != [] {
      var last := |td.stack| - 1;
      var o := td.stack[last];
      AroundIsTold(ids, events, j, thread, 1, o.srcloc);
      OuterOne(td.stack);
      CountersWrap(td.stack[..last], o.srcloc);
      EndRecordIs(td, e.time);
      if Monotone(events) {
        TimeIsTold(ids, events, j, thread, 0);
        TimeToldIs(ids, events, j, thread);
        InnermostLast(events, thread, j);
      }
    }
    Alike(LogOf(After(ids, events[..j]), events[j]), Told(ids, events, j));
  }

  lemma StackIs(ids: seq<int>, events: seq<ZoneStep>, n: nat, thread: int)
    requires n <= |events| && 0 <= thread < |ids|
    ensures StackOf(ids, events, n, thread) == After(ids, events[..n])[thread].stack
  {
  }

  lemma Alike(p: seq<Closed>, q: seq<Closed>)
    requires |p| == |q| <= 1
    requires p != [] ==> p[0].loc == q[0].loc && p[0].span == q[0].span && p[0].reentry == q[0].reentry && p[0].thread == q[0].thread
    ensures SameButSelf(p, q)
  {
  }

  lemma AlikeMore(p: seq<Closed>, q: seq<Closed>, p': seq<Closed>, q': seq<Closed>)
    requires SameButSelf(p, q) && SameButSelf(p', q')
    ensures SameButSelf(p + p', q + q')
  {
  }

  ghost predicate SameButSelf(p: seq<Closed>, q: seq<Closed>) {
    |p| == |q| && forall k :: 0 <= k < |p| ==>
                     p[k].loc == q[k].loc && p[k].span == q[k].span && p[k].reentry == q[k].reentry && p[k].thread == q[k].thread
  }

  lemma EndRecordIs(td: ThreadData, end: int)
    requires ThreadOk(td) && td.stack != [] && end >= 0
    ensures var last := |td.stack| - 1; var o := td.stack[last];
            |td.childTimeStack| == |td.stack|
            && EndAdds(td, end) == if end > o.start
                                   then [Closed(o.srcloc, end - o.start, end - o.start - td.childTimeStack[last],
                                                Entered(NoCounts(), td.stack[..last])[Key(o.srcloc)] != 0, td.id)]
                                   else []
  {
  }

  lemma InnermostLast(events: seq<ZoneStep>, thread: int, n: nat)
    requires n < |events| && events[n].thread == thread
    ensures var b := OpenAt(events, thread, n, 0);
            Innermost(events, thread, n + 1, b) == Innermost(events, thread, n, b) + events[n].time - Now(events[..n], thread)
  {
  }

  /** What is recorded in a run is what its events tell: each zone that has taken time, in the order of the ends, with the
      location and the begin of the zone that its end belongs to, and entered again if its location is open around it a
      number of times that is not a multiple of 256. If times do not go back, its self time is the time it was innermost. */
  lemma {:induction false} LogIsTold(ids: seq<int>, events: seq<ZoneStep>, n: nat)
    requires n <= |events| && OnThreads(ids, events)
    ensures SameButSelf(Logged(ids, events[..n]), AllTold(ids, events, n))
    ensures Monotone(events) ==> Logged(ids, events[..n]) == AllTold(ids, events, n)
    decreases n
  {
    hide *;
    if n > 0 {
      IsOnThread(ids, events, n - 1);
      LogIsTold(ids, events, n - 1);
      LogOne(ids, events, n - 1);
      RecordIsTold(ids, events, n - 1);
      AllToldIs(ids, events, n);
      AlikeMore(Logged(ids, events[..n - 1]), AllTold(ids, events, n - 1),
                LogOf(After(ids, events[..n - 1]), events[n - 1]), Told(ids, events, n - 1));
    } else {
      assert events[..0] == [];
      StartedIs(ids, []);
      AllToldIs(ids, events, 0);
      Alike([], []);
    }
  }

  lemma AllToldIs(ids: seq<int>, events: seq<ZoneStep>, n: nat)
    requires n <= |events| && OnThreads(ids, events)
    ensures n == 0 ==> AllTold(ids, events, n) == []
    ensures n > 0 ==> 0 <= events[n - 1].thread < |ids| && AllTold(ids, events, n) == AllTold(ids, events, n - 1) + Told(ids, events, n - 1)
  {
  }

  /** A whole run: zone events, then the statistics made again from the forests. They are the ones kept while the
      events came, and they measure the zones that the events tell of; and if times did not go back and every zone
      was ended, the self times of all locations add up to the times of the outermost zones. */
  method WholeRun(ids: seq<int>, events: seq<ZoneStep>, ghost locs: seq<int>) returns (live: Live, again: Rebuilder)
    requires OnThreads(ids, events)
    ensures live.threads == After(ids, events) && forall loc :: StatsOf(again.slz, loc) == StatsOf(live.slz, loc)
    ensures Measured(again.slz, Logged(ids, events)) && SameButSelf(Logged(ids, events), AllTold(ids, events, |events|))
    ensures Monotone(events) ==> Logged(ids, events) == AllTold(ids, events, |events|)
    ensures Monotone(events) && NoneOpen(live.threads) && Located(events, locs) && (forall i, j :: 0 <= i < j < |locs| ==> locs[i] != locs[j])
            ==> TotalSelf(again.slz, locs) == AllSpans(live.threads)
  {
    hide *;
    live := RunLive(ids, events, locs);
    var table, roots := LayOut(live.threads);
    again := Rebuild(table, roots, live);
    LogIsTold(ids, events, |events|);
    assert events[..|events|] == events;
    if Monotone(events) && NoneOpen(live.threads) && Located(events, locs) && (forall i, j :: 0 <= i < j < |locs| ==> locs[i] != locs[j]) {
      SelfTotalsAddUp(live, ids, events, locs);
      SameTotals(again.slz, live.slz, locs);
    }
  }

  lemma {:induction false} SameTotals(m: map<int, Stats>, n: map<int, Stats>, locs: seq<int>)
    requires forall loc :: StatsOf(m, loc) == StatsOf(n, loc)
    ensures TotalSelf(m, locs) == TotalSelf(n, locs)
    decreases |locs|
  {
    hide StatsOf;
    if locs != [] {
      SameTotals(m, n, locs[1..]);
    }
  }
}
