/** Statistics kept while zones are being opened and closed, and the same statistics made again from a
    loaded zone forest. */
module ZoneStatistics {
  import opened Bytes
  import opened ChildLists
  import opened Timeline
  import opened ZoneTally
  import opened ZoneMeasures

  function StatsOf(m: map<int, Stats>, loc: int): Stats {
    if loc in m then m[loc] else NoStats()
  }

  /** m is what adding the zones to m0 gives. */
  ghost predicate Tallied(m: map<int, Stats>, m0: map<int, Stats>, cs: seq<Closed>) {
    forall loc :: StatsOf(m, loc) == AddAll(StatsOf(m0, loc), cs, loc)
  }

  lemma TalliedNothing(m: map<int, Stats>)
    ensures Tallied(m, m, [])
  {
  }

  lemma TalliedOne(m: map<int, Stats>, c: Closed)
    ensures Tallied(m[c.loc := Add(StatsOf(m, c.loc), c)], m, [c])
  {
    hide Add;
    var cs := [c];
    assert cs[..|cs| - 1] == [];
    forall loc
      ensures AddAll(StatsOf(m, loc), cs, loc) == if loc == c.loc then Add(StatsOf(m, loc), c) else StatsOf(m, loc)
    {
      assert AddAll(StatsOf(m, loc), [], loc) == StatsOf(m, loc);
    }
  }

  lemma TalliedMore(m: map<int, Stats>, m1: map<int, Stats>, m0: map<int, Stats>, p: seq<Closed>, q: seq<Closed>)
    requires Tallied(m1, m0, p) && Tallied(m, m1, q)
    ensures Tallied(m, m0, p + q)
  {
    hide AddAll;
    forall loc
      ensures StatsOf(m, loc) == AddAll(StatsOf(m0, loc), p + q, loc)
    {
      AddAllAppend(StatsOf(m0, loc), p, q, loc);
    }
  }

  /** The accumulators of every location are the number, sums, least and greatest of its zones. */
  ghost predicate Measured(m: map<int, Stats>, cs: seq<Closed>) {
    forall loc :: Measures(StatsOf(m, loc), AtLocation(cs, loc))
  }

  lemma TalliedMeasures(m: map<int, Stats>, m0: map<int, Stats>, p: seq<Closed>, q: seq<Closed>)
    requires Tallied(m, m0, q) && Measured(m0, p)
    ensures Measured(m, p + q)
  {
    hide Measures, AddAll, AtLocation;
    forall loc
      ensures Measures(StatsOf(m, loc), AtLocation(p + q, loc))
    {
      AddAllMeasuresMore(StatsOf(m0, loc), p, q, loc);
    }
  }

  lemma TalliedIsMeasured(m: map<int, Stats>, cs: seq<Closed>)
    requires Tallied(m, map[], cs)
    ensures Measured(m, cs)
  {
    hide Measures, AddAll, AtLocation;
    forall loc
      ensures Measures(StatsOf(m, loc), AtLocation(cs, loc))
    {
      AddAllMeasures(cs, loc);
    }
  }

  lemma SameMeasured(m: map<int, Stats>, n: map<int, Stats>, cs: seq<Closed>)
    requires Measured(m, cs) && forall loc :: StatsOf(n, loc) == StatsOf(m, loc)
    ensures Measured(n, cs)
  {
    hide Measures, StatsOf, AtLocation;
    forall loc
      ensures Measures(StatsOf(n, loc), AtLocation(cs, loc))
    {
      assert StatsOf(n, loc) == StatsOf(m, loc);
    }
  }

  class Rebuilder {
    const zoneChildren: Table<ZoneData>
    var slz: map<int, Stats>

    constructor (table: Table<ZoneData>)
      ensures zoneChildren == table && slz == map[]
    {
      zoneChildren, slz := table, map[];
    }

    /** Walks a list of zones and their children, counting in countMap which locations it is inside of. */
    method ProcessTimeline(countMap: array<Byte>, vec: seq<ZoneEvent>, thread: int, ghost zs: seq<Zone>)
      requires countMap.Length == 0x1_0000 && Represents(zoneChildren, vec, zs)
      modifies this, countMap
      ensures countMap[..] == old(countMap[..]) && Tallied(slz, old(slz), Walk(zs, old(countMap[..]), thread))
      decreases zs
    {
      hide *;
      ghost var counts: Counts := countMap[..];
      ghost var m0 := slz;
      RepresentsLength(zoneChildren, vec, zs);
      TalliedNothing(slz);
      WalkNothing(counts, thread);
      assert zs[..0] == [];
      var i := 0;
      while i < |vec|
        invariant 0 <= i <= |vec| == |zs| && countMap[..] == counts
        invariant Tallied(slz, m0, Walk(zs[..i], counts, thread))
      {
        ghost var m1, z := slz, zs[i];
        ElementRepresents(zoneChildren, vec, zs, i);
        ProcessZone(countMap, vec[i], thread, z);
        TalliedMore(slz, m1, m0, Walk(zs[..i], counts, thread), Walk([z], counts, thread));
        WalkAppend(zs[..i], [z], counts, thread);
        assert zs[..i] + [z] == zs[..i + 1];
        i := i + 1;
      }
      assert zs[..i] == zs;
    }

    method ProcessZone(countMap: array<Byte>, zone: ZoneEvent, thread: int, ghost z: Zone)
      requires countMap.Length == 0x1_0000 && ElementOf(zoneChildren, zone, z)
      modifies this, countMap
      ensures countMap[..] == old(countMap[..]) && Tallied(slz, old(slz), Walk([z], old(countMap[..]), thread))
      decreases z
    {
      hide *;
      ghost var counts: Counts := countMap[..];
      ghost var m0 := slz;
      ElementParts(zoneChildren, zone, z);
      if zone.data.end >= 0 {
        ReconstructZoneStatistics(countMap, zone, thread, z);
      } else {
        OpenAddsNothing(z, counts, thread);
        TalliedNothing(slz);
      }
      ghost var m1 := slz;
      if zone.child >= 0 {
        var k := Key(zone.data.srcloc);
        KeyRange(zone.data.srcloc);
        Increase(countMap, k);
        CountsIn(counts, zone.data.srcloc);
        ProcessTimeline(countMap, zoneChildren[zone.child], thread, z.children);
        Decrease(countMap, k);
        DecInc(counts, zone.data.srcloc);
        CountsOut(Inc(counts, zone.data.srcloc), zone.data.srcloc);
      } else {
        WalkNothing(Inc(counts, z.data.srcloc), thread);
        TalliedNothing(slz);
      }
      TalliedMore(slz, m1, m0, Own(z, counts, thread), Walk(z.children, Inc(counts, z.data.srcloc), thread));
      WalkOne(z, counts, thread);
    }

    /** Adds a closed zone to the statistics of its location. */
    method ReconstructZoneStatistics(countMap: array<Byte>, zone: ZoneEvent, thread: int, ghost z: Zone)
      requires countMap.Length == 0x1_0000 && ElementOf(zoneChildren, zone, z) && zone.data.end >= 0
      modifies this
      ensures Tallied(slz, old(slz), Own(z, countMap[..], thread))
      ensures forall cs :: Measured(old(slz), cs) ==> Measured(slz, cs + Own(z, countMap[..], thread))
    {
      hide Tallied, Represents, Add, Measured;
      ElementParts(zoneChildren, zone, z);
      if zone.child >= 0 {
        SameData(zoneChildren, zoneChildren[zone.child], z.children);
      }
      var timeSpan := zone.data.end - zone.data.start;
      if timeSpan > 0 {
        var loc := zone.data.srcloc;
        var reentry := countMap[Key(loc)] != 0;
        var children := ChildSpans(if zone.child >= 0 then zoneChildren[zone.child] else [], z.children);
        var c := Closed(loc, timeSpan, timeSpan - children, reentry, thread);
        slz := slz[loc := Add(StatsOf(slz, loc), c)];
        TalliedOne(old(slz), c);
        assert Own(z, countMap[..], thread) == [c];
      } else {
        TalliedNothing(slz);
      }
      forall cs | Measured(old(slz), cs)
        ensures Measured(slz, cs + Own(z, countMap[..], thread))
      {
        TalliedMeasures(slz, old(slz), cs, Own(z, countMap[..], thread));
      }
    }

    method ChildSpans(vec: seq<ZoneEvent>, ghost zs: seq<Zone>) returns (total: int)
      requires |vec| == |zs| && forall i :: 0 <= i < |vec| ==> vec[i].data == zs[i].data
      ensures total == Spans(zs)
    {
      hide *;
      total := 0;
      var i := 0;
      NoSpans();
      assert zs[..0] == [];
      while i < |vec|
        invariant 0 <= i <= |vec| && total == Spans(zs[..i])
      {
        SpansPush(zs[..i], zs[i]);
        SpanIs(zs[i]);
        assert zs[..i] + [zs[i]] == zs[..i + 1];
        var v := vec[i];
        var childSpan := if 0 > v.data.end - v.data.start then 0 else v.data.end - v.data.start;
        total := total + childSpan;
        i := i + 1;
      }
      assert zs[..i] == zs;
    }
  }

  lemma NoSpans()
    ensures Spans([]) == 0
  {
  }

  lemma SpanIs(z: Zone)
    ensures Span(z) == if 0 > z.data.end - z.data.start then 0 else z.data.end - z.data.start
  {
  }

  method Increase(countMap: array<Byte>, k: int)
    requires 0 <= k < countMap.Length
    modifies countMap
    ensures countMap[..] == old(countMap[..][k := (countMap[k] as int + 1) % 256])
  {
    var count: int := countMap[k];
    countMap[k] := (count + 1) % 256;
  }

  method Decrease(countMap: array<Byte>, k: int)
    requires 0 <= k < countMap.Length
    modifies countMap
    ensures countMap[..] == old(countMap[..][k := (countMap[k] as int + 255) % 256])
  {
    var count: int := countMap[k];
    countMap[k] := (count + 255) % 256;
  }

  ghost predicate ElementOf(table: Table<ZoneData>, e: ZoneEvent, z: Zone) {
    && e.data == z.data
    && if e.child < 0 then z.children == [] else e.child < |table| && Represents(table, table[e.child], z.children)
  }

  lemma ElementRepresents(table: Table<ZoneData>, vec: seq<ZoneEvent>, zs: seq<Zone>, i: int)
    requires Represents(table, vec, zs) && 0 <= i < |zs|
    ensures |vec| == |zs| && ElementOf(table, vec[i], zs[i])
  {
  }

  lemma ElementParts(table: Table<ZoneData>, e: ZoneEvent, z: Zone)
    requires ElementOf(table, e, z)
    ensures e.data == z.data
    ensures if e.child < 0 then z.children == [] else e.child < |table| && Represents(table, table[e.child], z.children)
  {
  }

  lemma SameData(table: Table<ZoneData>, vec: seq<ZoneEvent>, zs: seq<Zone>)
    requires Represents(table, vec, zs)
    ensures |vec| == |zs| && forall i :: 0 <= i < |vec| ==> vec[i].data == zs[i].data
  {
  }

  lemma WalkNothing(counts: Counts, thread: int)
    ensures Walk([], counts, thread) == []
  {
  }

  lemma OpenAddsNothing(z: Zone, counts: Counts, thread: int)
    requires z.data.end < 0
    ensures Own(z, counts, thread) == []
  {
  }

  lemma KeyRange(loc: int)
    ensures 0 <= Key(loc) < 0x1_0000
  {
  }

  lemma CountsIn(counts: Counts, loc: int)
    ensures Inc(counts, loc) == counts[Key(loc) := (counts[Key(loc)] as int + 1) % 256]
  {
  }

  lemma CountsOut(counts: Counts, loc: int)
    ensures Dec(counts, loc) == counts[Key(loc) := (counts[Key(loc)] as int + 255) % 256]
  {
  }

  /** A zone that has begun and not ended, with what has been completed inside of it. */
  datatype OpenZone = OpenZone(srcloc: int, start: int, extra: int, children: seq<Zone>)

  /** A thread as events come in. timeline holds the completed outermost zones. */
  datatype ThreadData = ThreadData(id: int, timeline: seq<Zone>, stack: seq<OpenZone>, childTimeStack: seq<int>, stackCount: Counts)

  /** The open zones as zones without an end, each the last child of the one before. */
  function OpenPath(stack: seq<OpenZone>): (zs: seq<Zone>)
    decreases |stack|
  {
    if stack == [] then [] else [Open(stack[0], OpenPath(stack[1..]))]
  }

  function Open(o: OpenZone, inner: seq<Zone>): Zone {
    Tree(ZoneData(o.srcloc, o.start, -1, o.extra), o.children + inner)
  }

  /** The zone forest of a thread at a moment. */
  function Forest(td: ThreadData): seq<Zone> {
    td.timeline + OpenPath(td.stack)
  }

  function Ended(o: OpenZone, end: int): Zone {
    Tree(ZoneData(o.srcloc, o.start, end, o.extra), o.children)
  }

  /** The counters after entering the zones of a stack. */
  function Entered(counts: Counts, stack: seq<OpenZone>): Counts
    decreases |stack|
  {
    if stack == [] then counts else Entered(Inc(counts, stack[0].srcloc), stack[1..])
  }

  lemma {:induction false} EnteredPush(counts: Counts, stack: seq<OpenZone>, o: OpenZone)
    ensures Entered(counts, stack + [o]) == Inc(Entered(counts, stack), o.srcloc)
    decreases |stack|
  {
    if stack == [] {
      assert ([] + [o])[1..] == [];
    } else {
      assert (stack + [o])[1..] == stack[1..] + [o];
      EnteredPush(Inc(counts, stack[0].srcloc), stack[1..], o);
    }
  }

  /** Entering a zone adds nothing to what a forest adds. */
  lemma {:induction false} PathPush(stack: seq<OpenZone>, o: OpenZone, above: Counts, thread: int)
    requires o.children == []
    ensures Walk(OpenPath(stack + [o]), above, thread) == Walk(OpenPath(stack), above, thread)
    decreases |stack|
  {
    if stack == [] {
      assert ([] + [o])[1..] == [] && o.children + [] == [];
      WalkOne(Open(o, []), above, thread);
    } else {
      assert (stack + [o])[1..] == stack[1..] + [o] && (stack + [o])[0] == stack[0];
      var s, inside := stack[0], Inc(above, stack[0].srcloc);
      PathPush(stack[1..], o, inside, thread);
      WalkOpen(s, OpenPath(stack[1..]), above, thread);
      WalkOpen(s, OpenPath(stack[1..] + [o]), above, thread);
    }
  }

  lemma WalkOpen(o: OpenZone, inner: seq<Zone>, above: Counts, thread: int)
    ensures Walk([Open(o, inner)], above, thread)
            == Walk(o.children, Inc(above, o.srcloc), thread) + Walk(inner, Inc(above, o.srcloc), thread)
  {
    hide Walk, Inc;
    WalkOne(Open(o, inner), above, thread);
    WalkAppend(o.children, inner, Inc(above, o.srcloc), thread);
    assert Own(Open(o, inner), above, thread) == [];
  }

  /** The stack after its last zone has ended: the zone becomes a child of the one before. */
  function Closing(stack: seq<OpenZone>, end: int): seq<OpenZone>
    requires |stack| > 1
  {
    var last := |stack| - 1;
    var o := stack[last - 1];
    stack[..last - 1] + [o.(children := o.children + [Ended(stack[last], end)])]
  }

  /** Ending the last zone adds what that zone adds by itself, and nothing else. */
  lemma {:induction false} PathEnd(stack: seq<OpenZone>, end: int, above: Counts, thread: int)
    requires |stack| > 1
    ensures var last := |stack| - 1;
            multiset(Walk(OpenPath(Closing(stack, end)), above, thread))
            == multiset(Walk(OpenPath(stack), above, thread)) + multiset(Own(Ended(stack[last], end), Entered(above, stack[..last]), thread))
    decreases |stack|
  {
    hide *;
    var last := |stack| - 1;
    var s, inside, rest := stack[0], Inc(above, stack[0].srcloc), stack[1..];
    PathStep(stack, above, thread);
    assert stack[..last] == [s] + rest[..last - 1];
    EnteredStep(above, s, rest[..last - 1]);
    if |stack| == 2 {
      EndOfTwo(s, stack[1], end, above, thread);
      assert stack == [s, stack[1]] && rest == [stack[1]] && rest[..0] == [];
    } else {
      ClosingRest(stack, end);
      PathEnd(rest, end, inside, thread);
      PathStep([s] + Closing(rest, end), above, thread);
      assert ([s] + Closing(rest, end))[1..] == Closing(rest, end);
      assert rest[|rest| - 1] == stack[last] && rest[..|rest| - 1] == rest[..last - 1];
      BagsFirst(Walk(s.children, inside, thread), Walk(OpenPath(Closing(rest, end)), inside, thread), Walk(OpenPath(rest), inside, thread),
                Own(Ended(stack[last], end), Entered(inside, rest[..last - 1]), thread));
    }
  }

  lemma BagsFirst(p: seq<Closed>, q: seq<Closed>, r: seq<Closed>, own: seq<Closed>)
    requires multiset(q) == multiset(r) + multiset(own)
    ensures multiset(p + q) == multiset(p + r) + multiset(own)
  {
  }

  lemma PathStep(stack: seq<OpenZone>, above: Counts, thread: int)
    requires stack != []
    ensures Walk(OpenPath(stack), above, thread)
            == Walk(stack[0].children, Inc(above, stack[0].srcloc), thread) + Walk(OpenPath(stack[1..]), Inc(above, stack[0].srcloc), thread)
  {
    hide Walk;
    WalkOpen(stack[0], OpenPath(stack[1..]), above, thread);
  }

  lemma EnteredStep(counts: Counts, o: OpenZone, stack: seq<OpenZone>)
    ensures Entered(counts, [o] + stack) == Entered(Inc(counts, o.srcloc), stack)
  {
    assert ([o] + stack)[1..] == stack;
  }

  /** The innermost of two zones ends. */
  lemma EndOfTwo(s: OpenZone, o: OpenZone, end: int, above: Counts, thread: int)
    ensures var inside := Inc(above, s.srcloc);
            multiset(Walk(OpenPath(Closing([s, o], end)), above, thread))
            == multiset(Walk(s.children, inside, thread) + Walk(OpenPath([o]), inside, thread))
               + multiset(Own(Ended(o, end), Entered(inside, []), thread))
  {
    var inside, z := Inc(above, s.srcloc), Ended(o, end);
    var t := s.(children := s.children + [z]);
    assert Closing([s, o], end) == [t];
    assert Entered(inside, []) == inside && OpenPath([]) == [];
    hide *;
    PathStep([t], above, thread);
    assert [t][1..] == [];
    WalkNothing(inside, thread);
    WalkAppend(s.children, [z], inside, thread);
    PathLast(o, end, inside, thread);
    Bags(Walk(s.children, inside, thread), Walk([z], inside, thread), Walk(OpenPath([o]), inside, thread), Own(z, inside, thread));
  }

  lemma ClosingRest(stack: seq<OpenZone>, end: int)
    requires |stack| > 2
    ensures Closing(stack, end) == [stack[0]] + Closing(stack[1..], end)
  {
    hide Ended;
    var last := |stack| - 1;
    assert stack[..last - 1] == [stack[0]] + stack[1..][..last - 2];
  }

  /** The same for a stack of one zone, which becomes a completed one. */
  lemma PathLast(o: OpenZone, end: int, above: Counts, thread: int)
    ensures Walk([Ended(o, end)], above, thread) == Own(Ended(o, end), above, thread) + Walk(OpenPath([o]), above, thread)
  {
    hide Walk, Own, Inc;
    assert [o][1..] == [];
    WalkOne(Ended(o, end), above, thread);
    WalkOpen(o, [], above, thread);
    WalkNothing(Inc(above, o.srcloc), thread);
    assert OpenPath([o]) == [Open(o, [])];
  }

  lemma Bags(p: seq<Closed>, q: seq<Closed>, r: seq<Closed>, own: seq<Closed>)
    requires q == own + r
    ensures multiset(p + q + []) == multiset(p + r) + multiset(own)
  {
    assert p + q + [] == p + q;
  }

  /** A thread after a zone has begun on it. */
  function Begun(td: ThreadData, srcloc: int, start: int): ThreadData {
    td.(stack := td.stack + [OpenZone(srcloc, start, 0, [])], childTimeStack := td.childTimeStack + [0],
        stackCount := Inc(td.stackCount, srcloc))
  }

  /** The parent's time in children grows by the time the zone took. */
  function TimePopped(times: seq<int>, span: int): (t: seq<int>)
    requires times != []
    ensures |t| == |times| - 1
  {
    var last := |times| - 1;
    if last > 0 && span > 0 then times[..last][last - 1 := times[last - 1] + span] else times[..last]
  }

  /** A thread after its innermost zone has ended. */
  function AfterEnd(td: ThreadData, end: int): ThreadData
    requires td.stack != [] && |td.childTimeStack| == |td.stack|
  {
    var last := |td.stack| - 1;
    var o := td.stack[last];
    var t := td.(childTimeStack := TimePopped(td.childTimeStack, end - o.start), stackCount := Dec(td.stackCount, o.srcloc));
    if last == 0 then t.(timeline := td.timeline + [Ended(o, end)], stack := []) else t.(stack := Closing(td.stack, end))
  }

  /** The bookkeeping agrees with the open zones. */
  ghost predicate ThreadOk(td: ThreadData) {
    && |td.childTimeStack| == |td.stack| && td.stackCount == Entered(NoCounts(), td.stack)
    && forall k :: 0 <= k < |td.stack| ==> td.childTimeStack[k] == Spans(td.stack[k].children)
  }

  function ThreadWalk(td: ThreadData): seq<Closed> {
    Walk(Forest(td), NoCounts(), td.id)
  }

  function WalkAll(threads: seq<ThreadData>): seq<Closed> {
    if threads == [] then [] else WalkAll(threads[..|threads| - 1]) + ThreadWalk(threads[|threads| - 1])
  }

  /** What the zone that ends now adds. */
  function EndAdds(td: ThreadData, end: int): seq<Closed>
    requires td.stack != []
  {
    var last := |td.stack| - 1;
    Own(Ended(td.stack[last], end), Entered(NoCounts(), td.stack[..last]), td.id)
  }

  lemma BegunOk(td: ThreadData, srcloc: int, start: int)
    requires ThreadOk(td)
    ensures ThreadOk(Begun(td, srcloc, start)) && ThreadWalk(Begun(td, srcloc, start)) == ThreadWalk(td)
  {
    hide Walk, Entered, Inc;
    var o := OpenZone(srcloc, start, 0, []);
    EnteredPush(NoCounts(), td.stack, o);
    assert Spans([]) == 0;
    PathPush(td.stack, o, NoCounts(), td.id);
    WalkAppend(td.timeline, OpenPath(td.stack), NoCounts(), td.id);
    WalkAppend(td.timeline, OpenPath(td.stack + [o]), NoCounts(), td.id);
  }

  lemma EndedOk(td: ThreadData, end: int)
    requires ThreadOk(td) && td.stack != []
    ensures ThreadOk(AfterEnd(td, end))
  {
    var last := |td.stack| - 1;
    var o := td.stack[last];
    assert td.stack == td.stack[..last] + [o];
    EnteredPush(NoCounts(), td.stack[..last], o);
    DecInc(Entered(NoCounts(), td.stack[..last]), o.srcloc);
    if last > 0 {
      EnteredClosing(td.stack, end, NoCounts());
      SpansPush(td.stack[last - 1].children, Ended(o, end));
      hide Entered, Dec, Spans;
      assert Span(Ended(o, end)) == if end - o.start > 0 then end - o.start else 0;
    }
  }

  /** Only locations matter for the counters, and they stay. */
  lemma EnteredClosing(stack: seq<OpenZone>, end: int, counts: Counts)
    requires |stack| > 1
    ensures Entered(counts, Closing(stack, end)) == Entered(counts, stack[..|stack| - 1])
  {
    var last := |stack| - 1;
    var o := stack[last - 1];
    EnteredPush(counts, stack[..last - 1], o);
    EnteredPush(counts, stack[..last - 1], o.(children := o.children + [Ended(stack[last], end)]));
    assert stack[..last] == stack[..last - 1] + [o];
  }

  /** Ending a zone adds to the thread's forest what the zone adds by itself. */
  lemma EndWalk(td: ThreadData, end: int)
    requires ThreadOk(td) && td.stack != []
    ensures multiset(ThreadWalk(AfterEnd(td, end))) == multiset(ThreadWalk(td)) + multiset(EndAdds(td, end))
  {
    hide Walk, Own, Inc, Dec, Entered, OpenPath, Closing, Ended, Spans, TimePopped, ThreadOk;
    assert |td.childTimeStack| == |td.stack| by { TimesLength(td); }
    var last, none := |td.stack| - 1, NoCounts();
    var o := td.stack[last];
    WalkAppend(td.timeline, OpenPath(td.stack), none, td.id);
    if last == 0 {
      assert td.stack == [o] && td.stack[..last] == [];
      EnteredNothing(none);
      WalkAppend(td.timeline, [Ended(o, end)], none, td.id);
      PathLast(o, end, none, td.id);
      PathOfNothing();
      assert Forest(AfterEnd(td, end)) == td.timeline + [Ended(o, end)];
      Bags(Walk(td.timeline, none, td.id), Walk([Ended(o, end)], none, td.id), Walk(OpenPath(td.stack), none, td.id), EndAdds(td, end));
      assert Walk(td.timeline, none, td.id) + Walk([Ended(o, end)], none, td.id) + [] == Walk(td.timeline, none, td.id) + Walk([Ended(o, end)], none, td.id);
    } else {
      PathEnd(td.stack, end, none, td.id);
      WalkAppend(td.timeline, OpenPath(Closing(td.stack, end)), none, td.id);
      BagsFirst(Walk(td.timeline, none, td.id), Walk(OpenPath(Closing(td.stack, end)), none, td.id), Walk(OpenPath(td.stack), none, td.id),
                EndAdds(td, end));
    }
  }

  lemma TimesLength(td: ThreadData)
    requires ThreadOk(td)
    ensures |td.childTimeStack| == |td.stack|
  {
  }

  lemma EnteredNothing(counts: Counts)
    ensures Entered(counts, []) == counts
  {
  }

  lemma PathOfNothing()
    ensures OpenPath([]) == []
  {
  }

  lemma {:induction false} WalkAllUpdate(threads: seq<ThreadData>, t: int, td: ThreadData, own: seq<Closed>)
    requires 0 <= t < |threads| && multiset(ThreadWalk(td)) == multiset(ThreadWalk(threads[t])) + multiset(own)
    ensures multiset(WalkAll(threads[t := td])) == multiset(WalkAll(threads)) + multiset(own)
    decreases |threads|
  {
    hide *;
    var last := |threads| - 1;
    WalkAllLast(threads);
    WalkAllLast(threads[t := td]);
    if t == last {
      assert threads[t := td][..last] == threads[..last];
      BagsFirst(WalkAll(threads[..last]), ThreadWalk(td), ThreadWalk(threads[t]), own);
    } else {
      assert threads[t := td][..last] == threads[..last][t := td];
      WalkAllUpdate(threads[..last], t, td, own);
      BagsLast(WalkAll(threads[..last][t := td]), WalkAll(threads[..last]), ThreadWalk(threads[last]), own);
    }
  }

  lemma WalkAllLast(threads: seq<ThreadData>)
    requires threads != []
    ensures WalkAll(threads) == WalkAll(threads[..|threads| - 1]) + ThreadWalk(threads[|threads| - 1])
  {
  }

  lemma BagsLast(p: seq<Closed>, q: seq<Closed>, r: seq<Closed>, own: seq<Closed>)
    requires multiset(p) == multiset(q) + multiset(own)
    ensures multiset(p + r) == multiset(q + r) + multiset(own)
  {
  }

  class Live {
    var threads: seq<ThreadData>
    var slz: map<int, Stats>
    /** The zones added so far, in the order they ended. */
    ghost var log: seq<Closed>

    /** The statistics are those of the zones that have ended, and they are what the forests add. */
    ghost predicate Valid()
      reads this
    {
      && (forall t :: 0 <= t < |threads| ==> ThreadOk(threads[t]))
      && Tallied(slz, map[], log) && multiset(log) == multiset(WalkAll(threads))
    }

    constructor (ids: seq<int>)
      ensures Valid() && slz == map[] && log == []
      ensures threads == seq(|ids|, i requires 0 <= i < |ids| => ThreadData(ids[i], [], [], [], NoCounts()))
    {
      threads := seq(|ids|, i requires 0 <= i < |ids| => ThreadData(ids[i], [], [], [], NoCounts()));
      slz := map[];
      log := [];
      new;
      NothingYet(threads);
      TalliedNothing(slz);
    }

    method NewZone(t: int, srcloc: int, start: int)
      requires Valid() && 0 <= t < |threads|
      modifies this`threads
      ensures Valid() && threads == old(threads)[t := Begun(old(threads)[t], srcloc, start)]
    {
      hide Tallied, ThreadOk, ThreadWalk, WalkAll, Inc;
      var td := threads[t];
      BegunOk(td, srcloc, start);
      WalkAllUpdate(threads, t, Begun(td, srcloc, start), []);
      var count := Inc(td.stackCount, srcloc);
      threads := threads[t := td.(stack := td.stack + [OpenZone(srcloc, start, 0, [])], childTimeStack := td.childTimeStack + [0],
                                  stackCount := count)];
    }

    /** The innermost zone of a thread ends; without one the event is an error and changes nothing. */
    method ProcessZoneEnd(t: int, timeEnd: int) returns (ok: bool)
      requires Valid() && 0 <= t < |threads| && timeEnd >= 0
      modifies this
      ensures Valid() && ok == (old(threads)[t].stack != [])
      ensures if ok then |old(threads)[t].childTimeStack| == |old(threads)[t].stack|
                         && threads == old(threads)[t := AfterEnd(old(threads)[t], timeEnd)]
                         && log == old(log) + EndAdds(old(threads)[t], timeEnd)
              else threads == old(threads) && slz == old(slz) && log == old(log)
      ensures Measured(slz, log)
    {
      hide *;
      var td := threads[t];
      Known(this, t);
      ok := td.stack != [];
      TalliedIsMeasured(slz, log);
      if !ok {
        return;
      }
      ghost var old_slz, old_log, adds := slz, log, EndAdds(td, timeEnd);
      TimesLength(td);
      EndIs(td, timeEnd);
      EndedOk(td, timeEnd);
      EndWalk(td, timeEnd);
      WalkAllUpdate(threads, t, AfterEnd(td, timeEnd), adds);
      var last := |td.stack| - 1;
      var zone, childTime := td.stack[last], td.childTimeStack[last];
      var stackCount := Dec(td.stackCount, zone.srcloc);
      var isReentry := stackCount[Key(zone.srcloc)] != 0;
      var timeSpan := timeEnd - zone.start;
      var times := td.childTimeStack[..last];
      EndRecord(td, timeEnd);
      if timeSpan > 0 {
        var c := Closed(zone.srcloc, timeSpan, timeSpan - childTime, isReentry, td.id);
        slz := slz[c.loc := Add(StatsOf(slz, c.loc), c)];
        TalliedOne(old_slz, c);
        if last > 0 {
          times := times[last - 1 := times[last - 1] + timeSpan];
        }
      } else {
        TalliedNothing(slz);
      }
      log := old_log + adds;
      TalliedMore(slz, old_slz, map[], old_log, adds);
      TalliedIsMeasured(slz, log);
      var next := td.(childTimeStack := times, stackCount := stackCount);
      if last == 0 {
        next := next.(timeline := td.timeline + [Ended(zone, timeEnd)], stack := []);
      } else {
        next := next.(stack := Closing(td.stack, timeEnd));
      }
      threads := threads[t := next];
      NowValid(this, old(threads), t);
    }
  }

  lemma Known(live: Live, t: int)
    requires live.Valid() && 0 <= t < |live.threads|
    ensures forall i :: 0 <= i < |live.threads| ==> ThreadOk(live.threads[i])
    ensures Tallied(live.slz, map[], live.log) && multiset(live.log) == multiset(WalkAll(live.threads))
  {
  }

  lemma NowValid(live: Live, before: seq<ThreadData>, t: int)
    requires 0 <= t < |before| == |live.threads| && live.threads == before[t := live.threads[t]] && ThreadOk(live.threads[t])
    requires forall i :: 0 <= i < |before| ==> ThreadOk(before[i])
    requires Tallied(live.slz, map[], live.log) && multiset(live.log) == multiset(WalkAll(live.threads))
    ensures live.Valid()
  {
    hide ThreadOk, Tallied, WalkAll;
  }

  lemma EndIs(td: ThreadData, end: int)
    requires td.stack != [] && |td.childTimeStack| == |td.stack|
    ensures var last := |td.stack| - 1; var o := td.stack[last]; var span := end - o.start;
            var times := td.childTimeStack[..last];
            var t := td.(childTimeStack := if last > 0 && span > 0 then times[last - 1 := times[last - 1] + span] else times,
                         stackCount := Dec(td.stackCount, o.srcloc));
            AfterEnd(td, end) == if last == 0 then t.(timeline := td.timeline + [Ended(o, end)], stack := []) else t.(stack := Closing(td.stack, end))
  {
    hide Dec, Ended, Closing;
  }

  lemma {:induction false} NothingYet(threads: seq<ThreadData>)
    requires forall t :: 0 <= t < |threads| ==>
               threads[t].timeline == [] && threads[t].stack == [] && threads[t].childTimeStack == [] && threads[t].stackCount == NoCounts()
    ensures WalkAll(threads) == [] && forall t :: 0 <= t < |threads| ==> ThreadOk(threads[t])
    decreases |threads|
  {
    if threads != [] {
      NothingYet(threads[..|threads| - 1]);
      assert Forest(threads[|threads| - 1]) == [];
    }
  }

  /** The record the stack machine makes of the zone that ends is the one the walk would make. */
  lemma EndRecord(td: ThreadData, end: int)
    requires ThreadOk(td) && td.stack != [] && end >= 0
    ensures var last := |td.stack| - 1; var o := td.stack[last];
            |td.childTimeStack| == |td.stack|
            && EndAdds(td, end) == if end - o.start > 0
                                   then [Closed(o.srcloc, end - o.start, end - o.start - td.childTimeStack[last],
                                                Dec(td.stackCount, o.srcloc)[Key(o.srcloc)] != 0, td.id)]
                                   else []
  {
    var last := |td.stack| - 1;
    assert td.stack == td.stack[..last] + [td.stack[last]];
    EnteredPush(NoCounts(), td.stack[..last], td.stack[last]);
    DecInc(Entered(NoCounts(), td.stack[..last]), td.stack[last].srcloc);
  }

  /** Statistics made again from loaded forests, thread by thread. They are those the stack machine had. */
  method Rebuild(table: Table<ZoneData>, roots: seq<seq<ZoneEvent>>, live: Live) returns (r: Rebuilder)
    requires live.Valid() && |roots| == |live.threads|
    requires forall t :: 0 <= t < |roots| ==> Represents(table, roots[t], Forest(live.threads[t]))
    ensures forall loc :: StatsOf(r.slz, loc) == StatsOf(live.slz, loc)
    ensures Measured(r.slz, live.log)
  {
    hide Tallied, Represents, Walk, ThreadOk, StatsOf, Forest, Measured;
    r := new Rebuilder(table);
    ghost var threads := live.threads;
    var i := 0;
    TalliedNothing(r.slz);
    assert threads[..0] == [];
    while i < |roots|
      invariant 0 <= i <= |roots| && fresh(r) && r.zoneChildren == table && Tallied(r.slz, map[], WalkAll(threads[..i]))
      invariant live.Valid() && live.threads == threads
    {
      var countMap := new Byte[0x1_0000](_ => 0);
      assert countMap[..] == NoCounts();
      ghost var m := r.slz;
      r.ProcessTimeline(countMap, roots[i], live.threads[i].id, Forest(threads[i]));
      TalliedMore(r.slz, m, map[], WalkAll(threads[..i]), ThreadWalk(threads[i]));
      assert threads[..i + 1][..i] == threads[..i];
      i := i + 1;
    }
    assert threads[..i] == threads;
    SameTally(r.slz, live.slz, WalkAll(threads), live.log);
    TalliedIsMeasured(live.slz, live.log);
    SameMeasured(live.slz, r.slz, live.log);
  }

  lemma SameTally(m: map<int, Stats>, n: map<int, Stats>, p: seq<Closed>, q: seq<Closed>)
    requires Tallied(m, map[], p) && Tallied(n, map[], q) && multiset(q) == multiset(p)
    ensures forall loc :: StatsOf(m, loc) == StatsOf(n, loc)
  {
    forall loc
      ensures StatsOf(m, loc) == StatsOf(n, loc)
    {
      AnyOrder(NoStats(), p, q, loc);
    }
  }

  /** How many of the zones belong to the same location. */
  function Nesting(stack: seq<OpenZone>, loc: int): int {
    if stack == [] then 0 else Nesting(stack[..|stack| - 1], loc) + if Key(stack[|stack| - 1].srcloc) == Key(loc) then 1 else 0
  }

  /** The counters of one byte tell whether a location has been entered before exactly as long as it has
      not been entered a multiple of 256 times. */
  lemma {:induction false} CountersWrap(stack: seq<OpenZone>, loc: int)
    ensures 0 <= Nesting(stack, loc) && Entered(NoCounts(), stack)[Key(loc)] == Nesting(stack, loc) % 256
    ensures (Entered(NoCounts(), stack)[Key(loc)] != 0 <==> Nesting(stack, loc) > 0)
            <==> Nesting(stack, loc) == 0 || Nesting(stack, loc) % 256 != 0
    decreases |stack|
  {
    if stack != [] {
      var rest, o := stack[..|stack| - 1], stack[|stack| - 1];
      CountersWrap(rest, loc);
      EnteredPush(NoCounts(), rest, o);
      assert stack == rest + [o];
    }
  }

  function AllSpans(threads: seq<ThreadData>): int {
    if threads == [] then 0 else AllSpans(threads[..|threads| - 1]) + Spans(threads[|threads| - 1].timeline)
  }

  /** No zone is open and the zones of every thread are nested in time. */
  ghost predicate Finished(threads: seq<ThreadData>, from: int, to: int) {
    forall t :: 0 <= t < |threads| ==> threads[t].stack == [] && Nested(threads[t].timeline, from, to)
  }

  lemma {:induction false} SelfSumOfAll(threads: seq<ThreadData>, from: int, to: int)
    requires Finished(threads, from, to)
    ensures SelfSum(WalkAll(threads)) == AllSpans(threads)
    decreases |threads|
  {
    if threads != [] {
      var rest, td := threads[..|threads| - 1], threads[|threads| - 1];
      SelfSumOfAll(rest, from, to);
      SelfSumAppend(WalkAll(rest), ThreadWalk(td));
      assert Forest(td) == td.timeline;
      SelfTimesAddUp(td.timeline, NoCounts(), td.id, from, to);
    }
  }

  lemma {:induction false} SelfSumAnyOrder(p: seq<Closed>, q: seq<Closed>)
    requires multiset(p) == multiset(q)
    ensures SelfSum(p) == SelfSum(q)
    decreases |p|
  {
    if p == [] {
      assert |multiset(q)| == 0;
    } else {
      var c := p[|p| - 1];
      var u, v := TakeOut(p, q);
      SelfSumAnyOrder(p[..|p| - 1], u + v);
      SelfSumAppend(u, v);
      SelfSumAppend(u + [c], v);
      assert (u + [c])[..|u|] == u;
    }
  }

  /** When everything has ended and is nested, the self times of all locations add up to the times of the
      outermost zones. */
  lemma NestedTotalsAddUp(live: Live, locs: seq<int>, from: int, to: int)
    requires live.Valid() && Finished(live.threads, from, to)
    requires forall i, j :: 0 <= i < j < |locs| ==> locs[i] != locs[j]
    requires forall i :: 0 <= i < |live.log| ==> live.log[i].loc in locs
    ensures TotalSelf(live.slz, locs) == AllSpans(live.threads)
  {
    TotalsByLocation(live.log, locs);
    SelfSumAnyOrder(live.log, WalkAll(live.threads));
    SelfSumOfAll(live.threads, from, to);
    TotalsTallied(live.slz, live.log, locs);
  }

  function TotalSelf(m: map<int, Stats>, locs: seq<int>): int {
    if locs == [] then 0 else StatsOf(m, locs[0]).selfTotal + TotalSelf(m, locs[1..])
  }

  lemma {:induction false} TotalsTallied(m: map<int, Stats>, cs: seq<Closed>, locs: seq<int>)
    requires Tallied(m, map[], cs)
    ensures TotalSelf(m, locs) == TotalOver(cs, locs)
    decreases |locs|
  {
    if locs != [] {
      TotalsTallied(m, cs, locs[1..]);
    }
  }
}
