/** What a closed zone adds to the statistics of its source location, and what a forest adds in all. */
module ZoneTally {
  import opened Bytes
  import opened ChildLists
  import opened Timeline

  const INT64_MAX := 0x7fff_ffff_ffff_ffff
  const INT64_MIN := -0x8000_0000_0000_0000

  /** The accumulators of one source location; zones is the number of zones listed. */
  datatype Stats = Stats(zones: int, min: int, max: int, total: int, selfMin: int, selfMax: int, selfTotal: int,
                         nonReentrantCount: int, nonReentrantMin: int, nonReentrantMax: int, nonReentrantTotal: int,
                         threadCnt: map<int, int>)

  function NoStats(): Stats {
    Stats(0, INT64_MAX, INT64_MIN, 0, INT64_MAX, INT64_MIN, 0, 0, INT64_MAX, INT64_MIN, 0, map[])
  }

  /** A zone that counts: how long it took, how long without its children, whether it was entered again
      from within another zone of its location, and on which thread. */
  datatype Closed = Closed(loc: int, span: int, self: int, reentry: bool, thread: int)

  function CountThread(m: map<int, int>, thread: int): map<int, int> {
    m[thread := if thread in m then m[thread] + 1 else 1]
  }

  lemma CountThreadCommutes(m: map<int, int>, t: int, u: int)
    ensures CountThread(CountThread(m, t), u) == CountThread(CountThread(m, u), t)
  {
  }

  function Add(s: Stats, c: Closed): Stats {
    var t := s.(zones := s.zones + 1, total := s.total + c.span, selfTotal := s.selfTotal + c.self,
                min := if s.min > c.span then c.span else s.min, max := if s.max < c.span then c.span else s.max,
                selfMin := if s.selfMin > c.self then c.self else s.selfMin,
                selfMax := if s.selfMax < c.self then c.self else s.selfMax,
                threadCnt := CountThread(s.threadCnt, c.thread));
    if c.reentry then t else
      t.(nonReentrantCount := s.nonReentrantCount + 1, nonReentrantTotal := s.nonReentrantTotal + c.span,
         nonReentrantMin := if s.nonReentrantMin > c.span then c.span else s.nonReentrantMin,
         nonReentrantMax := if s.nonReentrantMax < c.span then c.span else s.nonReentrantMax)
  }

  /** The order in which two zones are added does not matter. */
  lemma AddCommutes(s: Stats, c: Closed, d: Closed)
    ensures Add(Add(s, c), d) == Add(Add(s, d), c)
  {
    hide CountThread;
    CountThreadCommutes(s.threadCnt, c.thread, d.thread);
  }

  /** The statistics of a location after zones have been added one after the other. */
  function AddAll(s: Stats, cs: seq<Closed>, loc: int): Stats {
    if cs == [] then s
    else
      var rest := AddAll(s, cs[..|cs| - 1], loc);
      if cs[|cs| - 1].loc == loc then Add(rest, cs[|cs| - 1]) else rest
  }

  lemma {:induction false} AddAllAppend(s: Stats, p: seq<Closed>, q: seq<Closed>, loc: int)
    ensures AddAll(s, p + q, loc) == AddAll(AddAll(s, p, loc), q, loc)
    decreases |q|
  {
    if q == [] {
      assert p + q == p;
    } else {
      assert (p + q)[..|p + q| - 1] == p + q[..|q| - 1];
      AddAllAppend(s, p, q[..|q| - 1], loc);
    }
  }

  /** Adding a zone before the others is the same as adding it after them. */
  lemma {:induction false} AddFirst(s: Stats, c: Closed, cs: seq<Closed>, loc: int)
    requires c.loc == loc
    ensures AddAll(Add(s, c), cs, loc) == Add(AddAll(s, cs, loc), c)
    decreases |cs|
  {
    if cs != [] {
      AddFirst(s, c, cs[..|cs| - 1], loc);
      AddCommutes(AddAll(s, cs[..|cs| - 1], loc), c, cs[|cs| - 1]);
    }
  }

  lemma BagOfThree(u: seq<Closed>, c: Closed, v: seq<Closed>)
    ensures multiset(u + [c] + v) == multiset(u + v) + multiset{c}
  {
    assert multiset(u + [c] + v) == multiset(u) + multiset([c]) + multiset(v);
  }

  lemma SameRest(rest: seq<Closed>, c: Closed, u: seq<Closed>, v: seq<Closed>)
    requires multiset(rest + [c]) == multiset(u + [c] + v)
    ensures multiset(rest) == multiset(u + v)
  {
    BagOfThree(u, c, v);
    var a, b := multiset(rest), multiset(u + v);
    assert multiset(rest + [c]) == a + multiset{c};
    forall x
      ensures a[x] == b[x]
    {
      assert (a + multiset{c})[x] == (b + multiset{c})[x];
    }
  }

  lemma FindIn(p: seq<Closed>, q: seq<Closed>) returns (i: int)
    requires multiset(p) == multiset(q) && p != []
    ensures 0 <= i < |q| && q[i] == p[|p| - 1]
  {
    assert p[|p| - 1] in multiset(p);
    i :| 0 <= i < |q| && q[i] == p[|p| - 1];
  }

  /** The last of some zones, found among the same zones in another order. */
  lemma TakeOut(p: seq<Closed>, q: seq<Closed>) returns (u: seq<Closed>, v: seq<Closed>)
    requires multiset(p) == multiset(q) && p != []
    ensures q == u + [p[|p| - 1]] + v && multiset(p[..|p| - 1]) == multiset(u + v)
  {
    var i := FindIn(p, q);
    u, v := q[..i], q[i + 1..];
    assert q == u + [q[i]] + v;
    assert p[..|p| - 1] + [p[|p| - 1]] == p;
    SameRest(p[..|p| - 1], p[|p| - 1], u, v);
  }

  /** Only which zones were added matters, not in which order. */
  lemma {:induction false} AnyOrder(s: Stats, p: seq<Closed>, q: seq<Closed>, loc: int)
    requires multiset(p) == multiset(q)
    ensures AddAll(s, p, loc) == AddAll(s, q, loc)
    decreases |p|
  {
    if p == [] {
      assert |multiset(q)| == 0;
    } else {
      var c := p[|p| - 1];
      var u, v := TakeOut(p, q);
      AnyOrder(s, p[..|p| - 1], u + v, loc);
      AddAllAppend(s, u, v, loc);
      AddAllAppend(s, u + [c], v, loc);
      assert (u + [c])[..|u|] == u;
      if c.loc == loc {
        AddFirst(AddAll(s, u, loc), c, v, loc);
      }
    }
  }

  /** Counters of one byte for each source location, of how many zones of it are being inside of. */
  type Counts = s: seq<Byte> | |s| == 0x1_0000 witness seq(0x1_0000, _ => 0)

  function NoCounts(): Counts {
    seq(0x1_0000, _ => 0)
  }

  /** The source location as an unsigned number of two bytes. */
  function Key(loc: int): (k: int)
    ensures 0 <= k < 0x1_0000
  {
    loc % 0x1_0000
  }

  function Inc(n: Counts, loc: int): Counts {
    var count: int := n[Key(loc)];
    n[Key(loc) := (count + 1) % 256]
  }

  function Dec(n: Counts, loc: int): Counts {
    var count: int := n[Key(loc)];
    n[Key(loc) := (count + 255) % 256]
  }

  lemma DecInc(n: Counts, loc: int)
    ensures Dec(Inc(n, loc), loc) == n
  {
  }

  function Span(z: Zone): int {
    if z.data.end > z.data.start then z.data.end - z.data.start else 0
  }

  function Spans(zs: seq<Zone>): int {
    if zs == [] then 0 else Spans(zs[..|zs| - 1]) + Span(zs[|zs| - 1])
  }

  lemma SpansPush(zs: seq<Zone>, z: Zone)
    ensures Spans(zs + [z]) == Spans(zs) + Span(z)
  {
    assert (zs + [z])[..|zs|] == zs;
  }

  /** What a zone adds: nothing unless it is closed and took some time. */
  function Own(z: Zone, above: Counts, thread: int): seq<Closed> {
    if z.data.end >= 0 && z.data.end - z.data.start > 0 then
      [Closed(z.data.srcloc, z.data.end - z.data.start, z.data.end - z.data.start - Spans(z.children),
              above[Key(z.data.srcloc)] != 0, thread)]
    else []
  }

  /** What a forest adds, each zone before its children. */
  function Walk(zs: seq<Zone>, above: Counts, thread: int): (cs: seq<Closed>)
    decreases zs
  {
    if zs == [] then [] else
      Own(zs[0], above, thread) + Walk(zs[0].children, Inc(above, zs[0].data.srcloc), thread) + Walk(zs[1..], above, thread)
  }

  lemma {:induction false} WalkAppend(p: seq<Zone>, q: seq<Zone>, above: Counts, thread: int)
    ensures Walk(p + q, above, thread) == Walk(p, above, thread) + Walk(q, above, thread)
    decreases p
  {
    if p == [] {
      assert p + q == q;
    } else {
      assert (p + q)[1..] == p[1..] + q && (p + q)[0] == p[0];
      WalkAppend(p[1..], q, above, thread);
      var own, inner := Own(p[0], above, thread), Walk(p[0].children, Inc(above, p[0].data.srcloc), thread);
      Regroup(own + inner, Walk(p[1..], above, thread), Walk(q, above, thread));
    }
  }

  lemma Regroup(p: seq<Closed>, q: seq<Closed>, r: seq<Closed>)
    ensures p + q + r == p + (q + r)
  {
  }

  lemma WalkOne(z: Zone, above: Counts, thread: int)
    ensures Walk([z], above, thread) == Own(z, above, thread) + Walk(z.children, Inc(above, z.data.srcloc), thread)
  {
    var zs := [z];
    assert zs[1..] == [];
    assert Walk(zs[1..], above, thread) == [];
  }

  function SelfSum(cs: seq<Closed>): int {
    if cs == [] then 0 else SelfSum(cs[..|cs| - 1]) + cs[|cs| - 1].self
  }

  lemma {:induction false} SelfSumAppend(p: seq<Closed>, q: seq<Closed>)
    ensures SelfSum(p + q) == SelfSum(p) + SelfSum(q)
    decreases |q|
  {
    if q == [] {
      assert p + q == p;
    } else {
      assert (p + q)[..|p + q| - 1] == p + q[..|q| - 1];
      SelfSumAppend(p, q[..|q| - 1]);
    }
  }

  /** Every zone is closed and its children take place within it. */
  ghost predicate Nested(zs: seq<Zone>, from: int, to: int)
    decreases zs
  {
    forall i :: 0 <= i < |zs| ==>
      && 0 <= from <= zs[i].data.start <= zs[i].data.end <= to
      && Nested(zs[i].children, zs[i].data.start, zs[i].data.end)
  }

  lemma {:induction false} NoTimeNoSpans(zs: seq<Zone>, at: int)
    requires Nested(zs, at, at)
    ensures Spans(zs) == 0
    decreases |zs|
  {
    if zs != [] {
      var rest := zs[..|zs| - 1];
      assert forall i :: 0 <= i < |rest| ==> rest[i] == zs[i];
      NoTimeNoSpans(rest, at);
    }
  }

  lemma {:induction false} SpansFirst(zs: seq<Zone>)
    requires zs != []
    ensures Spans(zs) == Span(zs[0]) + Spans(zs[1..])
    decreases |zs|
  {
    if |zs| > 1 {
      SpansFirst(zs[..|zs| - 1]);
      assert zs[..|zs| - 1][1..] == zs[1..][..|zs| - 2];
    }
  }

  /** Conservation: the times of all zones without their children add up to the times of the outermost zones. */
  lemma {:induction false} SelfTimesAddUp(zs: seq<Zone>, above: Counts, thread: int, from: int, to: int)
    requires Nested(zs, from, to)
    ensures SelfSum(Walk(zs, above, thread)) == Spans(zs)
    decreases zs
  {
    if zs != [] {
      var z := zs[0];
      var own, inner, rest := Own(z, above, thread), Walk(z.children, Inc(above, z.data.srcloc), thread), Walk(zs[1..], above, thread);
      SelfSumAppend(own + inner, rest);
      SelfSumAppend(own, inner);
      SelfTimesAddUp(z.children, Inc(above, z.data.srcloc), thread, z.data.start, z.data.end);
      SelfTimesAddUp(zs[1..], above, thread, from, to);
      SpansFirst(zs);
      if z.data.start == z.data.end {
        NoTimeNoSpans(z.children, z.data.start);
      }
    }
  }

  /** The self times of the listed locations. */
  function TotalOver(cs: seq<Closed>, locs: seq<int>): int {
    if locs == [] then 0 else AddAll(NoStats(), cs, locs[0]).selfTotal + TotalOver(cs, locs[1..])
  }

  lemma {:induction false} TotalOverPush(cs: seq<Closed>, c: Closed, locs: seq<int>)
    requires forall i, j :: 0 <= i < j < |locs| ==> locs[i] != locs[j]
    ensures TotalOver(cs + [c], locs) == TotalOver(cs, locs) + if c.loc in locs then c.self else 0
    decreases |locs|
  {
    if locs != [] {
      assert (cs + [c])[..|cs|] == cs;
      TotalOverPush(cs, c, locs[1..]);
      assert c.loc in locs <==> c.loc == locs[0] || c.loc in locs[1..];
    }
  }

  lemma {:induction false} TotalOverNothing(locs: seq<int>)
    ensures TotalOver([], locs) == 0
  {
    if locs != [] {
      TotalOverNothing(locs[1..]);
    }
  }

  /** Self times may be added up by location first. */
  lemma {:induction false} TotalsByLocation(cs: seq<Closed>, locs: seq<int>)
    requires forall i, j :: 0 <= i < j < |locs| ==> locs[i] != locs[j]
    requires forall i :: 0 <= i < |cs| ==> cs[i].loc in locs
    ensures TotalOver(cs, locs) == SelfSum(cs)
    decreases |cs|
  {
    if cs == [] {
      TotalOverNothing(locs);
    } else {
      var last := |cs| - 1;
      TotalsByLocation(cs[..last], locs);
      TotalOverPush(cs[..last], cs[last], locs);
      assert cs == cs[..last] + [cs[last]];
    }
  }
}
