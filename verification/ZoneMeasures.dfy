/** What the accumulators of a source location say about its zones. */
module ZoneMeasures {
  import opened ZoneTally

  /** The zones of one location. */
  function AtLocation(cs: seq<Closed>, loc: int): seq<Closed> {
    if cs == [] then [] else
      AtLocation(cs[..|cs| - 1], loc) + if cs[|cs| - 1].loc == loc then [cs[|cs| - 1]] else []
  }

  /** The zones that are not within another zone of their location. */
  function FirstEntries(cs: seq<Closed>): seq<Closed> {
    if cs == [] then [] else
      FirstEntries(cs[..|cs| - 1]) + if cs[|cs| - 1].reentry then [] else [cs[|cs| - 1]]
  }

  function OnThread(cs: seq<Closed>, thread: int): nat {
    if cs == [] then 0 else
      OnThread(cs[..|cs| - 1], thread) + if cs[|cs| - 1].thread == thread then 1 else 0
  }

  function SpansOf(cs: seq<Closed>): (r: seq<int>)
    ensures |r| == |cs|
  {
    seq(|cs|, i requires 0 <= i < |cs| => cs[i].span)
  }

  function SelfsOf(cs: seq<Closed>): (r: seq<int>)
    ensures |r| == |cs|
  {
    seq(|cs|, i requires 0 <= i < |cs| => cs[i].self)
  }

  function Sum(xs: seq<int>): int {
    if xs == [] then 0 else Sum(xs[..|xs| - 1]) + xs[|xs| - 1]
  }

  /** m is the least of the values, or none when there are no smaller ones. */
  ghost predicate Least(m: int, xs: seq<int>, none: int) {
    m <= none && (forall i :: 0 <= i < |xs| ==> m <= xs[i]) && (m == none || m in xs)
  }

  ghost predicate Greatest(m: int, xs: seq<int>, none: int) {
    m >= none && (forall i :: 0 <= i < |xs| ==> m >= xs[i]) && (m == none || m in xs)
  }

  /** The accumulators of a location whose zones are given. */
  ghost predicate Measures(s: Stats, zs: seq<Closed>) {
    && s.zones == |zs| && s.total == Sum(SpansOf(zs)) && s.selfTotal == Sum(SelfsOf(zs))
    && Least(s.min, SpansOf(zs), INT64_MAX) && Greatest(s.max, SpansOf(zs), INT64_MIN)
    && Least(s.selfMin, SelfsOf(zs), INT64_MAX) && Greatest(s.selfMax, SelfsOf(zs), INT64_MIN)
    && MeasuresFirst(s, FirstEntries(zs)) && MeasuresThreads(s.threadCnt, zs)
  }

  ghost predicate MeasuresFirst(s: Stats, zs: seq<Closed>) {
    && s.nonReentrantCount == |zs| && s.nonReentrantTotal == Sum(SpansOf(zs))
    && Least(s.nonReentrantMin, SpansOf(zs), INT64_MAX) && Greatest(s.nonReentrantMax, SpansOf(zs), INT64_MIN)
  }

  ghost predicate MeasuresThreads(threadCnt: map<int, int>, zs: seq<Closed>) {
    forall t :: (t in threadCnt <==> OnThread(zs, t) > 0) && (t in threadCnt ==> threadCnt[t] == OnThread(zs, t))
  }

  lemma LeastPush(m: int, xs: seq<int>, none: int, x: int)
    requires Least(m, xs, none)
    ensures Least(if m > x then x else m, xs + [x], none)
  {
    assert m in xs ==> m in xs + [x];
    assert (xs + [x])[|xs|] == x;
  }

  lemma GreatestPush(m: int, xs: seq<int>, none: int, x: int)
    requires Greatest(m, xs, none)
    ensures Greatest(if m < x then x else m, xs + [x], none)
  {
    assert m in xs ==> m in xs + [x];
    assert (xs + [x])[|xs|] == x;
  }

  lemma SumPush(xs: seq<int>, x: int)
    ensures Sum(xs + [x]) == Sum(xs) + x
  {
    assert (xs + [x])[..|xs|] == xs;
  }

  lemma ValuesPush(zs: seq<Closed>, c: Closed)
    ensures SpansOf(zs + [c]) == SpansOf(zs) + [c.span] && SelfsOf(zs + [c]) == SelfsOf(zs) + [c.self]
    ensures FirstEntries(zs + [c]) == FirstEntries(zs) + if c.reentry then [] else [c]
    ensures forall t :: OnThread(zs + [c], t) == OnThread(zs, t) + if c.thread == t then 1 else 0
  {
    assert (zs + [c])[..|zs|] == zs;
  }

  lemma FirstPush(s: Stats, zs: seq<Closed>, c: Closed)
    requires MeasuresFirst(s, zs) && !c.reentry
    ensures MeasuresFirst(Add(s, c), zs + [c])
  {
    hide Least, Greatest, CountThread, Sum;
    ValuesPush(zs, c);
    SumPush(SpansOf(zs), c.span);
    LeastPush(s.nonReentrantMin, SpansOf(zs), INT64_MAX, c.span);
    GreatestPush(s.nonReentrantMax, SpansOf(zs), INT64_MIN, c.span);
  }

  lemma ThreadsPush(m: map<int, int>, zs: seq<Closed>, c: Closed)
    requires MeasuresThreads(m, zs)
    ensures MeasuresThreads(CountThread(m, c.thread), zs + [c])
  {
    hide OnThread;
    ValuesPush(zs, c);
  }

  /** One zone more. */
  lemma MeasuresPush(s: Stats, zs: seq<Closed>, c: Closed)
    requires Measures(s, zs)
    ensures Measures(Add(s, c), zs + [c])
  {
    hide Least, Greatest, CountThread, Sum, MeasuresThreads, OnThread, SpansOf, SelfsOf, FirstEntries;
    ValuesPush(zs, c);
    SumPush(SpansOf(zs), c.span);
    SumPush(SelfsOf(zs), c.self);
    LeastPush(s.min, SpansOf(zs), INT64_MAX, c.span);
    GreatestPush(s.max, SpansOf(zs), INT64_MIN, c.span);
    LeastPush(s.selfMin, SelfsOf(zs), INT64_MAX, c.self);
    GreatestPush(s.selfMax, SelfsOf(zs), INT64_MIN, c.self);
    ThreadsPush(s.threadCnt, zs, c);
    if c.reentry {
      assert FirstEntries(zs) + [] == FirstEntries(zs);
    } else {
      FirstPush(s, FirstEntries(zs), c);
    }
  }

  lemma MeasuresNothing()
    ensures Measures(NoStats(), [])
  {
  }

  /** So more zones keep the measures. */
  lemma {:induction false} AddAllMeasuresMore(s: Stats, p: seq<Closed>, q: seq<Closed>, loc: int)
    requires Measures(s, AtLocation(p, loc))
    ensures Measures(AddAll(s, q, loc), AtLocation(p + q, loc))
    decreases |q|
  {
    hide Measures, Add;
    if q == [] {
      assert p + q == p;
    } else {
      var n := |q| - 1;
      AddAllMeasuresMore(s, p, q[..n], loc);
      assert (p + q)[..|p + q| - 1] == p + q[..n];
      if q[n].loc == loc {
        MeasuresPush(AddAll(s, q[..n], loc), AtLocation(p + q[..n], loc), q[n]);
      } else {
        assert AtLocation(p + q[..n], loc) + [] == AtLocation(p + q[..n], loc);
      }
    }
  }

  /** What has been added up is the number, the sum, the least and the greatest of the zones of the location. */
  lemma AddAllMeasures(cs: seq<Closed>, loc: int)
    ensures Measures(AddAll(NoStats(), cs, loc), AtLocation(cs, loc))
  {
    MeasuresNothing();
    assert [] + cs == cs;
    AddAllMeasuresMore(NoStats(), [], cs, loc);
  }

  lemma OneThreadCount(m: map<int, int>, n: map<int, int>, zs: seq<Closed>)
    requires MeasuresThreads(m, zs) && MeasuresThreads(n, zs)
    ensures m == n
  {
    hide OnThread;
    forall t
      ensures (t in m <==> t in n) && (t in m ==> m[t] == n[t])
    {
      assert OnThread(zs, t) == OnThread(zs, t);
    }
  }

  /** The measures of some zones are the only ones. */
  lemma OneMeasure(s: Stats, t: Stats, zs: seq<Closed>)
    requires Measures(s, zs) && Measures(t, zs)
    ensures s == t
  {
    hide OnThread, Sum, SpansOf, SelfsOf, FirstEntries, MeasuresThreads;
    OneThreadCount(s.threadCnt, t.threadCnt, zs);
  }
}
