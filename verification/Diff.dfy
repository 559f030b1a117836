/** The O(NP) comparison: search, replay, and the patchers that apply its result. */
module Diff {
  import opened EditScript
  import opened CommonSubsequence
  import opened Frontier
  import opened DiffTrace
  import opened Ses
  import opened UnifiedHunks
  import opened HunkCuts

  const MAX_CORDINATES_SIZE := 2000000

  /** The elements only one of the two sequences has, counted on either side, stay below the cap. */
  ghost predicate WithinCap<T>(a: seq<T>, b: seq<T>) {
    (|a| - LcsLen(a, b, |a|, |b|)) * (|b| - LcsLen(a, b, |a|, |b|)) < MAX_CORDINATES_SIZE
  }

  /** The replay of the search: script and kept elements after x steps in a and y steps in b, d of
      them deletions of a; when the inputs were exchanged the script runs from b to a. */
  ghost predicate Recorded<T>(a: seq<T>, b: seq<T>, swapped: bool, script: seq<Entry<T>>, lcs: seq<T>,
                              x: int, y: int, d: int)
  {
    && 0 <= x <= |a| && 0 <= y <= |b|
    && Source(script) == (if swapped then b[..y] else a[..x])
    && Target(script) == (if swapped then a[..x] else b[..y])
    && Commons(script) == lcs && |lcs| == x - d
    && Indexed(script)
  }

  /** From (x0, y0) to (x, y) is one edit and then a snake. */
  ghost predicate EditThenSnake<T>(a: seq<T>, b: seq<T>, x0: int, y0: int, d0: int, x: int, y: int, d: int) {
    || (d == d0 && Snake(a, b, x0, y0 + 1, x, y))
    || (d == d0 + 1 && Snake(a, b, x0 + 1, y0, x, y))
  }

  /** v lists, last first, the stops of a walk from the origin. */
  ghost predicate Walk<T>(a: seq<T>, b: seq<T>, v: seq<Point>, ds: seq<int>) {
    && |v| == |ds| > 0
    && ds[|v| - 1] == 0 && Snake(a, b, 0, 0, v[|v| - 1].x, v[|v| - 1].y)
    && forall i :: 0 <= i < |v| - 1 ==> WalkStep(a, b, v, ds, i)
  }

  ghost predicate WalkStep<T>(a: seq<T>, b: seq<T>, v: seq<Point>, ds: seq<int>, i: nat)
    requires i + 1 < |v| == |ds|
  {
    EditThenSnake(a, b, v[i + 1].x, v[i + 1].y, ds[i + 1], v[i].x, v[i].y, ds[i])
  }

  /** Between the stops: the edit is still to come, or the rest is snake. */
  ghost predicate Underway<T>(a: seq<T>, b: seq<T>, x: int, y: int, d: int, stop: Point, ds: int) {
    || EditThenSnake(a, b, x, y, d, stop.x, stop.y, ds)
    || (d == ds && Snake(a, b, x, y, stop.x, stop.y))
  }

  lemma RecordedNext<T>(a: seq<T>, b: seq<T>, swapped: bool, ses: seq<Entry<T>>, lcs: seq<T>,
                        x: int, y: int, d: int, dx: int, dy: int, deletesFirst: bool, n: nat, e: Entry<T>)
    requires Recorded(a, b, swapped, ses, lcs, x, y, d)
    requires 0 <= dx <= 1 && 0 <= dy <= 1 && dx + dy > 0 && x + dx <= |a| && y + dy <= |b|
    requires deletesFirst ==> GapFrom(ses, n)
    requires dx == 1 ==> e.elem == a[x]
    requires dy == 1 ==> e.elem == b[y]
    requires e.kind == (if dx == dy then Common else if (dx == 1) == swapped then Add else Delete)
    requires e.beforeIdx == (if e.kind == Add then 0 else (if swapped then y else x) + 1)
    requires e.afterIdx == (if e.kind == Delete then 0 else (if swapped then x else y) + 1)
    ensures Recorded(a, b, swapped, Inserted(ses, deletesFirst, n, e), lcs + (if dx == dy then [e.elem] else []),
                     x + dx, y + dy, d + (if dx > dy then 1 else 0))
  {
    hide GapFrom, Inserted, Indexed, Source, Target, Commons, Cost;
    InsertedProjections(ses, deletesFirst, n, e);
    IndexedInserted(ses, deletesFirst, n, e);
    assert dx == 1 ==> a[..x + 1] == a[..x] + [a[x]];
    assert dy == 1 ==> b[..y + 1] == b[..y] + [b[y]];
  }

  /** The number of coordinates that q rounds record. */
  function RoundsCost(delta: int, q: int): int {
    q * (delta + q)
  }

  lemma OneMoreRound(delta: int, q: int)
    ensures RoundsCost(delta, q + 1) == RoundsCost(delta, q) + delta + 2 * q + 1
    ensures RoundsCost(delta, 0) == 0
  {
  }

  lemma RoundsCostMonotone(delta: nat, q: nat, d: nat)
    requires q <= d
    ensures RoundsCost(delta, q) <= RoundsCost(delta, d)
  {
    assert q * (delta + q) <= d * (delta + q) <= d * (delta + d);
  }

  /** The entry that a replay step of dx and dy adds. */
  function NextEntry<T>(swapped: bool, elem: T, x: int, y: int, dx: int, dy: int): Entry<T> {
    var kind := if dx == dy then Common else if (dx == 1) == swapped then Add else Delete;
    Entry(elem, if kind == Add then 0 else (if swapped then y else x) + 1,
          if kind == Delete then 0 else (if swapped then x else y) + 1, kind)
  }

  /** What the next stop r (or the origin) owes to the last one collected. */
  ghost predicate ContinuesAt<T>(a: seq<T>, b: seq<T>, points: seq<Point>, dels: seq<int>, r: int, stop: Point, d: int)
    requires -1 <= r < |points| == |dels|
  {
    if r == -1 then d == 0 && Snake(a, b, 0, 0, stop.x, stop.y)
    else EditThenSnake(a, b, points[r].x, points[r].y, dels[r], stop.x, stop.y, d)
  }

  lemma WalkExtended<T>(a: seq<T>, b: seq<T>, v: seq<Point>, ds: seq<int>, stop: Point, d: int)
    requires |v| == |ds| && forall i :: 0 <= i < |v| - 1 ==> WalkStep(a, b, v, ds, i)
    requires |v| > 0 ==> EditThenSnake(a, b, stop.x, stop.y, d, v[|v| - 1].x, v[|v| - 1].y, ds[|v| - 1])
    ensures forall i :: 0 <= i < |v| ==> WalkStep(a, b, v + [stop], ds + [d], i)
  {
    forall i | 0 <= i < |v|
      ensures WalkStep(a, b, v + [stop], ds + [d], i)
    {
      assert i < |v| - 1 ==> WalkStep(a, b, v, ds, i);
    }
  }

  lemma PathOfCorner<T>(a: seq<T>, b: seq<T>, points: seq<Point>, dels: seq<int>, fp: seq<int>, path: seq<int>, p: int)
    requires Rows(a, b, fp, p, |b| - |a| + 1, |b| - |a|) && p == MinDeletes(a, b, |a|, |b|)
    requires Links(a, b, points, dels, fp, path, p, |b| - |a| + 1, |b| - |a|)
    ensures |path| == |a| + |b| + 3 && ValidNodes(a, b, points, dels) && |points| == |dels|
    ensures var r := path[|b| + 1];
            0 <= r < |points| && points[r].x == |a| && points[r].y == |b| && dels[r] <= p
  {
    CornerLevel(a, b);
    CornerSeen(a, b, fp, p);
    assert Linked(points, dels, |b| - |a|, LevelOf(p, |b| - |a| + 1, |b| - |a|, |b| - |a|), |b| - |a|, fp[|b| + 1], path[|b| + 1]);
  }

  lemma RecordedInGrid<T>(a: seq<T>, b: seq<T>, swapped: bool, script: seq<Entry<T>>, lcs: seq<T>, x: int, y: int, d: int)
    requires Recorded(a, b, swapped, script, lcs, x, y, d)
    ensures 0 <= x <= |a| && 0 <= y <= |b|
  {
  }

  lemma EditInGrid<T>(a: seq<T>, b: seq<T>, x: int, y: int, d: int, stop: Point, ds: int)
    requires 0 <= x <= |a| && 0 <= y <= |b|
    requires Underway(a, b, x, y, d, stop, ds) && (x < stop.x || y < stop.y)
    ensures stop.y - stop.x >= y - x ==> y < |b|
    ensures stop.y - stop.x > y - x ==> Underway(a, b, x, y + 1, d, stop, ds)
    ensures stop.y - stop.x <= y - x ==> x < |a|
    ensures stop.y - stop.x < y - x ==> Underway(a, b, x + 1, y, d + 1, stop, ds)
    ensures stop.y - stop.x == y - x ==> a[x] == b[y] && Underway(a, b, x + 1, y + 1, d, stop, ds)
  {
    if stop.y - stop.x == y - x {
      assert a[x] == a[x..stop.x][0] == b[y..stop.y][0] == b[y];
      assert a[x + 1..stop.x] == a[x..stop.x][1..] && b[y + 1..stop.y] == b[y..stop.y][1..];
    }
  }

  lemma UnderwayBound<T>(a: seq<T>, b: seq<T>, x: int, y: int, d: int, stop: Point, ds: int)
    requires Underway(a, b, x, y, d, stop, ds)
    ensures x <= stop.x && y <= stop.y
    ensures x == stop.x && y == stop.y ==> d == ds
  {
  }

  /** Having reached stop i, the replay is on its way to the one before it in the list. */
  lemma Arrived<T>(a: seq<T>, b: seq<T>, v: seq<Point>, ds: seq<int>, i: nat, x: int, y: int, d: int)
    requires Walk(a, b, v, ds) && i <= |v|
    requires i < |v| ==> x == v[i].x && y == v[i].y && d == ds[i]
    requires i == |v| ==> x == y == d == 0
    ensures i > 0 ==> Underway(a, b, x, y, d, v[i - 1], ds[i - 1])
  {
    assert 0 < i < |v| ==> WalkStep(a, b, v, ds, i - 1);
  }

  lemma NothingRecorded<T>(a: seq<T>, b: seq<T>, swapped: bool)
    ensures Recorded(a, b, swapped, [], [], 0, 0, 0)
  {
  }

  /** The level of the far corner, in terms of the inputs as they were given. */
  lemma CornerIsLcs<T>(a: seq<T>, b: seq<T>, swapped: bool)
    requires |a| <= |b|
    ensures var (s, t) := if swapped then (b, a) else (a, b);
            var l := LcsLen(s, t, |s|, |t|);
            && |b| - |a| + 2 * MinDeletes(a, b, |a|, |b|) == |s| + |t| - 2 * l
            && RoundsCost(|b| - |a|, MinDeletes(a, b, |a|, |b|)) == (|s| - l) * (|t| - l)
  {
    hide LcsLen;
    LcsSymmetric(a, b, |a|, |b|);
  }

  lemma ReplayIsBest<T(!new)>(a: seq<T>, b: seq<T>, swapped: bool, script: seq<Entry<T>>, lcs: seq<T>, d: int)
    requires |a| <= |b| && Recorded(a, b, swapped, script, lcs, |a|, |b|, d) && d <= MinDeletes(a, b, |a|, |b|)
    ensures var (s, t) := if swapped then (b, a) else (a, b);
            && IsScript(script, s, t)
            && Cost(script) == |b| - |a| + 2 * MinDeletes(a, b, |a|, |b|)
            && Commons(script) == lcs
            && Indexed(script)
            && IsLongestCommon(lcs, s, t)
  {
    hide LcsLen, Without, Only, Subsequence, Indexed, IsLongestCommon;
    var (s, t) := if swapped then (b, a) else (a, b);
    assert a[..|a|] == a && b[..|b|] == b;
    LcsSymmetric(a, b, |a|, |b|);
    ScriptBound(script, s, t);
    Accounting(script);
    CommonsAreSubsequence(script);
    LcsLenIsLongest(lcs, s, t);
  }

  class Diff<T(==, !new)> {
    var A: seq<T>
    var B: seq<T>
    var M: nat
    var N: nat
    var delta: nat
    var offset: nat
    var fp: array<int>
    var editDistance: int
    var lcs: seq<T>
    const ses: Ses<T>
    var path: array<int>
    var pathCordinates: seq<Point>
    var swapped: bool
    const editDistanceOnly: bool
    var uniHunks: seq<UniHunk<T>>
    ghost var dels: seq<int>

    /** The two inputs in the order they were given. */
    ghost function Before(): seq<T> reads this { if swapped then B else A }

    ghost function After(): seq<T> reads this { if swapped then A else B }

    ghost predicate Initialized()
      reads this
    {
      M == |A| && N == |B| && M <= N && delta == N - M && offset == M + 1
    }

    constructor (a: seq<T>, b: seq<T>, deletesFirst: bool, editDistanceOnly: bool)
      ensures Initialized() && Before() == a && After() == b && this.editDistanceOnly == editDistanceOnly
      ensures fresh(ses) && ses.Valid() && ses.sequence == [] && ses.deletesFirst == deletesFirst
      ensures editDistance == 0 && lcs == [] && pathCordinates == [] && uniHunks == []
      ensures swapped <==> |a| >= |b|
    {
      A, B := a, b;
      M, N := |a|, |b|;
      swapped := false;
      if |a| >= |b| {
        A, B := b, a;
        M, N := |b|, |a|;
        swapped := true;
      }
      editDistance := 0;
      delta := if |a| >= |b| then |a| - |b| else |b| - |a|;
      offset := (if |a| >= |b| then |b| else |a|) + 1;
      ses := new Ses(deletesFirst);
      fp, path := new int[0], new int[0];
      pathCordinates, lcs, dels, uniHunks := [], [], [], [];
      this.editDistanceOnly := editDistanceOnly;
    }

    ghost predicate Searching(p: int, lo: int, hi: int)
      reads this, fp, path
    {
      && Initialized() && fp != path
      && Rows(A, B, fp[..], p, lo, hi)
      && path.Length == fp.Length
      && (if editDistanceOnly then pathCordinates == [] else Links(A, B, pathCordinates, dels, fp[..], path[..], p, lo, hi))
    }

    /** The search of one diagonal: extend the better neighbour along its snake and record where it
        ends. */
    method FollowSnake(k: int, above: int, below: int) returns (y: int)
      requires Initialized() && path.Length == M + N + 3
      requires 0 <= k - 1 + offset && k + 1 + offset < path.Length
      requires InGrid(A, B, (if above > below then above else below) - k, if above > below then above else below)
      modifies this`pathCordinates, path
      ensures var y0 := if above > below then above else below; Snake(A, B, y0 - k, y0, y - k, y)
      ensures y - k == M || y == N || A[y - k] != B[y]
      ensures path[..] == old(path[..])[k + offset := |old(pathCordinates)|]
      ensures pathCordinates ==
              old(pathCordinates) +
              if editDistanceOnly then []
              else [Point(y - k, y, if above > below then old(path[k - 1 + offset]) else old(path[k + 1 + offset]))]
    {
      hide Snake, InGrid;
      var r := if above > below then path[k - 1 + offset] else path[k + 1 + offset];
      y := if above > below then above else below;
      var x := y - k;
      ghost var y0 := y;
      NoSnakeYet(A, B, y0 - k, y0);
      while x < M && y < N && (if swapped then B[y] == A[x] else A[x] == B[y])
        invariant x == y - k && 0 <= x <= M && 0 <= y <= N && Snake(A, B, y0 - k, y0, x, y)
        invariant path[..] == old(path[..]) && pathCordinates == old(pathCordinates)
      {
        SnakeGrows(A, B, y0 - k, y0, x, y);
        x := x + 1;
        y := y + 1;
      }
      path[k + offset] := |pathCordinates|;
      if !editDistanceOnly {
        pathCordinates := pathCordinates + [Point(x, y, r)];
      }
    }

    method Advance(p: int, k: int, ghost lo: int, ghost hi: int)
      requires Searching(p, lo, hi) && Turn(delta, N + 1, p, lo, hi, k)
      requires 0 <= p <= MinDeletes(A, B, M, N)
      modifies this`pathCordinates, this`dels, fp, path
      ensures Searching(p, NextLo(lo, k), NextHi(lo, hi, k))
      ensures |pathCordinates| == |old(pathCordinates)| + if editDistanceOnly then 0 else 1
    {
      hide MinDeletes, Snake, Rows, Links;
      ghost var fp0, path0, points0 := fp[..], path[..], pathCordinates;
      ReadyToAdvance(A, B, fp0, p, lo, hi, k);
      var y := FollowSnake(k, fp[k - 1 + offset] + 1, fp[k + 1 + offset]);
      RowsAdvance(A, B, fp0, p, lo, hi, k, y);
      if !editDistanceOnly {
        ghost var d := LinksAdvance(A, B, points0, dels, fp0, path0, p, lo, hi, k, y);
        dels := dels + [d];
      }
      fp[k + offset] := y;
      assert fp[..] == fp0[k + M + 1 := y];
    }

    method Round(p: int)
      requires Searching(p - 1, delta + 1, delta) && 0 <= p <= MinDeletes(A, B, M, N)
      modifies this`pathCordinates, this`dels, fp, path
      ensures Searching(p, delta + 1, delta)
      ensures |pathCordinates| == |old(pathCordinates)| + if editDistanceOnly then 0 else delta + 2 * p + 1
    {
      hide MinDeletes, Rows, Links;
      Reread(A, B, pathCordinates, dels, fp[..], path[..], p - 1, delta + 1, delta, p, -p, N + 1);
      var k := -p;
      while k <= delta - 1
        invariant -p <= k <= delta && Searching(p, k, N + 1)
        invariant |pathCordinates| == |old(pathCordinates)| + if editDistanceOnly then 0 else k + p
      {
        Advance(p, k, k, N + 1);
        k := k + 1;
      }
      Reread(A, B, pathCordinates, dels, fp[..], path[..], p, delta, N + 1, p, delta, delta + p);
      k := delta + p;
      while k >= delta + 1
        invariant delta <= k <= delta + p && Searching(p, delta, k)
        invariant |pathCordinates| == |old(pathCordinates)| + if editDistanceOnly then 0 else delta + p + (delta + p - k)
      {
        Advance(p, k, delta, k);
        k := k - 1;
      }
      Advance(p, delta, delta, delta);
    }

    method ResetFrontier()
      requires Initialized() && pathCordinates == []
      modifies this`fp, this`path, this`dels
      ensures fresh(fp) && fresh(path) && Searching(-1, delta + 1, delta)
    {
      hide Links, Rows, MinDeletes;
      fp := new int[M + N + 3](_ => -1);
      path := new int[M + N + 3](_ => -1);
      dels := [];
      StartOfSearch(A, B, fp[..], path[..]);
    }

    /** The search: rounds until the last diagonal reaches the far corner or the coordinates run
        out. */
    method Search() returns (p: int)
      requires Initialized() && pathCordinates == []
      modifies this`fp, this`path, this`pathCordinates, this`dels
      ensures fresh(fp) && fresh(path)
      ensures p >= 0 && Searching(p, delta + 1, delta)
      ensures var d := MinDeletes(A, B, M, N);
              if editDistanceOnly || RoundsCost(delta, d) < MAX_CORDINATES_SIZE then p == d else p < d
    {
      hide Links, Rows, MinDeletes, RoundsCost;
      OneMoreRound(delta, 0);
      CornerLevel(A, B);
      ghost var d := MinDeletes(A, B, M, N);
      p := -1;
      ResetFrontier();
      var again := true;
      while again
        invariant fresh(fp) && fresh(path) && Searching(p, delta + 1, delta)
        invariant -1 <= p <= d && (again ==> p < d) && (!again ==> p >= 0)
        invariant |pathCordinates| == if editDistanceOnly then 0 else RoundsCost(delta, p + 1)
        invariant !editDistanceOnly && p >= 0 ==> RoundsCost(delta, p) < MAX_CORDINATES_SIZE
        invariant again && !editDistanceOnly ==> |pathCordinates| < MAX_CORDINATES_SIZE
        invariant !again && p < d ==> |pathCordinates| >= MAX_CORDINATES_SIZE
        decreases d - p, again
      {
        p := p + 1;
        Round(p);
        OneMoreRound(delta, p);
        CornerSeen(A, B, fp[..], p);
        again := fp[delta + offset] != N && |pathCordinates| < MAX_CORDINATES_SIZE;
      }
      if p < d {
        RoundsCostMonotone(delta, p + 1, d);
      }
    }

    /** The stops of the best path, last first, by following the back-pointers. */
    method CollectStops(p: int) returns (v: seq<Point>, ghost ds: seq<int>)
      requires Searching(p, delta + 1, delta) && !editDistanceOnly && p == MinDeletes(A, B, M, N)
      ensures Walk(A, B, v, ds) && v[0].x == M && v[0].y == N && ds[0] <= p
    {
      hide Rows, MinDeletes, Links, Snake;
      PathOfCorner(A, B, pathCordinates, dels, fp[..], path[..], p);
      var r := path[delta + offset];
      ghost var r0 := r;
      v, ds := [], [];
      while r != -1
        invariant -1 <= r < |pathCordinates| == |dels| && ValidNodes(A, B, pathCordinates, dels)
        invariant |v| == |ds| && (|v| == 0 ==> r == r0)
        invariant |v| > 0 ==> v[0] == pathCordinates[r0] && ds[0] == dels[r0]
        invariant forall i :: 0 <= i < |v| - 1 ==> WalkStep(A, B, v, ds, i)
        invariant |v| > 0 ==> ContinuesAt(A, B, pathCordinates, dels, r, v[|v| - 1], ds[|v| - 1])
        decreases r
      {
        assert ValidNode(A, B, pathCordinates, dels, r);
        WalkExtended(A, B, v, ds, pathCordinates[r], dels[r]);
        v, ds := v + [pathCordinates[r]], ds + [dels[r]];
        r := pathCordinates[r].k;
      }
    }

    /** One entry of the replay towards a stop. */
    method RecordEdit(px: int, py: int, ghost d: int, stop: Point, ghost ds: int)
      returns (qx: int, qy: int, ghost e: int)
      requires Initialized() && ses.Valid()
      requires Recorded(A, B, swapped, ses.sequence, lcs, px, py, d)
      requires Underway(A, B, px, py, d, stop, ds) && (px < stop.x || py < stop.y)
      modifies this`lcs, ses
      ensures ses.Valid()
      ensures Recorded(A, B, swapped, ses.sequence, lcs, qx, qy, e)
      ensures Underway(A, B, qx, qy, e, stop, ds)
      ensures px <= qx && py <= qy && px + py < qx + qy
    {
      hide Recorded, Inserted, GapFrom, AllOf, DeletesFirst, Underway;
      ghost var script, mark, kept := ses.sequence, ses.nextDeleteIdx, lcs;
      RecordedInGrid(A, B, swapped, script, kept, px, py, d);
      EditInGrid(A, B, px, py, d, stop, ds);
      var elem: T;
      if stop.y - stop.x > py - px {
        elem := B[py];
        if !swapped {
          ses.AddSequence(elem, 0, py + 1, Add);
        } else {
          ses.AddSequence(elem, py + 1, 0, Delete);
        }
        qx, qy, e := px, py + 1, d;
      } else if stop.y - stop.x < py - px {
        elem := A[px];
        if !swapped {
          ses.AddSequence(elem, px + 1, 0, Delete);
        } else {
          ses.AddSequence(elem, 0, px + 1, Add);
        }
        qx, qy, e := px + 1, py, d + 1;
      } else {
        if !swapped {
          elem := A[px];
          lcs := lcs + [elem];
          ses.AddSequence(elem, px + 1, py + 1, Common);
        } else {
          elem := B[py];
          lcs := lcs + [elem];
          ses.AddSequence(elem, py + 1, px + 1, Common);
        }
        qx, qy, e := px + 1, py + 1, d;
      }
      RecordedNext(A, B, swapped, script, kept, px, py, d, qx - px, qy - py, ses.deletesFirst, mark,
                   NextEntry(swapped, elem, px, py, qx - px, qy - py));
      assert kept + [] == kept;
    }

    /** Replays the stops into a script and the elements both inputs keep. */
    method RecordSequence(v: seq<Point>, ghost ds: seq<int>) returns (complete: bool)
      requires Initialized() && ses.Valid() && ses.sequence == [] && lcs == []
      requires Walk(A, B, v, ds) && v[0].x == M && v[0].y == N
      modifies this`lcs, ses
      ensures ses.Valid() && complete
      ensures Recorded(A, B, swapped, ses.sequence, lcs, M, N, ds[0])
    {
      hide Recorded, Underway;
      NothingRecorded(A, B, swapped);
      var px, py := 0, 0;
      ghost var d := 0;
      var i := |v| - 1;
      Arrived(A, B, v, ds, |v|, 0, 0, 0);
      var finished := false;
      while !finished
        invariant 0 <= i < |v| && ses.Valid()
        invariant Recorded(A, B, swapped, ses.sequence, lcs, px, py, d)
        invariant finished ==> px == M && py == N && d == ds[0]
        invariant !finished ==> Underway(A, B, px, py, d, v[i], ds[i])
        decreases i, !finished
      {
        while px < v[i].x || py < v[i].y
          invariant ses.Valid()
          invariant Recorded(A, B, swapped, ses.sequence, lcs, px, py, d)
          invariant Underway(A, B, px, py, d, v[i], ds[i])
          decreases v[i].x - px + v[i].y - py
        {
          px, py, d := RecordEdit(px, py, d, v[i], ds[i]);
          UnderwayBound(A, B, px, py, d, v[i], ds[i]);
        }
        UnderwayBound(A, B, px, py, d, v[i], ds[i]);
        Arrived(A, B, v, ds, i, px, py, d);
        if i == 0 {
          finished := true;
        } else {
          i := i - 1;
        }
      }
      complete := px + 1 > M && py + 1 > N;
    }

    /** The whole comparison. It completes exactly when the coordinates it may record are enough;
        then it has found the edit distance and, unless only that was asked for, a shortest script
        and a longest common subsequence. */
    method Compose() returns (complete: bool)
      requires Initialized() && ses.Valid() && ses.sequence == []
      requires editDistance == 0 && lcs == [] && pathCordinates == []
      modifies this`fp, this`path, this`pathCordinates, this`dels, this`editDistance, this`lcs, ses
      ensures ses.Valid()
      ensures complete <==> editDistanceOnly || WithinCap(Before(), After())
      ensures complete ==> IsDistance(editDistance, Before(), After())
      ensures complete && !editDistanceOnly ==>
                && IsScript(ses.sequence, Before(), After())
                && Cost(ses.sequence) == editDistance
                && Indexed(ses.sequence)
                && Commons(ses.sequence) == lcs
                && IsLongestCommon(lcs, Before(), After())
    {
      hide MinDeletes, Recorded, Rows, Links, LcsLen, IsDistance, IsLongestCommon, IsScript;
      CornerLevel(A, B);
      CornerIsLcs(A, B, swapped);
      var p := Search();
      editDistance := editDistance + delta + 2 * p;
      if editDistanceOnly {
        DistanceIsLcs(Before(), After());
        return true;
      }
      CornerSeen(A, B, fp[..], p);
      if fp[delta + offset] != N {
        return false;
      }
      var v; ghost var ds;
      v, ds := CollectStops(p);
      complete := RecordSequence(v, ds);
      DistanceIsLcs(Before(), After());
      ReplayIsBest(A, B, swapped, ses.sequence, lcs, ds[0]);
    }

    /** How many of the three entries from i on are commons. */
    method CountCommons(script: seq<Entry<T>>, i: nat) returns (cnt: int)
      requires i < |script|
      ensures cnt <= DTL_SEPARATE_SIZE && (cnt == DTL_SEPARATE_SIZE <==> Ahead(script, i, DTL_SEPARATE_SIZE))
    {
      cnt := 0;
      var j := 0;
      while j < DTL_SEPARATE_SIZE && i + j < |script|
        invariant 0 <= j <= DTL_SEPARATE_SIZE && cnt <= j && i + j <= |script|
        invariant cnt == j <==> Ahead(script, i, j)
      {
        if script[i + j].kind == Common {
          cnt := cnt + 1;
        }
        j := j + 1;
      }
    }

    /** Cuts the script into unified-format hunks. */
    method ComposeUnifiedHunks()
      requires Indexed(ses.sequence) && uniHunks == []
      modifies this`uniHunks
      ensures Describes(uniHunks, Source(ses.sequence), Target(ses.sequence))
      ensures CutFrom(uniHunks, ses.sequence)
    {
      hide Indexed, Layout, Laid, Consistent, Cutting, Due, Take, Emit, Describes, CutFrom, Source, Target, AllCommon;
      var script := ses.sequence;
      var w := NoWork<T>();
      ghost var gaps, skip: seq<Entry<T>> := [], [];
      var i := 0;
      NothingRead(script, swapped);
      CuttingStarts(script);
      assert AllCommon(skip) by { CommonNothing<T>(); }
      while i < |script|
        invariant 0 <= i <= |script| && !w.isAfter
        invariant |uniHunks| == |gaps| && Layout(uniHunks, gaps) && AllCommon(skip)
        invariant Consistent(script, i, swapped, Laid(uniHunks, gaps) + skip, w)
        invariant Cutting(script, i, uniHunks, gaps, skip, w)
        invariant w.common0 == [] ==> skip == [] && (uniHunks != [] ==> !w.isMiddle)
        invariant w.common0 == [] && uniHunks != [] && i < |script| ==> script[i].kind == Common
        invariant i == |script| ==> !w.isMiddle
      {
        var e, last := script[i], i + 1 == |script|;
        PiecesOf(script, i, swapped, Laid(uniHunks, gaps) + skip, w);
        TakeFacts(w, e, last, swapped);
        TakeConsistent(script, i, swapped, Laid(uniHunks, gaps), skip, w);
        CuttingNext(script, i, uniHunks, gaps, skip, w, swapped);
        skip := Skipped(skip, w, e);
        w := Take(w, e, last, swapped);
        if w.isAfter && |w.change| > 0 {
          var cnt := CountCommons(script, i);
          PiecesOf(script, i + 1, swapped, Laid(uniHunks, gaps) + skip, w);
          if cnt < DTL_SEPARATE_SIZE && !last {
            StaysOpen(script, i + 1, swapped, Laid(uniHunks, gaps) + skip, w);
            CuttingStays(script, i + 1, uniHunks, gaps, skip, w);
            w := w.(middle := 0, isAfter := false);
          } else {
            EmitConsistent(script, i + 1, swapped, uniHunks, gaps, skip, w);
            CuttingEmit(script, i + 1, uniHunks, gaps, skip, w, swapped);
            uniHunks, gaps, skip := uniHunks + [Emit(w, swapped)], gaps + [skip], [];
            w := NoWork();
            CommonNothing<T>();
            if !last {
              assert script[i + 1].kind == Common;
            }
          }
        }
        i := i + 1;
      }
      PiecesOf(script, i, swapped, Laid(uniHunks, gaps) + skip, w);
      HunksComplete(script, swapped, uniHunks, gaps, skip, w);
      CuttingEnds(script, uniHunks, gaps, skip, w);
    }

    /** Applies the script to a sequence. */
    method Patch(input: seq<T>) returns (patched: seq<T>)
      requires |Source(ses.sequence)| <= |input|
      ensures Source(ses.sequence) <= input ==>
                patched == Target(ses.sequence) + input[|Source(ses.sequence)|..]
    {
      hide Source, Target, At;
      var sesSeq := ses.sequence;
      var list, pos := input, 0;
      AtStart(input);
      var i := 0;
      while i < |sesSeq|
        invariant 0 <= i <= |sesSeq| && 0 <= pos <= |list|
        invariant |list| - pos == |input| - |Source(sesSeq[..i])|
        invariant Source(sesSeq) <= input ==> At(list, pos, input, sesSeq[..i])
      {
        var e := sesSeq[i];
        assert sesSeq[..i + 1] == sesSeq[..i] + [e];
        PushOne(sesSeq[..i], e);
        ProjectionPrefix(sesSeq, i + 1);
        if Source(sesSeq) <= input {
          AtNext(list, pos, input, sesSeq[..i], e);
        }
        match e.kind {
          case Add =>
            list := list[..pos] + [e.elem] + list[pos..];
            pos := pos + 1;
          case Delete =>
            list := list[..pos] + list[pos + 1..];
          case Common =>
            pos := pos + 1;
        }
        i := i + 1;
      }
      patched := list;
      assert sesSeq[..i] == sesSeq;
      if Source(sesSeq) <= input {
        AtEnd(list, pos, input, sesSeq);
      }
    }

    /** Walks one hunk over the list. */
    method PatchHunk(list0: seq<T>, pos0: int, shunk: seq<Entry<T>>, ghost input: seq<T>, ghost replayed: seq<Entry<T>>)
      returns (list: seq<T>, pos: int)
      requires At(list0, pos0, input, replayed) && Source(replayed + shunk) <= input
      ensures At(list, pos, input, replayed + shunk)
    {
      hide Source, Target, At;
      list, pos := list0, pos0;
      assert replayed + shunk[..0] == replayed;
      var i := 0;
      while i < |shunk|
        invariant 0 <= i <= |shunk| && At(list, pos, input, replayed + shunk[..i])
      {
        var e := shunk[i];
        assert replayed + shunk[..i + 1] == replayed + shunk[..i] + [e] == (replayed + shunk)[..|replayed| + i + 1];
        ProjectionPrefix(replayed + shunk, |replayed| + i + 1);
        AtBounds(list, pos, input, replayed + shunk[..i]);
        AtNext(list, pos, input, replayed + shunk[..i], e);
        match e.kind {
          case Add =>
            list := list[..pos] + [e.elem] + list[pos..];
            pos := pos + 1;
          case Delete =>
            if pos != |list| {
              list := list[..pos] + list[pos + 1..];
            }
          case Common =>
            if pos != |list| {
              pos := pos + 1;
            }
        }
        i := i + 1;
      }
      assert shunk[..i] == shunk;
    }

    /** Applies the hunks to a sequence they describe. The stored headers move along with the list,
        so this is the result of the first call. */
    method UniPatch(input: seq<T>, ghost output: seq<T>) returns (patched: seq<T>)
      requires Describes(uniHunks, input, output)
      modifies this`uniHunks
      ensures patched == output
      ensures |uniHunks| == |old(uniHunks)|
      ensures forall j :: 0 <= j < |uniHunks| ==>
                            uniHunks[j] == Moved(old(uniHunks), j)
    {
      hide Source, Target, At, Laid, Layout, AllCommon, DescribesWith, Moved, Drift;
      ghost var hunks := uniHunks;
      ghost var gaps, tail :| DescribesWith(hunks, gaps, tail, input, output);
      UniPatchStart(hunks, gaps, tail, input, output);
      var list, pos := input, 0;
      var inc_dec_total, gap := 0, 1;
      var j := 0;
      while j < |uniHunks|
        invariant 0 <= j <= |hunks| == |uniHunks|
        invariant forall m :: j <= m < |hunks| ==> uniHunks[m] == hunks[m]
        invariant At(list, pos, input, Laid(hunks[..j], gaps[..j])) && gap == pos + 1
        invariant inc_dec_total == Drift(hunks[..j])
        invariant forall m :: 0 <= m < j ==> uniHunks[m] == Moved(hunks, m)
      {
        UniPatchStep(hunks, gaps, tail, input, output, j, list, pos);
        var h := uniHunks[j];
        h := h.(a := h.a + inc_dec_total);
        uniHunks := uniHunks[j := h];
        assert h == Moved(hunks, j);
        inc_dec_total := inc_dec_total + h.incDecCount;
        pos := pos + (h.a - gap);
        gap := h.a + h.b + h.incDecCount;
        list, pos := PatchHunk(list, pos, Shunk(h), input, Laid(hunks[..j], gaps[..j]) + gaps[j]);
        AtPosition(list, pos, input, Laid(hunks[..j + 1], gaps[..j + 1]));
        j := j + 1;
      }
      patched := list;
      UniPatchEnd(hunks, gaps, tail, input, output, list, pos);
    }
  }

  lemma CornerSeen<T>(a: seq<T>, b: seq<T>, fp: seq<int>, p: int)
    requires Rows(a, b, fp, p, |b| - |a| + 1, |b| - |a|) && 0 <= p
    ensures |fp| == |a| + |b| + 3 && (fp[|b| + 1] == |b| <==> MinDeletes(a, b, |a|, |b|) <= p)
  {
    assert Furthest(a, b, p, |b| - |a|, fp[|b| + 1]);
    CornerReached(a, b, p, fp[|b| + 1]);
  }

  lemma StartOfSearch<T>(a: seq<T>, b: seq<T>, fp: seq<int>, path: seq<int>)
    requires |a| <= |b| && |fp| == |path| == |a| + |b| + 3
    requires forall i :: 0 <= i < |fp| ==> fp[i] == path[i] == -1
    ensures Rows(a, b, fp, -1, |b| - |a| + 1, |b| - |a|)
    ensures Links(a, b, [], [], fp, path, -1, |b| - |a| + 1, |b| - |a|)
  {
  }

  lemma CornerLevel<T>(a: seq<T>, b: seq<T>)
    ensures 0 <= MinDeletes(a, b, |a|, |b|) <= |a|
  {
    LcsBounds(a, b, |a|, |b|);
  }
}
