/** The frontier array, the back-pointer table and the recorded coordinates of the comparison, as
    values: what holds between them while the rounds of the search run. */
module DiffTrace {
  import opened CommonSubsequence
  import opened Frontier

  /** A recorded coordinate: the end of a snake and the index of the coordinate it came from. */
  datatype Point = Point(x: int, y: int, k: int)

  /** Coordinate i ends a snake that starts one edit away from its parent, or at the origin; dels[i]
      counts the deletions on the way to it. */
  ghost predicate ValidNode<T>(a: seq<T>, b: seq<T>, points: seq<Point>, dels: seq<int>, i: nat)
    requires i < |points| == |dels|
  {
    var n := points[i];
    if n.k == -1 then
      dels[i] == 0 && Snake(a, b, 0, 0, n.x, n.y)
    else
      && 0 <= n.k < i
      && InGrid(a, b, points[n.k].x, points[n.k].y)
      && (|| (dels[i] == dels[n.k] && Snake(a, b, points[n.k].x, points[n.k].y + 1, n.x, n.y))
          || (dels[i] == dels[n.k] + 1 && Snake(a, b, points[n.k].x + 1, points[n.k].y, n.x, n.y)))
  }

  ghost predicate ValidNodes<T>(a: seq<T>, b: seq<T>, points: seq<Point>, dels: seq<int>) {
    |points| == |dels| && forall i :: 0 <= i < |points| ==> ValidNode(a, b, points, dels, i)
  }

  /** Back-pointer r of diagonal j names a coordinate on row v of that diagonal, reached within
      level p. */
  predicate Linked(points: seq<Point>, dels: seq<int>, delta: int, p: int, j: int, v: int, r: int) {
    if 0 <= p && -p <= j <= delta + p then
      && 0 <= r < |points| == |dels|
      && points[r].x == v - j && points[r].y == v
      && dels[r] + Overshoot(delta, j) <= p
    else
      r == -1
  }

  /** In round p the diagonals lo..hi still wait; the others are done. */
  function LevelOf(p: int, lo: int, hi: int, j: int): int {
    if lo <= j <= hi then p - 1 else p
  }

  ghost predicate Rows<T>(a: seq<T>, b: seq<T>, fp: seq<int>, p: int, lo: int, hi: int) {
    && |a| <= |b|
    && |fp| == |a| + |b| + 3
    && forall i :: 0 <= i < |fp| ==> Furthest(a, b, LevelOf(p, lo, hi, i - |a| - 1), i - |a| - 1, fp[i])
  }

  ghost predicate Links<T>(a: seq<T>, b: seq<T>, points: seq<Point>, dels: seq<int>,
                           fp: seq<int>, path: seq<int>, p: int, lo: int, hi: int) {
    && |path| == |fp| == |a| + |b| + 3
    && ValidNodes(a, b, points, dels)
    && forall i :: 0 <= i < |fp| ==>
                     Linked(points, dels, |b| - |a|, LevelOf(p, lo, hi, i - |a| - 1), i - |a| - 1, fp[i], path[i])
  }

  /** The diagonals of a round are taken in an order that finds the neighbours at the right level:
      upwards to the last but one, downwards to the last but one, then the last diagonal. */
  predicate Turn(delta: int, limit: int, p: int, lo: int, hi: int, k: int) {
    && -p <= k <= delta + p
    && (|| (k == lo < delta && hi == limit)
        || (lo == delta < k == hi)
        || (lo == delta == k == hi))
  }

  function NextLo(lo: int, k: int): int {
    if k == lo then k + 1 else lo
  }

  function NextHi(lo: int, hi: int, k: int): int {
    if k == lo then hi else k - 1
  }

  lemma NeighboursReady<T>(a: seq<T>, b: seq<T>, fp: seq<int>, p: int, lo: int, hi: int, k: int)
    requires Rows(a, b, fp, p, lo, hi) && Turn(|b| - |a|, |b| + 1, p, lo, hi, k) && 0 <= p <= |a|
    ensures 0 <= k + |a| && k + 2 + |a| < |fp|
    ensures Furthest(a, b, LeftLevel(|b| - |a|, p, k), k - 1, fp[k + |a|])
    ensures Furthest(a, b, RightLevel(|b| - |a|, p, k), k + 1, fp[k + 2 + |a|])
  {
    hide Furthest;
    var i := k + |a|;
    assert Furthest(a, b, LevelOf(p, lo, hi, i - |a| - 1), i - |a| - 1, fp[i]);
    assert Furthest(a, b, LevelOf(p, lo, hi, i + 2 - |a| - 1), i + 2 - |a| - 1, fp[i + 2]);
  }

  lemma LinksReady<T>(a: seq<T>, b: seq<T>, points: seq<Point>, dels: seq<int>,
                      fp: seq<int>, path: seq<int>, p: int, lo: int, hi: int, k: int)
    requires Links(a, b, points, dels, fp, path, p, lo, hi)
    requires |a| <= |b| && Turn(|b| - |a|, |b| + 1, p, lo, hi, k) && 0 <= p <= |a|
    ensures 0 <= k + |a| && k + 2 + |a| < |fp|
    ensures Linked(points, dels, |b| - |a|, LeftLevel(|b| - |a|, p, k), k - 1, fp[k + |a|], path[k + |a|])
    ensures Linked(points, dels, |b| - |a|, RightLevel(|b| - |a|, p, k), k + 1, fp[k + 2 + |a|], path[k + 2 + |a|])
  {
    hide Linked, ValidNodes;
    var i := k + |a|;
    assert Linked(points, dels, |b| - |a|, LevelOf(p, lo, hi, i - |a| - 1), i - |a| - 1, fp[i], path[i]);
    assert Linked(points, dels, |b| - |a|, LevelOf(p, lo, hi, i + 2 - |a| - 1), i + 2 - |a| - 1, fp[i + 2], path[i + 2]);
  }

  lemma RowsUpdated<T>(a: seq<T>, b: seq<T>, fp: seq<int>, p: int, lo: int, hi: int, k: int, y: int)
    requires Rows(a, b, fp, p, lo, hi) && Turn(|b| - |a|, |b| + 1, p, lo, hi, k) && 0 <= p <= |a|
    requires Furthest(a, b, p, k, y)
    ensures Rows(a, b, fp[k + |a| + 1 := y], p, NextLo(lo, k), NextHi(lo, hi, k))
  {
    hide Furthest;
    var fq := fp[k + |a| + 1 := y];
    forall i | 0 <= i < |fq|
      ensures Furthest(a, b, LevelOf(p, NextLo(lo, k), NextHi(lo, hi, k), i - |a| - 1), i - |a| - 1, fq[i])
    {
      if i != k + |a| + 1 {
        assert Furthest(a, b, LevelOf(p, lo, hi, i - |a| - 1), i - |a| - 1, fp[i]);
      }
    }
  }

  /** The new coordinate keeps every old one valid and is itself valid. */
  lemma NodeAdded<T>(a: seq<T>, b: seq<T>, points: seq<Point>, dels: seq<int>, n: Point, d: int)
    requires ValidNodes(a, b, points, dels)
    requires ValidNode(a, b, points + [n], dels + [d], |points|)
    ensures ValidNodes(a, b, points + [n], dels + [d])
  {
    hide Snake, InGrid;
    forall i | 0 <= i < |points| + 1
      ensures ValidNode(a, b, points + [n], dels + [d], i)
    {
      if i < |points| {
        assert ValidNode(a, b, points, dels, i);
      }
    }
  }

  lemma LinksUpdated<T>(a: seq<T>, b: seq<T>, points: seq<Point>, dels: seq<int>,
                        fp: seq<int>, path: seq<int>, p: int, lo: int, hi: int, k: int, y: int, n: Point, d: int)
    requires Links(a, b, points, dels, fp, path, p, lo, hi)
    requires |a| <= |b| && Turn(|b| - |a|, |b| + 1, p, lo, hi, k) && 0 <= p <= |a|
    requires n.x == y - k && n.y == y && d + Overshoot(|b| - |a|, k) <= p
    requires ValidNode(a, b, points + [n], dels + [d], |points|)
    ensures Links(a, b, points + [n], dels + [d], fp[k + |a| + 1 := y], path[k + |a| + 1 := |points|],
                  p, NextLo(lo, k), NextHi(lo, hi, k))
  {
    hide ValidNode, ValidNodes;
    assert ValidNodes(a, b, points, dels) && |points| == |dels| && ValidNodes(a, b, points + [n], dels + [d]) by {
      NodeAdded(a, b, points, dels, n, d);
      NodesMatch(a, b, points, dels);
    }
    var fq, qath := fp[k + |a| + 1 := y], path[k + |a| + 1 := |points|];
    forall i | 0 <= i < |fq|
      ensures Linked(points + [n], dels + [d], |b| - |a|,
                     LevelOf(p, NextLo(lo, k), NextHi(lo, hi, k), i - |a| - 1), i - |a| - 1, fq[i], qath[i])
    {
      if i != k + |a| + 1 {
        assert Linked(points, dels, |b| - |a|, LevelOf(p, lo, hi, i - |a| - 1), i - |a| - 1, fp[i], path[i]);
      }
    }
  }

  lemma NodesMatch<T>(a: seq<T>, b: seq<T>, points: seq<Point>, dels: seq<int>)
    requires ValidNodes(a, b, points, dels)
    ensures |points| == |dels|
  {
  }

  /** What one snake records: it leaves from the neighbour whose row is further along. */
  lemma NodeFromNeighbour<T>(a: seq<T>, b: seq<T>, points: seq<Point>, dels: seq<int>,
                             p: int, k: int, above: int, below: int, r: int, left: int, right: int, y0: int, y: int)
    returns (d: int)
    requires |a| <= |b| && 0 <= p <= MinDeletes(a, b, |a|, |b|) && |points| == |dels|
    requires -p <= k <= |b| - |a| + p
    requires Furthest(a, b, LeftLevel(|b| - |a|, p, k), k - 1, above - 1)
    requires Furthest(a, b, RightLevel(|b| - |a|, p, k), k + 1, below)
    requires Linked(points, dels, |b| - |a|, LeftLevel(|b| - |a|, p, k), k - 1, above - 1, left)
    requires Linked(points, dels, |b| - |a|, RightLevel(|b| - |a|, p, k), k + 1, below, right)
    requires r == (if above > below then left else right)
    requires y0 == (if above > below then above else below)
    requires Snake(a, b, y0 - k, y0, y - k, y)
    ensures d + Overshoot(|b| - |a|, k) <= p
    ensures ValidNode(a, b, points + [Point(y - k, y, r)], dels + [d], |points|)
  {
    hide LcsLen, Snake;
    if above > below {
      d := if r == -1 then 0 else dels[r];
    } else {
      d := dels[r] + 1;
    }
  }

  /** The snake of the next diagonal has both neighbours in range and starts inside the grid. */
  lemma ReadyToAdvance<T>(a: seq<T>, b: seq<T>, fp: seq<int>, p: int, lo: int, hi: int, k: int)
    requires Rows(a, b, fp, p, lo, hi) && Turn(|b| - |a|, |b| + 1, p, lo, hi, k)
    requires 0 <= p <= MinDeletes(a, b, |a|, |b|)
    ensures |fp| == |a| + |b| + 3 && 0 <= k + |a| && k + 2 + |a| < |fp|
    ensures var y0 := Start(fp, |a|, k); InGrid(a, b, y0 - k, y0)
  {
    hide LcsLen, Furthest;
    LcsBounds(a, b, |a|, |b|);
    NeighboursReady(a, b, fp, p, lo, hi, k);
    StartWithinLevel(a, b, p, k, fp[k + |a|] + 1, fp[k + 2 + |a|]);
  }

  /** The row the snake of diagonal k starts on. */
  function Start(fp: seq<int>, m: nat, k: int): int
    requires 0 <= k + m && k + 2 + m < |fp|
  {
    if fp[k + m] + 1 > fp[k + 2 + m] then fp[k + m] + 1 else fp[k + 2 + m]
  }

  /** Following one snake to its end moves the frontier of that diagonal to the current level. */
  lemma RowsAdvance<T>(a: seq<T>, b: seq<T>, fp: seq<int>, p: int, lo: int, hi: int, k: int, y: int)
    requires Rows(a, b, fp, p, lo, hi) && Turn(|b| - |a|, |b| + 1, p, lo, hi, k)
    requires 0 <= p <= MinDeletes(a, b, |a|, |b|) && 0 <= k + |a| && k + 2 + |a| < |fp|
    requires Snake(a, b, Start(fp, |a|, k) - k, Start(fp, |a|, k), y - k, y)
    requires y - k == |a| || y == |b| || a[y - k] != b[y]
    ensures Rows(a, b, fp[k + |a| + 1 := y], p, NextLo(lo, k), NextHi(lo, hi, k))
  {
    hide LcsLen, Furthest, Snake;
    LcsBounds(a, b, |a|, |b|);
    NeighboursReady(a, b, fp, p, lo, hi, k);
    SnakeEndsFurthest(a, b, p, k, fp[k + |a|] + 1, fp[k + 2 + |a|], Start(fp, |a|, k), y);
    RowsUpdated(a, b, fp, p, lo, hi, k, y);
  }

  lemma LinksAdvance<T>(a: seq<T>, b: seq<T>, points: seq<Point>, dels: seq<int>, fp: seq<int>, path: seq<int>,
                        p: int, lo: int, hi: int, k: int, y: int)
    returns (d: int)
    requires Rows(a, b, fp, p, lo, hi) && Turn(|b| - |a|, |b| + 1, p, lo, hi, k)
    requires Links(a, b, points, dels, fp, path, p, lo, hi)
    requires 0 <= p <= MinDeletes(a, b, |a|, |b|) && 0 <= k + |a| && k + 2 + |a| < |fp|
    requires Snake(a, b, Start(fp, |a|, k) - k, Start(fp, |a|, k), y - k, y)
    ensures var r := if fp[k + |a|] + 1 > fp[k + 2 + |a|] then path[k + |a|] else path[k + 2 + |a|];
            Links(a, b, points + [Point(y - k, y, r)], dels + [d], fp[k + |a| + 1 := y],
                  path[k + |a| + 1 := |points|], p, NextLo(lo, k), NextHi(lo, hi, k))
  {
    hide LcsLen, Furthest, Snake, Linked, ValidNodes, ValidNode;
    LcsBounds(a, b, |a|, |b|);
    NeighboursReady(a, b, fp, p, lo, hi, k);
    LinksReady(a, b, points, dels, fp, path, p, lo, hi, k);
    NodesMatch(a, b, points, dels);
    var r := if fp[k + |a|] + 1 > fp[k + 2 + |a|] then path[k + |a|] else path[k + 2 + |a|];
    d := NodeFromNeighbour(a, b, points, dels, p, k, fp[k + |a|] + 1, fp[k + 2 + |a|], r,
                           path[k + |a|], path[k + 2 + |a|], Start(fp, |a|, k), y);
    LinksUpdated(a, b, points, dels, fp, path, p, lo, hi, k, y, Point(y - k, y, r), d);
  }

  /** Between the two sweeps of a round, and between rounds, the same array is read against other
      waiting intervals. */
  lemma Reread<T>(a: seq<T>, b: seq<T>, points: seq<Point>, dels: seq<int>, fp: seq<int>, path: seq<int>,
                  p: int, lo: int, hi: int, p': int, lo': int, hi': int)
    requires Rows(a, b, fp, p, lo, hi)
    requires || (p' == p + 1 && lo > hi && lo' == -p' && hi' == |b| + 1)
             || (p' == p && lo' == lo && hi == |b| + 1 && hi' == |b| - |a| + p)
    ensures Rows(a, b, fp, p', lo', hi')
    ensures Links(a, b, points, dels, fp, path, p, lo, hi) ==> Links(a, b, points, dels, fp, path, p', lo', hi')
  {
    hide InGrid, Level, ValidNodes;
    forall i | 0 <= i < |fp|
      ensures Furthest(a, b, LevelOf(p', lo', hi', i - |a| - 1), i - |a| - 1, fp[i])
    {
      assert Furthest(a, b, LevelOf(p, lo, hi, i - |a| - 1), i - |a| - 1, fp[i]);
    }
    if Links(a, b, points, dels, fp, path, p, lo, hi) {
      forall i | 0 <= i < |fp|
        ensures Linked(points, dels, |b| - |a|, LevelOf(p', lo', hi', i - |a| - 1), i - |a| - 1, fp[i], path[i])
      {
        assert Linked(points, dels, |b| - |a|, LevelOf(p, lo, hi, i - |a| - 1), i - |a| - 1, fp[i], path[i]);
      }
    }
  }
}
