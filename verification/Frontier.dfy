/** The furthest-point theory behind the O(NP) comparison: how far each diagonal of the edit grid
    can be followed at a given level, stated without any reference to paths. */
module Frontier {
  import opened CommonSubsequence

  /** The fewest deletions that turn a[..x] into b[..y]. */
  ghost function MinDeletes<T>(a: seq<T>, b: seq<T>, x: nat, y: nat): (d: int)
    requires x <= |a| && y <= |b|
  {
    x - LcsLen(a, b, x, y)
  }

  ghost predicate InGrid<T>(a: seq<T>, b: seq<T>, x: int, y: int) {
    0 <= x <= |a| && 0 <= y <= |b|
  }

  /** Deletions needed to reach (x, y), and those that getting back to the last diagonal costs. */
  ghost function Level<T>(a: seq<T>, b: seq<T>, x: nat, y: nat): (d: int)
    requires x <= |a| && y <= |b|
  {
    MinDeletes(a, b, x, y) + Overshoot(|b| - |a|, y - x)
  }

  function Overshoot(delta: int, k: int): nat {
    if k > delta then k - delta else 0
  }

  /** y is the furthest row that diagonal k reaches at level p; -1 where it reaches none. */
  ghost predicate Furthest<T>(a: seq<T>, b: seq<T>, p: int, k: int, y: int)
    requires |a| <= |b|
  {
    if 0 <= p && -p <= k <= |b| - |a| + p then
      && InGrid(a, b, y - k, y)
      && Level(a, b, y - k, y) <= p
      && (InGrid(a, b, y - k + 1, y + 1) ==> Level(a, b, y - k + 1, y + 1) > p)
    else
      y == -1
  }

  lemma LevelAlongDiagonal<T>(a: seq<T>, b: seq<T>, x: nat, y: nat)
    requires |a| <= |b| && x < |a| && y < |b|
    ensures Level(a, b, x, y) <= Level(a, b, x + 1, y + 1)
    ensures a[x] == b[y] ==> Level(a, b, x + 1, y + 1) == Level(a, b, x, y)
  {
    LcsDiagonal(a, b, x, y);
  }

  /** Nothing past a furthest row is within the level. */
  lemma {:induction false} Beyond<T>(a: seq<T>, b: seq<T>, p: int, k: int, y: int, z: int)
    requires |a| <= |b| && Furthest(a, b, p, k, y) && y < z && InGrid(a, b, z - k, z)
    ensures Level(a, b, z - k, z) > p
    decreases z - y
  {
    LcsBounds(a, b, z - k, z);
    if 0 <= p && -p <= k <= |b| - |a| + p && z > y + 1 {
      Beyond(a, b, p, k, y, z - 1);
      LevelAlongDiagonal(a, b, z - 1 - k, z - 1);
    }
  }

  /** The cells a[x0..x] and b[y0..y] match one by one. */
  ghost predicate Snake<T>(a: seq<T>, b: seq<T>, x0: int, y0: int, x: int, y: int) {
    0 <= x0 <= x <= |a| && 0 <= y0 <= y <= |b| && y - x == y0 - x0 &&
    a[x0..x] == b[y0..y]
  }

  lemma NoSnakeYet<T>(a: seq<T>, b: seq<T>, x: int, y: int)
    requires InGrid(a, b, x, y)
    ensures Snake(a, b, x, y, x, y) && 0 <= x <= |a| && 0 <= y <= |b|
  {
  }

  lemma SnakeGrows<T>(a: seq<T>, b: seq<T>, x0: int, y0: int, x: int, y: int)
    requires Snake(a, b, x0, y0, x, y) && x < |a| && y < |b| && 0 <= x && 0 <= y && a[x] == b[y]
    ensures Snake(a, b, x0, y0, x + 1, y + 1)
  {
    assert a[x0..x + 1] == a[x0..x] + [a[x]] && b[y0..y + 1] == b[y0..y] + [b[y]];
  }

  lemma {:induction false} SnakeKeepsLevel<T>(a: seq<T>, b: seq<T>, x0: int, y0: int, x: int, y: int)
    requires |a| <= |b| && Snake(a, b, x0, y0, x, y)
    ensures Level(a, b, x, y) == Level(a, b, x0, y0)
    decreases x - x0
  {
    if x0 < x {
      assert a[x0..x - 1] == a[x0..x][..x - 1 - x0] && b[y0..y - 1] == b[y0..y][..x - 1 - x0];
      SnakeKeepsLevel(a, b, x0, y0, x - 1, y - 1);
      assert a[x - 1] == a[x0..x][x - 1 - x0] == b[y0..y][x - 1 - x0] == b[y - 1];
      LevelAlongDiagonal(a, b, x - 1, y - 1);
    }
  }

  /** Deletions only grow along a row, by at most one a step; along a column they only shrink. */
  lemma {:induction false} AlongColumn<T>(a: seq<T>, b: seq<T>, x: nat, y: nat, z: nat)
    requires x <= |a| && y <= z <= |b|
    ensures MinDeletes(a, b, x, z) <= MinDeletes(a, b, x, y)
    decreases z
  {
    if y < z {
      AlongColumn(a, b, x, y, z - 1);
      LcsStepY(a, b, x, z - 1);
    }
  }

  lemma {:induction false} AlongRow<T>(a: seq<T>, b: seq<T>, x: nat, z: nat, y: nat)
    requires x <= z <= |a| && y <= |b|
    ensures MinDeletes(a, b, z, y) <= MinDeletes(a, b, x, y) + (z - x)
    decreases z
  {
    if x < z {
      AlongRow(a, b, x, z - 1, y);
      LcsStepX(a, b, z - 1, y);
    }
  }

  /** The level at which a diagonal's left neighbour is consulted when level p is computed. */
  function LeftLevel(delta: int, p: int, k: int): int {
    if k <= delta then p else p - 1
  }

  /** The same for its right neighbour. */
  function RightLevel(delta: int, p: int, k: int): int {
    if k < delta then p - 1 else p
  }

  /** The row from which the snake of diagonal k starts is inside the grid and within the level,
      as long as the lower levels have not reached the far corner. */
  lemma StartWithinLevel<T>(a: seq<T>, b: seq<T>, p: int, k: int, above: int, below: int)
    requires |a| <= |b| && 0 <= p <= MinDeletes(a, b, |a|, |b|)
    requires -p <= k <= |b| - |a| + p
    requires Furthest(a, b, LeftLevel(|b| - |a|, p, k), k - 1, above - 1)
    requires Furthest(a, b, RightLevel(|b| - |a|, p, k), k + 1, below)
    ensures var y := if above > below then above else below;
            InGrid(a, b, y - k, y) && Level(a, b, y - k, y) <= p
  {
    hide LcsLen;
    if above > below {
      if above == 0 {
        LcsBounds(a, b, 0, 0);
      } else {
        if above - 1 == |b| {
          AlongRow(a, b, |b| - (k - 1), |a|, |b|);
        }
        LcsStepY(a, b, above - k, above - 1);
      }
    } else {
      if below - (k + 1) == |a| {
        AlongColumn(a, b, |a|, below, |b|);
      }
      LcsStepX(a, b, below - (k + 1), below);
    }
  }

  lemma Mismatch<T>(a: seq<T>, b: seq<T>, p: int, k: int, x: nat, y: nat)
    requires |a| <= |b| && x < |a| && y < |b| && y - x == k && a[x] != b[y]
    requires Level(a, b, x + 1, y) > LeftLevel(|b| - |a|, p, k)
    requires Level(a, b, x, y + 1) > RightLevel(|b| - |a|, p, k)
    ensures Level(a, b, x + 1, y + 1) > p
  {
  }

  lemma StopsAtMismatch<T>(a: seq<T>, b: seq<T>, p: int, k: int, above: int, below: int, y: int)
    requires |a| <= |b| && y >= above && y >= below
    requires InGrid(a, b, y - k + 1, y + 1) && 0 <= y - k && 0 <= y && a[y - k] != b[y]
    requires Furthest(a, b, LeftLevel(|b| - |a|, p, k), k - 1, above - 1)
    requires Furthest(a, b, RightLevel(|b| - |a|, p, k), k + 1, below)
    ensures Level(a, b, y - k + 1, y + 1) > p
  {
    assert InGrid(a, b, y - k + 1, y) && InGrid(a, b, y - k, y + 1);
    Beyond(a, b, LeftLevel(|b| - |a|, p, k), k - 1, above - 1, y);
    Beyond(a, b, RightLevel(|b| - |a|, p, k), k + 1, below, y + 1);
    Mismatch(a, b, p, k, y - k, y);
  }

  /** One entry of the frontier: the snake that starts on the better neighbour ends on the
      furthest row of the diagonal. */
  lemma SnakeEndsFurthest<T>(a: seq<T>, b: seq<T>, p: int, k: int, above: int, below: int, y0: int, y: int)
    requires |a| <= |b| && 0 <= p <= MinDeletes(a, b, |a|, |b|)
    requires -p <= k <= |b| - |a| + p
    requires Furthest(a, b, LeftLevel(|b| - |a|, p, k), k - 1, above - 1)
    requires Furthest(a, b, RightLevel(|b| - |a|, p, k), k + 1, below)
    requires y0 == (if above > below then above else below) && Snake(a, b, y0 - k, y0, y - k, y)
    requires y - k == |a| || y == |b| || a[y - k] != b[y]
    ensures Furthest(a, b, p, k, y)
  {
    hide LcsLen, Snake;
    StartWithinLevel(a, b, p, k, above, below);
    SnakeKeepsLevel(a, b, y0 - k, y0, y - k, y);
    SnakeInGrid(a, b, y0 - k, y0, y - k, y);
    if y - k < |a| && y < |b| {
      StopsAtMismatch(a, b, p, k, above, below, y);
    }
  }

  lemma SnakeInGrid<T>(a: seq<T>, b: seq<T>, x0: int, y0: int, x: int, y: int)
    requires Snake(a, b, x0, y0, x, y)
    ensures InGrid(a, b, x, y) && InGrid(a, b, x0, y0) && y0 <= y
  {
  }

  /** The last diagonal reaches the far corner exactly at the level of the far corner. */
  lemma CornerReached<T>(a: seq<T>, b: seq<T>, p: int, y: int)
    requires |a| <= |b| && p >= 0 && Furthest(a, b, p, |b| - |a|, y)
    ensures y == |b| <==> MinDeletes(a, b, |a|, |b|) <= p
  {
    if y < |b| {
      Beyond(a, b, p, |b| - |a|, y, |b|);
    }
  }
}
