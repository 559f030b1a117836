/** Taking turns: item j belongs to slot j % n. */
module RoundRobin {

  lemma Unique(a: int, b: int, q: int, r: int, n: int)
    requires 0 < n && 0 <= b < n && a == n * q + b && 0 <= r < n && a == n * (a / n) + r
    ensures b == r && q == a / n
  {
    var d := q - a / n;
    assert n * q - n * (a / n) == n * d;
    assert d > 0 ==> n * d >= n;
    assert d < 0 ==> n * d <= -n;
  }

  lemma NextTurn(j: int, n: int)
    requires 0 < n
    ensures (j + n) % n == j % n
  {
    assert n * (j / n + 1) == n * (j / n) + n;
    Unique(j + n, j % n, j / n + 1, (j + n) % n, n);
  }

  /** Within n consecutive items no two share a slot. */
  lemma SameSlot(j: int, k: int, n: int)
    requires 0 < n && j <= k < j + n && j % n == k % n
    ensures j == k
  {
    var d := k / n - j / n;
    assert n * (k / n) - n * (j / n) == n * d;
    assert d > 0 ==> n * d >= n;
    assert d < 0 ==> n * d <= -n;
  }

  lemma NextSlot(j: int, n: int)
    requires 0 < n
    ensures (j + 1) % n == (j % n + 1) % n
  {
    var r := j % n + 1;
    if r < n {
      Unique(j + 1, r, j / n, (j + 1) % n, n);
    } else {
      NextTurn(0, n);
      assert n * (j / n + 1) == n * (j / n) + n;
      Unique(j + 1, 0, j / n + 1, (j + 1) % n, n);
    }
  }

  /** The slot of the oldest of the last few items. */
  lemma OldestSlot(count: int, pending: int, n: int)
    requires 0 < n && 0 <= pending <= n
    ensures (count % n + n - pending) % n == (count - pending) % n
  {
    var r := count % n + n - pending;
    assert n * (count / n - 1) == n * (count / n) - n;
    assert n * (count / n - 1 + r / n) == n * (count / n - 1) + n * (r / n);
    Unique(count - pending, r % n, count / n - 1 + r / n, (count - pending) % n, n);
  }

  lemma SlotOfItself(j: int, n: int)
    requires 0 <= j < n
    ensures j % n == j
  {
    Unique(j, j, 0, j % n, n);
  }
}
