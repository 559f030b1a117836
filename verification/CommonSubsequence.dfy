/** Longest common subsequences of prefixes, and what they say about edit scripts. */
module CommonSubsequence {
  import opened EditScript

  /** Length of a longest common subsequence of a[..x] and b[..y]. */
  ghost function LcsLen<T>(a: seq<T>, b: seq<T>, x: nat, y: nat): nat
    requires x <= |a| && y <= |b|
    decreases x + y
  {
    if x == 0 || y == 0 then 0
    else if a[x - 1] == b[y - 1] then LcsLen(a, b, x - 1, y - 1) + 1
    else if LcsLen(a, b, x - 1, y) >= LcsLen(a, b, x, y - 1) then LcsLen(a, b, x - 1, y)
    else LcsLen(a, b, x, y - 1)
  }

  ghost predicate Subsequence<T>(c: seq<T>, a: seq<T>)
    decreases a
  {
    c == [] || (a != [] && (
      (c[|c| - 1] == a[|a| - 1] && Subsequence(c[..|c| - 1], a[..|a| - 1]))
      || Subsequence(c, a[..|a| - 1])))
  }

  lemma {:induction false} LcsBounds<T>(a: seq<T>, b: seq<T>, x: nat, y: nat)
    requires x <= |a| && y <= |b|
    ensures LcsLen(a, b, x, y) <= x && LcsLen(a, b, x, y) <= y
    decreases x + y
  {
    if x != 0 && y != 0 {
      LcsBounds(a, b, x - 1, y - 1);
      LcsBounds(a, b, x - 1, y);
      LcsBounds(a, b, x, y - 1);
    }
  }

  lemma {:induction false} LcsStepX<T>(a: seq<T>, b: seq<T>, x: nat, y: nat)
    requires x < |a| && y <= |b|
    ensures LcsLen(a, b, x, y) <= LcsLen(a, b, x + 1, y) <= LcsLen(a, b, x, y) + 1
    decreases x + y
  {
    if y != 0 {
      LcsStepX(a, b, x, y - 1);
      LcsStepY(a, b, x, y - 1);
    }
  }

  lemma {:induction false} LcsStepY<T>(a: seq<T>, b: seq<T>, x: nat, y: nat)
    requires x <= |a| && y < |b|
    ensures LcsLen(a, b, x, y) <= LcsLen(a, b, x, y + 1) <= LcsLen(a, b, x, y) + 1
    decreases x + y
  {
    if x != 0 {
      LcsStepY(a, b, x - 1, y);
      LcsStepX(a, b, x - 1, y);
    }
  }

  lemma LcsDiagonal<T>(a: seq<T>, b: seq<T>, x: nat, y: nat)
    requires x < |a| && y < |b|
    ensures LcsLen(a, b, x, y) <= LcsLen(a, b, x + 1, y + 1) <= LcsLen(a, b, x, y) + 1
  {
    LcsStepX(a, b, x, y);
    LcsStepY(a, b, x, y);
  }

  /** No script from a[..x] to b[..y] keeps more than LcsLen elements. */
  lemma {:induction false} ScriptBound<T>(s: seq<Entry<T>>, a: seq<T>, b: seq<T>)
    requires Source(s) <= a && Target(s) <= b
    ensures |Commons(s)| <= LcsLen(a, b, |Source(s)|, |Target(s)|)
    decreases |s|
  {
    if s != [] {
      var t, e := s[..|s| - 1], s[|s| - 1];
      assert Source(t) <= Source(s) && Target(t) <= Target(s);
      ScriptBound(t, a, b);
      match e.kind {
        case Delete => LcsStepX(a, b, |Source(t)|, |Target(t)|);
        case Add => LcsStepY(a, b, |Source(t)|, |Target(t)|);
        case Common =>
          assert a[|Source(t)|] == e.elem == b[|Target(t)|];
      }
    }
  }

  /** Every script from a to b costs at least |a| + |b| - 2 * LcsLen. */
  lemma ScriptCostBound<T>(s: seq<Entry<T>>, a: seq<T>, b: seq<T>)
    requires Source(s) == a && Target(s) == b
    ensures Cost(s) >= |a| + |b| - 2 * LcsLen(a, b, |a|, |b|)
  {
    ScriptBound(s, a, b);
    Accounting(s);
  }

  lemma {:induction false} SubsequenceDropLast<T>(c: seq<T>, a: seq<T>)
    requires c != [] && Subsequence(c, a)
    ensures a != [] && Subsequence(c[..|c| - 1], a[..|a| - 1])
    decreases a
  {
    var a' := a[..|a| - 1];
    if !(c[|c| - 1] == a[|a| - 1] && Subsequence(c[..|c| - 1], a')) {
      SubsequenceDropLast(c, a');
      SubsequenceLonger(c[..|c| - 1], a');
    }
  }

  lemma SubsequenceLonger<T>(c: seq<T>, a: seq<T>)
    requires a != [] && Subsequence(c, a[..|a| - 1])
    ensures Subsequence(c, a)
  {
  }

  /** LcsLen bounds the length of every common subsequence. */
  lemma {:induction false} SubsequenceBound<T>(c: seq<T>, a: seq<T>, b: seq<T>, x: nat, y: nat)
    requires x <= |a| && y <= |b|
    requires Subsequence(c, a[..x]) && Subsequence(c, b[..y])
    ensures |c| <= LcsLen(a, b, x, y)
    decreases x + y
  {
    if c != [] {
      SubsequenceDropLast(c, a[..x]);
      SubsequenceDropLast(c, b[..y]);
      assert a[..x][..x - 1] == a[..x - 1] && b[..y][..y - 1] == b[..y - 1];
      if a[x - 1] == b[y - 1] {
        SubsequenceBound(c[..|c| - 1], a, b, x - 1, y - 1);
      } else if c[|c| - 1] != a[x - 1] {
        SubsequenceBound(c, a, b, x - 1, y);
      } else {
        SubsequenceBound(c, a, b, x, y - 1);
      }
    }
  }

  lemma SubsequencePush<T>(c: seq<T>, a: seq<T>, e: T)
    requires Subsequence(c, a)
    ensures Subsequence(c, a + [e]) && Subsequence(c + [e], a + [e])
  {
    assert (a + [e])[..|a|] == a && (c + [e])[..|c|] == c;
  }

  /** What a script keeps is a common subsequence of its two ends. */
  lemma {:induction false} CommonsAreSubsequence<T>(s: seq<Entry<T>>)
    ensures Subsequence(Commons(s), Source(s)) && Subsequence(Commons(s), Target(s))
    decreases |s|
  {
    if s != [] {
      var t, e := s[..|s| - 1], s[|s| - 1];
      CommonsAreSubsequence(t);
      SubsequencePush(Commons(t), Source(t), e.elem);
      SubsequencePush(Commons(t), Target(t), e.elem);
      var c, a, b := Commons(t), Source(t), Target(t);
      match e.kind {
        case Common =>
          assert Commons(s) == c + [e.elem] && Source(s) == a + [e.elem] && Target(s) == b + [e.elem];
        case Delete =>
          assert Commons(s) == c && Source(s) == a + [e.elem] && Target(s) == b;
        case Add =>
          assert Commons(s) == c && Source(s) == a && Target(s) == b + [e.elem];
      }
    }
  }

  lemma {:induction false} LcsSymmetric<T>(a: seq<T>, b: seq<T>, x: nat, y: nat)
    requires x <= |a| && y <= |b|
    ensures LcsLen(a, b, x, y) == LcsLen(b, a, y, x)
    decreases x + y
  {
    if x != 0 && y != 0 {
      LcsSymmetric(a, b, x - 1, y - 1);
      LcsSymmetric(a, b, x - 1, y);
      LcsSymmetric(a, b, x, y - 1);
    }
  }

  ghost predicate IsScript<T>(s: seq<Entry<T>>, a: seq<T>, b: seq<T>) {
    Source(s) == a && Target(s) == b
  }

  /** d is the cost of the cheapest script from a to b. */
  ghost predicate IsDistance<T(!new)>(d: int, a: seq<T>, b: seq<T>) {
    && (exists s :: IsScript(s, a, b) && Cost(s) == d)
    && (forall s :: IsScript(s, a, b) ==> Cost(s) >= d)
  }

  ghost predicate IsLongestCommon<T(!new)>(c: seq<T>, a: seq<T>, b: seq<T>) {
    && Subsequence(c, a) && Subsequence(c, b)
    && (forall d :: Subsequence(d, a) && Subsequence(d, b) ==> |d| <= |c|)
  }

  /** A script that keeps LcsLen elements. */
  ghost function BestScript<T>(a: seq<T>, b: seq<T>, x: nat, y: nat): seq<Entry<T>>
    requires x <= |a| && y <= |b|
    decreases x + y
  {
    if x == 0 && y == 0 then []
    else if x == 0 then BestScript(a, b, x, y - 1) + [Entry(b[y - 1], 0, y, Add)]
    else if y == 0 then BestScript(a, b, x - 1, y) + [Entry(a[x - 1], x, 0, Delete)]
    else if a[x - 1] == b[y - 1] then BestScript(a, b, x - 1, y - 1) + [Entry(a[x - 1], x, y, Common)]
    else if LcsLen(a, b, x - 1, y) >= LcsLen(a, b, x, y - 1) then
      BestScript(a, b, x - 1, y) + [Entry(a[x - 1], x, 0, Delete)]
    else BestScript(a, b, x, y - 1) + [Entry(b[y - 1], 0, y, Add)]
  }

  lemma {:induction false} BestScriptKeepsLcs<T>(a: seq<T>, b: seq<T>, x: nat, y: nat)
    requires x <= |a| && y <= |b|
    ensures IsScript(BestScript(a, b, x, y), a[..x], b[..y])
    ensures Cost(BestScript(a, b, x, y)) == x + y - 2 * LcsLen(a, b, x, y)
    decreases x + y
  {
    hide Without, Only, Cost, Source, Target, LcsLen, BestScript;
    if x == 0 && y == 0 {
      BestScriptStart(a, b);
    } else {
      var x', y', e := BestScriptStep(a, b, x, y);
      BestScriptKeepsLcs(a, b, x', y');
      PushOne(BestScript(a, b, x', y'), e);
      assert x' < x ==> a[..x] == a[..x - 1] + [a[x - 1]];
      assert y' < y ==> b[..y] == b[..y - 1] + [b[y - 1]];
    }
  }

  lemma BestScriptStart<T>(a: seq<T>, b: seq<T>)
    ensures IsScript(BestScript(a, b, 0, 0), a[..0], b[..0])
    ensures Cost(BestScript(a, b, 0, 0)) == 0 == LcsLen(a, b, 0, 0)
  {
  }

  lemma BestScriptStep<T>(a: seq<T>, b: seq<T>, x: nat, y: nat) returns (x': nat, y': nat, e: Entry<T>)
    requires x <= |a| && y <= |b| && x + y > 0
    ensures x' == (if e.kind == Add then x else x - 1) && y' == (if e.kind == Delete then y else y - 1)
    ensures e.kind != Add ==> e.elem == a[x - 1]
    ensures e.kind != Delete ==> e.elem == b[y - 1]
    ensures BestScript(a, b, x, y) == BestScript(a, b, x', y') + [e]
    ensures LcsLen(a, b, x, y) == LcsLen(a, b, x', y') + if e.kind == Common then 1 else 0
  {
    var s := BestScript(a, b, x, y);
    e := s[|s| - 1];
    x', y' := if e.kind == Add then x else x - 1, if e.kind == Delete then y else y - 1;
  }

  /** The edit distance is what a longest common subsequence leaves over. */
  lemma DistanceIsLcs<T(!new)>(a: seq<T>, b: seq<T>)
    ensures IsDistance(|a| + |b| - 2 * LcsLen(a, b, |a|, |b|), a, b)
  {
    var d := |a| + |b| - 2 * LcsLen(a, b, |a|, |b|);
    assert IsScript(BestScript(a, b, |a|, |b|), a, b) && Cost(BestScript(a, b, |a|, |b|)) == d by {
      BestScriptKeepsLcs(a, b, |a|, |b|);
      assert a[..|a|] == a && b[..|b|] == b;
    }
    forall s | IsScript(s, a, b)
      ensures Cost(s) >= d
    {
      ScriptCostBound(s, a, b);
    }
  }

  /** A common subsequence of length LcsLen is a longest one. */
  lemma LcsLenIsLongest<T(!new)>(c: seq<T>, a: seq<T>, b: seq<T>)
    requires Subsequence(c, a) && Subsequence(c, b) && |c| == LcsLen(a, b, |a|, |b|)
    ensures IsLongestCommon(c, a, b)
  {
    forall d | Subsequence(d, a) && Subsequence(d, b)
      ensures |d| <= |c|
    {
      assert a[..|a|] == a && b[..|b|] == b;
      SubsequenceBound(d, a, b, |a|, |b|);
    }
  }
}
