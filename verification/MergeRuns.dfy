/** Whole runs of the three-way merge. */
module MergeRuns {
  import opened EditScript
  import opened CommonSubsequence
  import opened Merge
  import opened Diff
  import opened Diff3

  ghost predicate Shortest<T(!new)>(s: seq<Entry<T>>, a: seq<T>, b: seq<T>) {
    IsScript(s, a, b) && IsDistance(Cost(s), a, b)
  }

  /** From three sequences to the merged one. A side that did not change gives way to the other one; two changed sides
      merge exactly when in no gap between elements of b the insertions of one contradict those of the other, and the result
      then has, gap by gap, the longer insertion, and of b what both sides keep. */
  method Merged3<T(==, !new)>(a: seq<T>, b: seq<T>, c: seq<T>)
      returns (complete: bool, ok: bool, merged: seq<T>, ba: seq<Entry<T>>, bc: seq<Entry<T>>)
    ensures complete <==> WithinCap(b, a) && WithinCap(b, c)
    ensures complete ==> Shortest(ba, b, a) && Shortest(bc, b, c)
    ensures complete && a == b ==> ok && merged == c
    ensures complete && c == b ==> ok && merged == a
    ensures complete && a != b && c != b ==>
              && (ok <==> Fit(ba, bc))
              && (if ok then exists r :: IsMergeOf(r, ba, bc) && merged == Target(r) else merged == b)
    ensures complete && ba == bc ==> ok && merged == a
  {
    hide *;
    var diff3 := new Diff3<T>(a, b, c);
    complete := diff3.Compose();
    ok, merged, ba, bc := false, b, diff3.diff_ba.ses.sequence, diff3.diff_bc.ses.sequence;
    if complete {
      ComparedFacts(diff3.diff_ba, b, a);
      ComparedFacts(diff3.diff_bc, b, c);
      ok := diff3.MergeSides();
      merged := diff3.S;
      MergeIsExact(ba, bc);
      if ba == bc {
        SameChangesMerge(ba);
        StrippedEnds(ba);
      }
    }
  }

  lemma ComparedFacts<T(!new)>(d: Diff<T>, before: seq<T>, after: seq<T>)
    requires Diff3<T>.Compared(d, before, after)
    ensures Shortest(d.ses.sequence, before, after)
    ensures Source(d.ses.sequence) == before && Target(d.ses.sequence) == after
  {
  }

  /** Each of two merges has the other's two changed sides and their scripts. */
  ghost predicate Exchanged<T(!new)>(d: Diff3<T>, e: Diff3<T>)
    reads d, d.diff_ba, d.diff_bc, d.diff_ba.ses, d.diff_bc.ses, e, e.diff_ba, e.diff_bc, e.diff_ba.ses, e.diff_bc.ses
  {
    && d.A == e.C && d.B == e.B && d.C == e.A
    && d.diff_ba.ses.sequence == e.diff_bc.ses.sequence && d.diff_bc.ses.sequence == e.diff_ba.ses.sequence
  }

  ghost predicate ReadyToMerge<T(!new)>(d: Diff3<T>)
    reads d, d.diff_ba, d.diff_bc, d.diff_ba.ses, d.diff_bc.ses
  {
    Diff3<T>.Compared(d.diff_ba, d.B, d.A) && Diff3<T>.Compared(d.diff_bc, d.B, d.C) && !d.conflict
  }

  /** It does not matter which of the two changed sequences is called A and which C. */
  method MergeEitherWay<T(==, !new)>(d: Diff3<T>, e: Diff3<T>) returns (okD: bool, okE: bool)
    requires d != e && ReadyToMerge(d) && ReadyToMerge(e) && Exchanged(d, e)
    modifies d`S, d`conflict, e`S, e`conflict
    ensures d.S == e.S && d.conflict == e.conflict && okD == okE
  {
    hide *;
    ReadyFacts(d);
    ReadyFacts(e);
    ExchangedFacts(d, e);
    CombineSymmetric(d.diff_ba.ses.sequence, d.diff_bc.ses.sequence);
    okD := d.MergeSides();
    okE := e.MergeSides();
  }

  lemma ReadyFacts<T(!new)>(d: Diff3<T>)
    requires ReadyToMerge(d)
    ensures Diff3<T>.Compared(d.diff_ba, d.B, d.A) && Diff3<T>.Compared(d.diff_bc, d.B, d.C) && !d.conflict
    ensures Source(d.diff_ba.ses.sequence) == d.B == Source(d.diff_bc.ses.sequence)
  {
  }

  lemma ExchangedFacts<T(!new)>(d: Diff3<T>, e: Diff3<T>)
    requires Exchanged(d, e)
    ensures d.A == e.C && d.B == e.B && d.C == e.A
    ensures d.diff_ba.ses.sequence == e.diff_bc.ses.sequence && d.diff_bc.ses.sequence == e.diff_ba.ses.sequence
  {
  }
}
