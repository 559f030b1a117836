/** Whole runs of the diff library: compare two sequences and rebuild the second from the first. */
module DiffRoundTrip {
  import opened EditScript
  import opened CommonSubsequence
  import opened UnifiedHunks
  import opened Diff

  /** Comparing a with b and applying the script to a gives b, in both script orders and whichever is longer. */
  method DiffAndPatch<T(==, !new)>(a: seq<T>, b: seq<T>, deletesFirst: bool) returns (complete: bool, patched: seq<T>)
    ensures complete <==> WithinCap(a, b)
    ensures complete ==> patched == b
  {
    hide IsScript, IsDistance, IsLongestCommon, LcsLen;
    var diff := new Diff<T>(a, b, deletesFirst, false);
    complete := diff.Compose();
    patched := a;
    if complete {
      ScriptProjections(diff.ses.sequence, a, b);
      patched := diff.Patch(a);
      assert a[|a|..] == [];
    }
  }

  /** Comparing a with b, cutting the script into hunks and applying the hunks to a gives b. */
  method DiffAndUniPatch<T(==, !new)>(a: seq<T>, b: seq<T>, deletesFirst: bool) returns (complete: bool, patched: seq<T>)
    ensures complete <==> WithinCap(a, b)
    ensures complete ==> patched == b
  {
    hide IsScript, IsDistance, IsLongestCommon, LcsLen, Describes;
    var diff := new Diff<T>(a, b, deletesFirst, false);
    complete := diff.Compose();
    patched := a;
    if complete {
      ScriptProjections(diff.ses.sequence, a, b);
      diff.ComposeUnifiedHunks();
      patched := diff.UniPatch(a, b);
    }
  }

  lemma ScriptProjections<T>(script: seq<Entry<T>>, a: seq<T>, b: seq<T>)
    requires IsScript(script, a, b)
    ensures Source(script) == a && Target(script) == b
  {
  }
}
