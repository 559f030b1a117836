/** Where a script is cut into hunks. */
module HunkCuts {
  import opened EditScript
  import opened Ses
  import opened UnifiedHunks

  /** How many commons stand at the end. */
  function Trail<T>(s: seq<Entry<T>>): nat {
    if s == [] || s[|s| - 1].kind != Common then 0 else Trail(s[..|s| - 1]) + 1
  }

  /** No five commons stand in a row. */
  ghost predicate NoFive<T>(s: seq<Entry<T>>) {
    forall k, m :: 0 <= k && m == k + 5 <= |s| ==> !AllCommon(s[k..m])
  }

  /** The change starts with an edit and is not interrupted by five commons; before it comes as much context as
      there is, up to three. */
  ghost predicate Shaped<T>(h: UniHunk<T>, gap: seq<Entry<T>>) {
    && h.change != [] && h.change[0].kind != Common && NoFive(h.change)
    && (gap != [] ==> |h.common0| == DTL_CONTEXT_SIZE)
  }

  /** The change ends in three commons, and at least two more follow. */
  ghost predicate Apart<T>(h: UniHunk<T>, after: seq<Entry<T>>) {
    Trail(h.change) == DTL_SEPARATE_SIZE && |after| >= 2
  }

  ghost predicate AllShaped<T>(hunks: seq<UniHunk<T>>, gaps: seq<seq<Entry<T>>>) {
    && |hunks| == |gaps|
    && (forall i :: 0 <= i < |hunks| ==> Shaped(hunks[i], gaps[i]))
    && forall i :: 0 <= i && i + 1 < |hunks| ==> Apart(hunks[i], gaps[i + 1] + hunks[i + 1].common0)
  }

  /** The last hunk ends like the others, or where the script ends. */
  ghost predicate Cut<T>(hunks: seq<UniHunk<T>>, gaps: seq<seq<Entry<T>>>, tail: seq<Entry<T>>) {
    && AllShaped(hunks, gaps)
    && (hunks != [] && tail != [] ==> Apart(hunks[|hunks| - 1], tail))
  }

  /** The script with the deletions of each gap in front. */
  ghost function Grouped<T>(script: seq<Entry<T>>): seq<Entry<T>> {
    Run(script, true).0
  }

  ghost predicate CutWith<T>(hunks: seq<UniHunk<T>>, gaps: seq<seq<Entry<T>>>, tail: seq<Entry<T>>, script: seq<Entry<T>>) {
    && Layout(hunks, gaps) && Cut(hunks, gaps, tail) && AllCommon(tail)
    && Laid(hunks, gaps) + tail == Grouped(script)
  }

  /** The hunks are the script, with the deletions of each gap in front, cut where five commons or more stand in a row. */
  ghost predicate CutFrom<T(!new)>(hunks: seq<UniHunk<T>>, script: seq<Entry<T>>) {
    exists gaps, tail :: CutWith(hunks, gaps, tail, script)
  }

  lemma TrailPush<T>(s: seq<Entry<T>>, e: Entry<T>)
    ensures Trail(s + [e]) == if e.kind == Common then Trail(s) + 1 else 0
  {
    assert (s + [e])[..|s|] == s;
  }

  lemma {:induction false} TrailIsCommon<T>(s: seq<Entry<T>>, k: int)
    requires 0 <= k <= |s| && AllCommon(s[k..])
    ensures Trail(s) >= |s| - k
    decreases |s|
  {
    if k < |s| {
      assert s[|s| - 1] == s[k..][|s| - 1 - k];
      assert s[..|s| - 1][k..] == s[k..][..|s| - 1 - k];
      TrailIsCommon(s[..|s| - 1], k);
    }
  }

  lemma {:induction false} TrailCommons<T>(s: seq<Entry<T>>)
    ensures Trail(s) <= |s| && AllCommon(s[|s| - Trail(s)..])
    ensures Trail(s) < |s| ==> s[|s| - 1 - Trail(s)].kind != Common
  {
    if s != [] && s[|s| - 1].kind == Common {
      TrailCommons(s[..|s| - 1]);
      assert s[|s| - Trail(s)..] == s[..|s| - 1][|s| - Trail(s)..] + [s[|s| - 1]];
    }
  }

  lemma NoFivePush<T>(s: seq<Entry<T>>, e: Entry<T>)
    requires NoFive(s) && Trail(s + [e]) < 5
    ensures NoFive(s + [e])
  {
    var r := s + [e];
    forall k, m | 0 <= k && m == k + 5 <= |r|
      ensures !AllCommon(r[k..m])
    {
      if m <= |s| {
        assert r[k..m] == s[k..m];
      } else {
        assert r[k..m] == r[k..];
        if AllCommon(r[k..]) {
          TrailIsCommon(r, k);
        }
      }
    }
  }

  lemma {:induction false} NoFiveEdits<T>(s: seq<Entry<T>>, edits: seq<Entry<T>>)
    requires NoFive(s) && forall i :: 0 <= i < |edits| ==> edits[i].kind != Common
    ensures NoFive(s + edits) && (edits != [] ==> Trail(s + edits) == 0)
    decreases |edits|
  {
    hide NoFive;
    if edits == [] {
      assert s + edits == s;
    } else {
      var n := |edits| - 1;
      NoFiveEdits(s, edits[..n]);
      assert s + edits == s + edits[..n] + [edits[n]];
      TrailPush(s + edits[..n], edits[n]);
      NoFivePush(s + edits[..n], edits[n]);
    }
  }

  /** The next m entries are commons. */
  ghost predicate Ahead<T>(script: seq<Entry<T>>, i: nat, m: nat) {
    i + m <= |script| && forall j :: i <= j < i + m ==> script[j].kind == Common
  }

  /** What is pending spells what has been read and not yet laid out; new deletions go behind the pending ones. */
  ghost predicate Spelt<T>(script: seq<Entry<T>>, i: nat, front: seq<Entry<T>>, w: Work<T>)
    requires i <= |script|
  {
    && Grouped(script[..i]) == front + w.Body()
    && (i < |script| ==> Run(script[..i], true).1 ==
                           |front| + |w.common0| + |w.change| + if w.isAfter then 0 else |w.deletes|)
  }

  /** The pending change, and how the commons at its end have been counted. */
  ghost predicate Counted<T>(script: seq<Entry<T>>, i: nat, w: Work<T>) {
    && (w.change != [] ==> w.change[0].kind != Common) && NoFive(w.change)
    && (w.isMiddle ==>
          if w.deletes != [] || w.adds != [] then w.middle == 0 else
            || 1 <= Trail(w.change) == w.middle <= 2
            || (Trail(w.change) == 3 && w.middle == 0 && !Ahead(script, i, 2))
            || (Trail(w.change) == 4 && w.middle == 1 && !Ahead(script, i, 1)))
  }

  /** The last hunk is far enough from the pending one, or will be. */
  ghost predicate FarEnough<T>(script: seq<Entry<T>>, i: nat, last: UniHunk<T>, skip: seq<Entry<T>>, w: Work<T>) {
    var n := |skip| + |w.common0|;
    || (i == |script| && n == 0 && !w.isMiddle)
    || (Trail(last.change) == DTL_SEPARATE_SIZE && (n >= 2 || (!w.isMiddle && Ahead(script, i, 2 - n))))
  }

  /** What holds between two entries. */
  ghost predicate Cutting<T>(script: seq<Entry<T>>, i: nat, hunks: seq<UniHunk<T>>, gaps: seq<seq<Entry<T>>>, skip: seq<Entry<T>>, w: Work<T>)
    requires i <= |script|
  {
    && AllShaped(hunks, gaps) && Spelt(script, i, Laid(hunks, gaps) + skip, w)
    && Counted(script, i, w)
    && (skip != [] ==> |w.common0| == DTL_CONTEXT_SIZE)
    && (hunks != [] ==> FarEnough(script, i, hunks[|hunks| - 1], skip, w))
  }

  /** What holds when an entry has been taken and the hunk may be due. */
  ghost predicate Due<T>(script: seq<Entry<T>>, i: nat, hunks: seq<UniHunk<T>>, gaps: seq<seq<Entry<T>>>, skip: seq<Entry<T>>, w: Work<T>)
    requires i <= |script|
  {
    && AllShaped(hunks, gaps) && Spelt(script, i, Laid(hunks, gaps) + skip, w)
    && w.change != [] && w.change[0].kind != Common && NoFive(w.change)
    && (i < |script| ==> Trail(w.change) == 3)
    && (skip != [] ==> |w.common0| == DTL_CONTEXT_SIZE)
    && (hunks != [] ==> Trail(hunks[|hunks| - 1].change) == DTL_SEPARATE_SIZE && |skip| + |w.common0| >= 2)
  }

  lemma RunPush<T>(script: seq<Entry<T>>, i: nat)
    requires i < |script|
    ensures var (s, n) := Run(script[..i], true);
            var e := script[i];
            && n <= |s| && Run(script[..i + 1], true).0 == Inserted(s, true, n, e)
            && Run(script[..i + 1], true).1 == if e.kind == Add then n else if e.kind == Delete then n + 1 else |s| + 1
  {
    assert script[..i + 1][..i] == script[..i];
  }

  lemma SpeltAdd<T>(script: seq<Entry<T>>, i: nat, front: seq<Entry<T>>, w: Work<T>)
    requires i < |script| && Pieces(w) && !w.isAfter && script[i].kind == Add && Spelt(script, i, front, w)
    ensures Spelt(script, i + 1, front, TakeAdd(w, script[i], i + 1 == |script|))
  {
    hide Run, Pieces, Work.Body;
    TakeAddPieces(w, script[i], i + 1 == |script|);
    RunPush(script, i);
    assert front + w.Body() + [script[i]] == front + (w.Body() + [script[i]]);
  }

  lemma SpeltDelete<T>(script: seq<Entry<T>>, i: nat, front: seq<Entry<T>>, w: Work<T>)
    requires i < |script| && Pieces(w) && !w.isAfter && script[i].kind == Delete && Spelt(script, i, front, w)
    ensures Spelt(script, i + 1, front, TakeDelete(w, script[i], i + 1 == |script|))
  {
    hide Run, Pieces, Work.Body;
    TakeDeletePieces(w, script[i], i + 1 == |script|);
    RunPush(script, i);
    InsertBetween(front, w.common0 + w.change + w.deletes, w.adds, script[i]);
    assert |w.common0 + w.change + w.deletes| == |w.common0| + |w.change| + |w.deletes|;
  }

  lemma InsertBetween<X>(p: seq<X>, q: seq<X>, r: seq<X>, x: X)
    ensures var s, n := p + (q + r), |p| + |q|; s[..n] + [x] + s[n..] == p + (q + [x] + r)
  {
    var s, n := p + (q + r), |p| + |q|;
    assert s[..n] == p + q && s[n..] == r;
  }

  lemma CommonIsLast<T>(w: Work<T>, e: Entry<T>, last: bool, swapped: bool)
    requires Pieces(w) && !w.isAfter && e.kind == Common
    ensures var v := TakeCommon(w, e, last, swapped);
            |v.common0| + |v.change| + (if v.isAfter then 0 else |v.deletes|) == |v.Body()|
    ensures |Dropped(w)| <= |w.Body()|
  {
    hide AllCommon, AllOf;
  }

  lemma SpeltCommon<T>(script: seq<Entry<T>>, i: nat, front: seq<Entry<T>>, w: Work<T>, swapped: bool)
    requires i < |script| && Pieces(w) && !w.isAfter && script[i].kind == Common && Spelt(script, i, front, w)
    ensures Spelt(script, i + 1, front + Dropped(w), TakeCommon(w, script[i], i + 1 == |script|, swapped))
  {
    hide Run, Pieces, Dropped, TakeCommon, Work.Body;
    var e := script[i];
    TakeCommonPieces(w, e, i + 1 == |script|, swapped);
    CommonIsLast(w, e, i + 1 == |script|, swapped);
    RunPush(script, i);
    var k := |Dropped(w)|;
    Rotated(front, w.Body(), k, e);
  }

  lemma Rotated<X>(p: seq<X>, q: seq<X>, k: nat, x: X)
    requires k <= |q|
    ensures p + q[..k] + (q[k..] + [x]) == p + q + [x]
  {
    assert q == q[..k] + q[k..];
  }

  lemma CountedAdd<T>(script: seq<Entry<T>>, i: nat, w: Work<T>)
    requires i < |script| && Pieces(w) && !w.isAfter && script[i].kind == Add && Counted(script, i, w)
    ensures var v := TakeAdd(w, script[i], i + 1 == |script|);
            if v.isAfter then v.change != [] && v.change[0].kind != Common && NoFive(v.change) else Counted(script, i + 1, v)
  {
    hide NoFive, Trail;
    var e := script[i];
    if i + 1 == |script| {
      EditsJoined(w.change, w.deletes, w.adds + [e]);
    }
  }

  lemma EditsJoined<T>(change: seq<Entry<T>>, deletes: seq<Entry<T>>, adds: seq<Entry<T>>)
    requires NoFive(change) && AllOf(deletes, Delete) && AllOf(adds, Add) && (change != [] ==> change[0].kind != Common)
    requires |change| + |deletes| + |adds| > 0
    ensures var all := change + deletes + adds; all != [] && all[0].kind != Common && NoFive(all)
    ensures |deletes| + |adds| > 0 ==> Trail(change + deletes + adds) == 0
  {
    hide NoFive, Trail;
    assert change + deletes + adds == change + (deletes + adds);
    NoFiveEdits(change, deletes + adds);
  }

  lemma CountedDelete<T>(script: seq<Entry<T>>, i: nat, w: Work<T>)
    requires i < |script| && Pieces(w) && !w.isAfter && script[i].kind == Delete && Counted(script, i, w)
    ensures var v := TakeDelete(w, script[i], i + 1 == |script|);
            if v.isAfter then v.change != [] && v.change[0].kind != Common && NoFive(v.change) else Counted(script, i + 1, v)
  {
    hide NoFive, Trail;
    var e := script[i];
    if i + 1 == |script| {
      EditsJoined(w.change, w.deletes + [e], w.adds);
    }
  }

  lemma CountedCommon<T>(script: seq<Entry<T>>, i: nat, w: Work<T>, swapped: bool)
    requires i < |script| && Pieces(w) && !w.isAfter && script[i].kind == Common && Counted(script, i, w)
    ensures var v := TakeCommon(w, script[i], i + 1 == |script|, swapped);
            if v.isAfter
            then v.change != [] && v.change[0].kind != Common && NoFive(v.change) && (i + 1 < |script| ==> Trail(v.change) == 3)
            else Counted(script, i + 1, v)
  {
    hide NoFive, Trail;
    var e := script[i];
    if w.isMiddle {
      NotEmpty(w);
      var all := w.change + w.deletes + w.adds;
      EditsJoined(w.change, w.deletes, w.adds);
      if |w.deletes| + |w.adds| == 0 {
        assert all == w.change;
      }
      TrailPush(all, e);
      assert Trail(all) <= 3;
      NoFivePush(all, e);
      assert (all + [e])[0] == all[0];
    }
  }

  /** The hunk before stays far enough. */
  lemma FarEnoughNext<T>(script: seq<Entry<T>>, i: nat, last: UniHunk<T>, skip: seq<Entry<T>>, w: Work<T>, swapped: bool)
    requires i < |script| && Pieces(w) && !w.isAfter && FarEnough(script, i, last, skip, w)
    ensures var v := Take(w, script[i], i + 1 == |script|, swapped);
            var skip' := Skipped(skip, w, script[i]);
            && FarEnough(script, i + 1, last, skip', v)
            && (v.isMiddle ==> Trail(last.change) == DTL_SEPARATE_SIZE && |skip'| + |v.common0| >= 2)
  {
    hide Trail, Pieces;
    if script[i].kind == Common {
      TakeCommonPieces(w, script[i], i + 1 == |script|, swapped);
    }
  }

  lemma SkippedContext<T>(script: seq<Entry<T>>, i: nat, skip: seq<Entry<T>>, w: Work<T>, swapped: bool)
    requires i < |script| && Pieces(w) && !w.isAfter && (skip != [] ==> |w.common0| == DTL_CONTEXT_SIZE)
    ensures var v := Take(w, script[i], i + 1 == |script|, swapped);
            Skipped(skip, w, script[i]) != [] ==> |v.common0| == DTL_CONTEXT_SIZE
  {
    hide AllCommon, AllOf;
  }

  lemma SpeltNext<T>(script: seq<Entry<T>>, i: nat, front: seq<Entry<T>>, skip: seq<Entry<T>>, w: Work<T>, swapped: bool)
    requires i < |script| && Pieces(w) && !w.isAfter && Spelt(script, i, front + skip, w)
    ensures Spelt(script, i + 1, front + Skipped(skip, w, script[i]), Take(w, script[i], i + 1 == |script|, swapped))
  {
    hide Spelt, Pieces, Dropped, TakeAdd, TakeDelete, TakeCommon;
    match script[i].kind {
      case Add => SpeltAdd(script, i, front + skip, w);
      case Delete => SpeltDelete(script, i, front + skip, w);
      case Common =>
        SpeltCommon(script, i, front + skip, w, swapped);
        assert front + (skip + Dropped(w)) == front + skip + Dropped(w);
    }
  }

  lemma CountedNext<T>(script: seq<Entry<T>>, i: nat, w: Work<T>, swapped: bool)
    requires i < |script| && Pieces(w) && !w.isAfter && Counted(script, i, w)
    ensures var v := Take(w, script[i], i + 1 == |script|, swapped);
            if v.isAfter
            then v.change != [] && v.change[0].kind != Common && NoFive(v.change) && (i + 1 < |script| ==> Trail(v.change) == 3)
            else Counted(script, i + 1, v)
  {
    hide Counted, Pieces, NoFive, Trail;
    match script[i].kind {
      case Add => CountedAdd(script, i, w);
      case Delete => CountedDelete(script, i, w);
      case Common => CountedCommon(script, i, w, swapped);
    }
  }

  /** One entry more. */
  lemma CuttingNext<T>(script: seq<Entry<T>>, i: nat, hunks: seq<UniHunk<T>>, gaps: seq<seq<Entry<T>>>, skip: seq<Entry<T>>, w: Work<T>, swapped: bool)
    requires i < |script| && Pieces(w) && !w.isAfter && Cutting(script, i, hunks, gaps, skip, w)
    ensures var v := Take(w, script[i], i + 1 == |script|, swapped);
            var skip' := Skipped(skip, w, script[i]);
            if v.isAfter then v.isMiddle ==> Due(script, i + 1, hunks, gaps, skip', v)
            else Cutting(script, i + 1, hunks, gaps, skip', v)
  {
    hide Pieces, Take, Skipped, Spelt, Counted, FarEnough, NoFive, Trail, Shaped, Apart;
    SpeltNext(script, i, Laid(hunks, gaps), skip, w, swapped);
    CountedNext(script, i, w, swapped);
    SkippedContext(script, i, skip, w, swapped);
    if hunks != [] {
      FarEnoughNext(script, i, hunks[|hunks| - 1], skip, w, swapped);
    }
  }

  /** Too little context follows: the change goes on. */
  lemma CuttingStays<T>(script: seq<Entry<T>>, i: nat, hunks: seq<UniHunk<T>>, gaps: seq<seq<Entry<T>>>, skip: seq<Entry<T>>, w: Work<T>)
    requires 0 < i < |script| && Due(script, i, hunks, gaps, skip, w) && w.isAfter && |w.adds| == |w.deletes| == 0
    requires script[i - 1].kind == Common && !Ahead(script, i - 1, 3)
    ensures Cutting(script, i, hunks, gaps, skip, w.(middle := 0, isAfter := false))
  {
    hide Laid, Run, Trail, NoFive, AllShaped, AllCommon;
    var v := w.(middle := 0, isAfter := false);
    NoEditsLeft(w.common0 + w.change, w.deletes, w.adds);
    assert v.Body() == w.Body();
    assert !Ahead(script, i, 2);
  }

  lemma NoEditsLeft<X>(p: seq<X>, q: seq<X>, r: seq<X>)
    requires |q| == |r| == 0
    ensures p + q + r == p && q == [] && r == []
  {
  }

  lemma ShapedPush<T>(hunks: seq<UniHunk<T>>, gaps: seq<seq<Entry<T>>>, h: UniHunk<T>, gap: seq<Entry<T>>)
    requires AllShaped(hunks, gaps) && Shaped(h, gap)
    requires hunks != [] ==> Apart(hunks[|hunks| - 1], gap + h.common0)
    ensures AllShaped(hunks + [h], gaps + [gap])
  {
    hide Shaped, Apart;
  }

  /** The hunk is cut off. */
  lemma CuttingEmit<T>(script: seq<Entry<T>>, i: nat, hunks: seq<UniHunk<T>>, gaps: seq<seq<Entry<T>>>, skip: seq<Entry<T>>, w: Work<T>, swapped: bool)
    requires 0 < i <= |script| && Due(script, i, hunks, gaps, skip, w) && w.isAfter && Pieces(w)
    requires i < |script| ==> |w.adds| == |w.deletes| == 0 && Ahead(script, i - 1, 3)
    ensures Cutting(script, i, hunks + [Emit(w, swapped)], gaps + [skip], [], NoWork<T>())
  {
    hide Laid, Run, Trail, NoFive, AllCommon;
    var h := Emit(w, swapped);
    EmitFields(w, swapped);
    assert h.common0 == w.common0 && h.change == w.change;
    ShapedPush(hunks, gaps, h, skip);
    LaidPush(hunks, gaps, h, skip);
    var front := Laid(hunks, gaps) + skip;
    assert front + w.Body() == front + Shunk(h) + [] + NoWork<T>().Body();
    assert (hunks + [h])[|hunks|] == h;
    NoFiveNothing<T>();
    assert i < |script| ==> Ahead(script, i, 2);
  }

  lemma NoFiveNothing<T>()
    ensures NoFive<T>([])
  {
  }

  lemma CuttingStarts<T>(script: seq<Entry<T>>)
    ensures Cutting(script, 0, [], [], [], NoWork<T>())
  {
    NoFiveNothing<T>();
  }

  /** When all entries are read the hunks are cut from the script. */
  lemma CuttingEnds<T(!new)>(script: seq<Entry<T>>, hunks: seq<UniHunk<T>>, gaps: seq<seq<Entry<T>>>, skip: seq<Entry<T>>, w: Work<T>)
    requires Cutting(script, |script|, hunks, gaps, skip, w) && Layout(hunks, gaps) && AllCommon(skip) && Pieces(w) && !w.isMiddle && !w.isAfter
    ensures CutFrom(hunks, script)
  {
    LayoutLengths(hunks, gaps);
    EndIsCut(script, hunks, gaps, skip, w);
    EndIsSpelt(script, Laid(hunks, gaps), skip, w);
    hide *;
    CutWithParts(script, hunks, gaps, skip + w.common0);
  }

  lemma CutWithParts<T(!new)>(script: seq<Entry<T>>, hunks: seq<UniHunk<T>>, gaps: seq<seq<Entry<T>>>, tail: seq<Entry<T>>)
    requires |hunks| == |gaps| && Layout(hunks, gaps) && Cut(hunks, gaps, tail) && AllCommon(tail)
    requires Laid(hunks, gaps) + tail == Grouped(script)
    ensures CutFrom(hunks, script)
  {
    hide Layout, Cut, Laid, Run, AllCommon;
    assert CutWith(hunks, gaps, tail, script);
  }

  lemma Assoc<X>(p: seq<X>, q: seq<X>, r: seq<X>)
    ensures p + (q + r) == p + q + r
  {
  }

  lemma EndIsSpelt<T>(script: seq<Entry<T>>, front: seq<Entry<T>>, skip: seq<Entry<T>>, w: Work<T>)
    requires Spelt(script, |script|, front + skip, w) && AllCommon(skip) && Pieces(w) && !w.isMiddle && !w.isAfter
    ensures front + (skip + w.common0) == Grouped(script) && AllCommon(skip + w.common0)
  {
    hide Run;
    assert script[..|script|] == script && w.Body() == w.common0;
    assert AllCommon(skip + w.common0);
    hide *;
    Assoc(front, skip, w.common0);
  }

  lemma EndIsCut<T>(script: seq<Entry<T>>, hunks: seq<UniHunk<T>>, gaps: seq<seq<Entry<T>>>, skip: seq<Entry<T>>, w: Work<T>)
    requires Cutting(script, |script|, hunks, gaps, skip, w) && !w.isMiddle
    ensures Cut(hunks, gaps, skip + w.common0)
  {
    hide Laid, Spelt, Trail, NoFive, AllShaped, Counted;
  }

  lemma {:induction false} TrailOfCommons<T>(s: seq<Entry<T>>, t: seq<Entry<T>>)
    requires AllCommon(t)
    ensures Trail(s + t) == Trail(s) + |t|
    decreases |t|
  {
    if t == [] {
      assert s + t == s;
    } else {
      var n := |t| - 1;
      TrailOfCommons(s, t[..n]);
      assert s + t == s + t[..n] + [t[n]];
      TrailPush(s + t[..n], t[n]);
    }
  }

  lemma {:induction false} TrailOfEnd<T>(s: seq<Entry<T>>, t: seq<Entry<T>>)
    requires Trail(t) < |t|
    ensures Trail(s + t) == Trail(t)
    decreases |t|
  {
    var n := |t| - 1;
    assert s + t == s + t[..n] + [t[n]];
    TrailPush(s + t[..n], t[n]);
    if t[n].kind == Common {
      TrailOfEnd(s, t[..n]);
    }
  }

  lemma {:induction false} NotInTrail<T>(s: seq<Entry<T>>, i: int)
    requires 0 <= i < |s| && s[i].kind != Common
    ensures Trail(s) <= |s| - 1 - i
    decreases |s|
  {
    if i < |s| - 1 {
      NotInTrail(s[..|s| - 1], i);
    }
  }

  lemma FiveCommons<T>(s: seq<Entry<T>>)
    requires Trail(s) > 4
    ensures |s| >= 5 && AllCommon(s[|s| - 5..|s|])
  {
    TrailCommons(s);
    assert s[|s| - 5..|s|] == s[|s| - Trail(s)..][Trail(s) - 5..];
  }

  lemma NoFiveTrail<T>(s: seq<Entry<T>>)
    requires NoFive(s)
    ensures Trail(s) <= 4
  {
    if Trail(s) > 4 {
      FiveCommons(s);
    }
  }

  lemma NoFivePrefix<T>(s: seq<Entry<T>>, n: int)
    requires NoFive(s) && 0 <= n <= |s|
    ensures NoFive(s[..n])
  {
    forall k, m | 0 <= k && m == k + 5 <= n
      ensures !AllCommon(s[..n][k..m])
    {
      assert s[..n][k..m] == s[k..m];
    }
  }

  lemma TrailOfChange<T>(change: seq<Entry<T>>)
    requires change != [] && change[0].kind != Common && NoFive(change)
    ensures Trail(change) <= 4 && Trail(change) < |change|
  {
    NotInTrail(change, 0);
    NoFiveTrail(change);
  }

  ghost predicate Spells<T>(hunks: seq<UniHunk<T>>, gaps: seq<seq<Entry<T>>>, tail: seq<Entry<T>>, s: seq<Entry<T>>) {
    && Layout(hunks, gaps) && Cut(hunks, gaps, tail) && AllCommon(tail)
    && Laid(hunks, gaps) + tail == s
  }

  /** Before position q no change can begin that ends at e. */
  ghost predicate ChangeAt<T>(s: seq<Entry<T>>, q: int, e: int) {
    && 0 <= q < e <= |s| && s[q].kind != Common && NoFive(s[q..e])
    && (Trail(s[..q]) == q || Trail(s[..q]) >= 5)
  }

  /** Within a change fewer than five commons are behind. */
  lemma WithinChange<T>(s: seq<Entry<T>>, q: int, r: int, e: int)
    requires 0 <= q < r <= e <= |s| && s[q].kind != Common && NoFive(s[q..e])
    ensures Trail(s[..r]) <= 4 && Trail(s[..r]) < r
  {
    NoFivePrefix(s[q..e], r - q);
    assert s[q..r] == s[q..e][..r - q] && s[..r] == s[..q] + s[q..r];
    TrailOfChange(s[q..r]);
    TrailOfEnd(s[..q], s[q..r]);
  }

  lemma NoEarlierChange<T>(s: seq<Entry<T>>, q: int, r: int, e: int)
    requires ChangeAt(s, q, e) && ChangeAt(s, r, e)
    ensures q >= r
  {
    if q < r {
      WithinChange(s, q, r, e);
    }
  }

  lemma CutPrefix<T>(hunks: seq<UniHunk<T>>, gaps: seq<seq<Entry<T>>>, tail: seq<Entry<T>>)
    requires Layout(hunks, gaps) && Cut(hunks, gaps, tail) && hunks != []
    ensures var n := |hunks| - 1;
            && Layout(hunks[..n], gaps[..n]) && Placed(hunks, gaps, n)
            && Cut(hunks[..n], gaps[..n], gaps[n] + hunks[n].common0) && Shaped(hunks[n], gaps[n])
            && (n > 0 ==> Apart(hunks[n - 1], gaps[n] + hunks[n].common0))
            && (tail != [] ==> Apart(hunks[n], tail))
            && AllCommon(gaps[n] + hunks[n].common0)
  {
    hide Shaped, Apart, Located, Laid;
    var n := |hunks| - 1;
    var hs, gs := hunks[..n], gaps[..n];
    forall i | 0 <= i < n
      ensures Placed(hs, gs, i)
    {
      assert hs[..i] == hunks[..i] && gs[..i] == gaps[..i];
      assert Placed(hunks, gaps, i);
    }
    assert Placed(hunks, gaps, n);
  }

  lemma ChangeIsAt<T>(before: seq<Entry<T>>, change: seq<Entry<T>>, tail: seq<Entry<T>>)
    requires change != [] && change[0].kind != Common && NoFive(change) && AllCommon(tail)
    requires Trail(before) == |before| || Trail(before) >= 5
    requires tail != [] ==> Trail(change) == 3 && |tail| >= 2
    ensures var s := before + change + tail;
            && s[..|before|] == before && s[|before|..|s| - |tail|] == change && ChangeAt(s, |before|, |s| - |tail|)
            && |tail| == if Trail(s) <= 4 then 0 else Trail(s) - 3
  {
    hide NoFive, AllCommon;
    var s := before + change + tail;
    assert s[..|before|] == before && s[|before|..|s| - |tail|] == change && s[|before|] == change[0];
    TrailOfChange(change);
    TrailOfEnd(before, change);
    TrailOfCommons(before + change, tail);
  }

  /** What stands before the last change: commons only, or a hunk and at least two commons after it. */
  lemma BeforeLast<T>(hunks: seq<UniHunk<T>>, gaps: seq<seq<Entry<T>>>, rest: seq<Entry<T>>)
    requires Layout(hunks, gaps) && Cut(hunks, gaps, rest) && AllCommon(rest)
    requires hunks != [] ==> Apart(hunks[|hunks| - 1], rest)
    ensures |hunks| == |gaps| && var before := Laid(hunks, gaps) + rest; Trail(before) == |before| || Trail(before) >= 5
  {
    LayoutLengths(hunks, gaps);
    hide Layout, NoFive, Laid;
    TrailOfCommons(Laid(hunks, gaps), rest);
    if hunks != [] {
      LastOfLaid(hunks, gaps);
    } else {
      LaidNothing(hunks, gaps);
    }
  }

  lemma LaidLast<T>(hunks: seq<UniHunk<T>>, gaps: seq<seq<Entry<T>>>)
    requires |hunks| == |gaps| && hunks != [] && hunks[|hunks| - 1].common1 == []
    ensures var n := |hunks| - 1;
            Laid(hunks, gaps) == Laid(hunks[..n], gaps[..n]) + (gaps[n] + hunks[n].common0) + hunks[n].change
  {
    var n := |hunks| - 1;
    var front := Laid(hunks[..n], gaps[..n]);
    assert Laid(hunks, gaps) == front + gaps[n] + Shunk(hunks[n]);
    hide Laid;
    GroupedApart(front, gaps[n], hunks[n].common0, hunks[n].change);
  }

  lemma GroupedApart<X>(p: seq<X>, q: seq<X>, r: seq<X>, t: seq<X>)
    ensures p + q + (r + t + []) == p + (q + r) + t
  {
  }

  /** Where the tail begins, and where the last change. */
  lemma LastCut<T>(hunks: seq<UniHunk<T>>, gaps: seq<seq<Entry<T>>>, tail: seq<Entry<T>>, s: seq<Entry<T>>) returns (q: int)
    requires Spells(hunks, gaps, tail, s) && hunks != []
    ensures |tail| == if Trail(s) <= 4 then 0 else Trail(s) - 3
    ensures var n, e := |hunks| - 1, |s| - |tail|;
            && |hunks| == |gaps| && ChangeAt(s, q, e) && 0 <= q <= e <= |s| && s[q..e] == hunks[n].change
            && Spells(hunks[..n], gaps[..n], gaps[n] + hunks[n].common0, s[..q])
  {
    hide *;
    LastParts(hunks, gaps, tail, s);
    var n := |hunks| - 1;
    BeforeLast(hunks[..n], gaps[..n], gaps[n] + hunks[n].common0);
    var before := Laid(hunks[..n], gaps[..n]) + (gaps[n] + hunks[n].common0);
    q := |before|;
    ChangeIsAt(before, hunks[n].change, tail);
    SpellsIs(hunks[..n], gaps[..n], gaps[n] + hunks[n].common0, before);
  }

  lemma SpellsIs<T>(hunks: seq<UniHunk<T>>, gaps: seq<seq<Entry<T>>>, tail: seq<Entry<T>>, s: seq<Entry<T>>)
    requires |hunks| == |gaps| && Layout(hunks, gaps) && Cut(hunks, gaps, tail) && AllCommon(tail) && Laid(hunks, gaps) + tail == s
    ensures Spells(hunks, gaps, tail, s)
  {
  }

  lemma LastParts<T>(hunks: seq<UniHunk<T>>, gaps: seq<seq<Entry<T>>>, tail: seq<Entry<T>>, s: seq<Entry<T>>)
    requires Spells(hunks, gaps, tail, s) && hunks != []
    ensures var n := |hunks| - 1;
            && |hunks| == |gaps| && AllCommon(tail)
            && hunks[n].change != [] && hunks[n].change[0].kind != Common && NoFive(hunks[n].change)
            && (tail != [] ==> Trail(hunks[n].change) == 3 && |tail| >= 2)
            && s == Laid(hunks[..n], gaps[..n]) + (gaps[n] + hunks[n].common0) + hunks[n].change + tail
            && Layout(hunks[..n], gaps[..n]) && Cut(hunks[..n], gaps[..n], gaps[n] + hunks[n].common0)
            && AllCommon(gaps[n] + hunks[n].common0)
            && (hunks[..n] != [] ==> Apart(hunks[..n][n - 1], gaps[n] + hunks[n].common0))
  {
    CutPrefix(hunks, gaps, tail);
    hide Layout, Cut, Placed, NoFive, Located, Laid, AllCommon, Trail;
    LastPlaced(hunks, gaps);
    LaidLast(hunks, gaps);
  }

  lemma LastPlaced<T>(hunks: seq<UniHunk<T>>, gaps: seq<seq<Entry<T>>>)
    requires |hunks| == |gaps| && hunks != [] && Placed(hunks, gaps, |hunks| - 1)
    ensures hunks[|hunks| - 1].common1 == []
  {
  }

  lemma LastOfLaid<T>(hunks: seq<UniHunk<T>>, gaps: seq<seq<Entry<T>>>)
    requires Layout(hunks, gaps) && AllShaped(hunks, gaps) && hunks != []
    ensures Trail(Laid(hunks, gaps)) == Trail(hunks[|hunks| - 1].change)
  {
    var n := |hunks| - 1;
    var h := hunks[n];
    assert Placed(hunks, gaps, n) && Shaped(h, gaps[n]);
    hide Layout, AllShaped, NoFive;
    var front := Laid(hunks[..n], gaps[..n]) + gaps[n] + h.common0;
    assert Laid(hunks, gaps) == front + h.change;
    TrailOfChange(h.change);
    TrailOfEnd(front, h.change);
  }

  lemma {:induction false} EditsSomewhere<T>(hunks: seq<UniHunk<T>>, gaps: seq<seq<Entry<T>>>, tail: seq<Entry<T>>, s: seq<Entry<T>>)
    requires Spells(hunks, gaps, tail, s)
    ensures hunks == [] <==> AllCommon(s)
  {
    if hunks != [] {
      var q := LastCut(hunks, gaps, tail, s);
      assert s[q].kind != Common;
    } else {
      assert [] + tail == tail;
    }
  }

  /** A stretch of commons is divided in one way into what is skipped and the context. */
  lemma ContextOfGap<T>(gap: seq<Entry<T>>, context: seq<Entry<T>>, gap': seq<Entry<T>>, context': seq<Entry<T>>)
    requires gap + context == gap' + context' && |context| <= 3 && |context'| <= 3
    requires (gap != [] ==> |context| == 3) && (gap' != [] ==> |context'| == 3)
    ensures gap == gap' && context == context'
  {
    assert |gap + context| == |gap' + context'|;
    assert gap == (gap + context)[..|gap|] && context == (gap + context)[|gap|..];
    assert gap' == (gap' + context')[..|gap'|] && context' == (gap' + context')[|gap'|..];
  }

  lemma LastHunk<T>(h: UniHunk<T>, h': UniHunk<T>, prefix: seq<Entry<T>>)
    requires Located(h, prefix) && Located(h', prefix) && h.common1 == h'.common1
    requires h.common0 == h'.common0 && h.change == h'.change
    ensures h == h'
  {
  }

  /** A script is cut into hunks in one way only. */
  lemma {:induction false} OneCut<T>(hunks: seq<UniHunk<T>>, gaps: seq<seq<Entry<T>>>, tail: seq<Entry<T>>,
                                     hunks': seq<UniHunk<T>>, gaps': seq<seq<Entry<T>>>, tail': seq<Entry<T>>, s: seq<Entry<T>>)
    requires Spells(hunks, gaps, tail, s) && Spells(hunks', gaps', tail', s)
    ensures hunks == hunks' && gaps == gaps' && tail == tail'
    decreases |hunks|
  {
    hide Spells, AllCommon, NoFive, Shaped, Located, ChangeAt, Laid, Trail;
    EditsSomewhere(hunks, gaps, tail, s);
    EditsSomewhere(hunks', gaps', tail', s);
    SpellsParts(hunks, gaps, tail, s);
    SpellsParts(hunks', gaps', tail', s);
    if hunks != [] {
      var n, n' := |hunks| - 1, |hunks'| - 1;
      var q := LastCut(hunks, gaps, tail, s);
      var q' := LastCut(hunks', gaps', tail', s);
      NoEarlierChange(s, q, q', |s| - |tail|);
      NoEarlierChange(s, q', q, |s| - |tail|);
      OneCut(hunks[..n], gaps[..n], gaps[n] + hunks[n].common0, hunks'[..n'], gaps'[..n'], gaps'[n'] + hunks'[n'].common0, s[..q]);
      ContextOfGap(gaps[n], hunks[n].common0, gaps'[n'], hunks'[n'].common0);
      LastHunk(hunks[n], hunks'[n'], Laid(hunks[..n], gaps[..n]) + gaps[n]);
      assert hunks == hunks[..n] + [hunks[n]] && hunks' == hunks'[..n'] + [hunks'[n']];
      assert gaps == gaps[..n] + [gaps[n]] && gaps' == gaps'[..n'] + [gaps'[n']];
    }
  }

  lemma SpellsParts<T>(hunks: seq<UniHunk<T>>, gaps: seq<seq<Entry<T>>>, tail: seq<Entry<T>>, s: seq<Entry<T>>)
    requires Spells(hunks, gaps, tail, s)
    ensures |hunks| == |gaps| && |tail| <= |s| && tail == s[|s| - |tail|..]
    ensures hunks == [] ==> tail == s && gaps == []
    ensures hunks != [] ==>
              var n := |hunks| - 1;
              && Located(hunks[n], Laid(hunks[..n], gaps[..n]) + gaps[n]) && hunks[n].common1 == []
              && |hunks[n].common0| <= 3 && (gaps[n] != [] ==> |hunks[n].common0| == 3)
  {
    hide NoFive, AllCommon, Located, Apart;
    if hunks == [] {
      assert [] + tail == tail;
    } else {
      assert Placed(hunks, gaps, |hunks| - 1) && Shaped(hunks[|hunks| - 1], gaps[|hunks| - 1]);
    }
  }

  /** The hunks of a script are determined by the script. */
  lemma HunksDetermined<T(!new)>(hunks: seq<UniHunk<T>>, hunks': seq<UniHunk<T>>, script: seq<Entry<T>>)
    requires CutFrom(hunks, script) && CutFrom(hunks', script)
    ensures hunks == hunks'
  {
    hide Layout, Cut, Laid, Run, AllCommon;
    var gaps, tail :| CutWith(hunks, gaps, tail, script);
    var gaps', tail' :| CutWith(hunks', gaps', tail', script);
    OneCut(hunks, gaps, tail, hunks', gaps', tail', Grouped(script));
  }
}
