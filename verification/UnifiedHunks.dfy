/** Unified-format hunks: how a script is cut into hunks, and what the header of a hunk must say for
    the hunk to be found again. */
module UnifiedHunks {
  import opened EditScript
  import opened CommonSubsequence

  const DTL_SEPARATE_SIZE := 3
  const DTL_CONTEXT_SIZE := 3

  /** "@@ -a,b +c,d @@", the context before, the changes, the context after, and d - b. */
  datatype UniHunk<T> = UniHunk(a: int, b: int, c: int, d: int,
                                common0: seq<Entry<T>>, change: seq<Entry<T>>, common1: seq<Entry<T>>,
                                incDecCount: int)

  function Shunk<T>(h: UniHunk<T>): seq<Entry<T>> {
    h.common0 + h.change + h.common1
  }

  /** The header places the hunk after the given prefix, in the source and in the target. */
  ghost predicate Located<T>(h: UniHunk<T>, prefix: seq<Entry<T>>) {
    && h.a == |Source(prefix)| + 1 && h.b == |Source(Shunk(h))|
    && h.c == |Target(prefix)| + 1 && h.d == |Target(Shunk(h))|
    && h.incDecCount == h.d - h.b
  }

  /** The script that the hunks and the untouched stretches before them spell. */
  ghost function Laid<T>(hunks: seq<UniHunk<T>>, gaps: seq<seq<Entry<T>>>): seq<Entry<T>>
    requires |hunks| == |gaps|
  {
    if hunks == [] then []
    else var n := |hunks| - 1; Laid(hunks[..n], gaps[..n]) + gaps[n] + Shunk(hunks[n])
  }

  ghost predicate Placed<T>(hunks: seq<UniHunk<T>>, gaps: seq<seq<Entry<T>>>, i: nat)
    requires |hunks| == |gaps| && i < |hunks|
  {
    && AllCommon(gaps[i])
    && Located(hunks[i], Laid(hunks[..i], gaps[..i]) + gaps[i])
    && AllCommon(hunks[i].common0) && |hunks[i].common0| <= DTL_CONTEXT_SIZE
    && hunks[i].common1 == []
    && !AllCommon(hunks[i].change)
  }

  ghost predicate Layout<T>(hunks: seq<UniHunk<T>>, gaps: seq<seq<Entry<T>>>) {
    |hunks| == |gaps| && forall i :: 0 <= i < |hunks| ==> Placed(hunks, gaps, i)
  }

  ghost predicate DescribesWith<T>(hunks: seq<UniHunk<T>>, gaps: seq<seq<Entry<T>>>, tail: seq<Entry<T>>,
                                   a: seq<T>, b: seq<T>)
  {
    Layout(hunks, gaps) && AllCommon(tail) && IsScript(Laid(hunks, gaps) + tail, a, b)
  }

  /** The hunks are disjoint and in order, say where they are in a and in b, and leave nothing but
      common elements outside. */
  ghost predicate Describes<T(!new)>(hunks: seq<UniHunk<T>>, a: seq<T>, b: seq<T>) {
    exists gaps, tail :: DescribesWith(hunks, gaps, tail, a, b)
  }

  lemma LaidPush<T>(hunks: seq<UniHunk<T>>, gaps: seq<seq<Entry<T>>>, h: UniHunk<T>, gap: seq<Entry<T>>)
    requires |hunks| == |gaps|
    ensures Laid(hunks + [h], gaps + [gap]) == Laid(hunks, gaps) + gap + Shunk(h)
  {
    assert (hunks + [h])[..|hunks|] == hunks && (gaps + [gap])[..|gaps|] == gaps;
  }

  lemma LayoutPush<T>(hunks: seq<UniHunk<T>>, gaps: seq<seq<Entry<T>>>, h: UniHunk<T>, gap: seq<Entry<T>>)
    requires Layout(hunks, gaps) && AllCommon(gap) && Located(h, Laid(hunks, gaps) + gap)
    requires AllCommon(h.common0) && |h.common0| <= DTL_CONTEXT_SIZE && h.common1 == [] && !AllCommon(h.change)
    ensures Layout(hunks + [h], gaps + [gap])
  {
    hide Located, AllCommon, Laid;
    var hs, gs := hunks + [h], gaps + [gap];
    forall i | 0 <= i < |hs|
      ensures Placed(hs, gs, i)
    {
      assert hs[..i] == hunks[..i] && gs[..i] == gaps[..i];
      if i < |hunks| {
        assert Placed(hunks, gaps, i);
      } else {
        assert hunks[..i] == hunks && gaps[..i] == gaps;
      }
    }
  }

  /** The working variables of the composition. */
  datatype Work<T> = Work(common0: seq<Entry<T>>, change: seq<Entry<T>>, deletes: seq<Entry<T>>, adds: seq<Entry<T>>,
                          a: int, b: int, c: int, d: int, incDecCount: int,
                          middle: int, isMiddle: bool, isAfter: bool)
  {
    /** The pending entries: once the hunk is due, the last edits are part of the change. */
    function Body(): seq<Entry<T>> {
      if isAfter then common0 + change else common0 + change + deletes + adds
    }

    function Edits(): seq<Entry<T>> {
      if isAfter then change else change + deletes + adds
    }
  }

  function NoWork<T>(): Work<T> {
    Work([], [], [], [], 0, 0, 0, 0, 0, 0, false, false)
  }

  /** The entry is an addition. */
  function TakeAdd<T>(w: Work<T>, e: Entry<T>, last: bool): Work<T> {
    var w := w.(middle := 0, incDecCount := w.incDecCount + 1, adds := w.adds + [e], isMiddle := true, d := w.d + 1);
    if last then w.(change := w.change + w.deletes + w.adds, isAfter := true) else w
  }

  function TakeDelete<T>(w: Work<T>, e: Entry<T>, last: bool): Work<T> {
    var w := w.(middle := 0, incDecCount := w.incDecCount - 1, deletes := w.deletes + [e], isMiddle := true, b := w.b + 1);
    if last then w.(change := w.change + w.deletes + w.adds, isAfter := true) else w
  }

  function TakeCommon<T>(w: Work<T>, e: Entry<T>, last: bool, swapped: bool): Work<T> {
    var w := w.(b := w.b + 1, d := w.d + 1);
    var w :=
      if |w.adds| == |w.deletes| == |w.change| == 0 then
        if |w.common0| < DTL_CONTEXT_SIZE then
          var w := if w.a == 0 && w.c == 0 then
                     w.(a := if swapped then e.afterIdx else e.beforeIdx,
                        c := if swapped then e.beforeIdx else e.afterIdx)
                   else w;
          w.(common0 := w.common0 + [e])
        else
          w.(common0 := w.common0[1..] + [e], a := w.a + 1, c := w.c + 1, b := w.b - 1, d := w.d - 1)
      else w;
    if w.isMiddle && !w.isAfter then
      w.(middle := w.middle + 1,
         change := w.change + w.deletes + w.adds + [e],
         isAfter := w.middle + 1 >= DTL_SEPARATE_SIZE || last,
         adds := [], deletes := [])
    else w
  }

  function Take<T>(w: Work<T>, e: Entry<T>, last: bool, swapped: bool): Work<T> {
    match e.kind
    case Add => TakeAdd(w, e, last)
    case Delete => TakeDelete(w, e, last)
    case Common => TakeCommon(w, e, last, swapped)
  }

  /** The hunk that the working variables make. */
  function Emit<T>(w: Work<T>, swapped: bool): UniHunk<T> {
    var cut := if |w.common0| >= DTL_SEPARATE_SIZE then |w.common0| - DTL_SEPARATE_SIZE else 0;
    var a, c := w.a + cut, w.c + cut;
    var a, c := if a == 0 then 1 else a, if c == 0 then 1 else c;
    UniHunk(if swapped then c else a, w.b, if swapped then a else c, w.d, w.common0[cut..], w.change, [], w.incDecCount)
  }

  /** The front and the pending body end where the first i entries end; b and d count the body. */
  ghost predicate Ends<T>(script: seq<Entry<T>>, i: nat, front: seq<Entry<T>>, body: seq<Entry<T>>, b: int, d: int)
    requires i <= |script|
  {
    && Source(front) + Source(body) == Source(script[..i]) && b == |Source(body)|
    && Target(front) + Target(body) == Target(script[..i]) && d == |Target(body)|
  }

  /** What the working variables hold, whatever has been read. */
  ghost predicate Pieces<T>(w: Work<T>) {
    && AllCommon(w.common0) && |w.common0| <= DTL_CONTEXT_SIZE
    && AllOf(w.deletes, Delete) && AllOf(w.adds, Add)
    && (!w.isMiddle ==> w.change == w.deletes == w.adds == [] && !w.isAfter)
    && (w.isMiddle ==> !AllCommon(w.Edits()))
  }

  /** The hunk begins right after the front. */
  ghost predicate Begins<T>(front: seq<Entry<T>>, swapped: bool, w: Work<T>) {
    if w.common0 == [] then w.a == w.c == 0
    else
      && (if swapped then w.c else w.a) == |Source(front)| + 1
      && (if swapped then w.a else w.c) == |Target(front)| + 1
  }

  /** What holds of the working variables after i entries, when hunks and skipped commons spell the
      front. */
  ghost predicate Consistent<T>(script: seq<Entry<T>>, i: nat, swapped: bool, front: seq<Entry<T>>, w: Work<T>)
    requires i <= |script|
  {
    && Pieces(w)
    && Begins(front, swapped, w)
    && Ends(script, i, front, w.Body(), w.b, w.d)
    && w.incDecCount == w.d - w.b
  }

  lemma EndsPush<T>(script: seq<Entry<T>>, i: nat, front: seq<Entry<T>>, body: seq<Entry<T>>, b: int, d: int)
    requires i < |script| && Ends(script, i, front, body, b, d)
    ensures Ends(script, i + 1, front, body + [script[i]],
                 b + (if script[i].kind == Add then 0 else 1), d + (if script[i].kind == Delete then 0 else 1))
  {
    hide Source, Target;
    assert script[..i + 1] == script[..i] + [script[i]];
    PushOne(script[..i], script[i]);
    PushOne(body, script[i]);
  }

  lemma EndsSlide<T>(script: seq<Entry<T>>, i: nat, front: seq<Entry<T>>, x: seq<Entry<T>>, adds: seq<Entry<T>>, b: int, d: int)
    requires i < |script| && Ends(script, i, front, x + adds, b, d) && AllOf(adds, Add) && script[i].kind == Delete
    ensures Ends(script, i + 1, front, x + [script[i]] + adds, b + 1, d)
  {
    hide Source, Target, Commons, Cost;
    var e := script[i];
    assert script[..i + 1] == script[..i] + [e];
    PushOne(script[..i], e);
    Concat(x + [e], adds);
    Concat(x, adds);
    PushOne(x, e);
    AddsHaveNoSource(adds);
  }

  lemma EndsRotate<T>(script: seq<Entry<T>>, i: nat, front: seq<Entry<T>>, context: seq<Entry<T>>, b: int, d: int)
    requires i < |script| && Ends(script, i, front, context, b, d)
    requires context != [] && AllCommon(context) && script[i].kind == Common
    ensures Ends(script, i + 1, front + [context[0]], context[1..] + [script[i]], b, d)
    ensures |Source(front + [context[0]])| == |Source(front)| + 1
    ensures |Target(front + [context[0]])| == |Target(front)| + 1
  {
    hide Source, Target;
    var c, e := context[0], script[i];
    assert script[..i + 1] == script[..i] + [e];
    PushOne(script[..i], e);
    PushOne(front, c);
    PushOne([], c);
    PushOne(context[1..], e);
    assert context == [c] + context[1..] && [] + [c] == [c];
    Concat([c], context[1..]);
    EmptyEnds<T>();
  }

  lemma EmptyEnds<T>()
    ensures Source<T>([]) == [] && Target<T>([]) == []
  {
  }

  lemma NotAllCommon<T>(s: seq<Entry<T>>, i: nat)
    requires i < |s| && s[i].kind != Common
    ensures !AllCommon(s)
  {
  }

  lemma TakeAddPieces<T>(w: Work<T>, e: Entry<T>, last: bool)
    requires Pieces(w) && !w.isAfter && e.kind == Add
    ensures Pieces(TakeAdd(w, e, last)) && TakeAdd(w, e, last).Body() == w.Body() + [e]
  {
    hide AllCommon;
    var v := TakeAdd(w, e, last);
    NotAllCommon(v.Edits(), |v.Edits()| - 1);
    AddGroups(w.common0, w.change, w.deletes, w.adds, e);
  }

  lemma AddGroups<X>(p: seq<X>, q: seq<X>, r: seq<X>, s: seq<X>, x: X)
    ensures p + q + r + (s + [x]) == p + q + r + s + [x]
    ensures p + (q + r + (s + [x])) == p + q + r + s + [x]
  {
  }

  lemma TakeAddConsistent<T>(script: seq<Entry<T>>, i: nat, swapped: bool, front: seq<Entry<T>>, w: Work<T>)
    requires i < |script| && Consistent(script, i, swapped, front, w) && !w.isAfter
    requires script[i].kind == Add
    ensures Consistent(script, i + 1, swapped, front, TakeAdd(w, script[i], i + 1 == |script|))
  {
    hide Ends, Pieces, Work.Body;
    TakeAddPieces(w, script[i], i + 1 == |script|);
    EndsPush(script, i, front, w.Body(), w.b, w.d);
  }

  lemma TakeDeletePieces<T>(w: Work<T>, e: Entry<T>, last: bool)
    requires Pieces(w) && !w.isAfter && e.kind == Delete
    ensures Pieces(TakeDelete(w, e, last)) && AllOf(w.adds, Add)
    ensures w.Body() == w.common0 + w.change + w.deletes + w.adds
    ensures TakeDelete(w, e, last).Body() == w.common0 + w.change + w.deletes + [e] + w.adds
  {
    hide AllCommon;
    var v := TakeDelete(w, e, last);
    NotAllCommon(v.Edits(), |w.change + w.deletes|);
    if last {
      Regroup(w.common0, w.change, w.deletes, [e], w.adds);
    } else {
      assert w.common0 + w.change + (w.deletes + [e]) == w.common0 + w.change + w.deletes + [e];
    }
  }

  lemma Regroup<X>(p: seq<X>, q: seq<X>, r: seq<X>, s: seq<X>, t: seq<X>)
    ensures p + (q + (r + s) + t) == p + q + r + s + t
  {
  }

  lemma TakeDeleteConsistent<T>(script: seq<Entry<T>>, i: nat, swapped: bool, front: seq<Entry<T>>, w: Work<T>)
    requires i < |script| && Consistent(script, i, swapped, front, w) && !w.isAfter
    requires script[i].kind == Delete
    ensures Consistent(script, i + 1, swapped, front, TakeDelete(w, script[i], i + 1 == |script|))
  {
    hide Ends, Pieces, Work.Body;
    TakeDeletePieces(w, script[i], i + 1 == |script|);
    EndsSlide(script, i, front, w.common0 + w.change + w.deletes, w.adds, w.b, w.d);
  }

  /** The common that drops out of the context when one more arrives. */
  function Dropped<T>(w: Work<T>): seq<Entry<T>> {
    if |w.adds| == |w.deletes| == |w.change| == 0 && |w.common0| >= DTL_CONTEXT_SIZE then [w.common0[0]] else []
  }

  lemma TakeCommonPieces<T>(w: Work<T>, e: Entry<T>, last: bool, swapped: bool)
    requires Pieces(w) && !w.isAfter && e.kind == Common
    ensures Pieces(TakeCommon(w, e, last, swapped)) && AllCommon(Dropped(w)) && AllCommon(w.common0)
    ensures w.isMiddle <==> |w.change| + |w.deletes| + |w.adds| > 0
    ensures !w.isMiddle ==> w.Body() == w.common0
    ensures TakeCommon(w, e, last, swapped).Body() == w.Body()[|Dropped(w)|..] + [e]
    ensures Dropped(w) == w.Body()[..|Dropped(w)|]
  {
    var v := TakeCommon(w, e, last, swapped);
    var edits := w.change + w.deletes + w.adds;
    if w.isMiddle {
      var j :| 0 <= j < |edits| && edits[j].kind != Common;
      assert v.change == edits + [e] && v.Edits() == edits + [e];
      assert (edits + [e])[j] == edits[j];
      MiddleBody(w.common0, w.change, w.deletes, w.adds, e);
    }
  }

  lemma MiddleBody<X>(p: seq<X>, q: seq<X>, r: seq<X>, s: seq<X>, x: X)
    ensures p + (q + r + s + [x]) == p + q + r + s + [x]
    ensures p + (q + r + s + [x]) + [] + [] == p + q + r + s + [x]
    ensures (p + q + r + s)[0..] == p + q + r + s
  {
  }

  lemma TakeCommonConsistent<T>(script: seq<Entry<T>>, i: nat, swapped: bool, front: seq<Entry<T>>, w: Work<T>)
    requires i < |script| && Consistent(script, i, swapped, front, w) && !w.isAfter
    requires script[i].kind == Common && IndexedAt(script, i)
    ensures Consistent(script, i + 1, swapped, front + Dropped(w),
                       TakeCommon(w, script[i], i + 1 == |script|, swapped))
    ensures AllCommon(Dropped(w))
  {
    hide Ends, Source, Target, Pieces, Work.Body, AllCommon;
    TakeCommonPieces(w, script[i], i + 1 == |script|, swapped);
    if Dropped(w) == [] {
      assert front + [] == front && w.Body()[0..] == w.Body();
      EndsPush(script, i, front, w.Body(), w.b, w.d);
      BeginsHere(script, i, front, w.b, w.d);
    } else {
      EndsRotate(script, i, front, w.common0, w.b, w.d);
    }
  }

  lemma BeginsHere<T>(script: seq<Entry<T>>, i: nat, front: seq<Entry<T>>, b: int, d: int)
    requires i <= |script|
    ensures Ends(script, i, front, [], b, d) ==>
              |Source(script[..i])| == |Source(front)| && |Target(script[..i])| == |Target(front)|
  {
    EmptyEnds<T>();
  }

  /** The front after one more entry. */
  function Skipped<T>(skip: seq<Entry<T>>, w: Work<T>, e: Entry<T>): seq<Entry<T>> {
    if e.kind == Common then skip + Dropped(w) else skip
  }

  lemma TakeConsistent<T>(script: seq<Entry<T>>, i: nat, swapped: bool, front: seq<Entry<T>>, skip: seq<Entry<T>>, w: Work<T>)
    requires i < |script| && Consistent(script, i, swapped, front + skip, w) && !w.isAfter
    requires Indexed(script) && AllCommon(skip)
    ensures var e := script[i];
            && AllCommon(Skipped(skip, w, e))
            && Consistent(script, i + 1, swapped, front + Skipped(skip, w, e), Take(w, e, i + 1 == |script|, swapped))
  {
    hide Consistent, Dropped, TakeAdd, TakeDelete, TakeCommon;
    assert IndexedAt(script, i);
    match script[i].kind {
      case Add => TakeAddConsistent(script, i, swapped, front + skip, w);
      case Delete => TakeDeleteConsistent(script, i, swapped, front + skip, w);
      case Common =>
        TakeCommonConsistent(script, i, swapped, front + skip, w);
        assert front + (skip + Dropped(w)) == front + skip + Dropped(w);
    }
  }

  lemma TakeFacts<T>(w: Work<T>, e: Entry<T>, last: bool, swapped: bool)
    requires Pieces(w) && !w.isAfter
    ensures var v := Take(w, e, last, swapped);
            && (v.isAfter ==> v.isMiddle && v.change != [])
            && (v.isMiddle ==> w.isMiddle || e.kind != Common)
            && (last && v.isMiddle ==> v.isAfter)
            && (v.isAfter && !last ==> |v.adds| == |v.deletes| == 0 && e.kind == Common)
            && (v.common0 == [] ==> w.common0 == [] && (e.kind == Common ==> w.isMiddle) && (e.kind == Common ==> |Dropped(w)| == 0))
  {
    hide AllCommon;
    if w.isMiddle {
      NotEmpty(w);
    }
  }

  lemma NotEmpty<T>(w: Work<T>)
    requires Pieces(w) && w.isMiddle
    ensures |w.change| + |w.deletes| + |w.adds| > 0
  {
    var edits := w.Edits();
    var j :| 0 <= j < |edits| && edits[j].kind != Common;
  }

  /** Too little context follows: the hunk stays open. */
  lemma StaysOpen<T>(script: seq<Entry<T>>, i: nat, swapped: bool, front: seq<Entry<T>>, w: Work<T>)
    requires i <= |script| && Consistent(script, i, swapped, front, w) && |w.adds| == |w.deletes| == 0
    ensures Consistent(script, i, swapped, front, w.(middle := 0, isAfter := false))
  {
    hide Ends, Source, Target, AllCommon;
    assert w.change + w.deletes + w.adds == w.change;
    var v := w.(middle := 0, isAfter := false);
    assert v.Body() == w.common0 + w.change;
    assert w.Body() == w.common0 + w.change;
  }

  lemma EndsClosed<T>(script: seq<Entry<T>>, i: nat, front: seq<Entry<T>>, body: seq<Entry<T>>, b: int, d: int)
    requires i <= |script| && Ends(script, i, front, body, b, d)
    ensures Ends(script, i, front + body, [], 0, 0) && b == |Source(body)| && d == |Target(body)|
  {
    hide Source, Target;
    EmptyEnds<T>();
    Concat(front, body);
    assert Source(front + body) + [] == Source(front + body);
    assert Target(front + body) + [] == Target(front + body);
  }

  lemma EmitFields<T>(w: Work<T>, swapped: bool)
    requires Pieces(w) && w.isAfter
    ensures var h := Emit(w, swapped);
            && Shunk(h) == w.Body()
            && AllCommon(h.common0) && |h.common0| <= DTL_CONTEXT_SIZE && h.common1 == [] && !AllCommon(h.change)
            && h.b == w.b && h.d == w.d && h.incDecCount == w.incDecCount
            && h.a == (if swapped then if w.c == 0 then 1 else w.c else if w.a == 0 then 1 else w.a)
            && h.c == (if swapped then if w.a == 0 then 1 else w.a else if w.c == 0 then 1 else w.c)
  {
    hide AllCommon;
    assert w.common0[0..] == w.common0;
    assert w.common0 + w.change + [] == w.common0 + w.change;
  }

  lemma EmitLocated<T>(script: seq<Entry<T>>, i: nat, swapped: bool, front: seq<Entry<T>>, w: Work<T>)
    requires i <= |script| && Consistent(script, i, swapped, front, w) && w.isAfter
    requires w.common0 == [] ==> front == []
    ensures var h := Emit(w, swapped);
            && Located(h, front)
            && AllCommon(h.common0) && |h.common0| <= DTL_CONTEXT_SIZE && h.common1 == [] && !AllCommon(h.change)
            && Consistent(script, i, swapped, front + Shunk(h), NoWork<T>())
  {
    hide Source, Target, AllCommon, Emit, Shunk, Pieces, Ends, Work.Body;
    EmitFields(w, swapped);
    EndsClosed(script, i, front, w.Body(), w.b, w.d);
    EmptyEnds<T>();
    NothingPending<T>();
  }

  lemma NothingPending<T>()
    ensures Pieces(NoWork<T>()) && NoWork<T>().Body() == []
  {
  }

  /** A hunk that is due describes the pending entries, and nothing is pending after it. */
  lemma EmitConsistent<T>(script: seq<Entry<T>>, i: nat, swapped: bool, hunks: seq<UniHunk<T>>,
                          gaps: seq<seq<Entry<T>>>, skip: seq<Entry<T>>, w: Work<T>)
    requires i <= |script| && |hunks| == |gaps| && Layout(hunks, gaps) && AllCommon(skip)
    requires Consistent(script, i, swapped, Laid(hunks, gaps) + skip, w) && w.isAfter
    requires w.common0 == [] ==> skip == [] && hunks == []
    ensures var h := Emit(w, swapped);
            && Layout(hunks + [h], gaps + [skip])
            && Consistent(script, i, swapped, Laid(hunks + [h], gaps + [skip]) + [], NoWork<T>())
  {
    hide Layout, AllCommon, Laid, Consistent, Located, Emit, Shunk;
    var h := Emit(w, swapped);
    var front := Laid(hunks, gaps) + skip;
    LaidNothing(hunks, gaps);
    EmitLocated(script, i, swapped, front, w);
    LayoutPush(hunks, gaps, h, skip);
    LaidPush(hunks, gaps, h, skip);
    assert front + Shunk(h) + [] == front + Shunk(h);
  }

  lemma LayoutLengths<T>(hunks: seq<UniHunk<T>>, gaps: seq<seq<Entry<T>>>)
    requires Layout(hunks, gaps)
    ensures |hunks| == |gaps|
  {
  }

  lemma LaidNothing<T>(hunks: seq<UniHunk<T>>, gaps: seq<seq<Entry<T>>>)
    requires |hunks| == |gaps|
    ensures hunks == [] ==> Laid(hunks, gaps) == []
  {
  }

  /** When every entry is read nothing is pending but context: the hunks describe the script. */
  lemma HunksComplete<T(!new)>(script: seq<Entry<T>>, swapped: bool, hunks: seq<UniHunk<T>>,
                               gaps: seq<seq<Entry<T>>>, skip: seq<Entry<T>>, w: Work<T>)
    requires |hunks| == |gaps| && Layout(hunks, gaps) && AllCommon(skip)
    requires Consistent(script, |script|, swapped, Laid(hunks, gaps) + skip, w) && !w.isMiddle
    ensures Describes(hunks, Source(script), Target(script))
  {
    hide Source, Target, Layout, Laid, Commons, Cost;
    var tail := skip + w.common0;
    assert AllCommon(tail) && script[..|script|] == script && w.Body() == w.common0;
    hide AllCommon, Pieces, Begins;
    Concat(Laid(hunks, gaps) + skip, w.common0);
    assert Laid(hunks, gaps) + tail == Laid(hunks, gaps) + skip + w.common0;
    assert DescribesWith(hunks, gaps, tail, Source(script), Target(script));
  }

  lemma NothingRead<T>(script: seq<Entry<T>>, swapped: bool)
    ensures Layout<T>([], []) && Consistent(script, 0, swapped, Laid<T>([], []) + [], NoWork<T>())
  {
    EmptyEnds<T>();
    NothingPending<T>();
  }

  /** A list being edited: left of the position the target of what was replayed, right of it what
      is left of the input. */
  ghost predicate At<T>(list: seq<T>, pos: int, input: seq<T>, replayed: seq<Entry<T>>) {
    && 0 <= pos <= |list| && Source(replayed) <= input
    && list[..pos] == Target(replayed)
    && list[pos..] == input[|Source(replayed)|..]
  }

  lemma AtAdd<T>(list: seq<T>, pos: int, input: seq<T>, replayed: seq<Entry<T>>, e: Entry<T>)
    requires At(list, pos, input, replayed) && e.kind == Add
    ensures At(list[..pos] + [e.elem] + list[pos..], pos + 1, input, replayed + [e])
  {
    hide Source, Target;
    PushOne(replayed, e);
    var next := list[..pos] + [e.elem] + list[pos..];
    assert next[..pos + 1] == list[..pos] + [e.elem] && next[pos + 1..] == list[pos..];
  }

  lemma AtDelete<T>(list: seq<T>, pos: int, input: seq<T>, replayed: seq<Entry<T>>, e: Entry<T>)
    requires At(list, pos, input, replayed) && e.kind == Delete && Source(replayed + [e]) <= input
    ensures pos < |list| && At(list[..pos] + list[pos + 1..], pos, input, replayed + [e])
  {
    hide Source, Target;
    PushOne(replayed, e);
    var next := list[..pos] + list[pos + 1..];
    assert next[..pos] == list[..pos] && next[pos..] == list[pos + 1..] == list[pos..][1..];
  }

  lemma AtCommon<T>(list: seq<T>, pos: int, input: seq<T>, replayed: seq<Entry<T>>, e: Entry<T>)
    requires At(list, pos, input, replayed) && e.kind == Common && Source(replayed + [e]) <= input
    ensures pos < |list| && At(list, pos + 1, input, replayed + [e])
  {
    hide Source, Target;
    PushOne(replayed, e);
    assert list[pos] == list[pos..][0] == input[|Source(replayed)|] == e.elem;
    assert list[..pos + 1] == list[..pos] + [list[pos]] && list[pos + 1..] == list[pos..][1..];
  }

  lemma AtBounds<T>(list: seq<T>, pos: int, input: seq<T>, replayed: seq<Entry<T>>)
    requires At(list, pos, input, replayed)
    ensures 0 <= pos <= |list|
  {
  }

  lemma SourcePrefix<T>(s: seq<Entry<T>>, e: Entry<T>, input: seq<T>)
    requires Source(s + [e]) <= input
    ensures Source(s) <= input
  {
    PushOne(s, e);
  }

  /** Moving the position over untouched elements replays a stretch of commons. */
  lemma {:induction false} AtGap<T>(list: seq<T>, pos: int, input: seq<T>, replayed: seq<Entry<T>>, gap: seq<Entry<T>>)
    requires At(list, pos, input, replayed) && AllCommon(gap) && Source(replayed + gap) <= input
    ensures pos + |gap| <= |list| && At(list, pos + |gap|, input, replayed + gap)
    ensures |Source(replayed + gap)| == |Source(replayed)| + |gap|
    decreases |gap|
  {
    AtBounds(list, pos, input, replayed);
    hide Source, Target, At;
    if gap == [] {
      assert replayed + gap == replayed;
    } else {
      var g, e := gap[..|gap| - 1], gap[|gap| - 1];
      assert replayed + gap == replayed + g + [e];
      PushOne(replayed + g, e);
      SourcePrefix(replayed + g, e, input);
      AtGap(list, pos, input, replayed, g);
      AtCommon(list, pos + |g|, input, replayed + g, e);
    }
  }

  /** A replay that has come to the end of the input has produced the target. */
  lemma AtEnd<T>(list: seq<T>, pos: int, input: seq<T>, replayed: seq<Entry<T>>)
    requires At(list, pos, input, replayed)
    ensures list == Target(replayed) + input[|Source(replayed)|..]
  {
    assert list == list[..pos] + list[pos..];
  }

  /** How far the hunks before it have moved a hunk. */
  function Drift<T>(hunks: seq<UniHunk<T>>): int {
    if hunks == [] then 0 else Drift(hunks[..|hunks| - 1]) + hunks[|hunks| - 1].incDecCount
  }

  /** Hunk j with its place in a list to which the hunks before it have been applied. */
  function Moved<T>(hunks: seq<UniHunk<T>>, j: nat): UniHunk<T>
    requires j < |hunks|
  {
    hunks[j].(a := hunks[j].a + Drift(hunks[..j]))
  }

  lemma LaidPrefix<T>(hunks: seq<UniHunk<T>>, gaps: seq<seq<Entry<T>>>, j: nat)
    requires Layout(hunks, gaps) && j < |hunks|
    ensures Laid(hunks[..j + 1], gaps[..j + 1]) == Laid(hunks[..j], gaps[..j]) + gaps[j] + Shunk(hunks[j])
    ensures Placed(hunks, gaps, j)
  {
    assert hunks[..j + 1] == hunks[..j] + [hunks[j]] && gaps[..j + 1] == gaps[..j] + [gaps[j]];
    LaidPush(hunks[..j], gaps[..j], hunks[j], gaps[j]);
  }

  /** The drift is what the script laid so far adds to the length. */
  lemma {:induction false} DriftIsGrowth<T>(hunks: seq<UniHunk<T>>, gaps: seq<seq<Entry<T>>>, j: nat)
    requires Layout(hunks, gaps) && j <= |hunks|
    ensures |Target(Laid(hunks[..j], gaps[..j]))| - |Source(Laid(hunks[..j], gaps[..j]))| == Drift(hunks[..j])
  {
    hide Source, Target, Laid, Layout, Shunk;
    LayoutLengths(hunks, gaps);
    if j == 0 {
      LaidNothing(hunks[..0], gaps[..0]);
      EmptyEnds<T>();
    } else {
      DriftIsGrowth(hunks, gaps, j - 1);
      LaidPrefix(hunks, gaps, j - 1);
      var front := Laid(hunks[..j - 1], gaps[..j - 1]);
      Concat(front, gaps[j - 1]);
      Concat(front + gaps[j - 1], Shunk(hunks[j - 1]));
      CommonsAreBoth(gaps[j - 1]);
      assert hunks[..j][..j - 1] == hunks[..j - 1];
    }
  }

  /** The prefixes of a described script start in prefixes of its source. */
  lemma {:induction false} LaidSource<T>(hunks: seq<UniHunk<T>>, gaps: seq<seq<Entry<T>>>, j: nat, t: seq<Entry<T>>)
    requires Layout(hunks, gaps) && j <= |hunks|
    requires t <= Laid(hunks[..j], gaps[..j])
    ensures Source(t) <= Source(Laid(hunks, gaps))
    decreases |hunks| - j
  {
    hide Source, Target, Layout, Shunk, Laid;
    LayoutLengths(hunks, gaps);
    if j == |hunks| {
      assert hunks[..j] == hunks && gaps[..j] == gaps;
      assert t == Laid(hunks, gaps)[..|t|];
      ProjectionPrefix(Laid(hunks, gaps), |t|);
    } else {
      LaidPrefix(hunks, gaps, j);
      LaidSource(hunks, gaps, j + 1, t);
    }
  }

  lemma CommonNothing<T>()
    ensures AllCommon<T>([])
  {
  }

  lemma PiecesOf<T>(script: seq<Entry<T>>, i: nat, swapped: bool, front: seq<Entry<T>>, w: Work<T>)
    requires i <= |script| && Consistent(script, i, swapped, front, w)
    ensures Pieces(w)
  {
  }

  lemma AtStart<T>(input: seq<T>)
    ensures At(input, 0, input, []) && |Source<T>([])| == |Target<T>([])| == 0
  {
    EmptyEnds<T>();
  }

  lemma AtPosition<T>(list: seq<T>, pos: int, input: seq<T>, replayed: seq<Entry<T>>)
    requires At(list, pos, input, replayed)
    ensures pos == |Target(replayed)|
  {
  }

  /** One entry of a replay. */
  lemma AtNext<T>(list: seq<T>, pos: int, input: seq<T>, replayed: seq<Entry<T>>, e: Entry<T>)
    requires At(list, pos, input, replayed) && Source(replayed + [e]) <= input
    ensures 0 <= pos <= |list| && (e.kind != Add ==> pos < |list|)
    ensures match e.kind {
              case Add => At(list[..pos] + [e.elem] + list[pos..], pos + 1, input, replayed + [e])
              case Delete => At(list[..pos] + list[pos + 1..], pos, input, replayed + [e])
              case Common => At(list, pos + 1, input, replayed + [e])
            }
  {
    AtBounds(list, pos, input, replayed);
    hide At, Source;
    match e.kind {
      case Add => AtAdd(list, pos, input, replayed, e);
      case Delete => AtDelete(list, pos, input, replayed, e);
      case Common => AtCommon(list, pos, input, replayed, e);
    }
  }

  /** The header of hunk j, moved by the drift, is where the list position has to go, and leads to
      where the position is afterwards. */
  lemma HunkFacts<T>(hunks: seq<UniHunk<T>>, gaps: seq<seq<Entry<T>>>, j: nat)
    requires Layout(hunks, gaps) && j < |hunks|
    ensures |hunks| == |gaps| && AllCommon(gaps[j])
    ensures var front, h := Laid(hunks[..j], gaps[..j]), hunks[j];
            && Laid(hunks[..j + 1], gaps[..j + 1]) == front + gaps[j] + Shunk(h)
            && h.a + Drift(hunks[..j]) == |Target(front)| + |gaps[j]| + 1
            && h.a + Drift(hunks[..j]) + h.b + h.incDecCount == |Target(Laid(hunks[..j + 1], gaps[..j + 1]))| + 1
            && Source(front + gaps[j]) <= Source(Laid(hunks, gaps))
            && Source(front + gaps[j] + Shunk(h)) <= Source(Laid(hunks, gaps))
  {
    hide Source, Target, Laid, Layout, Shunk;
    LayoutLengths(hunks, gaps);
    LaidPrefix(hunks, gaps, j);
    DriftIsGrowth(hunks, gaps, j);
    var front := Laid(hunks[..j], gaps[..j]);
    Concat(front, gaps[j]);
    Concat(front + gaps[j], Shunk(hunks[j]));
    CommonsAreBoth(gaps[j]);
    LaidSource(hunks, gaps, j + 1, front + gaps[j]);
    LaidSource(hunks, gaps, j + 1, front + gaps[j] + Shunk(hunks[j]));
  }

  lemma UniPatchStart<T>(hunks: seq<UniHunk<T>>, gaps: seq<seq<Entry<T>>>, tail: seq<Entry<T>>, input: seq<T>, output: seq<T>)
    requires DescribesWith(hunks, gaps, tail, input, output)
    ensures |hunks| == |gaps| && At(input, 0, input, Laid(hunks[..0], gaps[..0])) && Drift(hunks[..0]) == 0
  {
    LayoutLengths(hunks, gaps);
    LaidNothing(hunks[..0], gaps[..0]);
    AtStart(input);
  }

  lemma UniPatchStep<T>(hunks: seq<UniHunk<T>>, gaps: seq<seq<Entry<T>>>, tail: seq<Entry<T>>, input: seq<T>, output: seq<T>,
                        j: nat, list: seq<T>, pos: int)
    requires DescribesWith(hunks, gaps, tail, input, output) && j < |hunks| == |gaps|
    requires At(list, pos, input, Laid(hunks[..j], gaps[..j]))
    ensures var h := hunks[j];
            var a := h.a + Drift(hunks[..j]);
            var front, next := Laid(hunks[..j], gaps[..j]), Laid(hunks[..j + 1], gaps[..j + 1]);
            && At(list, pos + (a - (pos + 1)), input, front + gaps[j])
            && next == front + gaps[j] + Shunk(h) && Source(next) <= input
            && a + h.b + h.incDecCount == |Target(next)| + 1
            && Moved(hunks, j) == h.(a := a)
    ensures Drift(hunks[..j + 1]) == Drift(hunks[..j]) + hunks[j].incDecCount
  {
    assert hunks[..j + 1][..j] == hunks[..j];
    AtPosition(list, pos, input, Laid(hunks[..j], gaps[..j]));
    HunkFacts(hunks, gaps, j);
    Concat(Laid(hunks, gaps), tail);
    hide Target, Laid, Layout, Shunk, At;
    assert Source(Laid(hunks, gaps)) <= input;
    AtGap(list, pos, input, Laid(hunks[..j], gaps[..j]), gaps[j]);
  }

  lemma UniPatchEnd<T>(hunks: seq<UniHunk<T>>, gaps: seq<seq<Entry<T>>>, tail: seq<Entry<T>>, input: seq<T>, output: seq<T>,
                       list: seq<T>, pos: int)
    requires DescribesWith(hunks, gaps, tail, input, output) && |hunks| == |gaps|
    requires At(list, pos, input, Laid(hunks[..|hunks|], gaps[..|hunks|]))
    ensures list == output
  {
    assert hunks[..|hunks|] == hunks && gaps[..|hunks|] == gaps;
    AtGap(list, pos, input, Laid(hunks, gaps), tail);
    AtEnd(list, pos + |tail|, input, Laid(hunks, gaps) + tail);
  }
}
