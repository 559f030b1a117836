/** Turning stack samples of threads into ghost zones. */
module GhostZones {
  import opened GhostForest

  /** What stands for a frame of a zone: a call stack entry and one of the functions inlined there. */
  datatype Key = Key(frame: int, inlineFrame: int)

  datatype Inline = Inline(symAddr: int, frame: int, inlineFrame: int)

  /** The call stack entries whose symbols are known, each with the addresses of its functions, innermost first. */
  type Symbols = map<int, seq<int>>

  /** The functions of one entry from the outermost to the innermost. */
  function Inlines(symbols: Symbols, entry: int): (s: seq<Inline>) {
    if entry in symbols && symbols[entry] != [] then
      var n := |symbols[entry]|;
      seq(n, i requires 0 <= i < n => Inline(symbols[entry][n - 1 - i], entry, n - 1 - i))
    else [Inline(entry, entry, 0)]
  }

  /** A call stack, given from the innermost entry outwards, as functions from the outermost inwards. */
  function Stack(symbols: Symbols, cs: seq<int>): (s: seq<Inline>)
    ensures cs != [] ==> s != []
  {
    if cs == [] then [] else Inlines(symbols, cs[|cs| - 1]) + Stack(symbols, cs[..|cs| - 1])
  }

  method PushInlines(symbols: Symbols, entry: int, before: seq<Inline>) returns (ret: seq<Inline>)
    requires forall e :: e in symbols ==> symbols[e] != []
    ensures ret == before + Inlines(symbols, entry)
  {
    ret := before;
    if entry in symbols {
      var data := symbols[entry];
      ghost var all := Inlines(symbols, entry);
      var i := |data|;
      while i != 0
        invariant 0 <= i <= |data| && ret == before + all[..|data| - i]
      {
        i := i - 1;
        assert all[..|data| - i] == all[..|data| - i - 1] + [Inline(data[i], entry, i)];
        ret := ret + [Inline(data[i], entry, i)];
      }
      assert all[..|data|] == all;
    } else {
      ret := ret + [Inline(entry, entry, 0)];
    }
  }

  lemma StackParts(symbols: Symbols, cs: seq<int>, idx: int, ret: seq<Inline>)
    requires 0 <= idx < |cs|
    ensures ret + Stack(symbols, cs[..idx + 1]) == ret + Inlines(symbols, cs[idx]) + Stack(symbols, cs[..idx])
    ensures ret + Stack(symbols, cs[..0]) == ret
  {
    assert cs[..idx + 1][..idx] == cs[..idx] && cs[..0] == [];
    hide Stack, Inlines;
    assert ret + (Inlines(symbols, cs[idx]) + Stack(symbols, cs[..idx])) == ret + Inlines(symbols, cs[idx]) + Stack(symbols, cs[..idx]);
  }

  method GetStackWithInlines(symbols: Symbols, cs: seq<int>) returns (ret: seq<Inline>)
    requires cs != [] && forall e :: e in symbols ==> symbols[e] != []
    ensures ret == Stack(symbols, cs) && Unfolded(symbols, cs, ret)
  {
    hide *;
    StackUnfolds(symbols, cs);
    ret := [];
    var idx := |cs| - 1;
    var done := false;
    assert cs[..|cs|] == cs && [] + Stack(symbols, cs) == Stack(symbols, cs);
    while !done
      invariant -1 <= idx < |cs| && (done <==> idx == -1)
      invariant ret + Stack(symbols, cs[..idx + 1]) == Stack(symbols, cs)
      decreases idx
    {
      StackParts(symbols, cs, idx, ret);
      ret := PushInlines(symbols, cs[idx], ret);
      idx := idx - 1;
      done := idx < 0;
    }
    StackParts(symbols, cs, 0, ret);
  }

  /** How many functions an entry stands for, and the i-th of them from the innermost one. */
  function Functions(symbols: Symbols, entry: int): nat {
    if entry in symbols && symbols[entry] != [] then |symbols[entry]| else 1
  }

  function FunctionAt(symbols: Symbols, entry: int, i: nat): Inline
    requires i < Functions(symbols, entry)
  {
    if entry in symbols && symbols[entry] != [] then Inline(symbols[entry][i], entry, i) else Inline(entry, entry, 0)
  }

  /** How many functions the first j entries stand for. */
  function Offset(symbols: Symbols, cs: seq<int>, j: nat): nat
    requires j <= |cs|
  {
    if j == 0 then 0 else Offset(symbols, cs, j - 1) + Functions(symbols, cs[j - 1])
  }

  /** Counted from its end the stack has the functions of the first entry, then those of the second, and so on, of
      each entry the innermost one first. */
  ghost predicate Unfolded(symbols: Symbols, cs: seq<int>, stack: seq<Inline>) {
    && |stack| == Offset(symbols, cs, |cs|)
    && forall j, i: nat :: 0 <= j < |cs| && i < Functions(symbols, cs[j]) ==> PlaceOk(symbols, cs, stack, j, i)
  }

  ghost predicate PlaceOk(symbols: Symbols, cs: seq<int>, stack: seq<Inline>, j: int, i: nat)
    requires 0 <= j < |cs| && i < Functions(symbols, cs[j])
  {
    var k := |stack| - 1 - (Offset(symbols, cs, j) + i);
    0 <= k < |stack| && stack[k] == FunctionAt(symbols, cs[j], i)
  }

  lemma {:induction false} OffsetFront(symbols: Symbols, cs: seq<int>, j: nat)
    requires cs != [] && j < |cs|
    ensures Offset(symbols, cs, j) == Offset(symbols, cs[..|cs| - 1], j)
  {
    if j > 0 {
      OffsetFront(symbols, cs, j - 1);
    }
  }

  lemma InlinesAt(symbols: Symbols, entry: int)
    ensures var s := Inlines(symbols, entry);
            && |s| == Functions(symbols, entry)
            && forall x :: 0 <= x < |s| ==> s[x] == FunctionAt(symbols, entry, |s| - 1 - x)
  {
  }

  lemma {:induction false} StackUnfolds(symbols: Symbols, cs: seq<int>)
    ensures Unfolded(symbols, cs, Stack(symbols, cs))
    decreases |cs|
  {
    if cs != [] {
      var n := |cs| - 1;
      var front, last := cs[..n], cs[n];
      var inner, stack := Stack(symbols, front), Stack(symbols, cs);
      StackUnfolds(symbols, front);
      InlinesAt(symbols, last);
      hide Inlines, FunctionAt, Functions, Stack, PlaceOk;
      assert stack == Inlines(symbols, last) + inner by { LastInlines(symbols, cs); }
      OffsetFront(symbols, cs, n);
      forall j, i: nat | 0 <= j < |cs| && i < Functions(symbols, cs[j])
        ensures PlaceOk(symbols, cs, stack, j, i)
      {
        if j < n {
          OffsetFront(symbols, cs, j);
          assert PlaceOk(symbols, front, inner, j, i);
        }
        PlaceIn(symbols, cs, Inlines(symbols, last), inner, j, i);
      }
    }
  }

  lemma LastInlines(symbols: Symbols, cs: seq<int>)
    requires cs != []
    ensures Stack(symbols, cs) == Inlines(symbols, cs[|cs| - 1]) + Stack(symbols, cs[..|cs| - 1])
  {
  }

  lemma PlaceIn(symbols: Symbols, cs: seq<int>, outer: seq<Inline>, inner: seq<Inline>, j: nat, i: nat)
    requires j < |cs| && i < Functions(symbols, cs[j]) && |inner| == Offset(symbols, cs, |cs| - 1)
    requires |outer| == Functions(symbols, cs[|cs| - 1])
    requires forall x :: 0 <= x < |outer| ==> outer[x] == FunctionAt(symbols, cs[|cs| - 1], |outer| - 1 - x)
    requires j < |cs| - 1 ==> Offset(symbols, cs, j) == Offset(symbols, cs[..|cs| - 1], j) && PlaceOk(symbols, cs[..|cs| - 1], inner, j, i)
    ensures PlaceOk(symbols, cs, outer + inner, j, i)
  {
    hide FunctionAt, Functions;
    if j < |cs| - 1 {
      assert cs[..|cs| - 1][j] == cs[j];
    } else {
      assert outer[|outer| - 1 - i] == FunctionAt(symbols, cs[j], i);
    }
  }

  /** The frame of a zone is a known symbol at the address. */
  ghost predicate SameSymbol(symbols: Symbols, frames: seq<Key>, frame: int, symAddr: int) {
    && 0 <= frame < |frames|
    && var key := frames[frame];
       key.frame in symbols && 0 <= key.inlineFrame < |symbols[key.frame]| && symbols[key.frame][key.inlineFrame] == symAddr
  }

  /** A zone is of the function: its frame is, or its symbol is the same. */
  ghost predicate Matches(symbols: Symbols, frames: seq<Key>, frame: int, entry: Inline) {
    || (0 <= frame < |frames| && frames[frame] == Key(entry.frame, entry.inlineFrame))
    || SameSymbol(symbols, frames, frame, entry.symAddr)
  }

  /** The first n lists of the path end in zones that end at e and are of the functions of the stack, each
      list being the children of the zone before. */
  ghost predicate PathOk(g: Ghosts, symbols: Symbols, frames: seq<Key>, path: seq<int>, stack: seq<Inline>, n: int, e: int) {
    && 0 <= n <= |path| && n <= |stack| && n <= |path| <= n + 1
    && (forall j, k :: 0 <= j < k < |path| ==> path[j] < path[k])
    && forall j :: 0 <= j < n ==>
         && IsList(g, path[j]) && At(g, path[j]) != []
         && Last(At(g, path[j])).end == e && Matches(symbols, frames, Last(At(g, path[j])).frame, stack[j])
         && (j + 1 < |path| ==> Last(At(g, path[j])).child == path[j + 1])
  }

  /** Changes to the last list of a path, and new lists, leave the rest of the path. */
  lemma PathKept(g: Ghosts, v: Ghosts, symbols: Symbols, frames: seq<Key>, more: seq<Key>, path: seq<int>, stack: seq<Inline>, n: int, e: int)
    requires PathOk(g, symbols, frames, path, stack, n, e) && |path| == n + 1 && frames <= more
    requires forall m :: IsList(g, m) && m != path[n] ==> IsList(v, m) && At(v, m) == At(g, m)
    ensures PathOk(v, symbols, more, path, stack, n, e)
  {
    forall j | 0 <= j < n
      ensures IsList(v, path[j]) && At(v, path[j]) == At(g, path[j])
    {
      assert path[j] < path[n];
    }
  }

  /** The path goes one zone further. */
  lemma PathMore(g: Ghosts, symbols: Symbols, frames: seq<Key>, path: seq<int>, stack: seq<Inline>, n: int, e: int)
    requires PathOk(g, symbols, frames, path, stack, n, e) && |path| == n + 1 && n < |stack|
    requires IsList(g, path[n]) && At(g, path[n]) != [] && Last(At(g, path[n])).end == e
    requires Matches(symbols, frames, Last(At(g, path[n])).frame, stack[n])
    ensures PathOk(g, symbols, frames, path, stack, n + 1, e)
  {
  }

  lemma PathDown(g: Ghosts, symbols: Symbols, frames: seq<Key>, path: seq<int>, stack: seq<Inline>, n: int, e: int, c: int)
    requires PathOk(g, symbols, frames, path, stack, n, e) && |path| == n > 0
    requires Last(At(g, path[n - 1])).child == c && path[n - 1] < c
    ensures PathOk(g, symbols, frames, path + [c], stack, n, e)
  {
  }

  /** No zone is lost, or changes other than in its end and its children; there is one more zone, starting at t,
      in each of the lists given, and no other new one. Only the last zone of a list changes at all; its end
      stays, is cut short to t, or becomes one of the ends given. */
  ghost predicate Kept(g: Ghosts, v: Ghosts, more: seq<int>, t: int, ends: set<int>) {
    forall l ::
      && |At(v, l)| == |At(g, l)| + (if l in more then 1 else 0)
      && (l in more ==> Last(At(v, l)).start == t)
      && forall k :: 0 <= k < |At(g, l)| ==> KeptZone(At(g, l)[k], At(v, l)[k], k == |At(g, l)| - 1, t, ends)
  }

  ghost predicate KeptZone(z: GhostZone, y: GhostZone, isLast: bool, t: int, ends: set<int>) {
    && y.start == z.start && y.frame == z.frame
    && (y == z || isLast)
    && (y.end == z.end || (y.end == t < z.end) || y.end in ends)
  }

  lemma KeptSame(g: Ghosts, t: int)
    ensures Kept(g, g, [], t, {})
  {
  }

  lemma KeptLooser(g: Ghosts, v: Ghosts, t: int, e: int)
    requires Kept(g, v, [], t, {})
    ensures Kept(g, v, [], t, {e})
  {
    forall l, k | 0 <= k < |At(g, l)|
      ensures KeptZone(At(g, l)[k], At(v, l)[k], k == |At(g, l)| - 1, t, {e})
    {
      assert KeptZone(At(g, l)[k], At(v, l)[k], k == |At(g, l)| - 1, t, {});
    }
  }

  /** What changing the last zone of list l, or adding one, does to what is kept: a fact about that list only. */
  lemma KeptChanged(g: Ghosts, v: Ghosts, w: Ghosts, more: seq<int>, more': seq<int>, t: int, ends: set<int>, l: int)
    requires Kept(g, v, more, t, ends) && (forall m :: m != l ==> At(w, m) == At(v, m) && (m in more <==> m in more'))
    requires |At(w, l)| == |At(g, l)| + (if l in more' then 1 else 0) && (l in more' ==> Last(At(w, l)).start == t)
    requires forall k :: 0 <= k < |At(g, l)| ==> KeptZone(At(g, l)[k], At(w, l)[k], k == |At(g, l)| - 1, t, ends)
    ensures Kept(g, w, more', t, ends)
  {
    hide At, KeptZone;
    forall m
      ensures |At(w, m)| == |At(g, m)| + (if m in more' then 1 else 0)
      ensures m in more' ==> Last(At(w, m)).start == t
      ensures forall k :: 0 <= k < |At(g, m)| ==> KeptZone(At(g, m)[k], At(w, m)[k], k == |At(g, m)| - 1, t, ends)
    {
      assert |At(v, m)| == |At(g, m)| + (if m in more then 1 else 0);
    }
  }

  lemma EndSetKept(g: Ghosts, v: Ghosts, more: seq<int>, t: int, ends: set<int>, l: int, e: int)
    requires Kept(g, v, more, t, ends) && IsList(v, l) && At(v, l) != []
    requires e in ends || (e == t < Last(At(v, l)).end && ends == {} && more == [])
    ensures Kept(g, EndSet(v, l, e), more, t, ends)
  {
    forall m
      ensures At(EndSet(v, l, e), m) == if m == l then At(v, l)[|At(v, l)| - 1 := Last(At(v, l)).(end := e)] else At(v, m)
    {
      EndSetAt(v, l, e, m);
    }
    hide EndSet, At, IsList;
    KeptAt(g, v, more, t, ends, l);
    KeptChanged(g, v, EndSet(v, l, e), more, more, t, ends, l);
  }

  lemma KeptAt(g: Ghosts, v: Ghosts, more: seq<int>, t: int, ends: set<int>, l: int)
    requires Kept(g, v, more, t, ends)
    ensures |At(v, l)| == |At(g, l)| + (if l in more then 1 else 0) && (l in more ==> Last(At(v, l)).start == t)
    ensures forall k :: 0 <= k < |At(g, l)| ==> KeptZone(At(g, l)[k], At(v, l)[k], k == |At(g, l)| - 1, t, ends)
  {
  }

  lemma ChildMadeKept(g: Ghosts, v: Ghosts, more: seq<int>, t: int, ends: set<int>, l: int)
    requires Kept(g, v, more, t, ends) && IsList(v, l) && At(v, l) != [] && |v.parents| == |v.children| == |v.owners|
    ensures Kept(g, ChildMade(v, l), more, t, ends)
  {
    forall m
      ensures At(ChildMade(v, l), m) == if m == l then At(v, l)[|At(v, l)| - 1 := Last(At(v, l)).(child := |v.children|)] else At(v, m)
    {
      ChildMadeAt(v, l, m);
    }
    hide ChildMade, At, IsList;
    KeptAt(g, v, more, t, ends, l);
    KeptChanged(g, v, ChildMade(v, l), more, more, t, ends, l);
  }

  lemma PushedKept(g: Ghosts, v: Ghosts, more: seq<int>, t: int, ends: set<int>, l: int, z: GhostZone)
    requires Kept(g, v, more, t, ends) && IsList(v, l) && l !in more && z.start == t
    ensures Kept(g, Pushed(v, l, z), more + [l], t, ends)
  {
    forall m
      ensures At(Pushed(v, l, z), m) == if m == l then At(v, l) + [z] else At(v, m)
    {
      PushedAt(v, l, z, m);
    }
    hide Pushed, At, IsList;
    KeptAt(g, v, more, t, ends, l);
    KeptChanged(g, v, Pushed(v, l, z), more, more + [l], t, ends, l);
  }

  /** List l may get a zone, or have its last one prolonged, that ends a period p after t. */
  ghost predicate Extending(g: Ghosts, l: int, th: int, t: int, p: int, n: int, roots: seq<seq<GhostZone>>, last: seq<int>) {
    && p > 0 && 0 <= th < |g.roots| && IsList(g, l) && Owner(g, l) == th
    && Steady(g, -1, if l >= 0 && At(g, l) == [] then l else -1, th, t + p, t, n, roots, last)
    && Untouched(g, th, l, t) && ParentSpans(g, l, t, t + p)
  }

  /** The last zone of list l does end then. */
  ghost predicate Extended(g: Ghosts, l: int, th: int, t: int, p: int, n: int, roots: seq<seq<GhostZone>>, last: seq<int>) {
    && p > 0 && 0 <= th < |g.roots| && IsList(g, l) && Owner(g, l) == th
    && Steady(g, -1, -1, th, t + p, t, n, roots, last)
    && At(g, l) != [] && Last(At(g, l)).start <= t && Last(At(g, l)).end == t + p
    && (Last(At(g, l)).child >= 0 ==> Untouched(g, th, l + 1, t))
  }

  lemma RaiseStep(g: Ghosts, l: int, th: int, t: int, p: int, n: int, roots: seq<seq<GhostZone>>, last: seq<int>)
    requires Extending(g, l, th, t, p, n, roots, last) && At(g, l) != []
    ensures Extended(EndSet(g, l, t + p), l, th, t, p, n, roots, last)
  {
    assert Last(At(g, l)).end <= t && At(g, l)[|At(g, l)| - 1].start <= t;
    assert MayEnd(g, l, t + p, -1, -1);
    EndSetSteady(g, l, t + p, -1, -1, -1, th, t + p, t, n, roots, last);
    EndSetAt(g, l, t + p, l);
  }

  lemma PushStep(g: Ghosts, l: int, f: int, th: int, t: int, p: int, n: int, roots: seq<seq<GhostZone>>, last: seq<int>)
    requires Extending(g, l, th, t, p, n, roots, last) && 0 <= f < n
    ensures Extended(Pushed(g, l, GhostZone(t, t + p, f, -1)), l, th, t, p, n, roots, last)
  {
    var z := GhostZone(t, t + p, f, -1);
    PushedSteady(g, l, z, if l >= 0 && At(g, l) == [] then l else -1, th, t + p, t, n, roots, last);
    PushedAt(g, l, z, l);
  }

  lemma ChildStep(g: Ghosts, l: int, th: int, t: int, p: int, n: int, roots: seq<seq<GhostZone>>, last: seq<int>)
    requires Extended(g, l, th, t, p, n, roots, last) && Last(At(g, l)).child < 0
    ensures Extending(ChildMade(g, l), |g.children|, th, t, p, n, roots, last) && l < |g.children|
  {
    ChildMadeSteady(g, l, th, t + p, t, n, roots, last);
    ChildMadeAt(g, l, l);
    ChildMadeAt(g, l, |g.children|);
    NewParent(g, l);
  }

  lemma DownStep(g: Ghosts, l: int, th: int, t: int, p: int, n: int, roots: seq<seq<GhostZone>>, last: seq<int>)
    requires Extended(g, l, th, t, p, n, roots, last) && Last(At(g, l)).child >= 0
    ensures var c := Last(At(g, l)).child; l < c < |g.children| && At(g, c) != [] && Extending(g, c, th, t, p, n, roots, last)
  {
    var c, k := Last(At(g, l)).child, |At(g, l)| - 1;
    assert ListOk(g, l, -1, -1) && ChildOk(g, l, k, At(g, l)[k], -1, -1);
    assert HasParent(g, c) && At(g, c) == g.children[c];
  }

  /** The stack has been followed for idx functions, along the path; list vec is next. */
  ghost predicate Reached(g: Ghosts, vec: int, th: int, t: int, p: int, roots: seq<seq<GhostZone>>, last: seq<int>,
      symbols: Symbols, frames: seq<Key>, path: seq<int>, stack: seq<Inline>, idx: int) {
    && 0 <= idx <= |stack| && PathOk(g, symbols, frames, path, stack, idx, t + p) && path != [] && path[0] == -1 - th
    && if idx < |stack| then |path| == idx + 1 && path[idx] == vec && Extending(g, vec, th, t, p, |frames|, roots, last)
       else |path| == idx && 0 <= th < |g.roots| && Steady(g, -1, -1, th, t + p, t, |frames|, roots, last)
  }

  /** The last zone of list vec now is of the next function. */
  ghost predicate Matched(g: Ghosts, vec: int, th: int, t: int, p: int, roots: seq<seq<GhostZone>>, last: seq<int>,
      symbols: Symbols, frames: seq<Key>, path: seq<int>, stack: seq<Inline>, idx: int) {
    && 0 <= idx < |stack| && PathOk(g, symbols, frames, path, stack, idx, t + p)
    && |path| == idx + 1 && path[idx] == vec && path[0] == -1 - th
    && Extended(g, vec, th, t, p, |frames|, roots, last) && Matches(symbols, frames, Last(At(g, vec)).frame, stack[idx])
  }

  lemma ReachedParts(g: Ghosts, vec: int, th: int, t: int, p: int, roots: seq<seq<GhostZone>>, last: seq<int>,
      symbols: Symbols, frames: seq<Key>, path: seq<int>, stack: seq<Inline>, idx: int)
    requires Reached(g, vec, th, t, p, roots, last, symbols, frames, path, stack, idx) && idx < |stack|
    ensures 0 <= idx && PathOk(g, symbols, frames, path, stack, idx, t + p) && |path| == idx + 1 && path[idx] == vec && path[0] == -1 - th
    ensures Extending(g, vec, th, t, p, |frames|, roots, last) && IsList(g, vec)
  {
    hide PathOk, IsList, Steady, Owner, Untouched, ParentSpans, At;
  }

  lemma MatchedFrom(g: Ghosts, vec: int, th: int, t: int, p: int, roots: seq<seq<GhostZone>>, last: seq<int>,
      symbols: Symbols, frames: seq<Key>, path: seq<int>, stack: seq<Inline>, idx: int)
    requires 0 <= idx < |stack| && PathOk(g, symbols, frames, path, stack, idx, t + p)
    requires |path| == idx + 1 && path[idx] == vec && path[0] == -1 - th
    requires Extended(g, vec, th, t, p, |frames|, roots, last) && At(g, vec) != []
    requires Matches(symbols, frames, Last(At(g, vec)).frame, stack[idx])
    ensures Matched(g, vec, th, t, p, roots, last, symbols, frames, path, stack, idx)
  {
    hide PathOk, Extended, At, Matches;
  }

  lemma Raised(g: Ghosts, vec: int, th: int, t: int, p: int, roots: seq<seq<GhostZone>>, last: seq<int>,
      symbols: Symbols, frames: seq<Key>, path: seq<int>, stack: seq<Inline>, idx: int)
    requires Reached(g, vec, th, t, p, roots, last, symbols, frames, path, stack, idx) && idx < |stack| && At(g, vec) != []
    requires SameSymbol(symbols, frames, Last(At(g, vec)).frame, stack[idx].symAddr)
    ensures IsList(g, vec) && Matched(EndSet(g, vec, t + p), vec, th, t, p, roots, last, symbols, frames, path, stack, idx)
    ensures At(EndSet(g, vec, t + p), vec) == At(g, vec)[|At(g, vec)| - 1 := Last(At(g, vec)).(end := t + p)]
  {
    hide *;
    ReachedParts(g, vec, th, t, p, roots, last, symbols, frames, path, stack, idx);
    RaiseStep(g, vec, th, t, p, |frames|, roots, last);
    var v := EndSet(g, vec, t + p);
    forall m | IsList(g, m) && m != path[idx]
      ensures IsList(v, m) && At(v, m) == At(g, m)
    {
      EndSetAt(g, vec, t + p, m);
    }
    EndSetAt(g, vec, t + p, vec);
    PathKept(g, v, symbols, frames, frames, path, stack, idx, t + p);
    SymbolMatches(symbols, frames, At(g, vec), At(v, vec), t + p, stack[idx]);
    MatchedFrom(v, vec, th, t, p, roots, last, symbols, frames, path, stack, idx);
  }

  lemma SymbolMatches(symbols: Symbols, frames: seq<Key>, zs: seq<GhostZone>, ws: seq<GhostZone>, e: int, entry: Inline)
    requires zs != [] && ws == zs[|zs| - 1 := Last(zs).(end := e)] && SameSymbol(symbols, frames, Last(zs).frame, entry.symAddr)
    ensures Matches(symbols, frames, Last(ws).frame, entry) && ws != []
  {
    hide SameSymbol;
  }

  lemma PushedOn(g: Ghosts, vec: int, th: int, t: int, p: int, roots: seq<seq<GhostZone>>, last: seq<int>,
      symbols: Symbols, frames: seq<Key>, more: seq<Key>, path: seq<int>, stack: seq<Inline>, idx: int, f: int)
    requires Reached(g, vec, th, t, p, roots, last, symbols, frames, path, stack, idx) && idx < |stack| && frames <= more
    requires 0 <= f < |more| && more[f] == Key(stack[idx].frame, stack[idx].inlineFrame)
    ensures IsList(g, vec) && 0 <= idx < |path| && vec == path[idx]
    ensures At(Pushed(g, vec, GhostZone(t, t + p, f, -1)), vec) == At(g, vec) + [GhostZone(t, t + p, f, -1)]
    ensures Matched(Pushed(g, vec, GhostZone(t, t + p, f, -1)), vec, th, t, p, roots, last, symbols, more, path, stack, idx)
  {
    hide *;
    ReachedParts(g, vec, th, t, p, roots, last, symbols, frames, path, stack, idx);
    MoreFrames(g, vec, th, t, p, |frames|, |more|, roots, last);
    PushStep(g, vec, f, th, t, p, |more|, roots, last);
    var z := GhostZone(t, t + p, f, -1);
    var v := Pushed(g, vec, z);
    forall m | IsList(g, m) && m != path[idx]
      ensures IsList(v, m) && At(v, m) == At(g, m)
    {
      PushedAt(g, vec, z, m);
    }
    PushedAt(g, vec, z, vec);
    PathKept(g, v, symbols, frames, more, path, stack, idx, t + p);
    KeyMatches(symbols, more, At(g, vec), z, stack[idx]);
    MatchedFrom(v, vec, th, t, p, roots, last, symbols, more, path, stack, idx);
  }

  lemma KeyMatches(symbols: Symbols, frames: seq<Key>, zs: seq<GhostZone>, z: GhostZone, entry: Inline)
    requires 0 <= z.frame < |frames| && frames[z.frame] == Key(entry.frame, entry.inlineFrame)
    ensures zs + [z] != [] && Matches(symbols, frames, Last(zs + [z]).frame, entry)
  {
    hide SameSymbol;
  }

  lemma MoreFrames(g: Ghosts, l: int, th: int, t: int, p: int, n: int, m: int, roots: seq<seq<GhostZone>>, last: seq<int>)
    requires Extending(g, l, th, t, p, n, roots, last) && n <= m
    ensures Extending(g, l, th, t, p, m, roots, last)
  {
    hide Laminar, Timely, OthersOk, Untouched, ParentSpans;
    forall l, k | IsList(g, l) && 0 <= k < |At(g, l)|
      ensures 0 <= At(g, l)[k].frame < m
    {
      assert At(g, l)[k].frame < n;
    }
  }

  lemma MatchedParts(g: Ghosts, vec: int, th: int, t: int, p: int, roots: seq<seq<GhostZone>>, last: seq<int>,
      symbols: Symbols, frames: seq<Key>, path: seq<int>, stack: seq<Inline>, idx: int)
    requires Matched(g, vec, th, t, p, roots, last, symbols, frames, path, stack, idx)
    ensures 0 <= idx < |stack| && PathOk(g, symbols, frames, path, stack, idx, t + p) && |path| == idx + 1 && path[idx] == vec && path[0] == -1 - th
    ensures Extended(g, vec, th, t, p, |frames|, roots, last)
    ensures IsList(g, vec) && At(g, vec) != [] && |g.parents| == |g.children| == |g.owners| && Last(At(g, vec)).end == t + p
    ensures Matches(symbols, frames, Last(At(g, vec)).frame, stack[idx])
  {
    hide PathOk, IsList, At, Matches, Timely, ZonesFit, OthersOk, ListOk, HasParent;
  }

  lemma ReachedFrom(g: Ghosts, vec: int, th: int, t: int, p: int, roots: seq<seq<GhostZone>>, last: seq<int>,
      symbols: Symbols, frames: seq<Key>, path: seq<int>, stack: seq<Inline>, idx: int)
    requires 0 < idx < |stack| && PathOk(g, symbols, frames, path, stack, idx, t + p) && path != [] && path[0] == -1 - th
    requires |path| == idx + 1 && path[idx] == vec && Extending(g, vec, th, t, p, |frames|, roots, last)
    ensures Reached(g, vec, th, t, p, roots, last, symbols, frames, path, stack, idx)
  {
    hide PathOk, Extending;
  }

  lemma OnwardLast(g: Ghosts, vec: int, th: int, t: int, p: int, roots: seq<seq<GhostZone>>, last: seq<int>,
      symbols: Symbols, frames: seq<Key>, path: seq<int>, stack: seq<Inline>, idx: int)
    requires Matched(g, vec, th, t, p, roots, last, symbols, frames, path, stack, idx) && idx + 1 == |stack|
    ensures Reached(g, vec, th, t, p, roots, last, symbols, frames, path, stack, idx + 1)
  {
    hide Steady, PathOk, Matches, At, Owner, IsList, Untouched;
    PathMore(g, symbols, frames, path, stack, idx, t + p);
  }

  lemma OnwardDown(g: Ghosts, vec: int, th: int, t: int, p: int, roots: seq<seq<GhostZone>>, last: seq<int>,
      symbols: Symbols, frames: seq<Key>, path: seq<int>, stack: seq<Inline>, idx: int)
    requires Matched(g, vec, th, t, p, roots, last, symbols, frames, path, stack, idx) && idx + 1 < |stack|
    requires At(g, vec) != [] && Last(At(g, vec)).child >= 0
    ensures var c := Last(At(g, vec)).child; Reached(g, c, th, t, p, roots, last, symbols, frames, path + [c], stack, idx + 1)
  {
    hide *;
    var c := Last(At(g, vec)).child;
    MatchedParts(g, vec, th, t, p, roots, last, symbols, frames, path, stack, idx);
    DownStep(g, vec, th, t, p, |frames|, roots, last);
    PathMore(g, symbols, frames, path, stack, idx, t + p);
    PathDown(g, symbols, frames, path, stack, idx + 1, t + p, c);
    ReachedFrom(g, c, th, t, p, roots, last, symbols, frames, path + [c], stack, idx + 1);
  }

  lemma OnwardNew(g: Ghosts, vec: int, th: int, t: int, p: int, roots: seq<seq<GhostZone>>, last: seq<int>,
      symbols: Symbols, frames: seq<Key>, path: seq<int>, stack: seq<Inline>, idx: int)
    requires Matched(g, vec, th, t, p, roots, last, symbols, frames, path, stack, idx) && idx + 1 < |stack|
    requires At(g, vec) != [] && Last(At(g, vec)).child < 0
    ensures var c := |g.children|; Reached(ChildMade(g, vec), c, th, t, p, roots, last, symbols, frames, path + [c], stack, idx + 1)
    ensures |g.parents| == |g.children| == |g.owners| && IsList(g, vec)
  {
    hide *;
    MatchedParts(g, vec, th, t, p, roots, last, symbols, frames, path, stack, idx);
    var v, c := ChildMade(g, vec), |g.children|;
    forall m | IsList(g, m) && m != path[idx]
      ensures IsList(v, m) && At(v, m) == At(g, m)
    {
      ListMade(g, vec, m);
    }
    ChildStep(g, vec, th, t, p, |frames|, roots, last);
    PathKept(g, v, symbols, frames, frames, path, stack, idx, t + p);
    MadeMatches(g, vec, symbols, frames, stack[idx]);
    PathMore(v, symbols, frames, path, stack, idx, t + p);
    PathDown(v, symbols, frames, path, stack, idx + 1, t + p, c);
    ReachedFrom(v, c, th, t, p, roots, last, symbols, frames, path + [c], stack, idx + 1);
  }

  lemma ListMade(g: Ghosts, l: int, m: int)
    requires IsList(g, l) && At(g, l) != [] && |g.parents| == |g.children| == |g.owners| && IsList(g, m) && m != l
    ensures IsList(ChildMade(g, l), m) && At(ChildMade(g, l), m) == At(g, m)
  {
    ChildMadeAt(g, l, m);
  }

  lemma MadeMatches(g: Ghosts, l: int, symbols: Symbols, frames: seq<Key>, entry: Inline)
    requires IsList(g, l) && At(g, l) != [] && |g.parents| == |g.children| == |g.owners| && Matches(symbols, frames, Last(At(g, l)).frame, entry)
    ensures var v := ChildMade(g, l);
            && IsList(v, l) && At(v, l) != [] && Last(At(v, l)).end == Last(At(g, l)).end && Last(At(v, l)).child == |g.children|
            && Matches(symbols, frames, Last(At(v, l)).frame, entry)
  {
    ChildMadeAt(g, l, l);
    hide Matches, At, ChildMade;
  }

  /** Known frames and their numbers. */
  ghost predicate FramesOk(frames: seq<Key>, framesMap: map<Key, int>) {
    && (forall k :: k in framesMap ==> 0 <= framesMap[k] < |frames| && frames[framesMap[k]] == k)
    && (forall i :: 0 <= i < |frames| ==> frames[i] in framesMap && framesMap[frames[i]] == i)
  }

  /** A key names a function of its entry, or, while the entry's symbols are not known, its only one. */
  ghost predicate KeyFits(symbols: Symbols, entry: int, inlineFrame: int) {
    if entry in symbols then 0 <= inlineFrame < |symbols[entry]| else inlineFrame == 0
  }

  ghost predicate KeysFit(symbols: Symbols, frames: seq<Key>) {
    forall i :: 0 <= i < |frames| ==> KeyFits(symbols, frames[i].frame, frames[i].inlineFrame)
  }

  ghost predicate StackFits(symbols: Symbols, stack: seq<Inline>) {
    forall i :: 0 <= i < |stack| ==> KeyFits(symbols, stack[i].frame, stack[i].inlineFrame)
  }

  /** Symbols becoming known between samples do no harm to the frames there are. */
  lemma SymbolsBecomeKnown(symbols: Symbols, more: Symbols, frames: seq<Key>)
    requires KeysFit(symbols, frames) && forall e :: e in more ==> more[e] != []
    requires forall e :: e in symbols ==> e in more && more[e] == symbols[e]
    ensures KeysFit(more, frames)
  {
    forall i | 0 <= i < |frames|
      ensures KeyFits(more, frames[i].frame, frames[i].inlineFrame)
    {
      assert KeyFits(symbols, frames[i].frame, frames[i].inlineFrame);
    }
  }

  class GhostBuilder {
    const period: int
    var roots: seq<seq<GhostZone>>
    var children: seq<seq<GhostZone>>
    var frames: seq<Key>
    var framesMap: map<Key, int>
    ghost var parents: seq<(int, int)>
    ghost var owners: seq<int>
    /** When each thread was last sampled. */
    ghost var last: seq<int>

    ghost function State(): Ghosts
      reads this`roots, this`children, this`parents, this`owners
    {
      Ghosts(roots, children, parents, owners)
    }

    /** The forests are laminar; every zone has ended by its thread's last sample or ends where the thread's
        last outermost zone ends. */
    ghost predicate Valid()
      reads this
    {
      && period > 0 && FramesOk(frames, framesMap)
      && Laminar(State(), -1, -1) && ZonesFit(State(), |frames|) && |last| == |roots|
      && forall i :: 0 <= i < |roots| ==> last[i] >= 0 && Timely(State(), i, RootEnd(roots[i]), last[i])
    }

    constructor (period: int, threads: nat)
      requires period > 0
      ensures Valid() && |roots| == threads && frames == [] && forall i :: 0 <= i < threads ==> roots[i] == []
    {
      this.period := period;
      roots, children, frames, framesMap := seq(threads, _ => []), [], [], map[];
      parents, owners, last := [], [], seq(threads, _ => 0);
      new;
      NoZones(State());
    }

    method SetEnd(l: int, e: int)
      requires IsList(State(), l) && At(State(), l) != []
      modifies this`roots, this`children
      ensures State() == EndSet(old(State()), l, e)
    {
      if l >= 0 {
        var zs := children[l];
        children := children[l := zs[|zs| - 1 := zs[|zs| - 1].(end := e)]];
      } else {
        var zs := roots[-1 - l];
        roots := roots[-1 - l := zs[|zs| - 1 := zs[|zs| - 1].(end := e)]];
      }
    }

    /** Gives the last zone of a list children. */
    method MakeChild(l: int) returns (c: int)
      requires IsList(State(), l) && At(State(), l) != []
      modifies this`roots, this`children, this`parents, this`owners
      ensures State() == ChildMade(old(State()), l) && c == |old(children)|
    {
      c := |children|;
      parents := parents + [(l, |At(State(), l)| - 1)];
      owners := owners + [Owner(old(State()), l)];
      if l >= 0 {
        var zs := children[l];
        children := children[l := zs[|zs| - 1 := zs[|zs| - 1].(child := c)]];
      } else {
        var zs := roots[-1 - l];
        roots := roots[-1 - l := zs[|zs| - 1 := zs[|zs| - 1].(child := c)]];
      }
      children := children + [[]];
    }

    method PushZone(l: int, z: GhostZone)
      requires IsList(State(), l)
      modifies this`roots, this`children
      ensures State() == Pushed(old(State()), l, z)
    {
      if l >= 0 {
        children := children[l := children[l] + [z]];
      } else {
        roots := roots[-1 - l := roots[-1 - l] + [z]];
      }
    }

    function ListAt(l: int): (zs: seq<GhostZone>)
      requires IsList(State(), l)
      reads this`roots, this`children, this`parents, this`owners
      ensures zs == At(State(), l)
    {
      if l >= 0 then children[l] else roots[-1 - l]
    }

    /** A sample that comes before the expected end of the last zones: they end there and then. The zones
        concerned are the last outermost one and, of its descendants, the last ones as far as they end together. */
    method Trim(th: int, t: int)
      requires Valid() && 0 <= th < |roots| && t >= last[th]
      modifies this`roots, this`children
      ensures Steady(State(), -1, -1, th, t + period, t, |frames|, old(roots), last) && Untouched(State(), th, -1 - th, t)
      ensures 0 <= th < |roots| && RootEnd(roots[th]) == if old(RootEnd(roots[th])) <= t then old(RootEnd(roots[th])) else t
      ensures Kept(old(State()), State(), [], t, {})
    {
      hide *;
      ghost var e, n := RootEnd(roots[th]), |frames|;
      StateParts(this);
      ValidIsSteady(this, th, t);
      KeptSame(State(), t);
      if roots[th] != [] && roots[th][|roots[th]| - 1].end > t {
        var refBackTime := roots[th][|roots[th]| - 1].end;
        var tmp := -1 - th;
        var trimming := true;
        TrimStart(State(), th, e, t, n, old(roots), last);
        while trimming
          invariant refBackTime == e
          invariant trimming ==> TrimPoint(State(), tmp, th, e, t, n, old(roots), last)
          invariant !trimming ==> Steady(State(), -1, -1, th, e, t, n, old(roots), last) && 0 <= th < |roots| && RootEnd(roots[th]) == t < e
          invariant Kept(old(State()), State(), [], t, {})
          decreases trimming, |children| - tmp
        {
          ghost var g := State();
          StateParts(this);
          TrimParts(g, tmp, th, e, t, n, old(roots), last);
          var back := ListAt(tmp)[|ListAt(tmp)| - 1];
          if back.end != refBackTime {
            TrimStop(g, tmp, th, e, t, n, old(roots), last);
            trimming := false;
          } else {
            TrimStep(g, tmp, th, e, t, n, old(roots), last);
            EndSetKept(old(State()), g, [], t, {}, tmp, t);
            SetEnd(tmp, t);
            StateParts(this);
            if back.child < 0 {
              trimming := false;
            } else {
              tmp := back.child;
            }
          }
        }
      } else {
        RootEndSmall(roots[th], t);
      }
      StateParts(this);
      Trimmed(State(), th, e, t, t + period, n, old(roots), last);
    }

    /** Follows the stack down the last zones for as long as they are of its functions and end with the
        outermost one, and prolongs them. */
    method ExtendZones(th: int, symbols: Symbols, stack: seq<Inline>, t: int, ghost g0: Ghosts, ghost roots0: seq<seq<GhostZone>>)
        returns (vec: int, idx: int, ghost path: seq<int>)
      requires period > 0 && 0 <= th < |roots| && stack != [] && KeysFit(symbols, frames)
      requires Steady(State(), -1, -1, th, t + period, t, |frames|, roots0, last) && Untouched(State(), th, -1 - th, t)
      requires Kept(g0, State(), [], t, {t + period})
      modifies this`roots, this`children, this`parents, this`owners
      ensures Reached(State(), vec, th, t, period, roots0, last, symbols, frames, path, stack, idx) && 0 <= idx <= |stack|
      ensures Kept(g0, State(), [], t, {t + period})
      ensures idx < |stack| ==> Stops(At(State(), vec), symbols, frames, stack[idx].symAddr, old(RootEnd(roots[th])))
    {
      hide *;
      vec, idx, path := -1 - th, 0, [-1 - th];
      StateParts(this);
      AtRoot(State(), th, t, period, roots0, last, symbols, frames, stack);
      RootEndIs(roots[th]);
      var refBackTime := if roots[th] == [] then 0 else roots[th][|roots[th]| - 1].end;
      while ListAt(vec) != [] && idx < |stack|
        invariant 0 <= idx < |stack| && IsList(State(), vec)
        invariant Reached(State(), vec, th, t, period, roots0, last, symbols, frames, path, stack, idx)
        invariant Kept(g0, State(), [], t, {t + period})
        decreases |stack| - idx
      {
        ghost var g := State();
        ReachedParts(g, vec, th, t, period, roots0, last, symbols, frames, path, stack, idx);
        FrameFits(g, vec, th, t, period, |frames|, roots0, last);
        StopsWhen(At(g, vec), symbols, frames, stack[idx].symAddr, refBackTime);
        var back := ListAt(vec)[|ListAt(vec)| - 1];
        var backKey := frames[back.frame];
        if backKey.frame !in symbols {
          break;
        }
        var inlineFrame := symbols[backKey.frame][backKey.inlineFrame];
        if inlineFrame != stack[idx].symAddr {
          break;
        }
        if back.end != refBackTime {
          break;
        }
        Raised(g, vec, th, t, period, roots0, last, symbols, frames, path, stack, idx);
        EndSetKept(g0, g, [], t, {t + period}, vec, t + period);
        ChildSame(At(g, vec), t + period);
        SetEnd(vec, t + period);
        ghost var v := State();
        MatchedParts(v, vec, th, t, period, roots0, last, symbols, frames, path, stack, idx);
        idx := idx + 1;
        if idx == |stack| {
          OnwardLast(v, vec, th, t, period, roots0, last, symbols, frames, path, stack, idx - 1);
          break;
        }
        if back.child < 0 {
          OnwardNew(v, vec, th, t, period, roots0, last, symbols, frames, path, stack, idx - 1);
          ChildMadeKept(g0, v, [], t, {t + period}, vec);
          StateParts(this);
          vec := MakeChild(vec);
        } else {
          OnwardDown(v, vec, th, t, period, roots0, last, symbols, frames, path, stack, idx - 1);
          vec := back.child;
        }
        path := path + [vec];
        ReachedParts(State(), vec, th, t, period, roots0, last, symbols, frames, path, stack, idx);
      }
      if idx < |stack| {
        StopsEmpty(symbols, frames, stack[idx].symAddr, refBackTime);
      }
    }

    /** The number of a frame, which becomes known if it is not. */
    method FindFrame(key: Key) returns (fid: int)
      requires FramesOk(frames, framesMap)
      modifies this`frames, this`framesMap
      ensures FramesOk(frames, framesMap) && 0 <= fid < |frames| && frames[fid] == key
      ensures frames == if key in old(framesMap) then old(frames) else old(frames) + [key]
    {
      if key !in framesMap {
        fid := |frames|;
        frames := frames + [key];
        framesMap := framesMap[key := fid];
      } else {
        fid := framesMap[key];
      }
    }

    /** Adds one zone, for the next function of the stack. */
    method PushNext(th: int, symbols: Symbols, stack: seq<Inline>, t: int, vec: int, idx: int, ghost from: int, ghost path: seq<int>,
        ghost more: seq<int>, ghost g0: Ghosts, ghost roots0: seq<seq<GhostZone>>, ghost frames0: seq<Key>, ghost ref: int)
      requires FramesOk(frames, framesMap) && KeysFit(symbols, frames) && StackFits(symbols, stack) && frames0 <= frames
      requires 0 <= from <= idx < |stack| && idx < |path| && more == path[from..idx]
      requires Reached(State(), vec, th, t, period, roots0, last, symbols, frames, path, stack, idx)
      requires Kept(g0, State(), more, t, {t + period})
      requires if from == idx then Stops(At(State(), vec), symbols, frames0, stack[from].symAddr, ref)
               else Apart(At(State(), path[from]), symbols, frames0, stack[from].symAddr, ref)
      modifies this`roots, this`children, this`frames, this`framesMap
      ensures FramesOk(frames, framesMap) && KeysFit(symbols, frames) && frames0 <= frames
      ensures Matched(State(), vec, th, t, period, roots0, last, symbols, frames, path, stack, idx)
      ensures At(State(), vec) != [] && Last(At(State(), vec)).child < 0 && path[idx] == vec
      ensures Kept(g0, State(), more + [vec], t, {t + period})
      ensures Apart(At(State(), path[from]), symbols, frames0, stack[from].symAddr, ref)
    {
      hide *;
      ghost var g, before := State(), frames;
      var key := Key(stack[idx].frame, stack[idx].inlineFrame);
      var fid := FindFrame(key);
      KeyAdded(symbols, before, frames, stack, idx);
      ghost var z := GhostZone(t, t + period, fid, -1);
      PushedOn(g, vec, th, t, period, roots0, last, symbols, before, frames, path, stack, idx, fid);
      NewInPath(g, vec, th, t, period, roots0, last, symbols, before, path, stack, idx, from);
      PushedKept(g0, g, more, t, {t + period}, vec, z);
      ApartPushed(g, vec, z, path[from], symbols, frames0, stack[from].symAddr, ref);
      LastOf(At(g, vec), z);
      PushZone(vec, GhostZone(t, t + period, fid, -1));
    }

    /** Adds a zone for each function of the rest of the stack, each within the one before. */
    method PushZones(th: int, symbols: Symbols, stack: seq<Inline>, t: int, vec0: int, idx0: int, ghost path0: seq<int>,
        ghost g0: Ghosts, ghost roots0: seq<seq<GhostZone>>, ghost ref: int)
        returns (gcnt: int, ghost path: seq<int>)
      requires FramesOk(frames, framesMap) && KeysFit(symbols, frames) && StackFits(symbols, stack) && 0 <= idx0 <= |stack|
      requires Reached(State(), vec0, th, t, period, roots0, last, symbols, frames, path0, stack, idx0)
      requires Kept(g0, State(), [], t, {t + period})
      requires idx0 < |stack| ==> Stops(At(State(), vec0), symbols, frames, stack[idx0].symAddr, ref)
      modifies this`roots, this`children, this`parents, this`owners, this`frames, this`framesMap
      ensures FramesOk(frames, framesMap) && KeysFit(symbols, frames) && old(frames) <= frames
      ensures Reached(State(), -1 - th, th, t, period, roots0, last, symbols, frames, path, stack, |stack|)
      ensures gcnt == |stack| - idx0 && |path| == |stack| && Kept(g0, State(), path[idx0..], t, {t + period})
      ensures idx0 < |stack| ==> Apart(At(State(), path[idx0]), symbols, old(frames), stack[idx0].symAddr, ref)
    {
      hide *;
      gcnt := 0;
      var vec, idx := vec0, idx0;
      path := path0;
      ghost var frames0, more: seq<int> := frames, [];
      ReachedLength(State(), vec, th, t, period, roots0, last, symbols, frames, path, stack, idx);
      while idx < |stack|
        invariant idx0 <= idx <= |stack| && gcnt == idx - idx0 && |path| == (if idx < |stack| then idx + 1 else idx)
        invariant more == path[idx0..idx]
        invariant Reached(State(), vec, th, t, period, roots0, last, symbols, frames, path, stack, idx)
        invariant FramesOk(frames, framesMap) && KeysFit(symbols, frames) && frames0 <= frames
        invariant Kept(g0, State(), more, t, {t + period})
        invariant idx0 == idx < |stack| ==> Stops(At(State(), vec), symbols, frames0, stack[idx0].symAddr, ref)
        invariant idx0 < idx ==> Apart(At(State(), path[idx0]), symbols, frames0, stack[idx0].symAddr, ref)
      {
        gcnt := gcnt + 1;
        PushNext(th, symbols, stack, t, vec, idx, idx0, path, more, g0, roots0, frames0, ref);
        ghost var v := State();
        SliceMore(path, idx0, idx, vec);
        more := more + [vec];
        idx := idx + 1;
        if idx == |stack| {
          OnwardLast(v, vec, th, t, period, roots0, last, symbols, frames, path, stack, idx - 1);
        } else {
          OnwardNew(v, vec, th, t, period, roots0, last, symbols, frames, path, stack, idx - 1);
          ChildMadeKept(g0, v, more, t, {t + period}, vec);
          ApartMade(v, vec, path[idx0], symbols, frames0, stack[idx0].symAddr, ref);
          StateParts(this);
          vec := MakeChild(vec);
          SliceSame(path, idx0, idx, vec);
          path := path + [vec];
        }
      }
      SliceAll(path, idx0);
      ReachedAnywhere(State(), vec, th, t, period, roots0, last, symbols, frames, path, stack);
    }

    /** Takes in a sample: the call stack cs of thread th at time t. Afterwards the last zones, one in the other,
        are of the functions of the stack and last until the next sample is due. As many of them as could be
        have been prolonged; the others, gcnt in number, are new and start at t. */
    method AddGhostZone(th: int, symbols: Symbols, cs: seq<int>, t: int) returns (gcnt: int, ghost path: seq<int>)
      requires Valid() && 0 <= th < |roots| && t >= last[th]
      requires cs != [] && KeysFit(symbols, frames) && forall e :: e in symbols ==> symbols[e] != []
      modifies this
      ensures Valid() && last == old(last)[th := t] && |roots| == |old(roots)|
      ensures KeysFit(symbols, frames) && old(frames) <= frames
      ensures RootEnd(roots[th]) == t + period && forall i :: 0 <= i < |roots| && i != th ==> roots[i] == old(roots[i])
      ensures var stack := Stack(symbols, cs);
              && Unfolded(symbols, cs, stack) && 0 <= gcnt <= |stack| == |path| && path[0] == -1 - th
              && PathOk(State(), symbols, frames, path, stack, |stack|, t + period)
              && Kept(old(State()), State(), path[|stack| - gcnt..], t, {t + period})
              && var from, end := |stack| - gcnt, old(RootEnd(roots[th]));
                 from < |stack| ==> Apart(At(State(), path[from]), symbols, old(frames), stack[from].symAddr, if end <= t then end else t)
    {
      hide *;
      ghost var g0, roots0, frames0 := State(), roots, frames;
      ValidIsSteady(this, th, t);
      ValidFrames(this);
      var stack := GetStackWithInlines(symbols, cs);
      StackHasFits(symbols, cs);
      Trim(th, t);
      KeptLooser(g0, State(), t, t + period);
      ghost var ref := RootEnd(roots[th]);
      var vec, idx, path0 := ExtendZones(th, symbols, stack, t, g0, roots0);
      gcnt, path := PushZones(th, symbols, stack, t, vec, idx, path0, g0, roots0, ref);
      ReachedEnd(State(), th, t, period, roots0, last, symbols, frames, path, stack);
      ghost var last0 := last;
      last := last[th := t];
      StateParts(this);
      NowValid(this, th, t, roots0, last0);
    }
  }

  lemma StateParts(b: GhostBuilder)
    ensures b.State().roots == b.roots && b.State().children == b.children
  {
  }

  lemma ValidIsSteady(b: GhostBuilder, th: int, t: int)
    requires b.Valid() && 0 <= th < |b.roots| && t >= b.last[th]
    ensures Steady(b.State(), -1, -1, th, RootEnd(b.roots[th]), t, |b.frames|, b.roots, b.last) && b.period > 0 && t >= 0
    ensures |b.last| == |b.roots| && forall i :: 0 <= i < |b.last| ==> b.last[i] >= 0
  {
    hide Laminar, ZonesFit, Timely;
    TimelyLater(b.State(), th, RootEnd(b.roots[th]), b.last[th], t);
  }

  lemma TrimStart(g: Ghosts, th: int, e: int, t: int, n: int, roots: seq<seq<GhostZone>>, last: seq<int>)
    requires Steady(g, -1, -1, th, e, t, n, roots, last) && 0 <= th < |g.roots|
    requires g.roots[th] != [] && e == RootEnd(g.roots[th]) && g.roots[th][|g.roots[th]| - 1].end > t
    ensures TrimPoint(g, -1 - th, th, e, t, n, roots, last) && e == g.roots[th][|g.roots[th]| - 1].end > t
  {
    hide Steady;
    RootOf(g, th);
  }

  lemma TrimParts(g: Ghosts, l: int, th: int, e: int, t: int, n: int, roots: seq<seq<GhostZone>>, last: seq<int>)
    requires TrimPoint(g, l, th, e, t, n, roots, last)
    ensures IsList(g, l) && At(g, l) != [] && 0 <= th < |g.roots| && Last(At(g, l)) == At(g, l)[|At(g, l)| - 1] && l < |g.children|
  {
  }

  lemma RootEndSmall(zs: seq<GhostZone>, t: int)
    requires t >= 0 && (zs == [] || zs[|zs| - 1].end <= t)
    ensures RootEnd(zs) <= t
  {
  }

  lemma NoZones(g: Ghosts)
    requires g.children == [] && g.parents == [] && g.owners == [] && forall i :: 0 <= i < |g.roots| ==> g.roots[i] == []
    ensures Laminar(g, -1, -1) && ZonesFit(g, 0)
    ensures forall i :: 0 <= i < |g.roots| ==> Timely(g, i, 0, 0)
  {
  }

  lemma AtRoot(g: Ghosts, th: int, t: int, p: int, roots: seq<seq<GhostZone>>, last: seq<int>,
      symbols: Symbols, frames: seq<Key>, stack: seq<Inline>)
    requires Steady(g, -1, -1, th, t + p, t, |frames|, roots, last) && Untouched(g, th, -1 - th, t) && p > 0 && 0 <= th < |g.roots| && stack != []
    ensures Reached(g, -1 - th, th, t, p, roots, last, symbols, frames, [-1 - th], stack, 0) && IsList(g, -1 - th)
  {
    hide Steady, Untouched;
    RootOf(g, th);
  }

  lemma RootEndIs(zs: seq<GhostZone>)
    ensures RootEnd(zs) == if zs == [] then 0 else zs[|zs| - 1].end
  {
  }

  lemma FrameFits(g: Ghosts, l: int, th: int, t: int, p: int, n: int, roots: seq<seq<GhostZone>>, last: seq<int>)
    requires Extending(g, l, th, t, p, n, roots, last) && At(g, l) != []
    ensures 0 <= At(g, l)[|At(g, l)| - 1].frame < n && Last(At(g, l)) == At(g, l)[|At(g, l)| - 1]
  {
    hide Laminar, Timely, OthersOk, Untouched, ParentSpans;
  }

  lemma ChildSame(zs: seq<GhostZone>, e: int)
    requires zs != []
    ensures Last(zs[|zs| - 1 := Last(zs).(end := e)]).child == Last(zs).child
  {
  }

  lemma LastOf(zs: seq<GhostZone>, z: GhostZone)
    ensures zs + [z] != [] && Last(zs + [z]) == z
  {
  }

  /** What ends the descent along the last zones: there are none, the last one is of some other function, or
      it has ended earlier than the outermost one. */
  ghost predicate Stops(zs: seq<GhostZone>, symbols: Symbols, frames: seq<Key>, symAddr: int, ref: int) {
    zs != [] ==> !SameSymbol(symbols, frames, Last(zs).frame, symAddr) || Last(zs).end != ref
  }

  lemma StopsEmpty(symbols: Symbols, frames: seq<Key>, symAddr: int, ref: int)
    ensures Stops([], symbols, frames, symAddr, ref)
  {
  }

  lemma StopsWhen(zs: seq<GhostZone>, symbols: Symbols, frames: seq<Key>, symAddr: int, ref: int)
    requires zs != [] && 0 <= zs[|zs| - 1].frame < |frames| && KeysFit(symbols, frames)
    ensures var key := frames[zs[|zs| - 1].frame];
            && (key.frame in symbols ==> 0 <= key.inlineFrame < |symbols[key.frame]|)
            && (SameSymbol(symbols, frames, Last(zs).frame, symAddr) <==> key.frame in symbols && symbols[key.frame][key.inlineFrame] == symAddr)
            && (Stops(zs, symbols, frames, symAddr, ref) <==>
                  !(key.frame in symbols && symbols[key.frame][key.inlineFrame] == symAddr && zs[|zs| - 1].end == ref))
  {
  }

  /** The last zone of the list could not be a prolonged one before it. */
  ghost predicate Apart(zs: seq<GhostZone>, symbols: Symbols, frames: seq<Key>, symAddr: int, ref: int) {
    zs != [] ==> Stops(zs[..|zs| - 1], symbols, frames, symAddr, ref)
  }

  lemma ApartPushed(g: Ghosts, l: int, z: GhostZone, m: int, symbols: Symbols, frames: seq<Key>, symAddr: int, ref: int)
    requires IsList(g, l)
    requires if m == l then Stops(At(g, l), symbols, frames, symAddr, ref) else Apart(At(g, m), symbols, frames, symAddr, ref)
    ensures Apart(At(Pushed(g, l, z), m), symbols, frames, symAddr, ref)
  {
    PushedAt(g, l, z, m);
    hide At, Pushed, Stops;
    assert (At(g, l) + [z])[..|At(g, l)|] == At(g, l);
  }

  lemma ApartMade(g: Ghosts, l: int, m: int, symbols: Symbols, frames: seq<Key>, symAddr: int, ref: int)
    requires IsList(g, l) && At(g, l) != [] && |g.parents| == |g.children| == |g.owners|
    requires Apart(At(g, m), symbols, frames, symAddr, ref)
    ensures Apart(At(ChildMade(g, l), m), symbols, frames, symAddr, ref)
  {
    ChildMadeAt(g, l, m);
    hide At, ChildMade, Stops;
    var zs, ws := At(g, m), At(ChildMade(g, l), m);
    if ws != [] {
      assert ws[..|ws| - 1] == zs[..|zs| - 1];
    }
  }

  lemma ReachedLength(g: Ghosts, vec: int, th: int, t: int, p: int, roots: seq<seq<GhostZone>>, last: seq<int>,
      symbols: Symbols, frames: seq<Key>, path: seq<int>, stack: seq<Inline>, idx: int)
    requires Reached(g, vec, th, t, p, roots, last, symbols, frames, path, stack, idx) && idx <= |stack|
    ensures |path| == if idx < |stack| then idx + 1 else idx
  {
    hide PathOk, Extending, Steady;
  }

  lemma ReachedAnywhere(g: Ghosts, vec: int, th: int, t: int, p: int, roots: seq<seq<GhostZone>>, last: seq<int>,
      symbols: Symbols, frames: seq<Key>, path: seq<int>, stack: seq<Inline>)
    requires Reached(g, vec, th, t, p, roots, last, symbols, frames, path, stack, |stack|)
    ensures Reached(g, -1 - th, th, t, p, roots, last, symbols, frames, path, stack, |stack|)
  {
    hide PathOk, Extending, Steady;
  }

  lemma ReachedEnd(g: Ghosts, th: int, t: int, p: int, roots: seq<seq<GhostZone>>, last: seq<int>,
      symbols: Symbols, frames: seq<Key>, path: seq<int>, stack: seq<Inline>)
    requires Reached(g, -1 - th, th, t, p, roots, last, symbols, frames, path, stack, |stack|) && stack != []
    ensures PathOk(g, symbols, frames, path, stack, |stack|, t + p) && path != [] && path[0] == -1 - th
    ensures Steady(g, -1, -1, th, t + p, t, |frames|, roots, last) && 0 <= th < |g.roots| && RootEnd(g.roots[th]) == t + p
    ensures |g.roots| == |roots| && forall i :: 0 <= i < |roots| && i != th ==> g.roots[i] == roots[i]
  {
    hide Extending, Laminar, Timely, ZonesFit;
    RootOf(g, th);
  }

  lemma NewInPath(g: Ghosts, vec: int, th: int, t: int, p: int, roots: seq<seq<GhostZone>>, last: seq<int>,
      symbols: Symbols, frames: seq<Key>, path: seq<int>, stack: seq<Inline>, idx: int, from: int)
    requires Reached(g, vec, th, t, p, roots, last, symbols, frames, path, stack, idx) && 0 <= from <= idx < |stack|
    ensures idx < |path| && vec !in path[from..idx] && (from < idx ==> path[from] != vec) && (from == idx ==> path[from] == vec)
  {
    hide Extending, At, IsList, Matches;
  }

  lemma SliceMore(path: seq<int>, from: int, idx: int, vec: int)
    requires 0 <= from <= idx < |path| && path[idx] == vec
    ensures path[from..idx + 1] == path[from..idx] + [vec]
  {
  }

  lemma SliceSame(path: seq<int>, from: int, idx: int, vec: int)
    requires 0 <= from <= idx <= |path|
    ensures (path + [vec])[from..idx] == path[from..idx] && (from < |path| ==> (path + [vec])[from] == path[from])
  {
  }

  lemma SliceAll(path: seq<int>, from: int)
    requires 0 <= from <= |path|
    ensures path[from..|path|] == path[from..]
  {
  }

  lemma KeyAdded(symbols: Symbols, frames: seq<Key>, more: seq<Key>, stack: seq<Inline>, idx: int)
    requires KeysFit(symbols, frames) && StackFits(symbols, stack) && 0 <= idx < |stack|
    requires more == frames || more == frames + [Key(stack[idx].frame, stack[idx].inlineFrame)]
    ensures KeysFit(symbols, more) && frames <= more
  {
  }

  lemma InlinesFit(symbols: Symbols, entry: int)
    requires forall e :: e in symbols ==> symbols[e] != []
    ensures StackFits(symbols, Inlines(symbols, entry))
  {
  }

  lemma {:induction false} StackHasFits(symbols: Symbols, cs: seq<int>)
    requires forall e :: e in symbols ==> symbols[e] != []
    ensures StackFits(symbols, Stack(symbols, cs))
  {
    if cs != [] {
      StackHasFits(symbols, cs[..|cs| - 1]);
      var x: seq<Inline>, y: seq<Inline> := Inlines(symbols, cs[|cs| - 1]), Stack(symbols, cs[..|cs| - 1]);
      InlinesFit(symbols, cs[|cs| - 1]);
      hide Inlines;
      forall i | 0 <= i < |x + y|
        ensures KeyFits(symbols, (x + y)[i].frame, (x + y)[i].inlineFrame)
      {
        assert (x + y)[i] == if i < |x| then x[i] else y[i - |x|];
      }
    }
  }

  lemma ValidFrames(b: GhostBuilder)
    requires b.Valid()
    ensures FramesOk(b.frames, b.framesMap)
  {
  }

  lemma NowValid(b: GhostBuilder, th: int, t: int, roots: seq<seq<GhostZone>>, last: seq<int>)
    requires b.period > 0 && FramesOk(b.frames, b.framesMap) && 0 <= th < |b.roots| && t >= 0 && |last| == |roots|
    requires Steady(b.State(), -1, -1, th, t + b.period, t, |b.frames|, roots, last) && RootEnd(b.roots[th]) == t + b.period
    requires b.last == last[th := t] && forall i :: 0 <= i < |last| ==> last[i] >= 0
    ensures b.Valid()
  {
    hide Laminar, ZonesFit, Timely, FramesOk, RootEnd;
  }
}
