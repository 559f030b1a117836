/** Merging two scripts with the same source, against an independent description of the result by
    what happens in every gap and to every element of the source. */
module Merge {
  import opened EditScript

  datatype Outcome<T> = Conflict | Merged(script: seq<Entry<T>>)
  {
    function Then(first: seq<Entry<T>>): Outcome<T> {
      match this
      case Conflict => Conflict
      case Merged(rest) => Merged(first + rest)
    }
  }

  function Bare<T>(elem: T, kind: EditKind): Entry<T> {
    Entry(elem, 0, 0, kind)
  }

  /** The additions among the entries. */
  function Additions<T>(s: seq<Entry<T>>): seq<Entry<T>> {
    if s == [] then []
    else (if s[0].kind == Add then [Bare(s[0].elem, Add)] else []) + Additions(s[1..])
  }

  /** What the merge makes of two scripts, read side by side. */
  function Combine<T(==)>(p: seq<Entry<T>>, q: seq<Entry<T>>): Outcome<T>
    decreases |p| + |q|
  {
    if p == [] then Merged(Additions(q))
    else if q == [] then Merged(Additions(p))
    else
      match (p[0].kind, q[0].kind)
      case (Common, Common) => Combine(p[1..], q[1..]).Then([Bare(p[0].elem, Common)])
      case (Common, Delete) => Combine(p[1..], q[1..]).Then([Bare(p[0].elem, Delete)])
      case (Delete, Common) => Combine(p[1..], q[1..]).Then([Bare(p[0].elem, Delete)])
      case (Delete, Delete) =>
        if p[0].elem == q[0].elem then Combine(p[1..], q[1..]).Then([Bare(p[0].elem, Delete)]) else Conflict
      case (Common, Add) => Combine(p, q[1..]).Then([Bare(q[0].elem, Add)])
      case (Add, Common) => Combine(p[1..], q).Then([Bare(p[0].elem, Add)])
      case (Delete, Add) => Conflict
      case (Add, Delete) => Conflict
      case (Add, Add) =>
        if p[0].elem == q[0].elem then Combine(p[1..], q[1..]).Then([Bare(p[0].elem, Add)]) else Conflict
  }

  /** What a script inserts before each element of its source, and after the last. */
  ghost function Inserts<T>(s: seq<Entry<T>>): (r: seq<seq<T>>)
    ensures |r| >= 1
  {
    if s == [] then [[]]
    else
      var r := Inserts(s[1..]);
      if s[0].kind == Add then [[s[0].elem] + r[0]] + r[1..] else [[]] + r
  }

  /** Which elements of its source a script keeps. */
  ghost function Kept<T>(s: seq<Entry<T>>): seq<bool> {
    if s == [] then []
    else if s[0].kind == Add then Kept(s[1..])
    else [s[0].kind == Common] + Kept(s[1..])
  }

  ghost predicate ProperPrefix<T>(u: seq<T>, v: seq<T>) {
    u <= v && u != v
  }

  /** Two changes of one gap go together when both insert the same, or when one inserts only the
      beginning of what the other does and does not go on to delete the element after the gap. */
  ghost predicate Compatible<T>(u: seq<T>, v: seq<T>, uDeletes: bool, vDeletes: bool) {
    u == v || (ProperPrefix(u, v) && !uDeletes) || (ProperPrefix(v, u) && !vDeletes)
  }

  ghost predicate Deletes(kept: seq<bool>, k: nat) {
    k < |kept| && !kept[k]
  }

  ghost predicate AllCompatible<T>(i: seq<seq<T>>, m: seq<bool>, j: seq<seq<T>>, n: seq<bool>) {
    && |i| == |j|
    && forall k :: 0 <= k < |i| ==> Compatible(i[k], j[k], Deletes(m, k), Deletes(n, k))
  }

  ghost function Longer<T>(u: seq<T>, v: seq<T>): seq<T> {
    if |u| >= |v| then u else v
  }

  ghost predicate LongerGaps<T>(r: seq<seq<T>>, i: seq<seq<T>>, j: seq<seq<T>>) {
    |r| == |i| == |j| && forall k :: 0 <= k < |r| ==> r[k] == Longer(i[k], j[k])
  }

  ghost predicate KeptByBoth(r: seq<bool>, m: seq<bool>, n: seq<bool>) {
    |r| == |m| == |n| && forall k :: 0 <= k < |r| ==> r[k] == (m[k] && n[k])
  }

  /** The independent description of a merge: in every gap the longer insertion, of every element
      the deletion if either side deletes it. */
  ghost predicate IsMergeOf<T>(r: seq<Entry<T>>, p: seq<Entry<T>>, q: seq<Entry<T>>) {
    && Source(r) == Source(p)
    && LongerGaps(Inserts(r), Inserts(p), Inserts(q))
    && KeptByBoth(Kept(r), Kept(p), Kept(q))
  }

  lemma SourceOfCons<T>(e: Entry<T>, s: seq<Entry<T>>)
    ensures Source([e] + s) == (if e.kind == Add then [] else [e.elem]) + Source(s)
    ensures Target([e] + s) == (if e.kind == Delete then [] else [e.elem]) + Target(s)
  {
    Concat([e], s);
    PushOne([], e);
    assert [] + [e] == [e];
  }

  lemma {:induction false} ShapeSizes<T>(s: seq<Entry<T>>)
    ensures |Inserts(s)| == |Source(s)| + 1 && |Kept(s)| == |Source(s)|
  {
    if s != [] {
      ShapeSizes(s[1..]);
      SourceOfCons(s[0], s[1..]);
      assert s == [s[0]] + s[1..];
    }
  }

  lemma InsertsOfCons<T>(e: Entry<T>, s: seq<Entry<T>>)
    ensures var r := Inserts(s);
            Inserts([e] + s) == if e.kind == Add then [[e.elem] + r[0]] + r[1..] else [[]] + r
    ensures Kept([e] + s) == if e.kind == Add then Kept(s) else [e.kind == Common] + Kept(s)
  {
    assert ([e] + s)[1..] == s;
  }

  /** Only additions: nothing of the source left to meet. */
  lemma {:induction false} AdditionsOnly<T>(s: seq<Entry<T>>)
    requires Source(s) == []
    ensures AllOf(s, Add)
    ensures Source(Additions(s)) == [] && Target(Additions(s)) == Target(s)
    ensures Inserts(Additions(s)) == Inserts(s) && Kept(s) == Kept(Additions(s)) == []
    ensures |Inserts(s)| == 1
  {
    hide *;
    if s == [] {
      AdditionsOfNone<T>();
    } else {
      var rest, more := s[1..], Additions(s[1..]);
      assert s == [s[0]] + rest;
      SourceOfCons(s[0], rest);
      AdditionsOnly(rest);
      AllAdd(s[0], rest);
      SourceOfCons(Bare(s[0].elem, Add), more);
      InsertsOfCons(s[0], rest);
      InsertsOfCons(Bare(s[0].elem, Add), more);
      AdditionFirst(s[0], rest);
    }
  }

  lemma AdditionsOfNone<T>()
    ensures AllOf<T>([], Add) && Additions<T>([]) == [] && Target<T>([]) == [] && Source<T>([]) == []
    ensures Inserts<T>([]) == [[]] && Kept<T>([]) == []
  {
  }

  lemma AllAdd<T>(e: Entry<T>, s: seq<Entry<T>>)
    requires AllOf(s, Add) && e.kind == Add
    ensures AllOf([e] + s, Add)
  {
  }

  lemma AdditionFirst<T>(e: Entry<T>, s: seq<Entry<T>>)
    requires e.kind == Add
    ensures Additions([e] + s) == [Bare(e.elem, Add)] + Additions(s)
    ensures Bare(e.elem, Add).kind == Add && Bare(e.elem, Add).elem == e.elem
  {
    assert ([e] + s)[1..] == s;
  }

  /** Past an element of the source both shapes lose their empty first gap. */
  lemma CompatibleShift<T>(i: seq<seq<T>>, m: seq<bool>, j: seq<seq<T>>, n: seq<bool>, x: bool, y: bool)
    ensures AllCompatible([[]] + i, [x] + m, [[]] + j, [y] + n) <==> AllCompatible(i, m, j, n)
  {
    hide Compatible;
    var i', m', j', n' := [[]] + i, [x] + m, [[]] + j, [y] + n;
    if |i| == |j| {
      forall k | 0 <= k < |i|
        ensures i'[k + 1] == i[k] && j'[k + 1] == j[k] && Deletes(m', k + 1) == Deletes(m, k) && Deletes(n', k + 1) == Deletes(n, k)
      {
      }
      SameIsCompatible<T>([], Deletes(m', 0), Deletes(n', 0));
      if AllCompatible(i, m, j, n) {
        forall k | 0 <= k < |i'|
          ensures Compatible(i'[k], j'[k], Deletes(m', k), Deletes(n', k))
        {
          assert k > 0 ==> Compatible(i[k - 1], j[k - 1], Deletes(m, k - 1), Deletes(n, k - 1));
        }
      } else {
        var k :| 0 <= k < |i| && !Compatible(i[k], j[k], Deletes(m, k), Deletes(n, k));
        assert !Compatible(i'[k + 1], j'[k + 1], Deletes(m', k + 1), Deletes(n', k + 1));
      }
    }
  }

  lemma SameIsCompatible<T>(u: seq<T>, d: bool, e: bool)
    ensures Compatible(u, u, d, e)
  {
  }

  /** When only first gaps differ, only they matter. */
  lemma CompatibleFirstGap<T>(u: seq<T>, u': seq<T>, i: seq<seq<T>>, m: seq<bool>,
                              v: seq<T>, v': seq<T>, j: seq<seq<T>>, n: seq<bool>)
    requires Compatible(u, v, Deletes(m, 0), Deletes(n, 0)) <==> Compatible(u', v', Deletes(m, 0), Deletes(n, 0))
    ensures AllCompatible([u] + i, m, [v] + j, n) <==> AllCompatible([u'] + i, m, [v'] + j, n)
  {
    hide Compatible;
    CompatibleFirstGapHalf(u, u', i, m, v, v', j, n);
    CompatibleFirstGapHalf(u', u, i, m, v', v, j, n);
  }

  lemma CompatibleFirstGapHalf<T>(u: seq<T>, u': seq<T>, i: seq<seq<T>>, m: seq<bool>,
                                  v: seq<T>, v': seq<T>, j: seq<seq<T>>, n: seq<bool>)
    requires Compatible(u, v, Deletes(m, 0), Deletes(n, 0)) ==> Compatible(u', v', Deletes(m, 0), Deletes(n, 0))
    ensures AllCompatible([u] + i, m, [v] + j, n) ==> AllCompatible([u'] + i, m, [v'] + j, n)
  {
    hide Compatible;
    var i0, j0, i1, j1 := [u] + i, [v] + j, [u'] + i, [v'] + j;
    if AllCompatible(i0, m, j0, n) {
      forall k | 0 <= k < |i1|
        ensures Compatible(i1[k], j1[k], Deletes(m, k), Deletes(n, k))
      {
        assert Compatible(i0[k], j0[k], Deletes(m, k), Deletes(n, k));
      }
    }
  }

  lemma ExtendedPrefixes<T>(x: T, u: seq<T>, v: seq<T>, d: bool, e: bool)
    ensures Compatible([x] + u, [x] + v, d, e) <==> Compatible(u, v, d, e)
    ensures Compatible([x] + u, [], d, false) && Compatible(u, [], d, false)
    ensures Compatible([], [x] + v, false, e) && Compatible([], v, false, e)
  {
    assert ([x] + u)[1..] == u && ([x] + v)[1..] == v;
    assert u <= v <==> [x] + u <= [x] + v;
    assert v <= u <==> [x] + v <= [x] + u;
  }

  lemma LongerGapsShift<T>(r: seq<seq<T>>, i: seq<seq<T>>, j: seq<seq<T>>)
    requires LongerGaps(r, i, j)
    ensures LongerGaps([[]] + r, [[]] + i, [[]] + j)
  {
  }

  lemma LongerGapsFirst<T>(r: seq<seq<T>>, i: seq<seq<T>>, j: seq<seq<T>>, w: seq<T>, u: seq<T>, v: seq<T>)
    requires LongerGaps(r, i, j) && |r| > 0 && w == Longer(u, v)
    ensures LongerGaps([w] + r[1..], [u] + i[1..], [v] + j[1..])
  {
  }

  lemma KeptByBothShift(r: seq<bool>, m: seq<bool>, n: seq<bool>, x: bool, y: bool)
    requires KeptByBoth(r, m, n)
    ensures KeptByBoth([x && y] + r, [x] + m, [y] + n)
  {
  }

  /** The merge of tails, with a step of both in front, is the merge of the whole. */
  lemma MergeOfStep<T>(r: seq<Entry<T>>, p: seq<Entry<T>>, q: seq<Entry<T>>, d: Entry<T>, e: Entry<T>, f: Entry<T>)
    requires IsMergeOf(r, p, q) && e.kind != Add && f.kind != Add && d.elem == e.elem
    requires d.kind == (if e.kind == f.kind == Common then Common else Delete)
    ensures IsMergeOf([d] + r, [e] + p, [f] + q)
  {
    hide Inserts, Kept, Source, LongerGaps, KeptByBoth;
    InsertsOfCons(d, r);
    InsertsOfCons(e, p);
    InsertsOfCons(f, q);
    SourceOfCons(d, r);
    SourceOfCons(e, p);
    LongerGapsShift(Inserts(r), Inserts(p), Inserts(q));
    KeptByBothShift(Kept(r), Kept(p), Kept(q), e.kind == Common, f.kind == Common);
  }

  /** One insertion in front, by one side whose partner inserts nothing there, or by both. */
  lemma MergeOfAdd<T>(r: seq<Entry<T>>, p: seq<Entry<T>>, q: seq<Entry<T>>, d: Entry<T>, ps: seq<Entry<T>>, qs: seq<Entry<T>>)
    requires IsMergeOf(r, p, q) && d.kind == Add && (ps != [] || qs != [])
    requires |ps| <= 1 && |qs| <= 1
    requires forall e :: e in ps + qs ==> e.kind == Add && e.elem == d.elem
    requires ps == [] ==> Inserts(p)[0] == []
    requires qs == [] ==> Inserts(q)[0] == []
    ensures IsMergeOf([d] + r, ps + p, qs + q)
  {
    MergeOfAddShape(p, d, ps);
    MergeOfAddShape(q, d, qs);
    InsertsOfCons(d, r);
    SourceOfCons(d, r);
    hide Inserts, Kept, Source, LongerGaps, KeptByBoth;
    var w, u, v := Inserts(r), Inserts(p), Inserts(q);
    assert |w| > 0 && w[0] == Longer(u[0], v[0]) by { FirstLonger(w, u, v); }
    LongerGapsFirst(w, u, v, [d.elem] + w[0], Inserts(ps + p)[0], Inserts(qs + q)[0]);
  }

  lemma MergeOfAddShape<T>(p: seq<Entry<T>>, d: Entry<T>, ps: seq<Entry<T>>)
    requires d.kind == Add && |ps| <= 1
    requires forall e :: e in ps ==> e.kind == Add && e.elem == d.elem
    ensures Source(ps + p) == Source(p) && Kept(ps + p) == Kept(p)
    ensures Inserts(ps + p) == [if ps == [] then Inserts(p)[0] else [d.elem] + Inserts(p)[0]] + Inserts(p)[1..]
  {
    if ps == [] {
      assert ps + p == p;
    } else {
      assert ps == [ps[0]] && ps[0] in ps;
      InsertsOfCons(ps[0], p);
      SourceOfCons(ps[0], p);
    }
  }

  lemma FirstLonger<T>(r: seq<seq<T>>, i: seq<seq<T>>, j: seq<seq<T>>)
    requires LongerGaps(r, i, j) && |r| > 0
    ensures r[0] == Longer(i[0], j[0])
  {
  }

  /** The two shapes go together. */
  ghost predicate Fit<T>(p: seq<Entry<T>>, q: seq<Entry<T>>) {
    AllCompatible(Inserts(p), Kept(p), Inserts(q), Kept(q))
  }

  lemma Uncons<T>(s: seq<Entry<T>>)
    requires s != []
    ensures s == [s[0]] + s[1..]
    ensures Source(s) == (if s[0].kind == Add then [] else [s[0].elem]) + Source(s[1..])
    ensures Inserts(s) == (if s[0].kind == Add then [[s[0].elem] + Inserts(s[1..])[0]] + Inserts(s[1..])[1..] else [[]] + Inserts(s[1..]))
    ensures Kept(s) == (if s[0].kind == Add then Kept(s[1..]) else [s[0].kind == Common] + Kept(s[1..]))
  {
    assert s == [s[0]] + s[1..];
    SourceOfCons(s[0], s[1..]);
  }

  lemma StepFits<T>(p: seq<Entry<T>>, q: seq<Entry<T>>)
    requires p != [] && q != [] && p[0].kind != Add && q[0].kind != Add && Source(p) == Source(q)
    ensures p[0].elem == q[0].elem && Source(p[1..]) == Source(q[1..])
    ensures Fit(p, q) <==> Fit(p[1..], q[1..])
  {
    Uncons(p);
    Uncons(q);
    hide Source, Inserts, Kept, AllCompatible;
    assert Source(p)[0] == p[0].elem && Source(p)[1..] == Source(p[1..]);
    assert Source(q)[0] == q[0].elem && Source(q)[1..] == Source(q[1..]);
    CompatibleShift(Inserts(p[1..]), Kept(p[1..]), Inserts(q[1..]), Kept(q[1..]), p[0].kind == Common, q[0].kind == Common);
  }

  lemma AddFits<T>(p: seq<Entry<T>>, q: seq<Entry<T>>)
    requires p != [] && q != [] && p[0].kind == Add && q[0].kind == Common && Source(p) == Source(q)
    ensures Source(p[1..]) == Source(q) && Inserts(q)[0] == []
    ensures Fit(p, q) <==> Fit(p[1..], q)
    ensures Fit(q, p) <==> Fit(q, p[1..])
  {
    Uncons(p);
    Uncons(q);
    hide Source, Inserts, Kept, AllCompatible, Compatible;
    assert [] + Source(p[1..]) == Source(p[1..]);
    var i, j := Inserts(p[1..]), Inserts(q);
    assert i == [i[0]] + i[1..] && j == [[]] + j[1..];
    ExtendedPrefixes(p[0].elem, i[0], [], Deletes(Kept(p), 0), Deletes(Kept(q), 0));
    ExtendedPrefixes(p[0].elem, [], i[0], Deletes(Kept(q), 0), Deletes(Kept(p), 0));
    CompatibleFirstGap([p[0].elem] + i[0], i[0], i[1..], Kept(p), [], [], j[1..], Kept(q));
    CompatibleFirstGap([], [], j[1..], Kept(q), [p[0].elem] + i[0], i[0], i[1..], Kept(p));
  }

  lemma BothAddFits<T>(p: seq<Entry<T>>, q: seq<Entry<T>>)
    requires p != [] && q != [] && p[0].kind == q[0].kind == Add && p[0].elem == q[0].elem && Source(p) == Source(q)
    ensures Source(p[1..]) == Source(q[1..])
    ensures Fit(p, q) <==> Fit(p[1..], q[1..])
  {
    Uncons(p);
    Uncons(q);
    hide Source, Inserts, Kept, AllCompatible, Compatible;
    assert [] + Source(p[1..]) == Source(p[1..]) && [] + Source(q[1..]) == Source(q[1..]);
    var i, j := Inserts(p[1..]), Inserts(q[1..]);
    assert i == [i[0]] + i[1..] && j == [j[0]] + j[1..];
    ExtendedPrefixes(p[0].elem, i[0], j[0], Deletes(Kept(p), 0), Deletes(Kept(q), 0));
    CompatibleFirstGap([p[0].elem] + i[0], i[0], i[1..], Kept(p), [p[0].elem] + j[0], j[0], j[1..], Kept(q));
  }

  lemma Clash<T>(p: seq<Entry<T>>, q: seq<Entry<T>>)
    requires p != [] && q != [] && (p[0].kind == Add || q[0].kind == Add)
    requires || (p[0].kind == Add && q[0].kind == Delete) || (p[0].kind == Delete && q[0].kind == Add)
             || (p[0].kind == Add && q[0].kind == Add && p[0].elem != q[0].elem)
    ensures !Fit(p, q)
  {
    Uncons(p);
    Uncons(q);
    hide Inserts, Kept;
    var u, v := Inserts(p)[0], Inserts(q)[0];
    assert p[0].kind == Add ==> |u| > 0 && u[0] == p[0].elem;
    assert q[0].kind == Add ==> |v| > 0 && v[0] == q[0].elem;
    assert !Compatible(u, v, Deletes(Kept(p), 0), Deletes(Kept(q), 0));
  }

  lemma EndFits<T>(q: seq<Entry<T>>)
    requires Source(q) == []
    ensures Fit([], q) && Fit(q, [])
    ensures IsMergeOf(Additions(q), [], q) && IsMergeOf(Additions(q), q, [])
  {
    AdditionsOnly(q);
  }

  /** The merge is exact: it refuses just the pairs of scripts whose shapes do not fit, and of the
      others it makes what the independent description says. */
  lemma {:induction false} MergeIsExact<T>(p: seq<Entry<T>>, q: seq<Entry<T>>)
    requires Source(p) == Source(q)
    ensures Combine(p, q).Merged? <==> Fit(p, q)
    ensures Combine(p, q).Merged? ==> IsMergeOf(Combine(p, q).script, p, q)
    decreases |p| + |q|
  {
    hide Inserts, Kept, Source, IsMergeOf, Fit;
    NoSource<T>();
    if p == [] {
      EndFits(q);
    } else if q == [] {
      EndFits(p);
    } else {
      Uncons(p);
      Uncons(q);
      var kind := if p[0].kind == q[0].kind then p[0].kind else Delete;
      match (p[0].kind, q[0].kind) {
        case (Add, Common) =>
          AddFits(p, q);
          MergeIsExact(p[1..], q);
          if Combine(p[1..], q).Merged? {
            assert [] + q == q;
            MergeOfAdd(Combine(p[1..], q).script, p[1..], q, Bare(p[0].elem, Add), [p[0]], []);
          }
        case (Common, Add) =>
          AddFits(q, p);
          MergeIsExact(p, q[1..]);
          if Combine(p, q[1..]).Merged? {
            assert [] + p == p;
            MergeOfAdd(Combine(p, q[1..]).script, p, q[1..], Bare(q[0].elem, Add), [], [q[0]]);
          }
        case (Add, Add) =>
          if p[0].elem == q[0].elem {
            BothAddFits(p, q);
            MergeIsExact(p[1..], q[1..]);
            if Combine(p[1..], q[1..]).Merged? {
              MergeOfAdd(Combine(p[1..], q[1..]).script, p[1..], q[1..], Bare(p[0].elem, Add), [p[0]], [q[0]]);
            }
          } else {
            Clash(p, q);
          }
        case (Add, Delete) => Clash(p, q);
        case (Delete, Add) => Clash(p, q);
        case _ =>
          StepFits(p, q);
          MergeIsExact(p[1..], q[1..]);
          if Combine(p[1..], q[1..]).Merged? {
            MergeOfStep(Combine(p[1..], q[1..]).script, p[1..], q[1..], Bare(p[0].elem, kind), p[0], q[0]);
          }
      }
    }
  }

  lemma NoSource<T>()
    ensures Source<T>([]) == []
  {
  }

  /** Which side is which does not matter. */
  lemma {:induction false} CombineSymmetric<T>(p: seq<Entry<T>>, q: seq<Entry<T>>)
    requires Source(p) == Source(q)
    ensures Combine(p, q) == Combine(q, p)
    decreases |p| + |q|
  {
    hide Source;
    NoSource<T>();
    if p == [] || q == [] {
      AdditionsOnly(if p == [] then q else p);
    } else {
      Uncons(p);
      Uncons(q);
      match (p[0].kind, q[0].kind) {
        case (Add, Common) => AddFits(p, q); CombineSymmetric(p[1..], q);
        case (Common, Add) => AddFits(q, p); CombineSymmetric(p, q[1..]);
        case (Add, Add) =>
          if p[0].elem == q[0].elem {
            BothAddFits(p, q);
            CombineSymmetric(p[1..], q[1..]);
          }
        case (Add, Delete) =>
        case (Delete, Add) =>
        case _ =>
          StepFits(p, q);
          CombineSymmetric(p[1..], q[1..]);
      }
    }
  }

  /** The entries without their line numbers. */
  function Stripped<T>(s: seq<Entry<T>>): seq<Entry<T>> {
    if s == [] then [] else [Bare(s[0].elem, s[0].kind)] + Stripped(s[1..])
  }

  lemma {:induction false} StrippedEnds<T>(s: seq<Entry<T>>)
    ensures Source(Stripped(s)) == Source(s) && Target(Stripped(s)) == Target(s)
  {
    hide Source, Target;
    if s != [] {
      StrippedEnds(s[1..]);
      SourceOfCons(Bare(s[0].elem, s[0].kind), Stripped(s[1..]));
      SourceOfCons(s[0], s[1..]);
      assert s == [s[0]] + s[1..];
    } else {
      assert Stripped(s) == s;
    }
  }

  lemma {:induction false} AdditionsAreStripped<T>(s: seq<Entry<T>>)
    requires AllOf(s, Add)
    ensures Additions(s) == Stripped(s)
  {
    if s != [] {
      AdditionsAreStripped(s[1..]);
    }
  }

  /** Merged with a side that changed nothing, a script stays as it is. */
  lemma {:induction false} UnchangedSideYields<T>(p: seq<Entry<T>>, q: seq<Entry<T>>)
    requires Source(p) == Source(q) && AllCommon(q)
    ensures Combine(p, q) == Merged(Stripped(p))
    decreases |p| + |q|
  {
    hide Source;
    NoSource<T>();
    if p == [] || q == [] {
      AdditionsOnly(if p == [] then q else p);
      CommonsAreBoth(q);
      AdditionsAreStripped(p);
    } else {
      Uncons(p);
      Uncons(q);
      if p[0].kind == Add {
        AddFits(p, q);
        UnchangedSideYields(p[1..], q);
      } else {
        StepFits(p, q);
        UnchangedSideYields(p[1..], q[1..]);
      }
    }
  }

  /** Two sides that made the same changes merge to just these. */
  lemma {:induction false} SameChangesMerge<T>(p: seq<Entry<T>>)
    ensures Combine(p, p) == Merged(Stripped(p))
  {
    if p != [] {
      SameChangesMerge(p[1..]);
    }
  }
}
