/** Forests of ghost zones, one for each thread, kept in lists: one list of outermost zones for each
    thread and one list of children for each zone that has any. */
module GhostForest {

  /** A stretch of time during which a frame was seen on the stack in every sample. */
  datatype GhostZone = GhostZone(start: int, end: int, frame: int, child: int)

  /** parents says which zone (by list and position) a list of children belongs to, owners to which
      thread; they are there for the proof only. Lists of children are numbered from 0; the list of
      outermost zones of thread i has number -1 - i. */
  datatype Ghosts = Ghosts(roots: seq<seq<GhostZone>>, children: seq<seq<GhostZone>>, parents: seq<(int, int)>, owners: seq<int>)

  ghost predicate IsList(g: Ghosts, l: int) {
    -|g.roots| <= l < |g.children|
  }

  function At(g: Ghosts, l: int): seq<GhostZone> {
    if 0 <= l < |g.children| then g.children[l] else if -|g.roots| <= l < 0 then g.roots[-1 - l] else []
  }

  function Put(g: Ghosts, l: int, zs: seq<GhostZone>): Ghosts {
    if 0 <= l < |g.children| then g.(children := g.children[l := zs])
    else if -|g.roots| <= l < 0 then g.(roots := g.roots[-1 - l := zs]) else g
  }

  function Owner(g: Ghosts, l: int): int {
    if l < 0 then -1 - l else if l < |g.owners| then g.owners[l] else -1
  }

  lemma PutAt(g: Ghosts, l: int, zs: seq<GhostZone>, m: int)
    requires IsList(g, l)
    ensures At(Put(g, l, zs), m) == if m == l then zs else At(g, m)
    ensures |Put(g, l, zs).roots| == |g.roots| && |Put(g, l, zs).children| == |g.children|
    ensures IsList(Put(g, l, zs), m) <==> IsList(g, m)
    ensures Owner(Put(g, l, zs), m) == Owner(g, m) && Put(g, l, zs).parents == g.parents && Put(g, l, zs).owners == g.owners
  {
  }

  /** All zones of a list start and, unless it is loose, end within the bounds. */
  ghost predicate Inside(zs: seq<GhostZone>, from: int, to: int, loose: bool) {
    forall k :: 0 <= k < |zs| ==> from <= zs[k].start && (loose || zs[k].end <= to)
  }

  /** The children of a zone are a list of its own, not empty, whose zones lie within it. One list may be
      loose, that is, end too late, and one may be hollow, that is, still be empty. */
  ghost predicate ChildOk(g: Ghosts, l: int, k: int, z: GhostZone, loose: int, hollow: int) {
    z.child >= 0 ==>
      && z.child < |g.children| == |g.parents| && g.parents[z.child] == (l, k)
      && (z.child != hollow ==> g.children[z.child] != [])
      && Inside(g.children[z.child], z.start, z.end, z.child == loose)
  }

  /** The zones of a list are in order and do not overlap. */
  ghost predicate InOrder(zs: seq<GhostZone>) {
    && (forall k :: 0 <= k < |zs| ==> zs[k].start <= zs[k].end)
    && (forall k, m :: 0 <= k < m < |zs| ==> zs[k].end <= zs[m].start)
  }

  ghost predicate ListOk(g: Ghosts, l: int, loose: int, hollow: int) {
    && InOrder(At(g, l))
    && forall k :: 0 <= k < |At(g, l)| ==> ChildOk(g, l, k, At(g, l)[k], loose, hollow)
  }

  ghost predicate HasParent(g: Ghosts, c: int) {
    && 0 <= c < |g.parents| && c < |g.owners| && 0 <= g.owners[c] < |g.roots|
    && var l, k := g.parents[c].0, g.parents[c].1;
       && IsList(g, l) && l < c && 0 <= k < |At(g, l)| && At(g, l)[k].child == c && Owner(g, l) == g.owners[c]
  }

  ghost predicate Laminar(g: Ghosts, loose: int, hollow: int) {
    && |g.parents| == |g.children| == |g.owners|
    && (forall l :: IsList(g, l) ==> ListOk(g, l, loose, hollow))
    && (forall c :: 0 <= c < |g.children| ==> HasParent(g, c))
  }

  /** Every zone of a thread has started by t, and has ended by t or ends at e. */
  ghost predicate Timely(g: Ghosts, th: int, e: int, t: int) {
    forall l, k :: IsList(g, l) && Owner(g, l) == th && 0 <= k < |At(g, l)| ==>
      At(g, l)[k].start <= t && (At(g, l)[k].end <= t || At(g, l)[k].end == e)
  }

  /** Where the parent of a list ends. */
  ghost predicate ParentSpans(g: Ghosts, l: int, from: int, to: int) {
    l >= 0 ==> HasParent(g, l) && At(g, g.parents[l].0)[g.parents[l].1].start <= from && to <= At(g, g.parents[l].0)[g.parents[l].1].end
  }

  function Last(zs: seq<GhostZone>): GhostZone
    requires zs != []
  {
    zs[|zs| - 1]
  }

  /** No zone of a thread ends after its last outermost one. */
  lemma {:induction false} WithinRoot(g: Ghosts, l: int, k: int)
    requires Laminar(g, -1, -1) && IsList(g, l) && 0 <= k < |At(g, l)|
    ensures 0 <= Owner(g, l) < |g.roots| && At(g, -1 - Owner(g, l)) != []
    ensures At(g, l)[k].end <= Last(At(g, -1 - Owner(g, l))).end
    decreases if l < 0 then 0 else l + 1
  {
    assert ListOk(g, l, -1, -1);
    if l >= 0 {
      assert HasParent(g, l);
      var p, i := g.parents[l].0, g.parents[l].1;
      WithinRoot(g, p, i);
      assert ListOk(g, p, -1, -1) && ChildOk(g, p, i, At(g, p)[i], -1, -1);
    }
  }

  /** Zones of a list are also inside everything their parent is inside of. */
  lemma {:induction false} NestedAllTheWay(g: Ghosts, l: int, k: int, p: int, i: int)
    requires Laminar(g, -1, -1) && IsList(g, l) && 0 <= k < |At(g, l)|
    requires IsList(g, p) && 0 <= i < |At(g, p)| && IsAncestor(g, l, p, i)
    ensures At(g, p)[i].start <= At(g, l)[k].start && At(g, l)[k].end <= At(g, p)[i].end
    decreases if l < 0 then 0 else l + 1
  {
    assert HasParent(g, l);
    var q, m := g.parents[l].0, g.parents[l].1;
    assert ListOk(g, q, -1, -1) && ChildOk(g, q, m, At(g, q)[m], -1, -1);
    if (q, m) != (p, i) {
      NestedAllTheWay(g, q, m, p, i);
    }
  }

  /** Whether the zones of list l are nested, at any depth, in zone i of list p. */
  ghost predicate IsAncestor(g: Ghosts, l: int, p: int, i: int)
    decreases if l < 0 then 0 else l + 1
  {
    && 0 <= l < |g.parents| && -|g.roots| <= g.parents[l].0 < l
    && (g.parents[l] == (p, i) || IsAncestor(g, g.parents[l].0, p, i))
  }

  /** The last zone of a list with another end. */
  function EndSet(g: Ghosts, l: int, e: int): Ghosts
    requires At(g, l) != []
  {
    var zs := At(g, l);
    Put(g, l, zs[|zs| - 1 := Last(zs).(end := e)])
  }

  lemma EndSetAt(g: Ghosts, l: int, e: int, m: int)
    requires IsList(g, l) && At(g, l) != []
    ensures var v := EndSet(g, l, e); var zs := At(g, l);
            && At(v, m) == (if m == l then zs[|zs| - 1 := Last(zs).(end := e)] else At(g, m))
            && (IsList(v, m) <==> IsList(g, m)) && Owner(v, m) == Owner(g, m)
            && v.parents == g.parents && v.owners == g.owners && |v.children| == |g.children| && |v.roots| == |g.roots|
  {
    PutAt(g, l, At(g, l)[|At(g, l)| - 1 := Last(At(g, l)).(end := e)], m);
  }

  /** May the last zone of list l end at e, all but the list next being inside their parents afterwards? */
  ghost predicate MayEnd(g: Ghosts, l: int, e: int, loose: int, next: int) {
    && IsList(g, l) && At(g, l) != [] && Last(At(g, l)).start <= e
    && (l >= 0 ==> HasParent(g, l) && At(g, g.parents[l].0)[g.parents[l].1].end >= e)
    && (loose == l || loose < 0)
    && (next == Last(At(g, l)).child || (next < 0 && (Last(At(g, l)).child < 0 || Last(At(g, l)).end <= e)))
  }

  lemma InsideAfter(zs: seq<GhostZone>, e: int, from: int, to: int)
    requires InOrder(zs) && zs != [] && Inside(zs, from, to, true) && Last(zs).start <= e <= to
    ensures Inside(zs[|zs| - 1 := Last(zs).(end := e)], from, to, false)
  {
  }

  lemma EndSetChild(g: Ghosts, l: int, e: int, loose: int, hollow: int, next: int, m: int, k: int)
    requires Laminar(g, loose, hollow) && MayEnd(g, l, e, loose, next) && IsList(g, m) && 0 <= k < |At(g, m)|
    ensures var v := EndSet(g, l, e); k < |At(v, m)| && ChildOk(v, m, k, At(v, m)[k], next, hollow)
  {
    assert ListOk(g, m, loose, hollow) && ListOk(g, l, loose, hollow);
    var z := At(g, m)[k];
    assert ChildOk(g, m, k, z, loose, hollow);
    EndSetAt(g, l, e, m);
    if z.child >= 0 {
      EndSetAt(g, l, e, z.child);
      assert HasParent(g, z.child);
    }
    var v := EndSet(g, l, e);
    if z.child >= 0 {
      assert v.children[z.child] == At(v, z.child) && g.children[z.child] == At(g, z.child);
    }
    hide Laminar, EndSet, ListOk, InOrder, At, Owner, Inside;
    if z.child >= 0 && z.child == l {
      assert (m, k) == g.parents[l] && m < l;
      InsideLoose(At(g, l), z.start, z.end, z.child == loose);
      InsideAfter(At(g, l), e, z.start, z.end);
      InsideLoose(At(v, l), z.start, z.end, false);
    } else if z.child >= 0 {
      InsideLater(At(g, z.child), z.start, z.end, At(v, m)[k].end, z.child == loose, z.child == next);
    }
  }

  lemma InsideLoose(zs: seq<GhostZone>, from: int, to: int, loose: bool)
    requires Inside(zs, from, to, loose)
    ensures Inside(zs, from, to, true)
  {
  }

  lemma InsideLater(zs: seq<GhostZone>, from: int, to: int, later: int, loose: bool, looser: bool)
    requires Inside(zs, from, to, loose) && (looser || (!loose && to <= later))
    ensures Inside(zs, from, later, looser)
  {
  }

  lemma EndSetOrder(g: Ghosts, l: int, e: int, m: int)
    requires IsList(g, l) && At(g, l) != [] && Last(At(g, l)).start <= e && InOrder(At(g, m))
    ensures InOrder(At(EndSet(g, l, e), m))
  {
    EndSetAt(g, l, e, m);
  }

  lemma EndSetParent(g: Ghosts, l: int, e: int, c: int)
    requires IsList(g, l) && At(g, l) != [] && HasParent(g, c)
    ensures HasParent(EndSet(g, l, e), c)
  {
    EndSetAt(g, l, e, g.parents[c].0);
  }

  /** Changing the end of the last zone of a list concerns that list, its parent and its children. */
  lemma EndSetLaminar(g: Ghosts, l: int, e: int, loose: int, hollow: int, next: int)
    requires Laminar(g, loose, hollow) && MayEnd(g, l, e, loose, next)
    ensures Laminar(EndSet(g, l, e), next, hollow)
  {
    hide EndSet, ChildOk, InOrder, HasParent, At, Owner;
    var v := EndSet(g, l, e);
    EndSetAt(g, l, e, l);
    forall m | IsList(v, m)
      ensures ListOk(v, m, next, hollow)
    {
      EndSetAt(g, l, e, m);
      assert ListOk(g, m, loose, hollow);
      EndSetOrder(g, l, e, m);
      forall k | 0 <= k < |At(v, m)|
        ensures ChildOk(v, m, k, At(v, m)[k], next, hollow)
      {
        EndSetChild(g, l, e, loose, hollow, next, m, k);
      }
    }
    forall c | 0 <= c < |v.children|
      ensures HasParent(v, c)
    {
      EndSetParent(g, l, e, c);
    }
  }

  /** A list ending within its parent after all is no longer loose. */
  lemma NoLongerLoose(g: Ghosts, l: int, hollow: int, to: int)
    requires Laminar(g, l, hollow) && IsList(g, l) && l >= 0 && (At(g, l) != [] ==> Last(At(g, l)).end <= to)
    requires HasParent(g, l) && to <= At(g, g.parents[l].0)[g.parents[l].1].end
    ensures Laminar(g, -1, hollow)
  {
    assert ListOk(g, l, l, hollow);
    forall m | IsList(g, m)
      ensures ListOk(g, m, -1, hollow)
    {
      assert ListOk(g, m, l, hollow);
      forall k | 0 <= k < |At(g, m)|
        ensures ChildOk(g, m, k, At(g, m)[k], -1, hollow)
      {
        var z := At(g, m)[k];
        assert ChildOk(g, m, k, z, l, hollow);
        if z.child == l {
          EndsInOrder(At(g, l));
        }
      }
    }
  }

  lemma EndsInOrder(zs: seq<GhostZone>)
    requires InOrder(zs)
    ensures forall k :: 0 <= k < |zs| ==> zs[k].end <= Last(zs).end
  {
  }

  /** The last zone of a list gets a list of children, still empty. */
  function ChildMade(g: Ghosts, l: int): Ghosts
    requires At(g, l) != []
  {
    var zs, n := At(g, l), |g.children|;
    var v := Put(g, l, zs[|zs| - 1 := Last(zs).(child := n)]);
    Ghosts(v.roots, v.children + [[]], v.parents + [(l, |zs| - 1)], v.owners + [Owner(g, l)])
  }

  lemma ChildMadeAt(g: Ghosts, l: int, m: int)
    requires IsList(g, l) && At(g, l) != [] && |g.parents| == |g.children| == |g.owners|
    ensures var v := ChildMade(g, l); var zs, n := At(g, l), |g.children|;
            && At(v, m) == (if m == l then zs[|zs| - 1 := Last(zs).(child := n)] else if m == n then [] else At(g, m))
            && (IsList(v, m) <==> IsList(g, m) || m == n)
            && Owner(v, m) == (if m == n then Owner(g, l) else Owner(g, m))
            && v.parents == g.parents + [(l, |zs| - 1)] && v.owners == g.owners + [Owner(g, l)]
            && |v.children| == n + 1 && |v.roots| == |g.roots|
  {
    PutAt(g, l, At(g, l)[|At(g, l)| - 1 := Last(At(g, l)).(child := |g.children|)], m);
  }

  lemma ChildMadeLaminar(g: Ghosts, l: int)
    requires Laminar(g, -1, -1) && IsList(g, l) && At(g, l) != [] && Last(At(g, l)).child < 0 && 0 <= Owner(g, l) < |g.roots|
    ensures Laminar(ChildMade(g, l), -1, |g.children|)
  {
    hide InOrder, ChildMade, Put, At, Owner;
    var v, n := ChildMade(g, l), |g.children|;
    ChildMadeAt(g, l, l);
    forall m | IsList(v, m)
      ensures ListOk(v, m, -1, n)
    {
      ChildMadeAt(g, l, m);
      if m == n {
        assert InOrder([]) by { NothingInOrder(); }
      } else {
        assert ListOk(g, m, -1, -1);
        SameOrder(At(g, m), At(v, m));
        forall k | 0 <= k < |At(v, m)|
          ensures ChildOk(v, m, k, At(v, m)[k], -1, n)
        {
          ChildMadeChild(g, l, m, k);
        }
      }
    }
    forall c | 0 <= c < |v.children|
      ensures HasParent(v, c)
    {
      if c < n {
        assert HasParent(g, c);
        ChildMadeAt(g, l, g.parents[c].0);
        KeepsParent(g, l, c);
      } else {
        ChildMadeAt(g, l, n);
        NewParent(g, l);
      }
    }
  }

  lemma NothingInOrder()
    ensures InOrder([])
  {
  }

  lemma SameOrder(zs: seq<GhostZone>, ws: seq<GhostZone>)
    requires InOrder(zs) && |zs| == |ws| && forall k :: 0 <= k < |zs| ==> ws[k].start == zs[k].start && ws[k].end == zs[k].end
    ensures InOrder(ws)
  {
  }

  lemma ChildMadeChild(g: Ghosts, l: int, m: int, k: int)
    requires Laminar(g, -1, -1) && IsList(g, l) && At(g, l) != [] && Last(At(g, l)).child < 0
    requires IsList(g, m) && 0 <= k < |At(g, m)|
    ensures var v := ChildMade(g, l); k < |At(v, m)| && ChildOk(v, m, k, At(v, m)[k], -1, |g.children|)
  {
    assert ListOk(g, m, -1, -1);
    var z, n := At(g, m)[k], |g.children|;
    assert ChildOk(g, m, k, z, -1, -1);
    ChildMadeAt(g, l, m);
    ChildMadeAt(g, l, n);
    if z.child >= 0 {
      ChildMadeAt(g, l, z.child);
    }
    hide Laminar, ListOk, ChildMade;
    var v := ChildMade(g, l);
    assert v.children[n] == At(v, n) == [];
    if z.child >= 0 {
      assert v.children[z.child] == At(v, z.child) && g.children[z.child] == At(g, z.child);
      assert v.parents[z.child] == g.parents[z.child];
      assert Inside(v.children[z.child], z.start, z.end, false);
    }
  }

  lemma KeepsParent(g: Ghosts, l: int, c: int)
    requires IsList(g, l) && At(g, l) != [] && Last(At(g, l)).child < 0 && |g.parents| == |g.children| == |g.owners| && HasParent(g, c)
    ensures HasParent(ChildMade(g, l), c)
  {
    ChildMadeAt(g, l, g.parents[c].0);
  }

  lemma NewParent(g: Ghosts, l: int)
    requires IsList(g, l) && At(g, l) != [] && |g.parents| == |g.children| == |g.owners| && 0 <= Owner(g, l) < |g.roots|
    ensures HasParent(ChildMade(g, l), |g.children|)
  {
    ChildMadeAt(g, l, l);
  }

  /** One more zone, without children, at the end of a list. */
  function Pushed(g: Ghosts, l: int, z: GhostZone): Ghosts {
    Put(g, l, At(g, l) + [z])
  }

  lemma PushedAt(g: Ghosts, l: int, z: GhostZone, m: int)
    requires IsList(g, l)
    ensures var v := Pushed(g, l, z);
            && At(v, m) == (if m == l then At(g, l) + [z] else At(g, m))
            && (IsList(v, m) <==> IsList(g, m)) && Owner(v, m) == Owner(g, m)
            && v.parents == g.parents && v.owners == g.owners && |v.children| == |g.children| && |v.roots| == |g.roots|
  {
    PutAt(g, l, At(g, l) + [z], m);
  }

  ghost predicate MayPush(g: Ghosts, l: int, z: GhostZone) {
    && IsList(g, l) && z.start <= z.end && z.child < 0 && (At(g, l) != [] ==> Last(At(g, l)).end <= z.start)
    && ParentSpans(g, l, z.start, z.end)
  }

  lemma PushedLaminar(g: Ghosts, l: int, z: GhostZone, hollow: int)
    requires Laminar(g, -1, hollow) && MayPush(g, l, z) && (hollow == l || hollow < 0)
    ensures Laminar(Pushed(g, l, z), -1, -1)
  {
    hide InOrder, Pushed, ChildOk, At, Owner, HasParent;
    var v := Pushed(g, l, z);
    PushedAt(g, l, z, l);
    forall m | IsList(v, m)
      ensures ListOk(v, m, -1, -1)
    {
      PushedAt(g, l, z, m);
      assert ListOk(g, m, -1, hollow);
      if m == l {
        OrderPushed(At(g, l), z);
      }
      forall k | 0 <= k < |At(v, m)|
        ensures ChildOk(v, m, k, At(v, m)[k], -1, -1)
      {
        PushedChild(g, l, z, hollow, m, k);
      }
    }
    forall c | 0 <= c < |v.children|
      ensures HasParent(v, c)
    {
      PushedAt(g, l, z, c);
      assert HasParent(g, c);
      PushedParent(g, l, z, c);
    }
  }

  lemma OrderPushed(zs: seq<GhostZone>, z: GhostZone)
    requires InOrder(zs) && z.start <= z.end && (zs != [] ==> Last(zs).end <= z.start)
    ensures InOrder(zs + [z])
  {
    EndsInOrder(zs);
  }

  lemma PushedParent(g: Ghosts, l: int, z: GhostZone, c: int)
    requires IsList(g, l) && HasParent(g, c)
    ensures HasParent(Pushed(g, l, z), c)
  {
    PushedAt(g, l, z, g.parents[c].0);
  }

  lemma PushedChild(g: Ghosts, l: int, z: GhostZone, hollow: int, m: int, k: int)
    requires Laminar(g, -1, hollow) && MayPush(g, l, z) && (hollow == l || hollow < 0)
    requires IsList(g, m) && 0 <= k < |At(Pushed(g, l, z), m)|
    ensures var v := Pushed(g, l, z); ChildOk(v, m, k, At(v, m)[k], -1, -1)
  {
    PushedAt(g, l, z, m);
    assert ListOk(g, m, -1, hollow);
    var v := Pushed(g, l, z);
    var y := At(v, m)[k];
    if k < |At(g, m)| {
      assert y == At(g, m)[k] && ChildOk(g, m, k, y, -1, hollow);
      if y.child >= 0 {
        PushedAt(g, l, z, y.child);
        assert v.children[y.child] == At(v, y.child) && g.children[y.child] == At(g, y.child);
      }
    }
  }

  /** What the three changes do to the times of the zones of a thread. */
  lemma EndSetTimely(g: Ghosts, l: int, end: int, th: int, e: int, t: int)
    requires Timely(g, th, e, t) && IsList(g, l) && At(g, l) != [] && (Owner(g, l) == th ==> end <= t || end == e)
    ensures Timely(EndSet(g, l, end), th, e, t)
  {
    var v := EndSet(g, l, end);
    forall m, k | IsList(v, m) && Owner(v, m) == th && 0 <= k < |At(v, m)|
      ensures At(v, m)[k].start <= t && (At(v, m)[k].end <= t || At(v, m)[k].end == e)
    {
      EndSetAt(g, l, end, m);
      assert At(g, m)[k].start <= t;
    }
  }

  lemma ChildMadeTimely(g: Ghosts, l: int, th: int, e: int, t: int)
    requires Timely(g, th, e, t) && IsList(g, l) && At(g, l) != [] && |g.parents| == |g.children| == |g.owners|
    ensures Timely(ChildMade(g, l), th, e, t)
  {
    var v := ChildMade(g, l);
    forall m, k | IsList(v, m) && Owner(v, m) == th && 0 <= k < |At(v, m)|
      ensures At(v, m)[k].start <= t && (At(v, m)[k].end <= t || At(v, m)[k].end == e)
    {
      ChildMadeAt(g, l, m);
      assert At(g, m)[k].start <= t;
    }
  }

  lemma PushedTimely(g: Ghosts, l: int, z: GhostZone, th: int, e: int, t: int)
    requires Timely(g, th, e, t) && IsList(g, l) && (Owner(g, l) == th ==> z.start <= t && (z.end <= t || z.end == e))
    ensures Timely(Pushed(g, l, z), th, e, t)
  {
    var v := Pushed(g, l, z);
    forall m, k | IsList(v, m) && Owner(v, m) == th && 0 <= k < |At(v, m)|
      ensures At(v, m)[k].start <= t && (At(v, m)[k].end <= t || At(v, m)[k].end == e)
    {
      PushedAt(g, l, z, m);
      if k < |At(g, m)| {
        assert At(g, m)[k].start <= t;
      }
    }
  }

  ghost function RootEnd(zs: seq<GhostZone>): int {
    if zs == [] then 0 else Last(zs).end
  }

  /** The zones of all threads but one are as they were, and timely. */
  ghost predicate OthersOk(g: Ghosts, th: int, roots: seq<seq<GhostZone>>, last: seq<int>) {
    && |g.roots| == |roots| == |last|
    && forall i :: 0 <= i < |roots| && i != th ==> g.roots[i] == roots[i] && Timely(g, i, RootEnd(roots[i]), last[i])
  }

  /** Every zone names one of the first n frames. */
  ghost predicate ZonesFit(g: Ghosts, n: int) {
    forall l, k :: IsList(g, l) && 0 <= k < |At(g, l)| ==> 0 <= At(g, l)[k].frame < n
  }

  /** Nothing of a thread from list l on ends after t. */
  ghost predicate Untouched(g: Ghosts, th: int, l: int, t: int) {
    forall m :: l <= m && IsList(g, m) && Owner(g, m) == th && At(g, m) != [] ==> Last(At(g, m)).end <= t
  }

  /** A forest is in order for all threads, thread th being dealt with. */
  ghost predicate Steady(g: Ghosts, loose: int, hollow: int, th: int, e: int, t: int, n: int, roots: seq<seq<GhostZone>>, last: seq<int>) {
    && Laminar(g, loose, hollow) && Timely(g, th, e, t) && ZonesFit(g, n) && OthersOk(g, th, roots, last)
  }

  lemma RootOf(g: Ghosts, i: int)
    requires 0 <= i < |g.roots|
    ensures IsList(g, -1 - i) && At(g, -1 - i) == g.roots[i] && Owner(g, -1 - i) == i
  {
  }

  lemma EndSetSteady(g: Ghosts, l: int, end: int, loose: int, hollow: int, next: int, th: int, e: int, t: int, n: int,
      roots: seq<seq<GhostZone>>, last: seq<int>)
    requires Steady(g, loose, hollow, th, e, t, n, roots, last) && MayEnd(g, l, end, loose, next) && Owner(g, l) == th
    requires end <= t || end == e
    ensures Steady(EndSet(g, l, end), next, hollow, th, e, t, n, roots, last)
    ensures Untouched(g, th, l, t) ==> Untouched(EndSet(g, l, end), th, l + 1, t)
  {
    hide Laminar, Timely, At, Owner, EndSet, MayEnd;
    MayEndParts(g, l, end, loose, next);
    var v := EndSet(g, l, end);
    EndSetLaminar(g, l, end, loose, hollow, next);
    EndSetTimely(g, l, end, th, e, t);
    EndSetAt(g, l, end, l);
    forall i | 0 <= i < |roots| && i != th
      ensures v.roots[i] == roots[i] && Timely(v, i, RootEnd(roots[i]), last[i])
    {
      EndSetTimely(g, l, end, i, RootEnd(roots[i]), last[i]);
      RootOf(g, i);
      RootOf(v, i);
      EndSetAt(g, l, end, -1 - i);
    }
    forall m
      ensures (IsList(v, m) <==> IsList(g, m)) && Owner(v, m) == Owner(g, m) && |At(v, m)| == |At(g, m)|
      ensures forall k :: 0 <= k < |At(v, m)| ==> At(v, m)[k].frame == At(g, m)[k].frame
      ensures m != l ==> At(v, m) == At(g, m)
    {
      EndSetAt(g, l, end, m);
    }
  }

  lemma MayEndParts(g: Ghosts, l: int, e: int, loose: int, next: int)
    requires MayEnd(g, l, e, loose, next)
    ensures IsList(g, l) && At(g, l) != []
  {
  }

  lemma ChildMadeSteady(g: Ghosts, l: int, th: int, e: int, t: int, n: int, roots: seq<seq<GhostZone>>, last: seq<int>)
    requires Steady(g, -1, -1, th, e, t, n, roots, last) && IsList(g, l) && At(g, l) != [] && Last(At(g, l)).child < 0
    requires Owner(g, l) == th && 0 <= th < |roots|
    ensures Steady(ChildMade(g, l), -1, |g.children|, th, e, t, n, roots, last)
    ensures Untouched(ChildMade(g, l), th, |g.children|, t)
  {
    hide Timely, At, Owner, ChildMade;
    var v := ChildMade(g, l);
    assert |g.parents| == |g.children| == |g.owners|;
    ChildMadeLaminar(g, l);
    hide Laminar;
    ChildMadeTimely(g, l, th, e, t);
    ChildMadeAt(g, l, l);
    forall i | 0 <= i < |roots| && i != th
      ensures v.roots[i] == roots[i] && Timely(v, i, RootEnd(roots[i]), last[i])
    {
      ChildMadeTimely(g, l, i, RootEnd(roots[i]), last[i]);
      RootOf(g, i);
      RootOf(v, i);
      ChildMadeAt(g, l, -1 - i);
    }
    forall m
      ensures IsList(v, m) <==> IsList(g, m) || m == |g.children|
      ensures |At(v, m)| == (if m == |g.children| then 0 else |At(g, m)|)
      ensures forall k :: 0 <= k < |At(v, m)| ==> At(v, m)[k].frame == At(g, m)[k].frame
    {
      ChildMadeAt(g, l, m);
    }
  }

  lemma PushedSteady(g: Ghosts, l: int, z: GhostZone, hollow: int, th: int, e: int, t: int, n: int, roots: seq<seq<GhostZone>>, last: seq<int>)
    requires Steady(g, -1, hollow, th, e, t, n, roots, last) && MayPush(g, l, z) && (hollow == l || hollow < 0)
    requires Owner(g, l) == th && z.start <= t && (z.end <= t || z.end == e) && 0 <= z.frame < n
    ensures Steady(Pushed(g, l, z), -1, -1, th, e, t, n, roots, last)
  {
    hide Laminar, Timely, At, Owner, Pushed, MayPush;
    var v := Pushed(g, l, z);
    PushedLaminar(g, l, z, hollow);
    assert IsList(g, l) by { MayPushParts(g, l, z); }
    PushedTimely(g, l, z, th, e, t);
    PushedAt(g, l, z, l);
    forall i | 0 <= i < |roots| && i != th
      ensures v.roots[i] == roots[i] && Timely(v, i, RootEnd(roots[i]), last[i])
    {
      PushedTimely(g, l, z, i, RootEnd(roots[i]), last[i]);
      RootOf(g, i);
      RootOf(v, i);
      PushedAt(g, l, z, -1 - i);
    }
    forall m
      ensures (IsList(v, m) <==> IsList(g, m)) && At(v, m) == if m == l then At(g, l) + [z] else At(g, m)
    {
      PushedAt(g, l, z, m);
    }
  }

  lemma MayPushParts(g: Ghosts, l: int, z: GhostZone)
    requires MayPush(g, l, z)
    ensures IsList(g, l)
  {
  }

  /** Once the last outermost zone ends by t, everything of the thread does. */
  lemma AllEnded(g: Ghosts, th: int, e: int, t: int, end: int)
    requires Laminar(g, -1, -1) && Timely(g, th, e, t) && 0 <= th < |g.roots| && RootEnd(g.roots[th]) <= t
    ensures Timely(g, th, end, t) && Untouched(g, th, -1 - th, t)
  {
    RootOf(g, th);
    forall l, k | IsList(g, l) && Owner(g, l) == th && 0 <= k < |At(g, l)|
      ensures At(g, l)[k].start <= t && At(g, l)[k].end <= t
    {
      WithinRoot(g, l, k);
    }
  }

  lemma TimelyLater(g: Ghosts, th: int, e: int, t: int, u: int)
    requires Timely(g, th, e, t) && t <= u
    ensures Timely(g, th, e, u)
  {
    forall l, k | IsList(g, l) && Owner(g, l) == th && 0 <= k < |At(g, l)|
      ensures At(g, l)[k].start <= u && (At(g, l)[k].end <= u || At(g, l)[k].end == e)
    {
      assert At(g, l)[k].start <= t;
    }
  }

  /** Where cutting the last zones of a thread short has got to: list l still ends at e, its parent, and
      with it the last outermost zone, at t already. */
  ghost predicate TrimPoint(g: Ghosts, l: int, th: int, e: int, t: int, n: int, roots: seq<seq<GhostZone>>, last: seq<int>) {
    && Steady(g, if l < 0 then -1 else l, -1, th, e, t, n, roots, last) && e > t && 0 <= th < |g.roots|
    && IsList(g, l) && At(g, l) != [] && Owner(g, l) == th && g.roots[th] != []
    && if l < 0 then l == -1 - th && RootEnd(g.roots[th]) == e
       else RootEnd(g.roots[th]) == t && HasParent(g, l) && At(g, g.parents[l].0)[g.parents[l].1].end == t
  }

  /** The last zone of the list ends together with the outermost one and is cut short as well. */
  lemma TrimStep(g: Ghosts, l: int, th: int, e: int, t: int, n: int, roots: seq<seq<GhostZone>>, last: seq<int>)
    requires TrimPoint(g, l, th, e, t, n, roots, last) && Last(At(g, l)).end == e
    ensures var v, c := EndSet(g, l, t), Last(At(g, l)).child;
            && (if c < 0 then Steady(v, -1, -1, th, e, t, n, roots, last) && 0 <= th < |v.roots| && RootEnd(v.roots[th]) == t
                else l < c < |g.children| && TrimPoint(v, c, th, e, t, n, roots, last))
            && |v.children| == |g.children|
  {
    var v, zs := EndSet(g, l, t), At(g, l);
    var c := Last(zs).child;
    var loose := if l < 0 then -1 else l;
    assert ListOk(g, l, loose, -1) && ChildOk(g, l, |zs| - 1, Last(zs), loose, -1);
    EndSetSteady(g, l, t, loose, -1, if c < 0 then -1 else c, th, e, t, n, roots, last);
    EndSetAt(g, l, t, l);
    RootOf(g, th);
    RootOf(v, th);
    EndSetAt(g, l, t, -1 - th);
    if c >= 0 {
      assert HasParent(g, c) && g.parents[c] == (l, |zs| - 1);
      EndSetAt(g, l, t, c);
      EndSetParent(g, l, t, c);
    }
  }

  /** The last zone of the list has ended already. */
  lemma TrimStop(g: Ghosts, l: int, th: int, e: int, t: int, n: int, roots: seq<seq<GhostZone>>, last: seq<int>)
    requires TrimPoint(g, l, th, e, t, n, roots, last) && Last(At(g, l)).end != e
    ensures Steady(g, -1, -1, th, e, t, n, roots, last) && RootEnd(g.roots[th]) == t
  {
    RootOf(g, th);
    assert At(g, l)[|At(g, l)| - 1].end <= t;
    NoLongerLoose(g, l, -1, t);
  }

  /** After cutting short, nothing of the thread ends after t. */
  lemma Trimmed(g: Ghosts, th: int, e: int, t: int, end: int, n: int, roots: seq<seq<GhostZone>>, last: seq<int>)
    requires Steady(g, -1, -1, th, e, t, n, roots, last) && 0 <= th < |g.roots| && RootEnd(g.roots[th]) <= t
    ensures Steady(g, -1, -1, th, end, t, n, roots, last) && Untouched(g, th, -1 - th, t)
  {
    hide Laminar, ZonesFit, OthersOk, Timely, Untouched, RootEnd;
    AllEnded(g, th, e, t, end);
  }
}
