/** Forests whose lists of children are kept in a table: an entry names the list of its children by number. */
module ChildLists {

  /** A node with what is nested in it. */
  datatype Tree<D> = Tree(data: D, children: seq<Tree<D>>)

  /** A node as it is stored: its children are a list in a table, or none if child is negative. */
  datatype Event<D> = Event(data: D, child: int)

  type Table<D> = seq<seq<Event<D>>>

  /** The list of zones and the table together are the forest. */
  ghost predicate Represents<D>(table: Table<D>, vec: seq<Event<D>>, zs: seq<Tree<D>>)
    decreases zs
  {
    && |vec| == |zs|
    && forall i :: 0 <= i < |zs| ==>
         && vec[i].data == zs[i].data
         && if vec[i].child < 0 then zs[i].children == []
            else vec[i].child < |table| && Represents(table, table[vec[i].child], zs[i].children)
  }

  function EventOf<D>(z: Tree<D>, idx: int): Event<D> {
    Event(z.data, if z.children == [] then -1 else idx)
  }

  /** The forest laid out again: the list of its roots and, in pre-order and numbered from idx on, the
      lists of children that are not empty. */
  function Laid<D>(zs: seq<Tree<D>>, idx: int): (r: (seq<Event<D>>, Table<D>))
    ensures |r.0| == |zs|
    decreases zs
  {
    if zs == [] then ([], []) else
      var own := ListsOf(zs[0], idx);
      var rest := Laid(zs[1..], idx + |own|);
      ([EventOf(zs[0], idx)] + rest.0, own + rest.1)
  }

  /** The lists for the children of one zone, its own first. */
  function ListsOf<D>(z: Tree<D>, idx: int): Table<D>
    decreases z
  {
    if z.children == [] then [] else
      var inner := Laid(z.children, idx + 1);
      [inner.0] + inner.1
  }

  /** How many lists of children a forest has. */
  function Lists<D>(zs: seq<Tree<D>>): nat
    decreases zs
  {
    if zs == [] then 0 else (if zs[0].children == [] then 0 else 1 + Lists(zs[0].children)) + Lists(zs[1..])
  }

  lemma {:induction false} ListsCounted<D>(zs: seq<Tree<D>>, idx: int)
    ensures |Laid(zs, idx).1| == Lists(zs)
    decreases zs
  {
    if zs != [] {
      ListsCounted(zs[1..], idx + |ListsOf(zs[0], idx)|);
      if zs[0].children != [] {
        ListsCounted(zs[0].children, idx + 1);
      }
    }
  }

  /** A zone names the list after all lists within the zones before it, and the lists within it follow its own. */
  lemma {:induction false} LaidNumbers<D>(zs: seq<Tree<D>>, idx: int, k: int)
    requires 0 <= k < |zs|
    ensures var e := Laid(zs, idx).0[k];
            && e.data == zs[k].data
            && (zs[k].children == [] ==> e.child == -1)
            && (zs[k].children != [] ==>
                  && e.child == idx + Lists(zs[..k])
                  && Lists(zs[..k]) < |Laid(zs, idx).1| && Laid(zs, idx).1[Lists(zs[..k])] == Laid(zs[k].children, e.child + 1).0)
    decreases k
  {
    hide Laid, ListsOf, Lists;
    var own := ListsOf(zs[0], idx);
    LaidFrom(zs, 0, idx);
    assert zs[0..] == zs;
    OwnLists(zs[0], idx);
    if k > 0 {
      LaidNumbers(zs[1..], idx + |own|, k - 1);
      assert zs[..k][0] == zs[0] && zs[..k][1..] == zs[1..][..k - 1];
      ListsFirst(zs[..k]);
    } else {
      assert zs[..0] == [];
      ListsOfNothing<D>();
    }
  }

  lemma OwnLists<D>(z: Tree<D>, idx: int)
    ensures |ListsOf(z, idx)| == if z.children == [] then 0 else 1 + Lists(z.children)
    ensures z.children != [] ==> ListsOf(z, idx)[0] == Laid(z.children, idx + 1).0
  {
    hide Laid, Lists;
    if z.children != [] {
      ListsCounted(z.children, idx + 1);
    }
  }

  lemma ListsFirst<D>(zs: seq<Tree<D>>)
    requires zs != []
    ensures Lists(zs) == (if zs[0].children == [] then 0 else 1 + Lists(zs[0].children)) + Lists(zs[1..])
  {
  }

  lemma ListsOfNothing<D>()
    ensures Lists<D>([]) == 0
  {
  }

  /** The table holds the lists from idx on. */
  ghost predicate Holds<D>(table: Table<D>, idx: int, lists: Table<D>) {
    0 <= idx && idx + |lists| <= |table| && table[idx..idx + |lists|] == lists
  }

  /** Laying out loses nothing. */
  lemma {:induction false} LaidRepresents<D>(zs: seq<Tree<D>>, idx: int, table: Table<D>)
    requires Holds(table, idx, Laid(zs, idx).1)
    ensures Represents(table, Laid(zs, idx).0, zs)
    decreases zs
  {
    hide Represents, Holds;
    if zs == [] {
      RepresentsNothing(table);
    } else {
      var z := zs[0];
      var own := ListsOf(z, idx);
      var rest := Laid(zs[1..], idx + |own|);
      HoldsParts(table, idx, own, rest.1);
      if z.children != [] {
        var inner := Laid(z.children, idx + 1);
        HoldsParts(table, idx, [inner.0], inner.1);
        HoldsOne(table, idx, inner.0);
        LaidRepresents(z.children, idx + 1, table);
      }
      LaidRepresents(zs[1..], idx + |own|, table);
      RepresentsMore(table, EventOf(z, idx), z, rest.0, zs[1..]);
      assert [z] + zs[1..] == zs;
    }
  }

  lemma RepresentsNothing<D>(table: Table<D>)
    ensures Represents(table, [], [])
  {
  }

  lemma HoldsOne<D>(table: Table<D>, idx: int, list: seq<Event<D>>)
    requires Holds(table, idx, [list])
    ensures 0 <= idx < |table| && table[idx] == list
  {
    assert table[idx] == table[idx..idx + 1][0];
  }

  lemma RepresentsMore<D>(table: Table<D>, e: Event<D>, z: Tree<D>, vec: seq<Event<D>>, zs: seq<Tree<D>>)
    requires Represents(table, vec, zs) && e.data == z.data
    requires if e.child < 0 then z.children == [] else e.child < |table| && Represents(table, table[e.child], z.children)
    ensures Represents(table, [e] + vec, [z] + zs)
  {
    var v, s := [e] + vec, [z] + zs;
    forall i | 0 <= i < |s|
      ensures v[i].data == s[i].data
      ensures if v[i].child < 0 then s[i].children == []
              else v[i].child < |table| && Represents(table, table[v[i].child], s[i].children)
    {
      if i > 0 {
        assert v[i] == vec[i - 1] && s[i] == zs[i - 1];
      }
    }
  }

  lemma HoldsParts<D>(table: Table<D>, idx: int, p: Table<D>, q: Table<D>)
    requires Holds(table, idx, p + q)
    ensures Holds(table, idx, p) && Holds(table, idx + |p|, q)
  {
    var r := table[idx..idx + |p + q|];
    assert r[..|p|] == p && r[|p|..] == q;
    assert table[idx..idx + |p|] == r[..|p|];
    assert table[idx + |p|..idx + |p| + |q|] == r[|p|..];
  }

  /** A forest is determined by a table and a list. */
  lemma {:induction false} RepresentsOne<D>(table: Table<D>, vec: seq<Event<D>>, zs: seq<Tree<D>>, ys: seq<Tree<D>>)
    requires Represents(table, vec, zs) && Represents(table, vec, ys)
    ensures zs == ys
    decreases zs
  {
    forall i | 0 <= i < |zs|
      ensures zs[i] == ys[i]
    {
      if vec[i].child >= 0 {
        RepresentsOne(table, table[vec[i].child], zs[i].children, ys[i].children);
      }
    }
  }

  /** How many zones of a list name table entry c as their children. */
  ghost function Named<D>(vec: seq<Event<D>>, c: int): int {
    if vec == [] then 0 else (if vec[0].child == c then 1 else 0) + Named(vec[1..], c)
  }

  ghost function NamedInAll<D>(lists: Table<D>, c: int): int {
    if lists == [] then 0 else Named(lists[0], c) + NamedInAll(lists[1..], c)
  }

  lemma {:induction false} NamedAppend<D>(p: Table<D>, q: Table<D>, c: int)
    ensures NamedInAll(p + q, c) == NamedInAll(p, c) + NamedInAll(q, c)
    decreases |p|
  {
    if p == [] {
      assert p + q == q;
    } else {
      assert (p + q)[1..] == p[1..] + q && (p + q)[0] == p[0];
      NamedAppend(p[1..], q, c);
    }
  }

  /** Every list of children belongs to exactly one zone, and no number is left out or used besides. */
  lemma {:induction false} NamedOnce<D>(zs: seq<Tree<D>>, idx: int, c: int)
    requires 0 <= idx && 0 <= c
    ensures Named(Laid(zs, idx).0, c) + NamedInAll(Laid(zs, idx).1, c) == if idx <= c < idx + |Laid(zs, idx).1| then 1 else 0
    decreases zs
  {
    if zs != [] {
      hide ListsOf;
      var own := ListsOf(zs[0], idx);
      var rest := Laid(zs[1..], idx + |own|);
      NamedOnce(zs[1..], idx + |own|, c);
      NamedByOne(zs[0], idx, c);
      NamedAppend(own, rest.1, c);
      NamedFirst(EventOf(zs[0], idx), rest.0, c);
    }
  }

  lemma NamedFirst<D>(e: Event<D>, vec: seq<Event<D>>, c: int)
    ensures Named([e] + vec, c) == (if e.child == c then 1 else 0) + Named(vec, c)
  {
    assert ([e] + vec)[1..] == vec;
  }

  lemma {:induction false} NamedByOne<D>(z: Tree<D>, idx: int, c: int)
    requires 0 <= idx && 0 <= c
    ensures (if EventOf(z, idx).child == c then 1 else 0) + NamedInAll(ListsOf(z, idx), c)
            == if idx <= c < idx + |ListsOf(z, idx)| then 1 else 0
    decreases z
  {
    if z.children != [] {
      var inner := Laid(z.children, idx + 1);
      NamedOnce(z.children, idx + 1, c);
      assert ([inner.0] + inner.1)[1..] == inner.1;
    }
  }

  ghost predicate Room<D>(table: Table<D>, idx: int, lists: Table<D>) {
    0 <= idx && idx + |lists| <= |table|
  }

  /** The table with the lists put in from idx on. */
  ghost function Put<D>(table: Table<D>, idx: int, lists: Table<D>): (t: Table<D>)
    ensures Room(table, idx, lists) ==> |t| == |table|
  {
    if Room(table, idx, lists) then table[..idx] + lists + table[idx + |lists|..] else table
  }

  lemma NoLists<D>(z: Tree<D>, idx: int, table: Table<D>)
    requires |z.children| == 0
    ensures EventOf(z, idx).child == -1 && ListsOf(z, idx) == [] && Put(table, idx, ListsOf(z, idx)) == table
  {
  }

  /** Filling in the inner lists first and the list of children itself afterwards. */
  lemma SomeLists<D>(z: Tree<D>, idx: int, table: Table<D>)
    requires z.children != [] && Room(table, idx, ListsOf(z, idx))
    ensures EventOf(z, idx).child == idx
    ensures var inner := Laid(z.children, idx + 1);
            && Room(table, idx + 1, inner.1) && 0 <= idx < |table| && |Put(table, idx + 1, inner.1)| == |table|
            && Put(table, idx + 1, inner.1)[idx := inner.0] == Put(table, idx, ListsOf(z, idx))
            && |ListsOf(z, idx)| == 1 + |inner.1|
  {
    hide Laid;
    var inner := Laid(z.children, idx + 1);
    assert ListsOf(z, idx) == [inner.0] + inner.1;
  }

  /** vec and done are what laying out the first i zones gives. */
  ghost predicate LaidSoFar<D>(zs: seq<Tree<D>>, i: int, idx: int, vec: seq<Event<D>>, done: Table<D>) {
    && 0 <= i <= |zs|
    && Laid(zs, idx).0 == vec + Laid(zs[i..], idx + |done|).0
    && Laid(zs, idx).1 == done + Laid(zs[i..], idx + |done|).1
  }

  lemma LaidStart<D>(zs: seq<Tree<D>>, idx: int, table: Table<D>)
    requires Room(table, idx, Laid(zs, idx).1)
    ensures LaidSoFar(zs, 0, idx, [], []) && Put(table, idx, []) == table
  {
    hide Laid;
    assert zs[0..] == zs;
    var r := Laid(zs, idx);
    assert [] + r.0 == r.0 && [] + r.1 == r.1;
  }

  lemma LaidStep<D>(zs: seq<Tree<D>>, i: int, idx: int, vec: seq<Event<D>>, done: Table<D>, table: Table<D>)
    requires 0 <= i < |zs| && LaidSoFar(zs, i, idx, vec, done) && Room(table, idx, Laid(zs, idx).1)
    ensures var own := ListsOf(zs[i], idx + |done|);
            && LaidSoFar(zs, i + 1, idx, vec + [EventOf(zs[i], idx + |done|)], done + own)
            && Room(Put(table, idx, done), idx + |done|, own)
            && Put(Put(table, idx, done), idx + |done|, own) == Put(table, idx, done + own)
  {
    hide *;
    LaidMore(zs, i, idx, vec, done);
    RoomFor(zs, i + 1, idx, vec + [EventOf(zs[i], idx + |done|)], done + ListsOf(zs[i], idx + |done|), table);
    PutTwice(table, idx, done, ListsOf(zs[i], idx + |done|));
  }

  lemma LaidMore<D>(zs: seq<Tree<D>>, i: int, idx: int, vec: seq<Event<D>>, done: Table<D>)
    requires 0 <= i < |zs| && LaidSoFar(zs, i, idx, vec, done)
    ensures LaidSoFar(zs, i + 1, idx, vec + [EventOf(zs[i], idx + |done|)], done + ListsOf(zs[i], idx + |done|))
  {
    hide ListsOf, Laid, EventOf;
    var c := idx + |done|;
    LaidFrom(zs, i, c);
    var own := ListsOf(zs[i], c);
    var rest := Laid(zs[i + 1..], c + |own|);
    Regroup3(vec, [EventOf(zs[i], c)], rest.0);
    Regroup3(done, own, rest.1);
  }

  lemma RoomFor<D>(zs: seq<Tree<D>>, i: int, idx: int, vec: seq<Event<D>>, done: Table<D>, table: Table<D>)
    requires LaidSoFar(zs, i, idx, vec, done) && Room(table, idx, Laid(zs, idx).1)
    ensures Room(table, idx, done)
  {
    hide Laid;
  }

  lemma LaidFrom<D>(zs: seq<Tree<D>>, i: int, c: int)
    requires 0 <= i < |zs|
    ensures var own := ListsOf(zs[i], c); var rest := Laid(zs[i + 1..], c + |own|);
            Laid(zs[i..], c).0 == [EventOf(zs[i], c)] + rest.0 && Laid(zs[i..], c).1 == own + rest.1
  {
    hide ListsOf;
    assert zs[i..][0] == zs[i] && zs[i..][1..] == zs[i + 1..];
  }

  lemma PutTwice<D>(table: Table<D>, idx: int, p: Table<D>, q: Table<D>)
    requires Room(table, idx, p + q)
    ensures Room(Put(table, idx, p), idx + |p|, q)
    ensures Put(Put(table, idx, p), idx + |p|, q) == Put(table, idx, p + q)
  {
    var t := Put(table, idx, p);
    assert t[..idx + |p|] == table[..idx] + p;
    assert t[idx + |p| + |q|..] == table[idx + |p| + |q|..];
    assert table[..idx] + p + q + table[idx + |p| + |q|..] == table[..idx] + (p + q) + table[idx + |p + q|..];
  }

  lemma LaidAll<D>(zs: seq<Tree<D>>, idx: int, vec: seq<Event<D>>, done: Table<D>)
    requires LaidSoFar(zs, |zs|, idx, vec, done)
    ensures Laid(zs, idx) == (vec, done)
  {
    assert zs[|zs|..] == [];
    assert vec + [] == vec && done + [] == done;
  }

  lemma Regroup3<X>(p: seq<X>, q: seq<X>, r: seq<X>)
    ensures p + q + r == p + (q + r)
  {
  }

  lemma RepresentsLength<D>(table: Table<D>, vec: seq<Event<D>>, zs: seq<Tree<D>>)
    requires Represents(table, vec, zs)
    ensures |vec| == |zs|
  {
  }

  lemma StartRoom<D>(table: Table<D>, lists: Table<D>)
    requires |lists| <= |table|
    ensures Room(table, 0, lists)
  {
  }

  lemma PutHolds<D>(table: Table<D>, idx: int, lists: Table<D>)
    requires Room(table, idx, lists)
    ensures Holds(Put(table, idx, lists), idx, lists)
  {
    var t := Put(table, idx, lists);
    assert t[idx..idx + |lists|] == lists;
  }
}
