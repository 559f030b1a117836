/** The shortest-edit-script container, with its plain and its deletes-first order. */
module Ses {
  import opened EditScript

  /** No addition stands directly before a deletion: in every gap between commons the deletions
      come first. */
  predicate DeletesFirst<T>(s: seq<Entry<T>>) {
    forall i :: 0 < i < |s| && s[i].kind == Delete ==> s[i - 1].kind != Add
  }

  /** The entries from which on the script has only additions so far. */
  predicate GapFrom<T>(s: seq<Entry<T>>, n: nat) {
    && n <= |s|
    && AllOf(s[n..], Add)
    && (n > 0 ==> s[n - 1].kind != Add)
  }

  class Ses<T> {
    var sequence: seq<Entry<T>>
    var onlyAdd: bool
    var onlyDelete: bool
    var onlyCopy: bool
    const deletesFirst: bool
    var nextDeleteIdx: nat

    ghost predicate Valid()
      reads this
    {
      && (deletesFirst ==> nextDeleteIdx <= |sequence| && DeletesFirst(sequence) && GapFrom(sequence, nextDeleteIdx))
      && (onlyAdd <==> AllOf(sequence, Add))
      && (onlyDelete <==> AllOf(sequence, Delete))
      && (onlyCopy <==> AllOf(sequence, Common))
    }

    constructor (moveDel: bool)
      ensures Valid() && sequence == [] && deletesFirst == moveDel
    {
      sequence := [];
      onlyAdd, onlyDelete, onlyCopy := true, true, true;
      deletesFirst := moveDel;
      nextDeleteIdx := 0;
    }

    method AddSequence(elem: T, beforeIdx: int, afterIdx: int, kind: EditKind)
      requires Valid()
      modifies this
      ensures Valid()
      ensures sequence == Inserted(old(sequence), deletesFirst, old(nextDeleteIdx), Entry(elem, beforeIdx, afterIdx, kind))
    {
      hide AllOf, GapFrom, DeletesFirst;
      ghost var was := sequence;
      var pe := Entry(elem, beforeIdx, afterIdx, kind);
      if !deletesFirst {
        sequence := sequence + [pe];
      }
      match kind {
        case Delete =>
          onlyCopy := false;
          onlyAdd := false;
          if deletesFirst {
            sequence := sequence[..nextDeleteIdx] + [pe] + sequence[nextDeleteIdx..];
            nextDeleteIdx := nextDeleteIdx + 1;
          }
        case Common =>
          onlyAdd := false;
          onlyDelete := false;
          if deletesFirst {
            sequence := sequence + [pe];
            nextDeleteIdx := |sequence|;
          }
        case Add =>
          onlyDelete := false;
          onlyCopy := false;
          if deletesFirst {
            sequence := sequence + [pe];
          }
      }
      AllOfInserted(was, deletesFirst, old(nextDeleteIdx), pe);
      if deletesFirst {
        GapInserted(was, old(nextDeleteIdx), pe);
      }
    }
  }

  /** Where the container puts one more entry. */
  function Inserted<T>(s: seq<Entry<T>>, deletesFirst: bool, n: nat, e: Entry<T>): seq<Entry<T>>
    requires deletesFirst ==> n <= |s|
  {
    if deletesFirst && e.kind == Delete then s[..n] + [e] + s[n..] else s + [e]
  }

  lemma GapInserted<T>(s: seq<Entry<T>>, n: nat, e: Entry<T>)
    requires DeletesFirst(s) && GapFrom(s, n)
    ensures DeletesFirst(Inserted(s, true, n, e))
    ensures GapFrom(Inserted(s, true, n, e), if e.kind == Add then n else if e.kind == Delete then n + 1 else |s| + 1)
  {
    if e.kind == Delete {
      assert Inserted(s, true, n, e)[n + 1..] == s[n..];
    } else if e.kind == Add {
      assert Inserted(s, true, n, e)[n..] == s[n..] + [e];
    }
  }

  lemma AllOfInserted<T>(s: seq<Entry<T>>, deletesFirst: bool, n: nat, e: Entry<T>)
    requires deletesFirst ==> n <= |s|
    ensures forall kind :: AllOf(Inserted(s, deletesFirst, n, e), kind) <==> AllOf(s, kind) && e.kind == kind
  {
    var r := Inserted(s, deletesFirst, n, e);
    forall kind
      ensures AllOf(r, kind) <==> AllOf(s, kind) && e.kind == kind
    {
      if AllOf(r, kind) {
        if deletesFirst && e.kind == Delete {
          assert r[n] == e;
          assert forall i :: 0 <= i < |s| ==> s[i] == r[if i < n then i else i + 1];
        } else {
          assert r[|s|] == e;
          assert forall i :: 0 <= i < |s| ==> s[i] == r[i];
        }
      }
    }
  }

  /** In either order the new entry ends up last in every projection it belongs to. */
  lemma InsertedProjections<T>(s: seq<Entry<T>>, deletesFirst: bool, n: nat, e: Entry<T>)
    requires deletesFirst ==> GapFrom(s, n)
    ensures Source(Inserted(s, deletesFirst, n, e)) == Source(s) + (if e.kind == Add then [] else [e.elem])
    ensures Target(Inserted(s, deletesFirst, n, e)) == Target(s) + (if e.kind == Delete then [] else [e.elem])
    ensures Cost(Inserted(s, deletesFirst, n, e)) == Cost(s) + (if e.kind == Common then 0 else 1)
    ensures Commons(Inserted(s, deletesFirst, n, e)) == Commons(s) + (if e.kind == Common then [e.elem] else [])
  {
    if deletesFirst && e.kind == Delete {
      hide Without, Only;
      assert s == s[..n] + s[n..] && s[..n] + [e] + s[n..] == (s[..n] + [e]) + s[n..];
      Concat(s[..n], s[n..]);
      Concat(s[..n] + [e], s[n..]);
      AddsHaveNoSource(s[n..]);
      PushOne(s[..n], e);
    } else {
      PushOne(s, e);
    }
  }

  /** In either order every entry keeps the line numbers its place says it has. */
  lemma IndexedInserted<T>(s: seq<Entry<T>>, deletesFirst: bool, n: nat, e: Entry<T>)
    requires deletesFirst ==> GapFrom(s, n)
    requires Indexed(s)
    requires e.beforeIdx == (if e.kind == Add then 0 else |Source(s)| + 1)
    requires e.afterIdx == (if e.kind == Delete then 0 else |Target(s)| + 1)
    ensures Indexed(Inserted(s, deletesFirst, n, e))
  {
    hide Without, Only;
    var r := Inserted(s, deletesFirst, n, e);
    forall i | 0 <= i < |r|
      ensures IndexedAt(r, i)
    {
      if !(deletesFirst && e.kind == Delete) {
        assert i < |s| ==> r[..i] == s[..i] && IndexedAt(s, i);
        assert i == |s| ==> r[..i] == s;
      } else if i < n {
        assert r[..i] == s[..i] && IndexedAt(s, i);
      } else if i == n {
        assert r[..i] == s[..n] && s == s[..n] + s[n..];
        Concat(s[..n], s[n..]);
        AddsHaveNoSource(s[n..]);
      } else {
        assert r[i] == s[n..][i - n - 1];
        assert IndexedAt(s, i - 1);
        assert r[..i] == (s[..n] + [e]) + s[n..i - 1] && s[..i - 1] == s[..n] + s[n..i - 1];
        Concat(s[..n] + [e], s[n..i - 1]);
        Concat(s[..n], s[n..i - 1]);
        PushOne(s[..n], e);
      }
    }
  }

  /** The sequence and gap mark a container holds after the given additions. */
  ghost function Run<T>(log: seq<Entry<T>>, deletesFirst: bool): (r: (seq<Entry<T>>, nat))
    ensures deletesFirst ==> GapFrom(r.0, r.1) && DeletesFirst(r.0)
  {
    if log == [] then ([], 0)
    else
      var (s, n) := Run(log[..|log| - 1], deletesFirst);
      var e := log[|log| - 1];
      assert deletesFirst ==> GapFrom(Inserted(s, true, n, e),
                                      if e.kind == Add then n else if e.kind == Delete then n + 1 else |s| + 1)
                              && DeletesFirst(Inserted(s, true, n, e)) by {
        if deletesFirst {
          GapInserted(s, n, e);
        }
      }
      (Inserted(s, deletesFirst, n, e),
       if !deletesFirst then 0 else if e.kind == Add then n else if e.kind == Delete then n + 1 else |s| + 1)
  }

  /** The plain order is the order of the additions; the deletes-first order starts and ends in the
      same sequences, keeps the same elements at the same cost, and has its deletions first. */
  lemma {:induction false} BothOrdersAgree<T>(log: seq<Entry<T>>)
    ensures Run(log, false).0 == log
    ensures DeletesFirst(Run(log, true).0)
    ensures Source(Run(log, true).0) == Source(log) && Target(Run(log, true).0) == Target(log)
    ensures Commons(Run(log, true).0) == Commons(log) && Cost(Run(log, true).0) == Cost(log)
  {
    hide Without, Only;
    if log != [] {
      var l, e := log[..|log| - 1], log[|log| - 1];
      BothOrdersAgree(l);
      InsertedProjections(Run(l, true).0, true, Run(l, true).1, e);
      InsertedProjections(l, false, 0, e);
      assert log == l + [e];
    } else {
      assert log == Run(log, true).0;
    }
  }

  /** The entries of all kinds but one. */
  ghost function EntriesWithout<T>(s: seq<Entry<T>>, dropped: EditKind): seq<Entry<T>> {
    if s == [] then []
    else EntriesWithout(s[..|s| - 1], dropped) + (if s[|s| - 1].kind == dropped then [] else [s[|s| - 1]])
  }

  lemma {:induction false} NoAddBeforeTrailingDelete<T>(s: seq<Entry<T>>)
    requires DeletesFirst(s) && s != [] && s[|s| - 1].kind != Add
    ensures var t := EntriesWithout(s, Delete); t == [] || t[|t| - 1].kind == Common
  {
    if s[|s| - 1].kind == Delete && |s| > 1 {
      assert s[|s| - 2].kind != Add;
      NoAddBeforeTrailingDelete(s[..|s| - 1]);
    }
  }

  /** A deletes-first script is determined by its source entries and its target entries. */
  lemma {:induction false} DeletesFirstIsCanonical<T>(s: seq<Entry<T>>, t: seq<Entry<T>>)
    requires DeletesFirst(s) && DeletesFirst(t)
    requires EntriesWithout(s, Add) == EntriesWithout(t, Add)
    requires EntriesWithout(s, Delete) == EntriesWithout(t, Delete)
    ensures s == t
    decreases |s| + |t|
  {
    if s != [] && t != [] {
      var e, f := s[|s| - 1], t[|t| - 1];
      var s', t' := s[..|s| - 1], t[..|t| - 1];
      if e.kind != Add {
        NoAddBeforeTrailingDelete(s);
      }
      if f.kind != Add {
        NoAddBeforeTrailingDelete(t);
      }
      SamePush(EntriesWithout(s', Add), e, e.kind != Add, EntriesWithout(t', Add), f, f.kind != Add);
      SamePush(EntriesWithout(s', Delete), e, e.kind != Delete, EntriesWithout(t', Delete), f, f.kind != Delete);
      DeletesFirstIsCanonical(s', t');
      assert s == s' + [e] && t == t' + [f];
    }
  }

  lemma SamePush<X>(u: seq<X>, e: X, pushE: bool, v: seq<X>, f: X, pushF: bool)
    requires (u + if pushE then [e] else []) == (v + if pushF then [f] else [])
    requires pushE == pushF || e == f
    ensures pushE && pushF ==> e == f
    ensures pushE == pushF ==> u == v
  {
    if pushE && pushF {
      assert (u + [e])[|u|] == e && (v + [f])[|v|] == f;
      assert (u + [e])[..|u|] == u && (v + [f])[..|v|] == v;
    } else if !pushE && !pushF {
      assert u + [] == u && v + [] == v;
    }
  }
}
