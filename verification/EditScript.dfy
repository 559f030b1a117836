/** Edit scripts: what a list of delete / common / add entries means. */
module EditScript {

  datatype EditKind = Delete | Common | Add

  /** One entry of a script: the element, its 1-based line in the source and in the target
      sequence (0 where it has none), and what happens to it. */
  datatype Entry<T> = Entry(elem: T, beforeIdx: int, afterIdx: int, kind: EditKind)

  /** The elements of all entries but those of one kind. */
  function Without<T>(s: seq<Entry<T>>, dropped: EditKind): seq<T> {
    if s == [] then []
    else Without(s[..|s| - 1], dropped) + (if s[|s| - 1].kind == dropped then [] else [s[|s| - 1].elem])
  }

  /** The sequence a script starts from. */
  function Source<T>(s: seq<Entry<T>>): seq<T> {
    Without(s, Add)
  }

  /** The sequence a script ends in. */
  function Target<T>(s: seq<Entry<T>>): seq<T> {
    Without(s, Delete)
  }

  /** The elements of the entries of one kind. */
  function Only<T>(s: seq<Entry<T>>, kind: EditKind): seq<T> {
    if s == [] then []
    else Only(s[..|s| - 1], kind) + (if s[|s| - 1].kind == kind then [s[|s| - 1].elem] else [])
  }

  /** The elements a script keeps. */
  function Commons<T>(s: seq<Entry<T>>): seq<T> {
    Only(s, Common)
  }

  /** The number of entries that change something. */
  function Cost<T>(s: seq<Entry<T>>): nat {
    |Only(s, Delete)| + |Only(s, Add)|
  }

  predicate AllCommon<T>(s: seq<Entry<T>>) {
    forall i :: 0 <= i < |s| ==> s[i].kind == Common
  }

  predicate AllOf<T>(s: seq<Entry<T>>, kind: EditKind) {
    forall i :: 0 <= i < |s| ==> s[i].kind == kind
  }

  ghost predicate IndexedAt<T>(s: seq<Entry<T>>, i: nat)
    requires i < |s|
  {
    && s[i].beforeIdx == (if s[i].kind == Add then 0 else |Source(s[..i])| + 1)
    && s[i].afterIdx == (if s[i].kind == Delete then 0 else |Target(s[..i])| + 1)
  }

  /** Every entry carries the line numbers its place in the script says it has. */
  ghost predicate Indexed<T>(s: seq<Entry<T>>) {
    forall i :: 0 <= i < |s| ==> IndexedAt(s, i)
  }

  lemma PushOne<T>(s: seq<Entry<T>>, e: Entry<T>)
    ensures Source(s + [e]) == Source(s) + (if e.kind == Add then [] else [e.elem])
    ensures Target(s + [e]) == Target(s) + (if e.kind == Delete then [] else [e.elem])
    ensures Commons(s + [e]) == Commons(s) + (if e.kind == Common then [e.elem] else [])
    ensures Cost(s + [e]) == Cost(s) + (if e.kind == Common then 0 else 1)
  {
    assert (s + [e])[..|s|] == s;
  }

  lemma {:induction false} WithoutConcat<T>(s: seq<Entry<T>>, t: seq<Entry<T>>, dropped: EditKind)
    ensures Without(s + t, dropped) == Without(s, dropped) + Without(t, dropped)
  {
    if t == [] {
      assert s + t == s;
    } else {
      var n := |t| - 1;
      WithoutConcat(s, t[..n], dropped);
      assert (s + t)[..|s + t| - 1] == s + t[..n];
    }
  }

  lemma {:induction false} OnlyConcat<T>(s: seq<Entry<T>>, t: seq<Entry<T>>, kind: EditKind)
    ensures Only(s + t, kind) == Only(s, kind) + Only(t, kind)
  {
    if t == [] {
      assert s + t == s;
    } else {
      var n := |t| - 1;
      OnlyConcat(s, t[..n], kind);
      assert (s + t)[..|s + t| - 1] == s + t[..n];
    }
  }

  lemma Concat<T>(s: seq<Entry<T>>, t: seq<Entry<T>>)
    ensures Source(s + t) == Source(s) + Source(t)
    ensures Target(s + t) == Target(s) + Target(t)
    ensures Commons(s + t) == Commons(s) + Commons(t)
    ensures Cost(s + t) == Cost(s) + Cost(t)
  {
    WithoutConcat(s, t, Add);
    WithoutConcat(s, t, Delete);
    OnlyConcat(s, t, Common);
    OnlyConcat(s, t, Delete);
    OnlyConcat(s, t, Add);
  }

  lemma {:induction false} AddsHaveNoSource<T>(s: seq<Entry<T>>)
    requires AllOf(s, Add)
    ensures Source(s) == [] && |Target(s)| == Cost(s) == |s| && Commons(s) == []
  {
    if s != [] {
      AddsHaveNoSource(s[..|s| - 1]);
    }
  }

  lemma {:induction false} DeletesHaveNoTarget<T>(s: seq<Entry<T>>)
    requires AllOf(s, Delete)
    ensures Target(s) == [] && |Source(s)| == Cost(s) == |s| && Commons(s) == []
  {
    if s != [] {
      DeletesHaveNoTarget(s[..|s| - 1]);
    }
  }

  lemma {:induction false} CommonsAreBoth<T>(s: seq<Entry<T>>)
    requires AllCommon(s)
    ensures Source(s) == Target(s) && |Source(s)| == |s|
  {
    if s != [] {
      CommonsAreBoth(s[..|s| - 1]);
    }
  }

  /** Whatever a script keeps is in both its ends, and the rest of both ends is its cost. */
  lemma {:induction false} Accounting<T>(s: seq<Entry<T>>)
    ensures |Source(s)| + |Target(s)| == 2 * |Commons(s)| + Cost(s)
  {
    if s != [] {
      Accounting(s[..|s| - 1]);
    }
  }

  lemma {:induction false} ProjectionPrefix<T>(s: seq<Entry<T>>, i: nat)
    requires i <= |s|
    ensures Source(s[..i]) <= Source(s) && Target(s[..i]) <= Target(s)
  {
    assert s == s[..i] + s[i..];
    Concat(s[..i], s[i..]);
  }
}
