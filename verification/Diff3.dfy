/** Three-way merge: two comparisons with the common ancestor, read side by side. */
module Diff3 {
  import opened EditScript
  import opened CommonSubsequence
  import opened Merge
  import opened Diff

  /** What has been read and written accounts for the merge of the whole scripts. */
  ghost predicate Reading<T>(ba: seq<Entry<T>>, bc: seq<Entry<T>>, i: nat, j: nat, out: seq<Entry<T>>, written: seq<T>)
    requires i <= |ba| && j <= |bc|
  {
    && Source(ba[i..]) == Source(bc[j..])
    && Combine(ba, bc) == Combine(ba[i..], bc[j..]).Then(out)
    && written == Target(out)
  }

  /** How far two heads are read, and what they write: nothing when they clash. */
  function Read<T(==)>(e: Entry<T>, f: Entry<T>): (int, int, Entry<T>) {
    match (e.kind, f.kind)
    case (Add, Common) => (1, 0, Bare(e.elem, Add))
    case (Common, Add) => (0, 1, Bare(f.elem, Add))
    case (Add, Delete) => (0, 0, e)
    case (Delete, Add) => (0, 0, e)
    case (Add, Add) => if e.elem == f.elem then (1, 1, Bare(e.elem, Add)) else (0, 0, e)
    case (Common, Common) => (1, 1, Bare(e.elem, Common))
    case _ => (1, 1, Bare(e.elem, Delete))
  }

  lemma CombineStep<T>(p: seq<Entry<T>>, q: seq<Entry<T>>)
    requires p != [] && q != [] && Source(p) == Source(q)
    ensures p[0].kind != Add && q[0].kind != Add ==> p[0].elem == q[0].elem
    ensures var (di, dj, d) := Read(p[0], q[0]);
            if di == dj == 0 then Combine(p, q) == Conflict
            else Combine(p, q) == Combine(p[di..], q[dj..]).Then([d]) && Source(p[di..]) == Source(q[dj..])
  {
    hide Source, Fit;
    assert p[0..] == p && q[0..] == q;
    match (p[0].kind, q[0].kind) {
      case (Add, Common) => AddFits(p, q);
      case (Common, Add) => AddFits(q, p);
      case (Add, Delete) =>
      case (Delete, Add) =>
      case (Add, Add) =>
        if p[0].elem == q[0].elem {
          BothAddFits(p, q);
        }
      case _ => StepFits(p, q);
    }
  }

  /** One reading step: the heads that are consumed and what they write. */
  lemma ReadStep<T>(ba: seq<Entry<T>>, bc: seq<Entry<T>>, i: nat, j: nat, out: seq<Entry<T>>, written: seq<T>)
    requires i < |ba| && j < |bc| && Reading(ba, bc, i, j, out, written)
    ensures ba[i].kind != Add && bc[j].kind != Add ==> ba[i].elem == bc[j].elem
    ensures var (di, dj, d) := Read(ba[i], bc[j]);
            if di == dj == 0 then Combine(ba, bc) == Conflict
            else Reading(ba, bc, i + di, j + dj, out + [d], written + if d.kind == Delete then [] else [d.elem])
  {
    hide Source, Target, Combine;
    var p, q := ba[i..], bc[j..];
    CombineStep(p, q);
    var (di, dj, d) := Read(ba[i], bc[j]);
    assert p[di..] == ba[i + di..] && q[dj..] == bc[j + dj..];
    PushOne(out, d);
    ThenPush(Combine(p[di..], q[dj..]), d, out);
  }

  lemma ThenPush<T>(rest: Outcome<T>, d: Entry<T>, out: seq<Entry<T>>)
    ensures rest.Then([d]).Then(out) == rest.Then(out + [d])
  {
    if rest.Merged? {
      assert out + ([d] + rest.script) == out + [d] + rest.script;
    }
  }

  class Diff3<T(==, !new)> {
    const A: seq<T>
    const B: seq<T>
    const C: seq<T>
    var S: seq<T>
    const diff_ba: Diff<T>
    const diff_bc: Diff<T>
    var conflict: bool

    constructor (a: seq<T>, b: seq<T>, c: seq<T>)
      ensures A == a && B == b && C == c && !conflict
      ensures fresh(diff_ba) && fresh(diff_bc) && fresh(diff_ba.ses) && fresh(diff_bc.ses)
      ensures Ready()
    {
      A, B, C := a, b, c;
      S := [];
      diff_ba := new Diff<T>(b, a, false, false);
      diff_bc := new Diff<T>(b, c, false, false);
      conflict := false;
    }

    ghost predicate Ready()
      reads this, diff_ba, diff_bc, diff_ba.ses, diff_bc.ses
    {
      && diff_ba != diff_bc && diff_ba.ses != diff_bc.ses
      && Untouched(diff_ba, B, A) && Untouched(diff_bc, B, C)
    }

    static ghost predicate Untouched(d: Diff<T>, before: seq<T>, after: seq<T>)
      reads d, d.ses
    {
      && d.Initialized() && d.ses.Valid() && d.ses.sequence == [] && !d.editDistanceOnly
      && d.editDistance == 0 && d.lcs == [] && d.pathCordinates == []
      && d.Before() == before && d.After() == after
    }

    static ghost predicate Compared(d: Diff<T>, before: seq<T>, after: seq<T>)
      reads d, d.ses
    {
      && IsScript(d.ses.sequence, before, after)
      && Cost(d.ses.sequence) == d.editDistance && IsDistance(d.editDistance, before, after)
    }

    method Compose() returns (complete: bool)
      requires Ready()
      modifies diff_ba, diff_bc, diff_ba.ses, diff_bc.ses
      ensures complete <==> WithinCap(B, A) && WithinCap(B, C)
      ensures complete ==> Compared(diff_ba, B, A) && Compared(diff_bc, B, C)
    {
      hide IsDistance, WithinCap;
      var ba := diff_ba.Compose();
      var bc := diff_bc.Compose();
      complete := ba && bc;
    }

    /** The two scripts read side by side. */
    method MergeScripts() returns (merged: seq<T>)
      requires Source(diff_ba.ses.sequence) == Source(diff_bc.ses.sequence) && !conflict
      modifies this`conflict
      ensures match Combine(diff_ba.ses.sequence, diff_bc.ses.sequence)
              case Conflict => conflict && merged == B
              case Merged(script) => !conflict && merged == Target(script)
    {
      hide Source, Target, Combine;
      var ba, bc := diff_ba.ses.sequence, diff_bc.ses.sequence;
      var list: seq<T> := [];
      var i, j := 0, 0;
      ghost var out: seq<Entry<T>> := [];
      ReadStart(ba, bc);
      while i < |ba| || j < |bc|
        invariant 0 <= i <= |ba| && 0 <= j <= |bc| && Reading(ba, bc, i, j, out, list) && !conflict
        decreases |ba| - i + |bc| - j
      {
        ghost var i0, j0 := i, j;
        while i < |ba| && j < |bc| && ba[i].elem == bc[j].elem && ba[i].kind == Common && bc[j].kind == Common
          invariant i0 <= i <= |ba| && j0 <= j <= |bc| && Reading(ba, bc, i, j, out, list) && !conflict
        {
          ReadStep(ba, bc, i, j, out, list);
          out := out + [Bare(ba[i].elem, Common)];
          list := list + [ba[i].elem];
          i, j := i + 1, j + 1;
        }
        if i == |ba| || j == |bc| {
          break;
        }
        ReadStep(ba, bc, i, j, out, list);
        out := out + [Read(ba[i], bc[j]).2];
        assert list + [] == list;
        match (ba[i].kind, bc[j].kind) {
          case (Common, Delete) => i, j := i + 1, j + 1;
          case (Common, Add) =>
            list := list + [bc[j].elem];
            j := j + 1;
          case (Delete, Common) => i, j := i + 1, j + 1;
          case (Delete, Delete) =>
            if ba[i].elem == bc[j].elem {
              i, j := i + 1, j + 1;
            } else {
              // The source reports a conflict here; both scripts stand at the same element, so it never does.
              assert false;
            }
          case (Delete, Add) =>
            conflict := true;
            return B;
          case (Add, Common) =>
            list := list + [ba[i].elem];
            i := i + 1;
          case (Add, Delete) =>
            conflict := true;
            return B;
          case (Add, Add) =>
            if ba[i].elem == bc[j].elem {
              list := list + [ba[i].elem];
              i, j := i + 1, j + 1;
            } else {
              conflict := true;
              return B;
            }
          case (Common, Common) =>
        }
      }
      ReadEnd(ba, bc, i, j, out, list);
      if i == |ba| {
        list := AddDecentSequence(bc[j..], list);
      } else if j == |bc| {
        list := AddDecentSequence(ba[i..], list);
      }
      merged := list;
    }

    /** Appends what is added by the rest of one script. */
    static method AddDecentSequence(rest: seq<Entry<T>>, list: seq<T>) returns (longer: seq<T>)
      requires Source(rest) == []
      ensures longer == list + Target(rest)
    {
      hide Source, Target;
      AdditionsOnly(rest);
      longer := list;
      NoTarget<T>();
      assert list + [] == list;
      var k := 0;
      while k < |rest|
        invariant 0 <= k <= |rest| && longer == list + Target(rest[..k])
      {
        assert rest[..k + 1] == rest[..k] + [rest[k]];
        PushOne(rest[..k], rest[k]);
        if rest[k].kind == Add {
          longer := longer + [rest[k].elem];
        }
        k := k + 1;
      }
      assert rest[..k] == rest;
    }

    /** The merge. With one side unchanged the other side is the result; with both changed the
        result is what the merge of the two scripts describes, or a conflict. */
    method MergeSides() returns (ok: bool)
      requires Compared(diff_ba, B, A) && Compared(diff_bc, B, C) && !conflict
      modifies this`S, this`conflict
      ensures ok <==> !conflict
      ensures A == B ==> ok && S == C
      ensures C == B ==> ok && S == A
      ensures A != B && C != B ==>
                match Combine(diff_ba.ses.sequence, diff_bc.ses.sequence)
                case Conflict => !ok && S == B
                case Merged(script) => ok && S == Target(script)
    {
      hide Source, Target, Combine, IsDistance;
      NoDistance(diff_ba.editDistance, B, A);
      NoDistance(diff_bc.editDistance, B, C);
      if diff_ba.editDistance == 0 {
        if diff_bc.editDistance == 0 {
          S := B;
          return true;
        }
        S := C;
        return true;
      } else {
        if diff_bc.editDistance == 0 {
          S := A;
          return true;
        } else {
          S := MergeScripts();
          if conflict {
            return false;
          }
        }
      }
      return true;
    }
  }

  lemma ReadStart<T>(ba: seq<Entry<T>>, bc: seq<Entry<T>>)
    requires Source(ba) == Source(bc)
    ensures Reading(ba, bc, 0, 0, [], [])
  {
    assert ba[0..] == ba && bc[0..] == bc;
    if Combine(ba, bc).Merged? {
      assert [] + Combine(ba, bc).script == Combine(ba, bc).script;
    }
  }

  lemma NoTarget<T>()
    ensures Target<T>([]) == []
  {
  }

  /** When one script is read to its end the other has only additions left. */
  lemma ReadEnd<T>(ba: seq<Entry<T>>, bc: seq<Entry<T>>, i: nat, j: nat, out: seq<Entry<T>>, written: seq<T>)
    requires i <= |ba| && j <= |bc| && (i == |ba| || j == |bc|) && Reading(ba, bc, i, j, out, written)
    ensures Source(ba[i..]) == Source(bc[j..]) == []
    ensures Combine(ba, bc).Merged?
    ensures Target(Combine(ba, bc).script) == written + (if i == |ba| then Target(bc[j..]) else Target(ba[i..]))
  {
    NoSource<T>();
    var p, q := ba[i..], bc[j..];
    var rest := if i == |ba| then q else p;
    AdditionsOnly(rest);
    Concat(out, Additions(rest));
  }

  /** Distance zero means equality. */
  lemma NoDistance<T(!new)>(d: int, a: seq<T>, b: seq<T>)
    requires IsDistance(d, a, b)
    ensures d == 0 <==> a == b
  {
    if d == 0 {
      var s :| IsScript(s, a, b) && Cost(s) == 0;
      FreeScript(s);
    }
    if a == b {
      var s := Untouched(a);
      UntouchedIsFree(a);
      assert IsScript(s, a, b) && Cost(s) >= d;
    }
  }

  lemma {:induction false} FreeScript<T>(s: seq<Entry<T>>)
    requires Cost(s) == 0
    ensures Source(s) == Target(s)
  {
    if s != [] {
      FreeScript(s[..|s| - 1]);
    }
  }

  ghost function Untouched<T>(a: seq<T>): seq<Entry<T>> {
    if a == [] then [] else Untouched(a[..|a| - 1]) + [Bare(a[|a| - 1], Common)]
  }

  lemma {:induction false} UntouchedIsFree<T>(a: seq<T>)
    ensures IsScript(Untouched(a), a, a) && Cost(Untouched(a)) == 0
  {
    if a != [] {
      UntouchedIsFree(a[..|a| - 1]);
      PushOne(Untouched(a[..|a| - 1]), Bare(a[|a| - 1], Common));
      assert a == a[..|a| - 1] + [a[|a| - 1]];
    }
  }
}
