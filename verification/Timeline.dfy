/** Saving and loading the zones of a thread through the file pipeline. */
module Timeline {
  import opened Bytes
  import opened ChildLists
  import opened FieldIO
  import opened FileFormat
  import W = FileWrite
  import R = FileRead

  /** What is kept of a zone. An open zone has end -1. */
  datatype ZoneData = ZoneData(srcloc: int, start: int, end: int, extra: int)

  type Zone = Tree<ZoneData>

  type ZoneEvent = Event<ZoneData>

  ghost predicate Storable(z: Zone)
    decreases z
  {
    && FitsSigned(z.data.srcloc, 2) && InTime(z.data.start) && InTime(z.data.end)
    && 0 <= z.data.extra < Pow256(4) && |z.children| < Pow256(4) && AllStorable(z.children)
  }

  ghost predicate AllStorable(zs: seq<Zone>)
    decreases zs
  {
    forall i :: 0 <= i < |zs| ==> Storable(zs[i])
  }

  /** The fields before the children of a zone: source location, start, extra data, number of children. */
  function HeadFields(z: Zone, ref: int): seq<seq<Byte>> {
    [ToSigned(z.data.srcloc, 2), ToSigned(z.data.start - ref, 8), ToBytes(z.data.extra, 4), ToBytes(|z.children|, 4)]
  }

  /** The reference time after the zones: the end of the last one. */
  function RefAfter(zs: seq<Zone>, ref: int): int {
    if zs == [] then ref else zs[|zs| - 1].data.end
  }

  /** The fields of a series of zones; times are kept as differences to the time stored before. */
  function FieldsOf(zs: seq<Zone>, ref: int): (fields: seq<seq<Byte>>)
    decreases zs
  {
    if zs == [] then [] else
      var z := zs[0];
      HeadFields(z, ref) + AfterHead(z) + FieldsOf(zs[1..], z.data.end)
  }

  function AfterHead(z: Zone): (fields: seq<seq<Byte>>)
    decreases z
  {
    FieldsOf(z.children, z.data.start) + [ToSigned(z.data.end - RefAfter(z.children, z.data.start), 8)]
  }

  lemma RepresentsAt(table: Table<ZoneData>, vec: seq<ZoneEvent>, zs: seq<Zone>, i: int)
    requires Represents(table, vec, zs) && AllStorable(zs) && 0 <= i < |zs|
    ensures |vec| == |zs| && vec[i].data == zs[i].data && Storable(zs[i])
    ensures if vec[i].child < 0 then zs[i].children == []
            else vec[i].child < |table| && Represents(table, table[vec[i].child], zs[i].children)
  {
  }

  lemma FieldsFrom(zs: seq<Zone>, i: int, ref: int)
    requires 0 <= i < |zs|
    ensures FieldsOf(zs[i..], ref) == HeadFields(zs[i], ref) + AfterHead(zs[i]) + FieldsOf(zs[i + 1..], zs[i].data.end)
  {
    assert zs[i..][1..] == zs[i + 1..];
  }

  /** The bytes of one zone, as they are written one after the other. */
  lemma ZoneBytes(z: Zone, ref: int)
    ensures Flat(HeadFields(z, ref) + AfterHead(z))
            == ToSigned(z.data.srcloc, 2) + ToSigned(z.data.start - ref, 8) + ToBytes(z.data.extra, 4) + TimelineBytes(z.children, z.data.start)
               + ToSigned(z.data.end - RefAfter(z.children, z.data.start), 8)
  {
    hide FieldsOf, ToBytes, ToSigned, RefAfter;
    var a, b, c, d := ToSigned(z.data.srcloc, 2), ToSigned(z.data.start - ref, 8), ToBytes(z.data.extra, 4), ToBytes(|z.children|, 4);
    var tail := ToSigned(z.data.end - RefAfter(z.children, z.data.start), 8);
    var inner := FieldsOf(z.children, z.data.start);
    hide Flat, HeadFields, AfterHead;
    assert HeadFields(z, ref) == [a, b, c, d] && AfterHead(z) == inner + [tail] by { HeadAndTail(z, ref); }
    FourFields(a, b, c, d);
    FlatAppend([a, b, c, d], inner + [tail]);
    FlatAppend(inner, [tail]);
    OneField(tail);
    Regroup(a + b + c, d, Flat(inner), tail);
  }

  /** Where in the bytes of a zone its fields are, and what they say. */
  lemma ZoneLayout(z: Zone, ref: int)
    ensures var b := Flat(HeadFields(z, ref) + AfterHead(z)); var n := |b| - 8;
            && n >= 18 && LowFirst(b[0..2], z.data.srcloc) && LowFirst(b[2..10], z.data.start - ref) && LowFirst(b[10..14], z.data.extra)
            && LowFirst(b[14..18], |z.children|) && b[18..n] == Flat(FieldsOf(z.children, z.data.start))
            && LowFirst(b[n..], z.data.end - if z.children == [] then z.data.start else z.children[|z.children| - 1].data.end)
  {
    hide *;
    ZoneBytes(z, ref);
    TimelineIs(z.children, z.data.start);
    var inner := FieldsOf(z.children, z.data.start);
    SignedLowFirst(z.data.srcloc, 2);
    SignedLowFirst(z.data.start - ref, 8);
    StoredLowFirst(z.data.extra, 4);
    StoredLowFirst(|z.children|, 4);
    var last := z.data.end - RefAfter(z.children, z.data.start);
    SignedLowFirst(last, 8);
    SixParts(ToSigned(z.data.srcloc, 2), ToSigned(z.data.start - ref, 8), ToBytes(z.data.extra, 4), ToBytes(|z.children|, 4), Flat(inner), ToSigned(last, 8));
  }

  lemma TimelineIs(zs: seq<Zone>, ref: int)
    ensures TimelineBytes(zs, ref) == ToBytes(|zs|, 4) + Flat(FieldsOf(zs, ref))
    ensures RefAfter(zs, ref) == if zs == [] then ref else zs[|zs| - 1].data.end
  {
    hide FieldsOf, Flat, ToBytes;
  }

  lemma SixParts<X>(a: seq<X>, b: seq<X>, c: seq<X>, d: seq<X>, e: seq<X>, f: seq<X>)
    requires |a| == 2 && |b| == 8 && |c| == 4 && |d| == 4 && |f| == 8
    ensures var s := a + b + c + (d + e) + f; var n := |s| - 8;
            n >= 18 && s[0..2] == a && s[2..10] == b && s[10..14] == c && s[14..18] == d && s[18..n] == e && s[n..] == f
  {
  }

  lemma HeadAndTail(z: Zone, ref: int)
    ensures HeadFields(z, ref) == [ToSigned(z.data.srcloc, 2), ToSigned(z.data.start - ref, 8), ToBytes(z.data.extra, 4), ToBytes(|z.children|, 4)]
    ensures AfterHead(z) == FieldsOf(z.children, z.data.start) + [ToSigned(z.data.end - RefAfter(z.children, z.data.start), 8)]
  {
    hide FieldsOf, ToBytes, ToSigned, RefAfter;
  }

  /** A timeline as it is saved: the number of zones and their fields. */
  function TimelineBytes(zs: seq<Zone>, ref: int): seq<Byte> {
    ToBytes(|zs|, 4) + Flat(FieldsOf(zs, ref))
  }

  class Worker {
    /** The lists of children; a zone with children names one of them. */
    var zoneChildren: Table<ZoneData>

    constructor (table: Table<ZoneData>)
      ensures zoneChildren == table
    {
      zoneChildren := table;
    }

    method WriteTimeline(f: W.FileWrite, vec: seq<ZoneEvent>, ref: int, ghost zs: seq<Zone>) returns (newRef: int)
      requires f.Valid() && Represents(zoneChildren, vec, zs) && AllStorable(zs)
      modifies f
      ensures f.Valid() && f.written == old(f.written) + TimelineBytes(zs, ref) && newRef == RefAfter(zs, ref)
      ensures |f.streams| == |old(f.streams)|
      decreases zs, 2
    {
      hide *;
      RepresentsLength(zoneChildren, vec, zs);
      f.Write(ToBytes(|vec|, 4));
      ghost var mark := f.written;
      newRef := WriteTimelineImpl(f, vec, ref, zs);
      TimelineParts(old(f.written), zs, ref);
    }

    method WriteTimelineImpl(f: W.FileWrite, vec: seq<ZoneEvent>, ref: int, ghost zs: seq<Zone>) returns (newRef: int)
      requires f.Valid() && Represents(zoneChildren, vec, zs) && AllStorable(zs)
      modifies f
      ensures f.Valid() && f.written == old(f.written) + Flat(FieldsOf(zs, ref)) && newRef == RefAfter(zs, ref)
      ensures |f.streams| == |old(f.streams)|
      decreases zs, 1
    {
      hide *;
      newRef := ref;
      ghost var goal := old(f.written) + Flat(FieldsOf(zs, ref));
      RepresentsLength(zoneChildren, vec, zs);
      assert zs[0..] == zs;
      RefStart(zs, ref);
      var i := 0;
      while i < |vec|
        invariant 0 <= i <= |vec| == |zs| && f.Valid() && |f.streams| == |old(f.streams)|
        invariant f.written + Flat(FieldsOf(zs[i..], newRef)) == goal
        invariant newRef == RefAfter(zs[..i], ref)
      {
        ghost var z := zs[i];
        RepresentsAt(zoneChildren, vec, zs, i);
        FieldsFrom(zs, i, newRef);
        FlatAppend(HeadFields(z, newRef) + AfterHead(z), FieldsOf(zs[i + 1..], z.data.end));
        ghost var before, bytes, rest := f.written, Flat(HeadFields(z, newRef) + AfterHead(z)), Flat(FieldsOf(zs[i + 1..], z.data.end));
        assert before + bytes + rest == before + (bytes + rest);
        newRef := WriteZone(f, vec[i], newRef, z);
        RefNext(zs, i, ref);
        i := i + 1;
      }
      assert zs[i..] == [] && zs[..i] == zs;
      NothingLeft(newRef);
      assert f.written + [] == f.written;
    }

    method WriteZone(f: W.FileWrite, v: ZoneEvent, ref: int, ghost z: Zone) returns (newRef: int)
      requires f.Valid() && v.data == z.data && Storable(z)
      requires if v.child < 0 then z.children == [] else v.child < |zoneChildren| && Represents(zoneChildren, zoneChildren[v.child], z.children)
      modifies f
      ensures f.Valid() && f.written == old(f.written) + Flat(HeadFields(z, ref) + AfterHead(z)) && newRef == z.data.end
      ensures |f.streams| == |old(f.streams)|
      decreases z
    {
      hide *;
      ZoneFacts(v, z);
      ghost var w := f.written;
      newRef := ref;
      f.Write(ToSigned(v.data.srcloc, 2));
      newRef := WriteTimeOffset(f, newRef, v.data.start);
      f.Write(ToBytes(v.data.extra, 4));
      if v.child < 0 {
        EmptyTimeline(z.data.start);
        f.Write(ToBytes(0, 4));
      } else {
        newRef := WriteTimeline(f, zoneChildren[v.child], newRef, z.children);
      }
      newRef := WriteTimeOffset(f, newRef, v.data.end);
      ZoneBytes(z, ref);
      FiveParts(w, ToSigned(z.data.srcloc, 2), ToSigned(z.data.start - ref, 8), ToBytes(z.data.extra, 4), TimelineBytes(z.children, z.data.start),
                ToSigned(z.data.end - RefAfter(z.children, z.data.start), 8));
    }

    /** Reads size zones into a list. The fields of a zone that come after its children are read together
        with the first fields of the next zone. */
    method ReadTimeline(f: R.FileRead, size: int, oldRef: int, oldIdx: int, ghost zs: seq<Zone>, ghost more: seq<seq<Byte>>, ghost end: int)
      returns (vec: seq<ZoneEvent>, ref: int, childIdx: int)
      requires zs != [] && size == |zs| && AllStorable(zs) && InTime(oldRef) && Ahead(f, FieldsOf(zs, oldRef) + more, end)
      requires Room(zoneChildren, oldIdx, Laid(zs, oldIdx).1)
      modifies this, f
      ensures Ahead(f, more, end) && f.trace == old(f.trace)
      ensures vec == Laid(zs, oldIdx).0 && childIdx == oldIdx + |Laid(zs, oldIdx).1| && ref == RefAfter(zs, oldRef)
      ensures zoneChildren == Put(old(zoneChildren), oldIdx, Laid(zs, oldIdx).1)
      decreases zs
    {
      hide *;
      ref, childIdx, vec := oldRef, oldIdx, [];
      ghost var done: Table<ZoneData> := [];
      FirstHead(zs, ref, more);
      HeadDecodes(zs, 0, ref);
      var got := Take(f, [2, 8, 4, 4], HeadFields(zs[0], ref), AfterHead(zs[0]) + Rest(zs, 0, more), end);
      LaidStart(zs, oldIdx, zoneChildren);
      var i := 0;
      while i != size - 1
        invariant 0 <= i < size && Ahead(f, AfterHead(zs[i]) + Rest(zs, i, more), end) && f.trace == old(f.trace)
        invariant got == HeadFields(zs[i], ref) && InTime(ref) && childIdx == oldIdx + |done|
        invariant LaidSoFar(zs, i, oldIdx, vec, done)
        invariant zoneChildren == Put(old(zoneChildren), oldIdx, done)
      {
        ghost var z := zs[i];
        LaidStep(zs, i, oldIdx, vec, done, old(zoneChildren));
        var event;
        event, ref, childIdx := ReadZone(f, got, ref, childIdx, zs, i, more, end);
        TailThenHead(zs, i, more);
        got := Take(f, [8, 2, 8, 4, 4], [Tail(z)] + HeadFields(zs[i + 1], z.data.end), AfterHead(zs[i + 1]) + Rest(zs, i + 1, more), end);
        TailDecodes(zs, i, ref);
        ref := ref + FromSigned(got[0]);
        vec := vec + [event.(data := event.data.(end := ref))];
        got := got[1..];
        assert got == HeadFields(zs[i + 1], z.data.end);
        done := done + ListsOf(z, oldIdx + |done|);
        i := i + 1;
      }
      LaidStep(zs, i, oldIdx, vec, done, old(zoneChildren));
      var event;
      event, ref, childIdx := ReadZone(f, got, ref, childIdx, zs, i, more, end);
      LastTail(zs, i, more);
      TailDecodes(zs, i, ref);
      got := Take(f, [8], [Tail(zs[i])], more, end);
      ref := ref + FromSigned(got[0]);
      vec := vec + [event.(data := event.data.(end := ref))];
      LaidAll(zs, oldIdx, vec, done + ListsOf(zs[i], oldIdx + |done|));
      RefAtEnd(zs, oldRef);
    }

    /** The part of a zone up to its children; its end is still to come. */
    method ReadZone(f: R.FileRead, head: seq<seq<Byte>>, oldRef: int, oldIdx: int, ghost zs: seq<Zone>, ghost i: int,
        ghost more: seq<seq<Byte>>, ghost end: int) returns (event: ZoneEvent, ref: int, childIdx: int)
      requires 0 <= i < |zs| && AllStorable(zs) && InTime(oldRef) && head == HeadFields(zs[i], oldRef)
      requires Ahead(f, AfterHead(zs[i]) + Rest(zs, i, more), end)
      requires Room(zoneChildren, oldIdx, ListsOf(zs[i], oldIdx))
      modifies this, f
      ensures Ahead(f, [Tail(zs[i])] + Rest(zs, i, more), end) && f.trace == old(f.trace)
      ensures event.(data := event.data.(end := zs[i].data.end)) == EventOf(zs[i], oldIdx)
      ensures ref == RefAfter(zs[i].children, zs[i].data.start) && childIdx == oldIdx + |ListsOf(zs[i], oldIdx)|
      ensures zoneChildren == Put(old(zoneChildren), oldIdx, ListsOf(zs[i], oldIdx))
      decreases zs[i], 1
    {
      hide *;
      HeadDecodes(zs, i, oldRef);
      ref := oldRef + FromSigned(head[1]);
      var child;
      ChildrenThenTail(zs, i, more);
      child, ref, childIdx := ReadTimelineHaveSize(f, ref, oldIdx, FromBytes(head[3]), zs[i], [Tail(zs[i])] + Rest(zs, i, more), end);
      event := Event(ZoneData(FromSigned(head[0]), oldRef + FromSigned(head[1]), 0, FromBytes(head[2])), child);
      EventFields(zs[i], oldIdx, event);
    }

    /** Children are read into the next free list; the lists of their children follow. */
    method ReadTimelineHaveSize(f: R.FileRead, oldRef: int, oldIdx: int, sz: int, ghost z: Zone, ghost more: seq<seq<Byte>>, ghost end: int)
      returns (child: int, ref: int, childIdx: int)
      requires Storable(z) && oldRef == z.data.start && sz == |z.children| && Ahead(f, FieldsOf(z.children, z.data.start) + more, end)
      requires Room(zoneChildren, oldIdx, ListsOf(z, oldIdx))
      modifies this, f
      ensures Ahead(f, more, end) && f.trace == old(f.trace)
      ensures child == EventOf(z, oldIdx).child && ref == RefAfter(z.children, z.data.start) && childIdx == oldIdx + |ListsOf(z, oldIdx)|
      ensures zoneChildren == Put(old(zoneChildren), oldIdx, ListsOf(z, oldIdx))
      decreases z, 0
    {
      hide *;
      if sz == 0 {
        NoChildren(z, more);
        NoLists(z, oldIdx, zoneChildren);
        child, ref, childIdx := -1, oldRef, oldIdx;
      } else {
        var idx := oldIdx;
        childIdx := oldIdx + 1;
        ghost var before := zoneChildren;
        SomeChildren(z);
        SomeLists(z, oldIdx, before);
        var list;
        list, ref, childIdx := ReadTimeline(f, sz, oldRef, childIdx, z.children, more, end);
        zoneChildren := zoneChildren[idx := list];
        child := idx;
      }
    }
  }

  ghost function Tail(z: Zone): seq<Byte> {
    ToSigned(z.data.end - RefAfter(z.children, z.data.start), 8)
  }

  /** What follows the fields of zone i. */
  ghost function Rest(zs: seq<Zone>, i: int, more: seq<seq<Byte>>): seq<seq<Byte>>
    requires 0 <= i < |zs|
  {
    FieldsOf(zs[i + 1..], zs[i].data.end) + more
  }

  lemma FirstHead(zs: seq<Zone>, ref: int, more: seq<seq<Byte>>)
    requires zs != []
    ensures FieldsOf(zs, ref) + more == HeadFields(zs[0], ref) + (AfterHead(zs[0]) + Rest(zs, 0, more))
  {
    FieldsFrom(zs, 0, ref);
    assert zs[0..] == zs;
    Regroup4(HeadFields(zs[0], ref), AfterHead(zs[0]), FieldsOf(zs[1..], zs[0].data.end), more);
  }

  lemma ChildrenThenTail(zs: seq<Zone>, i: int, more: seq<seq<Byte>>)
    requires 0 <= i < |zs|
    ensures AfterHead(zs[i]) + Rest(zs, i, more) == FieldsOf(zs[i].children, zs[i].data.start) + ([Tail(zs[i])] + Rest(zs, i, more))
  {
    hide ToSigned, FieldsOf, RefAfter;
    assert AfterHead(zs[i]) == FieldsOf(zs[i].children, zs[i].data.start) + [Tail(zs[i])];
  }

  lemma TailThenHead(zs: seq<Zone>, i: int, more: seq<seq<Byte>>)
    requires 0 <= i < |zs| - 1
    ensures [Tail(zs[i])] + Rest(zs, i, more)
            == ([Tail(zs[i])] + HeadFields(zs[i + 1], zs[i].data.end)) + (AfterHead(zs[i + 1]) + Rest(zs, i + 1, more))
    ensures |[Tail(zs[i])] + HeadFields(zs[i + 1], zs[i].data.end)| == 5
    ensures forall k :: 0 <= k < 5 ==> |([Tail(zs[i])] + HeadFields(zs[i + 1], zs[i].data.end))[k]| == [8, 2, 8, 4, 4][k]
  {
    hide FieldsOf, AfterHead, ToBytes, ToSigned, RefAfter;
    FieldsFrom(zs, i + 1, zs[i].data.end);
    Regroup4([Tail(zs[i])] + HeadFields(zs[i + 1], zs[i].data.end), AfterHead(zs[i + 1]), FieldsOf(zs[i + 2..], zs[i + 1].data.end), more);
    Regroup4([Tail(zs[i])], HeadFields(zs[i + 1], zs[i].data.end), AfterHead(zs[i + 1]), FieldsOf(zs[i + 2..], zs[i + 1].data.end) + more);
  }

  lemma LastTail(zs: seq<Zone>, i: int, more: seq<seq<Byte>>)
    requires i == |zs| - 1 >= 0
    ensures [Tail(zs[i])] + Rest(zs, i, more) == [Tail(zs[i])] + more
  {
    assert zs[i + 1..] == [];
    assert FieldsOf([], zs[i].data.end) + more == more;
  }

  /** The fields before the children give back what was stored. */
  lemma HeadDecodes(zs: seq<Zone>, i: int, ref: int)
    requires 0 <= i < |zs| && AllStorable(zs) && InTime(ref)
    ensures var head := HeadFields(zs[i], ref);
            && |head| == 4 && |head[0]| == 2 && |head[1]| == 8 && |head[2]| == 4 && |head[3]| == 4
            && FromSigned(head[0]) == zs[i].data.srcloc && FromSigned(head[1]) == zs[i].data.start - ref
            && FromBytes(head[2]) == zs[i].data.extra && FromBytes(head[3]) == |zs[i].children|
    ensures Storable(zs[i])
  {
    hide ToBytes, ToSigned, FromBytes, FromSigned;
    var z := zs[i];
    assert Storable(z);
    Powers();
    SignedRoundTrip(z.data.srcloc, 2);
    SignedRoundTrip(z.data.start - ref, 8);
    BytesRoundTrip(z.data.extra, 4);
    BytesRoundTrip(|z.children|, 4);
  }

  lemma TailDecodes(zs: seq<Zone>, i: int, ref: int)
    requires 0 <= i < |zs| && AllStorable(zs) && ref == RefAfter(zs[i].children, zs[i].data.start)
    ensures |Tail(zs[i])| == 8 && ref + FromSigned(Tail(zs[i])) == zs[i].data.end && InTime(zs[i].data.end)
  {
    hide ToBytes, ToSigned, FromBytes, FromSigned;
    var z := zs[i];
    assert Storable(z);
    assert z.children != [] ==> Storable(z.children[|z.children| - 1]);
    Powers();
    SignedRoundTrip(z.data.end - ref, 8);
  }

  lemma EventFields(z: Zone, idx: int, e: ZoneEvent)
    requires e.data.srcloc == z.data.srcloc && e.data.start == z.data.start && e.data.extra == z.data.extra && e.child == EventOf(z, idx).child
    ensures e.(data := e.data.(end := z.data.end)) == EventOf(z, idx)
  {
  }

  lemma NoChildren(z: Zone, more: seq<seq<Byte>>)
    requires |z.children| == 0
    ensures RefAfter(z.children, z.data.start) == z.data.start && FieldsOf(z.children, z.data.start) + more == more
  {
  }

  lemma SomeChildren(z: Zone)
    requires Storable(z)
    ensures AllStorable(z.children) && InTime(z.data.start)
  {
  }

  lemma RefAtEnd(zs: seq<Zone>, ref: int)
    requires zs != []
    ensures RefAfter(zs, ref) == zs[|zs| - 1].data.end
  {
  }

  lemma RefStart(zs: seq<Zone>, ref: int)
    ensures RefAfter(zs[..0], ref) == ref
  {
  }

  lemma RefNext(zs: seq<Zone>, i: int, ref: int)
    requires 0 <= i < |zs|
    ensures RefAfter(zs[..i + 1], ref) == zs[i].data.end
  {
  }

  lemma TimelineParts(w: seq<Byte>, zs: seq<Zone>, ref: int)
    ensures w + ToBytes(|zs|, 4) + Flat(FieldsOf(zs, ref)) == w + TimelineBytes(zs, ref)
  {
    hide ToBytes, Flat, FieldsOf;
    assert w + ToBytes(|zs|, 4) + Flat(FieldsOf(zs, ref)) == w + (ToBytes(|zs|, 4) + Flat(FieldsOf(zs, ref)));
  }

  lemma ZoneFacts(v: ZoneEvent, z: Zone)
    requires v.data == z.data && Storable(z)
    ensures AllStorable(z.children) && v.data.srcloc == z.data.srcloc && v.data.start == z.data.start && v.data.end == z.data.end && v.data.extra == z.data.extra
  {
  }

  lemma EmptyTimeline(ref: int)
    ensures TimelineBytes([], ref) == ToBytes(0, 4) && RefAfter([], ref) == ref
  {
    FlatNothing();
    assert FieldsOf([], ref) == [];
  }

  lemma NothingLeft(ref: int)
    ensures Flat(FieldsOf([], ref)) == []
  {
  }

  /** Saves one timeline to a file of its own. */
  method Save(codec: Codec, kind: Byte, streams: Byte, table: Table<ZoneData>, vec: seq<ZoneEvent>, ghost zs: seq<Zone>)
    returns (file: seq<Byte>, ref: int)
    requires streams > 0 && Represents(table, vec, zs) && AllStorable(zs)
    ensures file == FileOf(codec, kind, streams, TimelineBytes(zs, 0)) && ref == RefAfter(zs, 0)
  {
    hide *;
    var worker := new Worker(table);
    var f := new W.FileWrite(codec, kind, streams);
    ref := worker.WriteTimeline(f, vec, 0, zs);
    assert [] + TimelineBytes(zs, 0) == TimelineBytes(zs, 0);
    f.Finish();
    file := f.file;
  }

  /** Loads a saved timeline. What was saved may have open zones, any nesting and child lists in any order;
      what is loaded is the same forest, with its child lists in pre-order. The reference time is the
      writer's, and every byte has been read. */
  method Load(codec: Codec, file: seq<Byte>, tableSize: int, ghost kind: Byte, ghost streams: Byte, ghost zs: seq<Zone>)
    returns (worker: Worker, roots: seq<ZoneEvent>, ref: int, f: R.FileRead)
    requires streams > 0 && kind <= 1 && Undoes(codec) && file == FileOf(codec, kind, streams, TimelineBytes(zs, 0))
    requires AllStorable(zs) && |zs| < Pow256(4) && |Laid(zs, 0).1| <= tableSize
    ensures Represents(worker.zoneChildren, roots, zs) && ref == RefAfter(zs, 0)
    ensures roots == Laid(zs, 0).0 && Holds(worker.zoneChildren, 0, Laid(zs, 0).1) && |worker.zoneChildren| == tableSize
    ensures f.Valid() && |f.out| == |f.Stream()|
  {
    hide *;
    ghost var data, fields := TimelineBytes(zs, 0), FieldsOf(zs, 0);
    DataParts(zs);
    R.FileDecodes(codec, kind, streams, data);
    HeaderParses(codec, kind, streams, data);
    TraceParts(codec, kind, streams, data);
    var parsed := ParseHeader(file);
    f := new R.FileRead(codec, file, parsed.streams, parsed.dataOffset, R.TraceOf(codec, kind, streams, data));
    StreamIs(f);
    AtStart(data);
    IsAhead(f, [ToBytes(|zs|, 4)] + fields, |data|);
    worker := new Worker(seq(tableSize, _ => []));
    var got := Take(f, [4], [ToBytes(|zs|, 4)], fields, |data|);
    SizeDecodes(zs);
    var tsz := FromBytes(got[0]);
    roots, ref := [], 0;
    NoZones(zs, worker.zoneChildren);
    if tsz != 0 {
      assert fields + [] == fields;
      ghost var before := worker.zoneChildren;
      StartRoom(before, Laid(zs, 0).1);
      var next;
      roots, ref, next := worker.ReadTimeline(f, tsz, 0, 0, zs, [], |data|);
      PutHolds(before, 0, Laid(zs, 0).1);
    }
    assert tsz == 0 ==> fields == [];
    NothingAhead(f, |data|);
    StreamIs(f);
    LaidRepresents(zs, 0, worker.zoneChildren);
  }

  lemma DataParts(zs: seq<Zone>)
    ensures TimelineBytes(zs, 0) == Flat([ToBytes(|zs|, 4)] + FieldsOf(zs, 0)) && TimelineBytes(zs, 0) != []
  {
    hide Flat, FieldsOf, ToBytes;
    FlatAppend([ToBytes(|zs|, 4)], FieldsOf(zs, 0));
    OneField(ToBytes(|zs|, 4));
  }

  lemma SizeDecodes(zs: seq<Zone>)
    requires |zs| < Pow256(4)
    ensures FromBytes(ToBytes(|zs|, 4)) == |zs| && |ToBytes(|zs|, 4)| == 4
  {
    hide ToBytes, FromBytes, Pow256;
    BytesRoundTrip(|zs|, 4);
  }

  lemma NoZones(zs: seq<Zone>, table: Table<ZoneData>)
    ensures |zs| == 0 ==> Laid(zs, 0) == ([], []) && Holds(table, 0, []) && RefAfter(zs, 0) == 0 && FieldsOf(zs, 0) == []
    ensures InTime(0)
  {
  }
}
