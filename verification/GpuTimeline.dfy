/** Saving and loading the zones of a GPU context, which are timed by two clocks. */
module GpuTimeline {
  import opened Bytes
  import opened ChildLists
  import opened FieldIO
  import opened FileFormat
  import W = FileWrite
  import R = FileRead

  /** What is kept of a zone: times by the CPU and by the GPU clock, and who issued it. */
  datatype GpuData = GpuData(cpuStart: int, gpuStart: int, cpuEnd: int, gpuEnd: int,
                             srcloc: int, callstack: int, thread: int, queryId: int)

  type Zone = Tree<GpuData>

  type ZoneEvent = Event<GpuData>

  /** The reference times of the two clocks. */
  datatype Refs = Refs(cpu: int, gpu: int)

  /** Old files have no query numbers; what is loaded from them has the number 0. */
  ghost predicate Storable(z: Zone, hasQueryId: bool)
    decreases z
  {
    var d := z.data;
    && InTime(d.cpuStart) && InTime(d.gpuStart) && InTime(d.cpuEnd) && InTime(d.gpuEnd)
    && FitsSigned(d.srcloc, 2) && 0 <= d.callstack < Pow256(3) && 0 <= d.thread < Pow256(2)
    && (if hasQueryId then 0 <= d.queryId < Pow256(2) else d.queryId == 0)
    && |z.children| < Pow256(8) && AllStorable(z.children, hasQueryId)
  }

  ghost predicate AllStorable(zs: seq<Zone>, hasQueryId: bool)
    decreases zs
  {
    forall i :: 0 <= i < |zs| ==> Storable(zs[i], hasQueryId)
  }

  ghost function StartOf(z: Zone): Refs {
    Refs(z.data.cpuStart, z.data.gpuStart)
  }

  ghost function EndOf(z: Zone): Refs {
    Refs(z.data.cpuEnd, z.data.gpuEnd)
  }

  ghost function RefsAfter(zs: seq<Zone>, r: Refs): Refs {
    if zs == [] then r else EndOf(zs[|zs| - 1])
  }

  ghost function HeadFields(z: Zone, r: Refs): seq<seq<Byte>> {
    [ToSigned(z.data.cpuStart - r.cpu, 8), ToSigned(z.data.gpuStart - r.gpu, 8), ToSigned(z.data.srcloc, 2),
     ToBytes(z.data.callstack, 3), ToBytes(z.data.thread, 2), ToBytes(|z.children|, 8)]
  }

  ghost function EndFields(z: Zone): seq<seq<Byte>> {
    var r := RefsAfter(z.children, StartOf(z));
    [ToSigned(z.data.cpuEnd - r.cpu, 8), ToSigned(z.data.gpuEnd - r.gpu, 8)]
  }

  ghost function QueryField(z: Zone, hasQueryId: bool): seq<seq<Byte>> {
    if hasQueryId then [ToBytes(z.data.queryId, 2)] else []
  }

  ghost function FieldsOf(zs: seq<Zone>, r: Refs, hasQueryId: bool): (fields: seq<seq<Byte>>)
    decreases zs
  {
    if zs == [] then [] else
      ZoneFields(zs[0], r, hasQueryId) + FieldsOf(zs[1..], EndOf(zs[0]), hasQueryId)
  }

  ghost function ZoneFields(z: Zone, r: Refs, hasQueryId: bool): (fields: seq<seq<Byte>>)
    decreases z
  {
    HeadFields(z, r) + FieldsOf(z.children, StartOf(z), hasQueryId) + (EndFields(z) + QueryField(z, hasQueryId))
  }

  ghost function TimelineBytes(zs: seq<Zone>, r: Refs): seq<Byte> {
    ToBytes(|zs|, 8) + Flat(FieldsOf(zs, r, true))
  }

  lemma FieldsFrom(zs: seq<Zone>, i: int, r: Refs, hasQueryId: bool)
    requires 0 <= i < |zs|
    ensures FieldsOf(zs[i..], r, hasQueryId)
            == ZoneFields(zs[i], r, hasQueryId) + FieldsOf(zs[i + 1..], EndOf(zs[i]), hasQueryId)
  {
    assert zs[i..][1..] == zs[i + 1..];
  }

  lemma RepresentsAt(table: Table<GpuData>, vec: seq<ZoneEvent>, zs: seq<Zone>, i: int)
    requires Represents(table, vec, zs) && AllStorable(zs, true) && 0 <= i < |zs|
    ensures |vec| == |zs| && vec[i].data == zs[i].data && Storable(zs[i], true)
    ensures if vec[i].child < 0 then zs[i].children == []
            else vec[i].child < |table| && Represents(table, table[vec[i].child], zs[i].children)
  {
  }

  /** The bytes of one zone, as they are written one after the other. */
  lemma ZoneBytes(z: Zone, r: Refs)
    ensures var s := RefsAfter(z.children, StartOf(z));
            Flat(ZoneFields(z, r, true))
            == ToSigned(z.data.cpuStart - r.cpu, 8) + ToSigned(z.data.gpuStart - r.gpu, 8) + ToSigned(z.data.srcloc, 2)
               + ToBytes(z.data.callstack, 3) + ToBytes(z.data.thread, 2) + TimelineBytes(z.children, StartOf(z))
               + ToSigned(z.data.cpuEnd - s.cpu, 8) + ToSigned(z.data.gpuEnd - s.gpu, 8) + ToBytes(z.data.queryId, 2)
  {
    hide ToBytes, ToSigned, RefsAfter, Flat, FieldsOf;
    var s := RefsAfter(z.children, StartOf(z));
    var a, b, c := ToSigned(z.data.cpuStart - r.cpu, 8), ToSigned(z.data.gpuStart - r.gpu, 8), ToSigned(z.data.srcloc, 2);
    var d, e, n := ToBytes(z.data.callstack, 3), ToBytes(z.data.thread, 2), ToBytes(|z.children|, 8);
    var x, y, q := ToSigned(z.data.cpuEnd - s.cpu, 8), ToSigned(z.data.gpuEnd - s.gpu, 8), ToBytes(z.data.queryId, 2);
    var inner := FieldsOf(z.children, StartOf(z), true);
    assert HeadFields(z, r) == [a, b, c, d] + [e, n];
    assert EndFields(z) + QueryField(z, true) == [x, y, q];
    FourFields(a, b, c, d);
    TwoFields(e, n);
    FlatAppend([a, b, c, d], [e, n]);
    ThreeFields(x, y, q);
    FlatAppend([a, b, c, d] + [e, n], inner);
    FlatAppend([a, b, c, d] + [e, n] + inner, [x, y, q]);
    Regroup9(a + b + c + d, e, n, Flat(inner), x, y, q);
  }

  /** Where in the bytes of a zone its fields are, and what they say. */
  lemma ZoneLayout(z: Zone, r: Refs)
    ensures var b := Flat(ZoneFields(z, r, true)); var n := |b| - 18;
            var s := if z.children == [] then StartOf(z) else EndOf(z.children[|z.children| - 1]);
            && n >= 31 && LowFirst(b[0..8], z.data.cpuStart - r.cpu) && LowFirst(b[8..16], z.data.gpuStart - r.gpu)
            && LowFirst(b[16..18], z.data.srcloc) && LowFirst(b[18..21], z.data.callstack) && LowFirst(b[21..23], z.data.thread)
            && LowFirst(b[23..31], |z.children|) && b[31..n] == Flat(FieldsOf(z.children, StartOf(z), true))
            && LowFirst(b[n..n + 8], z.data.cpuEnd - s.cpu) && LowFirst(b[n + 8..n + 16], z.data.gpuEnd - s.gpu)
            && LowFirst(b[n + 16..], z.data.queryId)
  {
    hide *;
    ZoneBytes(z, r);
    TimelineIs(z.children, StartOf(z));
    var s := RefsAfter(z.children, StartOf(z));
    SignedLowFirst(z.data.cpuStart - r.cpu, 8);
    SignedLowFirst(z.data.gpuStart - r.gpu, 8);
    SignedLowFirst(z.data.srcloc, 2);
    StoredLowFirst(z.data.callstack, 3);
    StoredLowFirst(z.data.thread, 2);
    StoredLowFirst(|z.children|, 8);
    SignedLowFirst(z.data.cpuEnd - s.cpu, 8);
    SignedLowFirst(z.data.gpuEnd - s.gpu, 8);
    StoredLowFirst(z.data.queryId, 2);
    var a, b, c := ToSigned(z.data.cpuStart - r.cpu, 8), ToSigned(z.data.gpuStart - r.gpu, 8), ToSigned(z.data.srcloc, 2);
    var d, e, n := ToBytes(z.data.callstack, 3), ToBytes(z.data.thread, 2), ToBytes(|z.children|, 8);
    var x, y, q := ToSigned(z.data.cpuEnd - s.cpu, 8), ToSigned(z.data.gpuEnd - s.gpu, 8), ToBytes(z.data.queryId, 2);
    HeadParts(a, b, c, d, e, n, Flat(FieldsOf(z.children, StartOf(z), true)), x, y, q);
  }

  lemma TimelineIs(zs: seq<Zone>, r: Refs)
    ensures TimelineBytes(zs, r) == ToBytes(|zs|, 8) + Flat(FieldsOf(zs, r, true))
    ensures RefsAfter(zs, r) == if zs == [] then r else EndOf(zs[|zs| - 1])
  {
    hide FieldsOf, Flat, ToBytes;
  }

  lemma HeadParts<X>(a: seq<X>, b: seq<X>, c: seq<X>, d: seq<X>, e: seq<X>, f: seq<X>, g: seq<X>, x: seq<X>, y: seq<X>, q: seq<X>)
    requires |a| == 8 && |b| == 8 && |c| == 2 && |d| == 3 && |e| == 2 && |f| == 8 && |x| == 8 && |y| == 8 && |q| == 2
    ensures var s := a + b + c + d + e + (f + g) + x + y + q; var n := |s| - 18;
            && n >= 31 && s[0..8] == a && s[8..16] == b && s[16..18] == c && s[18..21] == d && s[21..23] == e && s[23..31] == f
            && s[31..n] == g && s[n..n + 8] == x && s[n + 8..n + 16] == y && s[n + 16..] == q
  {
  }

  lemma TwoFields(a: seq<Byte>, b: seq<Byte>)
    ensures Flat([a, b]) == a + b
  {
    hide Flat;
    OneField(a);
    FlatPush([a], b);
    assert [a] + [b] == [a, b];
  }

  lemma ThreeFields(a: seq<Byte>, b: seq<Byte>, c: seq<Byte>)
    ensures Flat([a, b, c]) == a + b + c
  {
    hide Flat;
    TwoFields(a, b);
    FlatPush([a, b], c);
    assert [a, b] + [c] == [a, b, c];
  }

  lemma Regroup9(p: seq<Byte>, e: seq<Byte>, n: seq<Byte>, i: seq<Byte>, x: seq<Byte>, y: seq<Byte>, q: seq<Byte>)
    ensures p + (e + n) + i + (x + y + q) == p + e + (n + i) + x + y + q
  {
    assert p + (e + n) + i == p + e + (n + i);
  }

  lemma NineParts(w: seq<Byte>, a: seq<Byte>, b: seq<Byte>, c: seq<Byte>, d: seq<Byte>, e: seq<Byte>, i: seq<Byte>,
      x: seq<Byte>, y: seq<Byte>, q: seq<Byte>)
    ensures w + a + b + c + d + e + i + x + y + q == w + (a + b + c + d + e + i + x + y + q)
  {
    FiveParts(w, a, b, c, d, e);
    FiveParts(w, a + b + c + d + e, i, x, y, q);
  }

  class GpuWorker {
    /** The lists of children; a zone with children names one of them. */
    var gpuChildren: Table<GpuData>

    constructor (table: Table<GpuData>)
      ensures gpuChildren == table
    {
      gpuChildren := table;
    }

    method WriteTimeline(f: W.FileWrite, vec: seq<ZoneEvent>, refTime: int, refGpuTime: int, ghost zs: seq<Zone>) returns (cpu: int, gpu: int)
      requires f.Valid() && Represents(gpuChildren, vec, zs) && AllStorable(zs, true)
      modifies f
      ensures f.Valid() && f.written == old(f.written) + TimelineBytes(zs, Refs(refTime, refGpuTime))
      ensures Refs(cpu, gpu) == RefsAfter(zs, Refs(refTime, refGpuTime)) && |f.streams| == |old(f.streams)|
      decreases zs, 2
    {
      hide *;
      RepresentsLength(gpuChildren, vec, zs);
      f.Write(ToBytes(|vec|, 8));
      cpu, gpu := WriteTimelineImpl(f, vec, refTime, refGpuTime, zs);
      TimelineParts(old(f.written), zs, Refs(refTime, refGpuTime));
    }

    method WriteTimelineImpl(f: W.FileWrite, vec: seq<ZoneEvent>, refTime: int, refGpuTime: int, ghost zs: seq<Zone>) returns (cpu: int, gpu: int)
      requires f.Valid() && Represents(gpuChildren, vec, zs) && AllStorable(zs, true)
      modifies f
      ensures f.Valid() && f.written == old(f.written) + Flat(FieldsOf(zs, Refs(refTime, refGpuTime), true))
      ensures Refs(cpu, gpu) == RefsAfter(zs, Refs(refTime, refGpuTime)) && |f.streams| == |old(f.streams)|
      decreases zs, 1
    {
      hide *;
      cpu, gpu := refTime, refGpuTime;
      ghost var first := Refs(refTime, refGpuTime);
      ghost var goal := old(f.written) + Flat(FieldsOf(zs, first, true));
      RepresentsLength(gpuChildren, vec, zs);
      assert zs[0..] == zs;
      RefsStart(zs, first);
      var i := 0;
      while i < |vec|
        invariant 0 <= i <= |vec| == |zs| && f.Valid() && |f.streams| == |old(f.streams)|
        invariant f.written + Flat(FieldsOf(zs[i..], Refs(cpu, gpu), true)) == goal
        invariant Refs(cpu, gpu) == RefsAfter(zs[..i], first)
      {
        ghost var z, r := zs[i], Refs(cpu, gpu);
        RepresentsAt(gpuChildren, vec, zs, i);
        FieldsFrom(zs, i, r, true);
        FlatAppend(ZoneFields(z, r, true), FieldsOf(zs[i + 1..], EndOf(z), true));
        ghost var before, bytes, rest := f.written, Flat(ZoneFields(z, r, true)), Flat(FieldsOf(zs[i + 1..], EndOf(z), true));
        assert before + bytes + rest == before + (bytes + rest);
        cpu, gpu := WriteZone(f, vec[i], cpu, gpu, z);
        RefsNext(zs, i, first);
        i := i + 1;
      }
      assert zs[i..] == [] && zs[..i] == zs;
      NothingLeft(Refs(cpu, gpu));
      assert f.written + [] == f.written;
    }

    method WriteTimes(f: W.FileWrite, refTime: int, refGpuTime: int, cpuTime: int, gpuTime: int) returns (cpu: int, gpu: int)
      requires f.Valid()
      modifies f
      ensures f.Valid() && f.written == old(f.written) + ToSigned(cpuTime - refTime, 8) + ToSigned(gpuTime - refGpuTime, 8)
      ensures cpu == cpuTime && gpu == gpuTime && |f.streams| == |old(f.streams)|
    {
      hide *;
      cpu := WriteTimeOffset(f, refTime, cpuTime);
      gpu := WriteTimeOffset(f, refGpuTime, gpuTime);
    }

    method WriteZone(f: W.FileWrite, v: ZoneEvent, refTime: int, refGpuTime: int, ghost z: Zone) returns (cpu: int, gpu: int)
      requires f.Valid() && v.data == z.data && Storable(z, true)
      requires if v.child < 0 then z.children == [] else v.child < |gpuChildren| && Represents(gpuChildren, gpuChildren[v.child], z.children)
      modifies f
      ensures f.Valid() && f.written == old(f.written) + Flat(ZoneFields(z, Refs(refTime, refGpuTime), true))
      ensures Refs(cpu, gpu) == EndOf(z) && |f.streams| == |old(f.streams)|
      decreases z
    {
      hide *;
      ZoneFacts(z, true);
      var d := v.data;
      ghost var w := f.written;
      cpu, gpu := WriteTimes(f, refTime, refGpuTime, d.cpuStart, d.gpuStart);
      f.Write(ToSigned(d.srcloc, 2));
      f.Write(ToBytes(d.callstack, 3));
      f.Write(ToBytes(d.thread, 2));
      if v.child < 0 {
        EmptyTimeline(StartOf(z));
        f.Write(ToBytes(0, 8));
      } else {
        cpu, gpu := WriteTimeline(f, gpuChildren[v.child], cpu, gpu, z.children);
      }
      ghost var s := Refs(cpu, gpu);
      cpu, gpu := WriteTimes(f, cpu, gpu, d.cpuEnd, d.gpuEnd);
      f.Write(ToBytes(d.queryId, 2));
      ZoneBytes(z, Refs(refTime, refGpuTime));
      NineParts(w, ToSigned(d.cpuStart - refTime, 8), ToSigned(d.gpuStart - refGpuTime, 8), ToSigned(d.srcloc, 2),
                ToBytes(d.callstack, 3), ToBytes(d.thread, 2), TimelineBytes(z.children, StartOf(z)),
                ToSigned(d.cpuEnd - s.cpu, 8), ToSigned(d.gpuEnd - s.gpu, 8), ToBytes(d.queryId, 2));
    }

    /** Reads size zones into a list. */
    method ReadTimeline(f: R.FileRead, size: int, refTime: int, refGpuTime: int, oldIdx: int, hasQueryId: bool,
        ghost zs: seq<Zone>, ghost more: seq<seq<Byte>>, ghost end: int)
      returns (vec: seq<ZoneEvent>, cpu: int, gpu: int, childIdx: int)
      requires zs != [] && size == |zs| && AllStorable(zs, hasQueryId) && InTime(refTime) && InTime(refGpuTime)
      requires Ahead(f, FieldsOf(zs, Refs(refTime, refGpuTime), hasQueryId) + more, end)
      requires Room(gpuChildren, oldIdx, Laid(zs, oldIdx).1)
      modifies this, f
      ensures Ahead(f, more, end) && f.trace == old(f.trace)
      ensures vec == Laid(zs, oldIdx).0 && childIdx == oldIdx + |Laid(zs, oldIdx).1|
      ensures Refs(cpu, gpu) == RefsAfter(zs, Refs(refTime, refGpuTime))
      ensures gpuChildren == Put(old(gpuChildren), oldIdx, Laid(zs, oldIdx).1)
      decreases zs
    {
      hide *;
      cpu, gpu, childIdx, vec := refTime, refGpuTime, oldIdx, [];
      ghost var first := Refs(refTime, refGpuTime);
      ghost var done: Table<GpuData> := [];
      LaidStart(zs, oldIdx, gpuChildren);
      RefsStart(zs, first);
      assert zs[0..] == zs;
      var i := 0;
      while i != size
        invariant 0 <= i <= size && f.trace == old(f.trace) && InTime(cpu) && InTime(gpu)
        invariant Ahead(f, FieldsOf(zs[i..], Refs(cpu, gpu), hasQueryId) + more, end)
        invariant Refs(cpu, gpu) == RefsAfter(zs[..i], first)
        invariant childIdx == oldIdx + |done| && LaidSoFar(zs, i, oldIdx, vec, done)
        invariant gpuChildren == Put(old(gpuChildren), oldIdx, done)
      {
        LaidStep(zs, i, oldIdx, vec, done, old(gpuChildren));
        FieldsFrom(zs, i, Refs(cpu, gpu), hasQueryId);
        Regroup3(ZoneFields(zs[i], Refs(cpu, gpu), hasQueryId), FieldsOf(zs[i + 1..], EndOf(zs[i]), hasQueryId), more);
        StorableAt(zs, i, hasQueryId);
        var event;
        event, cpu, gpu, childIdx := ReadZone(f, cpu, gpu, childIdx, hasQueryId, zs[i],
                                              FieldsOf(zs[i + 1..], EndOf(zs[i]), hasQueryId) + more, end);
        vec := vec + [event];
        done := done + ListsOf(zs[i], oldIdx + |done|);
        RefsNext(zs, i, first);
        i := i + 1;
      }
      LaidAll(zs, oldIdx, vec, done);
      assert zs[i..] == [] && zs[..i] == zs;
      NoneLeft(Refs(cpu, gpu), hasQueryId, more);
    }

    method ReadZone(f: R.FileRead, refTime: int, refGpuTime: int, oldIdx: int, hasQueryId: bool, ghost z: Zone,
        ghost more: seq<seq<Byte>>, ghost end: int) returns (event: ZoneEvent, cpu: int, gpu: int, childIdx: int)
      requires Storable(z, hasQueryId) && InTime(refTime) && InTime(refGpuTime)
      requires Ahead(f, ZoneFields(z, Refs(refTime, refGpuTime), hasQueryId) + more, end)
      requires Room(gpuChildren, oldIdx, ListsOf(z, oldIdx))
      modifies this, f
      ensures Ahead(f, more, end) && f.trace == old(f.trace)
      ensures event == EventOf(z, oldIdx) && childIdx == oldIdx + |ListsOf(z, oldIdx)|
      ensures Refs(cpu, gpu) == EndOf(z) && InTime(cpu) && InTime(gpu)
      ensures gpuChildren == Put(old(gpuChildren), oldIdx, ListsOf(z, oldIdx))
      decreases z, 1
    {
      hide *;
      ghost var r := Refs(refTime, refGpuTime);
      ZonePieces(z, r, hasQueryId, more);
      HeadDecodes(z, r, hasQueryId);
      EndDecodes(z, hasQueryId);
      ZoneFacts(z, hasQueryId);
      ghost var tail := EndFields(z) + (QueryField(z, hasQueryId) + more);
      var head := Take(f, [8, 8, 2, 3, 2, 8], HeadFields(z, r), FieldsOf(z.children, StartOf(z), hasQueryId) + tail, end);
      var cpuStart, gpuStart := refTime + FromSigned(head[0]), refGpuTime + FromSigned(head[1]);
      var child;
      child, cpu, gpu, childIdx := ReadTimelineHaveSize(f, cpuStart, gpuStart, oldIdx, FromBytes(head[5]), hasQueryId, z, tail, end);
      var ends := Take(f, [8, 8], EndFields(z), QueryField(z, hasQueryId) + more, end);
      cpu, gpu := cpu + FromSigned(ends[0]), gpu + FromSigned(ends[1]);
      var queryId := 0;
      if hasQueryId {
        var query := Take(f, [2], QueryField(z, true), more, end);
        queryId := FromBytes(query[0]);
      } else {
        NoQueryField(z, more);
      }
      event := Event(GpuData(cpuStart, gpuStart, cpu, gpu, FromSigned(head[2]), FromBytes(head[3]), FromBytes(head[4]), queryId), child);
      EventFields(z, oldIdx, event);
    }

    method ReadTimelineHaveSize(f: R.FileRead, refTime: int, refGpuTime: int, oldIdx: int, sz: int, hasQueryId: bool, ghost z: Zone,
        ghost more: seq<seq<Byte>>, ghost end: int) returns (child: int, cpu: int, gpu: int, childIdx: int)
      requires Storable(z, hasQueryId) && Refs(refTime, refGpuTime) == StartOf(z) && sz == |z.children|
      requires Ahead(f, FieldsOf(z.children, StartOf(z), hasQueryId) + more, end)
      requires Room(gpuChildren, oldIdx, ListsOf(z, oldIdx))
      modifies this, f
      ensures Ahead(f, more, end) && f.trace == old(f.trace)
      ensures child == EventOf(z, oldIdx).child && childIdx == oldIdx + |ListsOf(z, oldIdx)|
      ensures Refs(cpu, gpu) == RefsAfter(z.children, StartOf(z))
      ensures gpuChildren == Put(old(gpuChildren), oldIdx, ListsOf(z, oldIdx))
      decreases z, 0
    {
      hide *;
      ZoneFacts(z, hasQueryId);
      if sz == 0 {
        NoChildren(z, hasQueryId, more);
        NoLists(z, oldIdx, gpuChildren);
        child, cpu, gpu, childIdx := -1, refTime, refGpuTime, oldIdx;
      } else {
        var idx := oldIdx;
        childIdx := oldIdx + 1;
        SomeLists(z, oldIdx, gpuChildren);
        var list;
        list, cpu, gpu, childIdx := ReadTimeline(f, sz, refTime, refGpuTime, childIdx, hasQueryId, z.children, more, end);
        gpuChildren := gpuChildren[idx := list];
        child := idx;
      }
    }
  }

  lemma TimelineParts(w: seq<Byte>, zs: seq<Zone>, r: Refs)
    ensures w + ToBytes(|zs|, 8) + Flat(FieldsOf(zs, r, true)) == w + TimelineBytes(zs, r)
  {
    hide ToBytes, Flat, FieldsOf;
    assert w + ToBytes(|zs|, 8) + Flat(FieldsOf(zs, r, true)) == w + (ToBytes(|zs|, 8) + Flat(FieldsOf(zs, r, true)));
  }

  lemma EmptyTimeline(r: Refs)
    ensures TimelineBytes([], r) == ToBytes(0, 8) && RefsAfter([], r) == r
  {
    hide ToBytes;
    FlatNothing();
  }

  lemma NothingLeft(r: Refs)
    ensures Flat(FieldsOf([], r, true)) == []
  {
  }

  lemma NoneLeft(r: Refs, hasQueryId: bool, more: seq<seq<Byte>>)
    ensures FieldsOf([], r, hasQueryId) + more == more
  {
  }

  lemma RefsStart(zs: seq<Zone>, r: Refs)
    ensures RefsAfter(zs[..0], r) == r
  {
  }

  lemma RefsNext(zs: seq<Zone>, i: int, r: Refs)
    requires 0 <= i < |zs|
    ensures RefsAfter(zs[..i + 1], r) == EndOf(zs[i])
  {
  }

  lemma StorableAt(zs: seq<Zone>, i: int, hasQueryId: bool)
    requires AllStorable(zs, hasQueryId) && 0 <= i < |zs|
    ensures Storable(zs[i], hasQueryId)
  {
  }

  lemma ZoneFacts(z: Zone, hasQueryId: bool)
    requires Storable(z, hasQueryId)
    ensures AllStorable(z.children, hasQueryId) && InTime(z.data.cpuStart) && InTime(z.data.gpuStart)
    ensures StartOf(z) == Refs(z.data.cpuStart, z.data.gpuStart) && EndOf(z) == Refs(z.data.cpuEnd, z.data.gpuEnd)
  {
  }

  lemma ZonePieces(z: Zone, r: Refs, hasQueryId: bool, more: seq<seq<Byte>>)
    ensures ZoneFields(z, r, hasQueryId) + more
            == HeadFields(z, r) + (FieldsOf(z.children, StartOf(z), hasQueryId) + (EndFields(z) + (QueryField(z, hasQueryId) + more)))
  {
    hide FieldsOf, HeadFields, EndFields, QueryField;
    var h, c, e, q := HeadFields(z, r), FieldsOf(z.children, StartOf(z), hasQueryId), EndFields(z), QueryField(z, hasQueryId);
    Regroup3(h + c, e + q, more);
    Regroup3(e, q, more);
    Regroup3(h, c, e + (q + more));
  }

  lemma HeadDecodes(z: Zone, r: Refs, hasQueryId: bool)
    requires Storable(z, hasQueryId) && InTime(r.cpu) && InTime(r.gpu)
    ensures var head := HeadFields(z, r);
            && |head| == 6 && (forall k :: 0 <= k < 6 ==> |head[k]| == [8, 8, 2, 3, 2, 8][k])
            && FromSigned(head[0]) == z.data.cpuStart - r.cpu && FromSigned(head[1]) == z.data.gpuStart - r.gpu
            && FromSigned(head[2]) == z.data.srcloc && FromBytes(head[3]) == z.data.callstack
            && FromBytes(head[4]) == z.data.thread && FromBytes(head[5]) == |z.children|
  {
    hide ToBytes, ToSigned, FromBytes, FromSigned;
    Powers();
    SignedRoundTrip(z.data.cpuStart - r.cpu, 8);
    SignedRoundTrip(z.data.gpuStart - r.gpu, 8);
    SignedRoundTrip(z.data.srcloc, 2);
    BytesRoundTrip(z.data.callstack, 3);
    BytesRoundTrip(z.data.thread, 2);
    BytesRoundTrip(|z.children|, 8);
  }

  lemma EndDecodes(z: Zone, hasQueryId: bool)
    requires Storable(z, hasQueryId)
    ensures var ends, r := EndFields(z), RefsAfter(z.children, StartOf(z));
            && |ends| == 2 && |ends[0]| == 8 && |ends[1]| == 8
            && r.cpu + FromSigned(ends[0]) == z.data.cpuEnd && r.gpu + FromSigned(ends[1]) == z.data.gpuEnd
    ensures EndOf(z) == Refs(z.data.cpuEnd, z.data.gpuEnd) && InTime(z.data.cpuEnd) && InTime(z.data.gpuEnd)
    ensures hasQueryId ==> var q := QueryField(z, true); |q| == 1 && |q[0]| == 2 && FromBytes(q[0]) == z.data.queryId
    ensures !hasQueryId ==> z.data.queryId == 0
  {
    hide ToBytes, ToSigned, FromBytes, FromSigned;
    Powers();
    var r := RefsAfter(z.children, StartOf(z));
    assert z.children != [] ==> Storable(z.children[|z.children| - 1], hasQueryId);
    SignedRoundTrip(z.data.cpuEnd - r.cpu, 8);
    SignedRoundTrip(z.data.gpuEnd - r.gpu, 8);
    if hasQueryId {
      BytesRoundTrip(z.data.queryId, 2);
    }
  }

  lemma NoQueryField(z: Zone, more: seq<seq<Byte>>)
    ensures QueryField(z, false) + more == more
  {
  }

  lemma EventFields(z: Zone, idx: int, e: ZoneEvent)
    requires e.data == z.data && e.child == EventOf(z, idx).child
    ensures e == EventOf(z, idx)
  {
  }

  lemma NoChildren(z: Zone, hasQueryId: bool, more: seq<seq<Byte>>)
    requires |z.children| == 0
    ensures RefsAfter(z.children, StartOf(z)) == StartOf(z) && FieldsOf(z.children, StartOf(z), hasQueryId) + more == more
  {
  }

  /** Saves the zones of one thread of a context to a file of its own. */
  method Save(codec: Codec, kind: Byte, streams: Byte, table: Table<GpuData>, vec: seq<ZoneEvent>, ghost zs: seq<Zone>)
    returns (file: seq<Byte>, cpu: int, gpu: int)
    requires streams > 0 && Represents(table, vec, zs) && AllStorable(zs, true)
    ensures file == FileOf(codec, kind, streams, TimelineBytes(zs, Refs(0, 0))) && Refs(cpu, gpu) == RefsAfter(zs, Refs(0, 0))
  {
    hide *;
    var worker := new GpuWorker(table);
    var f := new W.FileWrite(codec, kind, streams);
    cpu, gpu := worker.WriteTimeline(f, vec, 0, 0, zs);
    assert [] + TimelineBytes(zs, Refs(0, 0)) == TimelineBytes(zs, Refs(0, 0));
    f.Finish();
    file := f.file;
  }

  /** Loads what was saved: the same forest, its child lists in pre-order, both reference times the
      writer's, and every byte read. */
  method Load(codec: Codec, file: seq<Byte>, tableSize: int, ghost kind: Byte, ghost streams: Byte, ghost zs: seq<Zone>)
    returns (worker: GpuWorker, roots: seq<ZoneEvent>, cpu: int, gpu: int, f: R.FileRead)
    requires streams > 0 && kind <= 1 && Undoes(codec) && file == FileOf(codec, kind, streams, TimelineBytes(zs, Refs(0, 0)))
    requires AllStorable(zs, true) && |zs| < Pow256(8) && |Laid(zs, 0).1| <= tableSize
    ensures Represents(worker.gpuChildren, roots, zs) && Refs(cpu, gpu) == RefsAfter(zs, Refs(0, 0))
    ensures roots == Laid(zs, 0).0 && Holds(worker.gpuChildren, 0, Laid(zs, 0).1) && |worker.gpuChildren| == tableSize
    ensures f.Valid() && |f.out| == |f.Stream()|
  {
    hide *;
    ghost var zero := Refs(0, 0);
    ghost var data, fields := TimelineBytes(zs, zero), FieldsOf(zs, zero, true);
    DataParts(zs);
    R.FileDecodes(codec, kind, streams, data);
    HeaderParses(codec, kind, streams, data);
    TraceParts(codec, kind, streams, data);
    var parsed := ParseHeader(file);
    f := new R.FileRead(codec, file, parsed.streams, parsed.dataOffset, R.TraceOf(codec, kind, streams, data));
    StreamIs(f);
    AtStart(data);
    IsAhead(f, [ToBytes(|zs|, 8)] + fields, |data|);
    worker := new GpuWorker(seq(tableSize, _ => []));
    var got := Take(f, [8], [ToBytes(|zs|, 8)], fields, |data|);
    SizeDecodes(zs);
    var tsz := FromBytes(got[0]);
    roots, cpu, gpu := [], 0, 0;
    NoZones(zs, worker.gpuChildren);
    if tsz != 0 {
      assert fields + [] == fields;
      ghost var before := worker.gpuChildren;
      StartRoom(before, Laid(zs, 0).1);
      var next;
      roots, cpu, gpu, next := worker.ReadTimeline(f, tsz, 0, 0, 0, true, zs, [], |data|);
      PutHolds(before, 0, Laid(zs, 0).1);
    }
    assert tsz == 0 ==> fields == [];
    NothingAhead(f, |data|);
    StreamIs(f);
    LaidRepresents(zs, 0, worker.gpuChildren);
  }

  lemma DataParts(zs: seq<Zone>)
    ensures TimelineBytes(zs, Refs(0, 0)) == Flat([ToBytes(|zs|, 8)] + FieldsOf(zs, Refs(0, 0), true))
    ensures TimelineBytes(zs, Refs(0, 0)) != []
  {
    hide Flat, FieldsOf, ToBytes;
    FlatAppend([ToBytes(|zs|, 8)], FieldsOf(zs, Refs(0, 0), true));
    OneField(ToBytes(|zs|, 8));
  }

  lemma SizeDecodes(zs: seq<Zone>)
    requires |zs| < Pow256(8)
    ensures FromBytes(ToBytes(|zs|, 8)) == |zs| && |ToBytes(|zs|, 8)| == 8
  {
    hide ToBytes, FromBytes, Pow256;
    BytesRoundTrip(|zs|, 8);
  }

  lemma NoZones(zs: seq<Zone>, table: Table<GpuData>)
    ensures |zs| == 0 ==>
              && Laid(zs, 0) == ([], []) && Holds(table, 0, []) && RefsAfter(zs, Refs(0, 0)) == Refs(0, 0)
              && FieldsOf(zs, Refs(0, 0), true) == []
    ensures InTime(0)
  {
  }
}
