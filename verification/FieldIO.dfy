/** Fields of fixed sizes, and times kept as differences, in the file pipeline. */
module FieldIO {
  import opened Bytes
  import opened FileFormat
  import R = FileRead
  import W = FileWrite

  /** Times are kept in 48 bits. */
  const TIME_LIMIT := 0x8000_0000_0000

  ghost predicate InTime(t: int) {
    -TIME_LIMIT <= t < TIME_LIMIT
  }

  method WriteTimeOffset(f: W.FileWrite, refTime: int, time: int) returns (newRef: int)
    requires f.Valid()
    modifies f
    ensures f.Valid() && f.written == old(f.written) + ToSigned(time - refTime, 8) && newRef == time
    ensures |f.streams| == |old(f.streams)|
    ensures LowFirst(ToSigned(time - refTime, 8), time - refTime)
  {
    hide *;
    SignedLowFirst(time - refTime, 8);
    var timeOffset := time - refTime;
    newRef := refTime + timeOffset;
    f.Write(ToSigned(timeOffset, 8));
  }

  lemma {:induction false} FlatAppend(p: seq<seq<Byte>>, q: seq<seq<Byte>>)
    ensures Flat(p + q) == Flat(p) + Flat(q)
    decreases |q|
  {
    hide Flat;
    if q == [] {
      assert p + q == p;
      FlatNothing();
    } else {
      var rest, x := q[..|q| - 1], q[|q| - 1];
      FlatAppend(p, rest);
      assert q == rest + [x] && p + q == (p + rest) + [x];
      FlatPush(p + rest, x);
      FlatPush(rest, x);
      assert Flat(p) + Flat(rest) + x == Flat(p) + (Flat(rest) + x);
    }
  }

  lemma FlatNothing()
    ensures Flat([]) == []
  {
  }

  /** Pieces of the same sizes that make up the same bytes are the same. */
  lemma {:induction false} SamePieces(p: seq<seq<Byte>>, q: seq<seq<Byte>>)
    requires |p| == |q| && Flat(p) == Flat(q)
    requires forall i :: 0 <= i < |p| ==> |p[i]| == |q[i]|
    ensures p == q
    decreases |p|
  {
    if p != [] {
      var last := |p| - 1;
      assert Flat(p)[|Flat(p)| - |p[last]|..] == p[last];
      assert Flat(q)[|Flat(q)| - |q[last]|..] == q[last];
      assert Flat(p)[..|Flat(p)| - |p[last]|] == Flat(p[..last]);
      assert Flat(q)[..|Flat(q)| - |q[last]|] == Flat(q[..last]);
      SamePieces(p[..last], q[..last]);
      assert p == p[..last] + [p[last]] && q == q[..last] + [q[last]];
    }
  }

  /** The next bytes of the stream are these fields, and they end at the given place. */
  ghost predicate Ahead(f: R.FileRead, fields: seq<seq<Byte>>, end: int)
    reads f
  {
    && f.Valid() && |f.out| + |Flat(fields)| == end <= |f.Stream()|
    && f.Stream()[|f.out|..end] == Flat(fields)
  }

  lemma AheadParts(f: R.FileRead, p: seq<seq<Byte>>, q: seq<seq<Byte>>, end: int)
    requires Ahead(f, p + q, end)
    ensures f.Valid() && |f.out| + |Flat(p)| <= end <= |f.Stream()|
    ensures f.Stream()[|f.out|..|f.out| + |Flat(p)|] == Flat(p)
    ensures |f.out| + |Flat(p)| + |Flat(q)| == end && f.Stream()[|f.out| + |Flat(p)|..end] == Flat(q)
  {
    hide *;
    AheadMeans(f, p + q, end);
    FlatAppend(p, q);
    SliceParts(f.Stream(), |f.out|, Flat(p), Flat(q), end);
  }

  lemma AheadMeans(f: R.FileRead, fields: seq<seq<Byte>>, end: int)
    requires Ahead(f, fields, end)
    ensures f.Valid() && |f.out| + |Flat(fields)| == end <= |f.Stream()| && f.Stream()[|f.out|..end] == Flat(fields)
  {
    hide Flat;
  }

  lemma SliceParts(s: seq<Byte>, at: int, p: seq<Byte>, q: seq<Byte>, end: int)
    requires 0 <= at && at + |p + q| == end <= |s| && s[at..end] == p + q
    ensures s[at..at + |p|] == p && s[at + |p|..end] == q
  {
    var r := s[at..end];
    assert r[..|p|] == p && r[|p|..] == q;
    assert s[at..at + |p|] == r[..|p|] && s[at + |p|..end] == r[|p|..];
  }

  lemma SizesSum(fields: seq<seq<Byte>>, sizes: seq<nat>)
    requires |fields| == |sizes| && forall i :: 0 <= i < |fields| ==> |fields[i]| == sizes[i]
    ensures |Flat(fields)| == R.Sum(sizes)
    decreases |fields|
  {
    if fields == [] {
    } else {
      assert fields == [fields[0]] + fields[1..];
      FlatAppend([fields[0]], fields[1..]);
      assert Flat([fields[0]]) == fields[0] by { OneField(fields[0]); }
      SizesSum(fields[1..], sizes[1..]);
    }
  }

  lemma OneField(field: seq<Byte>)
    ensures Flat([field]) == field
  {
    FlatNothing();
    assert [field][..0] == [];
  }

  /** Reads the next few fields at once. */
  method Take(f: R.FileRead, sizes: seq<nat>, ghost fields: seq<seq<Byte>>, ghost more: seq<seq<Byte>>, ghost end: int)
    returns (got: seq<seq<Byte>>)
    requires Ahead(f, fields + more, end)
    requires |fields| == |sizes| && forall i :: 0 <= i < |fields| ==> |fields[i]| == sizes[i]
    modifies f
    ensures got == fields && Ahead(f, more, end) && f.trace == old(f.trace)
  {
    hide *;
    AheadParts(f, fields, more, end);
    SizesSum(fields, sizes);
    StreamIs(f);
    got := f.ReadFields(sizes);
    StreamIs(f);
    SamePieces(got, fields);
    IsAhead(f, more, end);
  }

  lemma StreamIs(f: R.FileRead)
    ensures f.Stream() == Flat(f.trace.blocks)
  {
  }

  lemma IsAhead(f: R.FileRead, fields: seq<seq<Byte>>, end: int)
    requires f.Valid() && |f.out| + |Flat(fields)| == end <= |f.Stream()| && f.Stream()[|f.out|..end] == Flat(fields)
    ensures Ahead(f, fields, end)
  {
  }

  lemma FourFields(a: seq<Byte>, b: seq<Byte>, c: seq<Byte>, d: seq<Byte>)
    ensures Flat([a, b, c, d]) == a + b + c + d
  {
    hide Flat;
    OneField(a);
    FlatPush([a], b);
    FlatPush([a, b], c);
    FlatPush([a, b, c], d);
    assert [a] + [b] == [a, b] && [a, b] + [c] == [a, b, c] && [a, b, c] + [d] == [a, b, c, d];
  }

  lemma Regroup(p: seq<Byte>, q: seq<Byte>, r: seq<Byte>, s: seq<Byte>)
    ensures p + q + (r + s) == p + (q + r) + s
  {
  }

  lemma Regroup4<X>(p: seq<X>, q: seq<X>, r: seq<X>, s: seq<X>)
    ensures p + q + r + s == p + (q + (r + s))
  {
  }

  lemma FiveParts(w: seq<Byte>, a: seq<Byte>, b: seq<Byte>, c: seq<Byte>, d: seq<Byte>, e: seq<Byte>)
    ensures w + a + b + c + d + e == w + (a + b + c + d + e)
  {
  }

  /** The byte stream of a saved file is what is ahead of a reader that has just opened it. */
  lemma AtStart(data: seq<Byte>)
    ensures data[0..|data|] == data
  {
  }

  lemma TraceParts(codec: Codec, kind: Byte, streams: Byte, data: seq<Byte>)
    requires streams > 0
    ensures var t := R.TraceOf(codec, kind, streams, data);
            t.header == Header(kind, streams) && |t.chunks| == |t.blocks|
    ensures data != [] ==> |R.TraceOf(codec, kind, streams, data).chunks| > 0
  {
    if data != [] {
      assert |Divide(data)| > 0;
    }
  }

  lemma NothingAhead(f: R.FileRead, end: int)
    requires Ahead(f, [], end)
    ensures f.Valid() && |f.out| == end <= |f.Stream()|
  {
    FlatNothing();
  }
}
