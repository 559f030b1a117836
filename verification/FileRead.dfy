/** The consumer's side of the reading pipeline, run against workers that act when it waits for them. */
module FileRead {
  import opened Bytes
  import opened FileFormat
  import opened ReaderSteps
  import RoundRobin

  /** What the file of a byte stream holds. */
  ghost function TraceOf(codec: Codec, kind: Byte, streams: Byte, data: seq<Byte>): Trace
    requires streams > 0
  {
    Trace(Header(kind, streams), Chunks(codec, streams, Divide(data)), Divide(data))
  }

  /** A file holds as many decoders' worth of chunks as it names streams, or one each if it is shorter. */
  lemma FileDecodes(codec: Codec, kind: Byte, streams: Byte, data: seq<Byte>)
    requires streams > 0 && Undoes(codec) && data != []
    ensures var t := TraceOf(codec, kind, streams, data); var n := Min(streams, |t.blocks|);
            && n > 0 && Decodes(codec, n, t) && FileOf(codec, kind, streams, data) == t.header + Frames(t.chunks)
            && Flat(t.blocks) == data
  {
    hide Undoes, Divide, Divided, Flat, Frames, Past, Pow256;
    DivideIsDivided(data);
    assert Divide(data) != [] by { assert Flat([]) == [] by { NothingFlat(); } }
    var t := TraceOf(codec, kind, streams, data);
    var n := Min(streams, |t.blocks|);
    forall i | 0 <= i < |t.blocks|
      ensures |t.chunks[i]| < Pow256(4) && codec.dec(Past(t.chunks, i, n), t.chunks[i]) == t.blocks[i]
    {
      SmallBlock(t.blocks, i);
      DecodesBlock(codec, streams, t.blocks, i);
      FewerStreams(t.chunks, i, streams, n);
    }
  }

  lemma NothingFlat()
    ensures Flat([]) == []
  {
  }

  lemma SmallBlock(blocks: seq<Block>, i: int)
    requires Divided(blocks) && 0 <= i < |blocks|
    ensures |blocks[i]| <= FILE_BUF_SIZE
  {
  }

  lemma FewerStreams(chunks: seq<Block>, i: int, streams: int, n: int)
    requires 0 < streams && 0 <= i < |chunks| && n == Min(streams, |chunks|)
    ensures Past(chunks, i, n) == Past(chunks, i, streams)
  {
  }

  /** Gives each stream its first chunk, until there are enough streams or no more chunks. */
  method OpenStreams(codec: Codec, data: seq<Byte>, numStreams: int, firstOffset: int, ghost t: Trace)
    returns (handles: seq<Handle>, at: int)
    requires numStreams > 0 && firstOffset == |t.header| && data == t.header + Frames(t.chunks)
    requires |t.chunks| > 0 && Decodes(codec, Min(numStreams, |t.chunks|), t)
    ensures |handles| == Min(numStreams, |t.chunks|)
    ensures handles == Start(codec, t, |handles|).handles && at == Start(codec, t, |handles|).dataOffset
  {
    hide Decodes, Frames, SizeAt, ChunkAt;
    at, handles := firstOffset, [];
    ghost var n := Min(numStreams, |t.chunks|);
    assert t.chunks[..0] == [] && t.header + Frames([]) == t.header by { NoFrames(t.header); }
    OffsetBelow(codec, n, t, data, 0);
    var i := 0;
    while i < numStreams && at != |data|
      invariant 0 <= i <= n && at == |t.header + Frames(t.chunks[..i])| <= |data|
      invariant |handles| == i && forall s :: 0 <= s < i ==> handles[s] == OpenedHandle(t.chunks[s], s)
      invariant at != |data| <==> i < |t.chunks|
      decreases numStreams - i
    {
      ChunkFacts(codec, n, t, data, i);
      handles := handles + [OpenedHandle(ChunkAt(data, at), i)];
      at := at + 4 + SizeAt(data, at);
      i := i + 1;
      OffsetBelow(codec, n, t, data, i);
    }
  }

  lemma NoFrames(front: seq<Byte>)
    ensures front + Frames([]) == front
  {
  }

  class FileRead {
    const codec: Codec
    const data: seq<Byte>
    var streams: seq<Handle>
    var dataOffset: int
    var streamId: int
    /** The buffer being read: one of the two of a stream. */
    var bufStream: int
    var bufFront: bool
    var offset: int
    ghost var trace: Trace
    ghost var taken: int
    ghost var fed: int
    ghost var out: seq<Byte>

    ghost function State(pc: Pc): Reader
      reads this
    {
      Reader(codec, data, dataOffset, streams, streamId, bufStream, bufFront, offset, pc, taken, fed, out)
    }

    ghost predicate Valid()
      reads this
    {
      Inv(trace, State(Reading))
    }

    /** The byte stream the file holds. */
    ghost function Stream(): seq<Byte>
      reads this
    {
      Flat(trace.blocks)
    }

    /** Opens a file: every stream gets its first chunk, as far as there are any, and the first block
        is waited for. A file without blocks cannot be opened: there is no stream to wait for. */
    constructor (codec: Codec, data: seq<Byte>, numStreams: int, firstOffset: int, ghost t: Trace)
      requires numStreams > 0 && firstOffset == |t.header| && data == t.header + Frames(t.chunks)
      requires |t.chunks| > 0 && Decodes(codec, Min(numStreams, |t.chunks|), t)
      ensures Valid() && trace == t && out == []
    {
      this.codec, this.data := codec, data;
      this.trace := t;
      var handles, at := OpenStreams(codec, data, numStreams, firstOffset, t);
      this.streams, this.dataOffset, this.streamId := handles, at, 0;
      this.bufStream, this.bufFront, this.offset := 0, true, 0;
      this.taken, this.fed, this.out := 0, |handles|, [];
      new;
      StartInv(codec, t, |handles|);
      GetNextDataBlock();
    }

    /** Waits for the current stream's block, takes its buffer, hands the stream its next chunk and moves on. */
    method GetNextDataBlock()
      requires Inv(trace, State(Getting))
      modifies this`streams, this`dataOffset, this`streamId, this`bufStream, this`bufFront, this`offset, this`taken, this`fed
      ensures Valid() && offset == 0
    {
      hide Inv;
      AwaitOutput();
      TakeBuffer();
      FeedStream();
    }

    method AwaitOutput()
      requires Inv(trace, State(Getting))
      modifies this`streams
      ensures Inv(trace, State(Getting)) && |streams| == |old(streams)| && 0 <= streamId < |streams| && streams[streamId].outputReady
    {
      hide Inv;
      Bounds(trace, State(Getting));
      while !streams[streamId].outputReady
        invariant Inv(trace, State(Getting)) && |streams| == |old(streams)| && 0 <= streamId < |streams|
        decreases StepsLeft(streams[streamId])
      {
        ghost var r := State(Getting);
        Bounds(trace, r);
        WaitingWorks(trace, r);
        streams := streams[streamId := Worked(codec, streams[streamId])];
        StepKeepsInv(trace, r, Event.Work(streamId));
        assert State(Getting) == DoWork(r, streamId);
        assert StepsLeft(streams[streamId]) >= 0;
      }
    }

    method TakeBuffer()
      requires Inv(trace, State(Getting)) && 0 <= streamId < |streams| && streams[streamId].outputReady
      modifies this`streams, this`bufStream, this`bufFront, this`offset
      ensures Inv(trace, State(Feeding)) && |streams| == |old(streams)| && offset == 0
    {
      hide Inv;
      ghost var r := State(Getting);
      Bounds(trace, r);
      streams := streams[streamId := streams[streamId].(outputReady := false)];
      bufStream, bufFront := streamId, streams[streamId].front;
      offset := 0;
      StepKeepsInv(trace, r, Event.Await);
      assert State(Feeding) == DoAwait(r);
    }

    method FeedStream()
      requires Inv(trace, State(Feeding))
      modifies this`streams, this`dataOffset, this`streamId, this`taken, this`fed
      ensures Valid()
    {
      hide Inv, SizeAt, ChunkAt;
      ghost var r := State(Feeding);
      Bounds(trace, r);
      StepKeepsInv(trace, r, Event.Feed);
      var h := streams[streamId].(job := streams[streamId].job + |streams|);
      if dataOffset < |data| {
        h := h.(src := ChunkAt(data, dataOffset), inputReady := true);
        dataOffset := dataOffset + 4 + SizeAt(data, dataOffset);
        fed := fed + 1;
      }
      streams := streams[streamId := h];
      streamId := (streamId + 1) % |streams|;
      taken := taken + 1;
      assert State(Reading) == DoFeed(r);
    }

    /** Copies bytes out of the buffer that is being read. */
    method ReadSmall(size: int) returns (bytes: seq<Byte>)
      requires Valid() && 0 <= size <= FILE_BUF_SIZE - offset && |out| + size <= |Stream()|
      modifies this`offset, this`out
      ensures Valid() && out == old(out) + bytes && |bytes| == size && offset == old(offset) + size
      ensures old(0 <= bufStream < |streams| && offset >= 0 && offset + size <= |streams[bufStream].Buffer(bufFront)|
                  && bytes == streams[bufStream].Buffer(bufFront)[offset..offset + size])
    {
      hide Inv;
      ghost var r := State(Reading);
      Bounds(trace, r);
      InsideBlock(trace, r, size);
      bytes := streams[bufStream].Buffer(bufFront)[offset..offset + size];
      offset := offset + size;
      out := out + bytes;
      StepKeepsInv(trace, r, Consume(size));
      assert State(Reading) == DoConsume(r, size);
    }

    /** The next size bytes of the stream. */
    method Read(size: int) returns (bytes: seq<Byte>)
      requires Valid() && 0 <= size && |out| + size <= |Stream()|
      modifies this
      ensures Valid() && trace == old(trace) && out == old(out) + bytes
      ensures bytes == Stream()[|old(out)|..|old(out)| + size]
    {
      hide Inv;
      Bounds(trace, State(Reading));
      if size <= FILE_BUF_SIZE - offset {
        bytes := ReadSmall(size);
      } else {
        bytes := ReadBig(size);
      }
      Slice(trace, State(Reading), old(out), bytes);
    }

    method ReadBig(size: int) returns (bytes: seq<Byte>)
      requires Valid() && 0 < size && |out| + size <= |Stream()|
      modifies this
      ensures Valid() && trace == old(trace) && out == old(out) + bytes && |bytes| == size
    {
      hide Inv;
      bytes := [];
      var left := size;
      while left > 0
        invariant Valid() && trace == old(trace) && 0 <= left <= size && |bytes| == size - left && out == old(out) + bytes
        decreases left
      {
        Bounds(trace, State(Reading));
        var sz, part;
        if offset == FILE_BUF_SIZE {
          sz := if left < FILE_BUF_SIZE then left else FILE_BUF_SIZE;
          NextBlock();
          part := ReadSmall(sz);
        } else {
          sz := if left < FILE_BUF_SIZE - offset then left else FILE_BUF_SIZE - offset;
          part := ReadSmall(sz);
        }
        assert old(out) + bytes + part == old(out) + (bytes + part);
        bytes := bytes + part;
        left := left - sz;
      }
    }

    /** A block that has been read to its end is followed by the next one. */
    method NextBlock()
      requires Valid() && offset == FILE_BUF_SIZE && |out| < |Stream()|
      modifies this`streams, this`dataOffset, this`streamId, this`bufStream, this`bufFront, this`offset, this`taken, this`fed
      ensures Valid() && offset == 0
    {
      hide Inv;
      ghost var r := State(Reading);
      Bounds(trace, r);
      BlockFollows(trace, r);
      StepKeepsInv(trace, r, Next);
      assert State(Getting) == r.(pc := Getting);
      GetNextDataBlock();
    }

    /** Several values at once: from the buffer if they all are in it, or else as one read cut up afterwards. */
    method ReadFields(sizes: seq<nat>) returns (fields: seq<seq<Byte>>)
      requires Valid() && |out| + Sum(sizes) <= |Stream()|
      modifies this
      ensures Valid() && trace == old(trace)
      ensures |fields| == |sizes| && forall i :: 0 <= i < |sizes| ==> |fields[i]| == sizes[i]
      ensures Flat(fields) == Stream()[|old(out)|..|old(out)| + Sum(sizes)] && out == old(out) + Flat(fields)
    {
      hide Inv;
      var total := Sum(sizes);
      Bounds(trace, State(Reading));
      var bytes;
      if total <= FILE_BUF_SIZE - offset {
        fields := Cut(streams[bufStream].Buffer(bufFront)[offset..], sizes);
        bytes := ReadSmall(total);
        assert old(streams[bufStream].Buffer(bufFront)[offset..])[..total] == bytes;
      } else {
        bytes := ReadBig(total);
        fields := Cut(bytes, sizes);
        assert bytes[..total] == bytes;
      }
      assert Flat(fields) == bytes;
      Slice(trace, State(Reading), old(out), bytes);
    }

    /** Passes over bytes of the stream. */
    method Skip(size: int)
      requires Valid() && 0 <= size && |out| + size <= |Stream()|
      modifies this
      ensures Valid() && trace == old(trace) && |out| == |old(out)| + size
    {
      hide Inv;
      if size <= FILE_BUF_SIZE - offset {
        ghost var bytes := SkipSmall(size);
      } else {
        SkipBig(size);
      }
    }

    method SkipSmall(size: int) returns (ghost bytes: seq<Byte>)
      requires Valid() && 0 <= size <= FILE_BUF_SIZE - offset && |out| + size <= |Stream()|
      modifies this`offset, this`out
      ensures Valid() && out == old(out) + bytes && |bytes| == size && offset == old(offset) + size
    {
      hide Inv;
      ghost var r := State(Reading);
      Bounds(trace, r);
      InsideBlock(trace, r, size);
      bytes := streams[bufStream].Buffer(bufFront)[offset..offset + size];
      offset := offset + size;
      out := out + bytes;
      StepKeepsInv(trace, r, Consume(size));
      assert State(Reading) == DoConsume(r, size);
    }

    method SkipBig(size: int)
      requires Valid() && 0 <= size && |out| + size <= |Stream()|
      modifies this
      ensures Valid() && trace == old(trace) && |out| == |old(out)| + size
    {
      hide Inv;
      var left := size;
      while left > 0
        invariant Valid() && trace == old(trace) && 0 <= left <= size && |out| == |old(out)| + size - left
        decreases left
      {
        Bounds(trace, State(Reading));
        if offset == FILE_BUF_SIZE {
          NextBlock();
        }
        var sz := if left < FILE_BUF_SIZE - offset then left else FILE_BUF_SIZE - offset;
        ghost var bytes := SkipSmall(sz);
        left := left - sz;
      }
    }
  }

  function Sum(sizes: seq<nat>): nat {
    if sizes == [] then 0 else sizes[0] + Sum(sizes[1..])
  }

  /** The first bytes, cut into fields of the given sizes. */
  method Cut(bytes: seq<Byte>, sizes: seq<nat>) returns (fields: seq<seq<Byte>>)
    requires Sum(sizes) <= |bytes|
    ensures |fields| == |sizes| && forall i :: 0 <= i < |sizes| ==> |fields[i]| == sizes[i]
    ensures Flat(fields) == bytes[..Sum(sizes)]
  {
    fields := [];
    var at, i := 0, 0;
    assert sizes[0..] == sizes;
    while i < |sizes|
      invariant 0 <= i <= |sizes| && |fields| == i && forall k :: 0 <= k < i ==> |fields[k]| == sizes[k]
      invariant 0 <= at && at + Sum(sizes[i..]) == Sum(sizes) && Flat(fields) == bytes[..at]
    {
      assert sizes[i..][1..] == sizes[i + 1..];
      FlatPush(fields, bytes[at..at + sizes[i]]);
      assert bytes[..at] + bytes[at..at + sizes[i]] == bytes[..at + sizes[i]];
      fields := fields + [bytes[at..at + sizes[i]]];
      at := at + sizes[i];
      i := i + 1;
    }
  }

  lemma Bounds(t: Trace, r: Reader)
    requires Inv(t, r)
    ensures WellFormed(r) && Divided(t.blocks) && 0 <= r.taken <= |t.blocks|
    ensures |r.out| <= |Flat(t.blocks)|
  {
    OutIsPrefix(t, r);
  }

  lemma Slice(t: Trace, r: Reader, before: seq<Byte>, bytes: seq<Byte>)
    requires Inv(t, r) && r.out == before + bytes
    ensures |r.out| <= |Flat(t.blocks)| && bytes == Flat(t.blocks)[|before|..|before| + |bytes|]
  {
    hide Inv;
    OutIsPrefix(t, r);
    assert bytes == r.out[|before|..];
  }

  lemma WaitingWorks(t: Trace, r: Reader)
    requires Inv(t, r) && r.pc.Getting? && !r.handles[r.streamId].outputReady
    ensures Enabled(t, r, Event.Work(r.streamId))
    ensures StepsLeft(DoWork(r, r.streamId).handles[r.streamId]) == StepsLeft(r.handles[r.streamId]) - 1
  {
    hide Inv, PhaseOf, Worked;
    CounterFacts(t, r);
    HandleFacts(t, r, r.streamId);
    NextJob(t, r);
    BusyHandle(r.codec, |r.handles|, t, r.handles[r.streamId], r.fed);
  }

  /** As many bytes as are left in the stream and would fit the buffer are in the block being read. */
  lemma InsideBlock(t: Trace, r: Reader, size: int)
    requires Inv(t, r) && r.pc.Reading? && 0 <= size <= FILE_BUF_SIZE - r.offset && |r.out| + size <= |Flat(t.blocks)|
    ensures Enabled(t, r, Consume(size))
  {
    hide Handles, Decodes, Switched, Starts, Flat, Frames;
    CounterFacts(t, r);
    FullBlock(r.codec, |r.handles|, t, r.taken - 1);
    LastBlock(t.blocks, r.taken);
  }

  lemma LastBlock(blocks: seq<Block>, taken: int)
    requires 0 < taken <= |blocks|
    ensures taken == |blocks| ==> |Flat(blocks)| == |Flat(blocks[..taken - 1])| + |blocks[taken - 1]|
  {
  }

  lemma BlockFollows(t: Trace, r: Reader)
    requires Inv(t, r) && r.pc.Reading? && r.offset == FILE_BUF_SIZE && |r.out| < |Flat(t.blocks)|
    ensures Enabled(t, r, Next)
  {
    hide Handles, Decodes, Switched, Starts, Flat, Frames;
    CounterFacts(t, r);
    FullBlock(r.codec, |r.handles|, t, r.taken - 1);
    LastBlock(t.blocks, r.taken);
  }

  lemma ChunkFacts(codec: Codec, n: int, t: Trace, data: seq<Byte>, i: int)
    requires 0 < n && Decodes(codec, n, t) && data == t.header + Frames(t.chunks) && 0 <= i < |t.chunks|
    ensures var at := |t.header + Frames(t.chunks[..i])|;
            && ChunkAt(data, at) == t.chunks[i]
            && at + 4 + SizeAt(data, at) == |t.header + Frames(t.chunks[..i + 1])| <= |data|
  {
    hide Frames;
    SizesAgree(codec, n, t);
    ChunkRead(t, data, |t.header + Frames(t.chunks[..i])|, i);
  }

  lemma OffsetBelow(codec: Codec, n: int, t: Trace, data: seq<Byte>, i: int)
    requires 0 < n && Decodes(codec, n, t) && data == t.header + Frames(t.chunks) && 0 <= i <= |t.chunks|
    ensures |t.header + Frames(t.chunks[..i])| <= |data|
    ensures |t.header + Frames(t.chunks[..i])| != |data| <==> i < |t.chunks|
  {
    hide Frames;
    SizesAgree(codec, n, t);
    ChunkRead(t, data, |t.header + Frames(t.chunks[..i])|, i);
  }
}
