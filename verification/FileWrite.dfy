/** The producer's side of the writing pipeline, run against workers that act when it waits for them. */
module FileWrite {
  import opened Bytes
  import opened FileFormat
  import opened WriterSteps
  import RoundRobin

  class FileWrite {
    const codec: Codec
    const kind: Byte
    var streams: seq<Handle>
    var streamId: int
    var streamPending: int
    /** Which of the current stream's buffers the producer holds, and how much of it is filled. */
    var bufFront: bool
    var offset: int
    var file: seq<Byte>
    ghost var closing: bool
    ghost var blocks: seq<Block>
    ghost var emitted: int
    ghost var written: seq<Byte>

    /** The state of the step system this object is in. */
    ghost function State(pc: Pc, slot: int): Writer
      reads this
    {
      Writer(codec, kind, streams, streamId, streamPending, bufFront, offset, closing, file, pc, slot, blocks, emitted, written)
    }

    ghost predicate Valid()
      reads this
    {
      Inv(State(Filling, 0)) && !closing
    }

    constructor (codec: Codec, kind: Byte, n: Byte)
      requires n > 0
      ensures Valid() && written == [] && |streams| == n && this.codec == codec && this.kind == kind
    {
      this.codec, this.kind := codec, kind;
      file := Header(kind, n);
      streams := seq(n, s => Handle(EmptyBuffer(), EmptyBuffer(), true, [], [], 0, false, false, Waiting, s));
      streamId, streamPending, bufFront, offset := 0, 0, true, 0;
      closing, blocks, emitted, written := false, [], 0, [];
      new;
      StartInv(codec, kind, n);
      assert State(Filling, 0) == Start(codec, kind, n);
    }

    /** Appends bytes to the stream. Bytes that fit the buffer, and be it just, leave it where it is; it is
        handed over when more come. */
    method Write(data: seq<Byte>)
      requires Valid()
      modifies this
      ensures Valid() && written == old(written) + data && |streams| == |old(streams)|
      ensures old(offset) + |data| <= FILE_BUF_SIZE ==> blocks == old(blocks) && offset == old(offset) + |data|
    {
      hide Inv;
      Offsets(State(Filling, 0));
      if offset + |data| <= FILE_BUF_SIZE {
        WriteSmall(data);
      } else {
        WriteBig(data);
      }
    }

    method WriteSmall(data: seq<Byte>)
      requires Valid() && offset + |data| <= FILE_BUF_SIZE
      modifies this`streams, this`offset, this`written
      ensures Valid() && written == old(written) + data && |streams| == |old(streams)| && offset == old(offset) + |data|
    {
      hide Inv, Filled;
      ghost var w := State(Filling, 0);
      Offsets(w);
      streams := streams[streamId := Filled(streams[streamId], bufFront, offset, data)];
      offset := offset + |data|;
      written := written + data;
      StepKeepsInv(w, Fill(data));
      assert State(Filling, 0) == DoFill(w, data);
    }

    method WriteBig(data: seq<Byte>)
      requires Valid()
      modifies this
      ensures Valid() && written == old(written) + data && |streams| == |old(streams)|
    {
      hide Inv;
      var src := data;
      ghost var done: seq<Byte> := [];
      assert written == old(written) + done && data == done + src;
      while |src| > 0
        invariant Valid() && data == done + src && written == old(written) + done && |streams| == |old(streams)|
        decreases |src|, if offset == FILE_BUF_SIZE then 1 else 0
      {
        Offsets(State(Filling, 0));
        var sz := if |src| < FILE_BUF_SIZE - offset then |src| else FILE_BUF_SIZE - offset;
        WriteSmall(src[..sz]);
        assert old(written) + done + src[..sz] == old(written) + (done + src[..sz]);
        assert done + src == done + src[..sz] + src[sz..];
        done, src := done + src[..sz], src[sz..];
        if offset == FILE_BUF_SIZE {
          WriteBlock();
        }
      }
      assert done == data;
    }

    /** Hands the filled buffer to its worker; with all streams busy, waits for the oldest first. */
    method WriteBlock()
      requires Inv(State(Filling, 0)) && if closing then offset > 0 else offset == FILE_BUF_SIZE
      modifies this`streams, this`streamId, this`streamPending, this`bufFront, this`offset, this`file, this`blocks, this`emitted
      ensures Inv(State(Filling, 0)) && offset == 0 && |streams| == |old(streams)|
    {
      hide Inv;
      HandOver();
      if streamPending == |streams| {
        ProcessPending(false);
      }
      NextBuffer();
    }

    method HandOver()
      requires Inv(State(Filling, 0)) && if closing then offset > 0 else offset == FILE_BUF_SIZE
      modifies this`streams, this`streamId, this`streamPending, this`blocks
      ensures |streams| == |old(streams)|
      ensures Inv(State(if streamPending == |streams| then Collecting(false) else Resuming, 0))
    {
      hide Inv;
      ghost var w := State(Filling, 0);
      Offsets(w);
      var h := streams[streamId];
      blocks := blocks + [(if bufFront then h.bufA else h.bufB)[..offset]];
      streams := streams[streamId := h.(inputReady := true, size := offset)];
      streamPending := streamPending + 1;
      streamId := (streamId + 1) % |streams|;
      StepKeepsInv(w, Submit);
      assert State(if streamPending == |streams| then Collecting(false) else Resuming, 0) == DoSubmit(w);
    }

    method NextBuffer()
      requires Inv(State(Resuming, 0))
      modifies this`bufFront, this`offset
      ensures Inv(State(Filling, 0)) && offset == 0
    {
      hide Inv;
      ghost var w := State(Resuming, 0);
      Offsets(w);
      offset := 0;
      bufFront := streams[streamId].front;
      StepKeepsInv(w, Event.Resume);
      assert State(Filling, 0) == DoResume(w);
    }

    /** Waits for the oldest block and puts its chunk in the file. */
    method ProcessPending(ghost draining: bool)
      requires Inv(State(Collecting(draining), 0))
      modifies this`streams, this`streamPending, this`file, this`emitted
      ensures Inv(State(if draining then Filling else Resuming, 0))
      ensures |streams| == |old(streams)| && streamPending == old(streamPending) - 1
    {
      hide Inv;
      Offsets(State(Collecting(draining), 0));
      var id := (streamId + |streams| - streamPending) % |streams|;
      AwaitOutput(id, draining);
      TakeOutput(id, draining);
      EmitChunk(id, draining);
    }

    method TakeOutput(id: int, ghost draining: bool)
      requires Inv(State(Collecting(draining), 0)) && id == Oldest(State(Collecting(draining), 0)) && 0 <= id < |streams|
      requires streams[id].outputReady
      modifies this`streams, this`streamPending
      ensures Inv(State(Emitting(draining), id))
      ensures |streams| == |old(streams)| && streamPending == old(streamPending) - 1
    {
      hide Inv;
      ghost var w := State(Collecting(draining), 0);
      Offsets(w);
      StepKeepsInv(w, Collect);
      ghost var v := DoCollect(w);
      Offsets(v);
      StepKeepsInv(v, Event.Clear);
      streamPending := streamPending - 1;
      streams := streams[id := streams[id].(outputReady := false)];
      assert State(Emitting(draining), id) == DoClear(v);
    }

    method EmitChunk(id: int, ghost draining: bool)
      requires 0 <= id < |streams| && Inv(State(Emitting(draining), id))
      modifies this`streams, this`file, this`emitted
      ensures Inv(State(if draining then Filling else Resuming, 0)) && |streams| == |old(streams)|
    {
      hide Inv;
      ghost var w := State(Emitting(draining), id);
      Offsets(w);
      StepKeepsInv(w, Emit);
      file := file + Frame(streams[id].compressed);
      streams := streams[id := streams[id].(job := streams[id].job + |streams|)];
      emitted := emitted + 1;
      assert State(if draining then Filling else Resuming, id) == DoEmit(w);
      AnySlot(DoEmit(w));
    }

    /** Blocks until the worker of stream id has output; the worker's steps happen meanwhile. */
    method AwaitOutput(id: int, ghost draining: bool)
      requires Inv(State(Collecting(draining), 0)) && id == Oldest(State(Collecting(draining), 0)) && 0 <= id < |streams|
      modifies this`streams
      ensures Inv(State(Collecting(draining), 0)) && |streams| == |old(streams)| && streams[id].outputReady
    {
      hide Inv;
      while !streams[id].outputReady
        invariant Inv(State(Collecting(draining), 0)) && |streams| == |old(streams)|
        invariant id == Oldest(State(Collecting(draining), 0))
        decreases StepsLeft(streams[id])
      {
        ghost var w := State(Collecting(draining), 0);
        Offsets(w);
        ghost var e := NeverStuck(w);
        assert e == Event.Work(id);
        streams := streams[id := Worked(codec, streams[id])];
        StepKeepsInv(w, e);
        assert State(Collecting(draining), 0) == DoWork(w, id);
        assert StepsLeft(streams[id]) >= 0;
      }
    }

    /** Writes the last block, collects everything, and leaves the file of all the bytes written. */
    method Finish()
      requires Valid()
      modifies this
      ensures file == FileOf(codec, kind, |old(streams)|, written) && written == old(written)
    {
      hide Inv;
      ghost var w := State(Filling, 0);
      Offsets(w);
      closing := true;
      StepKeepsInv(w, Close);
      if offset > 0 {
        WriteBlock();
      }
      Offsets(State(Filling, 0));
      while streamPending > 0
        invariant Inv(State(Filling, 0)) && closing && offset == 0 && |streams| == |old(streams)| && streamPending >= 0
        invariant written == old(written)
      {
        w := State(Filling, 0);
        Offsets(w);
        StepKeepsInv(w, Drain);
        assert State(Collecting(true), 0) == w.(pc := Collecting(true));
        ProcessPending(true);
        Offsets(State(Filling, 0));
      }
      w := State(Filling, 0);
      Offsets(w);
      StepKeepsInv(w, Stop);
      StoppedFile(w.(pc := Stopped));
    }
  }

  /** What the methods need of the invariant to make sense. */
  lemma Offsets(w: Writer)
    requires Inv(w)
    ensures WellFormed(w) && |w.handles| < 256 && 0 <= w.pending <= |w.handles|
    ensures w.streamId == |w.blocks| % |w.handles|
  {
  }

  /** Where the last chunk came from does not matter once it is in the file. */
  lemma AnySlot(w: Writer)
    requires Inv(w) && !InFlight(w)
    ensures Inv(w.(slot := 0))
  {
    var v := w.(slot := 0);
    assert JobInTurn(w, 0) && HandleOk(w, 0);
    assert JobInTurn(v, 0) && HandleOk(v, 0);
    HandlesKept(w, v, 0);
    hide Handles, PhaseOf, Past, Frames, Flat;
  }
}
