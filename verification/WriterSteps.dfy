/** The writing pipeline as a step system: a producer fills the buffer of one stream at a time and
    n workers, one per stream, compress the buffers handed to them. Every order of the steps is allowed. */
module WriterSteps {
  import opened Bytes
  import opened FileFormat
  import RoundRobin

  /** Where a worker stands in its loop. */
  datatype WorkerPc = Waiting | Running | Compressed | Cleared

  /** A stream, its two buffers and the flags it shares with the producer. job is the number of the
      next block of this stream; it is there for the proof only. */
  datatype Handle = Handle(bufA: Block, bufB: Block, front: bool, compressed: Block, history: seq<Block>, size: int,
                           inputReady: bool, outputReady: bool, worker: WorkerPc, job: int)
  {
    /** The buffer the stream currently calls its input buffer. */
    function Front(): Block {
      if front then bufA else bufB
    }
  }

  /** Where the producer stands; draining tells the final loop from a full pipeline. */
  datatype Pc = Filling | Collecting(draining: bool) | Clearing(draining: bool) | Emitting(draining: bool) | Resuming | Stopped

  /** blocks, emitted and written record what was submitted, how many blocks are in the file, and all bytes written. */
  datatype Writer = Writer(codec: Codec, kind: Byte, handles: seq<Handle>, streamId: int, pending: int, fillFront: bool, offset: int,
                           closing: bool, file: seq<Byte>, pc: Pc, slot: int, blocks: seq<Block>, emitted: int, written: seq<Byte>)

  datatype Event =
    | Fill(chunk: seq<Byte>)
    | Close
    | Submit
    | Drain
    | Stop
    | Collect
    | Clear
    | Emit
    | Resume
    | Work(s: int)

  function EmptyBuffer(): (b: Block)
    ensures |b| == FILE_BUF_SIZE
  {
    seq(FILE_BUF_SIZE, _ => 0)
  }

  function Start(codec: Codec, kind: Byte, n: Byte): Writer
    requires n > 0
  {
    var handles := seq(n, s => Handle(EmptyBuffer(), EmptyBuffer(), true, [], [], 0, false, false, Waiting, s));
    Writer(codec, kind, handles, 0, 0, true, 0, false, Header(kind, n), Filling, 0, [], 0, [])
  }

  /** The stream whose chunk is next in the file. */
  function Oldest(w: Writer): int
    requires |w.handles| > 0
  {
    (w.streamId + |w.handles| - w.pending) % |w.handles|
  }

  ghost predicate Enabled(w: Writer, e: Event)
    requires |w.handles| > 0 && 0 <= w.streamId < |w.handles| && 0 <= w.slot < |w.handles|
  {
    match e
    case Fill(chunk) => w.pc == Filling && !w.closing && w.offset + |chunk| <= FILE_BUF_SIZE
    case Close => w.pc == Filling && !w.closing
    case Submit => w.pc == Filling && if w.closing then w.offset > 0 else w.offset == FILE_BUF_SIZE
    case Drain => w.pc == Filling && w.closing && w.offset == 0 && w.pending > 0
    case Stop => w.pc == Filling && w.closing && w.offset == 0 && w.pending == 0
    case Collect => w.pc.Collecting? && w.handles[Oldest(w)].outputReady
    case Clear => w.pc.Clearing?
    case Emit => w.pc.Emitting?
    case Resume => w.pc == Resuming
    case Work(s) => 0 <= s < |w.handles| && (w.handles[s].worker.Waiting? ==> w.handles[s].inputReady)
  }

  /** The producer copies bytes into the buffer it holds. */
  function Filled(h: Handle, front: bool, offset: int, chunk: seq<Byte>): Handle
    requires |h.bufA| == |h.bufB| == FILE_BUF_SIZE && 0 <= offset && offset + |chunk| <= FILE_BUF_SIZE
  {
    var b := if front then h.bufA else h.bufB;
    var filled := b[..offset] + chunk + b[offset + |chunk|..];
    if front then h.(bufA := filled) else h.(bufB := filled)
  }

  /** The worker compresses its input buffer and makes the other one the input buffer. */
  function DoCompress(codec: Codec, h: Handle): Handle
    requires 0 <= h.size <= |h.Front()|
  {
    var block := h.Front()[..h.size];
    h.(compressed := codec.enc(h.history, block), history := h.history + [block], front := !h.front, worker := Compressed)
  }

  function SetHandle(w: Writer, s: int, h: Handle): Writer
    requires 0 <= s < |w.handles|
  {
    w.(handles := w.handles[s := h])
  }

  ghost predicate WellFormed(w: Writer) {
    && |w.handles| > 0 && 0 <= w.streamId < |w.handles| && 0 <= w.slot < |w.handles| && 0 <= w.offset <= FILE_BUF_SIZE
    && forall s :: 0 <= s < |w.handles| ==>
         var h := w.handles[s]; |h.bufA| == |h.bufB| == FILE_BUF_SIZE && 0 <= h.size <= FILE_BUF_SIZE
  }

  function DoFill(w: Writer, chunk: seq<Byte>): Writer
    requires WellFormed(w) && w.offset + |chunk| <= FILE_BUF_SIZE
  {
    var h := Filled(w.handles[w.streamId], w.fillFront, w.offset, chunk);
    SetHandle(w, w.streamId, h).(offset := w.offset + |chunk|, written := w.written + chunk)
  }

  /** Hands the buffer to the stream's worker and moves on to the next stream. */
  function DoSubmit(w: Writer): Writer
    requires WellFormed(w)
  {
    var n, h := |w.handles|, w.handles[w.streamId];
    var block := (if w.fillFront then h.bufA else h.bufB)[..w.offset];
    SetHandle(w, w.streamId, h.(inputReady := true, size := w.offset)).(
      pending := w.pending + 1, streamId := (w.streamId + 1) % n, blocks := w.blocks + [block],
      pc := if w.pending + 1 == n then Collecting(false) else Resuming)
  }

  function DoCollect(w: Writer): Writer
    requires WellFormed(w) && w.pc.Collecting?
  {
    w.(pending := w.pending - 1, slot := Oldest(w), pc := Clearing(w.pc.draining))
  }

  function DoClear(w: Writer): Writer
    requires WellFormed(w) && w.pc.Clearing?
  {
    SetHandle(w, w.slot, w.handles[w.slot].(outputReady := false)).(pc := Emitting(w.pc.draining))
  }

  function DoEmit(w: Writer): Writer
    requires WellFormed(w) && w.pc.Emitting?
  {
    var h := w.handles[w.slot];
    SetHandle(w, w.slot, h.(job := h.job + |w.handles|)).(
      file := w.file + Frame(h.compressed), emitted := w.emitted + 1, pc := if w.pc.draining then Filling else Resuming)
  }

  function DoResume(w: Writer): Writer
    requires WellFormed(w)
  {
    w.(offset := 0, fillFront := w.handles[w.streamId].front, pc := Filling)
  }

  /** A handle after the next step of its worker. */
  function Worked(codec: Codec, h: Handle): Handle
    requires 0 <= h.size <= |h.Front()|
  {
    match h.worker
    case Waiting => h.(worker := Running)
    case Running => DoCompress(codec, h)
    case Compressed => h.(inputReady := false, worker := Cleared)
    case Cleared => h.(outputReady := true, worker := Waiting)
  }

  function DoWork(w: Writer, s: int): Writer
    requires WellFormed(w) && 0 <= s < |w.handles|
  {
    SetHandle(w, s, Worked(w.codec, w.handles[s]))
  }

  ghost function Step(w: Writer, e: Event): Writer
    requires WellFormed(w) && Enabled(w, e)
  {
    match e
    case Fill(chunk) => DoFill(w, chunk)
    case Close => w.(closing := true)
    case Submit => DoSubmit(w)
    case Drain => w.(pc := Collecting(true))
    case Stop => w.(pc := Stopped)
    case Collect => DoCollect(w)
    case Clear => DoClear(w)
    case Emit => DoEmit(w)
    case Resume => DoResume(w)
    case Work(s) => DoWork(w, s)
  }

  /** Nothing to do for the worker and nothing left behind. */
  ghost predicate Idle(h: Handle) {
    h.worker == Waiting && !h.inputReady && !h.outputReady
  }

  /** The block of the handle's job is in its input buffer. */
  ghost predicate Given(n: int, blocks: seq<Block>, h: Handle)
    requires 0 < n && 0 <= h.job < |blocks|
  {
    0 <= h.size <= |h.Front()| && h.Front()[..h.size] == blocks[h.job] && h.history == Past(blocks, h.job, n)
  }

  /** The block of the handle's job has been compressed. */
  ghost predicate Done(codec: Codec, n: int, blocks: seq<Block>, h: Handle)
    requires 0 < n && 0 <= h.job < |blocks|
  {
    h.compressed == ChunkOf(codec, n, blocks, h.job) && h.history == Past(blocks, h.job, n) + [blocks[h.job]]
  }

  /** The phases a handle goes through, in order, for each of its blocks. */
  datatype Phase = IsIdle | IsGiven | IsRunning | IsCompressed | IsCleared | IsReady | IsCollected | Broken

  ghost function PhaseOf(codec: Codec, n: int, blocks: seq<Block>, h: Handle, collected: bool): Phase
    requires 0 < n && 0 <= h.job && h.job - n < |blocks|
  {
    if h.job >= |blocks| then
      if Idle(h) && h.history == Past(blocks, h.job, n) && !collected then IsIdle else Broken
    else if collected then
      if h.worker == Waiting && !h.inputReady && !h.outputReady && Done(codec, n, blocks, h) then IsCollected else Broken
    else match h.worker
      case Waiting =>
        if h.inputReady && !h.outputReady && Given(n, blocks, h) then IsGiven
        else if !h.inputReady && h.outputReady && Done(codec, n, blocks, h) then IsReady else Broken
      case Running => if h.inputReady && !h.outputReady && Given(n, blocks, h) then IsRunning else Broken
      case Compressed => if h.inputReady && !h.outputReady && Done(codec, n, blocks, h) then IsCompressed else Broken
      case Cleared => if !h.inputReady && !h.outputReady && Done(codec, n, blocks, h) then IsCleared else Broken
  }

  ghost predicate InFlight(w: Writer) {
    w.pc.Clearing? || w.pc.Emitting?
  }

  /** Blocks are numbered in the order they were submitted; block j belongs to stream j % n. */
  ghost predicate Counters(w: Writer) {
    var n, k := |w.handles|, |w.blocks|;
    && WellFormed(w) && n < 256
    && w.streamId == k % n && 0 <= w.emitted && 0 <= w.pending
    && w.emitted + w.pending + (if InFlight(w) then 1 else 0) == k <= w.emitted + n
    && (w.pc.Filling? || w.pc.Resuming? ==> w.pending < n)
    && (w.pc.Collecting? ==> w.pending > 0)
    && (InFlight(w) ==> w.slot == w.emitted % n)
    && (w.pc.Stopped? ==> w.pending == 0 && w.closing)
    && ((w.pc.Collecting? || InFlight(w)) && w.pc.draining ==> w.offset == 0 && w.closing)
  }

  ghost predicate JobInTurn(w: Writer, s: int)
    requires 0 <= s < |w.handles|
  {
    w.emitted <= w.handles[s].job < w.emitted + |w.handles| && w.handles[s].job % |w.handles| == s
  }

  ghost predicate HandleOk(w: Writer, s: int)
    requires 0 <= s < |w.handles| && JobInTurn(w, s) && 0 <= w.emitted <= |w.blocks|
  {
    var h := w.handles[s];
    var phase := PhaseOf(w.codec, |w.handles|, w.blocks, h, w.pc.Emitting? && w.slot == s);
    phase != Broken && (w.pc.Clearing? && w.slot == s ==> phase == IsReady)
  }

  ghost predicate Handles(w: Writer)
    requires 0 <= w.emitted <= |w.blocks|
  {
    forall s :: 0 <= s < |w.handles| ==> JobInTurn(w, s) && HandleOk(w, s)
  }

  /** What has been written is the submitted blocks and then the bytes in the buffer being filled. */
  ghost predicate Content(w: Writer)
    requires WellFormed(w)
  {
    var h := w.handles[w.streamId];
    && (w.pc.Filling? && !(w.closing && w.offset == 0) ==> w.fillFront == h.front)
    && w.written == Flat(w.blocks) + (if w.pc.Filling? then (if w.fillFront then h.bufA else h.bufB)[..w.offset] else [])
  }

  /** All blocks are full, except one submitted when closing, after which there are no more. */
  ghost predicate Sizes(w: Writer) {
    && (forall i :: 0 <= i < |w.blocks| - 1 ==> |w.blocks[i]| == FILE_BUF_SIZE)
    && (w.blocks != [] ==> var last := |w.blocks[|w.blocks| - 1]|;
                           0 < last <= FILE_BUF_SIZE && (last < FILE_BUF_SIZE ==> w.closing && (w.pc.Filling? ==> w.offset == 0)))
    && (w.pc.Stopped? ==> w.offset == 0)
  }

  ghost predicate InFile(w: Writer)
    requires 0 < |w.handles| < 256 && 0 <= w.emitted <= |w.blocks|
  {
    w.file == Header(w.kind, |w.handles|) + Frames(Chunks(w.codec, |w.handles|, w.blocks)[..w.emitted])
  }

  ghost predicate Inv(w: Writer) {
    Counters(w) && Handles(w) && Content(w) && Sizes(w) && InFile(w)
  }

  lemma StartInv(codec: Codec, kind: Byte, n: Byte)
    requires n > 0
    ensures Inv(Start(codec, kind, n))
  {
    var w := Start(codec, kind, n);
    forall s | 0 <= s < n
      ensures JobInTurn(w, s) && HandleOk(w, s)
    {
      RoundRobin.SlotOfItself(s, n);
    }
    RoundRobin.SlotOfItself(0, n);
    assert Chunks(codec, n, []) == [];
  }

  /** The stream whose buffer the producer holds, or is about to hold, is idle: no worker touches it. */
  lemma FillingIsIdle(w: Writer)
    requires Inv(w) && (w.pc.Filling? || w.pc.Resuming?)
    ensures w.handles[w.streamId].job == |w.blocks| && Idle(w.handles[w.streamId])
  {
    assert JobInTurn(w, w.streamId) && HandleOk(w, w.streamId);
    var job, k := w.handles[w.streamId].job, |w.blocks|;
    if job <= k {
      RoundRobin.SameSlot(job, k, |w.handles|);
    } else {
      RoundRobin.SameSlot(k, job, |w.handles|);
    }
  }

  /** The stream whose chunk is being collected is finished with its block. */
  lemma CollectedJob(w: Writer, s: int)
    requires Inv(w) && 0 <= s < |w.handles| && s == w.emitted % |w.handles|
    ensures w.handles[s].job == w.emitted && HandleOk(w, s)
  {
    assert JobInTurn(w, s) && HandleOk(w, s);
    RoundRobin.SameSlot(w.emitted, w.handles[s].job, |w.handles|);
  }

  /** Handles stay in order when only one of them changes, to another proper phase. */
  lemma HandlesKept(w: Writer, v: Writer, slot: int)
    requires 0 <= w.emitted <= |w.blocks| && Handles(w) && |v.handles| == |w.handles| && 0 <= slot < |v.handles|
    requires v.codec == w.codec && v.blocks == w.blocks && v.emitted == w.emitted
    requires forall r :: 0 <= r < |w.handles| && r != slot ==> v.handles[r] == w.handles[r]
    requires JobInTurn(v, slot) && HandleOk(v, slot)
    requires v.pc.Emitting? && v.slot != slot ==> w.pc.Emitting? && w.slot == v.slot
    requires w.pc.Emitting? && w.slot != slot ==> v.pc.Emitting? && w.slot == v.slot
    requires v.pc.Clearing? && v.slot != slot ==> w.pc.Clearing? && w.slot == v.slot
    ensures Handles(v)
  {
    hide PhaseOf;
    forall r | 0 <= r < |v.handles|
      ensures JobInTurn(v, r) && HandleOk(v, r)
    {
      assert JobInTurn(w, r) && HandleOk(w, r);
    }
  }

  /** The worker takes its handle from one phase to the next; no phase can be left out. */
  lemma PhaseAdvances(codec: Codec, n: int, blocks: seq<Block>, h: Handle, collected: bool)
    requires 0 < n && 0 <= h.job && h.job - n < |blocks| && 0 <= h.size <= |h.Front()|
    requires PhaseOf(codec, n, blocks, h, collected) != Broken
    requires h.worker != Waiting || h.inputReady
    ensures !collected && h.job < |blocks| && !Idle(h)
    ensures PhaseOf(codec, n, blocks, Worked(codec, h), collected)
            == match PhaseOf(codec, n, blocks, h, collected)
               case IsGiven => IsRunning
               case IsRunning => IsCompressed
               case IsCompressed => IsCleared
               case IsCleared => IsReady
               case _ => Broken
    ensures PhaseOf(codec, n, blocks, Worked(codec, h), collected) != Broken
    ensures PhaseOf(codec, n, blocks, h, collected) != IsReady
  {
  }

  lemma WorkedShape(codec: Codec, h: Handle)
    requires 0 <= h.size <= |h.Front()|
    ensures var f := Worked(codec, h); f.job == h.job && f.size == h.size && |f.bufA| == |h.bufA| && |f.bufB| == |h.bufB|
  {
  }

  lemma WorkHandles(w: Writer, s: int)
    requires Inv(w) && Enabled(w, Work(s))
    ensures Handles(DoWork(w, s))
    ensures w.pc.Filling? || w.pc.Resuming? ==> s != w.streamId
  {
    assert JobInTurn(w, s) && HandleOk(w, s);
    var h := w.handles[s];
    PhaseAdvances(w.codec, |w.handles|, w.blocks, h, w.pc.Emitting? && w.slot == s);
    if w.pc.Filling? || w.pc.Resuming? {
      FillingIsIdle(w);
    }
    hide PhaseOf, Content, Sizes, InFile, Worked;
    var v := DoWork(w, s);
    WorkedShape(w.codec, h);
    assert JobInTurn(v, s) && HandleOk(v, s);
    HandlesKept(w, v, s);
  }

  lemma WorkStep(w: Writer, s: int)
    requires Inv(w) && Enabled(w, Work(s))
    ensures Inv(DoWork(w, s))
  {
    WorkHandles(w, s);
    hide Handles, Past, Frames, Flat, Chunks, Worked;
    WorkedShape(w.codec, w.handles[s]);
    assert Content(DoWork(w, s));
  }

  lemma FillHandles(w: Writer, chunk: seq<Byte>)
    requires Inv(w) && Enabled(w, Fill(chunk))
    ensures Handles(DoFill(w, chunk))
  {
    var id := w.streamId;
    var v := DoFill(w, chunk);
    FillingIsIdle(w);
    assert JobInTurn(w, id) && HandleOk(w, id);
    IdlePhase(w.codec, |w.handles|, w.blocks, w.handles[id], v.handles[id]);
    hide PhaseOf, Content, Sizes, InFile;
    assert JobInTurn(v, id) && HandleOk(v, id);
    HandlesKept(w, v, id);
  }

  lemma FillContent(w: Writer, chunk: seq<Byte>)
    requires WellFormed(w) && Content(w) && Enabled(w, Fill(chunk))
    ensures WellFormed(DoFill(w, chunk)) && Content(DoFill(w, chunk))
  {
    hide Flat, Filled;
    var h := w.handles[w.streamId];
    FilledFront(h, w.fillFront, w.offset, chunk);
    Regroup(Flat(w.blocks), (if w.fillFront then h.bufA else h.bufB)[..w.offset], chunk);
  }

  lemma FillStep(w: Writer, chunk: seq<Byte>)
    requires Inv(w) && Enabled(w, Fill(chunk))
    ensures Inv(DoFill(w, chunk))
  {
    hide *;
    InvCounters(w);
    InvParts(w);
    FillFits(w, chunk);
    FillHandles(w, chunk);
    FillContent(w, chunk);
    FillRest(w, chunk);
    InvFrom(DoFill(w, chunk));
  }

  lemma FillFits(w: Writer, chunk: seq<Byte>)
    requires WellFormed(w) && Enabled(w, Fill(chunk))
    ensures w.offset + |chunk| <= FILE_BUF_SIZE
  {
  }

  lemma InvParts(w: Writer)
    requires Inv(w)
    ensures 0 < |w.handles| < 256 && 0 <= w.emitted <= |w.blocks| && WellFormed(w)
    ensures Handles(w) && Content(w) && Sizes(w) && InFile(w)
  {
    hide Handles, Content, Sizes, InFile;
  }

  /** Filling the buffer leaves the numbers, the submitted blocks and the file. */
  lemma FillRest(w: Writer, chunk: seq<Byte>)
    requires Inv(w) && Enabled(w, Fill(chunk))
    ensures var v := DoFill(w, chunk);
            Counters(v) && 0 < |v.handles| < 256 && 0 <= v.emitted <= |v.blocks| && Sizes(v) && InFile(v)
  {
    hide Handles, Content, Frames, Chunks;
  }

  lemma FilledFront(h: Handle, front: bool, offset: int, chunk: seq<Byte>)
    requires |h.bufA| == |h.bufB| == FILE_BUF_SIZE && 0 <= offset && offset + |chunk| <= FILE_BUF_SIZE
    ensures var f := Filled(h, front, offset, chunk);
            && |f.bufA| == |f.bufB| == FILE_BUF_SIZE && f.size == h.size && f.front == h.front
            && (if front then f.bufA else f.bufB)[..offset + |chunk|] == (if front then h.bufA else h.bufB)[..offset] + chunk
  {
  }

  /** What is in the buffers of an idle handle does not matter. */
  lemma IdlePhase(codec: Codec, n: int, blocks: seq<Block>, h: Handle, f: Handle)
    requires 0 < n && h.job == |blocks| && PhaseOf(codec, n, blocks, h, false) != Broken
    requires f.job == h.job && f.history == h.history && Idle(f)
    ensures PhaseOf(codec, n, blocks, f, false) == IsIdle
  {
  }

  /** One more block leaves the phase of every handle that is not waiting for it. */
  lemma PhaseOfGrown(codec: Codec, n: int, blocks: seq<Block>, b: Block, h: Handle, collected: bool)
    requires 0 < n && 0 <= h.job && h.job - n < |blocks| && h.job != |blocks|
    ensures PhaseOf(codec, n, blocks + [b], h, collected) == PhaseOf(codec, n, blocks, h, collected)
  {
    PastOfPrefix(blocks, [b], h.job, n);
  }

  lemma HandedOver(codec: Codec, n: int, blocks: seq<Block>, b: Block, h: Handle, size: int)
    requires 0 < n && h.job == |blocks| && PhaseOf(codec, n, blocks, h, false) != Broken
    requires 0 <= size <= |h.Front()| && b == h.Front()[..size]
    ensures PhaseOf(codec, n, blocks + [b], h.(inputReady := true, size := size), false) == IsGiven
  {
    PastOfPrefix(blocks, [b], h.job, n);
  }

  lemma ChunksGrown(codec: Codec, n: int, blocks: seq<Block>, b: Block, k: int)
    requires 0 < n && 0 <= k <= |blocks|
    ensures Chunks(codec, n, blocks + [b])[..k] == Chunks(codec, n, blocks)[..k]
  {
    forall i | 0 <= i < k
      ensures ChunkOf(codec, n, blocks + [b], i) == ChunkOf(codec, n, blocks, i)
    {
      PastOfPrefix(blocks, [b], i, n);
    }
  }

  lemma SubmitHandles(w: Writer)
    requires Inv(w) && Enabled(w, Submit)
    ensures var v := DoSubmit(w); v.emitted <= |v.blocks| && Handles(v)
  {
    hide PhaseOf;
    var v, id := DoSubmit(w), w.streamId;
    var b := v.blocks[|w.blocks|];
    FillingIsIdle(w);
    forall s | 0 <= s < |v.handles|
      ensures JobInTurn(v, s) && HandleOk(v, s)
    {
      assert JobInTurn(w, s) && HandleOk(w, s);
      if s == id {
        HandedOver(w.codec, |w.handles|, w.blocks, b, w.handles[id], w.offset);
      } else {
        assert w.handles[s].job != |w.blocks|;
        PhaseOfGrown(w.codec, |w.handles|, w.blocks, b, w.handles[s], false);
      }
    }
  }

  lemma SubmitStep(w: Writer)
    requires Inv(w) && Enabled(w, Submit)
    ensures Inv(DoSubmit(w))
  {
    hide *;
    InvCounters(w);
    SubmitHandles(w);
    SubmitCounters(w);
    SubmitContent(w);
    SubmitSizes(w);
    SubmitInFile(w);
    InvFrom(DoSubmit(w));
  }

  lemma InvCounters(w: Writer)
    requires Inv(w)
    ensures Counters(w) && WellFormed(w)
  {
  }

  lemma InvFrom(w: Writer)
    requires Counters(w) && 0 < |w.handles| < 256 && 0 <= w.emitted <= |w.blocks| && WellFormed(w)
    requires Handles(w) && Content(w) && Sizes(w) && InFile(w)
    ensures Inv(w)
  {
    hide Counters, Handles, Content, Sizes, InFile, WellFormed;
  }

  lemma SubmitCounters(w: Writer)
    requires Inv(w) && Enabled(w, Submit)
    ensures var v := DoSubmit(w); Counters(v) && WellFormed(v) && 0 < |v.handles| < 256 && 0 <= v.emitted <= |v.blocks|
  {
    hide Handles, Content, Sizes, InFile;
    RoundRobin.NextSlot(|w.blocks|, |w.handles|);
  }

  lemma SubmitContent(w: Writer)
    requires Inv(w) && Enabled(w, Submit)
    ensures WellFormed(DoSubmit(w)) && Content(DoSubmit(w))
  {
    hide Handles, Sizes, InFile, Flat;
    FlatPush(w.blocks, DoSubmit(w).blocks[|w.blocks|]);
  }

  lemma SubmitSizes(w: Writer)
    requires Inv(w) && Enabled(w, Submit)
    ensures Sizes(DoSubmit(w))
  {
    hide Handles, Content, InFile;
  }

  lemma SubmitInFile(w: Writer)
    requires Inv(w) && Enabled(w, Submit)
    ensures var v := DoSubmit(w); 0 < |v.handles| < 256 && 0 <= v.emitted <= |v.blocks| && InFile(v)
  {
    hide Handles, Content, Sizes, Frames, Chunks;
    ChunksGrown(w.codec, |w.handles|, w.blocks, DoSubmit(w).blocks[|w.blocks|], w.emitted);
  }

  lemma EmitHandle(codec: Codec, n: int, blocks: seq<Block>, h: Handle)
    requires 0 < n && 0 <= h.job < |blocks| <= h.job + n && PhaseOf(codec, n, blocks, h, true) != Broken
    ensures h.compressed == ChunkOf(codec, n, blocks, h.job)
    ensures PhaseOf(codec, n, blocks, h.(job := h.job + n), false) == IsIdle
    ensures (h.job + n) % n == h.job % n
  {
    assert Past(blocks, h.job + n, n) == Past(blocks, h.job, n) + [blocks[h.job]];
    RoundRobin.NextTurn(h.job, n);
  }

  lemma EmitHandles(w: Writer)
    requires Inv(w) && Enabled(w, Emit)
    ensures var v := DoEmit(w); v.emitted <= |v.blocks| && Handles(v)
    ensures w.handles[w.slot].compressed == ChunkOf(w.codec, |w.handles|, w.blocks, w.emitted)
  {
    hide PhaseOf, ChunkOf;
    var v := DoEmit(w);
    CollectedJob(w, w.slot);
    EmitHandle(w.codec, |w.handles|, w.blocks, w.handles[w.slot]);
    forall s | 0 <= s < |w.handles|
      ensures JobInTurn(v, s) && HandleOk(v, s)
    {
      assert JobInTurn(w, s) && HandleOk(w, s);
      assert s != w.slot ==> w.handles[s].job != w.emitted;
    }
  }

  lemma EmitFile(w: Writer)
    requires Inv(w) && Enabled(w, Emit)
    ensures InFile(DoEmit(w))
  {
    EmitHandles(w);
    hide Handles, Past, Frames, Content, Sizes;
    var chunks := Chunks(w.codec, |w.handles|, w.blocks);
    hide Chunks, ChunkOf;
    assert chunks[..w.emitted + 1] == chunks[..w.emitted] + [chunks[w.emitted]];
    FramesPush(chunks[..w.emitted], chunks[w.emitted]);
    Regroup(Header(w.kind, |w.handles|), Frames(chunks[..w.emitted]), Frame(chunks[w.emitted]));
  }

  lemma EmitStep(w: Writer)
    requires Inv(w) && Enabled(w, Emit)
    ensures Inv(DoEmit(w))
  {
    EmitHandles(w);
    EmitFile(w);
    hide Handles, Past, Frames, Flat, InFile, Chunks;
  }

  lemma Regroup(p: seq<Byte>, q: seq<Byte>, r: seq<Byte>)
    ensures p + q + r == p + (q + r)
  {
  }

  lemma ReadyPhase(codec: Codec, n: int, blocks: seq<Block>, h: Handle)
    requires 0 < n && 0 <= h.job && h.job - n < |blocks| && h.outputReady && PhaseOf(codec, n, blocks, h, false) != Broken
    ensures PhaseOf(codec, n, blocks, h, false) == IsReady && h.job < |blocks|
    ensures PhaseOf(codec, n, blocks, h.(outputReady := false), true) == IsCollected
  {
  }

  lemma CollectStep(w: Writer)
    requires Inv(w) && Enabled(w, Collect)
    ensures Inv(DoCollect(w))
  {
    hide PhaseOf, Past, Frames, Flat, Chunks;
    var v := DoCollect(w);
    RoundRobin.OldestSlot(|w.blocks|, w.pending, |w.handles|);
    CollectedJob(w, v.slot);
    ReadyPhase(w.codec, |w.handles|, w.blocks, w.handles[v.slot]);
    assert JobInTurn(w, v.slot) && JobInTurn(v, v.slot) && HandleOk(v, v.slot);
    HandlesKept(w, v, v.slot);
    hide Handles;
  }

  lemma ClearStep(w: Writer)
    requires Inv(w) && Enabled(w, Clear)
    ensures Inv(DoClear(w))
  {
    hide PhaseOf, Past, Frames, Flat, Chunks;
    var v := DoClear(w);
    CollectedJob(w, w.slot);
    assert w.handles[w.slot].outputReady by { ClearingIsReady(w); }
    ReadyPhase(w.codec, |w.handles|, w.blocks, w.handles[w.slot]);
    assert JobInTurn(w, v.slot) && JobInTurn(v, v.slot) && HandleOk(v, v.slot);
    HandlesKept(w, v, w.slot);
    hide Handles;
  }

  lemma ClearingIsReady(w: Writer)
    requires Inv(w) && w.pc.Clearing?
    ensures w.handles[w.slot].outputReady
  {
    assert JobInTurn(w, w.slot) && HandleOk(w, w.slot);
  }

  lemma OtherStep(w: Writer, e: Event)
    requires Inv(w) && Enabled(w, e) && (e.Close? || e.Drain? || e.Stop? || e.Resume?)
    ensures Inv(Step(w, e))
  {
    hide PhaseOf, Past, Frames, Flat, Chunks;
    var v := Step(w, e);
    assert JobInTurn(w, 0) && HandleOk(w, 0);
    assert JobInTurn(v, 0) && HandleOk(v, 0);
    HandlesKept(w, v, 0);
    hide Handles;
  }

  lemma StepKeepsInv(w: Writer, e: Event)
    requires Inv(w) && Enabled(w, e)
    ensures Inv(Step(w, e))
  {
    hide Inv, DoFill, DoSubmit, DoEmit, DoCollect, DoClear, DoWork, DoResume;
    match e
    case Fill(chunk) => FillStep(w, chunk);
    case Submit => SubmitStep(w);
    case Emit => EmitStep(w);
    case Collect => CollectStep(w);
    case Clear => ClearStep(w);
    case Work(s) => WorkStep(w, s);
    case Close => OtherStep(w, e);
    case Drain => OtherStep(w, e);
    case Stop => OtherStep(w, e);
    case Resume => OtherStep(w, e);
  }

  /** The events can happen one after the other. */
  ghost predicate Runnable(w: Writer, events: seq<Event>)
    decreases |events|
  {
    events == [] || (WellFormed(w) && Enabled(w, events[0]) && Runnable(Step(w, events[0]), events[1..]))
  }

  ghost function After(w: Writer, events: seq<Event>): Writer
    requires Runnable(w, events)
    decreases |events|
  {
    if events == [] then w else After(Step(w, events[0]), events[1..])
  }

  /** All the bytes the producer was given, in order. */
  function AllBytes(events: seq<Event>): seq<Byte> {
    if events == [] then [] else (if events[0].Fill? then events[0].chunk else []) + AllBytes(events[1..])
  }

  lemma {:induction false} EveryRunKeepsInv(w: Writer, events: seq<Event>)
    requires Inv(w) && Runnable(w, events)
    ensures Inv(After(w, events))
    ensures After(w, events).written == w.written + AllBytes(events)
    ensures var v := After(w, events); v.codec == w.codec && v.kind == w.kind && |v.handles| == |w.handles|
    decreases |events|
  {
    hide Inv, Step, Enabled, WellFormed;
    if events == [] {
      assert w.written + [] == w.written;
    } else {
      StepKeepsInv(w, events[0]);
      StepShape(w, events[0]);
      EveryRunKeepsInv(Step(w, events[0]), events[1..]);
      Regroup(w.written, if events[0].Fill? then events[0].chunk else [], AllBytes(events[1..]));
    }
  }

  lemma StepShape(w: Writer, e: Event)
    requires WellFormed(w) && Enabled(w, e)
    ensures var v := Step(w, e);
            && v.codec == w.codec && v.kind == w.kind && |v.handles| == |w.handles|
            && v.written == if e.Fill? then w.written + e.chunk else w.written
  {
  }

  /** In every run, at every moment: the file is the header and the chunks of the first blocks, in the
      order they were submitted. Once stopped it is the file of all the bytes, however they came. */
  lemma FileInOrder(codec: Codec, kind: Byte, n: Byte, events: seq<Event>)
    requires n > 0 && Runnable(Start(codec, kind, n), events)
    ensures var v := After(Start(codec, kind, n), events);
            && 0 <= v.emitted <= |v.blocks| && v.written == AllBytes(events)
            && v.file == Header(kind, n) + Frames(Chunks(codec, n, v.blocks)[..v.emitted])
            && (v.pc.Stopped? ==> v.file == FileOf(codec, kind, n, AllBytes(events)))
  {
    StartInv(codec, kind, n);
    var w := Start(codec, kind, n);
    assert w.written == [] && [] + AllBytes(events) == AllBytes(events);
    EveryRunKeepsInv(w, events);
    hide Runnable, After, Handles, Content, Sizes, Start;
    var v := After(w, events);
    if v.pc.Stopped? {
      StoppedFile(v);
    }
  }

  lemma StoppedFile(w: Writer)
    requires Inv(w) && w.pc.Stopped?
    ensures w.file == FileOf(w.codec, w.kind, |w.handles|, w.written)
  {
    hide Past, Frames, Handles, Flat, Divide;
    assert Flat(w.blocks) + [] == Flat(w.blocks);
    DividedOnlyOneWay(w.blocks);
    var chunks := Chunks(w.codec, |w.handles|, w.blocks);
    assert chunks[..|w.blocks|] == chunks;
  }

  /** A worker that can act does not act on the stream whose buffer the producer holds, nor on the
      one whose chunk the producer is putting in the file. */
  lemma NoInterference(w: Writer, s: int)
    requires Inv(w) && Enabled(w, Work(s))
    ensures w.pc.Filling? || w.pc.Resuming? ==> s != w.streamId
    ensures InFlight(w) ==> s != w.slot
    ensures w.pc.Filling? ==> DoWork(w, s).handles[w.streamId] == w.handles[w.streamId]
    ensures InFlight(w) ==> DoWork(w, s).handles[w.slot].compressed == w.handles[w.slot].compressed
  {
    assert JobInTurn(w, s) && HandleOk(w, s);
    PhaseAdvances(w.codec, |w.handles|, w.blocks, w.handles[s], w.pc.Emitting? && w.slot == s);
    if w.pc.Filling? || w.pc.Resuming? {
      FillingIsIdle(w);
    }
  }

  /** So it is in every run. */
  lemma NoInterferenceInRuns(codec: Codec, kind: Byte, n: Byte, events: seq<Event>, s: int)
    requires n > 0 && Runnable(Start(codec, kind, n), events)
    ensures var w := After(Start(codec, kind, n), events);
            WellFormed(w) && (Enabled(w, Work(s)) ==>
              && (w.pc.Filling? || w.pc.Resuming? ==> s != w.streamId) && (InFlight(w) ==> s != w.slot)
              && (w.pc.Filling? ==> DoWork(w, s).handles[w.streamId] == w.handles[w.streamId])
              && (InFlight(w) ==> DoWork(w, s).handles[w.slot].compressed == w.handles[w.slot].compressed))
  {
    hide Runnable, After, Handles, Content, Sizes, InFile, Start, Enabled, DoWork;
    StartInv(codec, kind, n);
    EveryRunKeepsInv(Start(codec, kind, n), events);
    var w := After(Start(codec, kind, n), events);
    if Enabled(w, Work(s)) {
      NoInterference(w, s);
    }
  }

  function Back(h: Handle): Block {
    if h.front then h.bufB else h.bufA
  }

  /** The buffer that is not the input buffer begins with the block the stream compressed last. */
  ghost predicate PreviousKept(h: Handle) {
    h.history != [] ==> h.history[|h.history| - 1] <= Back(h)
  }

  ghost predicate KeepsPrevious(w: Writer) {
    forall s :: 0 <= s < |w.handles| ==> PreviousKept(w.handles[s])
  }

  lemma FilledKeeps(h: Handle, offset: int, chunk: seq<Byte>)
    requires |h.bufA| == |h.bufB| == FILE_BUF_SIZE && 0 <= offset && offset + |chunk| <= FILE_BUF_SIZE && PreviousKept(h)
    ensures PreviousKept(Filled(h, h.front, offset, chunk))
  {
  }

  lemma WorkedKeeps(codec: Codec, h: Handle)
    requires 0 <= h.size <= |h.Front()| && PreviousKept(h)
    ensures PreviousKept(Worked(codec, h))
  {
    assert h.Front()[..h.size] <= h.Front();
  }

  /** Whatever else changes of a handle. */
  lemma StillKept(h: Handle, f: Handle)
    requires PreviousKept(h) && f.bufA == h.bufA && f.bufB == h.bufB && f.front == h.front && f.history == h.history
    ensures PreviousKept(f)
  {
  }

  lemma StepKeepsPrevious(w: Writer, e: Event)
    requires Inv(w) && KeepsPrevious(w) && Enabled(w, e)
    ensures WellFormed(w) && KeepsPrevious(Step(w, e))
  {
    hide Inv, Counters, PreviousKept, Filled, Worked;
    InvCounters(w);
    var v := Step(w, e);
    forall s | 0 <= s < |v.handles|
      ensures PreviousKept(v.handles[s])
    {
      var h := w.handles[s];
      match e
      case Fill(chunk) =>
        InvFront(w);
        FilledKeeps(h, w.offset, chunk);
        StillKept(h, h);
      case Work(_) =>
        WorkedKeeps(w.codec, h);
        StillKept(h, h);
      case _ => StillKept(h, v.handles[s]);
    }
  }

  lemma InvFront(w: Writer)
    requires Inv(w) && w.pc.Filling? && !w.closing
    ensures 0 <= w.streamId < |w.handles| && w.fillFront == w.handles[w.streamId].front
  {
  }

  lemma {:induction false} RunKeepsPrevious(w: Writer, events: seq<Event>)
    requires Inv(w) && KeepsPrevious(w) && Runnable(w, events)
    ensures KeepsPrevious(After(w, events))
    decreases |events|
  {
    hide Inv, Step, Enabled, WellFormed, KeepsPrevious;
    if events != [] {
      StepKeepsPrevious(w, events[0]);
      StepKeepsInv(w, events[0]);
      RunKeepsPrevious(Step(w, events[0]), events[1..]);
    }
  }

  /** What the second buffer is for: in every run, while a worker compresses a block, the previous block of its
      stream is still in the stream's other buffer, where a streaming codec looks for it. */
  lemma PreviousBlockStays(codec: Codec, kind: Byte, n: Byte, events: seq<Event>, s: int)
    requires n > 0 && Runnable(Start(codec, kind, n), events)
    ensures var w := After(Start(codec, kind, n), events);
            |w.handles| == n && (0 <= s < n && w.handles[s].worker == Running && w.handles[s].job >= n ==>
              var j := w.handles[s].job - n; j < |w.blocks| && w.blocks[j] <= Back(w.handles[s]))
  {
    hide Runnable, After, Content, Sizes, InFile;
    StartInv(codec, kind, n);
    var w := After(Start(codec, kind, n), events);
    EveryRunKeepsInv(Start(codec, kind, n), events);
    RunKeepsPrevious(Start(codec, kind, n), events);
    if 0 <= s < n && w.handles[s].worker == Running && w.handles[s].job >= n {
      assert JobInTurn(w, s) && HandleOk(w, s) && PreviousKept(w.handles[s]);
    }
  }

  /** The input buffer of the current stream is the one the producer is filling. */
  lemma HoldsInputBuffer(w: Writer)
    requires Inv(w) && Enabled(w, Submit)
    ensures w.fillFront == w.handles[w.streamId].front
    ensures DoSubmit(w).blocks == w.blocks + [w.handles[w.streamId].Front()[..w.offset]]
  {
  }

  function StepsLeft(h: Handle): int {
    match h.worker
    case Waiting => if h.inputReady then 4 else 0
    case Running => 3
    case Compressed => 2
    case Cleared => 1
  }

  /** Nothing is ever stuck: the producer can go on, or it waits for the oldest block and that
      stream's worker can go on, and will be done after at most four steps of its own. */
  lemma NeverStuck(w: Writer) returns (e: Event)
    requires Inv(w) && !w.pc.Stopped?
    ensures Enabled(w, e)
    ensures e.Fill? || e.Close? ==> w.pc.Filling? && !w.closing && w.offset < FILE_BUF_SIZE
    ensures e.Work? ==> w.pc.Collecting? && e.s == Oldest(w)
                        && StepsLeft(DoWork(w, e.s).handles[e.s]) == StepsLeft(w.handles[e.s]) - 1
  {
    match w.pc
    case Filling =>
      e := if !w.closing then if w.offset == FILE_BUF_SIZE then Submit else Close
           else if w.offset > 0 then Submit else if w.pending > 0 then Drain else Stop;
    case Clearing(_) => e := Clear;
    case Emitting(_) => e := Emit;
    case Resuming => e := Resume;
    case Collecting(_) =>
      var s := Oldest(w);
      RoundRobin.OldestSlot(|w.blocks|, w.pending, |w.handles|);
      CollectedJob(w, s);
      e := if w.handles[s].outputReady then Collect else Work(s);
  }
}
