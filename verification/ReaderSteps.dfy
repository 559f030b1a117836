/** The reading pipeline as a step system: n workers decompress the chunks handed to them, one per
    stream, while the consumer reads the buffers they filled, one stream after the other. */
module ReaderSteps {
  import opened Bytes
  import opened FileFormat
  import RoundRobin

  datatype WorkerPc = Waiting | Running | Decompressed | Cleared

  /** A stream, its two buffers and the flags it shares with the consumer. job is the number of the
      next block the consumer takes from it; it is there for the proof only. */
  datatype Handle = Handle(bufA: Block, bufB: Block, front: bool, history: seq<Block>, src: Block,
                           inputReady: bool, outputReady: bool, worker: WorkerPc, job: int)
  {
    function Buffer(front: bool): Block {
      if front then bufA else bufB
    }
  }

  datatype Pc = Getting | Feeding | Reading

  /** (bufStream, bufFront) is the buffer the consumer reads. taken and fed count the blocks it has
      got hold of and the chunks it has handed out; out is everything it has read or skipped. */
  datatype Reader = Reader(codec: Codec, data: seq<Byte>, dataOffset: int, handles: seq<Handle>, streamId: int,
                           bufStream: int, bufFront: bool, offset: int, pc: Pc, taken: int, fed: int, out: seq<Byte>)

  /** What the file is supposed to hold: chunks that the n decoders, taking turns, turn into blocks. */
  datatype Trace = Trace(header: seq<Byte>, chunks: seq<Block>, blocks: seq<Block>)

  ghost predicate Decodes(codec: Codec, n: int, t: Trace)
    requires 0 < n
  {
    && |t.chunks| == |t.blocks| && Divided(t.blocks) && n <= |t.blocks|
    && forall i :: 0 <= i < |t.blocks| ==>
         |t.chunks[i]| < Pow256(4) && codec.dec(Past(t.chunks, i, n), t.chunks[i]) == t.blocks[i]
  }

  datatype Event = Await | Feed | Consume(k: int) | Next | Work(s: int)

  ghost predicate WellFormed(r: Reader) {
    && |r.handles| > 0 && 0 <= r.streamId < |r.handles| && 0 <= r.bufStream < |r.handles|
    && 0 <= r.offset <= FILE_BUF_SIZE && 0 <= r.dataOffset <= |r.data|
    && forall s :: 0 <= s < |r.handles| ==> |r.handles[s].bufA| == |r.handles[s].bufB| == FILE_BUF_SIZE
  }

  function Min(a: int, b: int): int {
    if a < b then a else b
  }

  ghost predicate Enabled(t: Trace, r: Reader, e: Event)
    requires WellFormed(r)
  {
    match e
    case Await => r.pc == Getting && r.handles[r.streamId].outputReady
    case Feed => r.pc == Feeding
    case Consume(k) => r.pc == Reading && 0 <= k && 0 < r.taken <= |t.blocks| && r.offset + k <= |t.blocks[r.taken - 1]|
    case Next => r.pc == Reading && r.offset == FILE_BUF_SIZE && r.taken < |t.blocks|
    case Work(s) => 0 <= s < |r.handles| && (r.handles[s].worker == Waiting ==> r.handles[s].inputReady)
  }

  /** The consumer takes over the buffer the stream has just filled. */
  function DoAwait(r: Reader): Reader
    requires WellFormed(r)
  {
    var h := r.handles[r.streamId];
    r.(handles := r.handles[r.streamId := h.(outputReady := false)],
       bufStream := r.streamId, bufFront := h.front, offset := 0, pc := Feeding)
  }

  /** The size of the chunk at the data offset; 0 stands for reading past the end. */
  function SizeAt(data: seq<Byte>, at: int): int
    requires 0 <= at
  {
    if at + 4 <= |data| then FromBytes(data[at..at + 4]) else 0
  }

  function ChunkAt(data: seq<Byte>, at: int): Block
    requires 0 <= at
  {
    var sz := SizeAt(data, at);
    if at + 4 + sz <= |data| then data[at + 4..at + 4 + sz] else []
  }

  /** Hands the stream its next chunk, if the file has more, and moves on to the next stream. */
  function DoFeed(r: Reader): Reader
    requires WellFormed(r)
  {
    var h := r.handles[r.streamId];
    var next := h.(job := h.job + |r.handles|);
    var at := r.dataOffset;
    var more := at < |r.data|;
    r.(handles := r.handles[r.streamId := if more then next.(src := ChunkAt(r.data, at), inputReady := true) else next],
       dataOffset := if more then at + 4 + SizeAt(r.data, at) else at,
       streamId := (r.streamId + 1) % |r.handles|, taken := r.taken + 1, fed := if more then r.fed + 1 else r.fed, pc := Reading)
  }

  function DoConsume(r: Reader, k: int): Reader
    requires WellFormed(r) && 0 <= k && r.offset + k <= FILE_BUF_SIZE
  {
    var b := r.handles[r.bufStream].Buffer(r.bufFront);
    r.(out := r.out + b[r.offset..r.offset + k], offset := r.offset + k)
  }

  /** The worker makes its other buffer the current one and decompresses into it. */
  function DoDecompress(codec: Codec, h: Handle): Handle
    requires |h.bufA| == |h.bufB| == FILE_BUF_SIZE
  {
    var block := codec.dec(h.history, h.src);
    var other := h.Buffer(!h.front);
    var filled := if |block| <= FILE_BUF_SIZE then block + other[|block|..] else block[..FILE_BUF_SIZE];
    var g := h.(front := !h.front, history := h.history + [h.src], worker := Decompressed);
    if g.front then g.(bufA := filled) else g.(bufB := filled)
  }

  function Worked(codec: Codec, h: Handle): Handle
    requires |h.bufA| == |h.bufB| == FILE_BUF_SIZE
  {
    match h.worker
    case Waiting => h.(worker := Running)
    case Running => DoDecompress(codec, h)
    case Decompressed => h.(inputReady := false, worker := Cleared)
    case Cleared => h.(outputReady := true, worker := Waiting)
  }

  function DoWork(r: Reader, s: int): Reader
    requires WellFormed(r) && 0 <= s < |r.handles|
  {
    r.(handles := r.handles[s := Worked(r.codec, r.handles[s])])
  }

  ghost function Step(t: Trace, r: Reader, e: Event): Reader
    requires WellFormed(r) && Divided(t.blocks) && Enabled(t, r, e)
  {
    match e
    case Await => DoAwait(r)
    case Feed => DoFeed(r)
    case Consume(k) => DoConsume(r, k)
    case Next => r.(pc := Getting)
    case Work(s) => DoWork(r, s)
  }

  /** The phases a handle goes through, in order, for each of its blocks. */
  datatype Phase = IsIdle | IsGiven | IsRunning | IsDecompressed | IsCleared | IsReady | IsCollected | Broken

  ghost predicate Idle(h: Handle) {
    h.worker == Waiting && !h.inputReady && !h.outputReady
  }

  ghost predicate Given(n: int, t: Trace, h: Handle)
    requires 0 < n && 0 <= h.job < |t.chunks|
  {
    h.src == t.chunks[h.job] && h.history == Past(t.chunks, h.job, n)
  }

  ghost predicate Done(n: int, t: Trace, h: Handle)
    requires 0 < n && 0 <= h.job < |t.chunks| == |t.blocks| && |h.bufA| == |h.bufB| == FILE_BUF_SIZE
  {
    && h.history == Past(t.chunks, h.job, n) + [t.chunks[h.job]]
    && Starts(t.blocks[h.job], h.Buffer(h.front))
  }

  ghost predicate Starts(block: Block, b: Block) {
    |block| <= |b| && b[..|block|] == block
  }

  ghost predicate Proper(n: int, t: Trace, h: Handle, fed: int) {
    && 0 < n && 0 <= h.job && h.job - n < |t.chunks| == |t.blocks| && fed <= |t.chunks|
    && |h.bufA| == |h.bufB| == FILE_BUF_SIZE
  }

  ghost function PhaseOf(n: int, t: Trace, h: Handle, fed: int, collected: bool): Phase
  {
    if !Proper(n, t, h, fed) then Broken
    else if h.job >= fed then
      if Idle(h) && h.history == Past(t.chunks, h.job, n) && !collected then IsIdle else Broken
    else if collected then
      if Idle(h) && Done(n, t, h) then IsCollected else Broken
    else match h.worker
      case Waiting =>
        if h.inputReady && !h.outputReady && Given(n, t, h) then IsGiven
        else if !h.inputReady && h.outputReady && Done(n, t, h) then IsReady else Broken
      case Running => if h.inputReady && !h.outputReady && Given(n, t, h) then IsRunning else Broken
      case Decompressed => if h.inputReady && !h.outputReady && Done(n, t, h) then IsDecompressed else Broken
      case Cleared => if !h.inputReady && !h.outputReady && Done(n, t, h) then IsCleared else Broken
  }

  /** Whether the stream's worker has already switched to the other buffer for its current job. */
  predicate Switched(h: Handle) {
    h.worker == Decompressed || h.worker == Cleared || (h.worker == Waiting && h.outputReady)
  }

  ghost predicate Counters(t: Trace, r: Reader) {
    var n, k := |r.handles|, |t.blocks|;
    && WellFormed(r) && Decodes(r.codec, n, t)
    && r.streamId == r.taken % n && 0 <= r.taken <= k && r.fed == Min(k, r.taken + n)
    && (r.pc.Reading? ==> r.taken > 0) && (!r.pc.Reading? ==> r.taken < k)
    && r.data == t.header + Frames(t.chunks) && r.dataOffset == |t.header + Frames(t.chunks[..r.fed])|
  }

  ghost predicate JobInTurn(r: Reader, s: int) {
    && 0 <= s < |r.handles|
    && r.taken <= r.handles[s].job < r.taken + |r.handles| && r.handles[s].job % |r.handles| == s
  }

  ghost predicate HandleOk(t: Trace, r: Reader, s: int) {
    JobInTurn(r, s) && PhaseOf(|r.handles|, t, r.handles[s], r.fed, r.pc.Feeding? && s == r.streamId) != Broken
  }

  ghost predicate Handles(t: Trace, r: Reader) {
    forall s :: 0 <= s < |r.handles| ==> HandleOk(t, r, s)
  }

  /** The consumer's buffer holds the block it is reading, and the stream's worker is or will be
      busy in the other buffer. */
  ghost predicate Content(t: Trace, r: Reader) {
    && 0 <= r.bufStream < |r.handles| && 0 <= r.taken <= |t.blocks|
    && var h := r.handles[r.bufStream];
       match r.pc
       case Getting => r.out == Flat(t.blocks[..r.taken])
       case Feeding =>
         && r.out == Flat(t.blocks[..r.taken]) && r.offset == 0 && r.bufStream == r.streamId && r.bufFront == h.front
         && r.taken < |t.blocks| && Starts(t.blocks[r.taken], h.Buffer(r.bufFront))
       case Reading => 0 < r.taken && ReadingBlock(t.blocks[..r.taken - 1], t.blocks[r.taken - 1], h, r)
  }

  ghost predicate ReadingBlock(before: seq<Block>, block: Block, h: Handle, r: Reader) {
    && 0 <= r.offset <= |block| && r.out == Flat(before) + block[..r.offset]
    && |r.handles| > 0 && r.bufStream == (r.taken - 1) % |r.handles| && r.bufFront == (h.front != Switched(h))
    && Starts(block, h.Buffer(r.bufFront))
  }

  ghost predicate Inv(t: Trace, r: Reader) {
    Counters(t, r) && Handles(t, r) && Content(t, r)
  }

  lemma HandleFacts(t: Trace, r: Reader, s: int)
    requires Inv(t, r) && 0 <= s < |r.handles|
    ensures HandleOk(t, r, s)
  {
  }

  lemma CounterFacts(t: Trace, r: Reader)
    requires Inv(t, r)
    ensures WellFormed(r) && Decodes(r.codec, |r.handles|, t) && 0 <= r.taken <= |t.blocks| == |t.chunks| && r.fed <= |t.chunks|
    ensures Handles(t, r) && r.fed == Min(|t.blocks|, r.taken + |r.handles|)
    ensures !r.pc.Reading? ==> r.taken < |t.blocks|
    ensures r.pc.Reading? ==> r.taken > 0
  {
  }

  /** The stream the consumer turns to next is the one with the next block. */
  lemma NextJob(t: Trace, r: Reader)
    requires Inv(t, r)
    ensures r.handles[r.streamId].job == r.taken && r.streamId == r.taken % |r.handles|
  {
    HandleFacts(t, r, r.streamId);
    RoundRobin.SameSlot(r.taken, r.handles[r.streamId].job, |r.handles|);
  }

  /** Handles stay in order when only one of them changes, to another proper phase. */
  lemma HandlesKept(t: Trace, r: Reader, v: Reader, slot: int)
    requires Handles(t, r) && |v.handles| == |r.handles| && 0 <= slot < |v.handles|
    requires v.taken == r.taken && v.fed == r.fed
    requires forall s :: 0 <= s < |r.handles| && s != slot ==> v.handles[s] == r.handles[s]
    requires HandleOk(t, v, slot)
    requires (r.pc.Feeding? && r.streamId != slot) || (v.pc.Feeding? && v.streamId != slot) ==> r.pc == v.pc && r.streamId == v.streamId
    ensures Handles(t, v)
  {
    hide PhaseOf;
    forall s | 0 <= s < |v.handles|
      ensures HandleOk(t, v, s)
    {
      assert HandleOk(t, r, s);
    }
  }

  /** The worker takes its handle from one phase to the next; no phase can be left out. The buffer
      that is not its own stays as it is. */
  lemma PhaseAdvances(codec: Codec, n: int, t: Trace, h: Handle, fed: int, collected: bool)
    requires 0 < n && Decodes(codec, n, t) && PhaseOf(n, t, h, fed, collected) != Broken
    requires h.worker == Waiting ==> h.inputReady
    ensures !collected && h.job < fed && |h.bufA| == |h.bufB| == FILE_BUF_SIZE
    ensures var f := Worked(codec, h); var c := h.front != Switched(h);
            && |f.bufA| == |f.bufB| == FILE_BUF_SIZE && f.job == h.job
            && PhaseOf(n, t, f, fed, collected)
               == (match PhaseOf(n, t, h, fed, collected)
                   case IsGiven => IsRunning
                   case IsRunning => IsDecompressed
                   case IsDecompressed => IsCleared
                   case IsCleared => IsReady
                   case _ => Broken)
            && PhaseOf(n, t, f, fed, collected) != Broken
            && c == (f.front != Switched(f)) && f.Buffer(c) == h.Buffer(c)
  {
    assert 0 <= h.job < |t.blocks| && |t.blocks[h.job]| <= FILE_BUF_SIZE;
  }

  lemma WorkHandles(t: Trace, r: Reader, s: int)
    requires Inv(t, r) && Enabled(t, r, Work(s))
    ensures WellFormed(DoWork(r, s)) && Handles(t, DoWork(r, s))
    ensures r.pc.Feeding? ==> s != r.streamId
    ensures var c := r.handles[s].front != Switched(r.handles[s]); var h := DoWork(r, s).handles[s];
            c == (h.front != Switched(h)) && h.Buffer(c) == r.handles[s].Buffer(c)
  {
    hide Inv, PhaseOf, Worked, Decodes, Switched, Handles;
    CounterFacts(t, r);
    HandleFacts(t, r, s);
    PhaseAdvances(r.codec, |r.handles|, t, r.handles[s], r.fed, r.pc.Feeding? && s == r.streamId);
    var v := DoWork(r, s);
    assert HandleOk(t, v, s);
    HandlesKept(t, r, v, s);
  }

  lemma WorkStep(t: Trace, r: Reader, s: int)
    requires Inv(t, r) && Enabled(t, r, Work(s))
    ensures Inv(t, DoWork(r, s))
  {
    WorkHandles(t, r, s);
    hide Handles, Worked, Decodes, Switched, Starts, Flat, Frames;
  }

  lemma ReadyPhase(n: int, t: Trace, h: Handle, fed: int)
    requires h.outputReady && PhaseOf(n, t, h, fed, false) != Broken
    ensures 0 <= h.job < fed <= |t.blocks| && PhaseOf(n, t, h, fed, false) == IsReady
    ensures PhaseOf(n, t, h.(outputReady := false), fed, true) == IsCollected
    ensures Starts(t.blocks[h.job], h.Buffer(h.front))
  {
  }

  lemma AwaitHandles(t: Trace, r: Reader)
    requires Inv(t, r) && Enabled(t, r, Await)
    ensures WellFormed(DoAwait(r)) && Handles(t, DoAwait(r))
    ensures Starts(t.blocks[r.taken], r.handles[r.streamId].Buffer(r.handles[r.streamId].front))
  {
    hide Inv, PhaseOf, Decodes, Handles, Starts;
    var id := r.streamId;
    CounterFacts(t, r);
    HandleFacts(t, r, id);
    NextJob(t, r);
    ReadyPhase(|r.handles|, t, r.handles[id], r.fed);
    var v := DoAwait(r);
    assert HandleOk(t, v, id);
    HandlesKept(t, r, v, id);
  }

  lemma AwaitStep(t: Trace, r: Reader)
    requires Inv(t, r) && Enabled(t, r, Await)
    ensures Inv(t, DoAwait(r))
  {
    AwaitHandles(t, r);
    hide Handles, Decodes, Starts, Flat, Frames;
  }

  /** What is read from the file at the data offset is the next chunk, if there is one. */
  lemma ChunkRead(t: Trace, data: seq<Byte>, at: int, fed: int)
    requires 0 <= fed <= |t.chunks| && data == t.header + Frames(t.chunks) && at == |t.header + Frames(t.chunks[..fed])|
    requires forall i :: 0 <= i < |t.chunks| ==> |t.chunks[i]| < Pow256(4)
    ensures at <= |data| && (at < |data| <==> fed < |t.chunks|)
    ensures fed < |t.chunks| ==> ChunkAt(data, at) == t.chunks[fed]
                                 && at + 4 + SizeAt(data, at) == |t.header + Frames(t.chunks[..fed + 1])| <= |data|
  {
    hide Frames, ToBytes, FromBytes, Pow256;
    if fed < |t.chunks| {
      FrameAt(t.header, t.chunks, fed);
      BytesRoundTrip(|t.chunks[fed]|, 4);
    } else {
      assert t.chunks[..fed] == t.chunks;
    }
  }

  lemma FedHandle(n: int, t: Trace, h: Handle, fed: int, f: Handle)
    requires 0 <= h.job < fed && PhaseOf(n, t, h, fed, true) != Broken
    requires f == h.(job := h.job + n, inputReady := f.inputReady, src := f.src)
    requires f.inputReady ==> h.job + n == fed < |t.chunks| && f.src == t.chunks[fed]
    requires !f.inputReady ==> h.job + n >= fed
    ensures PhaseOf(n, t, f, if f.inputReady then fed + 1 else fed, false) != Broken
    ensures f.job % n == h.job % n && !Switched(f)
  {
    assert Past(t.chunks, h.job + n, n) == Past(t.chunks, h.job, n) + [t.chunks[h.job]];
    RoundRobin.NextTurn(h.job, n);
  }

  lemma MoreFed(n: int, t: Trace, h: Handle, fed: int)
    requires 0 <= h.job < fed < |t.chunks|
    ensures PhaseOf(n, t, h, fed + 1, false) == PhaseOf(n, t, h, fed, false)
  {
  }

  lemma CollectedHandle(n: int, t: Trace, h: Handle, fed: int)
    requires 0 <= h.job < fed && PhaseOf(n, t, h, fed, true) != Broken
    ensures !h.inputReady && !h.outputReady && h.worker == Waiting
  {
  }

  lemma NextChunk(t: Trace, r: Reader)
    requires Inv(t, r)
    ensures r.dataOffset < |r.data| <==> r.fed < |t.chunks|
    ensures r.fed < |t.chunks| ==>
              && ChunkAt(r.data, r.dataOffset) == t.chunks[r.fed]
              && r.dataOffset + 4 + SizeAt(r.data, r.dataOffset) == |t.header + Frames(t.chunks[..r.fed + 1])| <= |r.data|
    ensures 0 <= r.fed && r.dataOffset == |t.header + Frames(t.chunks[..r.fed])|
  {
    hide Handles, Content, Frames;
    ChunkRead(t, r.data, r.dataOffset, r.fed);
  }

  lemma FeedCounters(t: Trace, r: Reader)
    requires Inv(t, r) && Enabled(t, r, Feed)
    ensures var v := DoFeed(r);
            && WellFormed(v) && v.fed == Min(|t.blocks|, v.taken + |r.handles|) && v.fed <= |t.chunks|
            && v.dataOffset == |t.header + Frames(t.chunks[..v.fed])|
  {
    hide Inv, Frames, SizeAt, ChunkAt, Decodes, Handles;
    CounterFacts(t, r);
    NextChunk(t, r);
  }

  /** The handle just fed; whether it got another chunk or not, it stands on the buffer the consumer reads. */
  lemma FeedHandle(t: Trace, r: Reader)
    requires Inv(t, r) && Enabled(t, r, Feed)
    ensures HandleOk(t, DoFeed(r), r.streamId) && !Switched(DoFeed(r).handles[r.streamId])
  {
    hide Inv, Frames, PhaseOf, SizeAt, ChunkAt, Decodes, Switched, Handles;
    CounterFacts(t, r);
    HandleFacts(t, r, r.streamId);
    NextJob(t, r);
    NextChunk(t, r);
    CollectedHandle(|r.handles|, t, r.handles[r.streamId], r.fed);
    FedHandle(|r.handles|, t, r.handles[r.streamId], r.fed, DoFeed(r).handles[r.streamId]);
  }

  lemma FeedOther(t: Trace, r: Reader, s: int)
    requires Inv(t, r) && Enabled(t, r, Feed) && 0 <= s < |r.handles| && s != r.streamId
    ensures HandleOk(t, DoFeed(r), s)
  {
    hide Inv, Frames, PhaseOf, SizeAt, ChunkAt, Decodes, Handles;
    CounterFacts(t, r);
    HandleFacts(t, r, s);
    NextJob(t, r);
    NextChunk(t, r);
    InTurnElsewhere(r.handles[s].job, r.taken, |r.handles|, s, r.streamId);
    assert |DoFeed(r).handles| == |r.handles| && DoFeed(r).handles[s] == r.handles[s] && DoFeed(r).taken == r.taken + 1;
    if DoFeed(r).fed != r.fed {
      MoreFed(|r.handles|, t, r.handles[s], r.fed);
    }
  }

  lemma InTurnElsewhere(job: int, taken: int, n: int, s: int, id: int)
    requires 0 < n && taken <= job < taken + n && job % n == s && taken % n == id && s != id
    ensures taken + 1 <= job
  {
  }

  lemma FeedHandles(t: Trace, r: Reader)
    requires Inv(t, r) && Enabled(t, r, Feed)
    ensures Handles(t, DoFeed(r)) && !Switched(DoFeed(r).handles[r.streamId])
  {
    hide Inv, HandleOk, Switched, SizeAt, ChunkAt;
    CounterFacts(t, r);
    FeedHandle(t, r);
    forall s | 0 <= s < |r.handles| && s != r.streamId
      ensures HandleOk(t, DoFeed(r), s)
    {
      FeedOther(t, r, s);
    }
    hide DoFeed;
    assert |DoFeed(r).handles| == |r.handles| by { FedShape(r); }
  }

  lemma FedShape(r: Reader)
    requires WellFormed(r)
    ensures |DoFeed(r).handles| == |r.handles|
  {
  }

  lemma FeedStep(t: Trace, r: Reader)
    requires Inv(t, r) && Enabled(t, r, Feed)
    ensures Inv(t, DoFeed(r))
  {
    hide Frames, Handles, Decodes, Content, SizeAt, ChunkAt;
    FeedCounters(t, r);
    FeedHandles(t, r);
    FeedContent(t, r);
    RoundRobin.NextSlot(r.taken, |r.handles|);
  }

  lemma FeedContent(t: Trace, r: Reader)
    requires Inv(t, r) && Enabled(t, r, Feed)
    ensures WellFormed(DoFeed(r)) && 0 < DoFeed(r).taken <= |t.blocks| && Content(t, DoFeed(r))
  {
    hide Handles, Decodes, Starts, SizeAt, ChunkAt, Frames, Flat, Switched;
    CounterFacts(t, r);
    FeedCounters(t, r);
    FeedHandles(t, r);
    assert Flat(t.blocks[..r.taken]) + t.blocks[r.taken][..0] == Flat(t.blocks[..r.taken]);
  }

  /** A step of the consumer on its own buffer concerns no handle. */
  lemma SameHandles(t: Trace, r: Reader, v: Reader)
    requires Inv(t, r) && WellFormed(v) && v.handles == r.handles && v.taken == r.taken && v.fed == r.fed
    requires !r.pc.Feeding? && !v.pc.Feeding?
    ensures Handles(t, v)
  {
    hide Inv, PhaseOf, Handles, Decodes;
    CounterFacts(t, r);
    HandleFacts(t, r, 0);
    assert HandleOk(t, v, 0);
    HandlesKept(t, r, v, 0);
  }

  lemma ConsumeStep(t: Trace, r: Reader, k: int)
    requires Inv(t, r) && Enabled(t, r, Consume(k))
    ensures r.offset + k <= FILE_BUF_SIZE && Inv(t, DoConsume(r, k))
    ensures DoConsume(r, k).out == r.out + t.blocks[r.taken - 1][r.offset..r.offset + k]
  {
    hide Handles, Frames, Flat, Starts, Switched, Decodes, Past;
    CounterFacts(t, r);
    FullBlock(r.codec, |r.handles|, t, r.taken - 1);
    var v := DoConsume(r, k);
    SameHandles(t, r, v);
    var block, b := t.blocks[r.taken - 1], r.handles[r.bufStream].Buffer(r.bufFront);
    SameSlice(b, block, r.offset, r.offset + k);
    Regroup(Flat(t.blocks[..r.taken - 1]), block, r.offset, r.offset + k);
  }

  lemma Regroup(p: seq<Byte>, block: Block, i: int, j: int)
    requires 0 <= i <= j <= |block|
    ensures p + block[..i] + block[i..j] == p + block[..j]
  {
  }

  lemma SameSlice(b: Block, block: Block, i: int, j: int)
    requires Starts(block, b) && 0 <= i <= j <= |block|
    ensures b[i..j] == block[i..j]
  {
    assert forall k :: 0 <= k < |block| ==> b[k] == b[..|block|][k] == block[k];
  }

  lemma FullBlock(codec: Codec, n: int, t: Trace, i: int)
    requires 0 < n && Decodes(codec, n, t) && 0 <= i < |t.blocks|
    ensures |t.blocks[i]| <= FILE_BUF_SIZE && (i < |t.blocks| - 1 ==> |t.blocks[i]| == FILE_BUF_SIZE)
  {
  }

  lemma NextStep(t: Trace, r: Reader)
    requires Inv(t, r) && Enabled(t, r, Next)
    ensures Inv(t, r.(pc := Getting))
  {
    hide Handles, Frames, Flat, Starts, Switched, Decodes, Past;
    CounterFacts(t, r);
    var block := t.blocks[r.taken - 1];
    FullBlock(r.codec, |r.handles|, t, r.taken - 1);
    assert block[..r.offset] == block;
    SameHandles(t, r, r.(pc := Getting));
    FlatPush(t.blocks[..r.taken - 1], block);
    assert t.blocks[..r.taken - 1] + [block] == t.blocks[..r.taken];
  }

  lemma StepKeepsInv(t: Trace, r: Reader, e: Event)
    requires Inv(t, r) && Enabled(t, r, e)
    ensures Inv(t, Step(t, r, e))
  {
    hide DoAwait, DoFeed, DoConsume, DoWork, Handles, Content;
    match e
    case Await => AwaitStep(t, r);
    case Feed => FeedStep(t, r);
    case Consume(k) => ConsumeStep(t, r, k);
    case Next => NextStep(t, r);
    case Work(s) => WorkStep(t, r, s);
  }

  function EmptyBuffer(): (b: Block)
    ensures |b| == FILE_BUF_SIZE
  {
    seq(FILE_BUF_SIZE, _ => 0)
  }

  /** A stream as set up when the file is opened: its first chunk is already handed to its worker. */
  function OpenedHandle(chunk: Block, s: int): Handle {
    Handle(EmptyBuffer(), EmptyBuffer(), true, [], chunk, true, false, Waiting, s)
  }

  /** Right after opening: the first n chunks have gone to the n streams. */
  ghost function Start(codec: Codec, t: Trace, n: int): Reader
    requires 0 < n <= |t.chunks|
  {
    Reader(codec, t.header + Frames(t.chunks), |t.header + Frames(t.chunks[..n])|,
           seq(n, s requires 0 <= s < n => OpenedHandle(t.chunks[s], s)), 0, 0, true, 0, Getting, 0, n, [])
  }

  lemma StartInv(codec: Codec, t: Trace, n: int)
    requires 0 < n <= |t.chunks| && Decodes(codec, n, t)
    ensures Inv(t, Start(codec, t, n))
  {
    hide Frames, Decodes, Pow256;
    var r := Start(codec, t, n);
    OffsetInFile(t, n);
    SizesAgree(codec, n, t);
    RoundRobin.SlotOfItself(0, n);
    forall s | 0 <= s < n
      ensures HandleOk(t, r, s)
    {
      RoundRobin.SlotOfItself(s, n);
    }
    assert t.blocks[..0] == [];
  }

  lemma SizesAgree(codec: Codec, n: int, t: Trace)
    requires 0 < n && Decodes(codec, n, t)
    ensures |t.chunks| == |t.blocks| && n <= |t.blocks|
    ensures forall i :: 0 <= i < |t.chunks| ==> |t.chunks[i]| < Pow256(4)
  {
  }

  lemma OffsetInFile(t: Trace, i: int)
    requires 0 <= i <= |t.chunks|
    ensures |t.header + Frames(t.chunks[..i])| <= |t.header + Frames(t.chunks)|
  {
    if i < |t.chunks| {
      FrameAt(t.header, t.chunks, i);
    } else {
      assert t.chunks[..i] == t.chunks;
    }
  }

  ghost predicate Runnable(t: Trace, r: Reader, events: seq<Event>)
    requires Divided(t.blocks)
    decreases |events|
  {
    events == [] || (WellFormed(r) && Enabled(t, r, events[0]) && Runnable(t, Step(t, r, events[0]), events[1..]))
  }

  ghost function After(t: Trace, r: Reader, events: seq<Event>): Reader
    requires Divided(t.blocks) && Runnable(t, r, events)
    decreases |events|
  {
    if events == [] then r else After(t, Step(t, r, events[0]), events[1..])
  }

  /** How many bytes a run reads and skips. */
  function Consumed(events: seq<Event>): int {
    if events == [] then 0 else (if events[0].Consume? then events[0].k else 0) + Consumed(events[1..])
  }

  lemma StepShape(t: Trace, r: Reader, e: Event)
    requires WellFormed(r) && Divided(t.blocks) && Enabled(t, r, e)
    ensures |Step(t, r, e).out| == |r.out| + if e.Consume? then e.k else 0
  {
  }

  lemma {:induction false} EveryRunKeepsInv(t: Trace, r: Reader, events: seq<Event>)
    requires Divided(t.blocks) && Inv(t, r) && Runnable(t, r, events)
    ensures Inv(t, After(t, r, events)) && |After(t, r, events).out| == |r.out| + Consumed(events)
    decreases |events|
  {
    hide Inv, Step, Enabled, WellFormed, Divided;
    if events != [] {
      StepKeepsInv(t, r, events[0]);
      StepShape(t, r, events[0]);
      EveryRunKeepsInv(t, Step(t, r, events[0]), events[1..]);
    }
  }

  /** What the consumer has seen is always a beginning of the byte stream. */
  lemma OutIsPrefix(t: Trace, r: Reader)
    requires Inv(t, r)
    ensures |r.out| <= |Flat(t.blocks)| && r.out == Flat(t.blocks)[..|r.out|]
  {
    hide Handles, Frames, Flat, Starts, Switched, Decodes, Past;
    CounterFacts(t, r);
    FlatPrefix(t.blocks, r.taken);
    if r.pc.Reading? {
      var before, block := t.blocks[..r.taken - 1], t.blocks[r.taken - 1];
      FlatPush(before, block);
      assert before + [block] == t.blocks[..r.taken];
      Beginning(Flat(before), block, r.offset, Flat(t.blocks));
    }
  }

  lemma Beginning(p: seq<Byte>, block: Block, i: int, s: seq<Byte>)
    requires 0 <= i <= |block| && |p + block| <= |s| && s[..|p + block|] == p + block
    ensures (p + block[..i]) == s[..|p| + i]
  {
    assert s[..|p| + i] == s[..|p + block|][..|p| + i];
  }

  /** In every run the bytes read and skipped are the first bytes of the stream, however the steps of
      the workers fall. */
  lemma ReadsInOrder(codec: Codec, t: Trace, n: int, events: seq<Event>)
    requires 0 < n <= |t.chunks| && Decodes(codec, n, t) && Runnable(t, Start(codec, t, n), events)
    ensures 0 <= Consumed(events) <= |Flat(t.blocks)|
    ensures After(t, Start(codec, t, n), events).out == Flat(t.blocks)[..Consumed(events)]
  {
    hide Inv, Decodes, Runnable, After, Divided;
    assert Divided(t.blocks) by { TraceDivided(codec, n, t); }
    StartInv(codec, t, n);
    EveryRunKeepsInv(t, Start(codec, t, n), events);
    OutIsPrefix(t, After(t, Start(codec, t, n), events));
  }

  lemma TraceDivided(codec: Codec, n: int, t: Trace)
    requires 0 < n && Decodes(codec, n, t)
    ensures Divided(t.blocks)
  {
  }

  /** No step of a worker touches the buffer the consumer reads, nor the stream it is feeding. */
  lemma NoInterference(t: Trace, r: Reader, s: int)
    requires Inv(t, r) && Enabled(t, r, Work(s))
    ensures r.pc.Feeding? ==> s != r.streamId
    ensures !r.pc.Getting? ==> DoWork(r, s).handles[r.bufStream].Buffer(r.bufFront) == r.handles[r.bufStream].Buffer(r.bufFront)
  {
    hide Handles, Worked, Decodes, Switched, Starts, Flat, Frames;
    WorkHandles(t, r, s);
  }

  /** So it is in every run. */
  lemma NoInterferenceInRuns(codec: Codec, t: Trace, n: int, events: seq<Event>, s: int)
    requires 0 < n <= |t.chunks| && Decodes(codec, n, t) && Divided(t.blocks) && Runnable(t, Start(codec, t, n), events)
    ensures var r := After(t, Start(codec, t, n), events);
            WellFormed(r) && (Enabled(t, r, Work(s)) ==>
              && (r.pc.Feeding? ==> s != r.streamId)
              && (!r.pc.Getting? ==>
                    DoWork(r, s).handles[r.bufStream].Buffer(r.bufFront) == r.handles[r.bufStream].Buffer(r.bufFront)))
  {
    hide *;
    StartInv(codec, t, n);
    EveryRunKeepsInv(t, Start(codec, t, n), events);
    var r := After(t, Start(codec, t, n), events);
    CounterFacts(t, r);
    if Enabled(t, r, Work(s)) {
      NoInterference(t, r, s);
    }
  }

  /** While a stream's worker has not switched buffers yet, the current one begins with the block the stream
      decompressed last. */
  ghost predicate PreviousKept(t: Trace, n: int, h: Handle) {
    !Switched(h) && n <= h.job && h.job - n < |t.blocks| ==> Starts(t.blocks[h.job - n], h.Buffer(h.front))
  }

  ghost predicate KeepsPrevious(t: Trace, r: Reader) {
    forall s :: 0 <= s < |r.handles| && !(r.pc.Feeding? && s == r.streamId) ==> PreviousKept(t, |r.handles|, r.handles[s])
  }

  lemma WorkedKeeps(codec: Codec, t: Trace, n: int, h: Handle)
    requires |h.bufA| == |h.bufB| == FILE_BUF_SIZE && PreviousKept(t, n, h) && (h.worker == Waiting ==> h.inputReady && !h.outputReady)
    ensures PreviousKept(t, n, Worked(codec, h))
  {
    hide Starts;
  }

  /** The handle just fed: the block it has decompressed is the previous one now. */
  lemma FedKeeps(t: Trace, n: int, h: Handle, f: Handle, fed: int)
    requires PhaseOf(n, t, h, fed, true) != Broken && f.bufA == h.bufA && f.bufB == h.bufB && f.front == h.front && f.job == h.job + n
    ensures PreviousKept(t, n, f)
  {
  }

  /** Whatever else changes of a handle that has not switched. */
  lemma StillKept(t: Trace, n: int, h: Handle, f: Handle)
    requires PreviousKept(t, n, h) && (Switched(h) ==> Switched(f))
    requires f.bufA == h.bufA && f.bufB == h.bufB && f.front == h.front && f.job == h.job
    ensures PreviousKept(t, n, f)
  {
    hide Starts;
  }

  lemma PreviousAt(t: Trace, r: Reader, s: int)
    requires KeepsPrevious(t, r) && 0 <= s < |r.handles| && !(r.pc.Feeding? && s == r.streamId)
    ensures PreviousKept(t, |r.handles|, r.handles[s])
  {
  }

  /** A worker that is given a step is not the one being fed. */
  lemma WorkingHandle(t: Trace, r: Reader, s: int)
    requires Inv(t, r) && Enabled(t, r, Work(s))
    ensures !(r.pc.Feeding? && s == r.streamId) && (r.handles[s].worker == Waiting ==> r.handles[s].inputReady && !r.handles[s].outputReady)
  {
    hide Content, Decodes, Starts;
    HandleFacts(t, r, s);
  }

  lemma StepKeepsPrevious(t: Trace, r: Reader, e: Event)
    requires Inv(t, r) && KeepsPrevious(t, r) && Enabled(t, r, e)
    ensures KeepsPrevious(t, Step(t, r, e))
  {
    hide Inv, PreviousKept, Worked, Starts, Decodes, PhaseOf, Handles, HandleOk;
    CounterFacts(t, r);
    var v := Step(t, r, e);
    forall s | 0 <= s < |v.handles| && !(v.pc.Feeding? && s == v.streamId)
      ensures PreviousKept(t, |v.handles|, v.handles[s])
    {
      var n, h := |r.handles|, r.handles[s];
      match e
      case Work(k) =>
        if s == k {
          WorkingHandle(t, r, s);
          PreviousAt(t, r, s);
          WorkedKeeps(r.codec, t, n, h);
        } else {
          PreviousAt(t, r, s);
        }
      case Feed =>
        if s == r.streamId {
          HandleFacts(t, r, s);
          FedPhase(t, r, s);
          FedKeeps(t, n, h, v.handles[s], r.fed);
        } else {
          PreviousAt(t, r, s);
        }
      case _ =>
        PreviousAt(t, r, s);
        StillKept(t, n, h, v.handles[s]);
    }
  }

  lemma FedPhase(t: Trace, r: Reader, s: int)
    requires HandleOk(t, r, s) && r.pc.Feeding? && s == r.streamId
    ensures PhaseOf(|r.handles|, t, r.handles[s], r.fed, true) != Broken
  {
    hide PhaseOf;
  }

  lemma {:induction false} RunKeepsPrevious(t: Trace, r: Reader, events: seq<Event>)
    requires Divided(t.blocks) && Inv(t, r) && KeepsPrevious(t, r) && Runnable(t, r, events)
    ensures KeepsPrevious(t, After(t, r, events))
    decreases |events|
  {
    hide Inv, Step, Enabled, WellFormed, Divided, KeepsPrevious;
    if events != [] {
      StepKeepsPrevious(t, r, events[0]);
      StepKeepsInv(t, r, events[0]);
      RunKeepsPrevious(t, Step(t, r, events[0]), events[1..]);
    }
  }

  /** What the second buffer is for: in every run, while a worker decompresses a chunk, the previous block of its
      stream is still in the buffer it is about to leave, where a streaming codec looks for it. */
  lemma PreviousBlockStays(codec: Codec, t: Trace, n: int, events: seq<Event>, s: int)
    requires 0 < n <= |t.chunks| && Decodes(codec, n, t) && Divided(t.blocks) && Runnable(t, Start(codec, t, n), events)
    ensures var r := After(t, Start(codec, t, n), events);
            |r.handles| == n && (0 <= s < n && r.handles[s].worker == Running && r.handles[s].job >= n ==>
              var h := r.handles[s]; h.job - n < |t.blocks| && Starts(t.blocks[h.job - n], h.Buffer(h.front)))
  {
    hide *;
    StartInv(codec, t, n);
    StartKeepsPrevious(codec, t, n);
    EveryRunKeepsInv(t, Start(codec, t, n), events);
    RunKeepsPrevious(t, Start(codec, t, n), events);
    RunShape(t, Start(codec, t, n), events);
    var r := After(t, Start(codec, t, n), events);
    if 0 <= s < n && r.handles[s].worker == Running && r.handles[s].job >= n {
      RunningHandle(t, r, s);
    }
  }

  lemma StartKeepsPrevious(codec: Codec, t: Trace, n: int)
    requires 0 < n <= |t.chunks|
    ensures KeepsPrevious(t, Start(codec, t, n)) && |Start(codec, t, n).handles| == n
  {
  }

  lemma {:induction false} RunShape(t: Trace, r: Reader, events: seq<Event>)
    requires Divided(t.blocks) && Runnable(t, r, events)
    ensures |After(t, r, events).handles| == |r.handles|
    decreases |events|
  {
    hide Enabled, WellFormed, Divided;
    if events == [] {
      assert After(t, r, events) == r;
    } else {
      StepSize(t, r, events[0]);
      RunShape(t, Step(t, r, events[0]), events[1..]);
    }
  }

  lemma StepSize(t: Trace, r: Reader, e: Event)
    requires WellFormed(r) && Divided(t.blocks) && Enabled(t, r, e)
    ensures |Step(t, r, e).handles| == |r.handles|
  {
  }

  lemma RunningHandle(t: Trace, r: Reader, s: int)
    requires Inv(t, r) && KeepsPrevious(t, r) && 0 <= s < |r.handles| && r.handles[s].worker == Running && r.handles[s].job >= |r.handles|
    ensures var h := r.handles[s]; h.job - |r.handles| < |t.blocks| && Starts(t.blocks[h.job - |r.handles|], h.Buffer(h.front))
  {
    hide Content, Starts, Frames, Decodes, Past;
    HandleFacts(t, r, s);
    assert PreviousKept(t, |r.handles|, r.handles[s]);
  }

  function StepsLeft(h: Handle): int {
    match h.worker
    case Waiting => if h.inputReady then 4 else 0
    case Running => 3
    case Decompressed => 2
    case Cleared => 1
  }

  lemma BusyHandle(codec: Codec, n: int, t: Trace, h: Handle, fed: int)
    requires h.job < fed && PhaseOf(n, t, h, fed, false) != Broken
    ensures h.outputReady || h.worker != Waiting || h.inputReady
    ensures !h.outputReady ==> |h.bufA| == |h.bufB| == FILE_BUF_SIZE && StepsLeft(Worked(codec, h)) == StepsLeft(h) - 1
  {
  }

  lemma AllRead(t: Trace, r: Reader)
    requires Inv(t, r) && r.pc.Reading? && r.offset >= |t.blocks[r.taken - 1]|
    ensures r.taken == |t.blocks| ==> r.out == Flat(t.blocks)
  {
    hide Handles, Decodes, Switched, Starts, Flat, Frames;
    var block := t.blocks[r.taken - 1];
    assert block[..r.offset] == block;
    FlatPush(t.blocks[..r.taken - 1], block);
    assert t.blocks[..r.taken - 1] + [block] == t.blocks[..r.taken];
    assert t.blocks[..|t.blocks|] == t.blocks;
  }

  /** As long as there is something to read nothing is stuck: the consumer can go on, or it waits for a
      stream whose worker can, and which is done after at most four steps of its own. */
  lemma NeverStuck(t: Trace, r: Reader) returns (e: Event)
    requires Inv(t, r) && r.out != Flat(t.blocks)
    ensures Enabled(t, r, e) && (e.Consume? ==> e.k > 0)
    ensures e.Work? ==> r.pc.Getting? && e.s == r.streamId
                        && StepsLeft(DoWork(r, e.s).handles[e.s]) == StepsLeft(r.handles[e.s]) - 1
  {
    hide Handles, Worked, Decodes, Switched, Starts, Flat, Frames, PhaseOf;
    CounterFacts(t, r);
    match r.pc
    case Feeding => e := Feed;
    case Getting =>
      HandleFacts(t, r, r.streamId);
      NextJob(t, r);
      BusyHandle(r.codec, |r.handles|, t, r.handles[r.streamId], r.fed);
      e := if r.handles[r.streamId].outputReady then Await else Work(r.streamId);
    case Reading =>
      var block := t.blocks[r.taken - 1];
      FullBlock(r.codec, |r.handles|, t, r.taken - 1);
      if r.offset < |block| {
        e := Consume(1);
      } else {
        AllRead(t, r);
        e := Next;
      }
  }
}
