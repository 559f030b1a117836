/** The trace file: a header, then blocks of the byte stream compressed by several codecs in turn. */
module FileFormat {
  import opened Bytes

  const FILE_BUF_SIZE := 65536
  const TRACY_HEADER: seq<Byte> := [116, 114, 253, 80]
  const LZ4_HEADER: seq<Byte> := [116, 108, 90, 4]
  const ZSTD_HEADER: seq<Byte> := [116, 90, 115, 116]

  type Block = seq<Byte>

  /** A streaming codec: what it makes of a block depends on the blocks it has seen before, and its
      decoder depends on the chunks it has seen before. */
  datatype Codec = Codec(enc: (seq<Block>, Block) -> Block, dec: (seq<Block>, Block) -> Block)

  /** The chunks an encoder makes of a series of blocks. */
  function EncodeAll(codec: Codec, blocks: seq<Block>): (chunks: seq<Block>)
    ensures |chunks| == |blocks|
  {
    seq(|blocks|, i requires 0 <= i < |blocks| => codec.enc(blocks[..i], blocks[i]))
  }

  /** The decoder undoes the encoder block by block, and a chunk's size fits its length field. */
  ghost predicate Undoes(codec: Codec) {
    forall past: seq<Block>, block: Block ::
      |block| <= FILE_BUF_SIZE ==>
        && |codec.enc(past, block)| < Pow256(4)
        && codec.dec(EncodeAll(codec, past), codec.enc(past, block)) == block
  }

  /** What went to the stream of item i, of n streams used in turn, before it. */
  function Past(items: seq<Block>, i: int, n: int): (past: seq<Block>)
    requires 0 < n && i - n < |items|
    decreases i
  {
    if i < n then [] else Past(items, i - n, n) + [items[i - n]]
  }

  /** The earlier items of a stream are every n-th one. */
  lemma {:induction false} PastIs(items: seq<Block>, i: int, n: int)
    requires 0 < n && 0 <= i && i - n < |items|
    ensures |Past(items, i, n)| == i / n
    ensures forall k :: 0 <= k < i / n ==> 0 <= i % n + k * n < |items| && Past(items, i, n)[k] == items[i % n + k * n]
    decreases i
  {
    if i >= n {
      OneLess(i, n);
      PastIs(items, i - n, n);
      var q := i / n - 1;
      forall k | 0 <= k < i / n
        ensures 0 <= i % n + k * n < |items| && Past(items, i, n)[k] == items[i % n + k * n]
      {
        if k == q {
          assert i % n + q * n == i - n;
        }
      }
    }
  }

  lemma OneLess(i: int, n: int)
    requires 0 < n <= i
    ensures (i - n) / n == i / n - 1 && (i - n) % n == i % n && i == (i / n) * n + i % n
  {
    var q, r := i / n, i % n;
    assert i == q * n + r;
    assert i - n == n * (q - 1) + r;
    Quotient(i - n, n, q - 1, r);
  }

  lemma {:induction false} PastOfPrefix(items: seq<Block>, more: seq<Block>, i: int, n: int)
    requires 0 < n && i - n < |items|
    ensures Past(items + more, i, n) == Past(items, i, n)
    decreases i
  {
    if i >= n {
      PastOfPrefix(items, more, i - n, n);
    }
  }

  /** The chunk of block i when n codecs take turns. */
  function ChunkOf(codec: Codec, n: int, blocks: seq<Block>, i: int): Block
    requires 0 < n && 0 <= i < |blocks|
  {
    codec.enc(Past(blocks, i, n), blocks[i])
  }

  function Chunks(codec: Codec, n: int, blocks: seq<Block>): (chunks: seq<Block>)
    requires 0 < n
    ensures |chunks| == |blocks|
  {
    seq(|blocks|, i requires 0 <= i < |blocks| => ChunkOf(codec, n, blocks, i))
  }

  lemma EncodeAllPush(codec: Codec, past: seq<Block>, block: Block)
    ensures EncodeAll(codec, past + [block]) == EncodeAll(codec, past) + [codec.enc(past, block)]
  {
    var all := past + [block];
    assert all[..|past|] == past;
    forall k | 0 <= k < |past|
      ensures EncodeAll(codec, all)[k] == EncodeAll(codec, past)[k]
    {
      assert all[..k] == past[..k];
    }
  }

  /** The chunks one decoder sees are those one encoder made. */
  lemma {:induction false} PastChunks(codec: Codec, n: int, blocks: seq<Block>, i: int)
    requires 0 < n && i - n < |blocks|
    ensures Past(Chunks(codec, n, blocks), i, n) == EncodeAll(codec, Past(blocks, i, n))
    decreases i
  {
    hide EncodeAll;
    if i >= n {
      PastChunks(codec, n, blocks, i - n);
      EncodeAllPush(codec, Past(blocks, i - n, n), blocks[i - n]);
    } else {
      assert EncodeAll(codec, []) == [] by { NothingEncoded(codec); }
    }
  }

  lemma NothingEncoded(codec: Codec)
    ensures EncodeAll(codec, []) == []
  {
  }

  /** Decoding chunk i with the decoder that has seen the earlier chunks of its stream gives block i. */
  lemma DecodesBlock(codec: Codec, n: int, blocks: seq<Block>, i: int)
    requires 0 < n && 0 <= i < |blocks| && Undoes(codec) && |blocks[i]| <= FILE_BUF_SIZE
    ensures codec.dec(Past(Chunks(codec, n, blocks), i, n), Chunks(codec, n, blocks)[i]) == blocks[i]
    ensures |Chunks(codec, n, blocks)[i]| < Pow256(4)
  {
    PastChunks(codec, n, blocks, i);
  }

  /** A chunk with its length in front. */
  function Frame(chunk: Block): (frame: seq<Byte>)
    ensures |frame| == 4 + |chunk|
  {
    ToBytes(|chunk|, 4) + chunk
  }

  function Frames(chunks: seq<Block>): (s: seq<Byte>) {
    if chunks == [] then [] else Frames(chunks[..|chunks| - 1]) + Frame(chunks[|chunks| - 1])
  }

  function Header(kind: Byte, streams: Byte): seq<Byte> {
    TRACY_HEADER + [kind, streams]
  }

  lemma FramesPush(chunks: seq<Block>, chunk: Block)
    ensures Frames(chunks + [chunk]) == Frames(chunks) + Frame(chunk)
  {
    assert (chunks + [chunk])[..|chunks|] == chunks;
  }

  /** The first chunks make up the first frames. */
  lemma {:induction false} FramesPrefix(chunks: seq<Block>, i: int)
    requires 0 <= i <= |chunks|
    ensures |Frames(chunks[..i])| <= |Frames(chunks)| && Frames(chunks)[..|Frames(chunks[..i])|] == Frames(chunks[..i])
    decreases |chunks|
  {
    hide Frame;
    if i == |chunks| {
      assert chunks[..i] == chunks;
    } else {
      var rest := chunks[..|chunks| - 1];
      FramesPrefix(rest, i);
      assert rest[..i] == chunks[..i];
    }
  }

  /** Chunk i and its length can be read back where the frames before it end. */
  lemma FrameAt(front: seq<Byte>, chunks: seq<Block>, i: int)
    requires 0 <= i < |chunks|
    ensures var s := front + Frames(chunks); var at := |front + Frames(chunks[..i])|;
            && at + 4 + |chunks[i]| == |front + Frames(chunks[..i + 1])| <= |s|
            && s[at..at + 4] == ToBytes(|chunks[i]|, 4) && s[at + 4..at + 4 + |chunks[i]|] == chunks[i]
  {
    hide Frames, ToBytes;
    FramesPrefix(chunks, i + 1);
    assert chunks[..i + 1] == chunks[..i] + [chunks[i]];
    FramesPush(chunks[..i], chunks[i]);
    SliceOfPrefix(front, Frames(chunks[..i]), ToBytes(|chunks[i]|, 4), chunks[i], Frames(chunks));
  }

  lemma SliceOfPrefix(front: seq<Byte>, p: seq<Byte>, q: seq<Byte>, r: seq<Byte>, s: seq<Byte>)
    requires |p + (q + r)| <= |s| && s[..|p + (q + r)|] == p + (q + r)
    ensures var at := |front + p|;
            && (front + s)[at..at + |q|] == q && (front + s)[at + |q|..at + |q| + |r|] == r
  {
    var rest := s[|p + (q + r)|..];
    assert s == p + (q + r) + rest;
    assert front + s == (front + p) + q + (r + rest);
    assert front + s == (front + p + q) + r + rest;
  }

  function Flat(blocks: seq<Block>): (s: seq<Byte>) {
    if blocks == [] then [] else Flat(blocks[..|blocks| - 1]) + blocks[|blocks| - 1]
  }

  lemma FlatPush(blocks: seq<Block>, block: Block)
    ensures Flat(blocks + [block]) == Flat(blocks) + block
  {
    assert (blocks + [block])[..|blocks|] == blocks;
  }

  /** Every block is full except that the last one need only be nonempty. */
  ghost predicate Divided(blocks: seq<Block>) {
    && (forall i :: 0 <= i < |blocks| - 1 ==> |blocks[i]| == FILE_BUF_SIZE)
    && (|blocks| > 0 ==> 0 < |blocks[|blocks| - 1]| <= FILE_BUF_SIZE)
  }

  /** The blocks of a byte stream. */
  function Divide(data: seq<Byte>): (blocks: seq<Block>)
    decreases |data|
  {
    if |data| == 0 then [] else
      var k := (|data| - 1) / FILE_BUF_SIZE * FILE_BUF_SIZE;
      Divide(data[..k]) + [data[k..]]
  }

  /** Full blocks have a length that is a multiple of the block size. */
  lemma {:induction false} FullLength(blocks: seq<Block>)
    requires forall i :: 0 <= i < |blocks| ==> |blocks[i]| == FILE_BUF_SIZE
    ensures |Flat(blocks)| == |blocks| * FILE_BUF_SIZE
    decreases |blocks|
  {
    if |blocks| > 0 {
      FullLength(blocks[..|blocks| - 1]);
    }
  }

  /** There is one way to divide a byte stream, however it was handed over. */
  lemma {:induction false} DividedOnlyOneWay(blocks: seq<Block>)
    requires Divided(blocks)
    ensures Divide(Flat(blocks)) == blocks
    decreases |blocks|
  {
    if |blocks| > 0 {
      var rest, block := blocks[..|blocks| - 1], blocks[|blocks| - 1];
      FullLength(rest);
      DividedOnlyOneWay(rest);
      var data := Flat(blocks);
      WholeBlocks(|rest|, |block|);
      assert data == Flat(rest) + block;
      assert data[..|Flat(rest)|] == Flat(rest) && data[|Flat(rest)|..] == block;
    }
  }

  lemma WholeBlocks(n: int, m: int)
    requires 0 <= n && 0 < m <= FILE_BUF_SIZE
    ensures (n * FILE_BUF_SIZE + m - 1) / FILE_BUF_SIZE == n
  {
  }

  /** Dividing a byte stream loses nothing. */
  lemma {:induction false} DivideIsDivided(data: seq<Byte>)
    ensures Divided(Divide(data)) && Flat(Divide(data)) == data
    decreases |data|
  {
    if |data| > 0 {
      var k := (|data| - 1) / FILE_BUF_SIZE * FILE_BUF_SIZE;
      DivideIsDivided(data[..k]);
      FlatPush(Divide(data[..k]), data[k..]);
      assert data[..k] + data[k..] == data;
    }
  }

  /** The first blocks make up the first bytes. */
  lemma {:induction false} FlatPrefix(blocks: seq<Block>, i: int)
    requires 0 <= i <= |blocks|
    ensures |Flat(blocks[..i])| <= |Flat(blocks)| && Flat(blocks)[..|Flat(blocks[..i])|] == Flat(blocks[..i])
    decreases |blocks|
  {
    if i == |blocks| {
      assert blocks[..i] == blocks;
    } else {
      var rest := blocks[..|blocks| - 1];
      FlatPrefix(rest, i);
      assert rest[..i] == blocks[..i];
    }
  }

  /** The file a byte stream becomes. */
  function FileOf(codec: Codec, kind: Byte, streams: Byte, data: seq<Byte>): seq<Byte>
    requires streams > 0
  {
    Header(kind, streams) + Frames(Chunks(codec, streams, Divide(data)))
  }

  /** The bytes of a file: who it is by, how it is compressed, in how many streams, and where chunk i and its length are. */
  lemma FileLayout(codec: Codec, kind: Byte, streams: Byte, data: seq<Byte>, i: int)
    requires streams > 0
    ensures var file, blocks := FileOf(codec, kind, streams, data), Divide(data);
            && |file| >= 6 && file[..4] == [116, 114, 253, 80] && file[4] == kind && file[5] == streams
            && (0 <= i < |blocks| ==>
                  var chunk := codec.enc(Past(blocks, i, streams), blocks[i]);
                  var at := 6 + |Frames(Chunks(codec, streams, blocks)[..i])|;
                  && at + 4 + |chunk| <= |file|
                  && LowFirst(file[at..at + 4], |chunk|) && file[at + 4..at + 4 + |chunk|] == chunk)
  {
    hide *;
    var blocks := Divide(data);
    var chunks := Chunks(codec, streams, blocks);
    HeaderIs(kind, streams, Frames(chunks));
    FileIs(codec, kind, streams, data);
    if 0 <= i < |blocks| {
      ChunkIs(codec, streams, blocks, i);
      FrameAt(Header(kind, streams), chunks, i);
      StoredLowFirst(|chunks[i]|, 4);
    }
  }

  lemma HeaderIs(kind: Byte, streams: Byte, rest: seq<Byte>)
    ensures var s := Header(kind, streams) + rest;
            |Header(kind, streams)| == 6 && s[..4] == [116, 114, 253, 80] && s[4] == kind && s[5] == streams
  {
    var s := Header(kind, streams) + rest;
    assert s[..4] == TRACY_HEADER;
  }

  lemma FileIs(codec: Codec, kind: Byte, streams: Byte, data: seq<Byte>)
    requires streams > 0
    ensures FileOf(codec, kind, streams, data) == Header(kind, streams) + Frames(Chunks(codec, streams, Divide(data)))
  {
    hide Header, Frames, Divide;
  }

  lemma ChunkIs(codec: Codec, n: int, blocks: seq<Block>, i: int)
    requires 0 < n && 0 <= i < |blocks|
    ensures Chunks(codec, n, blocks)[i] == codec.enc(Past(blocks, i, n), blocks[i])
  {
    hide Past;
  }

  datatype Parsed = NotTracyDump | Opened(kind: Byte, streams: int, dataOffset: int)

  /** What opening a file makes of its first bytes; old files have one stream and no counts. */
  function ParseHeader(data: seq<Byte>): Parsed {
    if |data| < 4 then NotTracyDump
    else if data[..4] == TRACY_HEADER then
      if |data| < 5 || data[4] > 1 || |data| < 6 then NotTracyDump else Opened(data[4], data[5], 6)
    else if data[..4] == LZ4_HEADER then Opened(0, 1, 4)
    else if data[..4] == ZSTD_HEADER then Opened(1, 1, 4)
    else NotTracyDump
  }

  lemma HeaderParses(codec: Codec, kind: Byte, streams: Byte, data: seq<Byte>)
    requires streams > 0 && kind <= 1
    ensures ParseHeader(FileOf(codec, kind, streams, data)) == Opened(kind, streams, |Header(kind, streams)|)
  {
    var file := FileOf(codec, kind, streams, data);
    assert file[..4] == TRACY_HEADER && file[4] == kind && file[5] == streams;
  }
}
