/** Whole runs of the file pipeline: what is written in any pieces is read back in any other pieces. */
module FileRoundTrip {
  import opened Bytes
  import opened FileFormat
  import W = FileWrite
  import R = FileRead
  import opened ReaderSteps

  datatype Request = Read(size: nat) | Fields(sizes: seq<nat>) | Skip(size: nat)

  function SizeOf(q: Request): nat {
    match q
    case Read(size) => size
    case Fields(sizes) => R.Sum(sizes)
    case Skip(size) => size
  }

  function TotalSize(requests: seq<Request>): nat {
    if requests == [] then 0 else TotalSize(requests[..|requests| - 1]) + SizeOf(requests[|requests| - 1])
  }

  /** What a request gets from a plain byte stream; nothing for bytes that are skipped. */
  function Answer(stream: seq<Byte>, at: int, q: Request): seq<Byte> {
    if q.Skip? || !(0 <= at <= at + SizeOf(q) <= |stream|) then [] else stream[at..at + SizeOf(q)]
  }

  function Answers(stream: seq<Byte>, requests: seq<Request>): (answers: seq<seq<Byte>>)
    ensures |answers| == |requests|
  {
    if requests == [] then [] else
      var rest := requests[..|requests| - 1];
      Answers(stream, rest) + [Answer(stream, TotalSize(rest), requests[|requests| - 1])]
  }

  method WriteAll(codec: Codec, kind: Byte, streams: Byte, pieces: seq<seq<Byte>>) returns (file: seq<Byte>)
    requires streams > 0
    ensures file == FileOf(codec, kind, streams, Flat(pieces))
  {
    var f := new W.FileWrite(codec, kind, streams);
    var i := 0;
    assert pieces[..0] == [];
    while i < |pieces|
      invariant 0 <= i <= |pieces| && fresh(f) && f.Valid() && f.written == Flat(pieces[..i])
      invariant |f.streams| == streams && f.codec == codec && f.kind == kind
    {
      f.Write(pieces[i]);
      FlatPush(pieces[..i], pieces[i]);
      assert pieces[..i] + [pieces[i]] == pieces[..i + 1];
      i := i + 1;
    }
    assert pieces[..i] == pieces;
    f.Finish();
    file := f.file;
  }

  /** A file of at least one byte can be opened and any requests within its length are answered from
      the byte stream that was written; a file of none names streams but has no block to open one with. */
  method ReadAll(codec: Codec, file: seq<Byte>, requests: seq<Request>, ghost kind: Byte, ghost streams: Byte, ghost stream: seq<Byte>)
    returns (ok: bool, answers: seq<seq<Byte>>)
    requires streams > 0 && kind <= 1 && Undoes(codec) && file == FileOf(codec, kind, streams, stream)
    requires TotalSize(requests) <= |stream|
    ensures ok <==> stream != []
    ensures ok ==> answers == Answers(stream, requests)
  {
    hide *;
    HeaderParses(codec, kind, streams, stream);
    var parsed := ParseHeader(file);
    answers := [];
    EmptyFile(codec, kind, streams, stream);
    ok := parsed.dataOffset != |file|;
    if ok {
      R.FileDecodes(codec, kind, streams, stream);
      ghost var t := R.TraceOf(codec, kind, streams, stream);
      TraceShape(codec, kind, streams, stream);
      var f := new R.FileRead(codec, file, parsed.streams, parsed.dataOffset, t);
      answers := AnswerAll(f, requests, stream);
    }
  }

  lemma TraceShape(codec: Codec, kind: Byte, streams: Byte, stream: seq<Byte>)
    requires streams > 0
    ensures var t := R.TraceOf(codec, kind, streams, stream);
            t.header == Header(kind, streams) && |t.chunks| == |t.blocks|
    ensures Min(streams, |R.TraceOf(codec, kind, streams, stream).blocks|) > 0 ==> |R.TraceOf(codec, kind, streams, stream).blocks| > 0
  {
  }

  method AnswerAll(f: R.FileRead, requests: seq<Request>, ghost stream: seq<Byte>) returns (answers: seq<seq<Byte>>)
    requires f.Valid() && f.out == [] && Flat(f.trace.blocks) == stream && TotalSize(requests) <= |stream|
    modifies f
    ensures answers == Answers(stream, requests)
  {
    hide *;
    answers := [];
    var i := 0;
    assert requests[..0] == [];
    NoRequests(stream);
    while i < |requests|
      invariant 0 <= i <= |requests| && f.Valid() && Flat(f.trace.blocks) == stream
      invariant TotalSize(requests[..i]) <= |stream| && |f.out| == TotalSize(requests[..i])
      invariant answers == Answers(stream, requests[..i])
    {
      assert requests[..i + 1] == requests[..i] + [requests[i]];
      TotalGrows(requests, i + 1);
      OneMore(stream, requests[..i], requests[i]);
      var answer := AnswerOne(f, requests[i], stream);
      answers := answers + [answer];
      i := i + 1;
    }
    assert requests[..i] == requests;
  }

  lemma NoRequests(stream: seq<Byte>)
    ensures TotalSize([]) == 0 && Answers(stream, []) == []
  {
  }

  lemma TotalPush(requests: seq<Request>, q: Request)
    ensures TotalSize(requests + [q]) == TotalSize(requests) + SizeOf(q)
  {
    hide SizeOf;
    assert (requests + [q])[..|requests|] == requests;
  }

  lemma OneMore(stream: seq<Byte>, requests: seq<Request>, q: Request)
    ensures TotalSize(requests + [q]) == TotalSize(requests) + SizeOf(q)
    ensures Answers(stream, requests + [q]) == Answers(stream, requests) + [Answer(stream, TotalSize(requests), q)]
  {
    hide SizeOf, TotalSize, Answer;
    TotalPush(requests, q);
    assert (requests + [q])[..|requests|] == requests;
  }

  method AnswerOne(f: R.FileRead, q: Request, ghost stream: seq<Byte>) returns (answer: seq<Byte>)
    requires f.Valid() && Flat(f.trace.blocks) == stream && |f.out| + SizeOf(q) <= |stream|
    modifies f
    ensures f.Valid() && Flat(f.trace.blocks) == stream && |f.out| == |old(f.out)| + SizeOf(q)
    ensures answer == Answer(stream, |old(f.out)|, q)
  {
    hide Inv, Flat;
    answer := [];
    match q {
      case Read(size) =>
        answer := f.Read(size);
      case Fields(sizes) =>
        var fields := f.ReadFields(sizes);
        answer := Flat(fields);
      case Skip(size) =>
        f.Skip(size);
    }
  }

  lemma {:induction false} TotalGrows(requests: seq<Request>, i: int)
    requires 0 <= i <= |requests|
    ensures TotalSize(requests[..i]) <= TotalSize(requests)
    decreases |requests|
  {
    if i == |requests| {
      assert requests[..i] == requests;
    } else {
      TotalGrows(requests[..|requests| - 1], i);
      assert requests[..|requests| - 1][..i] == requests[..i];
    }
  }

  /** Nothing written leaves only the header in the file. */
  lemma EmptyFile(codec: Codec, kind: Byte, streams: Byte, stream: seq<Byte>)
    requires streams > 0
    ensures |FileOf(codec, kind, streams, stream)| == |Header(kind, streams)| <==> stream == []
  {
    if stream != [] {
      assert |Divide(stream)| > 0;
      assert |Frames(Chunks(codec, streams, Divide(stream)))| > 0;
    }
  }

  /** The whole pipeline. */
  method RoundTrip(codec: Codec, kind: Byte, streams: Byte, pieces: seq<seq<Byte>>, requests: seq<Request>)
    returns (ok: bool, answers: seq<seq<Byte>>)
    requires streams > 0 && kind <= 1 && Undoes(codec) && TotalSize(requests) <= |Flat(pieces)|
    ensures ok <==> Flat(pieces) != []
    ensures ok ==> answers == Answers(Flat(pieces), requests)
  {
    var file := WriteAll(codec, kind, streams, pieces);
    ok, answers := ReadAll(codec, file, requests, kind, streams, Flat(pieces));
  }
}
