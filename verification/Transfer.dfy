/** The sending side of a file transfer: the scanner reads a file in chunks with a running
  digest, and the server's sender loop puts the messages on the wire. */
module Transfer {
  import opened Text
  import opened Mime

  newtype Byte = b: int | 0 <= b < 256

  type Bytes = seq<Byte>

  datatype Metadata = Metadata(raw: string, effective: string, size: nat)

  datatype FileError = FileError(message: string, code: int)

  /** The domain message: four optional parts. */
  datatype Response = Response(
    metadata: Option<Metadata>, chunk: Option<Bytes>, signature: Option<string>, error: Option<FileError>)

  /** The wire message: one alternative of a `oneof`, or none. */
  datatype PbResponse =
    | PbMetadata(raw: string, effective: string, size: nat)
    | PbChunk(data: Bytes)
    | PbSignature(sha256: string)
    | PbError(message: string, code: int)
    | PbEmpty

  const NOTHING: Response := Response(None, None, None, None)

  function MetadataMessage(m: Metadata): Response { NOTHING.(metadata := Some(m)) }

  function ChunkMessage(c: Bytes): Response { NOTHING.(chunk := Some(c)) }

  function SignatureMessage(sha256: string): Response { NOTHING.(signature := Some(sha256)) }

  function ErrorMessage(e: FileError): Response { NOTHING.(error := Some(e)) }

  predicate Terminal(r: Response) { r.signature.Some? || r.error.Some? }

  // -------------------------------------------------------------- the wire

  function ToPbResponse(r: Response): PbResponse {
    if r.metadata.Some? then PbMetadata(r.metadata.value.raw, r.metadata.value.effective, r.metadata.value.size)
    else if r.chunk.Some? then PbChunk(r.chunk.value)
    else if r.signature.Some? then PbSignature(r.signature.value)
    else if r.error.Some? then PbError(r.error.value.message, Int32(r.error.value.code))
    else PbEmpty
  }

  function FromPbResponse(p: PbResponse): Response {
    match p
    case PbMetadata(raw, effective, size) => MetadataMessage(Metadata(raw, ToMIME(effective), size))
    case PbChunk(data) => ChunkMessage(data)
    case PbSignature(sha256) => SignatureMessage(sha256)
    case PbError(message, code) => ErrorMessage(FileError(message, code))
    case PbEmpty => NOTHING
  }

  predicate AtMostOnePart(r: Response) {
    && (r.metadata.Some? ==> r.chunk.None? && r.signature.None? && r.error.None?)
    && (r.chunk.Some? ==> r.signature.None? && r.error.None?)
    && (r.signature.Some? ==> r.error.None?)
  }

  /** The wire carries a message unchanged exactly when it has at most one part, a MIME type
    of the known list or `unknown`, and an error code that fits 32 bits. */
  lemma WireRoundTrip(r: Response)
    ensures FromPbResponse(ToPbResponse(r)) == r <==>
      && AtMostOnePart(r)
      && (r.metadata.Some? ==> Known(r.metadata.value.effective) || r.metadata.value.effective == UNKNOWN)
      && (r.error.Some? ==> -0x8000_0000 <= r.error.value.code < 0x8000_0000)
  {
    hide ToMIME, Known, Int32;
    if r.metadata.Some? {
      assert FromPbResponse(ToPbResponse(r)).metadata.value == r.metadata.value.(effective := ToMIME(r.metadata.value.effective));
    }
  }

  // ----------------------------------------------------------- the scanner

  /** What the operating system reports about a requested file. */
  datatype Source = Source(
    path: string, valid: bool, found: bool, size: nat, dir: bool, regular: bool, opens: bool,
    content: Bytes, sniffFails: bool, seekFails: bool, rawMime: string)

  /** The outcome of one `Read`: how many bytes, and whether the end or a failure was met. */
  datatype ReadError = NoError | EndOfFile | ReadFailed

  datatype Read = Read(n: nat, err: ReadError)

  /** One way the reads of a static file can go, from `off` to the end or to a failure. */
  predicate ReadsOf(content: Bytes, capacity: nat, plan: seq<Read>, off: nat) {
    && plan != []
    && plan[0].n <= capacity && off + plan[0].n <= |content|
    && match plan[0].err
       case NoError => ReadsOf(content, capacity, plan[1..], off + plan[0].n)
       case EndOfFile => |plan| == 1 && off + plan[0].n == |content|
       case ReadFailed => |plan| == 1
  }

  /** Why a request is refused, tests in order. */
  function Refusal(src: Source, limit: nat): Option<FileError> {
    if !src.valid then Some(FileError("Invalid path parameters", 0))
    else if !src.found then Some(FileError("file not found at: " + src.path, 1))
    else if src.size > limit then
      Some(FileError("file is too large: " + Decimal(src.size) + " bytes (limit is " + Decimal(limit) + ")", 4))
    else if src.dir || !src.regular then Some(FileError("entry" + src.path + " is not a file", 3))
    else if !src.opens then Some(FileError("access denied to " + src.path, 2))
    else None
  }

  /** The chunks sent by the read loop, and whether it reached the end of the file. */
  datatype Loop = Loop(chunks: seq<Bytes>, complete: bool)

  /** `cancelled(k)` says whether the `k`-th send of the call loses to the context. */
  function ReadLoop(content: Bytes, capacity: nat, plan: seq<Read>, off: nat, cancelled: nat -> bool, sends: nat): Loop
    requires ReadsOf(content, capacity, plan, off)
  {
    var r := plan[0];
    if r.n > 0 && cancelled(sends) then Loop([], false)
    else
      var sent := if r.n > 0 then [content[off..off + r.n]] else [];
      match r.err
      case EndOfFile => Loop(sent, true)
      case ReadFailed => Loop(sent, false)
      case NoError =>
        var rest := ReadLoop(content, capacity, plan[1..], off + r.n, cancelled, sends + |sent|);
        Loop(sent + rest.chunks, rest.complete)
  }

  function ChunkMessages(chunks: seq<Bytes>): seq<Response> {
    if chunks == [] then [] else [ChunkMessage(chunks[0])] + ChunkMessages(chunks[1..])
  }

  function MetadataOf(src: Source): Metadata { Metadata(src.rawMime, ToMIME(src.rawMime), src.size) }

  /** The messages one request produces. */
  function Sent(
      src: Source, limit: nat, capacity: nat, plan: seq<Read>, cancelled: nat -> bool, sha: Bytes -> string): seq<Response>
    requires ReadsOf(src.content, capacity, plan, 0)
  {
    match Refusal(src, limit)
    case Some(e) => if cancelled(0) then [] else [ErrorMessage(e)]
    case None =>
      if src.content == [] || src.sniffFails then []
      else
        (if cancelled(0) then [] else [MetadataMessage(MetadataOf(src))])
        + if src.seekFails then [] else Body(src.content, capacity, plan, cancelled, sha)
  }

  function Body(content: Bytes, capacity: nat, plan: seq<Read>, cancelled: nat -> bool, sha: Bytes -> string): seq<Response>
    requires ReadsOf(content, capacity, plan, 0)
  {
    var loop := ReadLoop(content, capacity, plan, 0, cancelled, 1);
    ChunkMessages(loop.chunks)
    + if loop.complete && !cancelled(1 + |loop.chunks|) then [SignatureMessage(sha(content))] else []
  }

  /** Before read `k`: what is sent and digested so far, and what is still to come, make up `goal`. */
  ghost predicate OnTrack(
      content: Bytes, capacity: nat, plan: seq<Read>, k: nat, off: nat, cancelled: nat -> bool,
      chunks: seq<Bytes>, hashed: Bytes, goal: Loop)
  {
    && k < |plan| && off <= |content| && ReadsOf(content, capacity, plan[k..], off)
    && hashed == content[..off]
    && var rest := ReadLoop(content, capacity, plan[k..], off, cancelled, 1 + |chunks|);
       goal == Loop(chunks + rest.chunks, rest.complete)
  }

  /** What a turn of the read loop has sent, unless the context cuts it off. */
  function Grown(chunks: seq<Bytes>, data: Bytes): seq<Bytes> { if |data| > 0 then chunks + [data] else chunks }

  lemma StartsOnTrack(content: Bytes, capacity: nat, plan: seq<Read>, cancelled: nat -> bool)
    requires ReadsOf(content, capacity, plan, 0)
    ensures plan != []
    ensures OnTrack(content, capacity, plan, 0, 0, cancelled, [], [], ReadLoop(content, capacity, plan, 0, cancelled, 1))
  {
    hide ReadLoop;
    assert plan[0..] == plan;
  }

  /** A read fits the buffer and the file; a send that loses to the context ends the loop. */
  lemma TurnBegins(
      content: Bytes, capacity: nat, plan: seq<Read>, k: nat, off: nat, cancelled: nat -> bool,
      chunks: seq<Bytes>, hashed: Bytes, goal: Loop)
    requires OnTrack(content, capacity, plan, k, off, cancelled, chunks, hashed, goal)
    ensures plan[k].n <= capacity && off + plan[k].n <= |content|
    ensures plan[k].n > 0 && cancelled(1 + |chunks|) ==> goal == Loop(chunks, false)
  {
  }

  /** Otherwise the loop goes on, fails or ends, as the read says. */
  lemma TurnEnds(
      content: Bytes, capacity: nat, plan: seq<Read>, k: nat, off: nat, cancelled: nat -> bool,
      chunks: seq<Bytes>, hashed: Bytes, goal: Loop, data: Bytes)
    requires OnTrack(content, capacity, plan, k, off, cancelled, chunks, hashed, goal)
    requires off + |data| <= |content| && data == content[off..off + plan[k].n]
    requires !(plan[k].n > 0 && cancelled(1 + |chunks|))
    ensures match plan[k].err
            case EndOfFile => goal == Loop(Grown(chunks, data), true) && hashed + data == content
            case ReadFailed => goal == Loop(Grown(chunks, data), false)
            case NoError =>
              && k + 1 < |plan|
              && OnTrack(content, capacity, plan, k + 1, off + |data|, cancelled, Grown(chunks, data), hashed + data, goal)
  {
    var n := plan[k].n;
    var sent := if n > 0 then [data] else [];
    assert plan[k..][1..] == plan[k + 1..];
    assert chunks + sent == Grown(chunks, data);
    assert content[..off] + data == content[..off + n];
    if plan[k].err == NoError {
      var rest := ReadLoop(content, capacity, plan[k + 1..], off + n, cancelled, 1 + |chunks| + |sent|);
      assert chunks + (sent + rest.chunks) == (chunks + sent) + rest.chunks;
    }
  }

  /** One read fills the front of the buffer, which is then copied out. */
  method ReadInto(buf: array<Byte>, content: Bytes, off: nat, n: nat) returns (temp: Bytes)
    requires n <= buf.Length && off + n <= |content|
    modifies buf
    ensures temp == buf[..n] == content[off..off + n]
  {
    for i := 0 to n
      invariant buf[..i] == content[off..off + i]
    {
      buf[i] := content[off + i];
    }
    temp := buf[..n];
  }

  /** The read loop over one reused buffer, with the running digest's input. */
  method StreamChunks(content: Bytes, capacity: nat, plan: seq<Read>, cancelled: nat -> bool)
    returns (chunks: seq<Bytes>, hashed: Bytes, complete: bool)
    requires ReadsOf(content, capacity, plan, 0)
    ensures Loop(chunks, complete) == ReadLoop(content, capacity, plan, 0, cancelled, 1)
    ensures complete ==> hashed == content
  {
    hide ReadLoop, ReadsOf, OnTrack, Grown;
    var mainBuf := new Byte[capacity];
    chunks, hashed := [], [];
    var k, off: nat := 0, 0;
    ghost var goal := ReadLoop(content, capacity, plan, 0, cancelled, 1);
    StartsOnTrack(content, capacity, plan, cancelled);
    while true
      invariant 0 <= k < |plan| && OnTrack(content, capacity, plan, k, off, cancelled, chunks, hashed, goal)
      decreases |plan| - k
    {
      TurnBegins(content, capacity, plan, k, off, cancelled, chunks, hashed, goal);
      var n, err := plan[k].n, plan[k].err;
      var temp := ReadInto(mainBuf, content, off, n);
      ghost var sent, consumed := chunks, hashed;
      if n > 0 {
        hashed := hashed + temp;
        if cancelled(1 + |chunks|) {
          return chunks, hashed, false;
        }
        chunks := chunks + [temp];
      }
      TurnEnds(content, capacity, plan, k, off, cancelled, sent, consumed, goal, temp);
      GrownBy(sent, consumed, temp);
      off := off + n;
      if err == EndOfFile {
        break;
      }
      if err == ReadFailed {
        return chunks, hashed, false;
      }
      k := k + 1;
    }
    complete := true;
  }

  lemma GrownBy(chunks: seq<Bytes>, hashed: Bytes, data: Bytes)
    ensures |data| > 0 ==> Grown(chunks, data) == chunks + [data]
    ensures |data| == 0 ==> Grown(chunks, data) == chunks && hashed + data == hashed
  {
  }

  /** Sends an error unless the context is done. */
  method SendError(cancelled: nat -> bool, message: string, code: int) returns (sent: seq<Response>)
    ensures sent == if cancelled(0) then [] else [Response(None, None, None, Some(FileError(message, code)))]
  {
    if cancelled(0) {
      return [];
    }
    return [ErrorMessage(FileError(message, code))];
  }

  method Process(
      src: Source, limit: nat, capacity: nat, plan: seq<Read>, cancelled: nat -> bool, sha: Bytes -> string)
    returns (sent: seq<Response>)
    requires ReadsOf(src.content, capacity, plan, 0)
    ensures sent == Sent(src, limit, capacity, plan, cancelled, sha)
  {
    if !src.valid {
      sent := SendError(cancelled, "Invalid path parameters", 0);
      return;
    }
    if !src.found {
      sent := SendError(cancelled, "file not found at: " + src.path, 1);
      return;
    }
    if src.size > limit {
      sent := SendError(cancelled, "file is too large: " + Decimal(src.size) + " bytes (limit is " + Decimal(limit) + ")", 4);
      return;
    }
    if src.dir || !src.regular {
      sent := SendError(cancelled, "entry" + src.path + " is not a file", 3);
      return;
    }
    if !src.opens {
      sent := SendError(cancelled, "access denied to " + src.path, 2);
      return;
    }
    hide Refusal;
    sent := [];
    if src.content == [] || src.sniffFails {
      return;
    }
    if !cancelled(0) {
      sent := sent + [MetadataMessage(MetadataOf(src))];
    }
    if src.seekFails {
      return;
    }
    var chunks, hashed, complete := StreamChunks(src.content, capacity, plan, cancelled);
    sent := sent + ChunkMessages(chunks);
    if complete {
      var signature := sha(hashed);
      if !cancelled(1 + |chunks|) {
        sent := sent + [SignatureMessage(signature)];
      }
    }
  }

  // ----------------------------------------------------------- what is sent

  /** The last read met the end of the file. */
  predicate EndsWell(plan: seq<Read>) { plan != [] && plan[|plan| - 1].err == EndOfFile }

  /** How many reads bring data. */
  function DataReads(plan: seq<Read>): nat {
    if plan == [] then 0 else (if plan[0].n > 0 then 1 else 0) + DataReads(plan[1..])
  }

  ghost predicate Live(cancelled: nat -> bool, from: nat, to: nat) {
    forall k :: from <= k < to ==> !cancelled(k)
  }

  lemma LiveSplit(cancelled: nat -> bool, from: nat, mid: nat, to: nat)
    requires from <= mid <= to
    ensures Live(cancelled, from, to) <==> Live(cancelled, from, mid) && Live(cancelled, mid, to)
  {
  }

  /** The loop completes exactly when the reads end well and no send was cancelled. */
  lemma {:induction false} LoopCompletes(
      content: Bytes, capacity: nat, plan: seq<Read>, off: nat, cancelled: nat -> bool, sends: nat)
    requires ReadsOf(content, capacity, plan, off)
    ensures var loop := ReadLoop(content, capacity, plan, off, cancelled, sends);
            && (loop.complete <==> EndsWell(plan) && Live(cancelled, sends, sends + DataReads(plan)))
            && (loop.complete ==> |loop.chunks| == DataReads(plan))
  {
    var first := if plan[0].n > 0 then 1 else 0;
    LiveSplit(cancelled, sends, sends + first, sends + DataReads(plan));
    assert Live(cancelled, sends, sends + first) <==> !(plan[0].n > 0 && cancelled(sends));
    hide Live;
    if plan[0].err == NoError {
      LoopCompletes(content, capacity, plan[1..], off + plan[0].n, cancelled, sends + first);
      assert plan[1..][|plan[1..]| - 1] == plan[|plan| - 1];
    }
  }

  ghost predicate Sized(chunks: seq<Bytes>, capacity: nat) {
    forall i :: 0 <= i < |chunks| ==> 0 < |chunks[i]| <= capacity
  }

  /** Every way of reading yields non-empty chunks of at most the buffer's size that are, one
    after the other, the file from the start, and the whole file if the loop completes. */
  lemma {:induction false} ChunksAreTheFile(
      content: Bytes, capacity: nat, plan: seq<Read>, off: nat, cancelled: nat -> bool, sends: nat)
    requires ReadsOf(content, capacity, plan, off)
    ensures var loop := ReadLoop(content, capacity, plan, off, cancelled, sends);
            && Sized(loop.chunks, capacity)
            && Flatten(loop.chunks) <= content[off..]
            && (loop.complete ==> Flatten(loop.chunks) == content[off..])
  {
    hide Flatten;
    var n := plan[0].n;
    var sent := if n > 0 then [content[off..off + n]] else [];
    FlattenAtMostOne(sent);
    FlattenAtMostOne([]);
    assert content[off..] == content[off..off + n] + content[off + n..];
    if plan[0].err == NoError {
      ChunksAreTheFile(content, capacity, plan[1..], off + n, cancelled, sends + |sent|);
      var rest := ReadLoop(content, capacity, plan[1..], off + n, cancelled, sends + |sent|);
      FlattenConcat(sent, rest.chunks);
      PrefixAfter(content[off..off + n], Flatten(rest.chunks), content[off + n..]);
    }
  }

  lemma PrefixAfter(a: Bytes, b: Bytes, c: Bytes)
    requires b <= c
    ensures a + b <= a + c
  {
  }

  lemma FlattenAtMostOne(cs: seq<Bytes>)
    requires |cs| <= 1
    ensures Flatten(cs) == if cs == [] then [] else cs[0]
  {
    if cs != [] {
      assert cs == [cs[0]];
      FlattenOne(cs[0]);
    }
  }

  /** The reads end well and the context outlives every send of the call. */
  ghost predicate Undisturbed(src: Source, plan: seq<Read>, cancelled: nat -> bool) {
    && src.content != [] && !src.sniffFails && !src.seekFails
    && EndsWell(plan) && Live(cancelled, 0, 2 + DataReads(plan))
  }

  /** An accepted, undisturbed request yields the metadata, then the file in non-empty chunks
    of at most the buffer's size, then one signature over the whole file, however the
    reads split it. */
  lemma StreamIsTheFile(
      src: Source, limit: nat, capacity: nat, plan: seq<Read>, cancelled: nat -> bool, sha: Bytes -> string)
    returns (chunks: seq<Bytes>)
    requires ReadsOf(src.content, capacity, plan, 0) && Undisturbed(src, plan, cancelled)
    requires src.valid && src.found && src.size <= limit && !src.dir && src.regular && src.opens
    ensures Sized(chunks, capacity) && Flatten(chunks) == src.content
    ensures Sent(src, limit, capacity, plan, cancelled, sha)
         == [MetadataMessage(MetadataOf(src))] + ChunkMessages(chunks) + [SignatureMessage(sha(src.content))]
    ensures var sent := Sent(src, limit, capacity, plan, cancelled, sha);
            && |sent| == 1 + |chunks| + 1
            && sent[0] == Response(Some(Metadata(src.rawMime, ToMIME(src.rawMime), src.size)), None, None, None)
            && (forall i :: 0 <= i < |chunks| ==> sent[1 + i] == Response(None, Some(chunks[i]), None, None))
            && sent[1 + |chunks|] == Response(None, None, Some(sha(src.content)), None)
  {
    RefusedIff(src, limit);
    ChunkMessagesAt(ReadLoop(src.content, capacity, plan, 0, cancelled, 1).chunks);
    hide Refusal, ReadLoop, ReadsOf, ChunkMessages;
    var loop := ReadLoop(src.content, capacity, plan, 0, cancelled, 1);
    chunks := loop.chunks;
    LiveSplit(cancelled, 0, 1, 2 + DataReads(plan));
    LiveSplit(cancelled, 1, 1 + DataReads(plan), 2 + DataReads(plan));
    LoopCompletes(src.content, capacity, plan, 0, cancelled, 1);
    ChunksAreTheFile(src.content, capacity, plan, 0, cancelled, 1);
    assert src.content[0..] == src.content;
  }

  lemma {:induction false} ChunkMessagesAt(chunks: seq<Bytes>)
    ensures |ChunkMessages(chunks)| == |chunks|
    ensures forall i :: 0 <= i < |chunks| ==> ChunkMessages(chunks)[i] == Response(None, Some(chunks[i]), None, None)
  {
    if chunks != [] { ChunkMessagesAt(chunks[1..]); }
  }

  /** A request is accepted exactly when its path is valid and names an existing regular file
    within the limit that can be opened. */
  lemma RefusedIff(src: Source, limit: nat)
    ensures Refusal(src, limit).None? <==>
      src.valid && src.found && src.size <= limit && !src.dir && src.regular && src.opens
  {
  }

  /** What a refused request sends, by the first test that fails: one error with that test's
    message and code, or nothing when the context is done. */
  lemma RefusedWith(
      src: Source, limit: nat, capacity: nat, plan: seq<Read>, cancelled: nat -> bool, sha: Bytes -> string)
    requires ReadsOf(src.content, capacity, plan, 0)
    requires !(src.valid && src.found && src.size <= limit && !src.dir && src.regular && src.opens)
    ensures var sent := Sent(src, limit, capacity, plan, cancelled, sha);
            if cancelled(0) then sent == []
            else
              && |sent| == 1 && sent[0].error.Some? && sent[0] == Response(None, None, None, sent[0].error)
              && var e := sent[0].error.value;
                 if !src.valid then e == FileError("Invalid path parameters", 0)
                 else if !src.found then e == FileError("file not found at: " + src.path, 1)
                 else if src.size > limit then
                   e == FileError("file is too large: " + Decimal(src.size) + " bytes (limit is " + Decimal(limit) + ")", 4)
                 else if src.dir || !src.regular then e == FileError("entry" + src.path + " is not a file", 3)
                 else e == FileError("access denied to " + src.path, 2)
  {
    hide ReadsOf, Body, Decimal;
  }

  // ------------------------------------------------- every run, also disturbed

  /** The messages bring `rest` chunk by chunk, perhaps not to its end; a signature can only
    come last, once nothing is missing. */
  predicate Carries(msgs: seq<Response>, rest: Bytes, digest: string) {
    || msgs == []
    || (msgs == [SignatureMessage(digest)] && rest == [])
    || (msgs[0].chunk.Some? && msgs[0] == ChunkMessage(msgs[0].chunk.value) && msgs[0].chunk.value <= rest
        && Carries(msgs[1..], rest[|msgs[0].chunk.value|..], digest))
  }

  lemma {:induction false} ChunksCarry(chunks: seq<Bytes>, tail: seq<Response>, rest: Bytes, digest: string)
    requires Flatten(chunks) <= rest
    requires tail == [] || (tail == [SignatureMessage(digest)] && Flatten(chunks) == rest)
    ensures Carries(ChunkMessages(chunks) + tail, rest, digest)
  {
    if chunks == [] {
      assert ChunkMessages(chunks) + tail == tail;
    } else {
      var c := chunks[0];
      assert Flatten(chunks)[|c|..] == Flatten(chunks[1..]);
      assert c <= rest && Flatten(chunks[1..]) <= rest[|c|..];
      ChunksCarry(chunks[1..], tail, rest[|c|..], digest);
      assert (ChunkMessages(chunks) + tail)[1..] == ChunkMessages(chunks[1..]) + tail;
    }
  }

  lemma {:induction false} CarriesPrefix(msgs: seq<Response>, n: nat, rest: Bytes, digest: string)
    requires Carries(msgs, rest, digest) && n <= |msgs|
    ensures Carries(msgs[..n], rest, digest)
  {
    if n > 0 && msgs[0].chunk.Some? {
      CarriesPrefix(msgs[1..], n - 1, rest[|msgs[0].chunk.value|..], digest);
      assert msgs[..n][1..] == msgs[1..][..n - 1];
    }
  }

  /** The message grammar of every run: one error, or the metadata at most once and first,
    then what `Carries` allows. */
  ghost predicate Grammar(msgs: seq<Response>, src: Source, limit: nat, digest: string) {
    match Refusal(src, limit)
    case Some(e) => msgs == [] || msgs == [ErrorMessage(e)]
    case None =>
      || Carries(msgs, src.content, digest)
      || (msgs[0] == MetadataMessage(MetadataOf(src)) && Carries(msgs[1..], src.content, digest))
  }

  lemma BodyCarries(content: Bytes, capacity: nat, plan: seq<Read>, cancelled: nat -> bool, sha: Bytes -> string)
    requires ReadsOf(content, capacity, plan, 0)
    ensures Carries(Body(content, capacity, plan, cancelled, sha), content, sha(content))
  {
    hide ReadLoop, ReadsOf, Carries, ChunkMessages;
    var loop := ReadLoop(content, capacity, plan, 0, cancelled, 1);
    ChunksAreTheFile(content, capacity, plan, 0, cancelled, 1);
    assert content[0..] == content;
    var tail := if loop.complete && !cancelled(1 + |loop.chunks|) then [SignatureMessage(sha(content))] else [];
    ChunksCarry(loop.chunks, tail, content, sha(content));
  }

  /** Whatever fails and whenever the context is cancelled, the grammar holds; in particular
    a signature is sent only after the complete file. */
  lemma EveryRunFollowsGrammar(
      src: Source, limit: nat, capacity: nat, plan: seq<Read>, cancelled: nat -> bool, sha: Bytes -> string)
    requires ReadsOf(src.content, capacity, plan, 0)
    ensures Grammar(Sent(src, limit, capacity, plan, cancelled, sha), src, limit, sha(src.content))
  {
    hide Refusal, ReadsOf, Body, MetadataOf;
    BodyCarries(src.content, capacity, plan, cancelled, sha);
    var body := if src.seekFails then [] else Body(src.content, capacity, plan, cancelled, sha);
    assert [] + body == body;
    assert ([MetadataMessage(MetadataOf(src))] + body)[1..] == body;
  }

  lemma GrammarPrefix(msgs: seq<Response>, n: nat, src: Source, limit: nat, digest: string)
    requires Grammar(msgs, src, limit, digest) && n <= |msgs|
    ensures Grammar(msgs[..n], src, limit, digest)
  {
    hide Refusal, MetadataOf, Carries;
    if Refusal(src, limit).None? {
      if Carries(msgs, src.content, digest) {
        CarriesPrefix(msgs, n, src.content, digest);
      } else if n > 0 {
        CarriesPrefix(msgs[1..], n - 1, src.content, digest);
        assert msgs[..n][1..] == msgs[1..][..n - 1];
      } else {
        NothingCarries(src.content, digest);
      }
    }
  }

  lemma NothingCarries(rest: Bytes, digest: string)
    ensures Carries([], rest, digest)
  {
  }

  // -------------------------------------------------------- the sender loop

  /** The messages up to and including the first signature or error. */
  function UpToTerminal(msgs: seq<Response>): seq<Response> {
    if msgs == [] then []
    else if Terminal(msgs[0]) then [msgs[0]]
    else [msgs[0]] + UpToTerminal(msgs[1..])
  }

  predicate HasTerminal(msgs: seq<Response>) { exists i :: 0 <= i < |msgs| && Terminal(msgs[i]) }

  function OnWire(msgs: seq<Response>): seq<PbResponse> { seq(|msgs|, i requires 0 <= i < |msgs| => ToPbResponse(msgs[i])) }

  lemma {:induction false} UpToTerminalStep(msgs: seq<Response>, k: nat)
    requires k < |msgs| && forall i :: 0 <= i < k ==> !Terminal(msgs[i])
    ensures k < |UpToTerminal(msgs)| && UpToTerminal(msgs)[..k + 1] == msgs[..k + 1]
    ensures Terminal(msgs[k]) || k + 1 == |msgs| ==> UpToTerminal(msgs) == msgs[..k + 1]
  {
    if k > 0 {
      UpToTerminalStep(msgs[1..], k - 1);
      assert msgs[..k + 1] == [msgs[0]] + msgs[1..][..k];
      assert UpToTerminal(msgs)[..k + 1] == [msgs[0]] + UpToTerminal(msgs[1..])[..k];
    } else {
      assert msgs[..1] == [msgs[0]];
      assert |msgs| == 1 ==> msgs[1..] == [];
    }
  }

  /** Forwards the queued messages up to the first terminal one, as far as the stream accepts
    them, and ends by itself exactly when a terminal message went out. */
  method Forward(queued: seq<Response>, accepted: nat) returns (wire: seq<PbResponse>, finished: bool)
    ensures var all := UpToTerminal(queued);
            && wire == OnWire(all[..Min(accepted, |all|)])
            && (finished <==> HasTerminal(queued) && |all| <= accepted)
  {
    wire := [];
    ghost var all := UpToTerminal(queued);
    assert queued[..0] == [];
    for k := 0 to |queued|
      invariant k <= accepted && forall i :: 0 <= i < k ==> !Terminal(queued[i])
      invariant wire == OnWire(queued[..k])
    {
      UpToTerminalStep(queued, k);
      assert all[..k] == queued[..k];
      if k == accepted {
        return wire, false;
      }
      wire := wire + [ToPbResponse(queued[k])];
      assert queued[..k + 1] == queued[..k] + [queued[k]];
      if queued[k].signature.Some? || queued[k].error.Some? {
        assert all == queued[..k + 1];
        return wire, true;
      }
    }
    finished := false;
    if queued != [] { UpToTerminalStep(queued, |queued| - 1); }
    assert queued[..|queued|] == queued && all == queued;
  }

  lemma {:induction false} CarriesIsUncut(msgs: seq<Response>, rest: Bytes, digest: string)
    requires Carries(msgs, rest, digest)
    ensures UpToTerminal(msgs) == msgs
  {
    if msgs != [] && msgs[0].chunk.Some? { CarriesIsUncut(msgs[1..], rest[|msgs[0].chunk.value|..], digest); }
  }

  /** The sender loop forwards a download completely: terminal messages come last. */
  lemma GrammarIsUncut(msgs: seq<Response>, src: Source, limit: nat, digest: string)
    requires Grammar(msgs, src, limit, digest)
    ensures UpToTerminal(msgs) == msgs
  {
    hide Refusal, MetadataOf, Carries;
    NothingCarries(src.content, digest);
    if Refusal(src, limit).None? {
      if Carries(msgs, src.content, digest) {
        CarriesIsUncut(msgs, src.content, digest);
      } else {
        CarriesIsUncut(msgs[1..], src.content, digest);
      }
    }
  }

  lemma {:induction false} NoTerminalChunk(chunks: seq<Bytes>)
    ensures !HasTerminal(ChunkMessages(chunks))
  {
    if chunks != [] { NoTerminalChunk(chunks[1..]); }
  }

  lemma LastIsTerminal(front: seq<Response>, tail: seq<Response>)
    requires !HasTerminal(front) && |tail| <= 1
    ensures HasTerminal(front + tail) <==> tail != [] && Terminal(tail[0])
  {
    if tail != [] { assert (front + tail)[|front|] == tail[0]; }
  }

  /** A request makes the sender loop end by itself exactly when it is refused and the error
    goes out, or its signature goes out. An empty file never does. */
  lemma WhenDownloadsEnd(
      src: Source, limit: nat, capacity: nat, plan: seq<Read>, cancelled: nat -> bool, sha: Bytes -> string)
    requires ReadsOf(src.content, capacity, plan, 0)
    ensures HasTerminal(Sent(src, limit, capacity, plan, cancelled, sha)) <==>
      if src.valid && src.found && src.size <= limit && !src.dir && src.regular && src.opens
      then src.content != [] && !src.sniffFails && !src.seekFails
           && EndsWell(plan) && Live(cancelled, 1, 2 + DataReads(plan))
      else !cancelled(0)
  {
    RefusedIff(src, limit);
    hide Refusal, ReadLoop, ReadsOf, MetadataOf, Live, ChunkMessages, HasTerminal;
    var loop := ReadLoop(src.content, capacity, plan, 0, cancelled, 1);
    LoopCompletes(src.content, capacity, plan, 0, cancelled, 1);
    LiveSplit(cancelled, 1, 1 + DataReads(plan), 2 + DataReads(plan));
    LiveOne(cancelled, 1 + DataReads(plan));
    var meta := if cancelled(0) then [] else [MetadataMessage(MetadataOf(src))];
    var tail := if loop.complete && !cancelled(1 + |loop.chunks|) then [SignatureMessage(sha(src.content))] else [];
    NoTerminalFront(meta, loop.chunks);
    LastIsTerminal(meta + ChunkMessages(loop.chunks), tail);
    assert meta + (ChunkMessages(loop.chunks) + tail) == (meta + ChunkMessages(loop.chunks)) + tail;
    assert meta + [] == meta;
    OneMessage(src, limit);
  }

  lemma LiveOne(cancelled: nat -> bool, k: nat)
    ensures Live(cancelled, k, k + 1) <==> !cancelled(k)
  {
  }

  lemma NoTerminalFront(meta: seq<Response>, chunks: seq<Bytes>)
    requires forall i :: 0 <= i < |meta| ==> !Terminal(meta[i])
    ensures !HasTerminal(meta) && !HasTerminal(meta + ChunkMessages(chunks))
  {
    NoTerminalChunk(chunks);
  }

  lemma OneMessage(src: Source, limit: nat)
    ensures !HasTerminal([])
    ensures Refusal(src, limit).Some? ==> HasTerminal([ErrorMessage(Refusal(src, limit).value)])
  {
    hide Refusal;
    if Refusal(src, limit).Some? { assert Terminal([ErrorMessage(Refusal(src, limit).value)][0]); }
  }
}
