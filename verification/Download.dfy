/** One download end to end: from the scanner's reads over the wire to the master's
  temporary file, under every failure and cancellation. */
module Download {
  import opened Text
  import opened Mime
  import opened Transfer
  import opened JobGate
  import opened Accumulator

  /** Nothing the operating system or the context does spoils any of the messages. */
  ghost predicate Spared(msgs: seq<Response>, k: nat, io: nat -> Io) {
    forall i :: 0 <= i < |msgs| ==>
      && (msgs[i].metadata.Some? ==> io(k + i).creates)
      && (msgs[i].chunk.Some? ==> io(k + i).failsAfter.None?)
      && (msgs[i].signature.Some? ==> !io(k + i).cancelled)
  }

  lemma SparedTail(msgs: seq<Response>, k: nat, io: nat -> Io)
    requires msgs != []
    ensures Spared(msgs, k, io) <==> Spared(msgs[..1], k, io) && Spared(msgs[1..], k + 1, io)
  {
    if Spared(msgs, k, io) {
      forall i | 0 <= i < |msgs[1..]|
        ensures (msgs[1..][i].metadata.Some? ==> io(k + 1 + i).creates)
             && (msgs[1..][i].chunk.Some? ==> io(k + 1 + i).failsAfter.None?)
             && (msgs[1..][i].signature.Some? ==> !io(k + 1 + i).cancelled)
      {
        assert msgs[1..][i] == msgs[i + 1] && k + (i + 1) == k + 1 + i;
      }
    }
    if Spared(msgs[..1], k, io) && Spared(msgs[1..], k + 1, io) {
      forall i | 0 <= i < |msgs|
        ensures (msgs[i].metadata.Some? ==> io(k + i).creates)
             && (msgs[i].chunk.Some? ==> io(k + i).failsAfter.None?)
             && (msgs[i].signature.Some? ==> !io(k + i).cancelled)
      {
        if i == 0 {
          assert msgs[..1][0] == msgs[0];
        } else {
          assert msgs[1..][i - 1] == msgs[i] && k + 1 + (i - 1) == k + i;
        }
      }
    }
  }

  lemma SparedOne(msg: Response, k: nat, io: nat -> Io)
    ensures Spared([msg], k, io) <==>
      && (msg.metadata.Some? ==> io(k).creates)
      && (msg.chunk.Some? ==> io(k).failsAfter.None?)
      && (msg.signature.Some? ==> !io(k).cancelled)
  {
    assert [msg][0] == msg && k + 0 == k;
  }

  /** A file is open with this digest input, and its temporary file holds these bytes. */
  ghost predicate Open(dir: string, s: Reassembly, id: FileID, mime: string, got: Bytes, left: Bytes) {
    && id in s.buffers && id in s.hash
    && s.buffers[id] == Buffer(TmpPath(dir, id), mime) && s.hash[id] == got
    && OnDisk(s.disk, TmpPath(dir, id)) == left
  }

  lemma AppendToOpen(
      dir: string, sha: Bytes -> string, s: Reassembly, drive: string, id: FileID, c: Bytes, io: Io,
      mime: string, got: Bytes, left: Bytes)
    requires Open(dir, s, id, mime, got, left)
    ensures var (t, ok) := Accept(dir, sha, s, drive, id, ChunkMessage(c), io);
            && (ok <==> io.failsAfter.None?) && t.published == s.published
            && (ok ==> Open(dir, t, id, mime, got + c, left + c))
  {
    hide TmpPath;
  }

  lemma SignatureOnOpen(
      dir: string, sha: Bytes -> string, s: Reassembly, drive: string, id: FileID, digest: string, io: Io,
      mime: string, got: Bytes, left: Bytes)
    requires Open(dir, s, id, mime, got, left)
    ensures var t := Accept(dir, sha, s, drive, id, SignatureMessage(digest), io).0;
            if sha(got) == digest && !io.cancelled
            then Delivered(t, s, Location(drive, id, TmpPath(dir, id), mime), left)
            else t.published == s.published
  {
    hide TmpPath;
  }

  /** From an open file on, the rest of a download is published exactly when the signature
    arrives, nothing spoils a message, and the digest of all that was consumed matches. The
    temporary file then holds what it held before and the rest. */
  lemma {:induction false} RestOfDownload(
      dir: string, sha: Bytes -> string, s: Reassembly, drive: string, id: FileID, msgs: seq<Response>, k: nat,
      io: nat -> Io, mime: string, got: Bytes, left: Bytes, rest: Bytes, digest: string)
    requires Open(dir, s, id, mime, got, left) && Carries(msgs, rest, digest)
    ensures var t := Feed(dir, sha, s, drive, id, msgs, k, io);
            if Signed(msgs) && Spared(msgs, k, io) && sha(got + rest) == digest
            then Delivered(t, s, Location(drive, id, TmpPath(dir, id), mime), left + rest)
            else t.published == s.published
    decreases |msgs|
  {
    hide TmpPath, Spared, Accept, Open, Delivered;
    if msgs != [] {
      SparedTail(msgs, k, io);
      SparedOne(msgs[0], k, io);
      assert msgs[..1] == [msgs[0]];
      if msgs[0].chunk.Some? {
        var c := msgs[0].chunk.value;
        AppendToOpen(dir, sha, s, drive, id, c, io(k), mime, got, left);
        var (t, ok) := Accept(dir, sha, s, drive, id, msgs[0], io(k));
        assert (got + c) + rest[|c|..] == got + rest && (left + c) + rest[|c|..] == left + rest;
        assert Signed(msgs) <==> Signed(msgs[1..]);
        if ok {
          RestOfDownload(dir, sha, t, drive, id, msgs[1..], k + 1, io, mime, got + c, left + c, rest[|c|..], digest);
          SamePublished(t, s, Location(drive, id, TmpPath(dir, id), mime), left + rest, Feed(dir, sha, t, drive, id, msgs[1..], k + 1, io));
        }
      } else {
        assert got + rest == got && left + rest == left;
        SignatureOnOpen(dir, sha, s, drive, id, digest, io(k), mime, got, left);
        var t := Accept(dir, sha, s, drive, id, msgs[0], io(k)).0;
        assert Feed(dir, sha, t, drive, id, msgs[1..], k + 1, io) == t;
        SparedNone(k + 1, io);
      }
    }
  }

  lemma SparedNone(k: nat, io: nat -> Io)
    ensures Spared([], k, io)
  {
  }

  lemma SamePublished(a: Reassembly, b: Reassembly, location: Location, content: Bytes, t: Reassembly)
    requires a.published == b.published
    ensures Delivered(t, a, location, content) <==> Delivered(t, b, location, content)
  {
  }

  predicate Signed(msgs: seq<Response>) { msgs != [] && msgs[|msgs| - 1].signature.Some? }

  /** Exactly this location was added, the file left the maps, and its content is on disk. */
  ghost predicate Delivered(t: Reassembly, s: Reassembly, location: Location, content: Bytes) {
    && t.published == s.published + [location]
    && location.fileID !in t.buffers && location.fileID !in t.hash
    && OnDisk(t.disk, location.path) == content
  }

  /** Without metadata nothing of a download is accepted. */
  lemma ClosedStaysClosed(
      dir: string, sha: Bytes -> string, s: Reassembly, drive: string, id: FileID, msgs: seq<Response>, k: nat,
      io: nat -> Io, rest: Bytes, digest: string)
    requires id !in s.buffers && id !in s.hash && Carries(msgs, rest, digest)
    ensures Feed(dir, sha, s, drive, id, msgs, k, io).published == s.published
  {
  }

  /** A message writes to no path but its own file's. */
  lemma OneMessageOnePath(
      dir: string, sha: Bytes -> string, s: Reassembly, drive: string, id: FileID, resp: Response, io: Io, path: string)
    requires path != TmpPath(dir, id) && (id in s.buffers ==> s.buffers[id].path == TmpPath(dir, id))
    ensures var t := Accept(dir, sha, s, drive, id, resp, io).0;
            && (path in t.disk <==> path in s.disk) && OnDisk(t.disk, path) == OnDisk(s.disk, path)
            && (id in t.buffers ==> t.buffers[id].path == TmpPath(dir, id))
  {
    hide TmpPath;
  }

  /** A download writes to no path but its own file's, published files included. */
  lemma {:induction false} DownloadTouchesOnePath(
      dir: string, sha: Bytes -> string, s: Reassembly, drive: string, id: FileID, msgs: seq<Response>, k: nat,
      io: nat -> Io, path: string)
    requires path != TmpPath(dir, id) && (id in s.buffers ==> s.buffers[id].path == TmpPath(dir, id))
    ensures var t := Feed(dir, sha, s, drive, id, msgs, k, io);
            (path in t.disk <==> path in s.disk) && OnDisk(t.disk, path) == OnDisk(s.disk, path)
    decreases |msgs|
  {
    if msgs != [] {
      hide TmpPath, OnDisk, Accept;
      OneMessageOnePath(dir, sha, s, drive, id, msgs[0], io(k), path);
      var (t, ok) := Accept(dir, sha, s, drive, id, msgs[0], io(k));
      if ok { DownloadTouchesOnePath(dir, sha, t, drive, id, msgs[1..], k + 1, io, path); }
    }
  }

  /** No message of a download touches another file. */
  lemma {:induction false} DownloadLeavesOthers(
      dir: string, sha: Bytes -> string, s: Reassembly, drive: string, id: FileID, msgs: seq<Response>, k: nat,
      io: nat -> Io, other: FileID, now: Option<Transit>)
    requires other != id && Tracks(dir, s, other, now)
    requires id in s.buffers ==> s.buffers[id].path == TmpPath(dir, id)
    ensures Tracks(dir, Feed(dir, sha, s, drive, id, msgs, k, io), other, now)
    decreases |msgs|
  {
    if msgs != [] {
      OthersUntouched(dir, sha, s, drive, id, msgs[0], io(k), other, now);
      hide TmpPath, Tracks;
      var (t, ok) := Accept(dir, sha, s, drive, id, msgs[0], io(k));
      if ok { DownloadLeavesOthers(dir, sha, t, drive, id, msgs[1..], k + 1, io, other, now); }
    }
  }

  predicate Transparent(msgs: seq<Response>) {
    forall i :: 0 <= i < |msgs| ==> FromPbResponse(ToPbResponse(msgs[i])) == msgs[i]
  }

  lemma {:induction false} CarriesTransparent(msgs: seq<Response>, rest: Bytes, digest: string)
    requires Carries(msgs, rest, digest)
    ensures Transparent(msgs)
  {
    if msgs != [] && msgs[0].chunk.Some? {
      CarriesTransparent(msgs[1..], rest[|msgs[0].chunk.value|..], digest);
      assert forall i :: 1 <= i < |msgs| ==> msgs[i] == msgs[1..][i - 1];
    }
  }

  lemma RefusalCode(src: Source, limit: nat)
    ensures Refusal(src, limit).Some? ==> 0 <= Refusal(src, limit).value.code <= 5
  {
  }

  /** The wire carries a download unchanged. */
  lemma WireIsTransparent(msgs: seq<Response>, src: Source, limit: nat, digest: string)
    requires Grammar(msgs, src, limit, digest)
    ensures OffWire(OnWire(msgs)) == msgs
  {
    hide Refusal, Carries, FromPbResponse, ToPbResponse, ToMIME, Known;
    RefusalCode(src, limit);
    NothingCarries(src.content, digest);
    WireRoundTrip(MetadataMessage(MetadataOf(src)));
    if Refusal(src, limit).Some? {
      WireRoundTrip(ErrorMessage(Refusal(src, limit).value));
    } else if Carries(msgs, src.content, digest) {
      CarriesTransparent(msgs, src.content, digest);
    } else {
      CarriesTransparent(msgs[1..], src.content, digest);
      assert forall i :: 1 <= i < |msgs| ==> msgs[i] == msgs[1..][i - 1];
    }
    assert Transparent(msgs);
  }

  /** What the master can be in: both maps know the same files, each under its own path. */
  ghost predicate Shaped(dir: string, s: Reassembly) {
    s.buffers.Keys == s.hash.Keys && forall id :: id in s.buffers ==> s.buffers[id].path == TmpPath(dir, id)
  }

  /** No message and no failure takes the master out of that. */
  lemma AcceptKeepsShape(
      dir: string, sha: Bytes -> string, s: Reassembly, drive: string, id: FileID, resp: Response, io: Io)
    requires Shaped(dir, s)
    ensures Shaped(dir, Accept(dir, sha, s, drive, id, resp, io).0)
  {
    hide TmpPath;
  }

  lemma {:induction false} FeedKeepsShape(
      dir: string, sha: Bytes -> string, s: Reassembly, drive: string, id: FileID, msgs: seq<Response>, k: nat, io: nat -> Io)
    requires Shaped(dir, s)
    ensures Shaped(dir, Feed(dir, sha, s, drive, id, msgs, k, io))
    decreases |msgs|
  {
    if msgs != [] {
      AcceptKeepsShape(dir, sha, s, drive, id, msgs[0], io(k));
      hide Shaped, Accept;
      var (t, ok) := Accept(dir, sha, s, drive, id, msgs[0], io(k));
      if ok { FeedKeepsShape(dir, sha, t, drive, id, msgs[1..], k + 1, io); }
    }
  }

  /** The metadata never reached the master. */
  predicate Lost(msgs: seq<Response>) { msgs == [] || msgs[0].metadata.None? }

  /** The bytes that stand in the temporary file before those of the download. */
  function Leftover(dir: string, s: Reassembly, id: FileID, lost: bool): Bytes {
    if lost then OnDisk(s.disk, TmpPath(dir, id)) else []
  }

  function MimeOf(s: Reassembly, id: FileID, lost: bool, src: Source): string {
    if lost && id in s.buffers then s.buffers[id].mime else ToMIME(src.rawMime)
  }

  /** The digest matches: always with fresh metadata; without, if the file was open and what
    its digest had consumed does not change it. */
  ghost predicate Passes(s: Reassembly, id: FileID, lost: bool, content: Bytes, sha: Bytes -> string) {
    lost ==> id in s.hash && sha(s.hash[id] + content) == sha(content)
  }

  lemma LostOutcome(
      dir: string, sha: Bytes -> string, s: Reassembly, drive: string, id: FileID, msgs: seq<Response>,
      io: nat -> Io, content: Bytes)
    requires Shaped(dir, s) && Carries(msgs, content, sha(content))
    ensures var t := Feed(dir, sha, s, drive, id, msgs, 0, io);
            if Signed(msgs) && Spared(msgs, 0, io) && Passes(s, id, true, content, sha)
            then id in s.buffers
              && Delivered(t, s, Location(drive, id, TmpPath(dir, id), s.buffers[id].mime), Leftover(dir, s, id, true) + content)
            else t.published == s.published
  {
    hide TmpPath, Carries, Feed, Spared, Delivered, OnDisk;
    assert id in s.buffers <==> id in s.hash;
    if id in s.buffers {
      RestOfDownload(dir, sha, s, drive, id, msgs, 0, io, s.buffers[id].mime, s.hash[id], OnDisk(s.disk, TmpPath(dir, id)),
                     content, sha(content));
    } else {
      ClosedStaysClosed(dir, sha, s, drive, id, msgs, 0, io, content, sha(content));
    }
  }

  lemma BeginOpens(
      dir: string, sha: Bytes -> string, s: Reassembly, drive: string, id: FileID, m: Metadata, io: Io)
    ensures var (t, ok) := Accept(dir, sha, s, drive, id, MetadataMessage(m), io);
            && (ok <==> io.creates) && t.published == s.published
            && (ok ==> Open(dir, t, id, m.effective, [], []))
  {
    hide TmpPath;
  }

  lemma FreshOutcome(
      dir: string, sha: Bytes -> string, s: Reassembly, drive: string, id: FileID, msgs: seq<Response>,
      io: nat -> Io, m: Metadata, content: Bytes)
    requires msgs != [] && msgs[0] == MetadataMessage(m) && Carries(msgs[1..], content, sha(content))
    ensures var t := Feed(dir, sha, s, drive, id, msgs, 0, io);
            if Signed(msgs) && Spared(msgs, 0, io)
            then Delivered(t, s, Location(drive, id, TmpPath(dir, id), m.effective), content)
            else t.published == s.published
  {
    hide TmpPath, Carries, Feed, Spared, Delivered, Open, Accept;
    FeedUnfolds(dir, sha, s, drive, id, msgs, 0, io);
    BeginOpens(dir, sha, s, drive, id, m, io(0));
    SparedTail(msgs, 0, io);
    SparedOne(msgs[0], 0, io);
    assert msgs[..1] == [msgs[0]];
    assert Signed(msgs) <==> Signed(msgs[1..]);
    var (t, ok) := Accept(dir, sha, s, drive, id, msgs[0], io(0));
    if ok {
      assert [] + content == content;
      RestOfDownload(dir, sha, t, drive, id, msgs[1..], 1, io, m.effective, [], [], content, sha(content));
      SamePublished(t, s, Location(drive, id, TmpPath(dir, id), m.effective), content, Feed(dir, sha, t, drive, id, msgs[1..], 1, io));
    }
  }

  /** What the master makes of messages that follow the grammar: exactly when it publishes,
    and what the published file then holds. */
  lemma GrammarOutcome(
      dir: string, sha: Bytes -> string, s: Reassembly, drive: string, id: FileID, msgs: seq<Response>,
      io: nat -> Io, src: Source, limit: nat)
    requires Shaped(dir, s) && Grammar(msgs, src, limit, sha(src.content))
    ensures var t, lost := Feed(dir, sha, s, drive, id, msgs, 0, io), Lost(msgs);
            if Signed(msgs) && Spared(msgs, 0, io) && Passes(s, id, lost, src.content, sha)
            then Delivered(t, s, Location(drive, id, TmpPath(dir, id), MimeOf(s, id, lost, src)),
                           Leftover(dir, s, id, lost) + src.content)
            else t.published == s.published
  {
    hide Refusal, Carries, TmpPath, ToMIME, Feed, Delivered, Spared, OnDisk, Passes, Shaped, Accept;
    FeedUnfolds(dir, sha, s, drive, id, msgs, 0, io);
    NothingCarries(src.content, sha(src.content));
    assert [] + src.content == src.content;
    if Refusal(src, limit).None? {
      if Carries(msgs, src.content, sha(src.content)) {
        LostOutcome(dir, sha, s, drive, id, msgs, io, src.content);
        if msgs != [] { CarriesData(msgs, src.content, sha(src.content)); }
      } else {
        FreshOutcome(dir, sha, s, drive, id, msgs, io, MetadataOf(src), src.content);
        PassesFresh(s, id, src.content, sha);
      }
    } else if msgs != [] {
      ErrorIsIgnored(dir, sha, s, drive, id, Refusal(src, limit).value, io(0));
      FeedUnfolds(dir, sha, s, drive, id, msgs[1..], 1, io);
    }
  }

  lemma PassesFresh(s: Reassembly, id: FileID, content: Bytes, sha: Bytes -> string)
    ensures Passes(s, id, false, content, sha)
  {
  }

  lemma ErrorIsIgnored(
      dir: string, sha: Bytes -> string, s: Reassembly, drive: string, id: FileID, e: FileError, io: Io)
    ensures Accept(dir, sha, s, drive, id, ErrorMessage(e), io) == (s, true)
  {
  }

  lemma FeedUnfolds(
      dir: string, sha: Bytes -> string, s: Reassembly, drive: string, id: FileID, msgs: seq<Response>, k: nat, io: nat -> Io)
    ensures msgs == [] ==> Feed(dir, sha, s, drive, id, msgs, k, io) == s
    ensures msgs != [] ==>
      var (t, ok) := Accept(dir, sha, s, drive, id, msgs[0], io(k));
      Feed(dir, sha, s, drive, id, msgs, k, io) == if ok then Feed(dir, sha, t, drive, id, msgs[1..], k + 1, io) else t
  {
  }

  lemma CarriesData(msgs: seq<Response>, rest: Bytes, digest: string)
    requires Carries(msgs, rest, digest) && msgs != []
    ensures msgs[0].metadata.None? && (msgs[0].chunk.Some? || msgs[0].signature.Some?)
  {
  }

  /** The first message is metadata unless the context was done at once. */
  lemma MetadataFirst(
      src: Source, limit: nat, capacity: nat, plan: seq<Read>, cancelled: nat -> bool, sha: Bytes -> string, n: nat)
    requires ReadsOf(src.content, capacity, plan, 0)
    requires n <= |Sent(src, limit, capacity, plan, cancelled, sha)|
    ensures var msgs := Sent(src, limit, capacity, plan, cancelled, sha)[..n];
            Signed(msgs) ==> Refusal(src, limit).None? && (Lost(msgs) <==> cancelled(0))
  {
    hide ReadsOf, Refusal, Carries, Body, MetadataOf;
    BodyCarries(src.content, capacity, plan, cancelled, sha);
    var sent, body := Sent(src, limit, capacity, plan, cancelled, sha), Body(src.content, capacity, plan, cancelled, sha);
    assert [] + body == body;
    if n > 0 {
      assert sent[..n][0] == sent[0];
      if sent == body { CarriesData(body, src.content, sha(src.content)); }
    }
  }

  /** The messages of one request that reach the master when the stream accepts `accepted` of them. */
  function Arriving(
      src: Source, limit: nat, capacity: nat, plan: seq<Read>, cancelled: nat -> bool, sha: Bytes -> string,
      accepted: nat): seq<PbResponse>
    requires ReadsOf(src.content, capacity, plan, 0)
  {
    var all := UpToTerminal(Sent(src, limit, capacity, plan, cancelled, sha));
    OnWire(all[..Min(accepted, |all|)])
  }

  lemma ArrivingFollowsGrammar(
      src: Source, limit: nat, capacity: nat, plan: seq<Read>, cancelled: nat -> bool, sha: Bytes -> string, accepted: nat)
    requires ReadsOf(src.content, capacity, plan, 0)
    ensures var sent := Sent(src, limit, capacity, plan, cancelled, sha);
            var msgs := OffWire(Arriving(src, limit, capacity, plan, cancelled, sha, accepted));
            msgs == sent[..Min(accepted, |sent|)] && Grammar(msgs, src, limit, sha(src.content))
  {
    hide ReadsOf, Grammar, Sent;
    var sent := Sent(src, limit, capacity, plan, cancelled, sha);
    EveryRunFollowsGrammar(src, limit, capacity, plan, cancelled, sha);
    GrammarIsUncut(sent, src, limit, sha(src.content));
    var n := Min(accepted, |sent|);
    GrammarPrefix(sent, n, src, limit, sha(src.content));
    WireIsTransparent(sent[..n], src, limit, sha(src.content));
  }

  /** What has been signed and arrived when the master took in a download. */
  function Arrived(
      src: Source, limit: nat, capacity: nat, plan: seq<Read>, cancelled: nat -> bool, sha: Bytes -> string,
      accepted: nat): seq<Response>
    requires ReadsOf(src.content, capacity, plan, 0)
  {
    OffWire(Arriving(src, limit, capacity, plan, cancelled, sha, accepted))
  }

  /** The outcome of one download, whatever the operating systems on both sides, the contexts
    and the stream do and whatever the master held: exactly when a location is published,
    which one, and what its file holds. */
  lemma DownloadOutcome(
      dir: string, s: Reassembly, drive: string, id: FileID, io: nat -> Io,
      src: Source, limit: nat, capacity: nat, plan: seq<Read>, cancelled: nat -> bool, sha: Bytes -> string, accepted: nat)
    requires ReadsOf(src.content, capacity, plan, 0) && Shaped(dir, s)
    ensures var msgs, lost := Arrived(src, limit, capacity, plan, cancelled, sha, accepted), cancelled(0);
            var t := Feed(dir, sha, s, drive, id, msgs, 0, io);
            if Signed(msgs) && Spared(msgs, 0, io) && Passes(s, id, lost, src.content, sha)
            then Delivered(t, s, Location(drive, id, TmpPath(dir, id), MimeOf(s, id, lost, src)),
                           Leftover(dir, s, id, lost) + src.content)
            else t.published == s.published
  {
    hide ReadsOf, Grammar, Sent, Feed, TmpPath, Delivered, Arriving, Spared, Passes, Shaped, Leftover, MimeOf, Signed, Lost;
    ArrivingFollowsGrammar(src, limit, capacity, plan, cancelled, sha, accepted);
    var sent := Sent(src, limit, capacity, plan, cancelled, sha);
    var msgs := Arrived(src, limit, capacity, plan, cancelled, sha, accepted);
    GrammarOutcome(dir, sha, s, drive, id, msgs, io, src, limit);
    MetadataFirst(src, limit, capacity, plan, cancelled, sha, Min(accepted, |sent|));
  }

  /** The file was left open with bytes on disk, loses its new metadata to a done context, and
    what its digest had consumed before does not show in the digest. */
  ghost predicate Tainted(
      dir: string, s: Reassembly, id: FileID, cancelled: nat -> bool, content: Bytes, sha: Bytes -> string)
  {
    && cancelled(0) && id in s.hash && OnDisk(s.disk, TmpPath(dir, id)) != []
    && sha(s.hash[id] + content) == sha(content)
  }

  /** A published file equals its source unless the file is tainted before the download; and a
    tainted one that is published never does. */
  lemma DownloadIsSafe(
      dir: string, s: Reassembly, drive: string, id: FileID, io: nat -> Io,
      src: Source, limit: nat, capacity: nat, plan: seq<Read>, cancelled: nat -> bool, sha: Bytes -> string, accepted: nat)
    requires ReadsOf(src.content, capacity, plan, 0) && Shaped(dir, s)
    ensures var t := Feed(dir, sha, s, drive, id, Arrived(src, limit, capacity, plan, cancelled, sha, accepted), 0, io);
            t.published == s.published
            || (&& |t.published| == |s.published| + 1
                && t.published == s.published + [Location(drive, id, TmpPath(dir, id), t.published[|s.published|].mime)]
                && (OnDisk(t.disk, TmpPath(dir, id)) == src.content <==> !Tainted(dir, s, id, cancelled, src.content, sha)))
  {
    hide ReadsOf, Feed, TmpPath, Spared, Shaped, MimeOf, Signed, Arrived, OnDisk;
    DownloadOutcome(dir, s, drive, id, io, src, limit, capacity, plan, cancelled, sha, accepted);
    var left := Leftover(dir, s, id, cancelled(0));
    assert left + src.content == src.content <==> left == [] by {
      assert |left + src.content| == |left| + |src.content|;
      assert [] + src.content == src.content;
    }
  }

  function FailingSecond(): nat -> Io { k => if k == 1 then Io(true, Some(1), false) else SMOOTH }

  /** It does happen: a write that fails after its one byte leaves the file open with that byte
    on disk and nothing digested; a second download of the file that loses its metadata
    then publishes the byte in front of the source, for every digest function. */
  lemma StaleByteIsPublished(dir: string, sha: Bytes -> string, drive: string, id: FileID, m: Metadata, src: Source, limit: nat)
    requires src.valid && src.found && src.size <= limit && !src.dir && src.regular && src.opens
    requires src.content == [1] && !src.sniffFails && !src.seekFails
    ensures var first := [MetadataMessage(m), ChunkMessage([7])];
            var s := Feed(dir, sha, Reassembly(map[], map[], map[], []), drive, id, first, 0, FailingSecond());
            var plan, cancelled := [Read(1, EndOfFile)], (k: nat) => k == 0;
            && ReadsOf(src.content, 1, plan, 0) && Tainted(dir, s, id, cancelled, src.content, sha)
            && var t := Feed(dir, sha, s, drive, id, Arrived(src, limit, 1, plan, cancelled, sha, 2), 0, _ => SMOOTH);
               t.published == [Location(drive, id, TmpPath(dir, id), m.effective)]
               && OnDisk(t.disk, TmpPath(dir, id)) == [7, 1]
  {
    hide Refusal, TmpPath;
    var s := LeftOpen(dir, sha, drive, id, m);
    var plan, cancelled := [Read(1, EndOfFile)], (k: nat) => k == 0;
    assert [] + src.content == src.content;
    assert Shaped(dir, s);
    OneByte(src, limit, sha);
    DownloadOutcome(dir, s, drive, id, _ => SMOOTH, src, limit, 1, plan, cancelled, sha, 2);
    assert [7] + [1] == [7, 1];
  }

  lemma LeftOpen(dir: string, sha: Bytes -> string, drive: string, id: FileID, m: Metadata) returns (s: Reassembly)
    ensures var path := TmpPath(dir, id);
            s == Reassembly(map[id := Buffer(path, m.effective)], map[id := []], map[path := [7]], [])
    ensures s == Feed(dir, sha, Reassembly(map[], map[], map[], []), drive, id, [MetadataMessage(m), ChunkMessage([7])], 0, FailingSecond())
  {
    hide TmpPath;
    var first := [MetadataMessage(m), ChunkMessage([7])];
    var empty := Reassembly(map[], map[], map[], []);
    FeedUnfolds(dir, sha, empty, drive, id, first, 0, FailingSecond());
    var s1 := Accept(dir, sha, empty, drive, id, first[0], SMOOTH).0;
    assert first[1..] == [ChunkMessage([7])];
    FeedUnfolds(dir, sha, s1, drive, id, first[1..], 1, FailingSecond());
    var data: Bytes := [7];
    assert [] + data[..1] == data;
    s := Accept(dir, sha, s1, drive, id, ChunkMessage([7]), FailingSecond()(1)).0;
  }

  lemma OneByte(src: Source, limit: nat, sha: Bytes -> string)
    requires src.valid && src.found && src.size <= limit && !src.dir && src.regular && src.opens
    requires src.content == [1] && !src.sniffFails && !src.seekFails
    ensures var plan, cancelled := [Read(1, EndOfFile)], (k: nat) => k == 0;
            && ReadsOf(src.content, 1, plan, 0)
            && var msgs := Arrived(src, limit, 1, plan, cancelled, sha, 2);
               Signed(msgs) && Spared(msgs, 0, _ => SMOOTH)
  {
    RefusedIff(src, limit);
    hide Refusal;
    var plan, cancelled := [Read(1, EndOfFile)], (k: nat) => k == 0;
    var loop := ReadLoop(src.content, 1, plan, 0, cancelled, 1);
    assert loop == Loop([src.content[0..1]], true);
    var sent := Sent(src, limit, 1, plan, cancelled, sha);
    assert loop.chunks[1..] == [] && ChunkMessages(loop.chunks[1..]) == [];
    assert ChunkMessages(loop.chunks) == [ChunkMessage(src.content[0..1])];
    var body := Body(src.content, 1, plan, cancelled, sha);
    assert sent == [] + body == body;
    assert sent == [ChunkMessage(src.content[0..1])] + [SignatureMessage(sha(src.content))];
    hide Sent, ReadsOf, ReadLoop, Grammar;
    ArrivingFollowsGrammar(src, limit, 1, plan, cancelled, sha, 2);
    assert sent[..2] == sent;
  }

  /** An undisturbed download of an accepted file is published exactly once, and its temporary
    file equals the source, however the reads split it and whatever the master held. */
  lemma DownloadIsDelivered(
      dir: string, s: Reassembly, drive: string, id: FileID,
      src: Source, limit: nat, capacity: nat, plan: seq<Read>, cancelled: nat -> bool, sha: Bytes -> string, accepted: nat)
    requires ReadsOf(src.content, capacity, plan, 0)
    requires Shaped(dir, s) && Undisturbed(src, plan, cancelled)
    requires src.valid && src.found && src.size <= limit && !src.dir && src.regular && src.opens
    requires accepted >= |Sent(src, limit, capacity, plan, cancelled, sha)|
    ensures var msgs := Arrived(src, limit, capacity, plan, cancelled, sha, accepted);
            Delivered(Feed(dir, sha, s, drive, id, msgs, 0, _ => SMOOTH), s,
                      Location(drive, id, TmpPath(dir, id), ToMIME(src.rawMime)), src.content)
    ensures var msgs := Arrived(src, limit, capacity, plan, cancelled, sha, accepted);
            var t, path := Feed(dir, sha, s, drive, id, msgs, 0, _ => SMOOTH), dir + "/" + id + ".tmp";
            && t.published == s.published + [Location(drive, id, path, ToMIME(src.rawMime))]
            && path in t.disk && t.disk[path] == src.content && id !in t.buffers && id !in t.hash
  {
    hide ReadsOf, Sent, Feed, TmpPath, ToMIME, Arrived, Shaped, Delivered, Spared, Signed, Passes, Leftover, MimeOf;
    var msgs := Arrived(src, limit, capacity, plan, cancelled, sha, accepted);
    var t := Feed(dir, sha, s, drive, id, msgs, 0, _ => SMOOTH);
    WholeArrives(src, limit, capacity, plan, cancelled, sha, accepted);
    SmoothSpares(msgs);
    FreshStart(dir, s, id, src, sha);
    DownloadOutcome(dir, s, drive, id, _ => SMOOTH, src, limit, capacity, plan, cancelled, sha, accepted);
    DeliveredMeans(dir, s, t, drive, id, ToMIME(src.rawMime), src.content);
  }

  lemma WholeArrives(
      src: Source, limit: nat, capacity: nat, plan: seq<Read>, cancelled: nat -> bool, sha: Bytes -> string, accepted: nat)
    requires ReadsOf(src.content, capacity, plan, 0) && Undisturbed(src, plan, cancelled)
    requires src.valid && src.found && src.size <= limit && !src.dir && src.regular && src.opens
    requires accepted >= |Sent(src, limit, capacity, plan, cancelled, sha)|
    ensures Signed(Arrived(src, limit, capacity, plan, cancelled, sha, accepted)) && !cancelled(0) && src.content != []
  {
    hide ReadsOf, Sent, Grammar, Arriving, ChunkMessages, ToMIME;
    ArrivingFollowsGrammar(src, limit, capacity, plan, cancelled, sha, accepted);
    var sent := Sent(src, limit, capacity, plan, cancelled, sha);
    var chunks := StreamIsTheFile(src, limit, capacity, plan, cancelled, sha);
    assert sent[..|sent|] == sent;
  }

  lemma SmoothSpares(msgs: seq<Response>)
    ensures Spared(msgs, 0, _ => SMOOTH)
  {
  }

  /** With its metadata, a download does not depend on what the master held. */
  lemma FreshStart(dir: string, s: Reassembly, id: FileID, src: Source, sha: Bytes -> string)
    ensures Passes(s, id, false, src.content, sha) && MimeOf(s, id, false, src) == ToMIME(src.rawMime)
    ensures Leftover(dir, s, id, false) + src.content == src.content
  {
  }

  lemma DeliveredMeans(dir: string, s: Reassembly, t: Reassembly, drive: string, id: FileID, mime: string, content: Bytes)
    requires Delivered(t, s, Location(drive, id, TmpPath(dir, id), mime), content) && content != []
    ensures var path := dir + "/" + id + ".tmp";
            && t.published == s.published + [Location(drive, id, path, mime)]
            && path in t.disk && t.disk[path] == content && id !in t.buffers && id !in t.hash
  {
  }

  // ------------------------------------------------------ one after the other

  /** One download with everything around it: who asks for which file, the source, how its
    reads go, which sends the scanner's context cuts off, how much the stream accepts, and
    what happens to each message at the master. */
  datatype Attempt = Attempt(
    drive: string, id: FileID, src: Source, limit: nat, capacity: nat, plan: seq<Read>,
    cancelled: nat -> bool, accepted: nat, io: nat -> Io)

  predicate Proper(a: Attempt) { ReadsOf(a.src.content, a.capacity, a.plan, 0) }

  predicate AllProper(attempts: seq<Attempt>) { forall i :: 0 <= i < |attempts| ==> Proper(attempts[i]) }

  function AfterOne(dir: string, sha: Bytes -> string, s: Reassembly, a: Attempt): Reassembly
    requires Proper(a)
  {
    Feed(dir, sha, s, a.drive, a.id, Arrived(a.src, a.limit, a.capacity, a.plan, a.cancelled, sha, a.accepted), 0, a.io)
  }

  /** The master after its downloads, one after the other, from an empty start. */
  function AfterAll(dir: string, sha: Bytes -> string, attempts: seq<Attempt>): Reassembly
    requires AllProper(attempts)
  {
    if attempts == [] then Reassembly(map[], map[], map[], [])
    else
      var n := |attempts| - 1;
      AfterOne(dir, sha, AfterAll(dir, sha, attempts[..n]), attempts[n])
  }

  lemma {:induction false} EveryStateIsShaped(dir: string, sha: Bytes -> string, attempts: seq<Attempt>)
    requires AllProper(attempts)
    ensures Shaped(dir, AfterAll(dir, sha, attempts))
  {
    if attempts != [] {
      hide Shaped, Arrived, ReadsOf;
      var n, a := |attempts| - 1, attempts[|attempts| - 1];
      EveryStateIsShaped(dir, sha, attempts[..n]);
      FeedKeepsShape(dir, sha, AfterAll(dir, sha, attempts[..n]), a.drive, a.id,
                     Arrived(a.src, a.limit, a.capacity, a.plan, a.cancelled, sha, a.accepted), 0, a.io);
    }
  }

  /** The attempt loses its metadata while its file stands open with bytes on disk, and the
    digest does not show it. */
  ghost predicate Spoiled(dir: string, sha: Bytes -> string, s: Reassembly, a: Attempt) {
    Tainted(dir, s, a.id, a.cancelled, a.src.content, sha)
  }

  /** An attempt adds nothing, or its own location with its own source's content. */
  ghost predicate Clean(dir: string, s: Reassembly, t: Reassembly, a: Attempt) {
    || t.published == s.published
    || (&& |t.published| == |s.published| + 1
        && t.published == s.published + [Location(a.drive, a.id, TmpPath(dir, a.id), t.published[|s.published|].mime)]
        && OnDisk(t.disk, TmpPath(dir, a.id)) == a.src.content)
  }

  /** In every sequence of downloads from an empty master, each is clean unless it is spoiled. */
  lemma EveryDownloadIsClean(dir: string, sha: Bytes -> string, attempts: seq<Attempt>, i: nat)
    requires AllProper(attempts) && i < |attempts|
    ensures var s, t := AfterAll(dir, sha, attempts[..i]), AfterAll(dir, sha, attempts[..i + 1]);
            !Spoiled(dir, sha, s, attempts[i]) ==> Clean(dir, s, t, attempts[i])
    ensures var s, t := AfterAll(dir, sha, attempts[..i]), AfterAll(dir, sha, attempts[..i + 1]);
            Spoiled(dir, sha, s, attempts[i]) ==>
              t.published == s.published || OnDisk(t.disk, TmpPath(dir, attempts[i].id)) != attempts[i].src.content
  {
    hide Shaped, Arrived, ReadsOf, Feed, TmpPath, Tainted, OnDisk;
    assert attempts[..i + 1][..i] == attempts[..i];
    var s, a := AfterAll(dir, sha, attempts[..i]), attempts[i];
    EveryStateIsShaped(dir, sha, attempts[..i]);
    DownloadIsSafe(dir, s, a.drive, a.id, a.io, a.src, a.limit, a.capacity, a.plan, a.cancelled, sha, a.accepted);
  }

  /** Downloads of other files leave a temporary file as it is. */
  lemma {:induction false} LaterDownloadsKeep(dir: string, sha: Bytes -> string, attempts: seq<Attempt>, i: nat, id: FileID)
    requires AllProper(attempts) && i <= |attempts|
    requires forall k :: i <= k < |attempts| ==> attempts[k].id != id
    ensures OnDisk(AfterAll(dir, sha, attempts).disk, TmpPath(dir, id)) == OnDisk(AfterAll(dir, sha, attempts[..i]).disk, TmpPath(dir, id))
  {
    hide AfterOne, Shaped, OnDisk, TmpPath, Proper;
    if i == |attempts| {
      assert attempts[..i] == attempts;
    } else {
      var n := |attempts| - 1;
      assert attempts[..n][..i] == attempts[..i];
      LaterDownloadsKeep(dir, sha, attempts[..n], i, id);
      EveryStateIsShaped(dir, sha, attempts[..n]);
      OneDownloadKeeps(dir, sha, AfterAll(dir, sha, attempts[..n]), attempts[n], id);
    }
  }

  lemma OneDownloadKeeps(dir: string, sha: Bytes -> string, s: Reassembly, a: Attempt, id: FileID)
    requires Proper(a) && Shaped(dir, s) && a.id != id
    ensures OnDisk(AfterOne(dir, sha, s, a).disk, TmpPath(dir, id)) == OnDisk(s.disk, TmpPath(dir, id))
  {
    hide TmpPath, Arrived, ReadsOf, Feed, OnDisk;
    PathsApart(dir, a.id, id);
    DownloadTouchesOnePath(dir, sha, s, a.drive, a.id,
                           Arrived(a.src, a.limit, a.capacity, a.plan, a.cancelled, sha, a.accepted), 0, a.io, TmpPath(dir, id));
  }

  /** The last download of a file, if it publishes and is not spoiled, leaves its source's
    content for good, whatever is downloaded before and after. */
  lemma LastDownloadStays(dir: string, sha: Bytes -> string, attempts: seq<Attempt>, i: nat)
    requires AllProper(attempts) && i < |attempts|
    requires forall k :: i < k < |attempts| ==> attempts[k].id != attempts[i].id
    requires !Spoiled(dir, sha, AfterAll(dir, sha, attempts[..i]), attempts[i])
    requires AfterAll(dir, sha, attempts[..i + 1]).published != AfterAll(dir, sha, attempts[..i]).published
    ensures OnDisk(AfterAll(dir, sha, attempts).disk, TmpPath(dir, attempts[i].id)) == attempts[i].src.content
  {
    hide AfterAll, Spoiled, TmpPath, OnDisk, Proper;
    EveryDownloadIsClean(dir, sha, attempts, i);
    LaterDownloadsKeep(dir, sha, attempts, i + 1, attempts[i].id);
  }
}
