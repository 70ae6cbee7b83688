/** The receiving side of a file transfer: the master's accumulator writes temporary files,
  keeps a running digest per file and publishes a file whose digest matches. */
module Accumulator {
  import opened Text
  import opened Transfer
  import opened JobGate

  type FileID = string

  datatype Buffer = Buffer(path: string, mime: string)

  /** What the operating system and the context do to one message: whether the file can be
    created, how much of a failing write still lands on disk, whether the context is done. */
  datatype Io = Io(creates: bool, failsAfter: Option<nat>, cancelled: bool)

  const SMOOTH: Io := Io(true, None, false)

  /** A running digest is represented by the bytes it has consumed. */
  datatype Reassembly = Reassembly(
    buffers: map<FileID, Buffer>, hash: map<FileID, Bytes>, disk: map<string, Bytes>, published: seq<Location>)

  function TmpPath(dir: string, id: FileID): string { dir + "/" + id + ".tmp" }

  /** Different files never share a temporary file. */
  lemma PathsApart(dir: string, a: FileID, b: FileID)
    ensures TmpPath(dir, a) == TmpPath(dir, b) <==> a == b
  {
    var p, q := TmpPath(dir, a), TmpPath(dir, b);
    var n := |dir| + 1;
    assert p[n..|p| - 4] == a && q[n..|q| - 4] == b;
  }

  function OnDisk(disk: map<string, Bytes>, path: string): Bytes { if path in disk then disk[path] else [] }

  /** The effect of one message, and whether it is accepted without an error. */
  function Accept(
      dir: string, sha: Bytes -> string, s: Reassembly, drive: string, id: FileID, resp: Response, io: Io): (Reassembly, bool)
  {
    if resp.metadata.Some? then Begin(dir, s, id, resp.metadata.value, io)
    else if resp.chunk.Some? then Append(s, id, resp.chunk.value, io)
    else if resp.signature.Some? then Publish(sha, s, drive, id, resp.signature.value, io)
    else (s, true)
  }

  function Begin(dir: string, s: Reassembly, id: FileID, m: Metadata, io: Io): (Reassembly, bool) {
    if !io.creates then (s, false)
    else
      var path := TmpPath(dir, id);
      (s.(buffers := s.buffers[id := Buffer(path, m.effective)], hash := s.hash[id := []], disk := s.disk[path := []]), true)
  }

  function Append(s: Reassembly, id: FileID, data: Bytes, io: Io): (Reassembly, bool) {
    if id !in s.buffers || id !in s.hash then (s, false)
    else
      var path := s.buffers[id].path;
      match io.failsAfter
      case Some(n) => (s.(disk := s.disk[path := OnDisk(s.disk, path) + data[..Min(n, |data|)]]), false)
      case None =>
        (s.(disk := s.disk[path := OnDisk(s.disk, path) + data], hash := s.hash[id := s.hash[id] + data]), true)
  }

  function Publish(sha: Bytes -> string, s: Reassembly, drive: string, id: FileID, expected: string, io: Io): (Reassembly, bool) {
    var t := s.(buffers := s.buffers - {id}, hash := s.hash - {id});
    if id !in s.buffers || id !in s.hash || sha(s.hash[id]) != expected || io.cancelled then (t, false)
    else (t.(published := s.published + [Location(drive, id, s.buffers[id].path, s.buffers[id].mime)]), true)
  }

  class FileAccumulator {
    const tempDir: string
    var buffers: map<FileID, Buffer>
    var hash: map<FileID, Bytes>
    var disk: map<string, Bytes>
    var published: seq<Location>

    constructor (dir: string)
      ensures tempDir == dir && Value() == Reassembly(map[], map[], map[], [])
    {
      tempDir, buffers, hash, disk, published := dir, map[], map[], map[], [];
    }

    function Value(): Reassembly
      reads this
    {
      Reassembly(buffers, hash, disk, published)
    }

    /** Takes the file out of both maps in any case; yields its buffer if the digest matches. */
    method Finalize(sha: Bytes -> string, id: FileID, expected: string) returns (r: Option<Buffer>)
      requires buffers.Keys == hash.Keys
      modifies this
      ensures r == if id in old(buffers) && sha(old(hash)[id]) == expected then Some(old(buffers)[id]) else None
      ensures Value() == old(Value()).(buffers := old(buffers) - {id}, hash := old(hash) - {id})
    {
      if id !in buffers {
        assert hash - {id} == hash && buffers - {id} == buffers;
        return None;
      }
      var buffer, consumed := buffers[id], hash[id];
      buffers := buffers - {id};
      hash := hash - {id};
      if sha(consumed) != expected {
        return None;
      }
      return Some(buffer);
    }

    method ProcessResponse(sha: Bytes -> string, drive: string, id: FileID, resp: Response, io: Io) returns (ok: bool)
      requires buffers.Keys == hash.Keys
      modifies this
      ensures (Value(), ok) == Accept(tempDir, sha, old(Value()), drive, id, resp, io)
      ensures buffers.Keys == hash.Keys
    {
      ok := true;
      if resp.metadata.Some? {
        if !io.creates {
          return false;
        }
        var path := TmpPath(tempDir, id);
        disk := disk[path := []];
        buffers := buffers[id := Buffer(path, resp.metadata.value.effective)];
        hash := hash[id := []];
      } else if resp.chunk.Some? {
        if id !in buffers || id !in hash {
          return false;
        }
        var path, data := buffers[id].path, resp.chunk.value;
        if io.failsAfter.Some? {
          disk := disk[path := OnDisk(disk, path) + data[..Min(io.failsAfter.value, |data|)]];
          return false;
        }
        disk := disk[path := OnDisk(disk, path) + data];
        hash := hash[id := hash[id] + data];
      } else if resp.signature.Some? {
        var buffer := Finalize(sha, id, resp.signature.value);
        if buffer.None? || io.cancelled {
          return false;
        }
        published := published + [Location(drive, id, buffer.value.path, buffer.value.mime)];
      }
    }

    /** The receive loop of one download: stops at the first message that is not accepted. */
    method HandleDownload(sha: Bytes -> string, drive: string, id: FileID, wire: seq<PbResponse>, io: nat -> Io)
      requires buffers.Keys == hash.Keys
      modifies this
      ensures Value() == Feed(tempDir, sha, old(Value()), drive, id, OffWire(wire), 0, io)
      ensures buffers.Keys == hash.Keys
    {
      ghost var goal := Feed(tempDir, sha, Value(), drive, id, OffWire(wire), 0, io);
      assert wire[0..] == wire;
      hide Accept;
      for k := 0 to |wire|
        invariant buffers.Keys == hash.Keys
        invariant goal == Feed(tempDir, sha, Value(), drive, id, OffWire(wire[k..]), k, io)
      {
        assert OffWire(wire[k..])[1..] == OffWire(wire[k + 1..]);
        var ok := ProcessResponse(sha, drive, id, FromPbResponse(wire[k]), io(k));
        if !ok {
          return;
        }
      }
    }
  }

  function OffWire(wire: seq<PbResponse>): seq<Response> {
    seq(|wire|, i requires 0 <= i < |wire| => FromPbResponse(wire[i]))
  }

  function Feed(
      dir: string, sha: Bytes -> string, s: Reassembly, drive: string, id: FileID, msgs: seq<Response>, k: nat,
      io: nat -> Io): Reassembly
    decreases |msgs|
  {
    if msgs == [] then s
    else
      var (t, ok) := Accept(dir, sha, s, drive, id, msgs[0], io(k));
      if ok then Feed(dir, sha, t, drive, id, msgs[1..], k + 1, io) else t
  }

  // ----------------------------------------------------- several files at once

  datatype Event = Event(drive: string, file: FileID, resp: Response, cancelled: bool)

  /** Any interleaving of messages for any files, all creates and writes succeeding. */
  function Run(dir: string, sha: Bytes -> string, events: seq<Event>): Reassembly {
    if events == [] then Reassembly(map[], map[], map[], [])
    else
      var e := events[|events| - 1];
      Accept(dir, sha, Run(dir, sha, events[..|events| - 1]), e.drive, e.file, e.resp, SMOOTH.(cancelled := e.cancelled)).0
  }

  datatype Transit = Transit(mime: string, bytes: Bytes)

  /** Read off the messages alone: the bytes of `id` since its last metadata, unless a
    signature has come since. */
  function InTransit(events: seq<Event>, id: FileID): Option<Transit> {
    if events == [] then None
    else
      var before, e := InTransit(events[..|events| - 1], id), events[|events| - 1];
      if e.file != id then before
      else if e.resp.metadata.Some? then Some(Transit(e.resp.metadata.value.effective, []))
      else if e.resp.chunk.Some? then
        if before.Some? then Some(before.value.(bytes := before.value.bytes + e.resp.chunk.value)) else None
      else if e.resp.signature.Some? then None
      else before
  }

  /** The message is a signature that matches the bytes in transit, with the context alive. */
  predicate Matches(sha: Bytes -> string, before: Option<Transit>, e: Event) {
    && e.resp.metadata.None? && e.resp.chunk.None? && e.resp.signature.Some?
    && before.Some? && sha(before.value.bytes) == e.resp.signature.value && !e.cancelled
  }

  /** Read off the messages alone: what ought to be published, in order. */
  function Due(dir: string, sha: Bytes -> string, events: seq<Event>): seq<Location> {
    if events == [] then []
    else
      var front, e := events[..|events| - 1], events[|events| - 1];
      Due(dir, sha, front)
      + if Matches(sha, InTransit(front, e.file), e)
        then [Location(e.drive, e.file, TmpPath(dir, e.file), InTransit(front, e.file).value.mime)] else []
  }

  /** As far as `id` is concerned: it is in both maps or in neither, exactly when it is in
    transit, and both the running digest and the temporary file hold its bytes in transit. */
  ghost predicate Tracks(dir: string, s: Reassembly, id: FileID, now: Option<Transit>) {
    && (id in s.buffers <==> now.Some?) && (id in s.hash <==> now.Some?)
    && (now.Some? ==>
          && s.buffers[id] == Buffer(TmpPath(dir, id), now.value.mime)
          && s.hash[id] == now.value.bytes
          && TmpPath(dir, id) in s.disk && s.disk[TmpPath(dir, id)] == now.value.bytes)
  }

  /** A message for another file leaves everything of `id` alone. */
  lemma OthersUntouched(
      dir: string, sha: Bytes -> string, s: Reassembly, drive: string, other: FileID, resp: Response, io: Io,
      id: FileID, now: Option<Transit>)
    requires other != id && Tracks(dir, s, id, now)
    requires other in s.buffers ==> s.buffers[other].path == TmpPath(dir, other)
    ensures Tracks(dir, Accept(dir, sha, s, drive, other, resp, io).0, id, now)
  {
    PathsApart(dir, other, id);
    hide TmpPath;
  }

  lemma OwnMessage(dir: string, sha: Bytes -> string, s: Reassembly, front: seq<Event>, e: Event)
    requires Tracks(dir, s, e.file, InTransit(front, e.file))
    ensures var io := SMOOTH.(cancelled := e.cancelled);
            Tracks(dir, Accept(dir, sha, s, e.drive, e.file, e.resp, io).0, e.file, InTransit(front + [e], e.file))
  {
    assert (front + [e])[..|front|] == front;
    var now := InTransit(front, e.file);
    var after := InTransit(front + [e], e.file);
    hide TmpPath, InTransit, Begin, Append, Publish, Tracks;
    if e.resp.metadata.Some? {
      BeginTracks(dir, s, e.file, e.resp.metadata.value, SMOOTH.(cancelled := e.cancelled));
    } else if e.resp.chunk.Some? {
      AppendTracks(dir, s, e.file, e.resp.chunk.value, SMOOTH.(cancelled := e.cancelled), now);
    } else if e.resp.signature.Some? {
      PublishTracks(dir, sha, s, e.drive, e.file, e.resp.signature.value, SMOOTH.(cancelled := e.cancelled));
    }
  }

  lemma BeginTracks(dir: string, s: Reassembly, id: FileID, m: Metadata, io: Io)
    requires io.creates
    ensures Tracks(dir, Begin(dir, s, id, m, io).0, id, Some(Transit(m.effective, [])))
  {
    hide TmpPath;
  }

  lemma AppendTracks(dir: string, s: Reassembly, id: FileID, data: Bytes, io: Io, now: Option<Transit>)
    requires io.failsAfter.None? && Tracks(dir, s, id, now)
    ensures Tracks(dir, Append(s, id, data, io).0, id,
                   if now.Some? then Some(now.value.(bytes := now.value.bytes + data)) else None)
  {
    hide TmpPath;
  }

  lemma PublishTracks(dir: string, sha: Bytes -> string, s: Reassembly, drive: string, id: FileID, expected: string, io: Io)
    ensures Tracks(dir, Publish(sha, s, drive, id, expected, io).0, id, None)
  {
    hide TmpPath;
  }

  /** In every interleaving, for every file: the maps agree, the digest and the temporary file
    hold exactly the bytes received since the last metadata. */
  lemma {:induction false} EveryRunTracks(dir: string, sha: Bytes -> string, events: seq<Event>, id: FileID)
    ensures Tracks(dir, Run(dir, sha, events), id, InTransit(events, id))
  {
    if events != [] {
      var front, e := events[..|events| - 1], events[|events| - 1];
      var s := Run(dir, sha, front);
      assert events == front + [e];
      EveryRunTracks(dir, sha, front, id);
      EveryRunTracks(dir, sha, front, e.file);
      if e.file == id {
        OwnMessage(dir, sha, s, front, e);
      } else {
        OthersUntouched(dir, sha, s, e.drive, e.file, e.resp, SMOOTH.(cancelled := e.cancelled), id, InTransit(front, id));
      }
    }
  }

  /** Exactly the due locations are published: a file is published when and only when the
    signature matches the bytes its temporary file then holds. */
  lemma {:induction false} PublishedIsDue(dir: string, sha: Bytes -> string, events: seq<Event>)
    ensures Run(dir, sha, events).published == Due(dir, sha, events)
  {
    if events != [] {
      hide TmpPath;
      var front, e := events[..|events| - 1], events[|events| - 1];
      PublishedIsDue(dir, sha, front);
      EveryRunTracks(dir, sha, front, e.file);
    }
  }

  function CountPublished(locations: seq<Location>, id: FileID): nat {
    if locations == [] then 0
    else CountPublished(locations[..|locations| - 1], id) + if locations[|locations| - 1].fileID == id then 1 else 0
  }

  function CountMetadata(events: seq<Event>, id: FileID): nat {
    if events == [] then 0
    else
      var e := events[|events| - 1];
      CountMetadata(events[..|events| - 1], id) + if e.file == id && e.resp.metadata.Some? then 1 else 0
  }

  /** Each metadata message is good for at most one publication of its file. */
  lemma {:induction false} OncePerMetadata(dir: string, sha: Bytes -> string, events: seq<Event>, id: FileID)
    ensures CountPublished(Due(dir, sha, events), id) + (if InTransit(events, id).Some? then 1 else 0)
         <= CountMetadata(events, id)
  {
    if events != [] {
      var front, e := events[..|events| - 1], events[|events| - 1];
      OncePerMetadata(dir, sha, front, id);
      DueStep(dir, sha, events, id);
      hide TmpPath, Due, CountPublished;
    }
  }

  /** A message publishes its own file, and only when its signature matches. */
  lemma DueStep(dir: string, sha: Bytes -> string, events: seq<Event>, id: FileID)
    requires events != []
    ensures var front, e := events[..|events| - 1], events[|events| - 1];
            CountPublished(Due(dir, sha, events), id) == CountPublished(Due(dir, sha, front), id)
              + if e.file == id && Matches(sha, InTransit(front, id), e) then 1 else 0
  {
    hide TmpPath, InTransit;
    var front, e := events[..|events| - 1], events[|events| - 1];
    var due := Due(dir, sha, front);
    if Matches(sha, InTransit(front, e.file), e) {
      CountSnoc(due, Location(e.drive, e.file, TmpPath(dir, e.file), InTransit(front, e.file).value.mime), id);
    } else {
      assert due + [] == due;
    }
  }

  lemma CountSnoc(due: seq<Location>, l: Location, id: FileID)
    ensures CountPublished(due + [l], id) == CountPublished(due, id) + if l.fileID == id then 1 else 0
  {
    assert (due + [l])[..|due|] == due;
  }

  ghost predicate NoMetadataFor(events: seq<Event>, id: FileID) {
    forall k :: 0 <= k < |events| ==> !(events[k].file == id && events[k].resp.metadata.Some?)
  }

  /** From its publication to its next metadata, a file stays closed and its temporary file
    holds exactly the bytes that were signed, whatever messages come for it or others. */
  lemma {:induction false} PublishedFileKeeps(dir: string, sha: Bytes -> string, events: seq<Event>, i: nat)
    requires i < |events| && Matches(sha, InTransit(events[..i], events[i].file), events[i])
    requires NoMetadataFor(events[i + 1..], events[i].file)
    ensures var id := events[i].file;
            && InTransit(events, id).None?
            && TmpPath(dir, id) in Run(dir, sha, events).disk
            && Run(dir, sha, events).disk[TmpPath(dir, id)] == InTransit(events[..i], id).value.bytes
  {
    var n, id := |events| - 1, events[i].file;
    var front, e := events[..n], events[n];
    var s := Run(dir, sha, front);
    EveryRunTracks(dir, sha, front, e.file);
    hide TmpPath;
    if i < n {
      assert front[..i] == events[..i];
      assert front[i + 1..] == events[i + 1..][..n - i - 1];
      PublishedFileKeeps(dir, sha, front, i);
      assert e == events[i + 1..][n - i - 1];
      KeptByMessage(dir, sha, s, e, id);
    }
  }

  lemma KeptByMessage(dir: string, sha: Bytes -> string, s: Reassembly, e: Event, id: FileID)
    requires TmpPath(dir, id) in s.disk && (e.file == id ==> e.resp.metadata.None? && id !in s.buffers)
    requires e.file in s.buffers ==> s.buffers[e.file].path == TmpPath(dir, e.file)
    ensures var t := Accept(dir, sha, s, e.drive, e.file, e.resp, SMOOTH.(cancelled := e.cancelled)).0;
            TmpPath(dir, id) in t.disk && t.disk[TmpPath(dir, id)] == s.disk[TmpPath(dir, id)]
  {
    PathsApart(dir, e.file, id);
    hide TmpPath;
  }
}
