/** What the sink does with a batch: one analysis record per event, one transfer task
  per event of an authorised type. */
module SinkStore {
  import opened Text
  import opened Badger
  import opened Analyses
  import Tasks
  import opened Mime
  import Enrichment

  datatype FileAnalyse = FileAnalyse(
    id: Uuid, driveID: string, path: string, rawMimeType: string, effectiveMimeType: string,
    sourceType: string, size: nat, scannedAt: Nanos)

  /** The identifier and the time drawn while the i-th event is processed, and whether the
    database takes its transfer. */
  datatype Draw = Draw(version: Uuid, now: Nanos, enqueues: bool)

  const FILE_ROOM: string := "file-room"

  /** `buildFinalAnalysis` without specialist results, as the sink calls it. */
  function AnalysisOf(evt: FileAnalyse, d: Draw): Analysis {
    Analysis(evt.id, evt.id, FILE_ROOM, evt.scannedAt, evt.path, [evt.rawMimeType, evt.sourceType], map[],
             FileDetails(false, evt.path, evt.rawMimeType, evt.size, ""), d.version)
  }

  function TaskOf(evt: FileAnalyse, d: Draw): Tasks.FileTask {
    Tasks.FileTask(evt.id, evt.driveID, evt.path, evt.rawMimeType, evt.effectiveMimeType, evt.size, Tasks.NORMAL, d.now, 0)
  }

  function AnalysesOf(events: seq<FileAnalyse>, draw: nat -> Draw): seq<Analysis> {
    seq(|events|, i requires 0 <= i < |events| => AnalysisOf(events[i], draw(i)))
  }

  function EnqueueAll(t: Tasks.Table, events: seq<FileAnalyse>, draw: nat -> Draw, authorised: string -> bool): Tasks.Table {
    if events == [] then t
    else
      var n := |events| - 1;
      var u, task := EnqueueAll(t, events[..n], draw, authorised), TaskOf(events[n], draw(n));
      if authorised(events[n].rawMimeType) && draw(n).enqueues then Put(u, Tasks.PendingKey(task), Tasks.Marshalled(Tasks.ToPb(task))) else u
  }

  method ProcessAndStore(events: seq<FileAnalyse>, draw: nat -> Draw, authorised: string -> bool,
                         analyses: AnalysisRepository, tasks: Tasks.FileTaskRepository)
    modifies analyses, tasks
    ensures analyses.db == PutAll(old(analyses.db), AnalysesOf(events, draw))
    ensures analyses.index == IndexBatch(old(analyses.index), AnalysesOf(events, draw))
    ensures tasks.db == EnqueueAll(old(tasks.db), events, draw, authorised)
  {
    hide PutAll, IndexBatch, Put;
    var allAnalyses: seq<Analysis> := [];
    for i := 0 to |events|
      invariant allAnalyses == AnalysesOf(events[..i], draw)
      invariant tasks.db == EnqueueAll(old(tasks.db), events[..i], draw, authorised)
      invariant analyses.db == old(analyses.db) && analyses.index == old(analyses.index)
    {
      assert events[..i + 1][..i] == events[..i];
      var evt := events[i];
      allAnalyses := allAnalyses + [AnalysisOf(evt, draw(i))];
      if authorised(evt.rawMimeType) && draw(i).enqueues {
        tasks.EnqueueTask(TaskOf(evt, draw(i)));
      }
    }
    assert events[..|events|] == events;
    if |allAnalyses| > 0 {
      analyses.StoreBatch(allAnalyses);
    } else {
      EmptyBatch(analyses.db, analyses.index);
    }
  }

  lemma EmptyBatch(t: Table, index: Index)
    ensures PutAll(t, []) == t && IndexBatch(index, []) == index
  {
    assert index + map[] == index;
  }

  ghost predicate DistinctIds(events: seq<FileAnalyse>) {
    forall i, j :: 0 <= i < j < |events| ==> events[i].id != events[j].id
  }

  // --------------------------------------------------------- the queue side

  /** The tasks a batch is to add, as the poller will see them. */
  function Wanted(events: seq<FileAnalyse>, draw: nat -> Draw, authorised: string -> bool): seq<Tasks.FileTask> {
    if events == [] then []
    else
      var n := |events| - 1;
      var front := Wanted(events[..n], draw, authorised);
      if authorised(events[n].rawMimeType) && draw(n).enqueues then front + [Tasks.Fetched(TaskOf(events[n], draw(n)))] else front
  }

  /** Every authorised event whose enqueue succeeds gets exactly one pending task, and no
    other task changes. */
  lemma {:induction false} BatchIsQueued(t: Tasks.Table, events: seq<FileAnalyse>, draw: nat -> Draw, authorised: string -> bool)
    requires Tasks.WellFormed(t) && DistinctIds(events)
    requires forall i: nat :: draw(i).now >= 1_000_000_000_000_000_000
    requires forall p, evt :: p in Tasks.Pending(t) && evt in events ==> p.id != evt.id
    ensures var u := EnqueueAll(t, events, draw, authorised);
            && Tasks.WellFormed(u)
            && multiset(Tasks.Pending(u)) == multiset(Tasks.Pending(t)) + multiset(Wanted(events, draw, authorised))
            && forall p :: p in Tasks.Pending(u) ==> p in Tasks.Pending(t) || exists evt :: evt in events && evt.id == p.id
  {
    hide Put, Tasks.WellFormed, Tasks.Pending, Tasks.PendingKey, Tasks.Fetched, Tasks.ToPb;
    if events != [] {
      var n := |events| - 1;
      var front, evt := events[..n], events[n];
      BatchIsQueued(t, front, draw, authorised);
      var u := EnqueueAll(t, front, draw, authorised);
      if authorised(evt.rawMimeType) && draw(n).enqueues {
        var task := TaskOf(evt, draw(n));
        forall p | p in Tasks.Pending(u) ensures p.id != evt.id {
          if p !in Tasks.Pending(t) {
            var other :| other in front && other.id == p.id;
            assert evt in events;
          }
        }
        AddOne(u, task);
      }
      assert forall x :: x in front ==> x in events;
    }
  }

  lemma AddOne(u: Tasks.Table, task: Tasks.FileTask)
    requires Tasks.WellFormed(u) && Tasks.InWindow(task)
    requires forall p :: p in Tasks.Pending(u) ==> p.id != task.id
    ensures var v := Put(u, Tasks.PendingKey(task), Tasks.Marshalled(Tasks.ToPb(task)));
            && Tasks.WellFormed(v)
            && multiset(Tasks.Pending(v)) == multiset(Tasks.Pending(u)) + multiset{Tasks.Fetched(task)}
            && forall p :: p in Tasks.Pending(v) ==> p in Tasks.Pending(u) || p.id == task.id
  {
    assert Tasks.Fetched(task).id == task.id;
    hide Put, Less, Tasks.Pending, Tasks.PendingKey, Tasks.Fetched, Tasks.ToPb, Tasks.FromPb;
    Tasks.PendingInOrder(u);
    Tasks.FamiliesApart(task);
    forall e | e in u ensures e.key != Tasks.PendingKey(task) {
      if Tasks.PendingPrefix() <= e.key { Tasks.KeyOrder(Tasks.FromPb(e.value.pb), task); }
    }
    var j := Tasks.EnqueueAddsOne(u, task);
    Inserted(Tasks.Pending(u), Tasks.Fetched(task), j);
  }

  lemma Inserted(p: seq<Tasks.FileTask>, x: Tasks.FileTask, j: nat)
    requires j <= |p|
    ensures multiset(p[..j] + [x] + p[j..]) == multiset(p) + multiset{x}
    ensures forall y :: y in p[..j] + [x] + p[j..] ==> y in p || y == x
  {
    assert p == p[..j] + p[j..];
  }

  /** The transfer an event asks for, field by field. */
  predicate IsTransferOf(t: Tasks.FileTask, evt: FileAnalyse, now: Nanos) {
    && t.id == evt.id && t.driveID == evt.driveID && t.path == evt.path && t.rawMimeType == evt.rawMimeType
    && t.effectiveMimeType == ToMIME(evt.effectiveMimeType) && t.size == evt.size
    && t.priority == 1 && t.createdAt == now && t.retryCount == 0
  }

  /** Task by task, the transfers of the events at these positions. */
  ghost predicate TransfersOf(ts: seq<Tasks.FileTask>, events: seq<FileAnalyse>, draw: nat -> Draw, at: seq<nat>) {
    && |ts| == |at|
    && forall k :: 0 <= k < |at| ==> at[k] < |events| && IsTransferOf(ts[k], events[at[k]], draw(at[k]).now)
  }

  /** Exactly the positions of authorised events whose enqueue succeeds, in order. */
  ghost predicate Selects(events: seq<FileAnalyse>, draw: nat -> Draw, authorised: string -> bool, at: seq<nat>) {
    && (forall i :: i in at <==> 0 <= i < |events| && authorised(events[i].rawMimeType) && draw(i).enqueues)
    && forall j, k :: 0 <= j < k < |at| ==> at[j] < at[k]
  }

  lemma TransferMore(
      ts: seq<Tasks.FileTask>, events: seq<FileAnalyse>, draw: nat -> Draw, at: seq<nat>, evt: FileAnalyse, t: seq<Tasks.FileTask>)
    requires TransfersOf(ts, events, draw, at)
    requires t == [] || (|t| == 1 && IsTransferOf(t[0], evt, draw(|events|).now))
    ensures TransfersOf(ts + t, events + [evt], draw, if t == [] then at else at + [|events|])
  {
    hide IsTransferOf;
    assert t == [] ==> ts + t == ts;
  }

  lemma SelectMore(events: seq<FileAnalyse>, draw: nat -> Draw, authorised: string -> bool, at: seq<nat>, evt: FileAnalyse)
    requires Selects(events, draw, authorised, at)
    ensures Selects(events + [evt], draw, authorised,
                    if authorised(evt.rawMimeType) && draw(|events|).enqueues then at + [|events|] else at)
  {
    forall k | 0 <= k < |at| ensures at[k] < |events| { assert at[k] in at; }
  }

  /** The tasks a batch adds are the transfers of its authorised events whose enqueue succeeds,
    one each and in order. */
  lemma {:induction false} WantedFields(events: seq<FileAnalyse>, draw: nat -> Draw, authorised: string -> bool)
      returns (at: seq<nat>)
    ensures Selects(events, draw, authorised, at) && TransfersOf(Wanted(events, draw, authorised), events, draw, at)
  {
    if events == [] {
      at := [];
    } else {
      hide IsTransferOf, Tasks.Fetched, Selects, TransfersOf, TaskOf;
      var n := |events| - 1;
      var evt, wanted := events[n], Wanted(events[..n], draw, authorised);
      var front := WantedFields(events[..n], draw, authorised);
      assert events[..n] + [evt] == events;
      SelectMore(events[..n], draw, authorised, front, evt);
      var task := Tasks.Fetched(TaskOf(evt, draw(n)));
      TransferFields(evt, draw(n));
      if authorised(evt.rawMimeType) && draw(n).enqueues {
        at := front + [n];
        TransferMore(wanted, events[..n], draw, front, evt, [task]);
      } else {
        at := front;
        TransferMore(wanted, events[..n], draw, front, evt, []);
        assert wanted + [] == wanted;
      }
    }
  }

  lemma TransferFields(evt: FileAnalyse, d: Draw)
    ensures IsTransferOf(Tasks.Fetched(TaskOf(evt, d)), evt, d.now)
  {
    Tasks.StorageKeepsTask(TaskOf(evt, d));
    hide Tasks.Fetched;
  }

  // ------------------------------------------------------- the record side

  lemma {:induction false} LastIsThisEvent(last: map<Uuid, Analysis>, events: seq<FileAnalyse>, draw: nat -> Draw, i: nat)
    requires i < |events| && DistinctIds(events)
    ensures var m := Remember(last, AnalysesOf(events, draw));
            events[i].id in m && m[events[i].id] == AnalysisOf(events[i], draw(i))
  {
    var n := |events| - 1;
    var batch := AnalysesOf(events, draw);
    assert batch[..n] == AnalysesOf(events[..n], draw) && batch[n] == AnalysisOf(events[n], draw(n));
    if i < n { LastIsThisEvent(last, events[..n], draw, i); }
  }

  /** The record a lookup answers for a file of the batch, field by field from its event. */
  lemma SinkRecordFields(s: Stores, last: map<Uuid, Analysis>, events: seq<FileAnalyse>, draw: nat -> Draw, i: nat)
    requires Agrees(s, last) && DistinctIds(events) && i < |events|
    ensures var batch, evt := AnalysesOf(events, draw), events[i];
            var r := Fetch(PutAll(s.db, batch), "file-room", evt.id);
            && r.Found?
            && r.analysis.id == evt.id && r.analysis.entityId == evt.id && r.analysis.namespace == "file-room"
            && r.analysis.at == evt.scannedAt && r.analysis.summary == evt.path
            && r.analysis.tags == [evt.rawMimeType, evt.sourceType] && r.analysis.scores == map[]
            && r.analysis.payload == FileDetails(false, evt.path, evt.rawMimeType, evt.size, "")
  {
    hide Agrees, PutAll, IndexBatch, Fetch, StoreEach;
    var batch := AnalysesOf(events, draw);
    BatchEntities(events, draw);
    BatchIsOneByOne(s, batch);
    StoreEachKeepsAgreement(s, last, batch);
    LastIsThisEvent(last, events, draw, i);
    FetchIsLastRecord(StoreEach(s, batch), Remember(last, batch), "file-room", events[i].id);
  }

  lemma {:induction false} LastOfBatch(last: map<Uuid, Analysis>, events: seq<FileAnalyse>, draw: nat -> Draw, i: nat)
    requires i < |events|
    ensures var m := Remember(last, AnalysesOf(events, draw));
            events[i].id in m && m[events[i].id].namespace == FILE_ROOM
  {
    var n := |events| - 1;
    var batch := AnalysesOf(events, draw);
    assert batch[..n] == AnalysesOf(events[..n], draw) && batch[n] == AnalysisOf(events[n], draw(n));
    if i < n { LastOfBatch(last, events[..n], draw, i); }
  }

  lemma BatchEntities(events: seq<FileAnalyse>, draw: nat -> Draw)
    requires DistinctIds(events)
    ensures DistinctEntities(AnalysesOf(events, draw))
  {
    var batch := AnalysesOf(events, draw);
    forall k | 0 <= k < |batch| ensures batch[k] == AnalysisOf(events[k], draw(k)) {
    }
  }

  /** The sink files its records under `file-room`, but enrichment looks them up under the
    drive: a specialist's segment for a file of the batch reaches the record exactly when
    the drive it carries is called `file-room`. */
  lemma SegmentReachesSinkRecord(s: Stores, last: map<Uuid, Analysis>, events: seq<FileAnalyse>, draw: nat -> Draw,
                                 i: nat, driveID: string, metrics: seq<Enrichment.Metric>, version: Uuid)
    requires Agrees(s, last) && DistinctIds(events) && i < |events|
    ensures var batch := AnalysesOf(events, draw);
            var s' := Stores(PutAll(s.db, batch), IndexBatch(s.index, batch));
            var segment := Enrichment.Segment(driveID, events[i].id, metrics);
            Enrichment.Handle(s', segment, version).0.Enriched? <==> driveID == FILE_ROOM
  {
    hide Agrees, PutAll, IndexBatch, Enrichment.Handle, Get, StoreEach;
    var batch := AnalysesOf(events, draw);
    BatchEntities(events, draw);
    BatchIsOneByOne(s, batch);
    StoreEachKeepsAgreement(s, last, batch);
    LastOfBatch(last, events, draw, i);
    Enrichment.EnrichmentIsInPlace(StoreEach(s, batch), Remember(last, batch),
                                   Enrichment.Segment(driveID, events[i].id, metrics), version);
  }
}
