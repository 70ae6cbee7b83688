/** The specialist job gate: files wait in a job map, a tick broadcasts as many as
  capacity allows, and answers free capacity again. */
module JobGate {
  type uint32 = n: int | 0 <= n < 0x1_0000_0000

  /** Arithmetic on `uint32` wraps around. */
  function Wrap(n: int): uint32 { n % 0x1_0000_0000 }

  datatype Location = Location(driveID: string, fileID: string, path: string, mime: string)

  datatype Job = Job(driveID: string, path: string, mime: string, running: bool)

  datatype Gate = Gate(max: uint32, count: uint32, jobs: map<string, Job>)

  /** `Broadcast` fails; or finds nobody for the type and will never answer; or sends the
    file out and will answer at most once. */
  datatype Broadcast = Failed | NoSpecialist | Dispatched

  datatype Segment = Segment(driveID: string, fileID: string)

  /** What `Broadcast` is called with. */
  datatype SpecialistRequest = SpecialistRequest(fileID: string, path: string, mime: string)

  function LocationOf(id: string, job: Job): Location { Location(job.driveID, id, job.path, job.mime) }

  function WithJob(g: Gate, l: Location): Gate {
    if l.fileID in g.jobs then g else g.(jobs := g.jobs[l.fileID := Job(l.driveID, l.path, l.mime, false)])
  }

  /** The loop of `processJobs` part way through: the slots left, the files sent out, and
    the jobs dropped because their broadcast failed. */
  datatype Tick = Tick(gate: Gate, left: uint32, sent: seq<string>, dropped: seq<Location>)

  /** One turn of the loop. Once no slot is left the loop has been broken off. */
  function Visit(t: Tick, id: string, outcome: Broadcast): Tick {
    if t.left == 0 || id !in t.gate.jobs || t.gate.jobs[id].running then t
    else
      var job, raised := t.gate.jobs[id], Wrap(t.gate.count + 1);
      if outcome == Failed then
        t.(gate := t.gate.(count := Wrap(raised - 1), jobs := t.gate.jobs - {id}),
           dropped := t.dropped + [LocationOf(id, job)])
      else
        t.(gate := t.gate.(count := raised, jobs := t.gate.jobs[id := job.(running := true)]),
           left := Wrap(t.left - 1),
           sent := if outcome == Dispatched then t.sent + [id] else t.sent)
  }

  function VisitAll(t: Tick, order: seq<string>, outcome: string -> Broadcast): Tick {
    if order == [] then t
    else
      var id := order[|order| - 1];
      Visit(VisitAll(t, order[..|order| - 1], outcome), id, outcome(id))
  }

  /** `processJobs` for one order in which the job map may be ranged over. */
  function AfterTick(g: Gate, order: seq<string>, outcome: string -> Broadcast): Tick {
    VisitAll(Tick(g, Wrap(g.max - g.count), [], []), order, outcome)
  }

  function WithoutJob(g: Gate, id: string): Gate {
    g.(jobs := g.jobs - {id}, count := if g.count > 0 then g.count - 1 else g.count)
  }

  /** The segment emitted for an answer; a file the gate does not know gets an empty drive. */
  function SegmentFor(g: Gate, id: string): Segment {
    Segment(if id in g.jobs then g.jobs[id].driveID else "", id)
  }

  /** Ranging over a map visits every key once, in any order. */
  ghost predicate RangesOver(order: seq<string>, jobs: map<string, Job>) {
    && (forall id :: id in order <==> id in jobs)
    && (forall i, j :: 0 <= i < j < |order| ==> order[i] != order[j])
  }

  class FileTmpJobWorker {
    const maxFileToProcess: uint32
    var processingFileCount: uint32
    var jobs: map<string, Job>
    var eventChan: seq<Segment>
    /** Temporary files removed so far. */
    var deleted: seq<string>

    ghost function View(): Gate
      reads this
    {
      Gate(maxFileToProcess, processingFileCount, jobs)
    }

    constructor (max: uint32)
      ensures View() == Gate(max, 0, map[]) && eventChan == [] && deleted == []
    {
      maxFileToProcess, processingFileCount, jobs, eventChan, deleted := max, 0, map[], [], [];
    }

    method AddJob(l: Location)
      modifies this
      ensures View() == WithJob(old(View()), l)
      ensures jobs == if l.fileID in old(jobs) then old(jobs) else old(jobs)[l.fileID := Job(l.driveID, l.path, l.mime, false)]
      ensures eventChan == old(eventChan) && deleted == old(deleted)
    {
      if l.fileID !in jobs {
        var job := Job(l.driveID, l.path, l.mime, false);
        jobs := jobs[l.fileID := job];
      }
    }

    /** `order` is the order the runtime ranges in, `outcome` what `Broadcast` returns. */
    method ProcessJobs(order: seq<string>, outcome: string -> Broadcast)
      returns (sent: seq<string>, requests: seq<SpecialistRequest>)
      modifies this
      ensures var t := AfterTick(old(View()), order, outcome);
              View() == t.gate && sent == t.sent && Removed(old(deleted), t.dropped, deleted)
      ensures AsksAbout(requests, old(jobs)) && sent == Accepted(requests, outcome)
      ensures eventChan == old(eventChan)
    {
      hide Visit, Wrap, AsksAbout, Removed, StillWaits;
      sent, requests := [], [];
      NothingYet(jobs, deleted);
      var nbrOfFile := Wrap(maxFileToProcess - processingFileCount);
      ghost var start := Tick(View(), nbrOfFile, [], []);
      ghost var t := start;
      if |jobs| == 0 {
        NoJobs(start, order, outcome);
        return;
      }
      if nbrOfFile <= 0 {
        NoSlots(start, order, outcome);
        return;
      }
      for i := 0 to |order|
        invariant t == VisitAll(start, order[..i], outcome)
        invariant t == Tick(View(), nbrOfFile, sent, t.dropped)
        invariant Removed(old(deleted), t.dropped, deleted)
        invariant AsksAbout(requests, old(jobs)) && sent == Accepted(requests, outcome)
        invariant StillWaits(old(jobs), jobs)
        invariant eventChan == old(eventChan)
      {
        assert order[..i + 1][..i] == order[..i];
        if nbrOfFile == 0 {
          SplitVisit(start, order, i, outcome);
          NoSlots(t, order[i..], outcome);
          return;
        }
        ghost var was, gone := jobs, deleted;
        ghost var more;
        var request;
        nbrOfFile, sent, request, more := VisitJob(order[i], outcome(order[i]), nbrOfFile, sent, t.dropped);
        RemovedMore(old(deleted), t.dropped, gone, more, deleted);
        AskMore(requests, old(jobs), was, request, jobs, outcome);
        requests := requests + request;
        t := Visit(t, order[i], outcome(order[i]));
      }
      assert order[..|order|] == order;
    }

    /** The loop body for one key; a key deleted before it is reached is not visited. */
    method VisitJob(fileID: string, outcome: Broadcast, nbrOfFile: uint32, sent: seq<string>, ghost dropped: seq<Location>)
      returns (left: uint32, sent': seq<string>, request: seq<SpecialistRequest>, ghost more: seq<Location>)
      requires nbrOfFile != 0
      modifies this
      ensures Visit(Tick(old(View()), nbrOfFile, sent, dropped), fileID, outcome) == Tick(View(), left, sent', dropped + more)
      ensures Removed(old(deleted), more, deleted) && eventChan == old(eventChan)
      ensures AsksAbout(request, old(jobs)) && StillWaits(old(jobs), jobs)
      ensures sent' == sent + if outcome == Dispatched && request != [] then [fileID] else []
      ensures |request| <= 1 && (request != [] ==> request[0].fileID == fileID)
    {
      left, sent', request, more := nbrOfFile, sent, [], [];
      if fileID !in jobs || jobs[fileID].running {
        return;
      }
      var fileJob := jobs[fileID];
      request := [SpecialistRequest(fileID, fileJob.path, fileJob.mime)];
      processingFileCount := Wrap(processingFileCount + 1);
      if outcome == Failed {
        processingFileCount := Wrap(processingFileCount - 1);
        deleted := deleted + [fileJob.path];
        more := [LocationOf(fileID, fileJob)];
        jobs := jobs - {fileID};
        return;
      }
      jobs := jobs[fileID := fileJob.(running := true)];
      left := Wrap(nbrOfFile - 1);
      if outcome == Dispatched {
        sent' := sent + [fileID];
      }
    }

    /** An answer frees its job and a slot, and is passed on with the job's drive unless the
      context is done. */
    method HandleSpecialistResponse(id: string, cancelled: bool) returns (ok: bool)
      modifies this
      ensures View() == WithoutJob(old(View()), id)
      ensures ok == !cancelled
      ensures eventChan == if ok then old(eventChan) + [SegmentFor(old(View()), id)] else old(eventChan)
      ensures deleted == old(deleted) + [if id in old(jobs) then old(jobs)[id].path else ""]
    {
      var driveID, path := "", "";
      if id in jobs {
        driveID, path := jobs[id].driveID, jobs[id].path;
      }
      jobs := jobs - {id};
      if processingFileCount > 0 {
        processingFileCount := processingFileCount - 1;
      }
      deleted := deleted + [path];
      if cancelled {
        return false;
      }
      eventChan := eventChan + [Segment(driveID, id)];
      return true;
    }
  }

  /** The removed files are those removed before and the temporary files of the dropped jobs. */
  predicate Removed(before: seq<string>, dropped: seq<Location>, now: seq<string>) {
    && |now| == |before| + |dropped| && before <= now
    && forall i :: 0 <= i < |dropped| ==> now[|before| + i] == dropped[i].path
  }

  /** Each request is about a waiting job, with that job's path and type. */
  predicate AsksAbout(requests: seq<SpecialistRequest>, jobs: map<string, Job>) {
    forall i :: 0 <= i < |requests| ==> IsAbout(requests[i], jobs)
  }

  predicate IsAbout(r: SpecialistRequest, jobs: map<string, Job>) {
    r.fileID in jobs && !jobs[r.fileID].running && r.path == jobs[r.fileID].path && r.mime == jobs[r.fileID].mime
  }

  /** The files whose requests were sent out. */
  function Accepted(requests: seq<SpecialistRequest>, outcome: string -> Broadcast): seq<string> {
    if requests == [] then []
    else
      var n := |requests| - 1;
      Accepted(requests[..n], outcome)
      + if outcome(requests[n].fileID) == Dispatched then [requests[n].fileID] else []
  }

  /** Whatever waits now is a job that waited before. */
  ghost predicate StillWaits(before: map<string, Job>, now: map<string, Job>) {
    forall id :: id in now && !now[id].running ==> id in before && now[id] == before[id]
  }

  lemma NothingYet(jobs: map<string, Job>, deleted: seq<string>)
    ensures Removed(deleted, [], deleted) && AsksAbout([], jobs) && StillWaits(jobs, jobs)
  {
  }

  lemma RemovedMore(before: seq<string>, a: seq<Location>, mid: seq<string>, b: seq<Location>, now: seq<string>)
    requires Removed(before, a, mid) && Removed(mid, b, now)
    ensures Removed(before, a + b, now)
  {
    forall i | 0 <= i < |a + b| ensures now[|before| + i] == (a + b)[i].path {
      if i < |a| {
        assert now[|before| + i] == mid[|before| + i];
      } else {
        assert now[|mid| + (i - |a|)] == b[i - |a|].path;
      }
    }
  }

  lemma AskMore(
      requests: seq<SpecialistRequest>, start: map<string, Job>, before: map<string, Job>, request: seq<SpecialistRequest>,
      now: map<string, Job>, outcome: string -> Broadcast)
    requires AsksAbout(requests, start) && StillWaits(start, before) && AsksAbout(request, before) && StillWaits(before, now)
    requires |request| <= 1
    ensures AsksAbout(requests + request, start) && StillWaits(start, now)
    ensures Accepted(requests + request, outcome)
      == Accepted(requests, outcome) + if request != [] && outcome(request[0].fileID) == Dispatched then [request[0].fileID] else []
  {
    if request != [] {
      assert IsAbout(request[0], start);
      assert (requests + request)[..|requests|] == requests;
    } else {
      assert requests + request == requests;
    }
  }

  lemma {:induction false} NoJobs(t: Tick, order: seq<string>, outcome: string -> Broadcast)
    requires |t.gate.jobs| == 0
    ensures VisitAll(t, order, outcome) == t
  {
    assert t.gate.jobs.Keys == {};
    if order != [] { NoJobs(t, order[..|order| - 1], outcome); }
  }

  lemma {:induction false} NoSlots(t: Tick, order: seq<string>, outcome: string -> Broadcast)
    requires t.left == 0
    ensures VisitAll(t, order, outcome) == t
  {
    if order != [] { NoSlots(t, order[..|order| - 1], outcome); }
  }

  lemma {:induction false} SplitVisit(t: Tick, order: seq<string>, i: nat, outcome: string -> Broadcast)
    requires i <= |order|
    ensures VisitAll(t, order, outcome) == VisitAll(VisitAll(t, order[..i], outcome), order[i..], outcome)
  {
    if i < |order| {
      var n := |order| - 1;
      assert order[..n][..i] == order[..i] && order[..n][i..] == order[i..][..n - i];
      SplitVisit(t, order[..n], i, outcome);
    } else {
      assert order[..i] == order;
    }
  }

  // --------------------------------------------------------------- counting

  ghost function Running(jobs: map<string, Job>): set<string> {
    set id | id in jobs && jobs[id].running
  }

  ghost function Waiting(jobs: map<string, Job>): set<string> {
    set id | id in jobs && !jobs[id].running
  }

  /** The job map as the locations it was filled from. */
  ghost function Held(jobs: map<string, Job>): multiset<Location> {
    multiset(set id | id in jobs :: LocationOf(id, jobs[id]))
  }

  lemma StartRunning(jobs: map<string, Job>, id: string)
    requires id in jobs && !jobs[id].running
    ensures var next := jobs[id := jobs[id].(running := true)];
            && Running(next) == Running(jobs) + {id} && id !in Running(jobs)
            && Waiting(next) == Waiting(jobs) - {id}
            && Held(next) == Held(jobs)
  {
    var next := jobs[id := jobs[id].(running := true)];
    assert forall k :: k in jobs ==> LocationOf(k, jobs[k]) == LocationOf(k, next[k]);
    assert (set k | k in jobs :: LocationOf(k, jobs[k])) == (set k | k in next :: LocationOf(k, next[k]));
  }

  lemma Forget(jobs: map<string, Job>, id: string)
    ensures Running(jobs - {id}) == Running(jobs) - {id}
    ensures Waiting(jobs - {id}) == Waiting(jobs) - {id}
    ensures id in jobs ==> Held(jobs) == Held(jobs - {id}) + multiset{LocationOf(id, jobs[id])}
    ensures id !in jobs ==> jobs - {id} == jobs
  {
    assert Running(jobs - {id}) == Running(jobs) - {id};
    if id in jobs { ForgetHeld(jobs, id); }
  }

  lemma ForgetHeld(jobs: map<string, Job>, id: string)
    requires id in jobs
    ensures Held(jobs) == Held(jobs - {id}) + multiset{LocationOf(id, jobs[id])}
  {
    var rest := set k | k in jobs - {id} :: LocationOf(k, (jobs - {id})[k]);
    var all, l := set k | k in jobs :: LocationOf(k, jobs[k]), LocationOf(id, jobs[id]);
    assert l in all && l !in rest;
    forall x | x in rest ensures x in all {
      var k :| k in jobs - {id} && x == LocationOf(k, (jobs - {id})[k]);
      assert k in jobs;
    }
    forall x | x in all ensures x in rest || x == l {
      var k :| k in jobs && x == LocationOf(k, jobs[k]);
      assert k != id ==> k in jobs - {id};
    }
    assert all == rest + {l};
  }

  lemma Register(jobs: map<string, Job>, l: Location)
    requires l.fileID !in jobs
    ensures var next := jobs[l.fileID := Job(l.driveID, l.path, l.mime, false)];
            && Running(next) == Running(jobs)
            && Held(next) == Held(jobs) + multiset{l}
  {
    var next := jobs[l.fileID := Job(l.driveID, l.path, l.mime, false)];
    Forget(next, l.fileID);
    assert next - {l.fileID} == jobs;
    assert LocationOf(l.fileID, next[l.fileID]) == l;
    assert Running(next) == Running(jobs);
  }

  // ------------------------------------------------------------------ a tick

  /** Part way through a tick: slots left and count add up to the maximum, and the count is
    at most the number of running jobs. */
  ghost predicate Accounted(t: Tick) {
    t.left + t.gate.count == t.gate.max && t.gate.count <= |Running(t.gate.jobs)|
  }

  lemma VisitKeepsAccount(t: Tick, id: string, outcome: Broadcast)
    requires Accounted(t)
    ensures var n := Visit(t, id, outcome);
            && Accounted(n) && n.gate.max == t.gate.max
            && |Running(n.gate.jobs)| - n.gate.count == |Running(t.gate.jobs)| - t.gate.count
            && Running(t.gate.jobs) <= Running(n.gate.jobs)
            && (t.left == 0 ==> n == t)
            && (n.left == 0 || id !in Waiting(n.gate.jobs))
            && Waiting(n.gate.jobs) <= Waiting(t.gate.jobs)
  {
    hide Held, LocationOf, Running, Waiting;
    RunningOrWaiting(t.gate.jobs, id);
    if t.left != 0 && id in t.gate.jobs && !t.gate.jobs[id].running {
      StartRunning(t.gate.jobs, id);
      Forget(t.gate.jobs, id);
    }
  }

  lemma RunningOrWaiting(jobs: map<string, Job>, id: string)
    ensures id in Waiting(jobs) <==> id in jobs && !jobs[id].running
    ensures id in Running(jobs) <==> id in jobs && jobs[id].running
  {
  }

  lemma VisitKeepsHeld(t: Tick, id: string, outcome: Broadcast)
    ensures var n := Visit(t, id, outcome);
            Held(t.gate.jobs) + multiset(t.dropped) == Held(n.gate.jobs) + multiset(n.dropped)
  {
    if t.left != 0 && id in t.gate.jobs && !t.gate.jobs[id].running {
      StartRunning(t.gate.jobs, id);
      Forget(t.gate.jobs, id);
      hide Running, Waiting, Held, LocationOf, Wrap;
    }
  }

  /** Files sent out during a tick were not running when it began, run when it ends, and are distinct. */
  ghost predicate SentFresh(before: set<string>, sent: seq<string>, after: set<string>) {
    && (forall id :: id in sent ==> id !in before && id in after)
    && (forall i, j :: 0 <= i < j < |sent| ==> sent[i] != sent[j])
  }

  lemma VisitKeepsSent(before: set<string>, t: Tick, id: string, outcome: Broadcast)
    requires SentFresh(before, t.sent, Running(t.gate.jobs)) && before <= Running(t.gate.jobs)
    ensures SentFresh(before, Visit(t, id, outcome).sent, Running(Visit(t, id, outcome).gate.jobs))
  {
    if t.left != 0 && id in t.gate.jobs && !t.gate.jobs[id].running {
      StartRunning(t.gate.jobs, id);
      Forget(t.gate.jobs, id);
      assert id !in Running(t.gate.jobs);
      hide Running, Waiting, Held, LocationOf, Wrap;
    }
  }

  /** A whole tick keeps the account, so neither the subtraction at its start nor a counter
    step wraps; it is work conserving: it ends with every slot taken or nothing it
    ranged over left waiting. */
  lemma {:induction false} TickKeepsAccount(g: Gate, order: seq<string>, outcome: string -> Broadcast)
    requires g.count <= g.max && g.count <= |Running(g.jobs)|
    ensures var t := AfterTick(g, order, outcome);
            && Accounted(t) && t.gate.max == g.max
            && |Running(t.gate.jobs)| - t.gate.count == |Running(g.jobs)| - g.count
            && Running(g.jobs) <= Running(t.gate.jobs)
            && Waiting(t.gate.jobs) <= Waiting(g.jobs)
            && (t.gate.count == g.max || forall id :: id in order ==> id !in Waiting(t.gate.jobs))
  {
    hide Running, Waiting, Visit;
    if order != [] {
      var n := |order| - 1;
      TickKeepsAccount(g, order[..n], outcome);
      VisitKeepsAccount(AfterTick(g, order[..n], outcome), order[n], outcome(order[n]));
    }
  }

  lemma {:induction false} TickKeepsHistory(g: Gate, order: seq<string>, outcome: string -> Broadcast)
    requires g.count <= g.max && g.count <= |Running(g.jobs)|
    ensures var t := AfterTick(g, order, outcome);
            && Held(g.jobs) == Held(t.gate.jobs) + multiset(t.dropped)
            && SentFresh(Running(g.jobs), t.sent, Running(t.gate.jobs))
  {
    hide Running, Held, Visit;
    if order != [] {
      var n := |order| - 1;
      TickKeepsHistory(g, order[..n], outcome);
      TickKeepsAccount(g, order[..n], outcome);
      var t := AfterTick(g, order[..n], outcome);
      VisitKeepsHeld(t, order[n], outcome(order[n]));
      VisitKeepsSent(Running(g.jobs), t, order[n], outcome(order[n]));
    }
  }
}
