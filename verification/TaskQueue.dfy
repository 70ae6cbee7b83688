/** The transfer queue as it runs: the sink enqueues while one poller fetches
  batches and claims their tasks one transaction at a time. */
module TaskQueue {
  import opened Text
  import opened Badger
  import opened Tasks

  /** The stored table, the poller's unclaimed remainder of its batch, and the history. */
  datatype Queue = Queue(table: Table, batch: seq<FileTask>, enqueued: seq<FileTask>, dispatched: seq<FileTask>)

  datatype Step =
    | Enqueue(task: FileTask)   // another goroutine stores a task
    | Poll(limit: int)          // a tick fetches a batch
    | Claim(commits: bool)      // the next task of the batch is claimed and dispatched, or skipped

  ghost predicate Enabled(q: Queue, step: Step) {
    match step
    case Enqueue(task) => InWindow(task) && forall t :: t in q.enqueued ==> t.id != task.id
    case Poll(limit) => q.batch == []
    case Claim(commits) => q.batch != []
  }

  function Apply(q: Queue, step: Step): Queue {
    match step
    case Enqueue(task) =>
      q.(table := Put(q.table, PendingKey(task), Marshalled(ToPb(task))), enqueued := q.enqueued + [Fetched(task)])
    case Poll(limit) =>
      var b := Batch(q.table, limit);
      if b.None? then q else q.(batch := b.value)
    case Claim(commits) =>
      if q.batch == [] then q
      else if commits && Get(q.table, PendingKey(q.batch[0])).Some? then
        Queue(Claimed(q.table, q.batch[0]), q.batch[1..], q.enqueued, q.dispatched + [q.batch[0]])
      else
        q.(batch := q.batch[1..])
  }

  /** A run: steps that are not enabled do not happen. */
  ghost function Exec(q: Queue, steps: seq<Step>): Queue {
    if steps == [] then q
    else
      var p := Exec(q, steps[..|steps| - 1]);
      var step := steps[|steps| - 1];
      if Enabled(p, step) then Apply(p, step) else p
  }

  ghost predicate DistinctIds(ts: seq<FileTask>) {
    forall i, j :: 0 <= i < j < |ts| ==> ts[i].id != ts[j].id
  }

  /** Nothing is lost or duplicated, and the batch in hand is still pending. */
  ghost predicate Balanced(pending: seq<FileTask>, batch: seq<FileTask>, enqueued: seq<FileTask>, dispatched: seq<FileTask>) {
    && DistinctIds(enqueued)
    && multiset(enqueued) == multiset(pending) + multiset(dispatched)
    && multiset(batch) <= multiset(pending)
  }

  lemma BalancedEnqueue(p: seq<FileTask>, b: seq<FileTask>, e: seq<FileTask>, d: seq<FileTask>, x: FileTask, j: nat)
    requires Balanced(p, b, e, d) && j <= |p| && forall t :: t in e ==> t.id != x.id
    ensures Balanced(p[..j] + [x] + p[j..], b, e + [x], d)
  {
    assert p == p[..j] + p[j..];
  }

  lemma BalancedClaim(p: seq<FileTask>, b: seq<FileTask>, e: seq<FileTask>, d: seq<FileTask>, j: nat)
    requires Balanced(p, b, e, d) && b != [] && j < |p| && p[j] == b[0]
    ensures Balanced(p[..j] + p[j + 1..], b[1..], e, d + [b[0]])
    ensures Balanced(p, b[1..], e, d)
  {
    hide DistinctIds;
    var x, rest := b[0], p[..j] + p[j + 1..];
    assert b[..0] + b[1..] == b[1..];
    TakeOut(b, 0);
    TakeOut(p, j);
    assert multiset(d + [x]) == multiset(d) + multiset{x};
    MoveOver(multiset(p), multiset(b), multiset(e), multiset(d), x, multiset(rest), multiset(b[1..]));
  }

  lemma TakeOut(p: seq<FileTask>, j: nat)
    requires j < |p|
    ensures multiset(p) == multiset(p[..j] + p[j + 1..]) + multiset{p[j]}
  {
    assert p == p[..j] + [p[j]] + p[j + 1..];
  }

  lemma MoveOver(
      p: multiset<FileTask>, b: multiset<FileTask>, e: multiset<FileTask>, d: multiset<FileTask>, x: FileTask,
      rest: multiset<FileTask>, left: multiset<FileTask>)
    requires p == rest + multiset{x} && b == left + multiset{x} && b <= p && e == p + d
    ensures e == rest + (d + multiset{x}) && left <= rest && left <= p
  {
    forall y ensures left[y] <= rest[y] && left[y] <= p[y] { assert b[y] <= p[y]; }
  }

  lemma BatchIsPending(p: seq<FileTask>, b: seq<FileTask>, e: seq<FileTask>, d: seq<FileTask>) returns (j: nat)
    requires Balanced(p, b, e, d) && b != []
    ensures j < |p| && p[j] == b[0]
    ensures b[0] in e && b[0] !in d && forall x :: x in d ==> x in e
  {
    assert b[0] in multiset(b);
    assert b[0] in multiset(p);
    j :| 0 <= j < |p| && p[j] == b[0];
    forall x | x in d ensures x in e { assert x in multiset(d); assert x in multiset(e); }
    assert b[0] in multiset(e);
    if b[0] in d {
      assert multiset(d)[b[0]] >= 1 && multiset(e)[b[0]] >= 2;
      TwiceInSeq(e, b[0]);
    }
  }

  lemma {:induction false} TwiceInSeq(e: seq<FileTask>, x: FileTask)
    requires multiset(e)[x] >= 2
    ensures !DistinctIds(e)
  {
    var i :| 0 <= i < |e| && e[i] == x;
    var rest := e[..i] + e[i + 1..];
    assert e == e[..i] + [x] + e[i + 1..];
    assert x in multiset(rest);
    var j :| 0 <= j < |rest| && rest[j] == x;
    assert e[if j < i then j else j + 1] == x;
  }

  /** The processing entries are the dispatched tasks. */
  ghost predicate ProcessingMatches(t: Table, dispatched: seq<FileTask>) {
    && (forall d :: d in dispatched ==> Get(t, ProcessingKey(d)) == Some(Marshalled(ToPb(d))))
    && (forall e :: e in t && ProcessingPrefix() <= e.key ==> exists d :: d in dispatched && ProcessingKey(d) == e.key)
  }

  ghost predicate Inv(q: Queue) {
    && WellFormed(q.table)
    && Balanced(Pending(q.table), q.batch, q.enqueued, q.dispatched)
    && ProcessingMatches(q.table, q.dispatched)
  }

  /** A queue before any work, in a database that may hold other families. */
  ghost predicate Initial(q: Queue) {
    && Sorted(q.table) && q.batch == q.enqueued == q.dispatched == []
    && forall e :: e in q.table ==> !(PendingPrefix() <= e.key) && !(ProcessingPrefix() <= e.key)
  }

  lemma InitialInv(q: Queue)
    requires Initial(q)
    ensures Inv(q)
  {
    NothingUnder(q.table, PendingPrefix());
  }

  lemma PendingWasEnqueued(p: seq<FileTask>, b: seq<FileTask>, e: seq<FileTask>, d: seq<FileTask>, x: FileTask)
    requires Balanced(p, b, e, d) && x in p
    ensures x in e
  {
    assert x in multiset(p);
    assert x in multiset(e);
  }

  /** A task that was never enqueued has a free pending key. */
  lemma FreshKey(q: Queue, task: FileTask)
    requires Inv(q) && Enabled(q, Enqueue(task))
    ensures PendingKey(task) !in Keys(q.table)
  {
    hide Less, Pending, PendingKey, PendingPrefix, Balanced, Under, FromPb;
    FamiliesApart(task);
    PendingInOrder(q.table);
    forall e | e in q.table ensures e.key != PendingKey(task) {
      if PendingPrefix() <= e.key {
        var held := FromPb(e.value.pb);
        PendingWasEnqueued(Pending(q.table), q.batch, q.enqueued, q.dispatched, held);
        KeyOrder(held, task);
      }
    }
  }

  lemma EnqueueKeepsInv(q: Queue, task: FileTask)
    requires Inv(q) && Enabled(q, Enqueue(task))
    ensures Inv(Apply(q, Enqueue(task)))
  {
    FetchedId(task);
    FreshKey(q, task);
    hide Less, Pending, PendingKey, Put, InWindow, ToPb, Fetched, Balanced, WellFormed, ProcessingMatches;
    var j := EnqueueAddsOne(q.table, task);
    BalancedEnqueue(Pending(q.table), q.batch, q.enqueued, q.dispatched, Fetched(task), j);
    SortedTable(q.table);
    EnqueueKeepsProcessing(q.table, q.dispatched, task);
  }

  lemma EnqueueKeepsProcessing(t: Table, dispatched: seq<FileTask>, task: FileTask)
    requires Sorted(t) && ProcessingMatches(t, dispatched)
    ensures ProcessingMatches(Put(t, PendingKey(task), Marshalled(ToPb(task))), dispatched)
  {
    hide Less, PendingKey, ProcessingKey, PendingPrefix, ProcessingPrefix, Put, Get, ToPb;
    var k, v := PendingKey(task), Marshalled(ToPb(task));
    FamiliesApart(task);
    forall d | d in dispatched ensures Get(Put(t, k, v), ProcessingKey(d)) == Some(Marshalled(ToPb(d))) {
      FamiliesApart(d);
      GetAfterPut(t, k, v, ProcessingKey(d));
    }
    PutSorted(t, k, v);
  }

  lemma SortedTable(t: Table)
    requires WellFormed(t)
    ensures Sorted(t)
  {
  }

  lemma FetchedId(task: FileTask)
    ensures Fetched(task).id == task.id
  {
  }

  lemma PollKeepsInv(q: Queue, limit: int)
    requires Inv(q) && q.batch == []
    ensures Inv(Apply(q, Poll(limit)))
    ensures Apply(q, Poll(limit)).batch == First(Pending(q.table), limit)
  {
    BatchIsFirstInOrder(q.table, limit);
    hide Less, Pending, WellFormed, Batch, ProcessingMatches, Balanced, First;
    BalancedPoll(Pending(q.table), q.enqueued, q.dispatched, limit);
  }

  lemma BalancedPoll(p: seq<FileTask>, e: seq<FileTask>, d: seq<FileTask>, limit: int)
    requires Balanced(p, [], e, d)
    ensures Balanced(p, First(p, limit), e, d)
  {
    if 0 < limit < |p| { assert p == p[..limit] + p[limit..]; }
  }

  /** Under the invariant a claim that commits always finds its task pending. */
  lemma ClaimKeepsInv(q: Queue, commits: bool)
    requires Inv(q) && q.batch != []
    ensures Inv(Apply(q, Claim(commits)))
    ensures commits ==> Apply(q, Claim(commits)).dispatched == q.dispatched + [q.batch[0]]
  {
    hide Less, Pending, WellFormed, PendingKey, ProcessingKey, Claimed, Get, Balanced, ProcessingMatches;
    var j := BatchIsPending(Pending(q.table), q.batch, q.enqueued, q.dispatched);
    BalancedClaim(Pending(q.table), q.batch, q.enqueued, q.dispatched, j);
    ClaimTakesOne(q.table, j);
    SortedTable(q.table);
    IdsOf(Pending(q.table), q.batch, q.enqueued, q.dispatched);
    ClaimedProcessing(q.table, q.enqueued, q.dispatched, q.batch[0]);
  }

  lemma IdsOf(p: seq<FileTask>, b: seq<FileTask>, e: seq<FileTask>, d: seq<FileTask>)
    requires Balanced(p, b, e, d)
    ensures DistinctIds(e)
  {
  }

  lemma ClaimedProcessing(t: Table, enqueued: seq<FileTask>, dispatched: seq<FileTask>, task: FileTask)
    requires Sorted(t) && ProcessingMatches(t, dispatched)
    requires DistinctIds(enqueued) && task in enqueued && task !in dispatched
    requires forall d :: d in dispatched ==> d in enqueued
    ensures ProcessingMatches(Claimed(t, task), dispatched + [task])
  {
    hide Less, PendingKey, ProcessingKey, PendingPrefix, ProcessingPrefix, Get, Put, Remove;
    FamiliesApart(task);
    var k, v := ProcessingKey(task), Marshalled(ToPb(task));
    var mid := Remove(t, PendingKey(task));
    RemoveSorted(t, PendingKey(task));
    PutSorted(mid, k, v);
    forall d | d in dispatched + [task] ensures Get(Put(mid, k, v), ProcessingKey(d)) == Some(Marshalled(ToPb(d))) {
      GetAfterPut(mid, k, v, ProcessingKey(d));
      if d != task { KeepsProcessing(t, enqueued, dispatched, task, d); }
    }
    forall e | e in Put(mid, k, v) && ProcessingPrefix() <= e.key
      ensures exists d :: d in dispatched + [task] && ProcessingKey(d) == e.key
    {
      if e.key == k { assert task in dispatched + [task]; }
      else {
        var d :| d in dispatched && ProcessingKey(d) == e.key;
        assert d in dispatched + [task];
      }
    }
  }

  lemma KeepsProcessing(t: Table, enqueued: seq<FileTask>, dispatched: seq<FileTask>, task: FileTask, d: FileTask)
    requires Sorted(t) && ProcessingMatches(t, dispatched)
    requires DistinctIds(enqueued) && task in enqueued && d in enqueued && d != task && d in dispatched
    ensures ProcessingKey(d) != ProcessingKey(task)
    ensures Get(Remove(t, PendingKey(task)), ProcessingKey(d)) == Some(Marshalled(ToPb(d)))
  {
    hide Less, PendingKey, PendingPrefix, Get, Put, Remove;
    FamiliesApart(d);
    FamiliesApart(task);
    var v := Marshalled(ToPb(d));
    RemoveSorted(t, PendingKey(task));
    GetIsMembership(t, ProcessingKey(d), v);
    GetIsMembership(Remove(t, PendingKey(task)), ProcessingKey(d), v);
    assert ProcessingKey(d)[|ProcessingPrefix()|..] == d.id && ProcessingKey(task)[|ProcessingPrefix()|..] == task.id;
    var i :| 0 <= i < |enqueued| && enqueued[i] == d;
    var j :| 0 <= j < |enqueued| && enqueued[j] == task;
  }

  /** In every run, whatever is enqueued meanwhile and whichever claims fail. */
  lemma {:induction false} EveryRunKeepsInv(q: Queue, steps: seq<Step>)
    requires Initial(q)
    ensures Inv(Exec(q, steps))
  {
    if steps == [] {
      InitialInv(q);
    } else {
      EveryRunKeepsInv(q, steps[..|steps| - 1]);
      var p, step := Exec(q, steps[..|steps| - 1]), steps[|steps| - 1];
      if Enabled(p, step) {
        match step
        case Enqueue(task) => EnqueueKeepsInv(p, task);
        case Poll(limit) => PollKeepsInv(p, limit);
        case Claim(commits) => ClaimKeepsInv(p, commits);
      }
    }
  }

  /** Each task is dispatched at most once, and is never pending and dispatched at a time:
    pending plus dispatched is exactly what was enqueued, and the processing entries are
    exactly the dispatched tasks. */
  lemma DispatchedAtMostOnce(q: Queue, steps: seq<Step>)
    requires Initial(q)
    ensures var r := Exec(q, steps);
            && DistinctIds(r.dispatched)
            && WellFormed(r.table)
            && (forall t, d :: t in Pending(r.table) && d in r.dispatched ==> t.id != d.id)
            && |r.enqueued| == |Pending(r.table)| + |r.dispatched|
            && (forall t :: t in r.enqueued <==> t in Pending(r.table) || t in r.dispatched)
            && ProcessingMatches(r.table, r.dispatched)
  {
    EveryRunKeepsInv(q, steps);
    var r := Exec(q, steps);
    BalancedMeaning(Pending(r.table), r.batch, r.enqueued, r.dispatched);
  }

  lemma BalancedMeaning(p: seq<FileTask>, b: seq<FileTask>, e: seq<FileTask>, d: seq<FileTask>)
    requires Balanced(p, b, e, d)
    ensures DistinctIds(d)
    ensures forall t, x :: t in p && x in d ==> t.id != x.id
    ensures |e| == |p| + |d|
    ensures forall t :: t in e <==> t in p || t in d
  {
    var all := p + d;
    assert multiset(all) == multiset(e);
    SameIds(e, all);
    assert forall i :: 0 <= i < |d| ==> all[|p| + i] == d[i];
    forall t, x | t in p && x in d ensures t.id != x.id {
      var i :| 0 <= i < |p| && p[i] == t;
      var j :| 0 <= j < |d| && d[j] == x;
      assert all[i] == t && all[|p| + j] == x;
    }
    assert |multiset(all)| == |all| && |multiset(e)| == |e|;
    forall t ensures t in e <==> t in p || t in d {
      assert t in e <==> t in multiset(e);
      assert t in all <==> t in multiset(all);
    }
  }

  /** Distinctness of identifiers does not depend on order. */
  lemma SameIds(a: seq<FileTask>, b: seq<FileTask>)
    requires multiset(a) == multiset(b) && DistinctIds(a)
    ensures DistinctIds(b)
  {
    forall i, j | 0 <= i < j < |b| ensures b[i].id != b[j].id {
      if b[i] == b[j] {
        TwiceCounted(b, i, j);
        TwiceInSeq(a, b[i]);
      } else {
        assert b[i] in multiset(b) && b[j] in multiset(b);
        assert b[i] in multiset(a) && b[j] in multiset(a);
        var m :| 0 <= m < |a| && a[m] == b[i];
        var n :| 0 <= n < |a| && a[n] == b[j];
      }
    }
  }

  lemma TwiceCounted(b: seq<FileTask>, i: nat, j: nat)
    requires i < j < |b| && b[i] == b[j]
    ensures multiset(b)[b[i]] >= 2
  {
    assert b == b[..j] + [b[j]] + b[j + 1..];
    assert b[i] in b[..j];
  }

  // ------------------------------------------------------------ the poller

  datatype Request = Request(driveID: string, fileID: string, path: string)

  function Requests(ts: seq<FileTask>): seq<Request> {
    seq(|ts|, i requires 0 <= i < |ts| => Request(ts[i].driveID, ts[i].id, ts[i].path))
  }

  /** The claims of one tick; `commits(i)` says whether the i-th transaction goes through. */
  function ClaimLoop(q: Queue, commits: nat -> bool, i: nat): (r: Queue)
    decreases |q.batch|
  {
    if q.batch == [] then q else ClaimLoop(Apply(q, Claim(commits(i))), commits, i + 1)
  }

  /** The queue one tick of the poller leaves. */
  function AfterTick(q: Queue, limit: int, commits: nat -> bool): Queue {
    ClaimLoop(Apply(q, Poll(limit)), commits, 0)
  }

  class FileTransferWorker {
    const repository: FileTaskRepository
    const pendingFileBatchSize: int
    var requestChan: seq<Request>

    constructor (repository: FileTaskRepository, size: int)
      ensures this.repository == repository && pendingFileBatchSize == size && requestChan == []
    {
      this.repository := repository;
      pendingFileBatchSize := size;
      requestChan := [];
    }

    /** One turn of the ticker loop. */
    method Tick(commits: nat -> bool)
      requires Sorted(repository.db)
      modifies this, repository
      ensures var q := AfterTick(Queue(old(repository.db), [], [], []), pendingFileBatchSize, commits);
              && repository.db == q.table && requestChan == old(requestChan) + Requests(q.dispatched)
              && |requestChan| == |old(requestChan)| + |q.dispatched|
              && (forall i :: 0 <= i < |old(requestChan)| ==> requestChan[i] == old(requestChan)[i])
              && (forall i :: 0 <= i < |q.dispatched| ==>
                    var task := q.dispatched[i];
                    requestChan[|old(requestChan)| + i] == Request(task.driveID, task.id, task.path))
    {
      hide Less, Batch, Claimed, Get, PendingKey;
      ghost var q := Queue(repository.db, [], [], []);
      ghost var end := AfterTick(q, pendingFileBatchSize, commits);
      var tasks := repository.GetNextBatch(pendingFileBatchSize);
      q := Apply(q, Poll(pendingFileBatchSize));
      if tasks.None? {
        return;
      }
      for i := 0 to |tasks.value|
        invariant q.table == repository.db && q.batch == tasks.value[i..]
        invariant ClaimLoop(q, commits, i) == end
        invariant requestChan == old(requestChan) + Requests(q.dispatched)
      {
        var task := tasks.value[i];
        q := Apply(q, Claim(commits(i)));
        var ok := repository.MarkAsProcessing(task, commits(i));
        if !ok {
          continue;
        }
        requestChan := requestChan + [Request(task.driveID, task.id, task.path)];
      }
    }
  }

  /** A tick is a run of the queue: one poll, then claims. */
  lemma TickIsRun(q: Queue, limit: int, commits: nat -> bool) returns (steps: seq<Step>)
    requires q.batch == []
    ensures AfterTick(q, limit, commits) == Exec(q, [Poll(limit)] + steps)
    ensures forall s :: s in steps ==> s.Claim?
  {
    assert [Poll(limit)][..0] == [];
    assert Exec(q, [Poll(limit)]) == Apply(q, Poll(limit));
    steps := ClaimsAreRun(q, [Poll(limit)], commits, 0);
  }

  lemma {:induction false} ClaimsAreRun(q: Queue, done: seq<Step>, commits: nat -> bool, i: nat) returns (steps: seq<Step>)
    ensures ClaimLoop(Exec(q, done), commits, i) == Exec(q, done + steps)
    ensures forall s :: s in steps ==> s.Claim?
    decreases |Exec(q, done).batch|
  {
    var p := Exec(q, done);
    if p.batch == [] {
      steps := [];
      assert done + steps == done;
    } else {
      var next := Claim(commits(i));
      assert (done + [next])[..|done|] == done;
      assert Exec(q, done + [next]) == Apply(p, next);
      var rest := ClaimsAreRun(q, done + [next], commits, i + 1);
      steps := [next] + rest;
      assert done + steps == done + [next] + rest;
    }
  }

  // ------------------------------------------------------------- draining

  /** A tick in which every claim commits takes the tasks of its batch, in order. */
  lemma {:induction false} ClaimsDrain(q: Queue, k: nat, i: nat)
    requires WellFormed(q.table) && k <= |Pending(q.table)| && q.batch == Pending(q.table)[..k]
    ensures var r, p := ClaimLoop(q, _ => true, i), Pending(q.table);
            && WellFormed(r.table) && Pending(r.table) == p[k..]
            && r.dispatched == q.dispatched + p[..k] && r.batch == []
    decreases k
  {
    hide Less, Claimed, WellFormed, Pending, Get, PendingKey;
    var p := Pending(q.table);
    if k > 0 {
      ClaimTakesOne(q.table, 0);
      HeadAndTail(p, k);
      ClaimsDrain(Apply(q, Claim(true)), k - 1, i + 1);
    } else {
      assert p[..0] == [] && q.dispatched + [] == q.dispatched && p[0..] == p;
    }
  }

  lemma HeadAndTail(p: seq<FileTask>, k: nat)
    requires 0 < k <= |p|
    ensures p[..0] + p[1..] == p[1..] && p[..k][0] == p[0] && p[..k][1..] == p[1..][..k - 1]
    ensures p[1..][k - 1..] == p[k..]
    ensures forall d: seq<FileTask> :: d + [p[0]] + p[1..][..k - 1] == d + p[..k]
  {
    assert [p[0]] + p[1..][..k - 1] == p[..k];
    forall d: seq<FileTask> ensures d + [p[0]] + p[1..][..k - 1] == d + p[..k] {
      assert d + [p[0]] + p[1..][..k - 1] == d + ([p[0]] + p[1..][..k - 1]);
    }
  }

  /** `n` ticks in which nothing is enqueued and every claim commits. */
  ghost function Ticks(q: Queue, limit: int, n: nat): Queue {
    if n == 0 then q else AfterTick(Ticks(q, limit, n - 1), limit, _ => true)
  }

  /** How many of `len` tasks are gone after `n` ticks. */
  function Drained(n: nat, limit: nat, len: nat): nat { Min(n * limit, len) }

  lemma DrainedStep(n: nat, limit: nat, len: nat)
    requires n > 0
    ensures var m := Drained(n - 1, limit, len);
            m <= len && Drained(n, limit, len) == m + Min(limit, len - m)
  {
    assert n * limit == (n - 1) * limit + limit;
  }

  lemma DrainedEnds(n: nat, limit: nat, len: nat)
    requires limit >= 1
    ensures Drained(0, limit, len) == 0 && Drained(n, limit, len) <= len
    ensures n >= len ==> Drained(n, limit, len) == len
  {
    assert n * limit >= n;
  }

  /** Ticks drain the queue in order of (Priority, CreatedAt, ID), `limit` tasks at a
    time, so as many ticks as there are tasks leave nothing pending. */
  lemma {:induction false} TicksDrainInOrder(q: Queue, limit: nat, n: nat)
    requires WellFormed(q.table) && q.batch == [] && limit >= 1
    ensures var r, p := Ticks(q, limit, n), Pending(q.table);
            var m := Drained(n, limit, |p|);
            && WellFormed(r.table) && r.batch == []
            && Pending(r.table) == p[m..] && r.dispatched == q.dispatched + p[..m] && InOrder(p)
            && (n >= |p| ==> m == |p| && Pending(r.table) == [])
  {
    hide Less, WellFormed, Pending, Before, Batch, Claimed, Get, PendingKey, ClaimLoop, Drained;
    var p := Pending(q.table);
    PendingInOrder(q.table);
    DrainedEnds(n, limit, |p|);
    if n > 0 {
      TicksDrainInOrder(q, limit, n - 1);
      var r := Ticks(q, limit, n - 1);
      DrainedStep(n, limit, |p|);
      var m := Drained(n - 1, limit, |p|);
      var k := Min(limit, |p| - m);
      BatchIsFirstInOrder(r.table, limit);
      FirstIsSlice(p[m..], limit);
      ClaimsDrain(Apply(r, Poll(limit)), k, 0);
      NextSlice(p, m, k);
    }
  }

  lemma FirstIsSlice(p: seq<FileTask>, limit: nat)
    ensures First(p, limit) == p[..Min(limit, |p|)]
  {
  }

  lemma NextSlice(p: seq<FileTask>, m: nat, k: nat)
    requires m + k <= |p|
    ensures p[..m] + p[m..][..k] == p[..m + k] && p[m..][k..] == p[m + k..]
  {
  }

  // ------------------------------------------------- from task to request

  /** The tasks a run enqueues, as they were given. */
  ghost function Given(q: Queue, steps: seq<Step>): seq<FileTask> {
    if steps == [] then []
    else
      var front, step := steps[..|steps| - 1], steps[|steps| - 1];
      Given(q, front) + if step.Enqueue? && Enabled(Exec(q, front), step) then [step.task] else []
  }

  /** Two tasks ask for the same transfer. */
  predicate SameTransfer(a: FileTask, b: FileTask) {
    a.driveID == b.driveID && a.id == b.id && a.path == b.path && a.rawMimeType == b.rawMimeType && a.size == b.size
  }

  lemma {:induction false} EnqueuedAreGiven(q: Queue, steps: seq<Step>)
    requires q.enqueued == []
    ensures |Exec(q, steps).enqueued| == |Given(q, steps)|
    ensures forall i :: 0 <= i < |Given(q, steps)| ==> SameTransfer(Exec(q, steps).enqueued[i], Given(q, steps)[i])
  {
    if steps != [] {
      hide Enabled, Batch, Claimed, PendingKey, Get, ToPb, Fetched;
      var n := |steps| - 1;
      EnqueuedAreGiven(q, steps[..n]);
      if steps[n].Enqueue? { StorageKeepsTask(steps[n].task); }
    }
  }

  /** In every run each dispatched task asks for the drive, the identifier and the path of a
    task as it was given to the queue, no two for the same one, and once nothing is
    pending every given task has been asked for. */
  lemma DispatchedAsGiven(q: Queue, steps: seq<Step>)
    requires Initial(q)
    ensures var r, given := Exec(q, steps), Given(q, steps);
            && (forall d :: d in r.dispatched ==> exists g :: g in given && SameTransfer(d, g))
            && DistinctIds(r.dispatched) && WellFormed(r.table)
            && (Pending(r.table) == [] ==> forall g :: g in given ==> exists d :: d in r.dispatched && SameTransfer(d, g))
  {
    hide Exec, Given, Pending, WellFormed, ProcessingMatches, SameTransfer;
    EnqueuedAreGiven(q, steps);
    DispatchedAtMostOnce(q, steps);
    var r, given := Exec(q, steps), Given(q, steps);
    forall d | d in r.dispatched ensures exists g :: g in given && SameTransfer(d, g) {
      assert d in r.enqueued;
      var i :| 0 <= i < |r.enqueued| && r.enqueued[i] == d;
      assert given[i] in given;
    }
    if Pending(r.table) == [] {
      forall g | g in given ensures exists d :: d in r.dispatched && SameTransfer(d, g) {
        var i :| 0 <= i < |given| && given[i] == g;
        assert r.enqueued[i] in r.enqueued;
      }
    }
  }

  /** One task, end to end: enqueued under a new key and reached by a tick that commits, it is
    among the tasks that `Tick` requests, with its drive, identifier and path as given. */
  lemma TaskIsRequestedAsGiven(table: Table, t: FileTask, limit: int)
    requires WellFormed(table) && InWindow(t) && PendingKey(t) !in Keys(table) && limit > |Pending(table)|
    ensures var u := Put(table, PendingKey(t), Marshalled(ToPb(t)));
            var q := AfterTick(Queue(u, [], [], []), limit, _ => true);
            && |q.dispatched| == |Pending(table)| + 1 && WellFormed(q.table) && Pending(q.table) == []
            && exists i :: 0 <= i < |q.dispatched| && AsksFor(q.dispatched[i], t)
  {
    hide Less, WellFormed, Pending, Before, Batch, Claimed, Get, PendingKey, ClaimLoop, Fetched, ToPb, Keys, Put;
    var u := Put(table, PendingKey(t), Marshalled(ToPb(t)));
    var j := EnqueueAddsOne(table, t);
    var p := Pending(u);
    assert p[j] == Fetched(t) && |p| == |Pending(table)| + 1;
    StorageKeepsTask(t);
    BatchIsFirstInOrder(u, limit);
    FirstIsSlice(p, limit);
    ClaimsDrain(Apply(Queue(u, [], [], []), Poll(limit)), |p|, 0);
    assert p[..|p|] == p && [] + p == p;
    assert AsksFor(p[j], t);
  }

  predicate AsksFor(d: FileTask, t: FileTask) { Request(d.driveID, d.id, d.path) == Request(t.driveID, t.id, t.path) }
}
