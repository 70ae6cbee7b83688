/** The persistent queue of file transfers: tasks are enqueued under ordered keys,
  polled in batches, claimed and dispatched. */
module Tasks {
  import opened Text
  import opened Badger
  import opened Mime

  const HIGH := 0
  const NORMAL := 1

  datatype FileTask = FileTask(
    id: string, driveID: string, path: string, rawMimeType: string, effectiveMimeType: string,
    size: nat, priority: int, createdAt: Nanos, retryCount: int)

  datatype PbFileTask = PbFileTask(
    id: string, driveID: string, path: string, rawMimeType: string, effectiveMimeType: string,
    size: nat, prior: int, createdAt: Nanos, retryCount: int)

  /** Stored bytes: a marshalled task, or bytes some other repository wrote. */
  datatype Value = Marshalled(pb: PbFileTask) | Foreign

  type Table = seq<Entry<Value>>

  function ToPbPriority(p: int): int { if p == HIGH then HIGH else NORMAL }

  function ToPb(t: FileTask): PbFileTask {
    PbFileTask(t.id, t.driveID, t.path, t.rawMimeType, t.effectiveMimeType,
               t.size, ToPbPriority(t.priority), t.createdAt, Int32(t.retryCount))
  }

  function FromPb(p: PbFileTask): FileTask {
    FileTask(p.id, p.driveID, p.path, p.rawMimeType, ToMIME(p.effectiveMimeType),
             p.size, p.prior, p.createdAt, p.retryCount)
  }

  /** A task as the poller sees it after it went through storage. */
  function Fetched(t: FileTask): FileTask { FromPb(ToPb(t)) }

  /** Storage keeps a task field by field, except that an undefined priority becomes NORMAL,
    an unlisted MIME type unknown, and the retry count is cut to 32 bits. */
  lemma StorageKeepsTask(t: FileTask)
    ensures Fetched(t) == FileTask(
              t.id, t.driveID, t.path, t.rawMimeType, ToMIME(t.effectiveMimeType), t.size,
              if t.priority == 0 then 0 else 1, t.createdAt, Int32(t.retryCount))
  {
  }

  function PendingPrefix(): string { "work:pending:" }

  function ProcessingPrefix(): string { "work:processing:" }

  function KeyTail(t: FileTask): string { Format(t.priority) + ":" + Format(t.createdAt) + ":" + t.id }

  function PendingKey(t: FileTask): string { PendingPrefix() + KeyTail(t) }

  function ProcessingKey(t: FileTask): string { ProcessingPrefix() + t.id }

  // ------------------------------------------------------------- operations

  function Decode(e: Entry<Value>): Option<FileTask> {
    match e.value
    case Marshalled(pb) => Some(FromPb(pb))
    case Foreign => None
  }

  function First<T>(s: seq<T>, limit: int): seq<T> {
    if limit <= 0 then [] else if limit < |s| then s[..limit] else s
  }

  /** What `GetNextBatch` answers; `None` stands for an error. */
  function Batch(t: Table, limit: int): Option<seq<FileTask>> {
    DecodeAll(First(Under(t, PendingPrefix()), limit), Decode)
  }

  /** One transaction: the pending entry goes, the processing entry comes. */
  function Claimed(t: Table, task: FileTask): Table {
    Put(Remove(t, PendingKey(task)), ProcessingKey(task), Marshalled(ToPb(task)))
  }

  class FileTaskRepository {
    var db: Table

    constructor ()
      ensures db == []
    {
      db := [];
    }

    method EnqueueTask(task: FileTask)
      modifies this
      ensures db == Put(old(db), PendingKey(task), Marshalled(ToPb(task)))
    {
      var key := "work:pending:" + (Format(task.priority) + ":" + Format(task.createdAt) + ":" + task.id);
      db := Put(db, key, Marshalled(ToPb(task)));
    }

    method GetNextBatch(limit: int) returns (r: Option<seq<FileTask>>)
      requires Sorted(db)
      ensures r == Batch(db, limit)
    {
      r := Collect(db, PendingPrefix(), limit);
    }

    /** The read transaction of `GetNextBatch`. */
    method Collect(txn: Table, prefix: string, limit: int) returns (r: Option<seq<FileTask>>)
      requires Sorted(txn)
      ensures r == DecodeAll(First(Under(txn, prefix), limit), Decode)
    {
      hide Less, Rank, Under, Decode, DecodeAll, First, Sorted;
      var it := Rank(txn, prefix);
      var tasks: seq<FileTask> := [];
      ghost var all := Under(txn, prefix);
      FamilyStart(txn, prefix);
      DecodeNothing(all, Decode);
      while it < |txn| && prefix <= txn[it].key && |tasks| < limit
        invariant Rank(txn, prefix) <= it <= |txn|
        invariant |tasks| <= |all| && all[|tasks|..] == Under(txn[it..], prefix)
        invariant DecodeAll(all[..|tasks|], Decode) == Some(tasks)
        invariant tasks == [] || |tasks| <= limit
      {
        BatchStep(txn, prefix, it, all, |tasks|);
        NextTask(all, tasks, limit);
        var task := Decode(txn[it]);
        if task.None? {
          return None;
        }
        tasks := tasks + [task.value];
        it := it + 1;
      }
      BatchStep(txn, prefix, it, all, |tasks|);
      FirstIs(all, |tasks|, limit);
      r := Some(tasks);
    }

    /** `commits` says whether the database lets the transaction through. */
    method MarkAsProcessing(task: FileTask, commits: bool) returns (ok: bool)
      modifies this
      ensures ok <==> commits && Get(old(db), PendingKey(task)).Some?
      ensures db == if ok then Claimed(old(db), task) else old(db)
    {
      var pendingKey, processingKey := PendingKey(task), ProcessingKey(task);
      if Get(db, pendingKey).None? || !commits {
        return false;
      }
      db := Put(Remove(db, pendingKey), processingKey, Marshalled(ToPb(task)));
      return true;
    }
  }

  /** One turn of the collecting loop, `n` tasks in. */
  lemma BatchStep(t: Table, prefix: string, it: nat, all: seq<Entry<Value>>, n: nat)
    requires Sorted(t) && Rank(t, prefix) <= it <= |t| && n <= |all| && all[n..] == Under(t[it..], prefix)
    ensures it < |t| && prefix <= t[it].key ==>
      n < |all| && all[n] == t[it] && all[n + 1..] == Under(t[it + 1..], prefix)
    ensures it == |t| || !(prefix <= t[it].key) ==> n == |all|
  {
    hide Less, Rank, Under;
    FamilyNext(t, prefix, it);
    if it < |t| && prefix <= t[it].key {
      assert all[n..][0] == t[it];
      assert all[n + 1..] == all[n..][1..];
    }
  }

  lemma FirstIs(all: seq<Entry<Value>>, n: nat, limit: int)
    requires n <= |all| && (n == 0 || n <= limit) && (n == |all| || n >= limit)
    ensures First(all, limit) == all[..n]
  {
  }

  /** The next entry either decodes and extends the batch or makes it an error. */
  lemma NextTask(all: seq<Entry<Value>>, tasks: seq<FileTask>, limit: int)
    requires |tasks| < |all| && |tasks| < limit && DecodeAll(all[..|tasks|], Decode) == Some(tasks)
    ensures match Decode(all[|tasks|])
            case None => DecodeAll(First(all, limit), Decode).None?
            case Some(task) => DecodeAll(all[..|tasks| + 1], Decode) == Some(tasks + [task])
  {
    hide Decode, DecodeAll, First;
    DecodeStep(all, |tasks|, Decode);
    if Decode(all[|tasks|]).None? { DecodeFails(all, |tasks|, limit); }
  }

  lemma DecodeFails(all: seq<Entry<Value>>, n: nat, limit: int)
    requires n < |all| && n < limit && Decode(all[n]).None?
    ensures DecodeAll(First(all, limit), Decode).None?
  {
    assert First(all, limit)[n] == all[n];
    DecodeAllMeaning(First(all, limit), Decode);
  }

  // ---------------------------------------------------------- key meaning

  /** Priorities the code defines, and creation times of nineteen digits (2001 to 2262). */
  predicate InWindow(t: FileTask) {
    (t.priority == HIGH || t.priority == NORMAL) && t.createdAt >= 1_000_000_000_000_000_000
  }

  predicate Before(a: FileTask, b: FileTask) {
    || a.priority < b.priority
    || (a.priority == b.priority && a.createdAt < b.createdAt)
    || (a.priority == b.priority && a.createdAt == b.createdAt && Less(a.id, b.id))
  }

  /** The poller rebuilds the key a task was enqueued under exactly when its
    priority is one the code defines. */
  lemma FetchedKeyIsEnqueuedKey(t: FileTask)
    ensures PendingKey(Fetched(t)) == PendingKey(t) <==> t.priority == HIGH || t.priority == NORMAL
    ensures Fetched(Fetched(t)) == Fetched(t)
  {
    var f := Fetched(t);
    FormatIsField(t.priority, f.priority);
    FormatIsField(f.priority, t.priority);
    var rest := Format(t.createdAt) + ":" + t.id;
    assert KeyTail(t) == Format(t.priority) + ":" + rest && KeyTail(f) == Format(f.priority) + ":" + rest;
    if PendingKey(f) == PendingKey(t) {
      assert KeyTail(f) == PendingKey(f)[|PendingPrefix()|..] == PendingKey(t)[|PendingPrefix()|..] == KeyTail(t);
      SplitAtColon(Format(t.priority), rest, Format(f.priority), rest);
    }
  }

  lemma FieldWidths(t: FileTask)
    requires InWindow(t)
    ensures Format(t.priority) == (if t.priority == HIGH then "0" else "1")
    ensures AllDigits(Format(t.createdAt)) && |Format(t.createdAt)| == 19 && NumberOf(Format(t.createdAt)) == t.createdAt
  {
    Pow10Of19();
    DecimalWidth(t.createdAt, 19);
    DecimalWidth(t.createdAt, 18);
  }

  /** Key order is the order of (Priority, CreatedAt, ID), and a key names one triple. */
  lemma KeyOrder(a: FileTask, b: FileTask)
    requires InWindow(a) && InWindow(b)
    ensures Less(PendingKey(a), PendingKey(b)) <==> Before(a, b)
    ensures PendingKey(a) == PendingKey(b) <==> a.priority == b.priority && a.createdAt == b.createdAt && a.id == b.id
  {
    FieldWidths(a);
    FieldWidths(b);
    var pa, pb := Format(a.priority), Format(b.priority);
    var ta, tb := Format(a.createdAt), Format(b.createdAt);
    LessByField(PendingPrefix(), KeyTail(a), PendingPrefix(), KeyTail(b));
    LessIsStrict(PendingPrefix(), PendingPrefix());
    TailOrder(pa, ta, a.id, pb, tb, b.id);
    ValueOrder(ta, tb);
    assert KeyTail(a) == PendingKey(a)[|PendingPrefix()|..] && KeyTail(b) == PendingKey(b)[|PendingPrefix()|..];
    assert Less("0", "1") && !Less("1", "0") && !Less("0", "0") && !Less("1", "1");
  }

  lemma TailOrder(p: string, t: string, i: string, q: string, u: string, j: string)
    requires |p| == |q| && |t| == |u|
    ensures Less(p + ":" + t + ":" + i, q + ":" + u + ":" + j)
        <==> Less(p, q) || (p == q && (Less(t, u) || (t == u && Less(i, j))))
    ensures p + ":" + t + ":" + i == q + ":" + u + ":" + j <==> p == q && t == u && i == j
  {
    var x, y := p + ":" + t + ":" + i, q + ":" + u + ":" + j;
    assert x == p + (":" + (t + (":" + i))) && y == q + (":" + (u + (":" + j)));
    LessByField(p, ":" + (t + (":" + i)), q, ":" + (u + (":" + j)));
    LessByField(":", t + (":" + i), ":", u + (":" + j));
    LessByField(t, ":" + i, u, ":" + j);
    LessByField(":", i, ":", j);
    LessIsStrict(":", ":");
    if x == y {
      assert x[..|p|] == p && y[..|q|] == q;
      assert x[|p| + 1..][..|t|] == t && y[|q| + 1..][..|u|] == u;
      assert x[|p| + 1 + |t| + 1..] == i && y[|q| + 1 + |u| + 1..] == j;
    }
  }

  // -------------------------------------------------------------- the queue

  /** Every pending entry holds a task of the window, under that task's own key. */
  ghost predicate WellFormed(t: Table) {
    Sorted(t) && forall e :: e in t && PendingPrefix() <= e.key ==> HoldsTask(e)
  }

  predicate HoldsTask(e: Entry<Value>) {
    && e.value.Marshalled?
    && InWindow(FromPb(e.value.pb))
    && e.key == PendingKey(FromPb(e.value.pb))
    && Fetched(FromPb(e.value.pb)) == FromPb(e.value.pb)
  }

  function TasksOf(es: seq<Entry<Value>>): seq<FileTask>
    requires forall i :: 0 <= i < |es| ==> HoldsTask(es[i])
  {
    seq(|es|, i requires 0 <= i < |es| && HoldsTask(es[i]) => FromPb(es[i].value.pb))
  }

  /** The pending tasks, in key order. */
  ghost function Pending(t: Table): seq<FileTask>
    requires WellFormed(t)
  {
    var u := Under(t, PendingPrefix());
    assert forall i :: 0 <= i < |u| ==> u[i] in u;
    TasksOf(u)
  }

  ghost predicate InOrder(ts: seq<FileTask>) {
    forall i, j :: 0 <= i < j < |ts| ==> Before(ts[i], ts[j])
  }

  /** The pending list holds exactly the stored pending tasks, ordered by (Priority, CreatedAt, ID). */
  lemma PendingInOrder(t: Table)
    requires WellFormed(t)
    ensures InOrder(Pending(t))
    ensures forall e :: e in t && PendingPrefix() <= e.key ==> FromPb(e.value.pb) in Pending(t)
    ensures forall task :: task in Pending(t) ==> InWindow(task) && PendingKey(task) in Keys(t)
  {
    hide Less, PendingPrefix, PendingKey, InWindow, Before, Under, FromPb, Fetched;
    var u, p := Under(t, PendingPrefix()), Pending(t);
    UnderSorted(t, PendingPrefix());
    forall i | 0 <= i < |p| ensures p[i] == FromPb(u[i].value.pb) && HoldsTask(u[i]) && u[i] in t {
      assert u[i] in u;
    }
    forall i, j | 0 <= i < j < |p| ensures Before(p[i], p[j]) {
      KeyOrder(p[i], p[j]);
    }
    forall e | e in t && PendingPrefix() <= e.key ensures FromPb(e.value.pb) in p {
      var i :| 0 <= i < |u| && u[i] == e;
    }
  }

  /** A batch is the first pending tasks in that order, and never an error. */
  lemma BatchIsFirstInOrder(t: Table, limit: int)
    requires WellFormed(t)
    ensures Batch(t, limit) == Some(First(Pending(t), limit)) && InOrder(Pending(t))
  {
    PendingInOrder(t);
    var u := Under(t, PendingPrefix());
    assert forall i :: 0 <= i < |u| ==> u[i] in u;
    DecodeFirst(u, limit);
  }

  lemma DecodeFirst(u: seq<Entry<Value>>, limit: int)
    requires forall i :: 0 <= i < |u| ==> HoldsTask(u[i])
    ensures DecodeAll(First(u, limit), Decode) == Some(First(TasksOf(u), limit))
  {
    hide PendingKey, InWindow, FromPb, Fetched, DecodeAll;
    var b, p := First(u, limit), TasksOf(u);
    DecodeAllMeaning(b, Decode);
    assert forall i :: 0 <= i < |b| ==> b[i] == u[i] && Decode(b[i]) == Some(p[i]);
    assert DecodeAll(b, Decode).value == First(p, limit);
  }

  /** Pending and processing keys never coincide. */
  lemma FamiliesApart(task: FileTask)
    ensures PendingPrefix() <= PendingKey(task) && !(PendingPrefix() <= ProcessingKey(task))
    ensures ProcessingPrefix() <= ProcessingKey(task) && !(ProcessingPrefix() <= PendingKey(task))
  {
    assert PendingKey(task)[6] == 'e' && ProcessingKey(task)[6] == 'r';
    assert PendingPrefix()[6] == 'e' && ProcessingPrefix()[6] == 'r';
  }

  /** Claiming the j-th pending task succeeds and takes exactly that task out. */
  lemma ClaimTakesOne(t: Table, j: nat)
    requires WellFormed(t) && j < |Pending(t)|
    ensures var p := Pending(t);
            && Get(t, PendingKey(p[j])).Some?
            && WellFormed(Claimed(t, p[j]))
            && Pending(Claimed(t, p[j])) == p[..j] + p[j + 1..]
  {
    hide Less, PendingPrefix, ProcessingPrefix, PendingKey, ProcessingKey, InWindow, ToPb, FromPb, Fetched, Under, Rank, Put, Remove;
    var u, task := Under(t, PendingPrefix()), Pending(t)[j];
    var k, q := PendingKey(task), ProcessingKey(task);
    assert u[j] in u && u[j].key == k;
    GetIsMembership(t, k, u[j].value);
    FamiliesApart(task);
    var mid := Remove(t, k);
    RemoveSorted(t, k);
    UnderRemove(t, PendingPrefix(), j);
    var done := Claimed(t, task);
    PutSorted(mid, q, Marshalled(ToPb(task)));
    UnderPutOutside(mid, q, Marshalled(ToPb(task)), PendingPrefix());
    assert WellFormed(done);
    assert TasksOf(u[..j] + u[j + 1..]) == Pending(t)[..j] + Pending(t)[j + 1..];
  }

  /** Enqueuing a task under a new key adds exactly that task. */
  lemma EnqueueAddsOne(t: Table, task: FileTask) returns (j: nat)
    requires WellFormed(t) && InWindow(task) && PendingKey(task) !in Keys(t)
    ensures var u := Put(t, PendingKey(task), Marshalled(ToPb(task)));
            && WellFormed(u)
            && j <= |Pending(t)|
            && Pending(u) == Pending(t)[..j] + [Fetched(task)] + Pending(t)[j..]
  {
    var k, v := PendingKey(task), Marshalled(ToPb(task));
    var x := Entry(k, v);
    FetchedKeyIsEnqueuedKey(task);
    FamiliesApart(task);
    assert HoldsTask(x);
    assert FromPb(x.value.pb) == Fetched(task);
    j := PutTask(t, x);
  }

  lemma PutTask(t: Table, x: Entry<Value>) returns (j: nat)
    requires WellFormed(t) && HoldsTask(x) && PendingPrefix() <= x.key && x.key !in Keys(t)
    ensures var u := Put(t, x.key, x.value);
            && WellFormed(u)
            && j <= |Pending(t)|
            && Pending(u) == Pending(t)[..j] + [FromPb(x.value.pb)] + Pending(t)[j..]
  {
    hide Less, PendingPrefix, PendingKey, Under, Rank, Put, FromPb, Fetched, InWindow;
    PutSorted(t, x.key, x.value);
    j := UnderPutNew(t, x.key, x.value, PendingPrefix());
    var u := Under(t, PendingPrefix());
    assert WellFormed(Put(t, x.key, x.value));
    assert forall i :: 0 <= i < |u| ==> u[i] in u;
    assert TasksOf(u[..j] + [x] + u[j..]) == Pending(t)[..j] + [FromPb(x.value.pb)] + Pending(t)[j..];
  }
}
