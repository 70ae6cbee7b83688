/** Scans and lookups compared: a scan lists every main entry of its namespace, a lookup
  only the entity's last record. When do they agree? */
module LatestScan {
  import opened Text
  import opened Badger
  import opened Paging
  import opened Analyses
  import opened AnalysisScan
  import opened RoomScan

  /** An entry of the namespace that is not its entity's last record. */
  ghost predicate Outdated(t: Table, last: map<Uuid, Analysis>, namespace: string, a: Analysis) {
    && Holds(t, a) && a.namespace == namespace
    && !(a.entityId in last && MainKey(last[a.entityId]) == MainKey(a))
  }

  ghost predicate HasOutdated(t: Table, last: map<Uuid, Analysis>, namespace: string) {
    exists a: Analysis :: Outdated(t, last, namespace, a)
  }

  /** `a` is what a lookup in the namespace answers for its entity. */
  ghost predicate IsLatest(last: map<Uuid, Analysis>, namespace: string, a: Analysis) {
    a.entityId in last && last[a.entityId].namespace == namespace && a == Normalised(last[a.entityId])
  }

  ghost predicate ExactlyLatest(rs: seq<Analysis>, last: map<Uuid, Analysis>, namespace: string) {
    forall a: Analysis :: a in rs <==> IsLatest(last, namespace, a)
  }

  lemma SameKeyNormalised(a: Analysis)
    ensures MainKey(Normalised(a)) == MainKey(a) && Normalised(a).namespace == a.namespace
    ensures Normalised(a).entityId == a.entityId
  {
  }

  /** The last record of every entity is held. */
  lemma LatestIsHeld(s: Stores, last: map<Uuid, Analysis>, id: Uuid)
    requires Agrees(s, last) && id in last
    ensures last[id].entityId == id && Holds(s.db, Normalised(last[id]))
  {
    assert Represents(s, id, last[id]);
    StorageRoundTrip(last[id]);
    SameKeyNormalised(last[id]);
    hide MainKey, FromAnalysis, ToAnalysis, Get, Normalised;
  }

  /** Under one key a table holds one record. */
  lemma HeldIsUnique(t: Table, a: Analysis, b: Analysis)
    requires Holds(t, a) && Holds(t, b) && MainKey(a) == MainKey(b)
    ensures a == b
  {
    hide MainKey, Get, Decode;
  }

  /** What is held in the namespace is outdated or the latest. */
  lemma HeldIsLatest(s: Stores, last: map<Uuid, Analysis>, namespace: string, a: Analysis)
    requires Agrees(s, last) && Holds(s.db, a) && a.namespace == namespace
    ensures IsLatest(last, namespace, a) <==> !Outdated(s.db, last, namespace, a)
  {
    hide Agrees, Holds, MainKey, Normalised;
    if a.entityId in last {
      var b := last[a.entityId];
      LatestIsHeld(s, last, a.entityId);
      SameKeyNormalised(b);
      if MainKey(b) == MainKey(a) { HeldIsUnique(s.db, a, Normalised(b)); }
    }
  }

  /** A completed scan of a table that does not change answers what the table holds within
    its reach. */
  lemma ScanAnswersHeld(ts: seq<Table>, t: Table, namespace: string, limit: Option<int>, a: Analysis)
    requires ts != [] && WellFormed(t) && (forall i :: 0 <= i < |ts| ==> ts[i] == t) && Budget(limit) != Some(0)
    requires Completed(ts, RoomPrefix(namespace), None, Budget(limit))
    ensures var rs := ScanRecords(ts, RoomPrefix(namespace), None, Budget(limit));
            && (a in rs ==> Holds(t, a))
            && (a.namespace == namespace ==> (a in rs <==> Holds(t, a)))
  {
    hide MainKey, RoomPrefix, Completed, ScanRecords, WellFormed, Holds, Growing;
    StaticIsGrowing(ts, t);
    assert Holds(t, a) ==> HeldThroughout(ts, a);
    var rs := ScanRecords(ts, RoomPrefix(namespace), None, Budget(limit));
    if a in rs { AnsweredIsHeld(ts, namespace, limit, a); }
    if a.namespace == namespace && Holds(t, a) { SteadyIsAnswered(ts, namespace, limit, a); }
  }

  lemma AnsweredIsHeld(ts: seq<Table>, namespace: string, limit: Option<int>, a: Analysis)
    requires ts != [] && Growing(ts) && a in ScanRecords(ts, RoomPrefix(namespace), None, Budget(limit))
    ensures exists i :: 0 <= i < |ts| && Holds(ts[i], a)
  {
    hide MainKey, RoomPrefix, ScanAll, ScanRecords, WellFormed, Holds, Growing;
    RecordsMatchKeys(ts, namespace, None, Budget(limit));
    var rs := ScanRecords(ts, RoomPrefix(namespace), None, Budget(limit));
    var i :| 0 <= i < |rs| && rs[i] == a;
    assert Answers(ts, rs[i], Flatten(ScanAll(ts, RoomPrefix(namespace), None, Budget(limit)))[i]);
  }

  /** A completed scan of a table that does not change answers exactly the last records of
    the namespace if and only if nothing intrudes and nothing is outdated. */
  lemma ScanIsLatest(ts: seq<Table>, s: Stores, last: map<Uuid, Analysis>, namespace: string, limit: Option<int>)
    requires ts != [] && Agrees(s, last) && WellFormed(s.db) && (forall i :: 0 <= i < |ts| ==> ts[i] == s.db)
    requires Budget(limit) != Some(0) && Completed(ts, RoomPrefix(namespace), None, Budget(limit))
    ensures ExactlyLatest(ScanRecords(ts, RoomPrefix(namespace), None, Budget(limit)), last, namespace)
        <==> !Intruded(s.db, namespace) && !HasOutdated(s.db, last, namespace)
  {
    hide RoomPrefix, Completed, ScanRecords, WellFormed, Agrees, Intruded, Normalised, Holds, MainKey, OnlyOf;
    var rs := ScanRecords(ts, RoomPrefix(namespace), None, Budget(limit));
    ScanIsolation(ts, s.db, namespace, limit);
    if OnlyOf(rs, namespace) && !HasOutdated(s.db, last, namespace) {
      forall a: Analysis ensures a in rs <==> IsLatest(last, namespace, a) {
        CleanScan(ts, s, last, namespace, limit, a);
      }
    }
    if ExactlyLatest(rs, last, namespace) {
      LatestIsOwn(rs, last, namespace);
      forall a: Analysis ensures !Outdated(s.db, last, namespace, a) {
        if Outdated(s.db, last, namespace, a) {
          ScanAnswersHeld(ts, s.db, namespace, limit, a);
          HeldIsLatest(s, last, namespace, a);
        }
      }
    }
  }

  lemma LatestIsOwn(rs: seq<Analysis>, last: map<Uuid, Analysis>, namespace: string)
    requires ExactlyLatest(rs, last, namespace)
    ensures OnlyOf(rs, namespace)
  {
    forall i | 0 <= i < |rs| ensures rs[i].namespace == namespace {
      assert rs[i] in rs;
    }
  }

  lemma CleanScan(ts: seq<Table>, s: Stores, last: map<Uuid, Analysis>, namespace: string, limit: Option<int>, a: Analysis)
    requires ts != [] && Agrees(s, last) && WellFormed(s.db) && (forall i :: 0 <= i < |ts| ==> ts[i] == s.db)
    requires Budget(limit) != Some(0) && Completed(ts, RoomPrefix(namespace), None, Budget(limit))
    requires OnlyOf(ScanRecords(ts, RoomPrefix(namespace), None, Budget(limit)), namespace)
    requires !Outdated(s.db, last, namespace, a)
    ensures a in ScanRecords(ts, RoomPrefix(namespace), None, Budget(limit)) <==> IsLatest(last, namespace, a)
  {
    hide RoomPrefix, Completed, ScanRecords, WellFormed, Agrees, Normalised, Holds, MainKey, Outdated;
    ScanAnswersHeld(ts, s.db, namespace, limit, a);
    if IsLatest(last, namespace, a) {
      LatestIsHeld(s, last, a.entityId);
      SameKeyNormalised(last[a.entityId]);
    }
    if Holds(s.db, a) && a.namespace == namespace { HeldIsLatest(s, last, namespace, a); }
  }

  // ------------------------------------------------------------------ runs

  /** All records a run stores, in order. */
  function Written(ops: seq<Op>): seq<Analysis> {
    if ops == [] then []
    else
      Written(ops[..|ops| - 1])
      + match ops[|ops| - 1]
        case Store(a) => [a]
        case StoreBatch(batch) => batch
  }

  /** The main entries are those of the records written. */
  ghost predicate EntriesAre(t: Table, written: seq<Analysis>) {
    && Sorted(t)
    && (forall i :: 0 <= i < |written| ==> MainKey(written[i]) in Keys(t))
    && (forall k :: k in Keys(t) && "analysis:" <= k ==> exists i :: 0 <= i < |written| && MainKey(written[i]) == k)
  }

  lemma PutBothKeys(t: Table, a: Analysis)
    requires Sorted(t)
    ensures Sorted(PutBoth(t, a)) && Keys(PutBoth(t, a)) == Keys(t) + {MainKey(a)} + {IndexKey(a.entityId)}
    ensures !("analysis:" <= IndexKey(a.entityId))
  {
    var k, v := MainKey(a), Record(FromAnalysis(a));
    assert IndexKey(a.entityId)[0] == 'i' && "analysis:"[0] == 'a';
    hide MainKey, IndexKey, FromAnalysis, Put, Less, Keys;
    PutSorted(t, k, v);
    PutSorted(Put(t, k, v), IndexKey(a.entityId), Pointer(k));
  }

  lemma StoreAddsEntry(t: Table, written: seq<Analysis>, a: Analysis)
    requires EntriesAre(t, written)
    ensures EntriesAre(PutBoth(t, a), written + [a])
  {
    hide MainKey, IndexKey, PutBoth, Keys, Less, Sorted;
    PutBothKeys(t, a);
    var u, more := PutBoth(t, a), written + [a];
    forall k | k in Keys(u) && "analysis:" <= k ensures exists i :: 0 <= i < |more| && MainKey(more[i]) == k {
      if k == MainKey(a) {
        assert more[|written|] == a;
      } else {
        var i :| 0 <= i < |written| && MainKey(written[i]) == k;
        assert more[i] == written[i];
      }
    }
  }

  lemma {:induction false} BatchAddsEntries(t: Table, written: seq<Analysis>, batch: seq<Analysis>)
    requires EntriesAre(t, written)
    ensures EntriesAre(PutAll(t, batch), written + batch)
  {
    hide EntriesAre, PutBoth;
    if batch == [] {
      assert written + batch == written;
    } else {
      var n := |batch| - 1;
      BatchAddsEntries(t, written, batch[..n]);
      StoreAddsEntry(PutAll(t, batch[..n]), written + batch[..n], batch[n]);
      assert written + batch[..n] + [batch[n]] == written + batch;
    }
  }

  lemma {:induction false} RunEntries(ops: seq<Op>)
    ensures EntriesAre(Exec(Stores([], map[]), ops).db, Written(ops))
  {
    if ops != [] {
      hide EntriesAre, PutBoth, PutAll, IndexBatch;
      var n := |ops| - 1;
      RunEntries(ops[..n]);
      var t := Exec(Stores([], map[]), ops[..n]).db;
      match ops[n]
      case Store(a) => StoreAddsEntry(t, Written(ops[..n]), a);
      case StoreBatch(batch) => BatchAddsEntries(t, Written(ops[..n]), batch);
    } else {
      NoEntries();
    }
  }

  lemma NoEntries()
    ensures EntriesAre([], [])
  {
  }

  /** From 1970 on a key determines namespace, time and entity. */
  lemma KeyNamesPlace(a: Analysis, b: Analysis)
    requires a.at >= 0 && b.at >= 0
    ensures MainKey(a) == MainKey(b) <==> a.namespace == b.namespace && a.at == b.at && a.entityId == b.entityId
  {
    if MainKey(a) == MainKey(b) {
      StampsAgree(a, b);
      SameNamespace(a, b);
      KeyOrder(a, b);
      KeyOrder(b, a);
      LessIsStrict(MainKey(a), MainKey(a));
      LessTotal(a.entityId, b.entityId);
    }
  }

  lemma StampsAgree(a: Analysis, b: Analysis)
    requires a.at >= 0 && b.at >= 0
    ensures |Stamp(a.at, a.entityId)| == |Stamp(b.at, b.entityId)|
  {
    TimestampWidth(a.at);
    TimestampWidth(b.at);
  }

  lemma SameNamespace(a: Analysis, b: Analysis)
    requires MainKey(a) == MainKey(b) && |Stamp(a.at, a.entityId)| == |Stamp(b.at, b.entityId)|
    ensures a.namespace == b.namespace
  {
    hide Stamp;
    var k, n := MainKey(a), |Stamp(a.at, a.entityId)|;
    assert k[9..|k| - n - 1] == a.namespace && MainKey(b)[9..|k| - n - 1] == b.namespace;
  }

  /** Some record of the namespace was written and its entity later moved to another
    namespace or another time. */
  ghost predicate Moved(ops: seq<Op>, last: map<Uuid, Analysis>, namespace: string) {
    exists i :: 0 <= i < |Written(ops)| && Written(ops)[i].namespace == namespace && !InPlace(Written(ops)[i], last)
  }

  predicate InPlace(a: Analysis, last: map<Uuid, Analysis>) {
    a.entityId in last && last[a.entityId].namespace == a.namespace && last[a.entityId].at == a.at
  }

  lemma {:induction false} WrittenIsDated(ops: seq<Op>)
    requires forall op :: op in ops ==> Dated(op)
    ensures forall i :: 0 <= i < |Written(ops)| ==> Written(ops)[i].at >= 0
  {
    if ops != [] {
      var n := |ops| - 1;
      assert ops[n] in ops && forall op :: op in ops[..n] ==> op in ops;
      WrittenIsDated(ops[..n]);
    }
  }

  /** Every key that a well-formed table lists holds a record. */
  lemma KeyIsHeld(t: Table, k: string) returns (a: Analysis)
    requires WellFormed(t) && k in Keys(t) && "analysis:" <= k
    ensures Holds(t, a) && MainKey(a) == k && a.at >= 0
  {
    hide MainKey, Decode, Less, Get;
    var e :| e in t && e.key == k;
    GetIsMembership(t, e.key, e.value);
    assert e == Entry(e.key, e.value);
    a := Decode(e.value).value;
  }

  lemma HeldKeyStarts(t: Table, a: Analysis)
    requires WellFormed(t) && Holds(t, a)
    ensures MainKey(a) in Keys(t) && "analysis:" <= MainKey(a) && a.at >= 0
  {
    HeldKey(t, a);
    assert "analysis:" <= MainKey(a);
    hide MainKey, Decode, Less, Get;
    var v := Get(t, MainKey(a)).value;
    GetIsMembership(t, MainKey(a), v);
    assert Entry(MainKey(a), v) in t;
  }

  /** After a run, an entry is outdated exactly when its entity was moved. */
  lemma OutdatedIffMoved(ops: seq<Op>, last: map<Uuid, Analysis>, namespace: string)
    requires (forall op :: op in ops ==> Dated(op)) && Agrees(Exec(Stores([], map[]), ops), last)
    requires forall id :: id in last ==> last[id].at >= 0
    ensures HasOutdated(Exec(Stores([], map[]), ops).db, last, namespace) <==> Moved(ops, last, namespace)
  {
    var t, written := Exec(Stores([], map[]), ops).db, Written(ops);
    RunEntries(ops);
    RunIsWellFormed(ops, |ops|, |ops|);
    assert ops[..|ops|] == ops;
    WrittenIsDated(ops);
    forall id | id in last ensures last[id].entityId == id { LatestIsHeld(Exec(Stores([], map[]), ops), last, id); }
    hide Exec, Written, WellFormed, Agrees, Holds, MainKey, Dated, Keys, Sorted;
    if HasOutdated(t, last, namespace) {
      var a: Analysis :| Outdated(t, last, namespace, a);
      var i := OutdatedWasWritten(t, last, written, namespace, a);
    }
    if Moved(ops, last, namespace) {
      var i :| 0 <= i < |written| && written[i].namespace == namespace && !InPlace(written[i], last);
      var a := MovedIsOutdated(t, last, written[i]);
    }
  }

  lemma OutdatedWasWritten(t: Table, last: map<Uuid, Analysis>, written: seq<Analysis>, namespace: string, a: Analysis)
      returns (i: nat)
    requires WellFormed(t) && EntriesAre(t, written) && Outdated(t, last, namespace, a)
    requires forall k :: 0 <= k < |written| ==> written[k].at >= 0
    requires forall id :: id in last ==> last[id].at >= 0 && last[id].entityId == id
    ensures i < |written| && written[i].namespace == namespace && !InPlace(written[i], last)
  {
    HeldKeyStarts(t, a);
    hide Holds, MainKey, WellFormed, Keys, Sorted;
    i :| 0 <= i < |written| && MainKey(written[i]) == MainKey(a);
    KeyNamesPlace(written[i], a);
    if a.entityId in last { KeyNamesPlace(last[a.entityId], a); }
  }

  lemma MovedIsOutdated(t: Table, last: map<Uuid, Analysis>, x: Analysis) returns (a: Analysis)
    requires WellFormed(t) && MainKey(x) in Keys(t) && x.at >= 0 && !InPlace(x, last)
    requires forall id :: id in last ==> last[id].at >= 0 && last[id].entityId == id
    ensures Outdated(t, last, x.namespace, a)
  {
    assert "analysis:" <= MainKey(x);
    hide Holds, MainKey, WellFormed, Keys;
    a := KeyIsHeld(t, MainKey(x));
    KeyNamesPlace(a, x);
    if a.entityId in last { KeyNamesPlace(last[a.entityId], a); }
  }

  /** After any run of stores and distinct-entity batches, a completed scan answers exactly the
    namespace's last records if and only if nothing intrudes and no entity written into the
    namespace was later moved to another namespace or time. */
  lemma RunScanIsLatest(ops: seq<Op>, ts: seq<Table>, namespace: string, limit: Option<int>)
    requires forall op :: op in ops ==> Dated(op) && (op.StoreBatch? ==> DistinctEntities(op.batch))
    requires ts != [] && forall i :: 0 <= i < |ts| ==> ts[i] == Exec(Stores([], map[]), ops).db
    requires Budget(limit) != Some(0) && Completed(ts, RoomPrefix(namespace), None, Budget(limit))
    ensures ExactlyLatest(ScanRecords(ts, RoomPrefix(namespace), None, Budget(limit)), RememberAll(ops), namespace)
        <==> !Intruded(Exec(Stores([], map[]), ops).db, namespace) && !Moved(ops, RememberAll(ops), namespace)
  {
    var s, last := Exec(Stores([], map[]), ops), RememberAll(ops);
    EveryRunAgrees(ops);
    RunIsWellFormed(ops, |ops|, |ops|);
    assert ops[..|ops|] == ops;
    RememberedIsDated(ops);
    hide Exec, RememberAll, WellFormed, Agrees, Dated, DistinctEntities, Completed, ScanRecords, RoomPrefix;
    hide ExactlyLatest, Intruded, Moved, HasOutdated, Keys;
    OutdatedIffMoved(ops, last, namespace);
    ScanIsLatest(ts, s, last, namespace, limit);
  }

  lemma {:induction false} BatchIsDated(last: map<Uuid, Analysis>, batch: seq<Analysis>)
    requires (forall id :: id in last ==> last[id].at >= 0) && forall i :: 0 <= i < |batch| ==> batch[i].at >= 0
    ensures forall id :: id in Remember(last, batch) ==> Remember(last, batch)[id].at >= 0
  {
    if batch != [] { BatchIsDated(last, batch[..|batch| - 1]); }
  }

  lemma {:induction false} RememberedIsDated(ops: seq<Op>)
    requires forall op :: op in ops ==> Dated(op)
    ensures forall id :: id in RememberAll(ops) ==> RememberAll(ops)[id].at >= 0
  {
    if ops != [] {
      var n := |ops| - 1;
      assert ops[n] in ops && forall op :: op in ops[..n] ==> op in ops;
      RememberedIsDated(ops[..n]);
      if ops[n].StoreBatch? { BatchIsDated(RememberAll(ops[..n]), ops[n].batch); }
    }
  }

  lemma StoreTwice(s: Stores, last: map<Uuid, Analysis>, a: Analysis, b: Analysis)
    requires Agrees(s, last) && WellFormed(s.db) && a.entityId == b.entityId && a.at >= 0 && b.at >= 0
    ensures var r := StoreOne(StoreOne(s, a), b);
            Agrees(r, last[a.entityId := a][b.entityId := b]) && WellFormed(r.db) && MainKey(a) in Keys(r.db)
  {
    hide Agrees, MainKey, Keys, PutBoth, Sorted;
    StoreKeepsAgreement(s, last, a);
    StoreKeepsAgreement(StoreOne(s, a), last[a.entityId := a], b);
    StoreKeepsWellFormed(s.db, a);
    StoreKeepsWellFormed(PutBoth(s.db, a), b);
    PutBothKeys(s.db, a);
  }

  /** An entity stored twice in a namespace at different times is listed twice, while a lookup
    answers the second record only. */
  lemma MovedIsListedTwice(s: Stores, last: map<Uuid, Analysis>, a: Analysis, b: Analysis)
    requires Agrees(s, last) && WellFormed(s.db)
    requires a.namespace == b.namespace && a.entityId == b.entityId && a.at != b.at && a.at >= 0 && b.at >= 0
    ensures var t := StoreOne(StoreOne(s, a), b).db;
            var rs := ScanRecords([t], RoomPrefix(a.namespace), None, None);
            && (exists x: Analysis :: x in rs && MainKey(x) == MainKey(a))
            && Normalised(b) in rs && MainKey(a) != MainKey(b)
            && Fetch(t, a.namespace, a.entityId) == Analyses.Found(Normalised(b))
  {
    hide StoreOne, WellFormed, Agrees, MainKey, RoomPrefix, ScanRecords, Normalised, Fetch, Keys;
    var r, now := StoreOne(StoreOne(s, a), b), last[a.entityId := a][b.entityId := b];
    StoreTwice(s, last, a, b);
    KeyNamesPlace(a, b);
    LatestIsListed(r, now, b.entityId);
    EntryIsListed(r.db, a);
  }

  lemma LatestIsListed(s: Stores, last: map<Uuid, Analysis>, id: Uuid)
    requires Agrees(s, last) && WellFormed(s.db) && id in last
    ensures var a := last[id];
            && Normalised(a) in ScanRecords([s.db], RoomPrefix(a.namespace), None, None)
            && Fetch(s.db, a.namespace, id) == Analyses.Found(Normalised(a))
  {
    hide WellFormed, Agrees, MainKey, RoomPrefix, ScanRecords, Completed, Holds, Normalised, Fetch;
    var a := last[id];
    LatestIsHeld(s, last, id);
    SameKeyNormalised(a);
    FetchIsLastRecord(s, last, a.namespace, id);
    OnePageIsAll(s.db, a.namespace);
    ScanAnswersHeld([s.db], s.db, a.namespace, None, Normalised(a));
  }

  lemma EntryIsListed(t: Table, a: Analysis)
    requires WellFormed(t) && MainKey(a) in Keys(t) && a.at >= 0
    ensures exists x: Analysis :: x in ScanRecords([t], RoomPrefix(a.namespace), None, None) && MainKey(x) == MainKey(a)
  {
    hide WellFormed, MainKey, RoomPrefix, ScanRecords, Completed, Holds, Keys;
    StartsWithAnalysis(a);
    var x := KeyIsHeld(t, MainKey(a));
    KeyNamesPlace(x, a);
    OnePageIsAll(t, a.namespace);
    ScanAnswersHeld([t], t, a.namespace, None, x);
  }

  lemma OnePageIsAll(t: Table, namespace: string)
    requires WellFormed(t)
    ensures Completed([t], RoomPrefix(namespace), None, None)
  {
    StaticIsGrowing([t], t);
    NilCursorComes([t], RoomPrefix(namespace), None, None);
  }

  lemma StartsWithAnalysis(a: Analysis)
    ensures "analysis:" <= MainKey(a)
  {
  }
}
