/** Analysis records: a main entry per record, a pointer entry per entity, and a
  search document per entity, written together and read back through the pointer. */
module Analyses {
  import opened Text
  import opened Badger
  import opened Paging

  const NIL_UUID: Uuid := "00000000-0000-0000-0000-000000000000"

  /** `boxed` payloads are pointers; `Unrecognised` is any type the code has no case for. */
  datatype Payload =
    | NoPayload
    | TextContent(boxed: bool, content: string)
    | AudioDetails(boxed: bool, transcription: string, duration: real)
    | FileDetails(boxed: bool, filename: string, mimeType: string, size: nat, content: string)
    | Unrecognised

  datatype Analysis = Analysis(
    id: Uuid, entityId: Uuid, namespace: string, at: Nanos, summary: string,
    tags: seq<string>, scores: map<string, real>, payload: Payload, version: Uuid)

  datatype PbPayload =
    | PbNone
    | PbText(content: string)
    | PbAudio(transcription: string, durationSec: real)
    | PbFile(filename: string, mimeType: string, size: nat, content: string)

  datatype PbAnalysis = PbAnalysis(
    id: string, entityId: string, namespace: string, at: Nanos, summary: string,
    tags: seq<string>, scores: map<string, real>, payload: PbPayload)

  datatype Value = Record(pb: PbAnalysis) | Pointer(mainKey: string) | Foreign

  type Table = seq<Entry<Value>>

  datatype Category = TextType | AudioType | FileType

  /** A search document; score names are indexed in lower case. */
  datatype Doc = Doc(content: string, namespace: string, category: Category, scores: set<(string, real)>)

  /** The search index: the documents held for each entity. */
  type Index = map<Uuid, seq<Doc>>

  datatype Stores = Stores(db: Table, index: Index)

  datatype FetchResult = Found(analysis: Analysis) | MissingIndex | MissingData | Undecodable | WrongNamespace

  // ------------------------------------------------------------- conversions

  function FromAnalysis(a: Analysis): PbAnalysis {
    var payload := match a.payload
      case TextContent(_, c) => PbText(c)
      case AudioDetails(_, t, d) => PbAudio(t, d)
      case FileDetails(_, f, m, s, c) => PbFile(f, m, s, c)
      case NoPayload => PbNone
      case Unrecognised => PbNone;
    PbAnalysis(a.id, a.entityId, a.namespace, a.at, a.summary, a.tags, a.scores, payload)
  }

  function ToAnalysis(pb: PbAnalysis): Option<Analysis> {
    if !IsUuid(pb.id) || !IsUuid(pb.entityId) then None
    else
      var payload := match pb.payload
        case PbNone => NoPayload
        case PbText(c) => TextContent(false, c)
        case PbAudio(t, d) => AudioDetails(false, t, d)
        case PbFile(f, m, s, c) => FileDetails(false, f, m, s, c);
      Some(Analysis(pb.id, pb.entityId, pb.namespace, pb.at, pb.summary, pb.tags, pb.scores, payload, NIL_UUID))
  }

  /** What storage keeps of a record: everything but the version, with the payload by value. */
  function Normalised(a: Analysis): Analysis {
    var payload := match a.payload
      case TextContent(_, c) => TextContent(false, c)
      case AudioDetails(_, t, d) => AudioDetails(false, t, d)
      case FileDetails(_, f, m, s, c) => FileDetails(false, f, m, s, c)
      case NoPayload => NoPayload
      case Unrecognised => NoPayload;
    a.(payload := payload, version := NIL_UUID)
  }

  function LowerChar(c: char): char {
    if 'A' <= c <= 'Z' then (c as int - 'A' as int + 'a' as int) as char else c
  }

  function Lower(s: string): string { seq(|s|, i requires 0 <= i < |s| => LowerChar(s[i])) }

  /** The searchable text and the category of a record. */
  function InternalData(a: Analysis): (string, Category) {
    match a.payload
    case NoPayload => (a.summary, TextType)
    case TextContent(_, c) => (a.summary + " " + c, TextType)
    case AudioDetails(_, t, _) => (a.summary + " " + t, AudioType)
    case FileDetails(_, f, _, _, c) => (a.summary + " " + f + (if c != "" then " " + c else ""), FileType)
    case Unrecognised => (a.summary, TextType)
  }

  function DocOf(a: Analysis): Doc {
    var (content, category) := InternalData(a);
    Doc(content, a.namespace, category, set name | name in a.scores :: (Lower(name), a.scores[name]))
  }

  /** Reading a stored record gives it back normalised, and its document is the one
    indexed when it was stored. */
  lemma StorageRoundTrip(a: Analysis)
    ensures ToAnalysis(FromAnalysis(a)) == Some(Normalised(a))
    ensures DocOf(Normalised(a)) == DocOf(a)
  {
  }

  // ------------------------------------------------------------------ keys

  function RoomPrefix(namespace: string): string { "analysis:" + namespace + ":" }

  function MainKey(a: Analysis): string { RoomPrefix(a.namespace) + Stamp(a.at, a.entityId) }

  function IndexKey(entityId: Uuid): string { "idx:msg:" + entityId }

  /** Keys keep entities apart: the fixed-width identifier ends every key. */
  lemma KeysKeepEntitiesApart(a: Analysis, b: Analysis)
    ensures MainKey(a) == MainKey(b) ==> a.entityId == b.entityId
    ensures IndexKey(a.entityId) == IndexKey(b.entityId) ==> a.entityId == b.entityId
    ensures MainKey(a) != IndexKey(b.entityId)
  {
    KeyShape(a);
    KeyShape(b);
    assert IndexKey(a.entityId)[8..] == a.entityId && IndexKey(b.entityId)[8..] == b.entityId;
    assert IndexKey(b.entityId)[0] == 'i';
    hide MainKey, IndexKey;
  }

  lemma KeyShape(a: Analysis)
    ensures |MainKey(a)| >= 36 && MainKey(a)[|MainKey(a)| - 36..] == a.entityId && MainKey(a)[0] == 'a'
  {
    hide Format019;
    assert MainKey(a) == RoomPrefix(a.namespace) + (Format019(a.at) + ":") + a.entityId;
  }

  // ------------------------------------------------------------- operations

  /** The write transaction of `Store`: the record, then the pointer to it. */
  function PutBoth(t: Table, a: Analysis): Table {
    Put(Put(t, MainKey(a), Record(FromAnalysis(a))), IndexKey(a.entityId), Pointer(MainKey(a)))
  }

  function StoreOne(s: Stores, a: Analysis): Stores {
    Stores(PutBoth(s.db, a), s.index[a.entityId := [DocOf(a)]])
  }

  function StoreEach(s: Stores, batch: seq<Analysis>): Stores {
    if batch == [] then s else StoreOne(StoreEach(s, batch[..|batch| - 1]), batch[|batch| - 1])
  }

  function PutAll(t: Table, batch: seq<Analysis>): Table {
    if batch == [] then t else PutBoth(PutAll(t, batch[..|batch| - 1]), batch[|batch| - 1])
  }

  /** The documents a search batch gathers, by entity. */
  function Documents(batch: seq<Analysis>): Index {
    if batch == [] then map[]
    else
      var front, a := Documents(batch[..|batch| - 1]), batch[|batch| - 1];
      front[a.entityId := (if a.entityId in front then front[a.entityId] else []) + [DocOf(a)]]
  }

  /** A search batch deletes the documents of every entity it names, then adds its own. */
  function IndexBatch(index: Index, batch: seq<Analysis>): Index {
    index + Documents(batch)
  }

  /** What `FetchFullByEntityId` answers. */
  function Fetch(t: Table, namespace: string, id: Uuid): FetchResult {
    var idx: Option<Value> := Get(t, IndexKey(id));
    if idx.None? then MissingIndex
    else if !idx.value.Pointer? then MissingData
    else
      var data: Option<Value> := Get(t, idx.value.mainKey);
      if data.None? then MissingData
      else if !data.value.Record? then Undecodable
      else
        match ToAnalysis(data.value.pb)
        case None => Undecodable
        case Some(a) => if a.namespace != namespace then WrongNamespace else Found(a)
  }

  /** The page of a ranking that a request asks for. */
  function Slice(ranking: seq<Uuid>, offset: nat, limit: nat): (page: seq<Uuid>)
    ensures |page| == if offset < |ranking| then Min(limit, |ranking| - offset) else 0
    ensures forall id :: id in page ==> id in ranking
  {
    if offset < |ranking| then ranking[offset..][..Min(limit, |ranking| - offset)] else []
  }

  /** Hydration keeps the search hits that can be fetched under the namespace. */
  function Hydrate(t: Table, namespace: string, hits: seq<Uuid>): seq<Analysis> {
    if hits == [] then []
    else
      var front, last := Hydrate(t, namespace, hits[..|hits| - 1]), Fetch(t, namespace, hits[|hits| - 1]);
      if last.Found? then front + [last.analysis] else front
  }

  // ----------------------------------------------------------- room scans

  datatype ScanPage = ScanPage(analyses: seq<Analysis>, cursor: Option<string>)

  /** The loop stops once the page length reaches the limit, so a limit below one allows nothing. */
  function Budget(limit: Option<int>): Option<nat> {
    if limit.None? then None else Some(if limit.value < 0 then 0 else limit.value)
  }

  function Decode(v: Value): Option<Analysis> {
    if v.Record? then ToAnalysis(v.pb) else None
  }

  /** Whether the iterator still stands on the prefix when the loop stops. */
  predicate HasMore(t: Table, prefix: string, cursor: Option<string>, budget: Option<nat>) {
    var lo := Stop(t, prefix, Start(t, prefix, cursor), budget);
    lo >= 0 && prefix <= t[lo].key
  }

  function NextCursor(t: Table, prefix: string, cursor: Option<string>, budget: Option<nat>): Option<string> {
    var keys := PageKeys(t, prefix, cursor, budget);
    if keys == [] || !HasMore(t, prefix, cursor, budget) then None else Some(CursorAfter(prefix, keys))
  }

  /** What `ScanAnalysesByRoom` answers; `None` stands for an error. */
  function Scan(t: Table, prefix: string, cursor: Option<string>, budget: Option<nat>): Option<ScanPage> {
    var hi := Start(t, prefix, cursor);
    match DecodeAll(ValuesDown(t, hi, Stop(t, prefix, hi, budget)), Decode)
    case None => None
    case Some(analyses) => Some(ScanPage(analyses, NextCursor(t, prefix, cursor, budget)))
  }

  class AnalysisRepository {
    var db: Table
    var index: Index
    const badgerLimit: Option<int>

    constructor (limit: Option<int>)
      ensures db == [] && index == map[] && badgerLimit == limit
    {
      db, index := [], map[];
      badgerLimit := limit;
    }

    method Store(a: Analysis)
      modifies this
      ensures Stores(db, index) == StoreOne(Stores(old(db), old(index)), a)
    {
      var mainKey := MainKey(a);
      var indexKey := IndexKey(a.entityId);
      var txn := Put(db, mainKey, Record(FromAnalysis(a)));
      db := Put(txn, indexKey, Pointer(mainKey));
      var (text, category) := InternalData(a);
      var fields := set name | name in a.scores :: (Lower(name), a.scores[name]);
      index := index[a.entityId := [Doc(text, a.namespace, category, fields)]];
    }

    method StoreBatch(batch: seq<Analysis>)
      modifies this
      ensures db == PutAll(old(db), batch)
      ensures index == IndexBatch(old(index), batch)
    {
      hide Less, Put, MainKey, IndexKey, FromAnalysis, DocOf;
      var writeBatch := db;
      var documents: map<Uuid, seq<Doc>> := map[];
      for i := 0 to |batch|
        invariant writeBatch == PutAll(db, batch[..i])
        invariant documents == Documents(batch[..i])
        invariant db == old(db) && index == old(index)
      {
        assert batch[..i + 1][..i] == batch[..i];
        var a := batch[i];
        var mainKey := MainKey(a);
        writeBatch := Put(Put(writeBatch, mainKey, Record(FromAnalysis(a))), IndexKey(a.entityId), Pointer(mainKey));
        var doc := DocOf(a);
        documents := documents[a.entityId := (if a.entityId in documents then documents[a.entityId] else []) + [doc]];
      }
      assert batch[..|batch|] == batch;
      db := writeBatch;
      index := index + documents;
    }

    method ScanAnalysesByRoom(namespace: string, cursor: Option<string>) returns (r: Option<ScanPage>)
      ensures r == Scan(db, RoomPrefix(namespace), cursor, Budget(badgerLimit))
    {
      r := ScanPrefix(db, RoomPrefix(namespace), cursor);
    }

    /** The read transaction: position the iterator, collect, and package the result. */
    method ScanPrefix(txn: Table, prefix: string, cursor: Option<string>) returns (r: Option<ScanPage>)
      ensures r == Scan(txn, prefix, cursor, Budget(badgerLimit))
    {
      hide Less, Rank, Start, Stop, PageKeys, CursorAfter, ValuesDown, DecodeAll;
      var it := Position(txn, prefix, cursor);
      var analyses, lastKey, hasMore := Collect(txn, prefix, it);
      if analyses.None? {
        return None;
      }
      CursorOfScan(txn, prefix, cursor, Budget(badgerLimit), lastKey);
      DecodeAllMeaning(ValuesDown(txn, it, Stop(txn, prefix, it, Budget(badgerLimit))), Decode);
      if analyses.value == [] || !hasMore {
        return Some(ScanPage(analyses.value, None));
      }
      return Some(ScanPage(analyses.value, Some(lastKey)));
    }

    method Collect(txn: Table, prefix: string, hi: int) returns (analyses: Option<seq<Analysis>>, lastKey: string, hasMore: bool)
      requires -1 <= hi < |txn|
      ensures var lo := Stop(txn, prefix, hi, Budget(badgerLimit));
              && analyses == DecodeAll(ValuesDown(txn, hi, lo), Decode)
              && (analyses.Some? ==>
                    && lastKey == (if lo == hi then "" else txn[lo + 1].key[|prefix|..])
                    && (hasMore <==> lo >= 0 && prefix <= txn[lo].key))
    {
      hide Less, DecodeAll, Decode, Stop;
      var it, found := hi, [];
      ghost var left := Budget(badgerLimit);
      ghost var vs := ValuesDown(txn, hi, Stop(txn, prefix, hi, left));
      DecodeNothing(vs, Decode);
      lastKey, hasMore := "", false;
      while it >= 0 && prefix <= txn[it].key
        invariant -1 <= it <= hi && |found| == hi - it <= |vs|
        invariant left == if badgerLimit.None? then None else Some(Budget(badgerLimit).value - |found|)
        invariant Stop(txn, prefix, hi, Budget(badgerLimit)) == Stop(txn, prefix, it, left)
        invariant DecodeAll(vs[..|found|], Decode) == Some(found)
        invariant it < hi ==> prefix <= txn[it + 1].key
        invariant lastKey == if it == hi then "" else txn[it + 1].key[|prefix|..]
        invariant !hasMore
        decreases it + 1
      {
        StopStep(txn, prefix, it, left);
        if badgerLimit.Some? && |found| >= badgerLimit.value {
          hasMore := true;
          break;
        }
        lastKey := txn[it].key[|prefix|..];
        DecodeStep(vs, |found|, Decode);
        var an := Decode(txn[it].value);
        if an.None? {
          DecodeAllMeaning(vs, Decode);
          return None, lastKey, hasMore;
        }
        found := found + [an.value];
        it := it - 1;
        left := if left.None? then None else Some(left.value - 1);
      }
      StopStep(txn, prefix, it, left);
      assert vs[..|found|] == vs;
      analyses := Some(found);
    }

    method FetchFullByEntityId(namespace: string, id: Uuid) returns (r: FetchResult)
      ensures r == Fetch(db, namespace, id)
    {
      var txn := db;
      var itemIdx := Get(txn, IndexKey(id));
      if itemIdx.None? { return MissingIndex; }
      if !itemIdx.value.Pointer? { return MissingData; }
      var itemData := Get(txn, itemIdx.value.mainKey);
      if itemData.None? { return MissingData; }
      if !itemData.value.Record? { return Undecodable; }
      var res := ToAnalysis(itemData.value.pb);
      if res.None? { return Undecodable; }
      if res.value.namespace != namespace { return WrongNamespace; }
      return Found(res.value);
    }

    /** `ranking` are the hits of the query as the search engine ranks them; the request asks
      for `limit` of them from `offset` on. */
    method SearchAndHydrate(ranking: seq<Uuid>, offset: nat, limit: nat, namespace: string)
      returns (results: seq<Analysis>, total: nat)
      ensures results == Hydrate(db, namespace, Slice(ranking, offset, limit)) && total == |ranking|
    {
      total := 0;
      while total < |ranking|
        invariant total <= |ranking|
      {
        total := total + 1;
      }
      ghost var page := Slice(ranking, offset, limit);
      results := [];
      var i := offset;
      while i < |ranking| && i < offset + limit
        invariant offset <= i && i - offset <= |page|
        invariant results == Hydrate(db, namespace, page[..i - offset])
      {
        assert page[..i - offset + 1][..i - offset] == page[..i - offset];
        var full := FetchFullByEntityId(namespace, ranking[i]);
        if full.Found? {
          results := results + [full.analysis];
        }
        i := i + 1;
      }
      assert page[..|page|] == page;
    }
  }

  // ------------------------------------------------------------- agreement

  /** The stores represent a plain map from entity to last stored record. */
  ghost predicate Agrees(s: Stores, last: map<Uuid, Analysis>) {
    && Sorted(s.db)
    && s.index.Keys == last.Keys
    && (forall id :: id in last ==> Represents(s, id, last[id]))
    && (forall id: Uuid :: id !in last ==> Get(s.db, IndexKey(id)).None?)
  }

  ghost predicate Represents(s: Stores, id: Uuid, a: Analysis) {
    && a.entityId == id
    && Get(s.db, IndexKey(id)) == Some(Pointer(MainKey(a)))
    && Get(s.db, MainKey(a)) == Some(Record(FromAnalysis(a)))
    && id in s.index && s.index[id] == [DocOf(a)]
  }

  lemma StoreKeepsAgreement(s: Stores, last: map<Uuid, Analysis>, a: Analysis)
    requires Agrees(s, last)
    ensures Agrees(StoreOne(s, a), last[a.entityId := a])
  {
    hide Less, Put, Get, MainKey, IndexKey, DocOf, FromAnalysis;
    var r, next := StoreOne(s, a), last[a.entityId := a];
    var k, v, i, p := MainKey(a), Record(FromAnalysis(a)), IndexKey(a.entityId), Pointer(MainKey(a));
    var mid := Put(s.db, k, v);
    PutSorted(s.db, k, v);
    PutSorted(mid, i, p);
    GetAfterPut(mid, i, p, i);
    GetAfterPut(mid, i, p, k);
    GetAfterPut(s.db, k, v, k);
    KeysKeepEntitiesApart(a, a);
    forall id | id in next ensures Represents(r, id, next[id]) {
      if id != a.entityId {
        KeysKeepEntitiesApart(a, last[id]);
        KeysKeepEntitiesApart(last[id], a);
        assert Represents(s, id, last[id]);
        UntouchedBy(s.db, a, IndexKey(id));
        UntouchedBy(s.db, a, MainKey(last[id]));
      }
    }
    forall id: Uuid | id !in next ensures Get(r.db, IndexKey(id)).None? {
      KeysKeepEntitiesApart(a, a.(entityId := id));
      UntouchedBy(s.db, a, IndexKey(id));
    }
  }

  /** A store writes two keys. */
  lemma UntouchedBy(t: Table, a: Analysis, q: string)
    requires Sorted(t) && q != MainKey(a) && q != IndexKey(a.entityId)
    ensures Get(PutBoth(t, a), q) == Get(t, q)
  {
    hide Less, Put, Get, MainKey, IndexKey;
    var mid := Put(t, MainKey(a), Record(FromAnalysis(a)));
    PutSorted(t, MainKey(a), Record(FromAnalysis(a)));
    GetAfterPut(t, MainKey(a), Record(FromAnalysis(a)), q);
    GetAfterPut(mid, IndexKey(a.entityId), Pointer(MainKey(a)), q);
  }

  ghost predicate DistinctEntities(batch: seq<Analysis>) {
    forall i, j :: 0 <= i < j < |batch| ==> batch[i].entityId != batch[j].entityId
  }

  lemma {:induction false} EachRecord(s: Stores, batch: seq<Analysis>)
    ensures StoreEach(s, batch).db == PutAll(s.db, batch)
  {
    hide PutBoth, DocOf;
    if batch != [] { EachRecord(s, batch[..|batch| - 1]); }
  }

  lemma {:induction false} EachDocument(s: Stores, batch: seq<Analysis>)
    requires DistinctEntities(batch)
    ensures StoreEach(s, batch).index == IndexBatch(s.index, batch)
  {
    hide PutBoth, DocOf;
    if batch == [] {
      assert s.index + map[] == s.index;
    } else {
      var n := |batch| - 1;
      EachDocument(s, batch[..n]);
      NotGathered(batch[..n], batch[n].entityId);
      assert [] + [DocOf(batch[n])] == [DocOf(batch[n])];
      MergeUpdate(s.index, Documents(batch[..n]), batch[n].entityId, [DocOf(batch[n])]);
    }
  }

  /** A batch of distinct entities leaves both stores as storing its records one by one. */
  lemma BatchIsOneByOne(s: Stores, batch: seq<Analysis>)
    requires DistinctEntities(batch)
    ensures Stores(PutAll(s.db, batch), IndexBatch(s.index, batch)) == StoreEach(s, batch)
  {
    hide PutAll, IndexBatch, StoreEach;
    EachRecord(s, batch);
    EachDocument(s, batch);
  }

  lemma {:induction false} Gathered(batch: seq<Analysis>, j: nat)
    requires j < |batch|
    ensures batch[j].entityId in Documents(batch)
    ensures forall i :: 0 <= i < j && batch[i].entityId == batch[j].entityId ==> |Documents(batch)[batch[j].entityId]| >= 2
  {
    hide DocOf;
    var n := |batch| - 1;
    if j < n {
      Gathered(batch[..n], j);
    } else {
      forall i | 0 <= i < j && batch[i].entityId == batch[j].entityId
        ensures |Documents(batch)[batch[j].entityId]| >= 2
      {
        Gathered(batch[..n], i);
        GatheredSome(batch[..n], batch[j].entityId);
      }
    }
  }

  lemma {:induction false} GatheredSome(batch: seq<Analysis>, id: Uuid)
    requires id in Documents(batch)
    ensures Documents(batch)[id] != []
  {
    hide DocOf;
    var n := |batch| - 1;
    if batch[n].entityId != id { GatheredSome(batch[..n], id); }
  }

  lemma {:induction false} OneDocumentEach(s: Stores, batch: seq<Analysis>, i: nat)
    requires i < |batch|
    ensures batch[i].entityId in StoreEach(s, batch).index && |StoreEach(s, batch).index[batch[i].entityId]| == 1
  {
    hide DocOf, PutBoth;
    var n := |batch| - 1;
    if i < n && batch[n].entityId != batch[i].entityId { OneDocumentEach(s, batch[..n], i); }
  }

  /** And only such a batch: a repeated entity keeps a document for each of its records. */
  lemma BatchIsOneByOneIff(s: Stores, batch: seq<Analysis>)
    ensures Stores(PutAll(s.db, batch), IndexBatch(s.index, batch)) == StoreEach(s, batch) <==> DistinctEntities(batch)
  {
    hide PutAll, StoreEach, Documents;
    if DistinctEntities(batch) {
      BatchIsOneByOne(s, batch);
    } else {
      var i, j :| 0 <= i < j < |batch| && batch[i].entityId == batch[j].entityId;
      Gathered(batch, j);
      OneDocumentEach(s, batch, j);
      assert |IndexBatch(s.index, batch)[batch[j].entityId]| >= 2;
    }
  }

  lemma MergeUpdate(m: Index, n: Index, k: Uuid, v: seq<Doc>)
    ensures m + n[k := v] == (m + n)[k := v]
  {
  }

  lemma {:induction false} NotGathered(batch: seq<Analysis>, id: Uuid)
    requires forall i :: 0 <= i < |batch| ==> batch[i].entityId != id
    ensures id !in Documents(batch)
  {
    if batch != [] { NotGathered(batch[..|batch| - 1], id); }
  }

  datatype Op = Store(a: Analysis) | StoreBatch(batch: seq<Analysis>)

  function Apply(s: Stores, op: Op): Stores {
    match op
    case Store(a) => StoreOne(s, a)
    case StoreBatch(batch) => Stores(PutAll(s.db, batch), IndexBatch(s.index, batch))
  }

  function Exec(s: Stores, ops: seq<Op>): Stores {
    if ops == [] then s else Apply(Exec(s, ops[..|ops| - 1]), ops[|ops| - 1])
  }

  /** The reference: remember the last record of each entity. */
  function Remember(last: map<Uuid, Analysis>, batch: seq<Analysis>): map<Uuid, Analysis> {
    if batch == [] then last
    else Remember(last, batch[..|batch| - 1])[batch[|batch| - 1].entityId := batch[|batch| - 1]]
  }

  function RememberAll(ops: seq<Op>): map<Uuid, Analysis> {
    if ops == [] then map[]
    else
      var last := RememberAll(ops[..|ops| - 1]);
      match ops[|ops| - 1]
      case Store(a) => last[a.entityId := a]
      case StoreBatch(batch) => Remember(last, batch)
  }

  lemma {:induction false} StoreEachKeepsAgreement(s: Stores, last: map<Uuid, Analysis>, batch: seq<Analysis>)
    requires Agrees(s, last)
    ensures Agrees(StoreEach(s, batch), Remember(last, batch))
  {
    hide Agrees;
    if batch != [] {
      var n := |batch| - 1;
      StoreEachKeepsAgreement(s, last, batch[..n]);
      StoreKeepsAgreement(StoreEach(s, batch[..n]), Remember(last, batch[..n]), batch[n]);
    }
  }

  /** After any sequence of stores and distinct-entity batches, the pointer, the main
    entry and the search document of every entity are those of its last record. */
  lemma {:induction false} EveryRunAgrees(ops: seq<Op>)
    requires forall op :: op in ops && op.StoreBatch? ==> DistinctEntities(op.batch)
    ensures Agrees(Exec(Stores([], map[]), ops), RememberAll(ops))
  {
    hide Agrees, StoreOne, PutAll, IndexBatch;
    if ops == [] {
      EmptyAgrees();
    } else {
      var n := |ops| - 1;
      EveryRunAgrees(ops[..n]);
      var s, last := Exec(Stores([], map[]), ops[..n]), RememberAll(ops[..n]);
      assert ops[n] in ops;
      match ops[n]
      case Store(a) => StoreKeepsAgreement(s, last, a);
      case StoreBatch(batch) =>
        BatchIsOneByOne(s, batch);
        StoreEachKeepsAgreement(s, last, batch);
    }
  }

  lemma EmptyAgrees()
    ensures Agrees(Stores([], map[]), map[])
  {
  }

  /** The two-step lookup refines the plain map: it finds the last record of the entity
    exactly when that record is in the requested namespace. */
  lemma FetchIsLastRecord(s: Stores, last: map<Uuid, Analysis>, namespace: string, id: Uuid)
    requires Agrees(s, last)
    ensures Fetch(s.db, namespace, id) ==
      if id !in last then MissingIndex
      else if last[id].namespace != namespace then WrongNamespace
      else Found(Normalised(last[id]))
  {
    hide Less, MainKey, IndexKey, Get, FromAnalysis, ToAnalysis, DocOf;
    if id in last {
      assert Represents(s, id, last[id]);
      StorageRoundTrip(last[id]);
    }
  }

  /** The search document of every entity is the one its fetched record would have. */
  lemma IndexMatchesRecords(s: Stores, last: map<Uuid, Analysis>, id: Uuid)
    requires Agrees(s, last) && id in last
    ensures Fetch(s.db, last[id].namespace, id).Found?
    ensures s.index[id] == [DocOf(Fetch(s.db, last[id].namespace, id).analysis)]
  {
    hide Less, MainKey, IndexKey, Fetch;
    FetchIsLastRecord(s, last, last[id].namespace, id);
    StorageRoundTrip(last[id]);
    assert Represents(s, id, last[id]);
  }

  // ---------------------------------------------------------------- search

  /** A document is a hit when it matches the query and, unless the namespace is empty,
    lies in the namespace. */
  predicate Hit(d: Doc, query: Doc -> bool, namespace: string) {
    query(d) && (namespace == "" || d.namespace == namespace)
  }

  /** Hydration returns exactly the hits whose record is in the requested namespace,
    in ranking order. */
  lemma {:induction false} HydrateIsFilter(s: Stores, last: map<Uuid, Analysis>, namespace: string, hits: seq<Uuid>)
    requires Agrees(s, last) && forall id :: id in hits ==> id in last
    ensures Hydrate(s.db, namespace, hits) == RecordsOf(last, InNamespace(last, namespace, hits))
  {
    hide Agrees, Fetch;
    if hits != [] {
      var n := |hits| - 1;
      HydrateIsFilter(s, last, namespace, hits[..n]);
      FetchIsLastRecord(s, last, namespace, hits[n]);
    }
  }

  function InNamespace(last: map<Uuid, Analysis>, namespace: string, hits: seq<Uuid>): (r: seq<Uuid>)
    requires forall id :: id in hits ==> id in last
    ensures forall id :: id in r ==> id in last
  {
    if hits == [] then []
    else
      var front, id := InNamespace(last, namespace, hits[..|hits| - 1]), hits[|hits| - 1];
      if last[id].namespace == namespace then front + [id] else front
  }

  function RecordsOf(last: map<Uuid, Analysis>, ids: seq<Uuid>): seq<Analysis>
    requires forall id :: id in ids ==> id in last
  {
    if ids == [] then []
    else RecordsOf(last, ids[..|ids| - 1]) + [Normalised(last[ids[|ids| - 1]])]
  }

  lemma {:induction false} InNamespaceKeepsAll(last: map<Uuid, Analysis>, namespace: string, hits: seq<Uuid>)
    requires forall id :: id in hits ==> id in last
    ensures |InNamespace(last, namespace, hits)| <= |hits|
    ensures |InNamespace(last, namespace, hits)| == |hits| <==> forall id :: id in hits ==> last[id].namespace == namespace
    ensures |InNamespace(last, namespace, hits)| == |hits| ==> InNamespace(last, namespace, hits) == hits
  {
    if hits != [] {
      var n := |hits| - 1;
      InNamespaceKeepsAll(last, namespace, hits[..n]);
      assert hits == hits[..n] + [hits[n]];
    }
  }

  /** A search in a non-empty namespace drops no hit; in general a page comes back
    whole exactly when every hit's record is in the namespace that was asked for. */
  lemma SearchDropsNothing(s: Stores, last: map<Uuid, Analysis>, namespace: string, query: Doc -> bool, page: seq<Uuid>)
    requires Agrees(s, last)
    requires forall id :: id in page ==> id in s.index && exists d :: d in s.index[id] && Hit(d, query, namespace)
    ensures forall id :: id in page ==> id in last
    ensures Hydrate(s.db, namespace, page) == RecordsOf(last, page)
        <==> forall id :: id in page ==> last[id].namespace == namespace
    ensures namespace != "" ==> forall id :: id in page ==> last[id].namespace == namespace
  {
    hide Fetch, Hydrate;
    forall id | id in page ensures id in last && (namespace != "" ==> last[id].namespace == namespace) {
      assert Represents(s, id, last[id]);
    }
    HydrateIsFilter(s, last, namespace, page);
    InNamespaceKeepsAll(last, namespace, page);
    RecordsLength(last, page);
    RecordsLength(last, InNamespace(last, namespace, page));
  }

  ghost predicate IsHit(index: Index, id: Uuid, query: Doc -> bool, namespace: string) {
    id in index && exists d :: d in index[id] && Hit(d, query, namespace)
  }

  /** The contract of the search engine: every entity with a hit, once, in some order. */
  ghost predicate Ranks(index: Index, query: Doc -> bool, namespace: string, ranking: seq<Uuid>) {
    && (forall id :: id in ranking <==> IsHit(index, id, query, namespace))
    && forall i, j :: 0 <= i < j < |ranking| ==> ranking[i] != ranking[j]
  }

  /** The total is the number of indexed hits, and in a non-empty namespace a page holds the
    records of its slice of the ranking: as many as are asked for or left. */
  lemma SearchIsPaged(
      s: Stores, last: map<Uuid, Analysis>, namespace: string, query: Doc -> bool, ranking: seq<Uuid>, offset: nat, limit: nat)
    requires Agrees(s, last) && namespace != "" && Ranks(s.index, query, namespace, ranking)
    ensures |ranking| == |set id | id in s.index && IsHit(s.index, id, query, namespace)|
    ensures var page := Slice(ranking, offset, limit);
            var results := Hydrate(s.db, namespace, page);
            && (forall id :: id in page ==> id in last && last[id].namespace == namespace)
            && results == RecordsOf(last, page)
            && |results| == if offset < |ranking| then Min(limit, |ranking| - offset) else 0
  {
    hide Agrees, Hydrate, Slice, IsHit;
    DistinctSize(ranking);
    assert (set id | id in ranking) == set id | id in s.index && IsHit(s.index, id, query, namespace) by { HitsAreIndexed(s.index, query, namespace); }
    var page := Slice(ranking, offset, limit);
    forall id | id in page ensures id in s.index && exists d :: d in s.index[id] && Hit(d, query, namespace) {
      assert IsHit(s.index, id, query, namespace);
      HitMeans(s.index, id, query, namespace);
    }
    SearchDropsNothing(s, last, namespace, query, page);
    RecordsLength(last, page);
  }

  lemma HitMeans(index: Index, id: Uuid, query: Doc -> bool, namespace: string)
    requires IsHit(index, id, query, namespace)
    ensures id in index && exists d :: d in index[id] && Hit(d, query, namespace)
  {
  }

  lemma HitsAreIndexed(index: Index, query: Doc -> bool, namespace: string)
    ensures forall id :: IsHit(index, id, query, namespace) ==> id in index
  {
  }

  lemma {:induction false} RecordsLength(last: map<Uuid, Analysis>, ids: seq<Uuid>)
    requires forall id :: id in ids ==> id in last
    ensures |RecordsOf(last, ids)| == |ids|
  {
    if ids != [] { RecordsLength(last, ids[..|ids| - 1]); }
  }

  /** A search without a namespace looks records up under the empty namespace, so it
    counts hits it then drops. */
  lemma GlobalSearchDropsHits(a: Analysis, query: Doc -> bool)
    requires a.namespace != "" && query(DocOf(a))
    ensures var s := StoreOne(Stores([], map[]), a);
            && Hit(s.index[a.entityId][0], query, "")
            && Hydrate(s.db, "", [a.entityId]) == []
  {
    EmptyAgrees();
    var s := StoreOne(Stores([], map[]), a);
    StoreKeepsAgreement(Stores([], map[]), map[], a);
    var last: map<Uuid, Analysis> := map[][a.entityId := a];
    HydrateIsFilter(s, last, "", [a.entityId]);
    assert [a.entityId][..0] == [];
  }
}
