/** What a caller of the analysis store gets, stated by the fields of what was stored: the
  records of lookups, the documents of the index, and the pages of a search. */
module Search {
  import opened Text
  import opened Badger
  import opened Analyses

  /** The outcomes of a lookup, by what the table holds under the pointer's key and under the
    key it names. */
  lemma FetchOutcomes(t: Table, namespace: string, id: Uuid)
    ensures var r, pointer := Fetch(t, namespace, id), Get(t, "idx:msg:" + id);
            && (r.MissingIndex? <==> pointer.None?)
            && (r.MissingData? <==> pointer.Some? && (!pointer.value.Pointer? || Get(t, pointer.value.mainKey).None?))
            && (pointer.Some? && pointer.value.Pointer? && Get(t, pointer.value.mainKey).Some? ==>
                  var data := Get(t, pointer.value.mainKey).value;
                  && (r.Undecodable? <==> !data.Record? || !IsUuid(data.pb.id) || !IsUuid(data.pb.entityId))
                  && (r.WrongNamespace? <==> !r.Undecodable? && data.pb.namespace != namespace)
                  && (r.Found? <==> !r.Undecodable? && data.pb.namespace == namespace))
  {
    hide Get;
    assert IndexKey(id) == "idx:msg:" + id;
  }

  /** What a lookup answers is what was stored, field by field: only the version is lost, a
    payload behind a pointer comes back by value, and an unrecognised one not at all. */
  lemma FetchedFields(s: Stores, last: map<Uuid, Analysis>, id: Uuid)
    requires Agrees(s, last) && id in last
    ensures var a, r := last[id], Fetch(s.db, last[id].namespace, id);
            && r.Found?
            && r.analysis.id == a.id && r.analysis.entityId == a.entityId == id && r.analysis.namespace == a.namespace
            && r.analysis.at == a.at && r.analysis.summary == a.summary
            && r.analysis.tags == a.tags && r.analysis.scores == a.scores
            && r.analysis.payload ==
                 match a.payload
                 case NoPayload => NoPayload
                 case TextContent(_, content) => TextContent(false, content)
                 case AudioDetails(_, transcription, duration) => AudioDetails(false, transcription, duration)
                 case FileDetails(_, filename, mimeType, size, content) => FileDetails(false, filename, mimeType, size, content)
                 case Unrecognised => NoPayload
  {
    hide Fetch;
    assert Represents(s, id, last[id]);
    FetchIsLastRecord(s, last, last[id].namespace, id);
  }

  /** The document indexed for a record: its text is the summary and what the payload says, its
    category the payload's, and each score is found under its name in lower case. */
  lemma IndexedDocument(s: Stores, last: map<Uuid, Analysis>, id: Uuid)
    requires Agrees(s, last) && id in last
    ensures |s.index[id]| == 1
    ensures var a, d := last[id], s.index[id][0];
            && d.namespace == a.namespace
            && (a.payload.NoPayload? || a.payload.Unrecognised? ==> d.content == a.summary && d.category == TextType)
            && (a.payload.TextContent? ==> d.content == a.summary + " " + a.payload.content && d.category == TextType)
            && (a.payload.AudioDetails? ==> d.content == a.summary + " " + a.payload.transcription && d.category == AudioType)
            && (a.payload.FileDetails? && a.payload.content == "" ==>
                  d.content == a.summary + " " + a.payload.filename && d.category == FileType)
            && (a.payload.FileDetails? && a.payload.content != "" ==>
                  d.content == a.summary + " " + a.payload.filename + " " + a.payload.content && d.category == FileType)
            && (forall name, value :: (name, value) in d.scores <==>
                  exists metric :: metric in a.scores && a.scores[metric] == value && InLower(metric, name))
  {
    OneDocument(s, last, id);
    var a := last[id];
    DocText(a);
    ScoresMean(a);
    hide Agrees, InLower, DocOf;
  }

  lemma DocText(a: Analysis)
    ensures var d := DocOf(a);
            && d.namespace == a.namespace
            && (a.payload.NoPayload? || a.payload.Unrecognised? ==> d.content == a.summary && d.category == TextType)
            && (a.payload.TextContent? ==> d.content == a.summary + " " + a.payload.content && d.category == TextType)
            && (a.payload.AudioDetails? ==> d.content == a.summary + " " + a.payload.transcription && d.category == AudioType)
            && (a.payload.FileDetails? && a.payload.content == "" ==>
                  d.content == a.summary + " " + a.payload.filename && d.category == FileType)
            && (a.payload.FileDetails? && a.payload.content != "" ==>
                  d.content == a.summary + " " + a.payload.filename + " " + a.payload.content && d.category == FileType)
  {
    hide Lower;
    if a.payload.FileDetails? && a.payload.content != "" {
      assert a.summary + " " + a.payload.filename + (" " + a.payload.content) == a.summary + " " + a.payload.filename + " " + a.payload.content;
    }
  }

  lemma ScoresMean(a: Analysis)
    ensures forall name, value :: (name, value) in DocOf(a).scores <==>
      exists metric :: metric in a.scores && a.scores[metric] == value && InLower(metric, name)
  {
    forall metric, name ensures InLower(metric, name) <==> name == Lower(metric) { LowerMeans(metric, name); }
    hide Lower, InLower, InternalData;
  }

  /** `lower` is `name` with its Latin capitals lowered. */
  predicate InLower(name: string, lower: string) {
    && |lower| == |name|
    && forall i :: 0 <= i < |name| ==>
         if 'A' <= name[i] <= 'Z' then lower[i] as int == name[i] as int + 32 else lower[i] == name[i]
  }

  lemma LowerMeans(name: string, lower: string)
    ensures InLower(name, lower) <==> lower == Lower(name)
  {
    forall i | 0 <= i < |name|
      ensures if 'A' <= name[i] <= 'Z' then Lower(name)[i] as int == name[i] as int + 32 else Lower(name)[i] == name[i]
    {
    }
    if InLower(name, lower) {
      forall i | 0 <= i < |name| ensures lower[i] == Lower(name)[i] { }
    }
  }

  // ---------------------------------------------------------------- searches

  /** What a search answers for one request. */
  function Answer(t: Table, namespace: string, ranking: seq<Uuid>, offset: nat, limit: nat): seq<Analysis> {
    Hydrate(t, namespace, Slice(ranking, offset, limit))
  }

  /** The entities whose last record lies in the namespace and whose document matches. */
  ghost function Matching(last: map<Uuid, Analysis>, query: Doc -> bool, namespace: string): set<Uuid> {
    set id | id in last && last[id].namespace == namespace && query(DocOf(last[id]))
  }

  lemma HitIsMatching(s: Stores, last: map<Uuid, Analysis>, namespace: string, query: Doc -> bool, id: Uuid)
    requires Agrees(s, last) && namespace != "" && id in last
    ensures IsHit(s.index, id, query, namespace) <==> last[id].namespace == namespace && query(DocOf(last[id]))
  {
    hide DocOf, Agrees, IsHit;
    OneDocument(s, last, id);
    DocNamespace(last[id]);
    OneHit(s.index, id, DocOf(last[id]), query, namespace);
  }

  lemma DocNamespace(a: Analysis)
    ensures DocOf(a).namespace == a.namespace
  {
  }

  lemma OneHit(index: Index, id: Uuid, d: Doc, query: Doc -> bool, namespace: string)
    requires id in index && index[id] == [d] && namespace != ""
    ensures IsHit(index, id, query, namespace) <==> d.namespace == namespace && query(d)
  {
    assert d in [d];
  }

  lemma OneDocument(s: Stores, last: map<Uuid, Analysis>, id: Uuid)
    requires Agrees(s, last) && id in last
    ensures id in s.index && s.index[id] == [DocOf(last[id])]
  {
    hide DocOf;
    assert Represents(s, id, last[id]);
  }

  /** The total counts exactly the entities that match. */
  lemma TotalIsMatching(s: Stores, last: map<Uuid, Analysis>, namespace: string, query: Doc -> bool, ranking: seq<Uuid>)
    requires Agrees(s, last) && namespace != "" && Ranks(s.index, query, namespace, ranking)
    ensures |ranking| == |Matching(last, query, namespace)|
    ensures forall id :: id in ranking <==> id in Matching(last, query, namespace)
  {
    assert s.index.Keys == last.Keys;
    DistinctSize(ranking);
    hide Agrees, DocOf;
    forall id ensures id in ranking <==> id in Matching(last, query, namespace) {
      if id in last { HitIsMatching(s, last, namespace, query, id); }
      assert id in s.index <==> id in last;
      assert id in ranking <==> IsHit(s.index, id, query, namespace);
    }
    assert (set id | id in ranking) == Matching(last, query, namespace);
  }

  /** From `from` on in the ranking, the results are the entities' last records. */
  ghost predicate Follows(results: seq<Analysis>, last: map<Uuid, Analysis>, ranking: seq<Uuid>, from: nat) {
    && from + |results| <= |ranking|
    && forall i :: 0 <= i < |results| ==> IsLastOf(results[i], last, ranking[from + i])
  }

  predicate IsLastOf(r: Analysis, last: map<Uuid, Analysis>, id: Uuid) { id in last && r == Normalised(last[id]) }

  lemma SliceAt(ranking: seq<Uuid>, offset: nat, limit: nat)
    ensures offset < |ranking| ==> offset + |Slice(ranking, offset, limit)| <= |ranking|
    ensures forall i :: 0 <= i < |Slice(ranking, offset, limit)| ==> Slice(ranking, offset, limit)[i] == ranking[offset + i]
  {
  }

  lemma {:induction false} RecordsAt(last: map<Uuid, Analysis>, ids: seq<Uuid>)
    requires forall id :: id in ids ==> id in last
    ensures |RecordsOf(last, ids)| == |ids|
    ensures forall i :: 0 <= i < |ids| ==> IsLastOf(RecordsOf(last, ids)[i], last, ids[i])
  {
    hide Normalised;
    if ids != [] { RecordsAt(last, ids[..|ids| - 1]); }
  }

  /** How many of `len` hits a request gets. */
  function Size(len: nat, offset: nat, limit: nat): nat {
    if offset >= len then 0 else if limit < len - offset then limit else len - offset
  }

  /** Result by result: the i-th one is the last record of the entity ranked at offset plus i,
    and there are as many as asked for or left. */
  lemma ResultAt(
      s: Stores, last: map<Uuid, Analysis>, namespace: string, query: Doc -> bool, ranking: seq<Uuid>, offset: nat, limit: nat)
    requires Agrees(s, last) && namespace != "" && Ranks(s.index, query, namespace, ranking)
    ensures var results := Answer(s.db, namespace, ranking, offset, limit);
            && |results| == (if offset >= |ranking| then 0 else if limit < |ranking| - offset then limit else |ranking| - offset)
            && forall i :: 0 <= i < |results| ==> offset + i < |ranking| && IsLastOf(results[i], last, ranking[offset + i])
  {
    hide Agrees, Hydrate, Ranks, RecordsOf, IsLastOf, Slice;
    SearchIsPaged(s, last, namespace, query, ranking, offset, limit);
    var page := Slice(ranking, offset, limit);
    RecordsAt(last, page);
    SliceAt(ranking, offset, limit);
    var results := Answer(s.db, namespace, ranking, offset, limit);
    forall i | 0 <= i < |results| ensures offset + i < |ranking| && IsLastOf(results[i], last, ranking[offset + i]) {
      assert IsLastOf(results[i], last, page[i]) && page[i] == ranking[offset + i];
    }
  }

  lemma ResultFollows(
      s: Stores, last: map<Uuid, Analysis>, namespace: string, query: Doc -> bool, ranking: seq<Uuid>, offset: nat, limit: nat)
    requires Agrees(s, last) && namespace != "" && Ranks(s.index, query, namespace, ranking) && offset <= |ranking|
    ensures var results := Answer(s.db, namespace, ranking, offset, limit);
            |results| == Size(|ranking|, offset, limit) && Follows(results, last, ranking, offset)
  {
    hide Agrees, Answer, Ranks, Normalised;
    ResultAt(s, last, namespace, query, ranking, offset, limit);
  }

  /** The results of the first `n` pages, one after the other. */
  function Pages(t: Table, namespace: string, ranking: seq<Uuid>, limit: nat, n: nat): seq<Analysis> {
    if n == 0 then []
    else Pages(t, namespace, ranking, limit, n - 1) + Answer(t, namespace, ranking, (n - 1) * limit, limit)
  }

  lemma FollowsOn(a: seq<Analysis>, b: seq<Analysis>, last: map<Uuid, Analysis>, ranking: seq<Uuid>)
    requires Follows(a, last, ranking, 0) && (b == [] || Follows(b, last, ranking, |a|))
    ensures Follows(a + b, last, ranking, 0)
  {
    hide IsLastOf;
    forall i | 0 <= i < |a + b| ensures IsLastOf((a + b)[i], last, ranking[0 + i]) {
      if i < |a| {
        assert IsLastOf(a[i], last, ranking[0 + i]);
      } else {
        assert IsLastOf(b[i - |a|], last, ranking[|a| + (i - |a|)]);
      }
    }
  }

  lemma PageStep(limit: nat, n: nat, len: nat)
    requires n > 0
    ensures (n - 1) * limit >= 0 && n * limit == (n - 1) * limit + limit
    ensures Min(n * limit, len) == Min((n - 1) * limit, len) + Size(len, (n - 1) * limit, limit)
  {
    assert n * limit == (n - 1) * limit + limit;
  }

  /** Paging through a search walks the ranking: the first `n` pages are the last records of
    the first `n * limit` entities of the ranking, in order. */
  lemma {:induction false} PagesWalkRanking(
      s: Stores, last: map<Uuid, Analysis>, namespace: string, query: Doc -> bool, ranking: seq<Uuid>, limit: nat, n: nat)
    requires Agrees(s, last) && namespace != "" && Ranks(s.index, query, namespace, ranking)
    ensures var results := Pages(s.db, namespace, ranking, limit, n);
            |results| == Min(n * limit, |ranking|) && Follows(results, last, ranking, 0)
  {
    hide Agrees, Answer, Ranks, IsLastOf, Size, Follows;
    if n == 0 {
      NothingFollows(last, ranking);
    } else {
      PageStep(limit, n, |ranking|);
      PagesWalkRanking(s, last, namespace, query, ranking, limit, n - 1);
      NextPage(s, last, namespace, query, ranking, (n - 1) * limit, limit);
      FollowsOn(Pages(s.db, namespace, ranking, limit, n - 1), Answer(s.db, namespace, ranking, (n - 1) * limit, limit), last, ranking);
    }
  }

  lemma NothingFollows(last: map<Uuid, Analysis>, ranking: seq<Uuid>)
    ensures Follows([], last, ranking, 0)
  {
  }

  lemma NextPage(
      s: Stores, last: map<Uuid, Analysis>, namespace: string, query: Doc -> bool, ranking: seq<Uuid>, offset: nat, limit: nat)
    requires Agrees(s, last) && namespace != "" && Ranks(s.index, query, namespace, ranking)
    ensures var results := Answer(s.db, namespace, ranking, offset, limit);
            && |results| == Size(|ranking|, offset, limit)
            && (results == [] || Follows(results, last, ranking, Min(offset, |ranking|)))
  {
    hide Agrees, Answer, Ranks, Normalised, Follows;
    if offset <= |ranking| {
      ResultFollows(s, last, namespace, query, ranking, offset, limit);
    } else {
      ResultAt(s, last, namespace, query, ranking, offset, limit);
    }
  }

  /** With a positive limit, enough pages are the records of all that matches, each entity
    exactly once and in the order of the ranking. */
  lemma PagesAreTheRanking(
      s: Stores, last: map<Uuid, Analysis>, namespace: string, query: Doc -> bool, ranking: seq<Uuid>, limit: nat, n: nat)
    requires Agrees(s, last) && namespace != "" && Ranks(s.index, query, namespace, ranking) && n * limit >= |ranking|
    ensures var results := Pages(s.db, namespace, ranking, limit, n);
            && |results| == |ranking|
            && (forall i :: 0 <= i < |ranking| ==> ranking[i] in last && results[i] == Normalised(last[ranking[i]]))
            && (forall i, j :: 0 <= i < j < |ranking| ==> ranking[i] != ranking[j])
            && (forall id :: id in ranking <==> id in last && last[id].namespace == namespace && query(DocOf(last[id])))
  {
    TotalIsMatching(s, last, namespace, query, ranking);
    assert forall i, j :: 0 <= i < j < |ranking| ==> ranking[i] != ranking[j];
    hide Agrees, Ranks, Normalised, Pages, DocOf;
    PagesWalkRanking(s, last, namespace, query, ranking, limit, n);
    var results := Pages(s.db, namespace, ranking, limit, n);
    forall i | 0 <= i < |ranking| ensures ranking[i] in last && results[i] == Normalised(last[ranking[i]]) {
      assert IsLastOf(results[i], last, ranking[0 + i]);
    }
  }
}
