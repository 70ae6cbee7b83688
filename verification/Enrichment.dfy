/** Merging specialist results into a stored analysis. */
module Enrichment {
  import opened Text
  import opened Badger
  import opened Analyses

  datatype Answer =
    | Score(score: real, tag: string)
    | AudioData(audioText: string)
    | DocumentData(title: string, author: string)
    | OtherAnswer

  /** One specialist's result: its metric, whether it failed, and what it answered. */
  datatype Metric = Metric(id: Option<string>, failed: bool, answer: Option<Answer>)

  datatype Segment = Segment(driveID: string, fileID: string, metrics: seq<Metric>)

  /** One turn of the merging loop. */
  function Merge(a: Analysis, m: Metric): Analysis {
    if m.failed || m.answer.None? then a
    else
      match m.answer.value
      case Score(score, tag) =>
        if m.id.None? then a
        else a.(scores := a.scores[m.id.value := score], tags := if tag != "" then a.tags + [tag] else a.tags)
      case AudioData(text) =>
        if a.payload.FileDetails? && !a.payload.boxed then a.(payload := a.payload.(content := text)) else a
      case DocumentData(title, author) =>
        a.(summary := if title != "" then title else a.summary,
           tags := if author != "" then a.tags + ["author:" + author] else a.tags)
      case OtherAnswer => a
  }

  function MergeAll(a: Analysis, ms: seq<Metric>): Analysis {
    if ms == [] then a else Merge(MergeAll(a, ms[..|ms| - 1]), ms[|ms| - 1])
  }

  datatype Outcome = Enriched | BadFileID | NotFetched(why: FetchResult)

  /** What `handleAnalysisSegment` does to the stores; `version` is the fresh identifier it draws. */
  function Handle(s: Stores, segment: Segment, version: Uuid): (Outcome, Stores) {
    if !IsUuid(segment.fileID) then (BadFileID, s)
    else
      match Fetch(s.db, segment.driveID, segment.fileID)
      case Found(a) => (Enriched, StoreOne(s, MergeAll(a, segment.metrics).(version := version)))
      case why => (NotFetched(why), s)
  }

  method HandleAnalysisSegment(repository: AnalysisRepository, segment: Segment, version: Uuid) returns (r: Outcome)
    modifies repository
    ensures (r, Stores(repository.db, repository.index)) == Handle(Stores(old(repository.db), old(repository.index)), segment, version)
  {
    if !IsUuid(segment.fileID) {
      return BadFileID;
    }
    var fetched := repository.FetchFullByEntityId(segment.driveID, segment.fileID);
    if !fetched.Found? {
      return NotFetched(fetched);
    }
    var analysis := fetched.analysis;
    for i := 0 to |segment.metrics|
      invariant analysis == MergeAll(fetched.analysis, segment.metrics[..i])
    {
      assert segment.metrics[..i + 1][..i] == segment.metrics[..i];
      var result := segment.metrics[i];
      if result.failed || result.answer.None? {
        continue;
      }
      match result.answer.value {
        case Score(score, tag) =>
          if result.id.Some? {
            analysis := analysis.(scores := analysis.scores[result.id.value := score]);
            if tag != "" {
              analysis := analysis.(tags := analysis.tags + [tag]);
            }
          }
        case AudioData(text) =>
          if analysis.payload.FileDetails? && !analysis.payload.boxed {
            analysis := analysis.(payload := analysis.payload.(content := text));
          }
        case DocumentData(title, author) =>
          if title != "" {
            analysis := analysis.(summary := title);
          }
          if author != "" {
            analysis := analysis.(tags := analysis.tags + ["author:" + author]);
          }
        case OtherAnswer =>
      }
    }
    assert segment.metrics[..|segment.metrics|] == segment.metrics;
    analysis := analysis.(version := version);
    repository.Store(analysis);
    return Enriched;
  }

  /** Merging only adds: identity, place and time stay, tags grow at the end, no score is lost. */
  lemma {:induction false} MergingOnlyAdds(a: Analysis, ms: seq<Metric>)
    ensures var r := MergeAll(a, ms);
            && r.id == a.id && r.entityId == a.entityId && r.namespace == a.namespace && r.at == a.at
            && a.tags <= r.tags && a.scores.Keys <= r.scores.Keys
            && (forall k :: k in a.scores && r.scores[k] != a.scores[k] ==> exists m :: m in ms && m.id == Some(k))
  {
    if ms != [] {
      var n := |ms| - 1;
      MergingOnlyAdds(a, ms[..n]);
      assert ms == ms[..n] + [ms[n]] && ms[n] in ms;
    }
  }

  /** A result that brings a title, and one that brings an audio text. */
  predicate GivesTitle(m: Metric) {
    !m.failed && m.answer.Some? && m.answer.value.DocumentData? && m.answer.value.title != ""
  }

  predicate GivesText(m: Metric) { !m.failed && m.answer.Some? && m.answer.value.AudioData? }

  predicate NoTitles(ms: seq<Metric>) { forall i :: 0 <= i < |ms| ==> !GivesTitle(ms[i]) }

  predicate NoTexts(ms: seq<Metric>) { forall i :: 0 <= i < |ms| ==> !GivesText(ms[i]) }

  lemma {:induction false} MergeInTurn(a: Analysis, ms: seq<Metric>, more: seq<Metric>)
    ensures MergeAll(a, ms + more) == MergeAll(MergeAll(a, ms), more)
  {
    hide Merge;
    if more == [] {
      assert ms + more == ms;
    } else {
      var n := |more| - 1;
      assert (ms + more)[..|ms| + n] == ms + more[..n];
      MergeInTurn(a, ms, more[..n]);
    }
  }

  lemma {:induction false} NoTitleKeepsSummary(a: Analysis, ms: seq<Metric>)
    requires NoTitles(ms)
    ensures MergeAll(a, ms).summary == a.summary
  {
    if ms != [] { NoTitleKeepsSummary(a, ms[..|ms| - 1]); }
  }

  lemma MergeOne(a: Analysis, m: Metric)
    ensures MergeAll(a, [m]) == Merge(a, m)
  {
    hide Merge;
    assert [m][..0] == [];
    assert MergeAll(a, [m][..0]) == a;
  }

  /** The last title becomes the summary; without any the summary stays. */
  lemma LastTitleWins(a: Analysis, before: seq<Metric>, m: Metric, later: seq<Metric>)
    requires GivesTitle(m) && NoTitles(later)
    ensures MergeAll(a, before + [m] + later).summary == m.answer.value.title
  {
    MergeInTurn(a, before + [m], later);
    MergeInTurn(a, before, [m]);
    MergeOne(MergeAll(a, before), m);
    NoTitleKeepsSummary(MergeAll(a, before + [m]), later);
  }

  /** A result that brings a tag: a score with a metric and a tag, or a document's author. */
  predicate GivesTag(m: Metric, tag: string) {
    && !m.failed && m.answer.Some? && match m.answer.value
       case Score(_, t) => m.id.Some? && t != "" && tag == t
       case DocumentData(_, author) => author != "" && tag == "author:" + author
       case _ => false
  }

  predicate SomeGivesTag(ms: seq<Metric>, tag: string) { exists i :: 0 <= i < |ms| && GivesTag(ms[i], tag) }

  lemma MergeTag(a: Analysis, m: Metric, tag: string)
    ensures tag in Merge(a, m).tags <==> tag in a.tags || GivesTag(m, tag)
  {
  }

  /** The tags are the old ones and those the results bring. */
  lemma {:induction false} TagsAreGiven(a: Analysis, ms: seq<Metric>, tag: string)
    ensures tag in MergeAll(a, ms).tags <==> tag in a.tags || SomeGivesTag(ms, tag)
  {
    if ms != [] {
      hide Merge, GivesTag;
      var n := |ms| - 1;
      TagsAreGiven(a, ms[..n], tag);
      MergeTag(MergeAll(a, ms[..n]), ms[n], tag);
      if SomeGivesTag(ms[..n], tag) {
        var i :| 0 <= i < n && GivesTag(ms[..n][i], tag);
        assert GivesTag(ms[i], tag);
      }
      if SomeGivesTag(ms, tag) {
        var i :| 0 <= i < |ms| && GivesTag(ms[i], tag);
        assert i < n ==> GivesTag(ms[..n][i], tag);
      }
    }
  }

  /** A result that scores a metric. */
  predicate Rates(m: Metric, metric: string) { !m.failed && m.answer.Some? && m.answer.value.Score? && m.id == Some(metric) }

  predicate NoRating(ms: seq<Metric>, metric: string) { forall i :: 0 <= i < |ms| ==> !Rates(ms[i], metric) }

  lemma {:induction false} NoRatingKeepsScore(a: Analysis, ms: seq<Metric>, metric: string)
    requires NoRating(ms, metric)
    ensures metric in MergeAll(a, ms).scores <==> metric in a.scores
    ensures metric in a.scores ==> MergeAll(a, ms).scores[metric] == a.scores[metric]
  {
    if ms != [] {
      NoRatingKeepsScore(a, ms[..|ms| - 1], metric);
      assert !Rates(ms[|ms| - 1], metric);
    }
  }

  /** The last score of a metric is the one that stays. */
  lemma LastScoreWins(a: Analysis, before: seq<Metric>, m: Metric, later: seq<Metric>, metric: string)
    requires Rates(m, metric) && NoRating(later, metric)
    ensures var scores := MergeAll(a, before + [m] + later).scores;
            metric in scores && scores[metric] == m.answer.value.score
  {
    MergeInTurn(a, before + [m], later);
    MergeInTurn(a, before, [m]);
    MergeOne(MergeAll(a, before), m);
    NoRatingKeepsScore(MergeAll(a, before + [m]), later, metric);
  }

  /** A file payload by value, the kind that audio texts go into. */
  predicate TakesText(a: Analysis) { a.payload.FileDetails? && !a.payload.boxed }

  /** Nothing but an audio text changes a payload, and only that of a file. */
  lemma {:induction false} NoTextKeepsPayload(a: Analysis, ms: seq<Metric>)
    requires NoTexts(ms) || !TakesText(a)
    ensures MergeAll(a, ms).payload == a.payload
  {
    if ms != [] { NoTextKeepsPayload(a, ms[..|ms| - 1]); }
  }

  /** Whatever the results, a file payload keeps its name, type and size. */
  lemma {:induction false} FileStaysFile(a: Analysis, ms: seq<Metric>)
    requires TakesText(a)
    ensures TakesText(MergeAll(a, ms))
    ensures var p := MergeAll(a, ms).payload;
            p.filename == a.payload.filename && p.mimeType == a.payload.mimeType && p.size == a.payload.size
  {
    if ms != [] { FileStaysFile(a, ms[..|ms| - 1]); }
  }

  /** The last audio text becomes the content of a file payload, whose other fields stay. */
  lemma LastTextWins(a: Analysis, before: seq<Metric>, m: Metric, later: seq<Metric>)
    requires TakesText(a) && GivesText(m) && NoTexts(later)
    ensures MergeAll(a, before + [m] + later).payload ==
      FileDetails(false, a.payload.filename, a.payload.mimeType, a.payload.size, m.answer.value.audioText)
  {
    MergeInTurn(a, before + [m], later);
    MergeInTurn(a, before, [m]);
    MergeOne(MergeAll(a, before), m);
    FileStaysFile(a, before);
    NoTextKeepsPayload(MergeAll(a, before + [m]), later);
  }

  /** Enrichment succeeds exactly when the drive it names is the namespace the entity's last
    record is stored under. It then rewrites that record in place: the keys and the
    pointer stay, only this entity's entries change, and the record only gains. */
  lemma EnrichmentIsInPlace(s: Stores, last: map<Uuid, Analysis>, segment: Segment, version: Uuid)
    requires Agrees(s, last)
    ensures var (r, s') := Handle(s, segment, version);
            && (r.Enriched? <==> IsUuid(segment.fileID) && segment.fileID in last && last[segment.fileID].namespace == segment.driveID)
            && (!r.Enriched? ==> s' == s)
            && (r.Enriched? ==>
                  var id: Uuid := segment.fileID;
                  var before, after := Normalised(last[id]), MergeAll(Normalised(last[id]), segment.metrics);
                  && Agrees(s', last[id := after.(version := version)])
                  && before.tags <= after.tags && before.scores.Keys <= after.scores.Keys
                  && Keys(s'.db) == Keys(s.db)
                  && Get(s'.db, IndexKey(id)) == Get(s.db, IndexKey(id))
                  && (forall q :: q != MainKey(last[id]) ==> Get(s'.db, q) == Get(s.db, q))
                  && (forall other :: other != id && other in s.index ==> other in s'.index && s'.index[other] == s.index[other]))
  {
    hide Agrees, Keys, Get, MainKey, IndexKey, StoreOne, MergeAll, Fetch, Normalised, IsUuid;
    if IsUuid(segment.fileID) {
      var id: Uuid := segment.fileID;
      FetchIsLastRecord(s, last, segment.driveID, id);
      if id in last && last[id].namespace == segment.driveID {
        var before := Normalised(last[id]);
        MergingOnlyAdds(before, segment.metrics);
        NormalisedPlace(s, last, id);
        var after := MergeAll(before, segment.metrics).(version := version);
        RewriteInPlace(s, last, after);
      }
    }
  }

  lemma NormalisedPlace(s: Stores, last: map<Uuid, Analysis>, id: Uuid)
    requires Agrees(s, last) && id in last
    ensures var n := Normalised(last[id]);
            n.entityId == id && n.namespace == last[id].namespace && n.at == last[id].at
  {
    AgreesAt(s, last, id);
  }

  /** Storing a record with the entity, namespace and time of the last one adds no key. */
  lemma RewriteInPlace(s: Stores, last: map<Uuid, Analysis>, a: Analysis)
    requires Agrees(s, last) && a.entityId in last
    requires a.namespace == last[a.entityId].namespace && a.at == last[a.entityId].at
    ensures var s' := StoreOne(s, a);
            && Agrees(s', last[a.entityId := a])
            && Keys(s'.db) == Keys(s.db)
            && Get(s'.db, IndexKey(a.entityId)) == Get(s.db, IndexKey(a.entityId))
            && (forall q :: q != MainKey(last[a.entityId]) ==> Get(s'.db, q) == Get(s.db, q))
            && (forall other :: other != a.entityId && other in s.index ==> other in s'.index && s'.index[other] == s.index[other])
  {
    hide Less, Sorted, Put, Get, MainKey, IndexKey, FromAnalysis, DocOf, PutBoth, Agrees;
    var s', was, id := StoreOne(s, a), last[a.entityId], a.entityId;
    AgreesAt(s, last, id);
    SamePlace(a, was);
    StoreKeepsAgreement(s, last, a);
    AgreesAt(s', last[id := a], id);
    KeysStay(s.db, a);
    forall q | q != MainKey(was) ensures Get(s'.db, q) == Get(s.db, q) {
      if q != IndexKey(id) { UntouchedBy(s.db, a, q); }
    }
  }

  lemma AgreesAt(s: Stores, last: map<Uuid, Analysis>, id: Uuid)
    requires Agrees(s, last) && id in last
    ensures Sorted(s.db) && Represents(s, id, last[id])
  {
  }

  lemma SamePlace(a: Analysis, b: Analysis)
    requires a.namespace == b.namespace && a.at == b.at && a.entityId == b.entityId
    ensures MainKey(a) == MainKey(b)
  {
  }

  lemma KeysStay(t: Table, a: Analysis)
    requires Sorted(t) && Get(t, MainKey(a)).Some? && Get(t, IndexKey(a.entityId)).Some?
    ensures Keys(PutBoth(t, a)) == Keys(t)
  {
    hide Less, Put, Get, MainKey, IndexKey, FromAnalysis;
    var k, v := MainKey(a), Record(FromAnalysis(a));
    PutSorted(t, k, v);
    PutSorted(Put(t, k, v), IndexKey(a.entityId), Pointer(k));
    GetIsMembership(t, k, v);
    GetIsMembership(t, IndexKey(a.entityId), v);
  }
}
