/** Enrichment is two transactions, a fetch and a store, with no lock around them: what
  becomes of two enrichments that overlap. */
module EnrichmentRace {
  import opened Text
  import opened Analyses
  import opened Enrichment

  /** The first transaction and the merging: what the worker is about to store. */
  function Begin(s: Stores, segment: Segment, version: Uuid): Option<Analysis> {
    if !IsUuid(segment.fileID) then None
    else
      match Fetch(s.db, segment.driveID, segment.fileID)
      case Found(a) => Some(MergeAll(a, segment.metrics).(version := version))
      case _ => None
  }

  /** The second transaction. */
  function Commit(s: Stores, held: Option<Analysis>): Stores {
    match held
    case None => s
    case Some(a) => StoreOne(s, a)
  }

  /** Both workers fetch before either stores. */
  function Overlapped(s: Stores, one: Segment, two: Segment, v: Uuid, w: Uuid): Stores {
    Commit(Commit(s, Begin(s, one, v)), Begin(s, two, w))
  }

  /** The second worker fetches what the first has stored. */
  function Sequential(s: Stores, one: Segment, two: Segment, v: Uuid, w: Uuid): Stores {
    Handle(Handle(s, one, v).1, two, w).1
  }

  lemma HandleIsBoth(s: Stores, segment: Segment, version: Uuid)
    ensures Handle(s, segment, version).1 == Commit(s, Begin(s, segment, version))
  {
    hide Fetch, MergeAll, StoreOne;
  }

  /** A worker holds the merge of the last record, or nothing. */
  lemma BeginMeans(s: Stores, last: map<Uuid, Analysis>, segment: Segment, version: Uuid)
    requires Agrees(s, last)
    ensures Begin(s, segment, version) ==
      if IsUuid(segment.fileID) && segment.fileID in last && last[segment.fileID].namespace == segment.driveID
      then Some(MergeAll(Normalised(last[segment.fileID]), segment.metrics).(version := version))
      else None
  {
    hide Fetch, MergeAll, Agrees;
    if IsUuid(segment.fileID) { FetchIsLastRecord(s, last, segment.driveID, segment.fileID); }
  }

  lemma HeldEntity(a: Analysis, segment: Segment, version: Uuid)
    ensures MergeAll(a, segment.metrics).(version := version).entityId == a.entityId
  {
    MergingOnlyAdds(a, segment.metrics);
  }

  lemma EntityOfLast(s: Stores, last: map<Uuid, Analysis>, id: Uuid)
    requires Agrees(s, last) && id in last
    ensures Normalised(last[id]).entityId == id
  {
    assert Represents(s, id, last[id]);
  }

  /** Overlapping enrichments of different entities are as good as sequential ones. */
  lemma OtherEntityIsSafe(s: Stores, last: map<Uuid, Analysis>, one: Segment, two: Segment, v: Uuid, w: Uuid)
    requires Agrees(s, last) && one.fileID != two.fileID
    ensures Overlapped(s, one, two, v, w) == Sequential(s, one, two, v, w)
  {
    hide MergeAll, Agrees, Fetch, StoreOne, Normalised, Handle, IsUuid;
    HandleIsBoth(s, one, v);
    HandleIsBoth(Handle(s, one, v).1, two, w);
    BeginMeans(s, last, one, v);
    BeginMeans(s, last, two, w);
    var held := Begin(s, one, v);
    if held.Some? {
      var id: Uuid := one.fileID;
      EntityOfLast(s, last, id);
      HeldEntity(Normalised(last[id]), one, v);
      StoreKeepsAgreement(s, last, held.value);
      BeginMeans(StoreOne(s, held.value), last[id := held.value], two, w);
    }
  }

  // ------------------------------------------------------- one entity

  /** What merging adds, read off the results alone. */
  function TagsOf(ms: seq<Metric>): seq<string> {
    if ms == [] then [] else TagsOf(ms[..|ms| - 1]) + TagsIn(ms[|ms| - 1])
  }

  function TagsIn(m: Metric): seq<string> {
    if m.failed || m.answer.None? then []
    else
      match m.answer.value
      case Score(_, tag) => if m.id.Some? && tag != "" then [tag] else []
      case AudioData(_) => []
      case DocumentData(_, author) => if author != "" then ["author:" + author] else []
      case OtherAnswer => []
  }

  function ScoresOf(ms: seq<Metric>): map<string, real> {
    if ms == [] then map[] else ScoresOf(ms[..|ms| - 1]) + ScoresIn(ms[|ms| - 1])
  }

  function ScoresIn(m: Metric): map<string, real> {
    if !m.failed && m.answer.Some? && m.answer.value.Score? && m.id.Some? then map[m.id.value := m.answer.value.score] else map[]
  }

  lemma MergeAddsOne(a: Analysis, m: Metric)
    ensures Merge(a, m).tags == a.tags + TagsIn(m) && Merge(a, m).scores == a.scores + ScoresIn(m)
  {
    assert a.tags + [] == a.tags && a.scores + map[] == a.scores;
  }

  lemma {:induction false} MergeAdds(a: Analysis, ms: seq<Metric>)
    ensures MergeAll(a, ms).tags == a.tags + TagsOf(ms) && MergeAll(a, ms).scores == a.scores + ScoresOf(ms)
  {
    if ms == [] {
      assert a.tags + [] == a.tags && a.scores + map[] == a.scores;
    } else {
      hide Merge, TagsIn, ScoresIn;
      var n := |ms| - 1;
      MergeAdds(a, ms[..n]);
      MergeAddsOne(MergeAll(a, ms[..n]), ms[n]);
      Regroup(a.tags, TagsOf(ms[..n]), TagsIn(ms[n]), a.scores, ScoresOf(ms[..n]), ScoresIn(ms[n]));
    }
  }

  lemma Regroup(a: seq<string>, b: seq<string>, c: seq<string>, x: map<string, real>, y: map<string, real>, z: map<string, real>)
    ensures a + b + c == a + (b + c) && x + y + z == x + (y + z)
  {
  }

  /** Every score of the first is overwritten by the second or was there before. */
  predicate Redundant(base: map<string, real>, first: map<string, real>, second: map<string, real>) {
    forall k :: k in first ==> k in second || (k in base && base[k] == first[k])
  }

  lemma RedundantMeans(base: map<string, real>, first: map<string, real>, second: map<string, real>)
    ensures base + second == base + first + second <==> Redundant(base, first, second)
  {
    if base + second == base + first + second {
      forall k | k in first ensures k in second || (k in base && base[k] == first[k]) {
        if k !in second { assert k in base + first + second && (base + first + second)[k] == first[k]; }
      }
    }
  }

  /** Both workers enrich the last record of this entity. */
  predicate SameRecord(last: map<Uuid, Analysis>, one: Segment, two: Segment, id: Uuid) {
    one.fileID == two.fileID == id && id in last && last[id].namespace == one.driveID == two.driveID
  }

  lemma NormalisedKeeps(a: Analysis)
    ensures var n := Normalised(a);
            n.tags == a.tags && n.scores == a.scores && n.entityId == a.entityId && n.namespace == a.namespace
  {
  }

  /** What a worker that enriches the last record is about to store. */
  lemma HeldFacts(s: Stores, last: map<Uuid, Analysis>, segment: Segment, v: Uuid, id: Uuid) returns (b: Analysis)
    requires Agrees(s, last) && segment.fileID == id && id in last && last[id].namespace == segment.driveID
    ensures b.tags == last[id].tags + TagsOf(segment.metrics) && b.scores == last[id].scores + ScoresOf(segment.metrics)
    ensures b.namespace == segment.driveID && b.entityId == id && Begin(s, segment, v) == Some(b)
  {
    var a := Normalised(last[id]);
    b := MergeAll(a, segment.metrics).(version := v);
    EntityOfLast(s, last, id);
    MergingOnlyAdds(a, segment.metrics);
    MergeAdds(a, segment.metrics);
    NormalisedKeeps(last[id]);
    hide MergeAll, Agrees, Normalised, TagsOf, ScoresOf;
    BeginMeans(s, last, segment, v);
  }

  /** The record the second worker leaves when both fetched first. */
  lemma OverlapOutcome(s: Stores, last: map<Uuid, Analysis>, one: Segment, two: Segment, v: Uuid, w: Uuid, id: Uuid)
    requires Agrees(s, last) && SameRecord(last, one, two, id)
    ensures var x := Fetch(Overlapped(s, one, two, v, w).db, one.driveID, id);
            && x.Found? && x.analysis.tags == last[id].tags + TagsOf(two.metrics)
            && x.analysis.scores == last[id].scores + ScoresOf(two.metrics)
  {
    hide Agrees, Fetch, StoreOne, Normalised, TagsOf, ScoresOf, Begin;
    var b := HeldFacts(s, last, one, v, id);
    var x := HeldFacts(s, last, two, w, id);
    StoreKeepsAgreement(s, last, b);
    StoreKeepsAgreement(StoreOne(s, b), last[id := b], x);
    FetchIsLastRecord(StoreOne(StoreOne(s, b), x), last[id := b][id := x], one.driveID, id);
    NormalisedKeeps(x);
  }

  lemma OnlyOne(s: Stores, last: map<Uuid, Analysis>, segment: Segment, v: Uuid, id: Uuid) returns (b: Analysis)
    requires Agrees(s, last) && segment.fileID == id && id in last && last[id].namespace == segment.driveID
    ensures b.tags == last[id].tags + TagsOf(segment.metrics) && b.scores == last[id].scores + ScoresOf(segment.metrics)
    ensures b.namespace == segment.driveID && b.entityId == id
    ensures Agrees(Handle(s, segment, v).1, last[id := b])
  {
    hide Agrees, StoreOne, TagsOf, ScoresOf, Handle, Begin;
    b := HeldFacts(s, last, segment, v, id);
    HandleIsBoth(s, segment, v);
    StoreKeepsAgreement(s, last, b);
  }

  lemma SequentialOutcome(s: Stores, last: map<Uuid, Analysis>, one: Segment, two: Segment, v: Uuid, w: Uuid, id: Uuid)
    requires Agrees(s, last) && SameRecord(last, one, two, id)
    ensures var y := Fetch(Sequential(s, one, two, v, w).db, one.driveID, id);
            && y.Found? && y.analysis.tags == last[id].tags + TagsOf(one.metrics) + TagsOf(two.metrics)
            && y.analysis.scores == last[id].scores + ScoresOf(one.metrics) + ScoresOf(two.metrics)
  {
    hide Agrees, Fetch, Normalised, TagsOf, ScoresOf, Handle;
    var b := OnlyOne(s, last, one, v, id);
    var s1 := Handle(s, one, v).1;
    var z := OnlyOne(s1, last[id := b], two, w, id);
    FetchIsLastRecord(Handle(s1, two, w).1, last[id := b][id := z], one.driveID, id);
    NormalisedKeeps(z);
  }

  /** Overlapping enrichments of one entity lose the first one's tags whenever it has any, and
    its scores exactly when they are not redundant. */
  lemma OverlapLosesIff(s: Stores, last: map<Uuid, Analysis>, one: Segment, two: Segment, v: Uuid, w: Uuid, id: Uuid)
    requires Agrees(s, last) && SameRecord(last, one, two, id)
    ensures var x, y := Fetch(Overlapped(s, one, two, v, w).db, one.driveID, id), Fetch(Sequential(s, one, two, v, w).db, one.driveID, id);
            && x.Found? && y.Found?
            && (x.analysis.tags == y.analysis.tags <==> TagsOf(one.metrics) == [])
            && (x.analysis.scores == y.analysis.scores <==>
                  Redundant(last[id].scores, ScoresOf(one.metrics), ScoresOf(two.metrics)))
  {
    hide Agrees, Fetch, Overlapped, Sequential, TagsOf, ScoresOf, Redundant;
    OverlapOutcome(s, last, one, two, v, w, id);
    SequentialOutcome(s, last, one, two, v, w, id);
    RedundantMeans(last[id].scores, ScoresOf(one.metrics), ScoresOf(two.metrics));
    SameTags(last[id].tags, TagsOf(one.metrics), TagsOf(two.metrics));
  }

  lemma SameTags(a: seq<string>, b: seq<string>, c: seq<string>)
    ensures a + c == a + b + c <==> b == []
  {
    assert |a + c| == |a| + |c| && |a + b + c| == |a| + |b| + |c|;
    if b == [] { assert a + b == a; }
  }
}
