/** Scanning one namespace: what the pages add up to, when the cursor is nil, and
  which records of other namespaces a scan can run into. */
module AnalysisScan {
  import opened Text
  import opened Badger
  import opened Paging
  import opened Analyses

  /** Every entry under `analysis:` holds a record, under that record's own key. */
  ghost predicate WellFormed(t: Table) {
    Sorted(t) && forall e :: e in t && "analysis:" <= e.key ==> HoldsRecord(e)
  }

  predicate HoldsRecord(e: Entry<Value>) {
    && Decode(e.value).Some?
    && Decode(e.value).value.at >= 0
    && e.key == MainKey(Decode(e.value).value)
  }

  lemma StoreKeepsWellFormed(t: Table, a: Analysis)
    requires WellFormed(t) && a.at >= 0
    ensures WellFormed(PutBoth(t, a)) && Keys(t) <= Keys(PutBoth(t, a))
  {
    hide Less, Put, HoldsRecord;
    var k, v, i, p := MainKey(a), Record(FromAnalysis(a)), IndexKey(a.entityId), Pointer(MainKey(a));
    OwnEntryHolds(a);
    assert i[0] == 'i' && "analysis:"[0] == 'a';
    hide MainKey, IndexKey, FromAnalysis;
    PutSorted(t, k, v);
    PutSorted(Put(t, k, v), i, p);
  }

  lemma OwnEntryHolds(a: Analysis)
    requires a.at >= 0
    ensures HoldsRecord(Entry(MainKey(a), Record(FromAnalysis(a))))
  {
    hide Stamp;
    StorageRoundTrip(a);
  }

  // ------------------------------------------------------------ the cursor

  /** The cursor is nil exactly when nothing is left to read, for every limit of at
    least one; with a smaller limit the page is empty and the cursor nil regardless. */
  lemma CursorNilMeansDone(t: Table, prefix: string, cursor: Option<string>, budget: Option<nat>)
    requires Sorted(t) && Issued(t, prefix, cursor)
    ensures NextCursor(t, prefix, cursor, budget).None?
        <==> (budget == Some(0)
              || forall k :: Eligible(t, prefix, CursorBound(prefix, cursor), k) ==> k in PageKeys(t, prefix, cursor, budget))
  {
    hide Less, Rank;
    var b := CursorBound(prefix, cursor);
    var hi := Start(t, prefix, cursor);
    var lo := Stop(t, prefix, hi, budget);
    var page := PageKeys(t, prefix, cursor, budget);
    StartIsBound(t, prefix, cursor);
    if lo >= 0 && prefix <= t[lo].key {
      assert t[lo] in t;
      assert Eligible(t, prefix, b, t[lo].key);
      assert t[lo].key !in page by {
        forall n | 0 <= n < |page| ensures page[n] != t[lo].key { LessIsStrict(t[lo].key, page[n]); }
      }
    } else {
      ScanIsPage(t, prefix, b, hi, lo, true);
    }
  }

  // ---------------------------------------------------------------- paging

  /** The keys a caller sees who follows cursors until one is nil; page `i` is read from `ts[i]`. */
  function ScanAll(ts: seq<Table>, prefix: string, cursor: Option<string>, budget: Option<nat>): seq<seq<string>> {
    if ts == [] then []
    else
      var next := NextCursor(ts[0], prefix, cursor, budget);
      [PageKeys(ts[0], prefix, cursor, budget)] + (if next.None? then [] else ScanAll(ts[1..], prefix, next, budget))
  }

  /** The caller was handed a nil cursor. */
  predicate Completed(ts: seq<Table>, prefix: string, cursor: Option<string>, budget: Option<nat>) {
    && ts != []
    && var next := NextCursor(ts[0], prefix, cursor, budget);
       next.None? || Completed(ts[1..], prefix, next, budget)
  }

  ghost predicate History(ts: seq<Table>) {
    && (forall i :: 0 <= i < |ts| ==> Sorted(ts[i]))
    && (forall i, j :: 0 <= i < j < |ts| ==> Keys(ts[i]) <= Keys(ts[j]))
  }

  /** The pages list keys of the prefix in strictly descending order, so none twice,
    and a completed scan has listed every key present when it began, whatever was
    stored meanwhile. */
  lemma {:induction false} ScanIsExact(ts: seq<Table>, prefix: string, cursor: Option<string>, budget: Option<nat>)
    requires ts != [] && History(ts) && Issued(ts[0], prefix, cursor) && budget != Some(0)
    ensures var keys := Flatten(ScanAll(ts, prefix, cursor, budget));
            && StrictlyDescending(keys)
            && (forall k :: k in keys ==> prefix <= k && Within(k, CursorBound(prefix, cursor)) && k in Keys(ts[|ts| - 1]))
            && (Completed(ts, prefix, cursor, budget) ==>
                  forall k :: Eligible(ts[0], prefix, CursorBound(prefix, cursor), k) ==> k in keys)
  {
    hide Less, PageKeys, HasMore;
    var b, page := CursorBound(prefix, cursor), PageKeys(ts[0], prefix, cursor, budget);
    var next := NextCursor(ts[0], prefix, cursor, budget);
    var pages := ScanAll(ts, prefix, cursor, budget);
    PageIsExact(ts[0], prefix, cursor, budget);
    CursorNilMeansDone(ts[0], prefix, cursor, budget);
    if next.None? {
      assert pages == [page] && pages[1..] == [];
    } else {
      var rest := ScanAll(ts[1..], prefix, next, budget);
      assert pages == [page] + rest && pages[1..] == rest;
      var end := LastOf(page);
      assert end in page && prefix <= end && prefix + next.value == end;
      if |ts| > 1 {
        assert end in Keys(ts[1]);
        ScanIsExact(ts[1..], prefix, next, budget);
        ExtendPage(ts[0], ts[1], prefix, b, page, Flatten(rest));
      } else {
        assert rest == [] && !Completed(ts[1..], prefix, next, budget);
      }
    }
  }

  /** A page after which there is more is full. */
  lemma MoreMeansFull(t: Table, prefix: string, cursor: Option<string>, n: nat)
    requires NextCursor(t, prefix, cursor, Some(n)).Some?
    ensures |PageKeys(t, prefix, cursor, Some(n))| == n
  {
  }

  lemma {:induction false} UnfinishedIsFull(ts: seq<Table>, prefix: string, cursor: Option<string>, n: nat)
    requires !Completed(ts, prefix, cursor, Some(n))
    ensures |Flatten(ScanAll(ts, prefix, cursor, Some(n)))| == |ts| * n
  {
    hide PageKeys, NextCursor;
    if ts != [] {
      var page, next := PageKeys(ts[0], prefix, cursor, Some(n)), NextCursor(ts[0], prefix, cursor, Some(n));
      MoreMeansFull(ts[0], prefix, cursor, n);
      UnfinishedIsFull(ts[1..], prefix, next, n);
      var pages := ScanAll(ts, prefix, cursor, Some(n));
      assert pages[0] == page && pages[1..] == ScanAll(ts[1..], prefix, next, Some(n));
      assert |ts| * n == n + |ts[1..]| * n;
    }
  }

  /** The nil cursor comes: full pages cannot add up to more keys than are stored, and without
    a limit the first page is all. */
  lemma NilCursorComes(ts: seq<Table>, prefix: string, cursor: Option<string>, budget: Option<nat>)
    requires ts != [] && History(ts) && Issued(ts[0], prefix, cursor) && budget != Some(0)
    requires budget.Some? ==> |ts| * budget.value > |ts[|ts| - 1]|
    ensures Completed(ts, prefix, cursor, budget)
  {
    if budget.Some? {
      hide History, Issued, ScanAll, Completed;
      ScanIsExact(ts, prefix, cursor, budget);
      StoredKeysFit(ts[|ts| - 1], Flatten(ScanAll(ts, prefix, cursor, budget)));
      if !Completed(ts, prefix, cursor, budget) { UnfinishedIsFull(ts, prefix, cursor, budget.value); }
    }
  }

  /** With a limit of at least one, a page holds that many keys or all that are left. */
  lemma PageSize(t: Table, prefix: string, cursor: Option<string>, limit: int)
    requires Sorted(t) && Issued(t, prefix, cursor) && limit >= 1
    ensures var keys := PageKeys(t, prefix, cursor, Budget(Some(limit)));
            && |keys| <= limit
            && (|keys| == limit || forall k :: Eligible(t, prefix, CursorBound(prefix, cursor), k) ==> k in keys)
  {
    hide Less, Rank, Start, Stop;
    PageIsExact(t, prefix, cursor, Budget(Some(limit)));
    PageFits(t, prefix, cursor, limit);
  }

  lemma PageFits(t: Table, prefix: string, cursor: Option<string>, n: nat)
    ensures |PageKeys(t, prefix, cursor, Some(n))| <= n
  {
  }

  // ------------------------------------------------------------- isolation

  /** Records of another namespace whose key begins with this namespace's prefix: its
    name continues ours after a colon, or ours is its name and one of its timestamps. */
  predicate Collides(namespace: string, a: Analysis) {
    && a.namespace != namespace
    && (namespace + ":" <= a.namespace || namespace == a.namespace + ":" + Format019(a.at))
  }

  /** The prefix of a namespace matches its own records, those that collide, and no others. */
  lemma PrefixMatches(namespace: string, a: Analysis)
    ensures RoomPrefix(namespace) <= MainKey(a) <==> a.namespace == namespace || Collides(namespace, a)
  {
    var p, k := RoomPrefix(namespace), MainKey(a);
    var y := Stamp(a.at, a.entityId);
    assert p[9..] == namespace + ":" && k[9..] == a.namespace + ":" + y;
    assert p[..9] == k[..9];
    hide Stamp, Format019, RoomPrefix, MainKey, Collides;
    CollidesMeans(namespace, a);
    DropCommon(p, k, 9);
    NamespaceMatches(namespace, a.namespace, a.at, a.entityId);
  }

  lemma CollidesMeans(ns: string, a: Analysis)
    ensures a.namespace == ns || Collides(ns, a) <==>
      ns == a.namespace || ns + ":" <= a.namespace || ns == a.namespace + ":" + Format019(a.at)
  {
  }

  lemma DropCommon(p: string, k: string, n: nat)
    requires n <= |p| && n <= |k| && p[..n] == k[..n]
    ensures p <= k <==> p[n..] <= k[n..]
  {
    assert p == p[..n] + p[n..] && k == k[..n] + k[n..];
  }

  lemma NamespaceMatches(ns: string, other: string, at: Nanos, id: Uuid)
    ensures ns + ":" <= other + ":" + Stamp(at, id)
        <==> ns == other || ns + ":" <= other || ns == other + ":" + Format019(at)
  {
    var f := Format019(at);
    var x, k := ns + ":", other + ":" + Stamp(at, id);
    assert k == other + ":" + f + ":" + id;
    if ns == other + ":" + f {
      assert x == k[..|x|];
    }
    if x <= k {
      if |ns| < |other| {
        assert x == k[..|x|] == other[..|x|];
      } else if |ns| == |other| {
        assert ns == k[..|ns|] == other;
      } else {
        assert x[|ns|] == ':' && k[|ns|] == x[|ns|] && k[|ns|] == Stamp(at, id)[|ns| - |other| - 1];
        OneColon(at, id, |ns| - |other| - 1);
        assert ns == k[..|ns|] == other + ":" + f;
      }
    }
  }

  /** A stamp has its only colon between the time and the identifier. */
  lemma OneColon(at: Nanos, id: Uuid, n: nat)
    requires n < |Stamp(at, id)| && Stamp(at, id)[n] == ':'
    ensures n == |Format019(at)|
  {
    var f, s := Format019(at), Stamp(at, id);
    assert forall i :: 0 <= i < |f| ==> s[i] == f[i] && f[i] != ':';
    assert forall i :: |f| < i < |s| ==> s[i] == id[i - |f| - 1] && s[i] != ':';
  }

  /** The table answers `a` under its own key. */
  predicate Holds(t: Table, a: Analysis) {
    Get(t, MainKey(a)).Some? && Decode(Get(t, MainKey(a)).value) == Some(a)
  }

  /** A colliding record within reach of a scan of the namespace. */
  ghost predicate Intrudes(t: Table, namespace: string, a: Analysis) {
    Holds(t, a) && Collides(namespace, a) && AtMost(MainKey(a), RoomPrefix(namespace) + NINES)
  }

  lemma OwnBelowStart(a: Analysis)
    ensures Less(MainKey(a), RoomPrefix(a.namespace) + NINES)
  {
    StampBelowNines(a.at, a.entityId);
    LessByField(RoomPrefix(a.namespace), Stamp(a.at, a.entityId), RoomPrefix(a.namespace), NINES);
  }

  lemma NestedBelowStart(a: Analysis)
    requires a.namespace == "chat:7"
    ensures Less(MainKey(a), RoomPrefix("chat") + NINES)
  {
    hide Less, MainKey, RoomPrefix, Stamp;
    var p, rest := RoomPrefix("chat"), ":" + Stamp(a.at, a.entityId);
    NestedKey(a);
    SevenBelowNines(rest);
    LessByField(p, "7" + rest, p, NINES);
  }

  lemma NestedKey(a: Analysis)
    requires a.namespace == "chat:7"
    ensures MainKey(a) == RoomPrefix("chat") + ("7" + (":" + Stamp(a.at, a.entityId)))
  {
    hide Stamp;
  }

  lemma SevenBelowNines(rest: string)
    ensures Less("7" + rest, NINES)
  {
    assert ("7" + rest)[0] == '7' && NINES[0] == '9';
  }

  /** A stored record is answered, normalised. */
  lemma StoredIsHeld(t: Table, a: Analysis)
    requires Sorted(t)
    ensures Holds(PutBoth(t, a), Normalised(a))
  {
    hide Less, Put, Get, FromAnalysis, ToAnalysis, IndexKey;
    var k, v := MainKey(a), Record(FromAnalysis(a));
    assert MainKey(Normalised(a)) == k;
    hide MainKey;
    StorageRoundTrip(a);
    PutSorted(t, k, v);
    KeysKeepEntitiesApart(a, a);
    GetAfterPut(t, k, v, k);
    GetAfterPut(Put(t, k, v), IndexKey(a.entityId), Pointer(k), k);
  }

  // ----------------------------------------------------------------- order

  predicate NotOlder(a: Analysis, b: Analysis) {
    a.at > b.at || (a.at == b.at && Less(b.entityId, a.entityId))
  }

  /** Inside a namespace, key order is the order of (At, EntityId). */
  lemma KeyOrder(a: Analysis, b: Analysis)
    requires a.namespace == b.namespace && a.at >= 0 && b.at >= 0
    ensures Less(MainKey(b), MainKey(a)) <==> NotOlder(a, b)
  {
    var p := RoomPrefix(a.namespace);
    LessByField(p, Stamp(b.at, b.entityId), p, Stamp(a.at, a.entityId));
    LessIsStrict(p, p);
    StampOrder(b.at, b.entityId, a.at, a.entityId);
  }

  lemma LeadIn(namespace: string)
    ensures "analysis:" <= RoomPrefix(namespace)
  {
  }
}
