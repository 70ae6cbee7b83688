/** The records a caller is answered who pages through a namespace while records are
  stored and rewritten. */
module RoomScan {
  import opened Text
  import opened Badger
  import opened Paging
  import opened Analyses
  import opened AnalysisScan

  // ------------------------------------------------ tables that runs produce

  lemma {:induction false} PutAllKeepsWellFormed(t: Table, batch: seq<Analysis>)
    requires WellFormed(t) && forall i :: 0 <= i < |batch| ==> batch[i].at >= 0
    ensures WellFormed(PutAll(t, batch)) && Keys(t) <= Keys(PutAll(t, batch))
  {
    hide WellFormed, PutBoth, Keys;
    if batch != [] {
      var n := |batch| - 1;
      PutAllKeepsWellFormed(t, batch[..n]);
      StoreKeepsWellFormed(PutAll(t, batch[..n]), batch[n]);
    }
  }

  /** All times are from 1970 on. */
  predicate Dated(op: Op) {
    match op
    case Store(a) => a.at >= 0
    case StoreBatch(batch) => forall i :: 0 <= i < |batch| ==> batch[i].at >= 0
  }

  lemma OpKeepsWellFormed(s: Stores, op: Op)
    requires WellFormed(s.db) && Dated(op)
    ensures WellFormed(Apply(s, op).db) && Keys(s.db) <= Keys(Apply(s, op).db)
  {
    hide WellFormed, PutBoth, Keys;
    match op
    case Store(a) => StoreKeepsWellFormed(s.db, a);
    case StoreBatch(batch) => PutAllKeepsWellFormed(s.db, batch);
  }

  function After(ops: seq<Op>, n: nat): Table
    requires n <= |ops|
  {
    Exec(Stores([], map[]), ops[..n]).db
  }

  lemma {:induction false} RunIsWellFormed(ops: seq<Op>, m: nat, n: nat)
    requires m <= n <= |ops| && forall op :: op in ops ==> Dated(op)
    ensures WellFormed(After(ops, m)) && WellFormed(After(ops, n)) && Keys(After(ops, m)) <= Keys(After(ops, n))
  {
    if n == 0 {
      assert Sorted<Value>([]);
    } else {
      hide WellFormed, Keys, Apply, Dated;
      assert ops[..n][..n - 1] == ops[..n - 1] && ops[n - 1] in ops;
      if m < n {
        RunIsWellFormed(ops, m, n - 1);
      } else {
        RunIsWellFormed(ops, n - 1, n - 1);
      }
      OpKeepsWellFormed(Exec(Stores([], map[]), ops[..n - 1]), ops[n - 1]);
    }
  }

  /** Tables read one after the other: each holds only records, and keys are only added. */
  ghost predicate Growing(ts: seq<Table>) {
    (forall i :: 0 <= i < |ts| ==> WellFormed(ts[i])) && History(ts)
  }

  /** The tables a run of stores and batches passes through are such. */
  lemma RunsAreGrowing(ops: seq<Op>, moments: seq<nat>)
    requires forall op :: op in ops ==> Dated(op)
    requires forall i :: 0 <= i < |moments| ==> moments[i] <= |ops|
    requires forall i, j :: 0 <= i < j < |moments| ==> moments[i] <= moments[j]
    ensures Growing(seq(|moments|, i requires 0 <= i < |moments| => After(ops, moments[i])))
  {
    var ts := seq(|moments|, i requires 0 <= i < |moments| => After(ops, moments[i]));
    hide After, Dated, Keys;
    forall i | 0 <= i < |ts| ensures WellFormed(ts[i]) && Sorted(ts[i]) {
      RunIsWellFormed(ops, moments[i], moments[i]);
    }
    forall i, j | 0 <= i < j < |ts| ensures Keys(ts[i]) <= Keys(ts[j]) {
      RunIsWellFormed(ops, moments[i], moments[j]);
    }
  }

  // ------------------------------------------------------ answered records

  /** The records answered to a caller who follows cursors until one is nil. */
  function ScanRecords(ts: seq<Table>, prefix: string, cursor: Option<string>, budget: Option<nat>): seq<Analysis> {
    if ts == [] then []
    else
      match Scan(ts[0], prefix, cursor, budget)
      case None => []
      case Some(page) =>
        page.analyses + if page.cursor.None? then [] else ScanRecords(ts[1..], prefix, page.cursor, budget)
  }

  /** `a` is what one of the tables answers under the key. */
  ghost predicate Answers(ts: seq<Table>, a: Analysis, key: string) {
    a.at >= 0 && MainKey(a) == key && exists i :: 0 <= i < |ts| && Holds(ts[i], a)
  }

  lemma AnswersLater(t: Table, ts: seq<Table>, a: Analysis, key: string)
    requires Answers(ts, a, key)
    ensures Answers([t] + ts, a, key)
  {
    hide MainKey, Holds;
    var i :| 0 <= i < |ts| && Holds(ts[i], a);
    assert ([t] + ts)[i + 1] == ts[i];
  }

  lemma AnswersNow(t: Table, ts: seq<Table>, a: Analysis, key: string)
    requires a.at >= 0 && MainKey(a) == key && Holds(t, a)
    ensures Answers([t] + ts, a, key)
  {
    assert ([t] + ts)[0] == t;
  }

  /** One page: no error, and each record is what the table holds under its key. */
  lemma PageIsHeld(t: Table, namespace: string, cursor: Option<string>, budget: Option<nat>)
    requires WellFormed(t)
    ensures var prefix := RoomPrefix(namespace);
            var r, keys := Scan(t, prefix, cursor, budget), PageKeys(t, prefix, cursor, budget);
            && r.Some? && r.value.cursor == NextCursor(t, prefix, cursor, budget)
            && |r.value.analyses| == |keys|
            && forall i :: 0 <= i < |keys| ==>
                 var a := r.value.analyses[i]; a.at >= 0 && MainKey(a) == keys[i] && Holds(t, a)
  {
    hide Less, MainKey, Rank, RoomPrefix, Decode, Get, NextCursor, WellFormed, Holds, Start, Stop;
    var prefix := RoomPrefix(namespace);
    var hi := Start(t, prefix, cursor);
    var vs := ValuesDown(t, hi, Stop(t, prefix, hi, budget));
    LeadIn(namespace);
    ValuesAreHeld(t, prefix, hi, Stop(t, prefix, hi, budget));
    DecodeAllMeaning(vs, Decode);
    assert forall i :: 0 <= i < |vs| ==> IsHeld(t, vs[i], t[hi - i].key);
  }

  /** The bytes stored under the key are those of a record that belongs there. */
  ghost predicate IsHeld(t: Table, v: Value, key: string) {
    Decode(v).Some? && var a := Decode(v).value; a.at >= 0 && MainKey(a) == key && Holds(t, a)
  }

  lemma ValuesAreHeld(t: Table, prefix: string, hi: int, lo: int)
    requires WellFormed(t) && "analysis:" <= prefix && -1 <= lo <= hi < |t|
    requires forall n :: lo < n <= hi ==> prefix <= t[n].key
    ensures var vs := ValuesDown(t, hi, lo); forall i :: 0 <= i < |vs| ==> IsHeld(t, vs[i], t[hi - i].key)
  {
    hide WellFormed, Holds, MainKey, Decode;
    var vs := ValuesDown(t, hi, lo);
    forall i | 0 <= i < |vs| ensures IsHeld(t, vs[i], t[hi - i].key) { EntryIsHeld(t, hi - i, prefix); }
  }

  lemma EntryIsHeld(t: Table, i: nat, prefix: string)
    requires WellFormed(t) && i < |t| && "analysis:" <= prefix <= t[i].key
    ensures Decode(t[i].value).Some?
    ensures var a := Decode(t[i].value).value; a.at >= 0 && MainKey(a) == t[i].key && Holds(t, a)
  {
    hide Less, MainKey, Decode, Get;
    assert t[i] in t;
    GetIsMembership(t, t[i].key, t[i].value);
    assert t[i] == Entry(t[i].key, t[i].value);
  }

  /** The records answered over all pages match the listed keys one to one. */
  lemma {:induction false} RecordsMatchKeys(ts: seq<Table>, namespace: string, cursor: Option<string>, budget: Option<nat>)
    requires ts != [] && Growing(ts)
    ensures var prefix := RoomPrefix(namespace);
            var rs, keys := ScanRecords(ts, prefix, cursor, budget), Flatten(ScanAll(ts, prefix, cursor, budget));
            |rs| == |keys| && forall i :: 0 <= i < |rs| ==> Answers(ts, rs[i], keys[i])
  {
    hide RoomPrefix, WellFormed, Scan, PageKeys, NextCursor, Answers, MainKey, Holds;
    var prefix := RoomPrefix(namespace);
    PageIsHeld(ts[0], namespace, cursor, budget);
    var page, keys := Scan(ts[0], prefix, cursor, budget).value, PageKeys(ts[0], prefix, cursor, budget);
    var tail := ts[1..];
    assert ts == [ts[0]] + tail;
    forall i | 0 <= i < |keys| ensures Answers(ts, page.analyses[i], keys[i]) {
      AnswersNow(ts[0], tail, page.analyses[i], keys[i]);
    }
    var rest := if page.cursor.None? then [] else ScanAll(tail, prefix, page.cursor, budget);
    var pages := ScanAll(ts, prefix, cursor, budget);
    assert pages == [keys] + rest && pages[1..] == rest;
    assert Flatten(pages) == keys + Flatten(rest);
    if page.cursor.Some? && tail != [] {
      assert Growing(tail);
      RecordsMatchKeys(tail, namespace, page.cursor, budget);
      var more := ScanRecords(tail, prefix, page.cursor, budget);
      forall i | 0 <= i < |more| ensures Answers(ts, more[i], Flatten(rest)[i]) {
        AnswersLater(ts[0], tail, more[i], Flatten(rest)[i]);
      }
    }
  }

  ghost predicate Undisturbed(ts: seq<Table>, namespace: string) {
    forall i, a: Analysis :: 0 <= i < |ts| ==> !Intrudes(ts[i], namespace, a)
  }

  ghost predicate Intruded(t: Table, namespace: string) { exists a: Analysis :: Intrudes(t, namespace, a) }

  predicate OnlyOf(rs: seq<Analysis>, namespace: string) { forall i :: 0 <= i < |rs| ==> rs[i].namespace == namespace }

  /** What is answered belongs to the namespace or intrudes. */
  lemma AnsweredOrIntrudes(ts: seq<Table>, namespace: string, a: Analysis, key: string)
    requires Answers(ts, a, key) && RoomPrefix(namespace) <= key && AtMost(key, RoomPrefix(namespace) + NINES)
    ensures a.namespace == namespace || exists i :: 0 <= i < |ts| && Intrudes(ts[i], namespace, a)
  {
    hide MainKey, RoomPrefix, Less, Holds;
    PrefixMatches(namespace, a);
    var i :| 0 <= i < |ts| && Holds(ts[i], a);
    assert a.namespace != namespace ==> Intrudes(ts[i], namespace, a);
  }

  /** Pages of one namespace, read while records are stored and rewritten. Every record
    answered is held by a table at its time, none is answered twice, and within a namespace
    they come newest first. Where nothing intrudes all are of the namespace. Once the cursor
    is nil, every entry of the namespace present at the start has been answered, with its
    record unless that was rewritten meanwhile. */
  lemma RoomScanIsPartition(ts: seq<Table>, namespace: string, limit: Option<int>)
    requires ts != [] && Growing(ts) && Budget(limit) != Some(0)
    ensures var prefix, budget := RoomPrefix(namespace), Budget(limit);
            var rs := ScanRecords(ts, prefix, None, budget);
            && (forall i :: 0 <= i < |rs| ==> Answers(ts, rs[i], MainKey(rs[i])))
            && (forall i, j :: 0 <= i < j < |rs| ==> MainKey(rs[i]) != MainKey(rs[j]))
            && (forall i, j :: 0 <= i < j < |rs| && rs[i].namespace == rs[j].namespace ==> NotOlder(rs[i], rs[j]))
            && (Undisturbed(ts, namespace) ==> OnlyOf(rs, namespace))
            && (Completed(ts, prefix, None, budget) ==> ListsKeys(rs, ts[0], namespace) && ListsSteady(rs, ts, namespace))
  {
    var prefix, budget := RoomPrefix(namespace), Budget(limit);
    var rs, keys := ScanRecords(ts, prefix, None, budget), Flatten(ScanAll(ts, prefix, None, budget));
    RecordsMatchKeys(ts, namespace, None, budget);
    ScanIsExact(ts, prefix, None, budget);
    AnsweredInOrder(ts, rs, keys);
    hide MainKey, RoomPrefix, Less, Completed, ScanAll, ScanRecords, Holds, NotOlder, Growing, ListsKeys, ListsSteady;
    if Undisturbed(ts, namespace) { AllOwn(ts, namespace, rs, keys); }
    if Completed(ts, prefix, None, budget) { CompletedLists(ts, namespace, limit); }
    forall i | 0 <= i < |rs| ensures Answers(ts, rs[i], MainKey(rs[i])) {
      assert Answers(ts, rs[i], keys[i]);
    }
  }

  /** Every key of the namespace in the table is listed. */
  ghost predicate ListsKeys(rs: seq<Analysis>, t: Table, namespace: string) {
    forall a: Analysis :: a.namespace == namespace && MainKey(a) in Keys(t) ==> Listed(rs, MainKey(a))
  }

  ghost predicate HeldThroughout(ts: seq<Table>, a: Analysis) { forall i :: 0 <= i < |ts| ==> Holds(ts[i], a) }

  /** Every record of the namespace that no table changes is listed. */
  ghost predicate ListsSteady(rs: seq<Analysis>, ts: seq<Table>, namespace: string) {
    forall a: Analysis :: a.namespace == namespace && HeldThroughout(ts, a) ==> a in rs
  }

  lemma AllOwn(ts: seq<Table>, namespace: string, rs: seq<Analysis>, keys: seq<string>)
    requires Undisturbed(ts, namespace) && |rs| == |keys| && forall i :: 0 <= i < |rs| ==> Answers(ts, rs[i], keys[i])
    requires forall k :: k in keys ==> RoomPrefix(namespace) <= k && AtMost(k, RoomPrefix(namespace) + NINES)
    ensures OnlyOf(rs, namespace)
  {
    hide MainKey, RoomPrefix, Less, Holds, Answers, Intrudes, AtMost;
    forall i | 0 <= i < |rs| ensures rs[i].namespace == namespace {
      assert keys[i] in keys;
      AnsweredOrIntrudes(ts, namespace, rs[i], keys[i]);
    }
  }

  lemma CompletedLists(ts: seq<Table>, namespace: string, limit: Option<int>)
    requires ts != [] && Growing(ts) && Budget(limit) != Some(0)
    requires Completed(ts, RoomPrefix(namespace), None, Budget(limit))
    ensures var rs := ScanRecords(ts, RoomPrefix(namespace), None, Budget(limit));
            ListsKeys(rs, ts[0], namespace) && ListsSteady(rs, ts, namespace)
  {
    hide MainKey, RoomPrefix, Completed, ScanRecords, Growing, Listed, HeldThroughout, Keys;
    forall a: Analysis | a.namespace == namespace && MainKey(a) in Keys(ts[0])
      ensures Listed(ScanRecords(ts, RoomPrefix(namespace), None, Budget(limit)), MainKey(a))
    {
      KeyIsAnswered(ts, namespace, limit, a);
    }
    forall a: Analysis | a.namespace == namespace && HeldThroughout(ts, a)
      ensures a in ScanRecords(ts, RoomPrefix(namespace), None, Budget(limit))
    {
      SteadyIsAnswered(ts, namespace, limit, a);
    }
  }

  lemma KeyIsAnswered(ts: seq<Table>, namespace: string, limit: Option<int>, a: Analysis)
    requires ts != [] && Growing(ts) && Budget(limit) != Some(0) && a.namespace == namespace
    requires Completed(ts, RoomPrefix(namespace), None, Budget(limit)) && MainKey(a) in Keys(ts[0])
    ensures Listed(ScanRecords(ts, RoomPrefix(namespace), None, Budget(limit)), MainKey(a))
  {
    hide MainKey, RoomPrefix, Less, Completed, ScanAll, ScanRecords, WellFormed, Answers, Listed;
    var prefix, budget := RoomPrefix(namespace), Budget(limit);
    RecordsMatchKeys(ts, namespace, None, budget);
    ScanIsExact(ts, prefix, None, budget);
    OwnIsEligible(ts[0], a);
    FoundByKey(ts, ScanRecords(ts, prefix, None, budget), Flatten(ScanAll(ts, prefix, None, budget)), MainKey(a));
  }

  lemma SteadyIsAnswered(ts: seq<Table>, namespace: string, limit: Option<int>, a: Analysis)
    requires ts != [] && Growing(ts) && Budget(limit) != Some(0) && a.namespace == namespace
    requires Completed(ts, RoomPrefix(namespace), None, Budget(limit))
    requires HeldThroughout(ts, a)
    ensures a in ScanRecords(ts, RoomPrefix(namespace), None, Budget(limit))
  {
    hide MainKey, RoomPrefix, Less, Completed, ScanAll, ScanRecords, WellFormed, Answers, Holds;
    var prefix, budget := RoomPrefix(namespace), Budget(limit);
    RecordsMatchKeys(ts, namespace, None, budget);
    ScanIsExact(ts, prefix, None, budget);
    HeldKey(ts[0], a);
    OwnIsEligible(ts[0], a);
    SteadyIsFound(ts, ScanRecords(ts, prefix, None, budget), Flatten(ScanAll(ts, prefix, None, budget)), a);
  }

  ghost predicate Listed(rs: seq<Analysis>, key: string) { exists i :: 0 <= i < |rs| && MainKey(rs[i]) == key }

  lemma AnsweredInOrder(ts: seq<Table>, rs: seq<Analysis>, keys: seq<string>)
    requires |rs| == |keys| && StrictlyDescending(keys) && forall i :: 0 <= i < |rs| ==> Answers(ts, rs[i], keys[i])
    ensures forall i, j :: 0 <= i < j < |rs| ==> MainKey(rs[i]) != MainKey(rs[j])
    ensures forall i, j :: 0 <= i < j < |rs| && rs[i].namespace == rs[j].namespace ==> NotOlder(rs[i], rs[j])
  {
    hide MainKey, Less, NotOlder, Holds;
    forall i, j | 0 <= i < j < |rs|
      ensures MainKey(rs[i]) != MainKey(rs[j]) && (rs[i].namespace == rs[j].namespace ==> NotOlder(rs[i], rs[j]))
    {
      assert Answers(ts, rs[i], keys[i]) && Answers(ts, rs[j], keys[j]);
      LessIsStrict(keys[j], keys[i]);
      if rs[i].namespace == rs[j].namespace { KeyOrder(rs[i], rs[j]); }
    }
  }

  lemma OwnIsEligible(t: Table, a: Analysis)
    requires MainKey(a) in Keys(t)
    ensures Eligible(t, RoomPrefix(a.namespace), CursorBound(RoomPrefix(a.namespace), None), MainKey(a))
  {
    PrefixMatches(a.namespace, a);
    OwnBelowStart(a);
    hide MainKey, RoomPrefix, Less;
  }

  lemma FoundByKey(ts: seq<Table>, rs: seq<Analysis>, keys: seq<string>, key: string)
    requires |rs| == |keys| && key in keys && forall i :: 0 <= i < |rs| ==> Answers(ts, rs[i], keys[i])
    ensures Listed(rs, key)
  {
    hide MainKey, Holds;
    var i :| 0 <= i < |keys| && keys[i] == key;
    assert Answers(ts, rs[i], keys[i]);
  }

  lemma HeldKey(t: Table, a: Analysis)
    requires Holds(t, a) && WellFormed(t)
    ensures MainKey(a) in Keys(t)
  {
    hide MainKey, Get;
    GetIsMembership(t, MainKey(a), Get(t, MainKey(a)).value);
  }

  lemma SteadyIsFound(ts: seq<Table>, rs: seq<Analysis>, keys: seq<string>, a: Analysis)
    requires |rs| == |keys| && MainKey(a) in keys && forall i :: 0 <= i < |rs| ==> Answers(ts, rs[i], keys[i])
    requires forall i :: 0 <= i < |ts| ==> Holds(ts[i], a)
    ensures a in rs
  {
    hide MainKey, Get, Decode;
    var i :| 0 <= i < |keys| && keys[i] == MainKey(a);
    assert Answers(ts, rs[i], keys[i]);
    var j :| 0 <= j < |ts| && Holds(ts[j], rs[i]);
    assert Holds(ts[j], a);
  }

  /** An intruder that stays is answered by a completed scan. */
  lemma IntruderIsAnswered(ts: seq<Table>, namespace: string, limit: Option<int>, a: Analysis)
    requires ts != [] && Growing(ts) && Budget(limit) != Some(0)
    requires Completed(ts, RoomPrefix(namespace), None, Budget(limit))
    requires forall i :: 0 <= i < |ts| ==> Intrudes(ts[i], namespace, a)
    ensures a in ScanRecords(ts, RoomPrefix(namespace), None, Budget(limit)) && a.namespace != namespace
  {
    hide MainKey, RoomPrefix, Less, Completed, ScanAll, ScanRecords, WellFormed, Answers, Holds;
    var prefix, budget := RoomPrefix(namespace), Budget(limit);
    var rs, keys := ScanRecords(ts, prefix, None, budget), Flatten(ScanAll(ts, prefix, None, budget));
    RecordsMatchKeys(ts, namespace, None, budget);
    ScanIsExact(ts, prefix, None, budget);
    IntruderIsEligible(ts[0], namespace, a);
    SteadyIsFound(ts, rs, keys, a);
  }

  /** A scan among tables without intruders answers its namespace only. */
  lemma UndisturbedIsOwn(ts: seq<Table>, namespace: string, limit: Option<int>)
    requires ts != [] && Growing(ts) && Budget(limit) != Some(0) && Undisturbed(ts, namespace)
    ensures OnlyOf(ScanRecords(ts, RoomPrefix(namespace), None, Budget(limit)), namespace)
  {
    hide MainKey, RoomPrefix, Less, Completed, ScanRecords, WellFormed, Answers, Holds, NotOlder, Growing, Undisturbed, Listed;
    RoomScanIsPartition(ts, namespace, limit);
  }

  /** A completed scan of a table that does not change answers nothing but its namespace if
    and only if no colliding record is within its reach. */
  lemma ScanIsolation(ts: seq<Table>, t: Table, namespace: string, limit: Option<int>)
    requires ts != [] && WellFormed(t) && (forall i :: 0 <= i < |ts| ==> ts[i] == t) && Budget(limit) != Some(0)
    requires Completed(ts, RoomPrefix(namespace), None, Budget(limit))
    ensures OnlyOf(ScanRecords(ts, RoomPrefix(namespace), None, Budget(limit)), namespace) <==> !Intruded(t, namespace)
  {
    hide RoomPrefix, Completed, ScanRecords, WellFormed, Intrudes, Growing, Undisturbed, OnlyOf;
    StaticIsGrowing(ts, t);
    if Intruded(t, namespace) {
      var a: Analysis :| Intrudes(t, namespace, a);
      IntruderIsAnswered(ts, namespace, limit, a);
      NotOnly(ScanRecords(ts, RoomPrefix(namespace), None, Budget(limit)), namespace, a);
    } else {
      StaticUndisturbed(ts, t, namespace);
      UndisturbedIsOwn(ts, namespace, limit);
    }
  }

  lemma NotOnly(rs: seq<Analysis>, namespace: string, a: Analysis)
    requires a in rs && a.namespace != namespace
    ensures !OnlyOf(rs, namespace)
  {
  }

  lemma StaticUndisturbed(ts: seq<Table>, t: Table, namespace: string)
    requires !Intruded(t, namespace) && forall i :: 0 <= i < |ts| ==> ts[i] == t
    ensures Undisturbed(ts, namespace)
  {
    hide Intrudes;
  }

  lemma StaticIsGrowing(ts: seq<Table>, t: Table)
    requires WellFormed(t) && forall i :: 0 <= i < |ts| ==> ts[i] == t
    ensures Growing(ts)
  {
  }

  lemma IntruderIsEligible(t: Table, namespace: string, a: Analysis)
    requires Intrudes(t, namespace, a) && WellFormed(t)
    ensures Eligible(t, RoomPrefix(namespace), CursorBound(RoomPrefix(namespace), None), MainKey(a))
    ensures Holds(t, a) && a.namespace != namespace
  {
    hide MainKey, RoomPrefix, Less, WellFormed, Holds;
    HeldKey(t, a);
    PrefixMatches(namespace, a);
  }

  /** A namespace that continues another one leaks into its scans. */
  lemma NestedNamespaceLeaks(a: Analysis)
    requires a.namespace == "chat:7" && a.at >= 0
    ensures var t := PutBoth([], a);
            Normalised(a) in ScanRecords([t], RoomPrefix("chat"), None, None) && Normalised(a).namespace != "chat"
  {
    var t := PutBoth([], a);
    assert Sorted<Value>([]) && WellFormed([]);
    StoreKeepsWellFormed([], a);
    hide MainKey, RoomPrefix, PutBoth, Intrudes, ScanRecords, Completed, WellFormed, Growing;
    NestedIntrudes(a);
    StaticIsGrowing([t], t);
    NilCursorComes([t], RoomPrefix("chat"), None, None);
    IntruderIsAnswered([t], "chat", None, Normalised(a));
  }

  lemma NestedIntrudes(a: Analysis)
    requires a.namespace == "chat:7"
    ensures Intrudes(PutBoth([], a), "chat", Normalised(a))
  {
    assert Sorted<Value>([]);
    hide MainKey, PutBoth, Less, Holds;
    StoredIsHeld([], a);
    assert "chat" + ":" <= a.namespace;
    NestedBelowStart(Normalised(a));
  }
}
