/** Chat history: messages stored under ordered keys and read back page by page. */
module Messages {
  import opened Text
  import opened Badger
  import opened Paging

  datatype DiskMessage = DiskMessage(id: Uuid, room: int, author: string, content: string, at: Nanos, toxicity: real)

  /** The protobuf message; the identifier is plain text there. */
  datatype PbMessage = PbMessage(id: string, room: int, author: string, content: string, at: Nanos, toxicity: real)

  /** Stored bytes: a marshalled message, or bytes some other repository wrote. */
  datatype Value = Marshalled(pb: PbMessage) | Foreign

  type Table = seq<Entry<Value>>

  datatype MessagePage = MessagePage(messages: seq<DiskMessage>, cursor: string)

  function FromDiskMessage(m: DiskMessage): PbMessage {
    PbMessage(m.id, m.room, m.author, m.content, m.at, m.toxicity)
  }

  function ToDiskMessage(pb: PbMessage): Option<DiskMessage> {
    if IsUuid(pb.id) then Some(DiskMessage(pb.id, pb.room, pb.author, pb.content, pb.at, pb.toxicity)) else None
  }

  function Decode(v: Value): Option<DiskMessage> {
    match v
    case Marshalled(pb) => ToDiskMessage(pb)
    case Foreign => None
  }

  function RoomPrefix(room: int): string { "msg:" + Format(room) + ":" }

  function Key(m: DiskMessage): string { RoomPrefix(m.room) + Suffix(m) }

  /** The part of the key a cursor carries. */
  function Suffix(m: DiskMessage): string { Stamp(m.at, m.id) }

  // ------------------------------------------------------------- the scan

  /** The loop compares the page length with the limit for equality, so a negative limit is none. */
  function Budget(limit: Option<int>): Option<nat> {
    if limit.Some? && limit.value >= 0 then Some(limit.value) else None
  }

  /** What `GetMessages` answers; `None` stands for an error. */
  function Fetch(t: Table, prefix: string, cursor: Option<string>, budget: Option<nat>): Option<MessagePage> {
    var hi := Start(t, prefix, cursor);
    match DecodeAll(ValuesDown(t, hi, Stop(t, prefix, hi, budget)), Decode)
    case None => None
    case Some(ms) => Some(MessagePage(ms, CursorAfter(prefix, PageKeys(t, prefix, cursor, budget))))
  }

  class MessageRepository {
    var db: Table
    const limitMessages: Option<int>

    constructor (limit: Option<int>)
      ensures db == [] && limitMessages == limit
    {
      db := [];
      limitMessages := limit;
    }

    method StoreMessage(m: DiskMessage)
      modifies this
      ensures db == Put(old(db), Key(m), Marshalled(FromDiskMessage(m)))
    {
      var key := "msg:" + Format(m.room) + ":" + (Format019(m.at) + ":" + m.id);
      db := Put(db, key, Marshalled(FromDiskMessage(m)));
    }

    method GetMessages(room: int, cursor: Option<string>) returns (r: Option<MessagePage>)
      ensures r == Fetch(db, RoomPrefix(room), cursor, Budget(limitMessages))
    {
      hide Less, Rank, RoomPrefix, Start, Stop, PageKeys;
      var prefix := RoomPrefix(room);
      var byteMessages, lastKey := Scan(prefix, cursor);
      var diskMessages: seq<DiskMessage> := [];
      for i := 0 to |byteMessages|
        invariant DecodeAll(byteMessages[..i], Decode) == Some(diskMessages)
      {
        DecodeStep(byteMessages, i, Decode);
        var m := Decode(byteMessages[i]);
        if m.None? {
          DecodeAllMeaning(byteMessages, Decode);
          return None;
        }
        diskMessages := diskMessages + [m.value];
      }
      assert byteMessages[..|byteMessages|] == byteMessages;
      return Some(MessagePage(diskMessages, lastKey));
    }

    /** The read transaction of `GetMessages`: position the iterator, then collect. */
    method Scan(prefix: string, cursor: Option<string>) returns (byteMessages: seq<Value>, lastKey: string)
      ensures var hi := Start(db, prefix, cursor);
              byteMessages == ValuesDown(db, hi, Stop(db, prefix, hi, Budget(limitMessages)))
      ensures lastKey == CursorAfter(prefix, PageKeys(db, prefix, cursor, Budget(limitMessages)))
    {
      hide Less, Rank, Start, Stop, PageKeys, CursorAfter, ValuesDown;
      var txn := db;
      var it := Position(txn, prefix, cursor);
      byteMessages, lastKey := Collect(txn, prefix, it);
      CursorOfScan(txn, prefix, cursor, Budget(limitMessages), lastKey);
    }

    method Collect(txn: Table, prefix: string, hi: int) returns (byteMessages: seq<Value>, lastKey: string)
      requires -1 <= hi < |txn|
      ensures var lo := Stop(txn, prefix, hi, Budget(limitMessages));
              && byteMessages == ValuesDown(txn, hi, lo)
              && lastKey == if lo == hi then "" else txn[lo + 1].key[|prefix|..]
    {
      hide Less, Stop;
      var it := hi;
      ghost var left := Budget(limitMessages);
      byteMessages, lastKey := [], "";
      while it >= 0 && prefix <= txn[it].key
        invariant -1 <= it <= hi
        invariant left == if Budget(limitMessages).None? then None else Some(limitMessages.value - |byteMessages|)
        invariant Stop(txn, prefix, hi, Budget(limitMessages)) == Stop(txn, prefix, it, left)
        invariant |byteMessages| == hi - it
        invariant forall n :: 0 <= n < hi - it ==> byteMessages[n] == txn[hi - n].value
        invariant it < hi ==> prefix <= txn[it + 1].key
        invariant lastKey == if it == hi then "" else txn[it + 1].key[|prefix|..]
        decreases it + 1
      {
        StopStep(txn, prefix, it, left);
        if limitMessages.Some? && |byteMessages| == limitMessages.value {
          break;
        }
        lastKey := txn[it].key[|prefix|..];
        byteMessages := byteMessages + [txn[it].value];
        it := it - 1;
        left := if left.None? then None else Some(left.value - 1);
      }
      StopStep(txn, prefix, it, left);
    }
  }

  // ------------------------------------------------------- what keys mean

  /** Every entry under `msg:` is the entry of some message stored from 1970 on. */
  ghost predicate WellFormed(t: Table) {
    && Sorted(t)
    && forall e :: e in t && "msg:" <= e.key ==> HoldsMessage(e)
  }

  ghost predicate HoldsMessage(e: Entry<Value>) {
    exists m: DiskMessage :: m.at >= 0 && Stored(m) == e
  }

  function Stored(m: DiskMessage): Entry<Value> { Entry(Key(m), Marshalled(FromDiskMessage(m))) }

  predicate Newer(a: DiskMessage, b: DiskMessage) {
    a.at > b.at || (a.at == b.at && Less(b.id, a.id))
  }

  /** A scan of one room sees the keys of that room and of no other. */
  lemma RoomIsolation(room: int, m: DiskMessage)
    ensures RoomPrefix(room) <= Key(m) <==> m.room == room
  {
    FormatIsField(room, m.room);
    FormatIsField(m.room, room);
    FieldPrefix("msg:", Format(room), Format(m.room), Suffix(m));
  }

  /** Inside a room, key order is the order of (At, ID), and a key names one pair. */
  lemma KeyOrder(a: DiskMessage, b: DiskMessage)
    requires a.room == b.room && a.at >= 0 && b.at >= 0
    ensures Less(Key(b), Key(a)) <==> Newer(a, b)
    ensures Key(a) == Key(b) <==> a.at == b.at && a.id == b.id
  {
    var p := RoomPrefix(a.room);
    LessByField(p, Suffix(b), p, Suffix(a));
    LessIsStrict(p, p);
    StampOrder(b.at, b.id, a.at, a.id);
    assert Key(a)[|p|..] == Suffix(a) && Key(b)[|p|..] == Suffix(b);
  }

  /** Messages are only added. */
  ghost predicate Grows(t: Table, u: Table) {
    forall e :: e in t ==> e in u
  }

  /** Storing a message keeps the table well formed, and a new (Room, At, ID) disturbs no entry. */
  lemma StoreKeepsWellFormed(t: Table, m: DiskMessage)
    requires WellFormed(t) && m.at >= 0
    ensures WellFormed(Put(t, Key(m), Marshalled(FromDiskMessage(m))))
    ensures Key(m) !in Keys(t) ==> Grows(t, Put(t, Key(m), Marshalled(FromDiskMessage(m))))
  {
    PutSorted(t, Key(m), Marshalled(FromDiskMessage(m)));
    AddedEntry(t, Put(t, Key(m), Marshalled(FromDiskMessage(m))), m);
  }

  lemma AddedEntry(t: Table, u: Table, m: DiskMessage)
    requires WellFormed(t) && m.at >= 0 && Sorted(u)
    requires forall e :: e in u <==> e == Stored(m) || (e in t && e.key != Stored(m).key)
    ensures WellFormed(u)
    ensures Key(m) !in Keys(t) ==> Grows(t, u)
  {
    assert HoldsMessage(Stored(m));
  }

  // --------------------------------------------------------------- paging

  /** The keys a caller sees who keeps following cursors while the table changes:
    page `i` is read from `ts[i]`. */
  function ReadAll(ts: seq<Table>, prefix: string, cursor: Option<string>, budget: Option<nat>): (pages: seq<seq<string>>)
    ensures |pages| == |ts|
  {
    if ts == [] then []
    else
      var page := PageKeys(ts[0], prefix, cursor, budget);
      [page] + ReadAll(ts[1..], prefix, Some(CursorAfter(prefix, page)), budget)
  }

  ghost predicate History(ts: seq<Table>) {
    && (forall i :: 0 <= i < |ts| ==> WellFormed(ts[i]))
    && (forall i, j :: 0 <= i < j < |ts| ==> Grows(ts[i], ts[j]))
  }

  /** After an empty page, every later page is empty. */
  lemma {:induction false} ExhaustionIsFinal(ts: seq<Table>, prefix: string, budget: Option<nat>)
    requires History(ts)
    ensures forall page :: page in ReadAll(ts, prefix, Some(""), budget) ==> page == []
    ensures Flatten(ReadAll(ts, prefix, Some(""), budget)) == []
  {
    if ts != [] {
      EmptyCursorIsFinal(ts[0], prefix, budget);
      ExhaustionIsFinal(ts[1..], prefix, budget);
      var rest := ReadAll(ts[1..], prefix, Some(""), budget);
      assert ReadAll(ts, prefix, Some(""), budget) == [[]] + rest && ([[]] + rest)[1..] == rest;
    }
  }

  /** Following cursors yields strictly descending keys of the prefix; once a page
    comes back short, every key present at the start has been seen. */
  lemma {:induction false} ReadAllIsExact(ts: seq<Table>, prefix: string, cursor: Option<string>, budget: Option<nat>)
    requires ts != [] && History(ts) && Issued(ts[0], prefix, cursor) && budget != Some(0)
    ensures var pages := ReadAll(ts, prefix, cursor, budget);
            && StrictlyDescending(Flatten(pages))
            && (forall k :: k in Flatten(pages) ==>
                  prefix <= k && Within(k, CursorBound(prefix, cursor)) && k in Keys(ts[|ts| - 1]))
            && ((exists page :: page in pages && !IsFull(page, budget)) ==>
                  forall k :: Eligible(ts[0], prefix, CursorBound(prefix, cursor), k) ==> k in Flatten(pages))
  {
    hide Less, PageKeys, Grows;
    var pages := ReadAll(ts, prefix, cursor, budget);
    var page := PageKeys(ts[0], prefix, cursor, budget);
    var rest := ReadAll(ts[1..], prefix, Some(CursorAfter(prefix, page)), budget);
    assert pages == [page] + rest && pages[1..] == rest;
    PageIsExact(ts[0], prefix, cursor, budget);
    assert History(ts[1..]);
    if page == [] {
      ExhaustionIsFinal(ts[1..], prefix, budget);
    } else if |ts| > 1 {
      var end := LastOf(page);
      assert end in page && prefix <= end;
      assert prefix + CursorAfter(prefix, page) == end;
      StillStored(ts[0], ts[1], prefix, CursorBound(prefix, cursor), page);
      StillStored(ts[0], ts[|ts| - 1], prefix, CursorBound(prefix, cursor), page);
      ReadAllIsExact(ts[1..], prefix, Some(CursorAfter(prefix, page)), budget);
      ExtendPage(ts[0], ts[1], prefix, CursorBound(prefix, cursor), page, Flatten(rest));
    }
  }

  lemma StillStored(t: Table, u: Table, prefix: string, b: Bound, page: seq<string>)
    requires Grows(t, u) && page != [] && IsPage(t, prefix, b, page, false)
    ensures Keys(t) <= Keys(u) && LastOf(page) in Keys(u)
  {
    assert LastOf(page) in page;
  }

  /** With a limit of at least one, a page holds that many keys or all that are left. */
  lemma PageSize(t: Table, prefix: string, cursor: Option<string>, limit: int)
    requires Sorted(t) && Issued(t, prefix, cursor) && limit >= 1
    ensures var keys := PageKeys(t, prefix, cursor, Budget(Some(limit)));
            && |keys| <= limit
            && (|keys| == limit || forall k :: Eligible(t, prefix, CursorBound(prefix, cursor), k) ==> k in keys)
  {
    hide Less, Rank, Start, Stop;
    PageIsExact(t, prefix, cursor, Budget(Some(limit)));
    PageFits(t, prefix, cursor, limit);
  }

  lemma PageFits(t: Table, prefix: string, cursor: Option<string>, n: nat)
    ensures |PageKeys(t, prefix, cursor, Some(n))| <= n
  {
  }

  lemma {:induction false} FullPagesAddUp(ts: seq<Table>, prefix: string, cursor: Option<string>, n: nat)
    requires forall page :: page in ReadAll(ts, prefix, cursor, Some(n)) ==> IsFull(page, Some(n))
    ensures |Flatten(ReadAll(ts, prefix, cursor, Some(n)))| == |ts| * n
  {
    hide PageKeys, CursorAfter;
    if ts != [] {
      var pages := ReadAll(ts, prefix, cursor, Some(n));
      var page := PageKeys(ts[0], prefix, cursor, Some(n));
      assert pages[0] in pages && pages[1..] == ReadAll(ts[1..], prefix, Some(CursorAfter(prefix, page)), Some(n));
      FullPagesAddUp(ts[1..], prefix, Some(CursorAfter(prefix, page)), n);
      assert |ts| * n == n + |ts[1..]| * n;
    }
  }

  /** A short page comes: full pages cannot add up to more keys than are stored. */
  lemma ShortPageComes(ts: seq<Table>, prefix: string, cursor: Option<string>, n: nat)
    requires ts != [] && History(ts) && Issued(ts[0], prefix, cursor) && n >= 1
    requires |ts| * n > |ts[|ts| - 1]|
    ensures exists page :: page in ReadAll(ts, prefix, cursor, Some(n)) && !IsFull(page, Some(n))
  {
    hide History, Issued, ReadAll, IsFull;
    ReadAllIsExact(ts, prefix, cursor, Some(n));
    StoredKeysFit(ts[|ts| - 1], Flatten(ReadAll(ts, prefix, cursor, Some(n))));
    if forall page :: page in ReadAll(ts, prefix, cursor, Some(n)) ==> IsFull(page, Some(n)) {
      FullPagesAddUp(ts, prefix, cursor, n);
    }
  }

  /** The messages behind the pages. */
  function ReadMessages(ts: seq<Table>, prefix: string, cursor: Option<string>, budget: Option<nat>): seq<DiskMessage> {
    if ts == [] then []
    else
      match Fetch(ts[0], prefix, cursor, budget)
      case None => []
      case Some(page) => page.messages + ReadMessages(ts[1..], prefix, Some(page.cursor), budget)
  }

  /** On well-formed tables no page is an error, and messages match keys one to one. */
  lemma FetchMatchesKeys(t: Table, prefix: string, cursor: Option<string>, budget: Option<nat>)
    requires WellFormed(t) && "msg:" <= prefix
    ensures var r, keys := Fetch(t, prefix, cursor, budget), PageKeys(t, prefix, cursor, budget);
            && r.Some? && r.value.cursor == CursorAfter(prefix, keys)
            && |r.value.messages| == |keys|
            && forall i :: 0 <= i < |keys| ==> Reads(t, r.value.messages[i], keys[i])
  {
    hide Less, Rank, Reads, WellFormed, Decode;
    var hi := Start(t, prefix, cursor);
    var lo := Stop(t, prefix, hi, budget);
    var vs := ValuesDown(t, hi, lo);
    DecodeAllMeaning(vs, Decode);
    forall i | 0 <= i < |vs| ensures Decode(vs[i]).Some? && Reads(t, Decode(vs[i]).value, t[hi - i].key) {
      EntryDecodes(t, hi - i, prefix);
    }
  }

  /** `m` is what the entry under `k` holds. */
  ghost predicate Reads(t: Table, m: DiskMessage, k: string) {
    m.at >= 0 && Key(m) == k && Stored(m) in t
  }

  lemma EntryDecodes(t: Table, i: nat, prefix: string)
    requires WellFormed(t) && i < |t| && "msg:" <= prefix <= t[i].key
    ensures Decode(t[i].value).Some? && Reads(t, Decode(t[i].value).value, t[i].key)
  {
    assert t[i] in t;
    var m: DiskMessage :| m.at >= 0 && Stored(m) == t[i];
    assert ToDiskMessage(FromDiskMessage(m)) == Some(m);
  }

  lemma {:induction false} MessagesMatchKeys(ts: seq<Table>, prefix: string, cursor: Option<string>, budget: Option<nat>)
    requires ts != [] && History(ts) && "msg:" <= prefix
    ensures var ms, keys := ReadMessages(ts, prefix, cursor, budget), Flatten(ReadAll(ts, prefix, cursor, budget));
            |ms| == |keys| && forall i :: 0 <= i < |ms| ==> Reads(ts[|ts| - 1], ms[i], keys[i])
  {
    hide Less, Reads, WellFormed, PageKeys, Fetch, Grows;
    FetchMatchesKeys(ts[0], prefix, cursor, budget);
    var page := PageKeys(ts[0], prefix, cursor, budget);
    var messages := Fetch(ts[0], prefix, cursor, budget).value.messages;
    var pages := ReadAll(ts, prefix, cursor, budget);
    assert pages[0] == page && pages[1..] == ReadAll(ts[1..], prefix, Some(CursorAfter(prefix, page)), budget);
    forall i | 0 <= i < |page| ensures Reads(ts[|ts| - 1], messages[i], page[i]) {
      if |ts| > 1 { ReadsGrow(ts[0], ts[|ts| - 1], messages[i], page[i]); }
    }
    if |ts| > 1 {
      assert History(ts[1..]);
      MessagesMatchKeys(ts[1..], prefix, Some(CursorAfter(prefix, page)), budget);
    }
  }

  lemma ReadsGrow(t: Table, u: Table, m: DiskMessage, k: string)
    requires Grows(t, u) && Reads(t, m, k)
    ensures Reads(u, m, k)
  {
  }

  /** Paging from the start, while messages keep arriving: only messages of the
    room, newest first by (At, ID) and so none twice; and as soon as one page is
    short, every message of the room present at the start has been returned. */
  lemma PagingIsExact(ts: seq<Table>, room: int, limit: Option<int>)
    requires ts != [] && History(ts) && limit != Some(0)
    ensures var ms := ReadMessages(ts, RoomPrefix(room), None, Budget(limit));
            && (forall i :: 0 <= i < |ms| ==> ms[i].room == room)
            && (forall i, j :: 0 <= i < j < |ms| ==> Newer(ms[i], ms[j]))
            && ((exists page :: page in ReadAll(ts, RoomPrefix(room), None, Budget(limit)) && !IsFull(page, Budget(limit))) ==>
                  forall m: DiskMessage :: m.room == room && Stored(m) in ts[0] ==> m in ms)
  {
    var prefix, budget := RoomPrefix(room), Budget(limit);
    var ms, keys := ReadMessages(ts, prefix, None, budget), Flatten(ReadAll(ts, prefix, None, budget));
    MessagesMatchKeys(ts, prefix, None, budget);
    ReadAllIsExact(ts, prefix, None, budget);
    forall i | 0 <= i < |ms| ensures ms[i].room == room {
      assert keys[i] in keys && Reads(ts[|ts| - 1], ms[i], keys[i]);
      RoomIsolation(room, ms[i]);
    }
    forall i, j | 0 <= i < j < |ms| ensures Newer(ms[i], ms[j]) {
      assert Reads(ts[|ts| - 1], ms[i], keys[i]) && Reads(ts[|ts| - 1], ms[j], keys[j]);
      KeyOrder(ms[i], ms[j]);
    }
    if exists page :: page in ReadAll(ts, prefix, None, budget) && !IsFull(page, budget) {
      forall m: DiskMessage | m.room == room && Stored(m) in ts[0] ensures m in ms {
        PresentIsRead(ts, room, m, ms, keys);
      }
    }
  }

  /** So enough pages return every message of the room present at the start. */
  lemma PagingEnds(ts: seq<Table>, room: int, n: int)
    requires ts != [] && History(ts) && n >= 1 && |ts| * n > |ts[|ts| - 1]|
    ensures forall m: DiskMessage :: m.room == room && Stored(m) in ts[0] ==> m in ReadMessages(ts, RoomPrefix(room), None, Some(n))
  {
    hide RoomPrefix, ReadMessages, ReadAll, History, Stored, IsFull;
    ShortPageComes(ts, RoomPrefix(room), None, n);
    PagingIsExact(ts, room, Some(n));
  }

  // ------------------------------------------------------- runs of stores

  /** The table after the first `n` of these messages were stored. */
  function After(ms: seq<DiskMessage>, n: nat): Table
    requires n <= |ms|
  {
    if n == 0 then [] else With(After(ms, n - 1), ms[n - 1])
  }

  function With(t: Table, m: DiskMessage): Table { Put(t, Key(m), Marshalled(FromDiskMessage(m))) }

  predicate SameSlot(a: DiskMessage, b: DiskMessage) { a.room == b.room && a.at == b.at && a.id == b.id }

  lemma KeyNamesSlot(a: DiskMessage, b: DiskMessage)
    requires a.at >= 0 && b.at >= 0
    ensures Key(a) == Key(b) <==> SameSlot(a, b)
  {
    RoomIsolation(a.room, a);
    RoomIsolation(a.room, b);
    if a.room == b.room { KeyOrder(a, b); }
  }

  predicate Dated(ms: seq<DiskMessage>) { forall i :: 0 <= i < |ms| ==> ms[i].at >= 0 }

  predicate Apart(ms: seq<DiskMessage>) { forall i, j :: 0 <= i < j < |ms| ==> !SameSlot(ms[i], ms[j]) }

  /** The keys of the first `n` messages. */
  function KeysOf(ms: seq<DiskMessage>, n: nat): set<string>
    requires n <= |ms|
  {
    if n == 0 then {} else KeysOf(ms, n - 1) + {Key(ms[n - 1])}
  }

  lemma {:induction false} RunIsWellFormed(ms: seq<DiskMessage>, n: nat)
    requires n <= |ms| && Dated(ms)
    ensures WellFormed(After(ms, n)) && Keys(After(ms, n)) == KeysOf(ms, n)
  {
    hide Key, WellFormed, With, Keys, Grows;
    if n == 0 {
      EmptyTable();
    } else {
      RunIsWellFormed(ms, n - 1);
      WithOne(After(ms, n - 1), ms[n - 1]);
    }
  }

  lemma EmptyTable()
    ensures WellFormed([]) && Keys<Value>([]) == {}
  {
  }

  lemma WithOne(t: Table, m: DiskMessage)
    requires WellFormed(t) && m.at >= 0
    ensures WellFormed(With(t, m)) && Keys(With(t, m)) == Keys(t) + {Key(m)}
    ensures Key(m) !in Keys(t) ==> Grows(t, With(t, m))
  {
    StoreKeepsWellFormed(t, m);
    hide Key, FromDiskMessage, Put, Less, Keys, Grows;
    PutSorted(t, Key(m), Marshalled(FromDiskMessage(m)));
  }

  lemma {:induction false} NewKey(ms: seq<DiskMessage>, n: nat, m: DiskMessage)
    requires n <= |ms| && m.at >= 0 && forall i :: 0 <= i < n ==> ms[i].at >= 0 && !SameSlot(ms[i], m)
    ensures Key(m) !in KeysOf(ms, n)
  {
    hide Key, SameSlot;
    if n > 0 {
      NewKey(ms, n - 1, m);
      KeyNamesSlot(ms[n - 1], m);
    }
  }

  lemma {:induction false} RunGrows(ms: seq<DiskMessage>, i: nat, j: nat)
    requires i <= j <= |ms| && Dated(ms) && Apart(ms)
    ensures Grows(After(ms, i), After(ms, j))
  {
    hide Key, WellFormed, With, SameSlot, Keys, KeysOf, Grows;
    if i == j {
      GrowsFrom(After(ms, i));
    } else {
      var m, t := ms[j - 1], After(ms, j - 1);
      RunGrows(ms, i, j - 1);
      RunIsWellFormed(ms, j - 1);
      NewKey(ms, j - 1, m);
      WithOne(t, m);
      GrowsOn(After(ms, i), t, After(ms, j));
    }
  }

  lemma GrowsFrom(t: Table)
    ensures Grows(t, t)
  {
  }

  lemma GrowsOn(t: Table, u: Table, v: Table)
    requires Grows(t, u) && Grows(u, v)
    ensures Grows(t, v)
  {
  }

  /** The tables that stores of distinct messages pass through are a history. */
  lemma RunsAreHistory(ms: seq<DiskMessage>, moments: seq<nat>)
    requires Dated(ms) && Apart(ms) && forall i :: 0 <= i < |moments| ==> moments[i] <= |ms|
    requires forall i, j :: 0 <= i < j < |moments| ==> moments[i] <= moments[j]
    ensures History(seq(|moments|, i requires 0 <= i < |moments| => After(ms, moments[i])))
  {
    var ts := seq(|moments|, i requires 0 <= i < |moments| => After(ms, moments[i]));
    hide After, WellFormed, Grows, Dated, Apart, Keys, KeysOf;
    forall i | 0 <= i < |ts| ensures WellFormed(ts[i]) { RunIsWellFormed(ms, moments[i]); }
    forall i, j | 0 <= i < j < |ts| ensures Grows(ts[i], ts[j]) { RunGrows(ms, moments[i], moments[j]); }
  }

  lemma PresentIsRead(ts: seq<Table>, room: int, m: DiskMessage, ms: seq<DiskMessage>, keys: seq<string>)
    requires ts != [] && History(ts) && m.room == room && Stored(m) in ts[0]
    requires |ms| == |keys| && forall i :: 0 <= i < |ms| ==> Reads(ts[|ts| - 1], ms[i], keys[i])
    requires forall k :: Eligible(ts[0], RoomPrefix(room), CursorBound(RoomPrefix(room), None), k) ==> k in keys
    ensures m in ms
  {
    var last, p := ts[|ts| - 1], RoomPrefix(room);
    RoomIsolation(room, m);
    StampBelowNines(m.at, m.id);
    LessByField(p, Suffix(m), p, NINES);
    assert Eligible(ts[0], p, CursorBound(p, None), Key(m));
    var i :| 0 <= i < |keys| && keys[i] == Key(m);
    assert Reads(last, ms[i], keys[i]);
    assert Stored(m) in last by { assert Grows(ts[0], last) || |ts| == 1; }
    GetIsMembership(last, Key(m), Marshalled(FromDiskMessage(m)));
    GetIsMembership(last, Key(m), Marshalled(FromDiskMessage(ms[i])));
  }
}
