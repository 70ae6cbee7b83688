/** Cursor paging over a prefix of the table, newest key first, as the message and
  analysis repositories do it, and what a sequence of pages adds up to when the
  table gains keys between calls.
 */
module Paging {
  import opened Text
  import opened Badger

  /** What a cursor lets through: everything up to a key, or everything strictly below it. */
  datatype Bound = UpTo(key: string) | Below(key: string)

  predicate Within(k: string, b: Bound) {
    match b
    case UpTo(m) => AtMost(k, m)
    case Below(m) => Less(k, m)
  }

  /** The keys a scan is about. */
  ghost predicate Eligible<V>(t: seq<Entry<V>>, prefix: string, b: Bound, k: string) {
    k in Keys(t) && prefix <= k && Within(k, b)
  }

  /** The keys at positions `lo < i <= hi`, last one first. */
  function Descending<V>(t: seq<Entry<V>>, hi: int, lo: int): (ks: seq<string>)
    requires -1 <= lo <= hi < |t|
    ensures |ks| == hi - lo
    ensures forall n :: 0 <= n < |ks| ==> ks[n] == t[hi - n].key
  {
    seq(hi - lo, n requires 0 <= n < hi - lo => t[hi - n].key)
  }

  /** The values at those positions. */
  function ValuesDown<V>(t: seq<Entry<V>>, hi: int, lo: int): (vs: seq<V>)
    requires -1 <= lo <= hi < |t|
    ensures |vs| == hi - lo && forall n :: 0 <= n < hi - lo ==> vs[n] == t[hi - n].value
  {
    seq(hi - lo, n requires 0 <= n < hi - lo => t[hi - n].value)
  }

  ghost predicate StrictlyDescending(ks: seq<string>) {
    forall i, j :: 0 <= i < j < |ks| ==> Less(ks[j], ks[i])
  }

  /** `page` is the top of the eligible keys, in descending order and without a
    gap; when it is `last`, it is all of them. */
  ghost predicate IsPage<V>(t: seq<Entry<V>>, prefix: string, b: Bound, page: seq<string>, last: bool) {
    && StrictlyDescending(page)
    && (forall k :: k in page ==> Eligible(t, prefix, b, k))
    && (forall k :: Eligible(t, prefix, b, k) ==>
          k in page || (!last && forall x :: x in page ==> Less(k, x)))
  }

  /** A reverse scan that starts at the last eligible position and stops at `lo`,
    either because the page is full or because the prefix ends there. */
  lemma ScanIsPage<V>(t: seq<Entry<V>>, prefix: string, b: Bound, hi: int, lo: int, last: bool)
    requires Sorted(t) && -1 <= lo <= hi < |t|
    requires forall i :: 0 <= i < |t| ==> (Within(t[i].key, b) <==> i <= hi)
    requires forall i :: lo < i <= hi ==> prefix <= t[i].key
    requires last ==> lo == -1 || !(prefix <= t[lo].key)
    requires prefix <= b.key
    ensures IsPage(t, prefix, b, Descending(t, hi, lo), last)
  {
    var page := Descending(t, hi, lo);
    forall k | Eligible(t, prefix, b, k)
      ensures k in page || (!last && forall x :: x in page ==> Less(k, x))
    {
      var e :| e in t && e.key == k;
      var i :| 0 <= i < |t| && t[i] == e;
      if i > lo {
        assert page[hi - i] == k;
      } else if last {
        assert i < lo ==> Less(k, t[lo].key);
        PrefixIsInterval(prefix, k, t[lo].key, b.key);
      }
    }
  }

  function LastOf(s: seq<string>): string
    requires s != []
  {
    s[|s| - 1]
  }

  /** Reading on strictly below the last key of a page, from a table that may have
    gained keys since, extends the page without a gap and without a repeat. */
  lemma ExtendPage<V>(t: seq<Entry<V>>, u: seq<Entry<V>>, prefix: string, b: Bound, page: seq<string>, rest: seq<string>)
    requires page != [] && IsPage(t, prefix, b, page, false) && Keys(t) <= Keys(u)
    requires StrictlyDescending(rest)
    requires forall k :: k in rest ==> prefix <= k && Less(k, LastOf(page))
    ensures StrictlyDescending(page + rest)
    ensures forall k :: k in page + rest ==> prefix <= k && Within(k, b)
    ensures (forall k :: Eligible(u, prefix, Below(LastOf(page)), k) ==> k in rest) ==>
              forall k :: Eligible(t, prefix, b, k) ==> k in page + rest
  {
    var end := LastOf(page);
    assert end in page;
    forall k | k in rest ensures Within(k, b) {
      if end != b.key { LessTransitive(k, end, b.key); }
    }
    forall i, j | 0 <= i < |page| && 0 <= j < |rest| ensures Less(rest[j], page[i]) {
      assert rest[j] in rest;
      if page[i] != end { LessTransitive(rest[j], end, page[i]); }
    }
    forall k | Eligible(t, prefix, b, k) && k !in page
      ensures Eligible(u, prefix, Below(end), k)
    {
    }
  }

  // ------------------------------------------------------------- the scan

  /** Where the iterator stands once it has been positioned. */
  function Start<V>(t: seq<Entry<V>>, prefix: string, cursor: Option<string>): (i: int)
    ensures -1 <= i < |t|
  {
    match cursor
    case None => SeekReverse(t, prefix + NINES)
    case Some(c) =>
      var s := SeekReverse(t, prefix + c);
      if s >= 0 && prefix <= t[s].key then s - 1 else s
  }

  /** Where the collecting loop stops when it may still take `budget` entries. */
  function Stop<V>(t: seq<Entry<V>>, prefix: string, i: int, budget: Option<nat>): (lo: int)
    requires -1 <= i < |t|
    ensures -1 <= lo <= i
    ensures forall n :: lo < n <= i ==> prefix <= t[n].key
    ensures lo == -1 || !(prefix <= t[lo].key) || budget == Some(i - lo)
    ensures budget.Some? ==> i - lo <= budget.value
    decreases i + 1
  {
    if i < 0 || !(prefix <= t[i].key) || budget == Some(0) then i
    else Stop(t, prefix, i - 1, if budget.None? then None else Some(budget.value - 1))
  }

  /** The keys one call visits, newest first. */
  function PageKeys<V>(t: seq<Entry<V>>, prefix: string, cursor: Option<string>, budget: Option<nat>): (keys: seq<string>)
    ensures forall k :: k in keys ==> prefix <= k
  {
    var hi := Start(t, prefix, cursor);
    Descending(t, hi, Stop(t, prefix, hi, budget))
  }

  /** What follows the prefix in the last key visited. */
  function CursorAfter(prefix: string, keys: seq<string>): string
    requires forall k :: k in keys ==> prefix <= k
  {
    if keys == [] then ""
    else
      assert LastOf(keys) in keys;
      LastOf(keys)[|prefix|..]
  }

  /** The bound that a cursor stands for. */
  function CursorBound(prefix: string, cursor: Option<string>): Bound {
    match cursor
    case None => UpTo(prefix + NINES)
    case Some(c) => Below(prefix + c)
  }

  /** Cursors a caller can hold: none yet, or one taken from a key that is stored. */
  ghost predicate Issued<V>(t: seq<Entry<V>>, prefix: string, cursor: Option<string>) {
    cursor.Some? ==> prefix + cursor.value in Keys(t)
  }

  predicate IsFull(page: seq<string>, budget: Option<nat>) {
    budget == Some(|page|)
  }

  /** One call returns the next page: the newest keys below the cursor, with none skipped. */
  lemma PageIsExact<V>(t: seq<Entry<V>>, prefix: string, cursor: Option<string>, budget: Option<nat>)
    requires Sorted(t) && Issued(t, prefix, cursor)
    ensures var page := PageKeys(t, prefix, cursor, budget);
            IsPage(t, prefix, CursorBound(prefix, cursor), page, !IsFull(page, budget))
  {
    StartIsBound(t, prefix, cursor);
    var hi := Start(t, prefix, cursor);
    ScanIsPage(t, prefix, CursorBound(prefix, cursor), hi, Stop(t, prefix, hi, budget),
               !IsFull(PageKeys(t, prefix, cursor, budget), budget));
  }

  /** The iterator starts on the last key the cursor lets through. */
  lemma StartIsBound<V>(t: seq<Entry<V>>, prefix: string, cursor: Option<string>)
    requires Sorted(t) && Issued(t, prefix, cursor)
    ensures prefix <= CursorBound(prefix, cursor).key
    ensures forall i :: 0 <= i < |t| ==> (Within(t[i].key, CursorBound(prefix, cursor)) <==> i <= Start(t, prefix, cursor))
  {
    var b := CursorBound(prefix, cursor);
    SeekReverseLands(t, b.key);
    var s := SeekReverse(t, b.key);
    LessIsStrict(b.key, b.key);
    if cursor.Some? {
      var e :| e in t && e.key == b.key;
      var j :| 0 <= j < |t| && t[j] == e;
      assert s == j;
    }
    forall i | 0 <= i < |t| ensures Within(t[i].key, b) <==> i <= Start(t, prefix, cursor) {
      LessIsStrict(t[i].key, b.key);
    }
  }

  /** The empty cursor of an empty page leads nowhere, whatever is stored meanwhile. */
  lemma EmptyCursorIsFinal<V>(t: seq<Entry<V>>, prefix: string, budget: Option<nat>)
    requires Sorted(t)
    ensures PageKeys(t, prefix, Some(""), budget) == []
  {
    assert prefix + "" == prefix;
    SeekReverseLands(t, prefix);
    var s := SeekReverse(t, prefix);
    if s >= 0 && prefix <= t[s].key {
      PrefixNotLess(prefix, t[s].key);
      if s > 0 && prefix <= t[s - 1].key {
        PrefixNotLess(prefix, t[s - 1].key);
      }
    }
  }

  // -------------------------------------------------------- enough pages

  lemma {:induction false} KeysSize<V>(t: seq<Entry<V>>)
    ensures |Keys(t)| <= |t|
  {
    if t != [] {
      var n := |t| - 1;
      KeysSize(t[..n]);
      assert t == t[..n] + [t[n]];
      assert Keys(t) == Keys(t[..n]) + {t[n].key};
    }
  }

  /** A strictly descending list of stored keys is no longer than the table. */
  lemma StoredKeysFit<V>(t: seq<Entry<V>>, keys: seq<string>)
    requires StrictlyDescending(keys) && forall k :: k in keys ==> k in Keys(t)
    ensures |keys| <= |t|
  {
    forall i, j | 0 <= i < j < |keys| ensures keys[i] != keys[j] { LessIsStrict(keys[j], keys[i]); }
    hide Less, Keys;
    DistinctSize(keys);
    SubsetSize((set k | k in keys), Keys(t));
    KeysSize(t);
  }

  // ------------------------------------------------- steps of the scan loop

  /** Positioning the iterator: seek, and step over the key the cursor names. */
  method Position<V>(txn: seq<Entry<V>>, prefix: string, cursor: Option<string>) returns (it: int)
    ensures it == Start(txn, prefix, cursor)
  {
    hide Less, Rank;
    var seekKey := if cursor.None? then prefix + NINES else prefix + cursor.value;
    it := SeekReverse(txn, seekKey);
    if cursor.Some? && it >= 0 && prefix <= txn[it].key {
      it := it - 1;
    }
  }

  lemma StopStep<V>(t: seq<Entry<V>>, prefix: string, i: int, budget: Option<nat>)
    requires -1 <= i < |t|
    ensures Stop(t, prefix, i, budget) ==
      if i < 0 || !(prefix <= t[i].key) || budget == Some(0) then i
      else Stop(t, prefix, i - 1, if budget.None? then None else Some(budget.value - 1))
  {
  }

  /** The last key collected is the cursor. */
  lemma CursorOfScan<V>(t: seq<Entry<V>>, prefix: string, cursor: Option<string>, budget: Option<nat>, lastKey: string)
    requires var hi := Start(t, prefix, cursor);
             var lo := Stop(t, prefix, hi, budget);
             lastKey == if lo == hi then "" else t[lo + 1].key[|prefix|..]
    ensures lastKey == CursorAfter(prefix, PageKeys(t, prefix, cursor, budget))
    ensures var hi := Start(t, prefix, cursor);
            |PageKeys(t, prefix, cursor, budget)| == hi - Stop(t, prefix, hi, budget)
  {
    hide Less, Rank;
    var hi := Start(t, prefix, cursor);
    var lo := Stop(t, prefix, hi, budget);
    var keys := PageKeys(t, prefix, cursor, budget);
    assert keys == Descending(t, hi, lo);
    if lo < hi { assert LastOf(keys) == t[lo + 1].key; }
  }
}
