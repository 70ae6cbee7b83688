/** The embedded key-value store: a table sorted by key, with the point operations and
  the forward and reverse iterators the repositories use. */
module Badger {
  import opened Text

  datatype Entry<+V> = Entry(key: string, value: V)

  ghost predicate Sorted<V>(t: seq<Entry<V>>) {
    forall i, j :: 0 <= i < j < |t| ==> Less(t[i].key, t[j].key)
  }

  ghost function Keys<V>(t: seq<Entry<V>>): set<string> {
    set e | e in t :: e.key
  }

  /** How many entries come before `k`. */
  function Rank<V>(t: seq<Entry<V>>, k: string): (r: nat)
    ensures r <= |t|
    ensures forall i :: 0 <= i < r ==> Less(t[i].key, k)
    ensures r < |t| ==> !Less(t[r].key, k)
  {
    if t != [] && Less(t[0].key, k) then 1 + Rank(t[1..], k) else 0
  }

  function Get<V>(t: seq<Entry<V>>, k: string): Option<V> {
    var r := Rank(t, k);
    if r < |t| && t[r].key == k then Some(t[r].value) else None
  }

  /** The entries after `k`. */
  function Tail<V>(t: seq<Entry<V>>, k: string): seq<Entry<V>> {
    var r := Rank(t, k);
    if r < |t| && t[r].key == k then t[r + 1..] else t[r..]
  }

  function Put<V>(t: seq<Entry<V>>, k: string, v: V): seq<Entry<V>> {
    t[..Rank(t, k)] + [Entry(k, v)] + Tail(t, k)
  }

  function Remove<V>(t: seq<Entry<V>>, k: string): seq<Entry<V>> {
    t[..Rank(t, k)] + Tail(t, k)
  }

  lemma AboveRank<V>(t: seq<Entry<V>>, k: string)
    requires Sorted(t)
    ensures forall i :: Rank(t, k) <= i < |t| ==> t[i].key == k || Less(k, t[i].key)
    ensures forall i :: Rank(t, k) < i < |t| ==> Less(k, t[i].key)
  {
    var r := Rank(t, k);
    if r < |t| {
      LessTotal(t[r].key, k);
      forall i | r < i < |t| ensures Less(k, t[i].key) {
        if t[r].key != k { LessTransitive(k, t[r].key, t[i].key); }
      }
    }
  }

  /** An entry is in the table exactly when its key looks up to its value. */
  lemma GetIsMembership<V>(t: seq<Entry<V>>, k: string, v: V)
    requires Sorted(t)
    ensures Get(t, k) == Some(v) <==> Entry(k, v) in t
    ensures Get(t, k).Some? <==> k in Keys(t)
  {
    AboveRank(t, k);
    LessIsStrict(k, k);
    var r := Rank(t, k);
    if k in Keys(t) {
      var e :| e in t && e.key == k;
      var i :| 0 <= i < |t| && t[i] == e;
      assert i == r;
    }
    if Entry(k, v) in t {
      var i :| 0 <= i < |t| && t[i] == Entry(k, v);
      assert i == r;
    }
  }

  /** A key splits the table into what comes before it and what comes after it. */
  lemma SplitAt<V>(t: seq<Entry<V>>, k: string)
    requires Sorted(t)
    ensures var a, b := t[..Rank(t, k)], Tail(t, k);
            && Sorted(a) && Sorted(b)
            && (forall e :: e in a ==> Less(e.key, k))
            && (forall e :: e in b ==> Less(k, e.key))
            && (forall e :: e in t && e.key != k <==> e in a || e in b)
  {
    hide Less, Rank;
    AboveRank(t, k);
    var r := Rank(t, k);
    var a, b := t[..r], Tail(t, k);
    var from := |t| - |b|;
    assert b == t[from..] && r <= from <= r + 1;
    forall e | e in b ensures Less(k, e.key) {
      var i :| 0 <= i < |b| && b[i] == e;
      assert t[from + i] == e;
    }
    forall e ensures e in t && e.key != k <==> e in a || e in b {
      LessIsStrict(e.key, k);
      InParts(t, r, from, e);
    }
  }

  lemma InParts<T>(t: seq<T>, r: nat, from: nat, e: T)
    requires r <= from <= |t|
    ensures e in t <==> e in t[..r] || e in t[r..from] || e in t[from..]
  {
    assert t == t[..r] + t[r..from] + t[from..];
  }

  lemma JoinSorted<V>(a: seq<Entry<V>>, b: seq<Entry<V>>)
    requires Sorted(a) && Sorted(b)
    requires forall e, f :: e in a && f in b ==> Less(e.key, f.key)
    ensures Sorted(a + b)
  {
    forall i, j | 0 <= i < |a| && 0 <= j < |b| ensures Less(a[i].key, b[j].key) {
      assert a[i] in a && b[j] in b;
    }
  }

  lemma PutSorted<V>(t: seq<Entry<V>>, k: string, v: V)
    requires Sorted(t)
    ensures Sorted(Put(t, k, v))
    ensures Keys(Put(t, k, v)) == Keys(t) + {k}
    ensures forall e :: e in Put(t, k, v) <==> e == Entry(k, v) || (e in t && e.key != k)
  {
    SplitAt(t, k);
    InsertSorted(t[..Rank(t, k)], Entry(k, v), Tail(t, k));
    KeysOfPut(t, Put(t, k, v), Entry(k, v));
  }

  lemma InsertSorted<V>(a: seq<Entry<V>>, x: Entry<V>, b: seq<Entry<V>>)
    requires Sorted(a) && Sorted(b)
    requires forall e :: e in a ==> Less(e.key, x.key)
    requires forall e :: e in b ==> Less(x.key, e.key)
    ensures Sorted(a + [x] + b)
    ensures Sorted(a + b)
    ensures forall e :: e in a + [x] + b <==> e == x || e in a || e in b
  {
    forall e, f | e in a && f in b ensures Less(e.key, f.key) {
      LessTransitive(e.key, x.key, f.key);
    }
    JoinSorted(a, b);
    JoinSorted(a, [x]);
    JoinSorted(a + [x], b);
  }

  lemma KeysOfPut<V>(t: seq<Entry<V>>, u: seq<Entry<V>>, x: Entry<V>)
    requires forall e :: e in u <==> e == x || (e in t && e.key != x.key)
    ensures Keys(u) == Keys(t) + {x.key}
  {
    assert x in u;
    forall k | k in Keys(t) && k != x.key ensures k in Keys(u) {
      var e :| e in t && e.key == k;
      assert e in u;
    }
  }

  lemma RemoveSorted<V>(t: seq<Entry<V>>, k: string)
    requires Sorted(t)
    ensures Sorted(Remove(t, k))
    ensures forall e :: e in Remove(t, k) <==> e in t && e.key != k
  {
    SplitAt(t, k);
    var a, b := t[..Rank(t, k)], Tail(t, k);
    forall e, f | e in a && f in b ensures Less(e.key, f.key) {
      LessTransitive(e.key, k, f.key);
    }
    JoinSorted(a, b);
  }

  /** Reading back a write: the written key answers the new value, every other key as before. */
  lemma GetAfterPut<V>(t: seq<Entry<V>>, k: string, v: V, q: string)
    requires Sorted(t)
    ensures Get(Put(t, k, v), q) == if q == k then Some(v) else Get(t, q)
  {
    PutSorted(t, k, v);
    var u := Put(t, k, v);
    GetIsMembership(u, k, v);
    if q != k {
      match Get(t, q)
      case Some(w) =>
        GetIsMembership(t, q, w);
        GetIsMembership(u, q, w);
      case None =>
        GetIsMembership(t, q, v);
        GetIsMembership(u, q, v);
    }
  }

  // ------------------------------------------------- reverse iteration

  /** Reverse `Seek`: the position of the largest key that is at most `k`, or -1. */
  function SeekReverse<V>(t: seq<Entry<V>>, k: string): (i: int)
    ensures -1 <= i < |t|
  {
    var r := Rank(t, k);
    if r < |t| && t[r].key == k then r else r - 1
  }

  lemma SeekReverseLands<V>(t: seq<Entry<V>>, k: string)
    requires Sorted(t)
    ensures var s := SeekReverse(t, k);
            && (forall i :: 0 <= i <= s ==> AtMost(t[i].key, k))
            && (forall i :: s < i < |t| ==> Less(k, t[i].key))
  {
    AboveRank(t, k);
  }

  // ------------------------------------------------------ one key family

  /** The entries whose key starts with `prefix`, in key order. */
  function Under<V>(t: seq<Entry<V>>, prefix: string): (u: seq<Entry<V>>)
    ensures forall e :: e in u ==> e in t && prefix <= e.key
    ensures forall e :: e in t && prefix <= e.key ==> e in u
  {
    if t == [] then []
    else (if prefix <= t[0].key then [t[0]] else []) + Under(t[1..], prefix)
  }

  lemma {:induction false} UnderConcat<V>(a: seq<Entry<V>>, b: seq<Entry<V>>, prefix: string)
    ensures Under(a + b, prefix) == Under(a, prefix) + Under(b, prefix)
  {
    if a == [] {
      assert a + b == b;
    } else {
      assert (a + b)[0] == a[0] && (a + b)[1..] == a[1..] + b;
      UnderConcat(a[1..], b, prefix);
    }
  }

  lemma {:induction false} UnderSorted<V>(t: seq<Entry<V>>, prefix: string)
    requires Sorted(t)
    ensures Sorted(Under(t, prefix))
  {
    if t != [] {
      UnderSorted(t[1..], prefix);
      JoinSorted([t[0]], Under(t[1..], prefix));
      assert [t[0]] + Under(t[1..], prefix) == Under(t, prefix) || Under(t[1..], prefix) == Under(t, prefix);
    }
  }

  /** What stands between the entries before a key and the entries after it. */
  function At<V>(t: seq<Entry<V>>, k: string): seq<Entry<V>> {
    match Get(t, k)
    case Some(v) => [Entry(k, v)]
    case None => []
  }

  lemma TableAround<V>(t: seq<Entry<V>>, k: string)
    ensures t == t[..Rank(t, k)] + At(t, k) + Tail(t, k)
  {
    hide Less, Rank;
    var r := Rank(t, k);
    CutOut(t, r);
  }

  lemma CutOut<T>(t: seq<T>, r: nat)
    requires r <= |t|
    ensures t == t[..r] + [] + t[r..]
    ensures r < |t| ==> t == t[..r] + [t[r]] + t[r + 1..]
  {
  }

  lemma UnderThree<V>(a: seq<Entry<V>>, x: seq<Entry<V>>, b: seq<Entry<V>>, prefix: string)
    ensures Under(a + x + b, prefix) == Under(a, prefix) + Under(x, prefix) + Under(b, prefix)
  {
    UnderConcat(a + x, b, prefix);
    UnderConcat(a, x, prefix);
  }

  lemma UnderOne<V>(x: Entry<V>, prefix: string)
    ensures Under([x], prefix) == if prefix <= x.key then [x] else []
  {
    assert [x][1..] == [];
    assert Under([x][1..], prefix) == [];
  }

  /** A write outside a family leaves it alone. */
  lemma UnderPutOutside<V>(t: seq<Entry<V>>, k: string, v: V, prefix: string)
    requires !(prefix <= k)
    ensures Under(Put(t, k, v), prefix) == Under(t, prefix)
  {
    hide Less, Rank, Tail;
    var a, b := t[..Rank(t, k)], Tail(t, k);
    TableAround(t, k);
    UnderThree(a, [Entry(k, v)], b, prefix);
    UnderThree(a, At(t, k), b, prefix);
    UnderOne(Entry(k, v), prefix);
    assert Under(At(t, k), prefix) == [] by {
      if Get(t, k).Some? { UnderOne(Entry(k, Get(t, k).value), prefix); }
    }
  }

  /** A new key adds one entry to its family and moves nothing else. */
  lemma UnderPutNew<V>(t: seq<Entry<V>>, k: string, v: V, prefix: string) returns (j: nat)
    requires Sorted(t) && prefix <= k && k !in Keys(t)
    ensures var u := Under(t, prefix);
            j <= |u| && Under(Put(t, k, v), prefix) == u[..j] + [Entry(k, v)] + u[j..]
  {
    hide Less, Rank, Tail;
    var a, b := t[..Rank(t, k)], Tail(t, k);
    GetIsMembership(t, k, v);
    TableAround(t, k);
    assert a + At(t, k) + b == a + b;
    hide Under, Sorted, Keys, Get;
    UnderThree(a, [Entry(k, v)], b, prefix);
    UnderConcat(a, b, prefix);
    UnderOne(Entry(k, v), prefix);
    j := |Under(a, prefix)|;
  }

  /** Deleting one member closes the gap and moves nothing else. */
  lemma UnderRemove<V>(t: seq<Entry<V>>, prefix: string, j: nat)
    requires Sorted(t) && j < |Under(t, prefix)|
    ensures var u := Under(t, prefix);
            Under(Remove(t, u[j].key), prefix) == u[..j] + u[j + 1..]
  {
    hide Less, Rank, Tail;
    var u := Under(t, prefix);
    var x := u[j];
    assert x in u;
    GetIsMembership(t, x.key, x.value);
    var a, b := t[..Rank(t, x.key)], Tail(t, x.key);
    TableAround(t, x.key);
    UnderThree(a, [x], b, prefix);
    UnderConcat(a, b, prefix);
    UnderOne(x, prefix);
    UnderSorted(t, prefix);
    PositionInSorted(u, Under(a, prefix), x, Under(b, prefix), j);
  }

  lemma PositionInSorted<V>(u: seq<Entry<V>>, a: seq<Entry<V>>, x: Entry<V>, b: seq<Entry<V>>, j: nat)
    requires Sorted(u) && u == a + [x] + b && j < |u| && u[j] == x
    ensures a == u[..j] && b == u[j + 1..]
  {
    LessIsStrict(x.key, x.key);
    assert u[|a|] == x;
  }

  /** Forward `Seek` to the prefix reaches the family's first entry. */
  lemma FamilyStart<V>(t: seq<Entry<V>>, prefix: string)
    ensures Under(t[Rank(t, prefix)..], prefix) == Under(t, prefix)
  {
    hide Under, Less, Rank;
    var r := Rank(t, prefix);
    forall e | e in t[..r] ensures !(prefix <= e.key) {
      var i :| 0 <= i < r && t[i] == e;
      if prefix <= e.key { PrefixNotLess(prefix, e.key); }
    }
    NothingUnder(t[..r], prefix);
    UnderConcat(t[..r], t[r..], prefix);
    assert t[..r] + t[r..] == t;
  }

  /** From there the family is contiguous: it ends at the first key without the prefix. */
  lemma FamilyNext<V>(t: seq<Entry<V>>, prefix: string, i: nat)
    requires Sorted(t) && Rank(t, prefix) <= i <= |t|
    ensures i < |t| && prefix <= t[i].key ==> Under(t[i..], prefix) == [t[i]] + Under(t[i + 1..], prefix)
    ensures i == |t| || !(prefix <= t[i].key) ==> Under(t[i..], prefix) == []
  {
    if i < |t| {
      assert t[i..][1..] == t[i + 1..];
      if !(prefix <= t[i].key) {
        AboveRank(t, prefix);
        forall e | e in t[i..] ensures !(prefix <= e.key) {
          var j :| i <= j < |t| && t[j] == e;
          if prefix <= e.key { PrefixIsInterval(prefix, prefix, t[i].key, e.key); }
        }
        NothingUnder(t[i..], prefix);
      }
    }
  }

  lemma NothingUnder<V>(t: seq<Entry<V>>, prefix: string)
    requires forall e :: e in t ==> !(prefix <= e.key)
    ensures Under(t, prefix) == []
  {
    if |Under(t, prefix)| > 0 { assert Under(t, prefix)[0] in Under(t, prefix); }
  }

  // ------------------------------------------------------ stored values

  /** Decoding values one by one; one that does not decode is an error for all. */
  function DecodeAll<V, T>(vs: seq<V>, decode: V -> Option<T>): Option<seq<T>> {
    if vs == [] then Some([])
    else
      var front, last := DecodeAll(vs[..|vs| - 1], decode), decode(vs[|vs| - 1]);
      if front.None? || last.None? then None else Some(front.value + [last.value])
  }

  lemma {:induction false} DecodeAllMeaning<V, T>(vs: seq<V>, decode: V -> Option<T>)
    ensures match DecodeAll(vs, decode)
            case Some(ts) => |ts| == |vs| && forall i :: 0 <= i < |vs| ==> decode(vs[i]) == Some(ts[i])
            case None => exists i :: 0 <= i < |vs| && decode(vs[i]).None?
  {
    if vs != [] {
      DecodeAllMeaning(vs[..|vs| - 1], decode);
      assert forall i :: 0 <= i < |vs| - 1 ==> vs[i] == vs[..|vs| - 1][i];
    }
  }

  lemma DecodeNothing<V, T>(vs: seq<V>, decode: V -> Option<T>)
    ensures vs[0..] == vs && DecodeAll(vs[..0], decode) == Some([])
  {
  }

  lemma DecodeStep<V, T>(vs: seq<V>, n: nat, decode: V -> Option<T>)
    requires n < |vs|
    ensures DecodeAll(vs[..n + 1], decode) ==
      if DecodeAll(vs[..n], decode).None? || decode(vs[n]).None? then None
      else Some(DecodeAll(vs[..n], decode).value + [decode(vs[n]).value])
  {
    assert vs[..n + 1][..n] == vs[..n];
  }
}
