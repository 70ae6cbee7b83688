/** Key text: the byte order Badger sorts by, and the decimal fields inside keys.

  Keys are strings. Badger compares their UTF-8 bytes, and that order is the
  order of code points, which is what `Less` compares.
 */
module Text {

  datatype Option<+T> = None | Some(value: T)

  function Flatten<T>(pages: seq<seq<T>>): seq<T> {
    if pages == [] then [] else pages[0] + Flatten(pages[1..])
  }

  lemma {:induction false} FlattenConcat<T>(a: seq<seq<T>>, b: seq<seq<T>>)
    ensures Flatten(a + b) == Flatten(a) + Flatten(b)
  {
    if a == [] {
      assert a + b == b;
    } else {
      assert (a + b)[1..] == a[1..] + b;
      FlattenConcat(a[1..], b);
    }
  }

  lemma FlattenOne<T>(page: seq<T>)
    ensures Flatten([page]) == page
  {
    assert [page][1..] == [];
    assert Flatten([page][1..]) == [];
  }

  lemma {:induction false} DistinctSize<T>(s: seq<T>)
    requires forall i, j :: 0 <= i < j < |s| ==> s[i] != s[j]
    ensures |set x | x in s| == |s|
  {
    if s != [] {
      var n := |s| - 1;
      DistinctSize(s[..n]);
      assert (set x | x in s) == (set x | x in s[..n]) + {s[n]};
    }
  }

  lemma {:induction false} SubsetSize<T>(a: set<T>, b: set<T>)
    requires a <= b
    ensures |a| <= |b|
  {
    if a != {} {
      var x :| x in a;
      SubsetSize(a - {x}, b - {x});
    }
  }

  function Min(a: nat, b: nat): nat { if a < b then a else b }

  /** Conversion of an `int` to a signed 32-bit integer. */
  function Int32(n: int): (r: int)
    ensures -0x8000_0000 <= r < 0x8000_0000
    ensures r == n <==> -0x8000_0000 <= n < 0x8000_0000
    ensures (r - n) % 0x1_0000_0000 == 0
  {
    (n + 0x8000_0000) % 0x1_0000_0000 - 0x8000_0000
  }

  /** Timestamps are `UnixNano` values, which are 64-bit. */
  type Nanos = n: int | -0x8000_0000_0000_0000 <= n < 0x8000_0000_0000_0000

  /** The canonical text of a UUID (section 4 of RFC 9562). UUIDs are written as
    their text: `String` and `Parse` are the identity on it. */
  predicate IsUuid(s: string) {
    && |s| == 36
    && forall i :: 0 <= i < 36 ==>
         if i == 8 || i == 13 || i == 18 || i == 23 then s[i] == '-'
         else '0' <= s[i] <= '9' || 'a' <= s[i] <= 'f'
  }

  type Uuid = s: string | IsUuid(s) witness "00000000-0000-0000-0000-000000000000"

  /** Strict lexicographic order. */
  predicate Less(a: string, b: string) {
    && b != ""
    && (a == "" || a[0] < b[0] || (a[0] == b[0] && Less(a[1..], b[1..])))
  }

  predicate AtMost(a: string, b: string) {
    a == b || Less(a, b)
  }

  lemma {:induction false} LessIsStrict(a: string, b: string)
    ensures !Less(a, a)
    ensures Less(a, b) ==> !Less(b, a)
  {
    if a != "" {
      LessIsStrict(a[1..], if b == "" then "" else b[1..]);
    }
  }

  lemma {:induction false} LessTransitive(a: string, b: string, c: string)
    requires Less(a, b) && Less(b, c)
    ensures Less(a, c)
  {
    if a != "" && a[0] == b[0] == c[0] {
      LessTransitive(a[1..], b[1..], c[1..]);
    }
  }

  lemma {:induction false} LessTotal(a: string, b: string)
    ensures a == b || Less(a, b) || Less(b, a)
  {
    if a != "" && b != "" && a[0] == b[0] {
      LessTotal(a[1..], b[1..]);
      assert a == [a[0]] + a[1..] && b == [b[0]] + b[1..];
    }
  }

  /** Comparing two keys field by field: the first fields decide unless they are equal. */
  lemma {:induction false} LessByField(a: string, b: string, c: string, d: string)
    requires |a| == |c|
    ensures Less(a + b, c + d) <==> Less(a, c) || (a == c && Less(b, d))
  {
    if a == "" {
      assert a + b == b && c + d == d;
      LessIsStrict("", "");
    } else {
      assert (a + b)[1..] == a[1..] + b && (c + d)[1..] == c[1..] + d;
      LessByField(a[1..], b, c[1..], d);
      assert a == [a[0]] + a[1..] && c == [c[0]] + c[1..];
    }
  }

  /** Keys that share a prefix are contiguous in key order. */
  lemma {:induction false} PrefixIsInterval(p: string, a: string, b: string, c: string)
    requires p <= a && p <= c && AtMost(a, b) && AtMost(b, c)
    ensures p <= b
  {
    if p != "" {
      assert a != "" && b != "" && a[0] <= b[0] <= c[0];
      PrefixIsInterval(p[1..], a[1..], b[1..], c[1..]);
      assert p == [p[0]] + p[1..] && b == [b[0]] + b[1..];
    }
  }

  lemma {:induction false} PrefixNotLess(p: string, k: string)
    requires p <= k
    ensures !Less(k, p)
  {
    if p != "" { PrefixNotLess(p[1..], k[1..]); }
  }

  // ---------------------------------------------------------------- decimals

  predicate IsDigit(c: char) { '0' <= c <= '9' }

  predicate AllDigits(s: string) { forall i :: 0 <= i < |s| ==> IsDigit(s[i]) }

  function DigitChar(d: nat): (c: char)
    requires d < 10
    ensures IsDigit(c) && c as int - '0' as int == d
  {
    ('0' as int + d) as char
  }

  /** The digits of `%d` for a number that is not negative. */
  function Decimal(n: nat): (s: string)
    ensures s != "" && AllDigits(s) && NumberOf(s) == n
    ensures s[0] == '0' ==> n == 0
  {
    if n < 10 then
      assert NumberOf([]) == 0;
      [DigitChar(n)]
    else
      var head := Decimal(n / 10);
      assert (head + [DigitChar(n % 10)])[..|head|] == head;
      head + [DigitChar(n % 10)]
  }

  /** The number a digit string denotes. */
  function NumberOf(s: string): nat
    requires AllDigits(s)
  {
    if s == "" then 0
    else 10 * NumberOf(s[..|s| - 1]) + (s[|s| - 1] as int - '0' as int)
  }

  /** The zero padding that `%0<width>d` adds in front. */
  function PadTo(width: nat, s: string): (r: string)
    requires AllDigits(s)
    ensures AllDigits(r) && |r| == (if |s| < width then width else |s|)
    ensures NumberOf(r) == NumberOf(s)
    decreases width - |s|
  {
    if |s| >= width then s
    else
      LeadingZero(s);
      PadTo(width, "0" + s)
  }

  /** `%d` */
  function Format(n: int): string {
    if n < 0 then "-" + Decimal(-n) else Decimal(n)
  }

  /** `%019d`: the sign counts towards the width. */
  function Format019(n: int): string {
    if n < 0 then "-" + PadTo(18, Decimal(-n)) else PadTo(19, Decimal(n))
  }

  lemma {:induction false} LeadingZero(s: string)
    requires AllDigits(s)
    ensures AllDigits("0" + s) && NumberOf("0" + s) == NumberOf(s)
  {
    if s == "" {
      assert NumberOf("") == 0 && "0"[..0] == "";
    } else {
      LeadingZero(s[..|s| - 1]);
      assert ("0" + s)[..|s|] == "0" + s[..|s| - 1];
    }
  }

  /** Digit strings of one width are ordered as the numbers they denote. */
  lemma {:induction false} ValueOrder(a: string, b: string)
    requires AllDigits(a) && AllDigits(b) && |a| == |b|
    ensures Less(a, b) <==> NumberOf(a) < NumberOf(b)
    ensures a == b <==> NumberOf(a) == NumberOf(b)
  {
    if a == "" {
      assert b == "";
    } else {
      var k := |a| - 1;
      ValueOrder(a[..k], b[..k]);
      LessByField(a[..k], a[k..], b[..k], b[k..]);
      assert a == a[..k] + a[k..] && b == b[..k] + b[k..];
      assert a[k..] == [a[k]] && b[k..] == [b[k]];
      assert Less([a[k]], [b[k]]) <==> a[k] < b[k];
    }
  }

  function Pow10(k: nat): nat {
    if k == 0 then 1 else 10 * Pow10(k - 1)
  }

  /** `k` digits are enough exactly for the numbers below 10^k. */
  lemma {:induction false} DecimalWidth(n: nat, k: nat)
    requires k > 0
    ensures |Decimal(n)| <= k <==> n < Pow10(k)
  {
    if n >= 10 {
      if k == 1 {
        assert |Decimal(n)| == |Decimal(n / 10)| + 1;
      } else {
        DecimalWidth(n / 10, k - 1);
      }
    } else {
      Pow10Grows(k);
    }
  }

  lemma {:induction false} Pow10Grows(k: nat)
    requires k > 0
    ensures Pow10(k) >= 10
  {
    if k > 1 { Pow10Grows(k - 1); }
  }

  lemma Pow10Of19()
    ensures Pow10(19) == 1000_0000_0000_0000_0000
  {
    assert Pow10(7) == 1000_0000;
    assert Pow10(13) == 10_0000_0000_0000;
  }

  /** Nineteen digits hold every timestamp from 1970 on. */
  lemma TimestampWidth(t: Nanos)
    requires t >= 0
    ensures AllDigits(Format019(t)) && |Format019(t)| == 19 && NumberOf(Format019(t)) == t
  {
    Pow10Of19();
    DecimalWidth(t, 19);
  }

  lemma Pow10Of18()
    ensures Pow10(18) == 100_0000_0000_0000_0000
  {
    assert Pow10(6) == 100_0000;
    assert Pow10(12) == 100_0000_0000_0000_0000 / 100_0000;
  }

  /** Before 1970 the sign takes the place of one digit, as long as eighteen are enough. */
  lemma TimestampBefore1970(t: int)
    requires -0x8000_0000_0000_0000 <= t < 0
    ensures Format019(t)[0] == '-' && AllDigits(Format019(t)[1..]) && NumberOf(Format019(t)[1..]) == -t
    ensures |Format019(t)| == if t > -100_0000_0000_0000_0000 then 19 else 20
  {
    var digits := Decimal(-t);
    Pow10Of18();
    Pow10Of19();
    DecimalWidth(-t, 18);
    DecimalWidth(-t, 19);
    hide Decimal, NumberOf, Pow10, PadTo;
    assert Format019(t) == "-" + PadTo(18, digits);
    assert Format019(t)[1..] == PadTo(18, digits);
  }

  /** Of two times less than 10^18 nanoseconds before 1970, the earlier one sorts first exactly
    when the later one is not before 1970. */
  lemma TimestampOrderIff(t: Nanos, u: Nanos)
    requires -100_0000_0000_0000_0000 < t < u
    ensures Less(Format019(t), Format019(u)) <==> u >= 0
  {
    if t >= 0 {
      TimestampOrder(t, u);
    } else if u >= 0 {
      TimestampBefore1970(t);
      TimestampWidth(u);
      assert IsDigit(Format019(u)[0]);
    } else {
      TimestampBefore1970(t);
      TimestampBefore1970(u);
      ValueOrder(Format019(u)[1..], Format019(t)[1..]);
      LessIsStrict(Format019(u)[1..], Format019(t)[1..]);
    }
  }

  /** Padded timestamps sort as the times they stand for. */
  lemma TimestampOrder(t: Nanos, u: Nanos)
    requires t >= 0 && u >= 0
    ensures Less(Format019(t), Format019(u)) <==> t < u
    ensures Format019(t) == Format019(u) <==> t == u
  {
    TimestampWidth(t);
    TimestampWidth(u);
    ValueOrder(Format019(t), Format019(u));
  }

  /** The text reverse scans start from; it is above every timestamp field. */
  const NINES: string := "9999999999999999999"

  lemma {:induction false} NinesValue(s: string)
    requires forall i :: 0 <= i < |s| ==> s[i] == '9'
    ensures AllDigits(s) && NumberOf(s) == Pow10(|s|) - 1
  {
    if s != "" { NinesValue(s[..|s| - 1]); }
  }

  lemma BelowNines(t: Nanos, rest: string)
    ensures Less(Format019(t) + rest, NINES)
  {
    if t >= 0 {
      TimestampWidth(t);
      NinesValue(NINES);
      Pow10Of19();
      ValueOrder(Format019(t), NINES);
      LessByField(Format019(t), rest, NINES, "");
      assert NINES + "" == NINES;
    }
  }

  /** Fields end at the first separator, so equal texts have equal fields. */
  lemma {:induction false} SplitAtColon(a: string, b: string, c: string, d: string)
    requires ':' !in a && ':' !in c
    requires a + ":" + b <= c + ":" + d || c + ":" + d <= a + ":" + b
    ensures a == c
  {
    var s, t := a + ":" + b, c + ":" + d;
    assert s[0] == t[0];
    assert s[0] == if a == "" then ':' else a[0];
    assert t[0] == if c == "" then ':' else c[0];
    if a != "" && c != "" {
      assert s[1..] == a[1..] + ":" + b && t[1..] == c[1..] + ":" + d;
      SplitAtColon(a[1..], b, c[1..], d);
      assert a == [a[0]] + a[1..] && c == [c[0]] + c[1..];
    }
  }

  /** A prefix that ends with a whole field matches that field only. */
  lemma FieldPrefix(lead: string, a: string, c: string, rest: string)
    requires ':' !in a && ':' !in c
    ensures lead + a + ":" <= lead + c + ":" + rest <==> a == c
  {
    var p, k, n := lead + a + ":", lead + c + ":" + rest, |lead|;
    assert p[n..] == a + ":" + "" && k[n..] == c + ":" + rest;
    if p <= k {
      assert p[n..] <= k[n..];
      SplitAtColon(a, "", c, rest);
    }
  }

  /** Decimal fields hold no separator and determine the number. */
  lemma FormatIsField(n: int, m: int)
    ensures ':' !in Format(n)
    ensures Format(n) == Format(m) <==> n == m
  {
    assert n < 0 ==> Format(n)[0] == '-' && Format(n)[1..] == Decimal(-n);
    assert m < 0 ==> Format(m)[0] == '-' && Format(m)[1..] == Decimal(-m);
    assert n >= 0 ==> IsDigit(Format(n)[0]) && NumberOf(Format(n)) == n;
    assert m >= 0 ==> IsDigit(Format(m)[0]) && NumberOf(Format(m)) == m;
  }

  /** The end of every stored key: the time, then the identifier. */
  function Stamp(at: Nanos, id: Uuid): string { Format019(at) + ":" + id }

  /** Stamps sort by time and then by identifier, and determine both. */
  lemma StampOrder(t: Nanos, i: Uuid, u: Nanos, j: Uuid)
    requires t >= 0 && u >= 0
    ensures Less(Stamp(t, i), Stamp(u, j)) <==> t < u || (t == u && Less(i, j))
    ensures Stamp(t, i) == Stamp(u, j) <==> t == u && i == j
  {
    var a, b := Format019(t), Format019(u);
    TimestampWidth(t);
    TimestampWidth(u);
    TimestampOrder(t, u);
    assert Stamp(t, i) == a + (":" + i) && Stamp(u, j) == b + (":" + j);
    LessByField(a, ":" + i, b, ":" + j);
    LessByField(":", i, ":", j);
    LessIsStrict(":", ":");
    if Stamp(t, i) == Stamp(u, j) {
      assert Stamp(t, i)[..19] == a && Stamp(u, j)[..19] == b;
      assert Stamp(t, i)[20..] == i && Stamp(u, j)[20..] == j;
    }
  }

  lemma StampBelowNines(t: Nanos, i: Uuid)
    ensures Less(Stamp(t, i), NINES)
  {
    BelowNines(t, ":" + i);
    assert Format019(t) + (":" + i) == Stamp(t, i);
  }
}
