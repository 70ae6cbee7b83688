/** What censoring achieves: which spellings it covers, when a censored text is clean, and
  what a replacement rune that counts as noise does. */
module Censoring {
  import opened Moderation

  // ----------------------------------------- spans, without any index mapping

  lemma {:induction false} NormConcat(u: Unicode, a: string, b: string)
    ensures Norm(u, a + b) == Norm(u, a) + Norm(u, b)
  {
    hide IsNoise, Fold;
    if b == [] {
      assert a + b == a;
    } else {
      var n := |b| - 1;
      assert (a + b)[..|a + b| - 1] == a + b[..n];
      NormConcat(u, a, b[..n]);
    }
  }

  /** A kept rune stands in the normal form after those kept before it. */
  lemma {:induction false} RankOfPosition(u: Unicode, s: string, i: nat)
    requires i < |s| && !IsNoise(u, s[i])
    ensures var k := |Norm(u, s[..i])|;
            k < |Kept(u, s)| && Kept(u, s)[k] == i
  {
    hide IsNoise, Fold;
    var n := |s| - 1;
    if i == n {
      KeptMeaning(u, s[..n]);
    } else {
      RankOfPosition(u, s[..n], i);
      assert s[..n][..i] == s[..i];
    }
  }

  lemma RankOfKept(u: Unicode, s: string, k: nat)
    requires k < |Kept(u, s)|
    ensures Kept(u, s)[k] < |s| && |Norm(u, s[..Kept(u, s)[k]])| == k
  {
    KeptMeaning(u, s);
    hide IsNoise, Fold, Norm, Kept;
    RankOfPosition(u, s, Kept(u, s)[k]);
  }

  /** The normal form of a stretch is a stretch of the normal form. */
  lemma StretchOfNorm(u: Unicode, s: string, a: nat, b: nat)
    requires a <= b <= |s|
    ensures |Norm(u, s[..a])| <= |Norm(u, s[..b])| <= |Norm(u, s)|
    ensures Norm(u, s)[|Norm(u, s[..a])|..|Norm(u, s[..b])|] == Norm(u, s[a..b])
  {
    hide Norm;
    NormConcat(u, s[..a], s[a..b]);
    NormConcat(u, s[..b], s[b..]);
    assert s[..a] + s[a..b] == s[..b] && s[..b] + s[b..] == s;
  }

  lemma NormSnoc(u: Unicode, s: string, i: nat)
    requires i < |s|
    ensures Norm(u, s[..i + 1]) == Norm(u, s[..i]) + if IsNoise(u, s[i]) then [] else [Fold(u, s[i])]
  {
    assert s[..i + 1][..i] == s[..i];
  }

  /** The stretch from `a` to `b` begins and ends with a rune that counts and reads as a pattern. */
  ghost predicate Spelled(u: Unicode, patterns: seq<string>, s: string, a: int, b: int) {
    && 0 <= a < b <= |s| && !IsNoise(u, s[a]) && !IsNoise(u, s[b - 1])
    && Norm(u, s[a..b]) in patterns
  }

  /** The span of an occurrence reads as the word. */
  lemma OccurrenceReads(u: Unicode, s: string, word: string, pos: int)
    requires word != [] && OccursAt(Norm(u, s), word, pos)
    ensures var idx := Kept(u, s);
            && 0 <= pos < pos + |word| <= |idx| && idx[pos] <= idx[pos + |word| - 1] < |s|
            && Norm(u, s[idx[pos]..idx[pos + |word| - 1] + 1]) == word
  {
    KeptMeaning(u, s);
    hide IsNoise, Fold, Norm, Kept;
    var last := pos + |word| - 1;
    var a, z := Kept(u, s)[pos], Kept(u, s)[last];
    RankOfKept(u, s, pos);
    RankOfKept(u, s, last);
    NormSnoc(u, s, z);
    StretchOfNorm(u, s, a, z + 1);
  }

  lemma OccurrenceIsSpelled(u: Unicode, patterns: seq<string>, s: string, word: string, pos: int)
    requires word in patterns && word != [] && OccursAt(Norm(u, s), word, pos)
    ensures var idx := Kept(u, s);
            && 0 <= pos < pos + |word| <= |idx|
            && Spelled(u, patterns, s, idx[pos], idx[pos + |word| - 1] + 1)
  {
    KeptMeaning(u, s);
    hide IsNoise, Fold, Norm, Kept, OccursAt;
    OccurrenceReads(u, s, word, pos);
  }

  lemma SpelledOccurs(u: Unicode, patterns: seq<string>, s: string, a: nat, b: nat)
    requires Spelled(u, patterns, s, a, b)
    ensures var word, pos, idx := Norm(u, s[a..b]), |Norm(u, s[..a])|, Kept(u, s);
            && OccursAt(Norm(u, s), word, pos) && 0 <= pos < pos + |word| <= |idx|
            && idx[pos] == a && idx[pos + |word| - 1] == b - 1
  {
    hide IsNoise, Fold, Norm, Kept;
    StretchOfNorm(u, s, a, b);
    RankOfPosition(u, s, a);
    RankOfPosition(u, s, b - 1);
    NormSnoc(u, s, b - 1);
    KeptMeaning(u, s);
    assert Norm(u, s[..b]) == Norm(u, s[..b - 1]) + [Fold(u, s[b - 1])] by { assert b - 1 + 1 == b; }
    NormMonotone(u, s, a, b - 1);
  }

  lemma NormMonotone(u: Unicode, s: string, a: nat, b: nat)
    requires a <= b <= |s|
    ensures |Norm(u, s[..a])| <= |Norm(u, s[..b])|
  {
    hide Norm;
    NormConcat(u, s[..a], s[a..b]);
    assert s[..a] + s[a..b] == s[..b];
  }

  ghost predicate SpelledAround(u: Unicode, patterns: seq<string>, s: string, i: int) {
    exists a, b :: a <= i < b && Spelled(u, patterns, s, a, b)
  }

  /** A rune is replaced exactly when it lies in a stretch of the message that begins and
    ends with a rune that counts and whose normal form is a pattern. */
  lemma CoveredIsSpelled(u: Unicode, patterns: seq<string>, s: string, i: int)
    requires NoEmpty(patterns)
    ensures Covered(u, patterns, s, i) <==> SpelledAround(u, patterns, s, i)
  {
    hide IsNoise, Fold, Norm, Kept;
    if Covered(u, patterns, s, i) {
      var word, pos :| word in patterns && OccursAt(Norm(u, s), word, pos)
        && InRange(Kept(u, s), Term(pos, word)) && InSpan(Kept(u, s), Term(pos, word), i);
      OccurrenceIsSpelled(u, patterns, s, word, pos);
    }
    if SpelledAround(u, patterns, s, i) {
      var a, b :| a <= i < b && Spelled(u, patterns, s, a, b);
      SpelledOccurs(u, patterns, s, a, b);
      assert InSpan(Kept(u, s), Term(|Norm(u, s[..a])|, Norm(u, s[a..b])), i);
    }
  }

  // ------------------------------------------------- spellings of a word

  /** `v` and `w` read alike: noise skipped on either side, and runes that count paired off
    in order with equal foldings, which is what case and leet variants have in common. */
  predicate ReadAlike(u: Unicode, v: string, w: string)
    decreases |v| + |w|
  {
    if v != [] && IsNoise(u, v[|v| - 1]) then ReadAlike(u, v[..|v| - 1], w)
    else if w != [] && IsNoise(u, w[|w| - 1]) then ReadAlike(u, v, w[..|w| - 1])
    else if v == [] || w == [] then v == w
    else Fold(u, v[|v| - 1]) == Fold(u, w[|w| - 1]) && ReadAlike(u, v[..|v| - 1], w[..|w| - 1])
  }

  lemma {:induction false} ReadAlikeIsEqualNorm(u: Unicode, v: string, w: string)
    ensures ReadAlike(u, v, w) <==> Norm(u, v) == Norm(u, w)
    decreases |v| + |w|
  {
    hide IsNoise, Fold;
    if v != [] && IsNoise(u, v[|v| - 1]) {
      ReadAlikeIsEqualNorm(u, v[..|v| - 1], w);
    } else if w != [] && IsNoise(u, w[|w| - 1]) {
      ReadAlikeIsEqualNorm(u, v, w[..|w| - 1]);
    } else if v != [] && w != [] {
      ReadAlikeIsEqualNorm(u, v[..|v| - 1], w[..|w| - 1]);
      var x, y := Norm(u, v), Norm(u, w);
      assert x[..|x| - 1] == Norm(u, v[..|v| - 1]) && y[..|y| - 1] == Norm(u, w[..|w| - 1]);
      assert x == x[..|x| - 1] + [Fold(u, v[|v| - 1])] && y == y[..|y| - 1] + [Fold(u, w[|w| - 1])];
    }
  }

  /** Whatever stretch of a message reads like a dictionary word, all of its runes that
    count are replaced, wherever it stands and whatever surrounds it. */
  lemma EverySpellingIsCovered(u: Unicode, words: seq<string>, s: string, a: nat, b: nat, k: nat, i: nat)
    requires k < |words| && a <= i < b <= |s| && !IsNoise(u, s[i])
    requires ReadAlike(u, s[a..b], words[k])
    ensures Covered(u, Patterns(u, words), s, i)
  {
    hide IsNoise, Fold, Norm, Kept, ReadAlike, OccursAt, InSpan;
    ReadAlikeIsEqualNorm(u, s[a..b], words[k]);
    var word, pos, idx := Norm(u, s[a..b]), |Norm(u, s[..a])|, Kept(u, s);
    InsideStretch(u, s, a, b, i);
    PatternsAreNormalForms(u, words, word);
    assert InSpan(idx, Term(pos, word), i);
  }

  /** A kept rune of a stretch lies in the span of the stretch's normal form. */
  lemma InsideStretch(u: Unicode, s: string, a: nat, b: nat, i: nat)
    requires a <= i < b <= |s| && !IsNoise(u, s[i])
    ensures var word, pos, idx := Norm(u, s[a..b]), |Norm(u, s[..a])|, Kept(u, s);
            && word != [] && OccursAt(Norm(u, s), word, pos)
            && InRange(idx, Term(pos, word)) && InSpan(idx, Term(pos, word), i)
  {
    hide IsNoise, Fold, Norm, Kept;
    StretchOfNorm(u, s, a, b);
    NormMonotone(u, s, a, i);
    NormMonotone(u, s, i + 1, b);
    NormSnoc(u, s, i);
    RankOfPosition(u, s, i);
    KeptMeaning(u, s);
  }

  // --------------------------------------------------------- clean results

  ghost predicate HasMatch(u: Unicode, patterns: seq<string>, s: string) {
    exists word, pos :: word in patterns && OccursAt(Norm(u, s), word, pos)
  }

  lemma MatchIsCovered(u: Unicode, patterns: seq<string>, s: string)
    requires NoEmpty(patterns)
    ensures HasMatch(u, patterns, s) <==> exists i :: 0 <= i < |s| && Covered(u, patterns, s, i)
  {
    hide IsNoise, Fold, Norm, Kept;
    if HasMatch(u, patterns, s) {
      var word, pos :| word in patterns && OccursAt(Norm(u, s), word, pos);
      KeptMeaning(u, s);
      var i := Kept(u, s)[pos];
      assert InRange(Kept(u, s), Term(pos, word)) && InSpan(Kept(u, s), Term(pos, word), i);
      assert Covered(u, patterns, s, i);
    }
  }

  lemma NoMatchIsUnchanged(u: Unicode, patterns: seq<string>, c: char, s: string)
    requires NoEmpty(patterns) && !HasMatch(u, patterns, s)
    ensures Censored(u, patterns, c, s) == s
  {
    hide Covered, HasMatch;
    MatchIsCovered(u, patterns, s);
  }

  /** A kept rune of a stretch shows up in the normal form of the stretch. */
  lemma KeptShows(u: Unicode, s: string, i: nat)
    requires i < |s| && !IsNoise(u, s[i])
    ensures Fold(u, s[i]) in Norm(u, s)
  {
    KeptMeaning(u, s);
    RankOfPosition(u, s, i);
    hide IsNoise, Fold, Norm, Kept;
  }

  /** The replacement rune counts, and no pattern contains its folding. */
  predicate Harmless(u: Unicode, patterns: seq<string>, c: char) {
    !IsNoise(u, c) && forall k :: 0 <= k < |patterns| ==> Fold(u, c) !in patterns[k]
  }

  lemma SpelledBefore(u: Unicode, patterns: seq<string>, c: char, s: string, a: nat, b: nat)
    requires NoEmpty(patterns) && Harmless(u, patterns, c)
    requires Spelled(u, patterns, Censored(u, patterns, c, s), a, b)
    ensures Censored(u, patterns, c, s)[a..b] == s[a..b] && !Covered(u, patterns, s, a)
  {
    hide IsNoise, Fold, Norm, Kept, Covered;
    var r := Censored(u, patterns, c, s);
    forall i | a <= i < b ensures !Covered(u, patterns, s, i) {
      if Covered(u, patterns, s, i) {
        assert r[a..b][i - a] == c;
        KeptShows(u, r[a..b], i - a);
      }
    }
  }

  /** With a harmless replacement rune a censored text contains no further match, and
    censoring it again changes nothing. */
  lemma CensoringIsIdempotent(u: Unicode, patterns: seq<string>, c: char, s: string)
    requires NoEmpty(patterns) && Harmless(u, patterns, c)
    ensures var r := Censored(u, patterns, c, s);
            !HasMatch(u, patterns, r) && Censored(u, patterns, c, r) == r
  {
    var r := Censored(u, patterns, c, s);
    hide IsNoise, Fold, Norm, Kept, Harmless, Covered, Censored;
    if HasMatch(u, patterns, r) {
      var word, pos :| word in patterns && OccursAt(Norm(u, r), word, pos);
      OccurrenceIsSpelled(u, patterns, r, word, pos);
      var a, b := Kept(u, r)[pos], Kept(u, r)[pos + |word| - 1] + 1;
      SpelledBefore(u, patterns, c, s, a, b);
      CoveredIsSpelled(u, patterns, s, a);
      SameStretch(u, patterns, s, r, a, b);
    }
    NoMatchIsUnchanged(u, patterns, c, r);
  }

  lemma SameStretch(u: Unicode, patterns: seq<string>, s: string, r: string, a: int, b: int)
    requires Spelled(u, patterns, r, a, b) && b <= |s| && r[a..b] == s[a..b]
    ensures Spelled(u, patterns, s, a, b)
  {
    assert s[a] == s[a..b][0] && r[a] == r[a..b][0];
    assert s[b - 1] == s[a..b][b - a - 1] && r[b - 1] == r[a..b][b - a - 1];
  }

  // ------------------------------------- a replacement rune that is noise

  /** The runes among the first `n` that censoring leaves alone. */
  ghost function Spared(u: Unicode, patterns: seq<string>, s: string, n: nat): string
    requires n <= |s|
  {
    if n == 0 then []
    else Spared(u, patterns, s, n - 1) + if Covered(u, patterns, s, n - 1) then [] else [s[n - 1]]
  }

  /** What one rune adds to a normal form. */
  function Adds(u: Unicode, r: char): string { if IsNoise(u, r) then [] else [Fold(u, r)] }

  lemma NormOfOneMore(u: Unicode, s: string, r: char)
    ensures Norm(u, s + [r]) == Norm(u, s) + Adds(u, r)
  {
    assert (s + [r])[..|s|] == s;
  }

  /** The next rune of a censored text. */
  lemma CensoredNorm(u: Unicode, patterns: seq<string>, c: char, s: string, n: nat)
    requires n < |s|
    ensures var r := Censored(u, patterns, c, s);
            Norm(u, r[..n + 1]) == Norm(u, r[..n]) + Adds(u, if Covered(u, patterns, s, n) then c else s[n])
  {
    hide Covered, Norm, Adds;
    var r := Censored(u, patterns, c, s);
    NormOfOneMore(u, r[..n], r[n]);
    assert r[..n] + [r[n]] == r[..n + 1];
  }

  lemma {:induction false} NoiseDisappears(u: Unicode, patterns: seq<string>, c: char, s: string, n: nat)
    requires IsNoise(u, c) && n <= |s|
    ensures Norm(u, Censored(u, patterns, c, s)[..n]) == Norm(u, Spared(u, patterns, s, n))
  {
    if n > 0 {
      hide IsNoise, Covered, Norm, Censored, Spared;
      NoiseDisappears(u, patterns, c, s, n - 1);
      CensoredNorm(u, patterns, c, s, n - 1);
      SparedNorm(u, patterns, s, n - 1);
    }
  }

  lemma SparedNorm(u: Unicode, patterns: seq<string>, s: string, n: nat)
    requires n < |s|
    ensures Norm(u, Spared(u, patterns, s, n + 1))
         == Norm(u, Spared(u, patterns, s, n)) + if Covered(u, patterns, s, n) then [] else Adds(u, s[n])
  {
    hide Covered, Norm, Adds;
    var before := Spared(u, patterns, s, n);
    if Covered(u, patterns, s, n) {
      assert Spared(u, patterns, s, n + 1) == before;
    } else {
      NormOfOneMore(u, before, s[n]);
    }
  }

  /** With a noise replacement rune, a censored text matches again exactly when the runes
    that were left alone read, one after the other, as some pattern. */
  lemma NoiseJoinsNeighbours(u: Unicode, patterns: seq<string>, c: char, s: string)
    requires IsNoise(u, c)
    ensures HasMatch(u, patterns, Censored(u, patterns, c, s)) <==> HasMatch(u, patterns, Spared(u, patterns, s, |s|))
  {
    hide IsNoise, Norm, Covered;
    NoiseDisappears(u, patterns, c, s, |s|);
    var r := Censored(u, patterns, c, s);
    assert r[..|s|] == r;
  }

  lemma {:induction false} NormShrinks(u: Unicode, patterns: seq<string>, c: char, s: string, n: nat)
    requires IsNoise(u, c) && n <= |s|
    ensures |Norm(u, Censored(u, patterns, c, s)[..n])| <= |Norm(u, s[..n])|
    ensures (exists i :: 0 <= i < n && !IsNoise(u, s[i]) && Covered(u, patterns, s, i)) ==>
      |Norm(u, Censored(u, patterns, c, s)[..n])| < |Norm(u, s[..n])|
  {
    if n > 0 {
      hide IsNoise, Fold, Covered, Norm, Censored;
      NormShrinks(u, patterns, c, s, n - 1);
      NormSnoc(u, s, n - 1);
      CensoredNorm(u, patterns, c, s, n - 1);
      assert n - 1 + 1 == n;
    }
  }

  /** Every round that finds something leaves fewer runes that count. */
  lemma RoundShrinks(u: Unicode, patterns: seq<string>, c: char, s: string)
    requires IsNoise(u, c) && NoEmpty(patterns) && HasMatch(u, patterns, s)
    ensures |Norm(u, Censored(u, patterns, c, s))| < |Norm(u, s)|
  {
    hide IsNoise, Fold, Norm, Kept, Censored;
    var word, pos :| word in patterns && OccursAt(Norm(u, s), word, pos);
    KeptMeaning(u, s);
    var i := Kept(u, s)[pos];
    assert InRange(Kept(u, s), Term(pos, word)) && InSpan(Kept(u, s), Term(pos, word), i);
    assert Covered(u, patterns, s, i);
    NormShrinks(u, patterns, c, s, |s|);
    var r := Censored(u, patterns, c, s);
    assert r[..|s|] == r && s[..|s|] == s;
  }

  ghost function Rounds(u: Unicode, patterns: seq<string>, c: char, s: string, n: nat): string {
    if n == 0 then s else Censored(u, patterns, c, Rounds(u, patterns, c, s, n - 1))
  }

  lemma {:induction false} RoundsShrink(u: Unicode, patterns: seq<string>, c: char, s: string, n: nat)
    requires IsNoise(u, c) && NoEmpty(patterns)
    ensures var r := Rounds(u, patterns, c, s, n);
            !HasMatch(u, patterns, r) || |Norm(u, r)| + n <= |Norm(u, s)|
  {
    hide IsNoise, Norm, Censored, HasMatch;
    if n > 0 {
      RoundsShrink(u, patterns, c, s, n - 1);
      var q := Rounds(u, patterns, c, s, n - 1);
      if HasMatch(u, patterns, q) {
        RoundShrinks(u, patterns, c, q);
      } else {
        NoMatchIsUnchanged(u, patterns, c, q);
      }
    }
  }

  /** Even then, censoring over and over ends in a clean text, after at most as many rounds
    as the message has runes that count. */
  lemma RoundsConverge(u: Unicode, patterns: seq<string>, c: char, s: string)
    requires IsNoise(u, c) && NoEmpty(patterns)
    ensures !HasMatch(u, patterns, Rounds(u, patterns, c, s, |Norm(u, s)|))
  {
    hide IsNoise, Norm, Rounds;
    RoundsShrink(u, patterns, c, s, |Norm(u, s)|);
  }

  /** The tables treat the star as noise and the letters a, b and x as themselves. */
  ghost predicate Ordinary(u: Unicode) {
    IsNoise(u, '*') && forall r :: r in "abx" ==> !IsNoise(u, r) && Fold(u, r) == r
  }

  lemma NormOfThree(u: Unicode, x: char, y: char, z: char)
    requires !IsNoise(u, x) && !IsNoise(u, z)
    ensures Norm(u, [x, y, z]) == [Fold(u, x)] + (if IsNoise(u, y) then [] else [Fold(u, y)]) + [Fold(u, z)]
  {
    hide IsNoise, Fold;
    var s := [x, y, z];
    assert s[..0] == [] && s[..3] == s;
    NormSnoc(u, s, 0);
    NormSnoc(u, s, 1);
    NormSnoc(u, s, 2);
  }

  /** One round with stars need not be enough: removing the inner word joins the outer one. */
  lemma StarsCanJoin(u: Unicode)
    requires Ordinary(u)
    ensures var patterns := ["x", "ab"];
            Censored(u, patterns, '*', "axb") == "a*b" && HasMatch(u, patterns, "a*b")
  {
    hide IsNoise, Fold, Norm, Kept, Covered;
    var patterns := ["x", "ab"];
    NormOfThree(u, 'a', 'x', 'b');
    NormOfThree(u, 'a', '*', 'b');
    assert OccursAt(Norm(u, "a*b"), "ab", 0);
    OnlyTheMiddle(u);
  }

  lemma OnlyTheMiddle(u: Unicode)
    requires Ordinary(u)
    ensures forall i :: 0 <= i < 3 ==> (Covered(u, ["x", "ab"], "axb", i) <==> i == 1)
  {
    hide IsNoise, Fold, Norm, Kept, OccursAt, Ordinary;
    var norm, idx := Norm(u, "axb"), Kept(u, "axb");
    ThreeKept(u);
    OnlyX("x", 1);
    assert InSpan(idx, Term(1, "x"), 1);
    forall i | 0 <= i < 3 && Covered(u, ["x", "ab"], "axb", i) ensures i == 1 {
      var word, pos :| word in ["x", "ab"] && OccursAt(norm, word, pos)
        && InRange(idx, Term(pos, word)) && InSpan(idx, Term(pos, word), i);
      OnlyX(word, pos);
    }
  }

  lemma ThreeKept(u: Unicode)
    requires Ordinary(u)
    ensures Norm(u, "axb") == "axb" && Kept(u, "axb") == [0, 1, 2]
  {
    hide IsNoise, Fold, Norm, Kept;
    NormOfThree(u, 'a', 'x', 'b');
    KeptMeaning(u, "axb");
    var idx := Kept(u, "axb");
    assert |idx| == 3;
    assert idx[0] < idx[1] < idx[2] < 3;
  }

  lemma OnlyX(word: string, pos: int)
    requires word in ["x", "ab"]
    ensures OccursAt("axb", word, pos) <==> word == "x" && pos == 1
  {
    var text := "axb";
    assert text[0..2][1] == 'x' && text[1..3][0] == 'x';
    assert text[0..1][0] == 'a' && text[1..2] == "x" && text[2..3][0] == 'b';
  }

  // ----------------------------------- a replacement rune that counts

  /** The normal form of a censored text when the replacement rune counts: everything covered,
    noise included, reads as that rune. */
  ghost function Masked(u: Unicode, patterns: seq<string>, c: char, s: string, n: nat): string
    requires n <= |s|
  {
    if n == 0 then []
    else
      Masked(u, patterns, c, s, n - 1)
      + if Covered(u, patterns, s, n - 1) then [Fold(u, c)]
        else if IsNoise(u, s[n - 1]) then [] else [Fold(u, s[n - 1])]
  }

  lemma {:induction false} MaskedIsNorm(u: Unicode, patterns: seq<string>, c: char, s: string, n: nat)
    requires !IsNoise(u, c) && n <= |s|
    ensures Norm(u, Censored(u, patterns, c, s)[..n]) == Masked(u, patterns, c, s, n)
  {
    if n > 0 {
      hide IsNoise, Fold, Covered, Norm, Censored;
      MaskedIsNorm(u, patterns, c, s, n - 1);
      CensoredNorm(u, patterns, c, s, n - 1);
    }
  }

  /** With a counting replacement rune, a censored text matches again exactly when some pattern
    occurs in the masked normal form, and then that pattern contains the rune's folding. */
  lemma CountingCanMatchAgain(u: Unicode, patterns: seq<string>, c: char, s: string)
    requires !IsNoise(u, c) && NoEmpty(patterns)
    ensures var r := Censored(u, patterns, c, s);
            && (HasMatch(u, patterns, r) <==>
                  exists word, pos :: word in patterns && OccursAt(Masked(u, patterns, c, s, |s|), word, pos))
            && (forall word, pos :: word in patterns && OccursAt(Norm(u, r), word, pos) ==> Fold(u, c) in word)
  {
    var r := Censored(u, patterns, c, s);
    MaskedIsNorm(u, patterns, c, s, |s|);
    assert r[..|s|] == r;
    hide IsNoise, Fold, Norm, Kept, Covered, Censored, Masked;
    forall word, pos | word in patterns && OccursAt(Norm(u, r), word, pos) ensures Fold(u, c) in word {
      NewMatchIsReplaced(u, patterns, c, s, word, pos);
    }
  }

  lemma NewMatchIsReplaced(u: Unicode, patterns: seq<string>, c: char, s: string, word: string, pos: int)
    requires !IsNoise(u, c) && NoEmpty(patterns) && word in patterns && OccursAt(Norm(u, Censored(u, patterns, c, s)), word, pos)
    ensures Fold(u, c) in word
  {
    hide IsNoise, Fold, Norm, Kept, Covered;
    var r := Censored(u, patterns, c, s);
    OccurrenceIsSpelled(u, patterns, r, word, pos);
    var a, b := Kept(u, r)[pos], Kept(u, r)[pos + |word| - 1] + 1;
    OccurrenceReads(u, r, word, pos);
    if forall i :: a <= i < b ==> !Covered(u, patterns, s, i) {
      assert r[a..b] == s[a..b];
      SameStretch(u, patterns, s, r, a, b);
      CoveredIsSpelled(u, patterns, s, a);
    } else {
      var i :| a <= i < b && Covered(u, patterns, s, i);
      assert r[a..b][i - a] == c;
      KeptShows(u, r[a..b], i - a);
    }
  }

  /** It does happen: with the letter a for a replacement, the word ab and the text abb. */
  lemma LettersCanMatchAgain(u: Unicode)
    requires Ordinary(u)
    ensures Censored(u, ["ab"], 'a', "abb") == "aab" && HasMatch(u, ["ab"], "aab")
  {
    hide IsNoise, Fold, Norm, Kept, Covered;
    NormOfThree(u, 'a', 'a', 'b');
    assert Norm(u, "aab")[1..3] == "ab";
    assert OccursAt(Norm(u, "aab"), "ab", 1);
    FirstTwo(u);
  }

  lemma FirstTwo(u: Unicode)
    requires Ordinary(u)
    ensures forall i :: 0 <= i < 3 ==> (Covered(u, ["ab"], "abb", i) <==> i < 2)
  {
    hide IsNoise, Fold, Norm, Kept, OccursAt;
    NormOfThree(u, 'a', 'b', 'b');
    KeptMeaning(u, "abb");
    var norm, idx := Norm(u, "abb"), Kept(u, "abb");
    assert norm == "abb" && |idx| == 3;
    assert idx[0] < idx[1] < idx[2] < 3;
    OnlyAtStart(0);
    assert InSpan(idx, Term(0, "ab"), 0) && InSpan(idx, Term(0, "ab"), 1);
    forall i | 0 <= i < 3 && Covered(u, ["ab"], "abb", i) ensures i < 2 {
      var word, pos :| word in ["ab"] && OccursAt(norm, word, pos)
        && InRange(idx, Term(pos, word)) && InSpan(idx, Term(pos, word), i);
      OnlyAtStart(pos);
    }
  }

  lemma OnlyAtStart(pos: int)
    ensures OccursAt("abb", "ab", pos) <==> pos == 0
  {
    var text := "abb";
    assert text[0..2] == "ab" && text[1..3][0] == 'b';
  }
}
