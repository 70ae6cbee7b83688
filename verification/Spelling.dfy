/** What the moderator reads a text as, rune by rune, and which spellings of a dictionary
  word it replaces, stated by the leet table itself. */
module Spelling {
  import opened Moderation
  import opened Censoring

  /** The ten leet runes and the letters they stand for. */
  predicate Stands(leet: char, letter: char) {
    (leet, letter) in {
      ('4', 'a'), ('@', 'a'), ('3', 'e'), ('\U{20AC}', 'e'), ('1', 'i'), ('!', 'i'), ('|', 'i'),
      ('0', 'o'), ('5', 's'), ('$', 's')}
  }

  /** None of the ten, and punctuation, space or symbol. */
  predicate Skipped(u: Unicode, r: char) {
    r !in "4@3\U{20AC}1!|05$" && (u.punct(r) || u.space(r) || u.symbol(r))
  }

  /** `r` reads as `x`: a leet rune as its letter, any other rune as itself. */
  predicate ReadsAs(r: char, x: char) {
    Stands(r, x) || (r !in "4@3\U{20AC}1!|05$" && x == r)
  }

  lemma NoiseIsSkipped(u: Unicode, r: char)
    ensures IsNoise(u, r) <==> Skipped(u, r)
  {
  }

  lemma FoldIsReading(u: Unicode, r: char, x: char)
    requires ReadsAs(r, x)
    ensures Fold(u, r) == u.lower(x)
  {
  }

  /** Every rune reads as exactly one rune. */
  lemma ReadingIsUnique(r: char) returns (x: char)
    ensures ReadsAs(r, x) && forall y :: ReadsAs(r, y) ==> y == x
  {
    x := SimplifyRune(r);
  }

  /** What one rune contributes: nothing when it is skipped, otherwise the lower case of what
    it reads as. Each of the ten leet runes counts and contributes its letter. */
  lemma NormOfRune(u: Unicode, r: char)
    ensures Skipped(u, r) ==> Norm(u, [r]) == []
    ensures !Skipped(u, r) ==> forall x :: ReadsAs(r, x) ==> Norm(u, [r]) == [u.lower(x)]
    ensures forall letter :: Stands(r, letter) ==> Norm(u, [r]) == [u.lower(letter)]
  {
    hide IsNoise, Fold, Norm;
    NoiseIsSkipped(u, r);
    assert [] + [r] == [r];
    NormOfOneMore(u, [], r);
    NormOfNothing(u);
    forall x | ReadsAs(r, x) ensures Fold(u, r) == u.lower(x) { FoldIsReading(u, r, x); }
  }

  lemma NormOfNothing(u: Unicode)
    ensures Norm(u, []) == []
  {
  }

  lemma NormOfThreeParts(u: Unicode, a: string, b: string, c: string)
    ensures Norm(u, a + b + c) == Norm(u, a) + Norm(u, b) + Norm(u, c)
  {
    NormConcat(u, a + b, c);
    NormConcat(u, a, b);
  }

  /** Anywhere in a text, a leet rune reads as its letter. */
  lemma LeetReadsAsLetter(u: Unicode, s: string, i: nat, leet: char, letter: char)
    requires Sane(u) && i < |s| && Stands(leet, letter)
    ensures Norm(u, s[i := leet]) == Norm(u, s[i := letter])
  {
    hide Norm;
    assert letter in "aeios" && ReadsAs(letter, letter) && !Skipped(u, letter);
    NormOfRune(u, leet);
    NormOfRune(u, letter);
    NormOfThreeParts(u, s[..i], [leet], s[i + 1..]);
    NormOfThreeParts(u, s[..i], [letter], s[i + 1..]);
    assert s[i := leet] == s[..i] + [leet] + s[i + 1..] && s[i := letter] == s[..i] + [letter] + s[i + 1..];
  }

  /** Anywhere in a text, a skipped rune can be put in or left out. */
  lemma SkippedMakesNoDifference(u: Unicode, s: string, i: nat, r: char)
    requires i <= |s| && Skipped(u, r)
    ensures Norm(u, s[..i] + [r] + s[i..]) == Norm(u, s)
  {
    hide Norm, Skipped;
    NormOfRune(u, r);
    NormOfThreeParts(u, s[..i], [r], s[i..]);
    NormConcat(u, s[..i], s[i..]);
    assert s[..i] + s[i..] == s && Norm(u, s[..i]) + [] == Norm(u, s[..i]);
  }

  // ------------------------------------------------------- spellings of a word

  /** Two runes are variants of each other when they read as runes of the same lower case. */
  ghost predicate Variant(u: Unicode, v: char, w: char) {
    exists x, y :: ReadsAs(v, x) && ReadsAs(w, y) && u.lower(x) == u.lower(y)
  }

  lemma VariantIsFold(u: Unicode, v: char, w: char)
    ensures Variant(u, v, w) <==> Fold(u, v) == Fold(u, w)
  {
    hide Fold, ReadsAs;
    var x := ReadingIsUnique(v);
    var y := ReadingIsUnique(w);
    FoldIsReading(u, v, x);
    FoldIsReading(u, w, y);
  }

  /** `v` is a spelling of `w`: skipped runes aside, variants of its runes in order. */
  ghost predicate SpellingOf(u: Unicode, v: string, w: string)
    decreases |v| + |w|
  {
    if v != [] && Skipped(u, v[|v| - 1]) then SpellingOf(u, v[..|v| - 1], w)
    else if w != [] && Skipped(u, w[|w| - 1]) then SpellingOf(u, v, w[..|w| - 1])
    else if v == [] || w == [] then v == w
    else Variant(u, v[|v| - 1], w[|w| - 1]) && SpellingOf(u, v[..|v| - 1], w[..|w| - 1])
  }

  lemma {:induction false} SpellingReadsAlike(u: Unicode, v: string, w: string)
    ensures SpellingOf(u, v, w) <==> ReadAlike(u, v, w)
    decreases |v| + |w|
  {
    hide IsNoise, Skipped, Fold, Variant;
    if v != [] { NoiseIsSkipped(u, v[|v| - 1]); }
    if w != [] { NoiseIsSkipped(u, w[|w| - 1]); }
    if v != [] && Skipped(u, v[|v| - 1]) {
      SpellingReadsAlike(u, v[..|v| - 1], w);
    } else if w != [] && Skipped(u, w[|w| - 1]) {
      SpellingReadsAlike(u, v, w[..|w| - 1]);
    } else if v != [] && w != [] {
      VariantIsFold(u, v[|v| - 1], w[|w| - 1]);
      SpellingReadsAlike(u, v[..|v| - 1], w[..|w| - 1]);
    }
  }

  /** Two texts have the same normal form exactly when one is a spelling of the other. */
  lemma SameNormIsSpelling(u: Unicode, v: string, w: string)
    ensures Norm(u, v) == Norm(u, w) <==> SpellingOf(u, v, w)
  {
    hide Norm, ReadAlike, SpellingOf;
    ReadAlikeIsEqualNorm(u, v, w);
    SpellingReadsAlike(u, v, w);
  }

  /** Whatever stretch of a message spells a dictionary word, from a rune that counts to a rune
    that counts, all of it is replaced, skipped runes in between included. */
  lemma SpelledWordIsReplaced(u: Unicode, words: seq<string>, c: char, s: string, a: nat, b: nat, k: nat)
    requires k < |words| && a < b <= |s| && SpellingOf(u, s[a..b], words[k])
    requires !Skipped(u, s[a]) && !Skipped(u, s[b - 1])
    ensures var r := Censored(u, Patterns(u, words), c, s);
            |r| == |s| && forall i :: a <= i < b ==> r[i] == c
  {
    hide Norm, SpellingOf, Skipped, IsNoise, Patterns, Covered;
    var patterns, word := Patterns(u, words), Norm(u, s[a..b]);
    SameNormIsSpelling(u, s[a..b], words[k]);
    NoiseIsSkipped(u, s[a]);
    NoiseIsSkipped(u, s[b - 1]);
    assert s[a..b][0] == s[a];
    KeptShows(u, s[a..b], 0);
    PatternsAreNormalForms(u, words, word);
    PatternsNotEmpty(u, words);
    assert Spelled(u, patterns, s, a, b);
    forall i | a <= i < b ensures Covered(u, patterns, s, i) {
      assert SpelledAround(u, patterns, s, i);
      CoveredIsSpelled(u, patterns, s, i);
    }
  }

  /** `v` writes some letters of `w` in leet. */
  predicate LeetFor(v: string, w: string) {
    |v| == |w| && forall i :: 0 <= i < |v| ==> v[i] == w[i] || Stands(v[i], w[i])
  }

  lemma {:induction false} LeetReadsAlike(u: Unicode, v: string, w: string)
    requires Sane(u) && LeetFor(v, w)
    ensures Norm(u, v) == Norm(u, w)
  {
    if v != [] {
      hide Norm, Sane;
      var n := |v| - 1;
      LeetReadsAlike(u, v[..n], w[..n]);
      NormConcat(u, v[..n], [v[n]]);
      NormConcat(u, w[..n], [w[n]]);
      assert v == v[..n] + [v[n]] && w == w[..n] + [w[n]];
      if v[n] != w[n] {
        LeetReadsAsLetter(u, [v[n]], 0, v[n], w[n]);
        assert [v[n]][0 := v[n]] == [v[n]] && [v[n]][0 := w[n]] == [w[n]];
      }
    }
  }

  /** A dictionary word written in leet is replaced whole, wherever it stands. */
  lemma LeetWordIsReplaced(u: Unicode, words: seq<string>, c: char, s: string, a: nat, b: nat, k: nat)
    requires Sane(u) && k < |words| && a < b <= |s| && LeetFor(s[a..b], words[k])
    requires !Skipped(u, s[a]) && !Skipped(u, s[b - 1])
    ensures forall i :: a <= i < b ==> Censored(u, Patterns(u, words), c, s)[i] == c
  {
    hide Norm, SpellingOf, Skipped, Patterns, Censored, Sane, LeetFor;
    LeetReadsAlike(u, s[a..b], words[k]);
    SameNormIsSpelling(u, s[a..b], words[k]);
    SpelledWordIsReplaced(u, words, c, s, a, b, k);
  }

  lemma {:induction false} PatternsNotEmpty(u: Unicode, words: seq<string>)
    ensures NoEmpty(Patterns(u, words))
  {
    hide Norm;
    if words != [] { PatternsNotEmpty(u, words[..|words| - 1]); }
  }

  /** And nothing else is: a rune that changes lies in such a stretch of some word. */
  lemma OnlySpelledWordsAreReplaced(u: Unicode, words: seq<string>, c: char, s: string, i: nat) returns (a: nat, b: nat, k: nat)
    requires i < |s| && Censored(u, Patterns(u, words), c, s)[i] != s[i]
    ensures a <= i < b <= |s| && k < |words| && SpellingOf(u, s[a..b], words[k])
    ensures !Skipped(u, s[a]) && !Skipped(u, s[b - 1]) && Censored(u, Patterns(u, words), c, s)[i] == c
  {
    hide Norm, SpellingOf, Skipped, IsNoise, Patterns, Covered;
    var patterns := Patterns(u, words);
    PatternsNotEmpty(u, words);
    CoveredIsSpelled(u, patterns, s, i);
    a, b :| a <= i < b && Spelled(u, patterns, s, a, b);
    NoiseIsSkipped(u, s[a]);
    NoiseIsSkipped(u, s[b - 1]);
    PatternsAreNormalForms(u, words, Norm(u, s[a..b]));
    k :| 0 <= k < |words| && Norm(u, words[k]) == Norm(u, s[a..b]);
    SameNormIsSpelling(u, s[a..b], words[k]);
  }
}
