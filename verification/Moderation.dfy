/** Dictionary moderation: a text is normalised, dictionary words are searched in the
  normal form, and the runes they span in the original text are overwritten. */
module Moderation {
  import opened Text

  /** The Unicode classification tables the moderator consults. */
  datatype Unicode = Unicode(punct: char -> bool, space: char -> bool, symbol: char -> bool, lower: char -> char)

  /** Letters the leet alphabet maps to are none of punctuation, space or symbol. */
  ghost predicate Sane(u: Unicode) {
    forall c :: c in "aeios" ==> !u.punct(c) && !u.space(c) && !u.symbol(c)
  }

  const EURO: char := '\U{20AC}'

  predicate Leet(r: char) {
    r in {'4', '@', '3', EURO, '1', '!', '|', '0', '5', '$'}
  }

  function SimplifyRune(r: char): char {
    if r == '4' || r == '@' then 'a'
    else if r == '3' || r == EURO then 'e'
    else if r == '1' || r == '!' || r == '|' then 'i'
    else if r == '0' then 'o'
    else if r == '5' || r == '$' then 's'
    else r
  }

  predicate IsNoise(u: Unicode, r: char) {
    if Leet(r) then false else u.punct(r) || u.space(r) || u.symbol(r)
  }

  function Fold(u: Unicode, r: char): char { u.lower(SimplifyRune(r)) }

  // ---------------------------------------------------------- normalisation

  /** The normal form: noise dropped, the rest folded. */
  function Norm(u: Unicode, s: string): string {
    if s == [] then []
    else
      var n := |s| - 1;
      Norm(u, s[..n]) + if IsNoise(u, s[n]) then [] else [Fold(u, s[n])]
  }

  /** Where the runes of the normal form come from. */
  function Kept(u: Unicode, s: string): seq<nat> {
    if s == [] then []
    else
      var n := |s| - 1;
      Kept(u, s[..n]) + if IsNoise(u, s[n]) then [] else [n]
  }

  /** The message normaliser, with the position of every rune it keeps. */
  method Normalize(u: Unicode, input: string) returns (norm: string, origIdx: seq<nat>)
    ensures norm == Norm(u, input) && origIdx == Kept(u, input)
  {
    norm, origIdx := [], [];
    for i := 0 to |input|
      invariant norm == Norm(u, input[..i]) && origIdx == Kept(u, input[..i])
    {
      assert input[..i + 1][..i] == input[..i];
      var r := input[i];
      if IsNoise(u, r) {
        continue;
      }
      var clean := SimplifyRune(r);
      norm := norm + [u.lower(clean)];
      origIdx := origIdx + [i];
    }
    assert input[..|input|] == input;
  }

  /** The two orders of simplifying and dropping noise judge every rune alike. */
  lemma NoiseAfterSimplifying(u: Unicode, r: char)
    requires Sane(u)
    ensures IsNoise(u, SimplifyRune(r)) == IsNoise(u, r)
  {
  }

  /** The dictionary normaliser agrees with the message normaliser on every input. */
  method NormalizeRunes(u: Unicode, input: string) returns (out: string)
    requires Sane(u)
    ensures out == Norm(u, input)
  {
    out := [];
    for i := 0 to |input|
      invariant out == Norm(u, input[..i])
    {
      assert input[..i + 1][..i] == input[..i];
      NoiseAfterSimplifying(u, input[i]);
      var clean := SimplifyRune(input[i]);
      if IsNoise(u, clean) {
        continue;
      }
      out := out + [u.lower(clean)];
    }
    assert input[..|input|] == input;
  }

  // ----------------------------------------------------------- the searcher

  datatype Term = Term(pos: int, word: string)

  predicate OccursAt(text: string, word: string, pos: int) {
    0 <= pos <= pos + |word| <= |text| && text[pos..pos + |word|] == word
  }

  /** The contract of the multi-pattern search: all occurrences and only occurrences. */
  ghost predicate Exact(patterns: seq<string>, text: string, matches: seq<Term>) {
    && (forall k :: 0 <= k < |matches| ==> matches[k].word in patterns && OccursAt(text, matches[k].word, matches[k].pos))
    && (forall word, pos :: word in patterns && OccursAt(text, word, pos) ==> Term(pos, word) in matches)
  }

  datatype Moderator = Moderator(patterns: seq<string>, search: string -> seq<Term>, censoredChar: char)

  predicate NoEmpty(patterns: seq<string>) { forall k :: 0 <= k < |patterns| ==> patterns[k] != [] }

  ghost predicate Searches(patterns: seq<string>, search: string -> seq<Term>) {
    forall text :: Exact(patterns, text, search(text))
  }

  ghost predicate Valid(m: Moderator) {
    m.patterns != [] && NoEmpty(m.patterns) && Searches(m.patterns, m.search)
  }

  /** Building the automaton either fails or yields a search that meets its contract. */
  ghost predicate Builds(build: seq<string> -> Option<string -> seq<Term>>) {
    forall patterns :: NoEmpty(patterns) && build(patterns).Some? ==> Searches(patterns, build(patterns).value)
  }

  /** The patterns a dictionary stands for: its normal forms, except empty ones. */
  function Patterns(u: Unicode, words: seq<string>): seq<string> {
    if words == [] then []
    else
      var n := |words| - 1;
      Patterns(u, words[..n]) + if Norm(u, words[n]) == [] then [] else [Norm(u, words[n])]
  }

  /** A moderator is built exactly when some word has a normal form and the automaton builds. */
  method NewModerator(
      u: Unicode, censoredWords: seq<string>, censoredChar: char, build: seq<string> -> Option<string -> seq<Term>>)
    returns (r: Option<Moderator>)
    requires Sane(u) && Builds(build)
    ensures var patterns := Patterns(u, censoredWords);
            r == if patterns == [] || build(patterns).None? then None
                 else Some(Moderator(patterns, build(patterns).value, censoredChar))
    ensures r.Some? ==> Valid(r.value)
  {
    var patterns := [];
    for i := 0 to |censoredWords|
      invariant patterns == Patterns(u, censoredWords[..i]) && NoEmpty(patterns)
    {
      assert censoredWords[..i + 1][..i] == censoredWords[..i];
      var normalized := NormalizeRunes(u, censoredWords[i]);
      if |normalized| > 0 {
        patterns := patterns + [normalized];
      }
    }
    assert censoredWords[..|censoredWords|] == censoredWords;
    if |patterns| == 0 {
      return None;
    }
    match build(patterns)
    case None => return None;
    case Some(search) => return Some(Moderator(patterns, search, censoredChar));
  }

  /** A word is a pattern exactly when it is the non-empty normal form of a dictionary word. */
  lemma {:induction false} PatternsAreNormalForms(u: Unicode, words: seq<string>, p: string)
    ensures p in Patterns(u, words) <==> p != [] && exists k :: 0 <= k < |words| && Norm(u, words[k]) == p
  {
    if words != [] {
      var n := |words| - 1;
      PatternsAreNormalForms(u, words[..n], p);
      assert forall k :: 0 <= k < n ==> words[..n][k] == words[k];
    }
  }

  // ------------------------------------------------------------- censoring

  /** `i` lies between the origins of the first and the last rune of the match. */
  predicate InSpan(idx: seq<nat>, term: Term, i: int)
    requires 0 <= term.pos < term.pos + |term.word| <= |idx|
  {
    idx[term.pos] <= i <= idx[term.pos + |term.word| - 1]
  }

  predicate InRange(idx: seq<nat>, term: Term) { 0 <= term.pos < term.pos + |term.word| <= |idx| }

  ghost predicate Touched(idx: seq<nat>, matches: seq<Term>, i: int) {
    exists k :: 0 <= k < |matches| && InRange(idx, matches[k]) && InSpan(idx, matches[k], i)
  }

  /** The runes to be replaced: those spanned by some occurrence of some pattern in the normal form. */
  ghost predicate Covered(u: Unicode, patterns: seq<string>, s: string, i: int) {
    exists word, pos ::
      word in patterns && OccursAt(Norm(u, s), word, pos)
      && InRange(Kept(u, s), Term(pos, word)) && InSpan(Kept(u, s), Term(pos, word), i)
  }

  ghost function Censored(u: Unicode, patterns: seq<string>, c: char, s: string): (r: string)
    ensures |r| == |s|
  {
    seq(|s|, i requires 0 <= i < |s| => if Covered(u, patterns, s, i) then c else s[i])
  }

  /** Kept positions and the normal form belong together. */
  lemma {:induction false} KeptMeaning(u: Unicode, s: string)
    ensures |Kept(u, s)| == |Norm(u, s)|
    ensures forall k :: 0 <= k < |Kept(u, s)| ==>
      Kept(u, s)[k] < |s| && !IsNoise(u, s[Kept(u, s)[k]]) && Norm(u, s)[k] == Fold(u, s[Kept(u, s)[k]])
    ensures forall j, k :: 0 <= j < k < |Kept(u, s)| ==> Kept(u, s)[j] < Kept(u, s)[k]
  {
    if s != [] {
      hide IsNoise, Fold;
      KeptMeaning(u, s[..|s| - 1]);
    }
  }

  lemma TouchedIsCovered(u: Unicode, patterns: seq<string>, s: string, matches: seq<Term>, i: int)
    requires NoEmpty(patterns) && Exact(patterns, Norm(u, s), matches)
    ensures Touched(Kept(u, s), matches, i) <==> Covered(u, patterns, s, i)
  {
    KeptMeaning(u, s);
    hide Norm, Kept, IsNoise, Fold;
    var idx := Kept(u, s);
    if Touched(idx, matches, i) {
      var k :| 0 <= k < |matches| && InRange(idx, matches[k]) && InSpan(idx, matches[k], i);
      assert Term(matches[k].pos, matches[k].word) == matches[k];
    }
    if Covered(u, patterns, s, i) {
      var word, pos :| word in patterns && OccursAt(Norm(u, s), word, pos)
        && InRange(idx, Term(pos, word)) && InSpan(idx, Term(pos, word), i);
      assert Term(pos, word) in matches;
    }
  }

  /** Overwrites one span in place. */
  method Overwrite(a: array<char>, from: nat, to: nat, c: char)
    requires from <= to <= a.Length
    modifies a
    ensures forall i :: 0 <= i < a.Length ==> a[i] == if from <= i < to then c else old(a[i])
  {
    for i := from to to
      invariant forall k :: 0 <= k < a.Length ==> a[k] == if from <= k < i then c else old(a[k])
    {
      a[i] := c;
    }
  }

  /** The words of the matches that lie within the normal form. */
  function Reported(idx: seq<nat>, matches: seq<Term>): seq<string> {
    if matches == [] then []
    else
      var n := |matches| - 1;
      Reported(idx, matches[..n]) + if InRange(idx, matches[n]) then [matches[n].word] else []
  }

  /** Overwrites the span of every match that lies within the normal form. */
  method ApplyMatches(original: string, origIdx: seq<nat>, matches: seq<Term>, c: char)
    returns (result: string, found: seq<string>)
    requires forall k :: 0 <= k < |matches| ==> matches[k].word != []
    requires forall k :: 0 <= k < |origIdx| ==> origIdx[k] < |original|
    requires forall j, k :: 0 <= j < k < |origIdx| ==> origIdx[j] < origIdx[k]
    ensures |result| == |original| && found == Reported(origIdx, matches)
    ensures forall i :: 0 <= i < |original| ==> result[i] == if Touched(origIdx, matches, i) then c else original[i]
  {
    hide Touched;
    found := [];
    var origRunes := new char[|original|](i requires 0 <= i < |original| => original[i]);
    NothingTouched(origIdx, matches[..0]);
    for k := 0 to |matches|
      invariant found == Reported(origIdx, matches[..k])
      invariant forall i :: 0 <= i < |original| ==>
        origRunes[i] == if Touched(origIdx, matches[..k], i) then c else original[i]
    {
      assert matches[..k + 1][..k] == matches[..k];
      TouchedSnoc(origIdx, matches, k);
      var t := matches[k];
      var normStart, normEnd := t.pos, t.pos + |t.word|;
      if normStart < 0 || normEnd > |origIdx| {
        continue;
      }
      found := found + [t.word];
      Overwrite(origRunes, origIdx[normStart], origIdx[normEnd - 1] + 1, c);
    }
    assert matches[..|matches|] == matches;
    result := origRunes[..];
  }

  /** Replaces exactly the covered runes, keeps the length, reports the matched words in the
    order of the matches, and leaves the text alone when nothing matches. */
  method Censor(u: Unicode, m: Moderator, original: string) returns (result: string, found: seq<string>)
    requires Valid(m)
    ensures result == Censored(u, m.patterns, m.censoredChar, original)
    ensures var matches := m.search(Norm(u, original));
            found == seq(|matches|, k requires 0 <= k < |matches| => matches[k].word)
  {
    var norm, origIdx := Normalize(u, original);
    if |norm| == 0 {
      NoMatches(u, m, original);
      return original, [];
    }
    var matches := m.search(norm);
    if |matches| == 0 {
      NoMatches(u, m, original);
      return original, [];
    }
    KeptMeaning(u, original);
    assert Exact(m.patterns, norm, matches);
    hide Norm, Kept, IsNoise, Fold, Covered, Touched;
    forall i ensures Touched(origIdx, matches, i) <==> Covered(u, m.patterns, original, i) {
      TouchedIsCovered(u, m.patterns, original, matches, i);
    }
    result, found := ApplyMatches(original, origIdx, matches, m.censoredChar);
    AllReported(origIdx, matches);
  }

  lemma NothingTouched(idx: seq<nat>, matches: seq<Term>)
    requires matches == []
    ensures forall i :: !Touched(idx, matches, i)
  {
  }

  lemma {:induction false} AllReported(idx: seq<nat>, matches: seq<Term>)
    requires forall k :: 0 <= k < |matches| ==> InRange(idx, matches[k])
    ensures Reported(idx, matches) == seq(|matches|, k requires 0 <= k < |matches| => matches[k].word)
  {
    if matches != [] { AllReported(idx, matches[..|matches| - 1]); }
  }

  lemma MatchInRange(patterns: seq<string>, text: string, matches: seq<Term>, k: nat)
    requires NoEmpty(patterns) && Exact(patterns, text, matches) && k < |matches|
    ensures 0 <= matches[k].pos < matches[k].pos + |matches[k].word| <= |text|
  {
  }

  lemma TouchedSnoc(idx: seq<nat>, matches: seq<Term>, k: nat)
    requires k < |matches|
    ensures forall i :: Touched(idx, matches[..k + 1], i) <==>
      Touched(idx, matches[..k], i) || (InRange(idx, matches[k]) && InSpan(idx, matches[k], i))
  {
    var more, fewer := matches[..k + 1], matches[..k];
    forall i ensures Touched(idx, more, i) <==> Touched(idx, fewer, i) || (InRange(idx, matches[k]) && InSpan(idx, matches[k], i)) {
      if Touched(idx, fewer, i) {
        var j :| 0 <= j < k && InRange(idx, fewer[j]) && InSpan(idx, fewer[j], i);
        assert more[j] == fewer[j];
      }
      if InRange(idx, matches[k]) && InSpan(idx, matches[k], i) { assert more[k] == matches[k]; }
      if Touched(idx, more, i) {
        var j :| 0 <= j <= k && InRange(idx, more[j]) && InSpan(idx, more[j], i);
        assert j < k ==> more[j] == fewer[j];
      }
    }
  }

  lemma NoMatches(u: Unicode, m: Moderator, s: string)
    requires Valid(m) && (Norm(u, s) == [] || m.search(Norm(u, s)) == [])
    ensures m.search(Norm(u, s)) == [] && Censored(u, m.patterns, m.censoredChar, s) == s
  {
    var matches := m.search(Norm(u, s));
    assert Exact(m.patterns, Norm(u, s), matches);
    hide Norm, Kept, IsNoise, Fold;
    if matches != [] { MatchInRange(m.patterns, Norm(u, s), matches, 0); }
    forall i | 0 <= i < |s| ensures !Covered(u, m.patterns, s, i) { TouchedIsCovered(u, m.patterns, s, matches, i); }
  }
}
