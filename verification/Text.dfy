/** Python's whitespace handling of text: `str.split`, `" ".join(...)` and `str.strip`. */
module Text {

  /** The characters on which `str.split()` and the regular expression `\s` agree. */
  predicate IsSpace(c: char) {
    var n := c as int;
    || 9 <= n <= 13 || 28 <= n <= 32 || n == 0x85 || n == 0xA0 || n == 0x1680
    || 0x2000 <= n <= 0x200A || n == 0x2028 || n == 0x2029 || n == 0x202F || n == 0x205F || n == 0x3000
  }

  predicate IsWord(s: string) {
    s != [] && forall i :: 0 <= i < |s| ==> !IsSpace(s[i])
  }

  predicate IsGap(s: string) {
    s != [] && forall i :: 0 <= i < |s| ==> IsSpace(s[i])
  }

  /** Neither end of the text is whitespace, and the text is not empty. */
  predicate Trimmed(s: string) {
    s != [] && !IsSpace(s[0]) && !IsSpace(s[|s| - 1])
  }

  /** The first position at or after `i` that is not whitespace, or the end of the text. */
  function SkipGap(s: string, i: nat): (j: nat)
    requires i <= |s|
    ensures i <= j <= |s|
    ensures j < |s| ==> !IsSpace(s[j])
    decreases |s| - i
  {
    if i < |s| && IsSpace(s[i]) then SkipGap(s, i + 1) else i
  }

  /** The first position at or after `i` that is whitespace, or the end of the text. */
  function SkipWord(s: string, i: nat): (j: nat)
    requires i <= |s|
    ensures i <= j <= |s|
    ensures j < |s| ==> IsSpace(s[j])
    decreases |s| - i
  {
    if i < |s| && !IsSpace(s[i]) then SkipWord(s, i + 1) else i
  }

  /** The words from position `i` on, in order. */
  function WordsFrom(s: string, i: nat): seq<string>
    requires i <= |s|
    decreases |s| - i
  {
    var a := SkipGap(s, i);
    if a == |s| then []
    else
      var b := SkipWord(s, a);
      [s[a..b]] + WordsFrom(s, b)
  }

  /** `str.split()`: the maximal runs of non-whitespace, in order. */
  function Words(s: string): seq<string> {
    WordsFrom(s, 0)
  }

  /** `" ".join(ws)` */
  function Join(ws: seq<string>): string {
    if ws == [] then ""
    else if |ws| == 1 then ws[0]
    else ws[0] + " " + Join(ws[1..])
  }

  /** `" ".join(s.split())` */
  function Collapse(s: string): string {
    Join(Words(s))
  }

  function FoldChar(c: char): char {
    if 'A' <= c <= 'Z' then (c as int + 32) as char else c
  }

  function Fold(s: string): (r: string) {
    seq(|s|, i requires 0 <= i < |s| => FoldChar(s[i]))
  }

  predicate Blank(s: string) {
    forall i :: 0 <= i < |s| ==> IsSpace(s[i])
  }

  predicate StartsWith(s: string, prefix: string) {
    |prefix| <= |s| && s[..|prefix|] == prefix
  }

  predicate EndsWith(s: string, suffix: string) {
    |suffix| <= |s| && s[|s| - |suffix|..] == suffix
  }

  lemma {:induction false} SkippedIsGap(s: string, i: nat)
    requires i <= |s|
    ensures forall k :: i <= k < SkipGap(s, i) ==> IsSpace(s[k])
    decreases |s| - i
  {
    if i < |s| && IsSpace(s[i]) { SkippedIsGap(s, i + 1); }
  }

  lemma {:induction false} SkippedIsWord(s: string, i: nat)
    requires i <= |s|
    ensures forall k :: i <= k < SkipWord(s, i) ==> !IsSpace(s[k])
    decreases |s| - i
  {
    if i < |s| && !IsSpace(s[i]) { SkippedIsWord(s, i + 1); }
  }

  lemma {:induction false} SkipGapEndsAt(s: string, i: nat, j: nat)
    requires i <= j <= |s|
    requires forall k :: i <= k < j ==> IsSpace(s[k])
    requires j < |s| ==> !IsSpace(s[j])
    ensures SkipGap(s, i) == j
    decreases j - i
  {
    if i < j { SkipGapEndsAt(s, i + 1, j); }
  }

  lemma {:induction false} SkipGapStopsAt(s: string, i: nat, p: nat)
    requires i <= p < |s| && !IsSpace(s[p])
    ensures SkipGap(s, i) <= p
    decreases p - i
  {
    if i < p && IsSpace(s[i]) { SkipGapStopsAt(s, i + 1, p); }
  }

  lemma {:induction false} SkipWordEndsAt(s: string, i: nat, j: nat)
    requires i <= j <= |s|
    requires forall k :: i <= k < j ==> !IsSpace(s[k])
    requires j < |s| ==> IsSpace(s[j])
    ensures SkipWord(s, i) == j
    decreases j - i
  {
    if i < j { SkipWordEndsAt(s, i + 1, j); }
  }

  /** Scanning behind a prefix is scanning the rest, shifted. */
  lemma {:induction false} SkipGapBehind(prefix: string, rest: string, i: nat)
    requires i <= |rest|
    ensures SkipGap(prefix + rest, |prefix| + i) == |prefix| + SkipGap(rest, i)
    decreases |rest| - i
  {
    if i < |rest| { SkipGapBehind(prefix, rest, i + 1); }
  }

  lemma {:induction false} SkipWordBehind(prefix: string, rest: string, i: nat)
    requires i <= |rest|
    ensures SkipWord(prefix + rest, |prefix| + i) == |prefix| + SkipWord(rest, i)
    decreases |rest| - i
  {
    if i < |rest| { SkipWordBehind(prefix, rest, i + 1); }
  }

  lemma {:induction false} SliceBehind(prefix: string, rest: string, a: nat, b: nat)
    requires a <= b <= |rest|
    ensures (prefix + rest)[|prefix| + a..|prefix| + b] == rest[a..b]
  {
    assert (prefix + rest)[|prefix|..] == rest;
  }

  lemma {:induction false} WordsBehind(prefix: string, rest: string, i: nat)
    requires i <= |rest|
    ensures WordsFrom(prefix + rest, |prefix| + i) == WordsFrom(rest, i)
    decreases |rest| - i
  {
    var s, n := prefix + rest, |prefix|;
    SkipGapBehind(prefix, rest, i);
    var a := SkipGap(rest, i);
    if a < |rest| {
      SkipWordBehind(prefix, rest, a);
      var b := SkipWord(rest, a);
      SliceBehind(prefix, rest, a, b);
      WordsBehind(prefix, rest, b);
      assert WordsFrom(s, n + i) == [s[n + a..n + b]] + WordsFrom(s, n + b);
      assert WordsFrom(rest, i) == [rest[a..b]] + WordsFrom(rest, b);
    } else {
      assert WordsFrom(s, n + i) == [];
    }
  }

  /** Words do not depend on where in a gap the scan starts. */
  lemma {:induction false} WordsFromGap(s: string, i: nat, j: nat)
    requires i <= j <= |s|
    requires forall k :: i <= k < j ==> IsSpace(s[k])
    ensures WordsFrom(s, i) == WordsFrom(s, j)
    decreases j - i
  {
    if i < j { WordsFromGap(s, i + 1, j); }
  }

  /** A word, a gap and more text split into the word and the words of the rest. */
  lemma {:induction false} WordsOfWordAndRest(word: string, gap: string, rest: string)
    requires IsWord(word) && IsGap(gap)
    ensures Words(word + gap + rest) == [word] + Words(rest)
  {
    var s, m, n := word + gap + rest, |word|, |word + gap|;
    assert forall k :: 0 <= k < m ==> s[k] == word[k];
    assert forall k :: m <= k < n ==> s[k] == gap[k - m];
    SkipGapEndsAt(s, 0, 0);
    SkipWordEndsAt(s, 0, m);
    assert s[0..m] == word;
    WordsFromGap(s, m, n);
    WordsBehind(word + gap, rest, 0);
    assert WordsFrom(s, 0) == [s[0..m]] + WordsFrom(s, m);
  }

  lemma {:induction false} WordsOfWord(word: string)
    requires IsWord(word)
    ensures Words(word) == [word]
  {
    SkipGapEndsAt(word, 0, 0);
    SkipWordEndsAt(word, 0, |word|);
    assert word[0..|word|] == word;
    assert WordsFrom(word, 0) == [word[0..|word|]] + WordsFrom(word, |word|);
  }

  /** Splitting a single-spaced join of words gives the words back. */
  lemma {:induction false} WordsOfJoin(ws: seq<string>)
    requires forall k :: 0 <= k < |ws| ==> IsWord(ws[k])
    ensures Words(Join(ws)) == ws
  {
    if |ws| == 0 {
    } else if |ws| == 1 {
      WordsOfWord(ws[0]);
    } else {
      WordsOfJoin(ws[1..]);
      assert ws[0] + " " + Join(ws[1..]) == ws[0] + [' '] + Join(ws[1..]);
      WordsOfWordAndRest(ws[0], [' '], Join(ws[1..]));
    }
  }

  lemma {:induction false} WordsAreWords(s: string, i: nat)
    requires i <= |s|
    ensures forall k :: 0 <= k < |WordsFrom(s, i)| ==> IsWord(WordsFrom(s, i)[k])
    decreases |s| - i
  {
    var a := SkipGap(s, i);
    if a < |s| {
      var b := SkipWord(s, a);
      WordsAreWords(s, b);
      SkippedIsWord(s, a);
      assert forall k :: 0 <= k < b - a ==> s[a..b][k] == s[a + k];
    }
  }

  /** Collapsing whitespace twice is collapsing it once. */
  lemma {:induction false} CollapseIdempotent(s: string)
    ensures Collapse(Collapse(s)) == Collapse(s)
  {
    WordsAreWords(s, 0);
    WordsOfJoin(Words(s));
  }

  lemma {:induction false} WordsOfBlank(s: string, i: nat)
    requires i <= |s|
    ensures WordsFrom(s, i) == [] <==> forall k :: i <= k < |s| ==> IsSpace(s[k])
  {
    var a := SkipGap(s, i);
    SkippedIsGap(s, i);
    if a < |s| { assert i <= a && !IsSpace(s[a]); }
  }

  /** Just a blank text collapses to nothing. */
  lemma {:induction false} CollapseBlank(s: string)
    ensures Collapse(s) == "" <==> Blank(s)
  {
    WordsOfBlank(s, 0);
    WordsAreWords(s, 0);
    if Words(s) != [] { assert IsWord(Words(s)[0]); }
  }
}
