/**
 * Grounding an annotation candidate in its requirement text, and the token window around it.
 */
module Grounding {
  import opened Wrappers
  import opened Text

  datatype Span = Span(start: nat, end: nat)

  datatype SpanError = CandidateEmpty | CandidateNotGrounded

  /** `text.find(pattern)` from position `i` on; `None` stands for -1. */
  function FindFrom(text: string, pattern: string, i: nat): Option<nat>
    requires i <= |text|
    decreases |text| - i
  {
    if StartsWith(text[i..], pattern) then Some(i)
    else if i == |text| then None
    else FindFrom(text, pattern, i + 1)
  }

  /** Where a match of the parts, joined by `\s+`, ends if it starts at `i`. */
  function MatchAt(text: string, i: nat, parts: seq<string>): (end: Option<nat>)
    requires i <= |text| && parts != []
    ensures end.Some? ==> i + |parts[0]| <= end.value <= |text|
    decreases |parts|
  {
    if !StartsWith(text[i..], parts[0]) then None
    else
      var m := i + |parts[0]|;
      if |parts| == 1 then Some(m)
      else
        var j := SkipGap(text, m);
        if j == m then None else MatchAt(text, j, parts[1..])
  }

  /** `pattern.search(text)` from position `i` on. */
  function SearchFrom(text: string, parts: seq<string>, i: nat): (r: Option<Span>)
    requires i <= |text| && parts != []
    ensures r.Some? ==> i <= r.value.start <= r.value.end <= |text|
    decreases |text| - i
  {
    var m := MatchAt(text, i, parts);
    if m.Some? then Some(Span(i, m.value))
    else if i == |text| then None
    else SearchFrom(text, parts, i + 1)
  }

  /** The span of a candidate: a literal occurrence, else one up to whitespace. */
  function CandidateSpan(text: string, candidate: string): Result<Span, SpanError> {
    var literal := FindFrom(text, candidate, 0);
    if literal.Some? then Success(Span(literal.value, literal.value + |candidate|))
    else
      var parts := Words(candidate);
      if parts == [] then Failure(CandidateEmpty)
      else
        match SearchFrom(text, parts, 0)
        case Some(span) => Success(span)
        case None => Failure(CandidateNotGrounded)
  }

  /** `text[i..e]` reads as the given words, and begins and ends with one. */
  ghost predicate ReadsAs(text: string, i: nat, e: nat, parts: seq<string>) {
    i < e <= |text| && Trimmed(text[i..e]) && Words(text[i..e]) == parts
  }

  predicate OccursAt(text: string, i: nat, pattern: string) {
    i + |pattern| <= |text| && text[i..i + |pattern|] == pattern
  }

  // ---------- the regular expression against its declarative reading ----------

  /** A word and a gap in front of a reading make a longer reading. */
  lemma {:induction false} ReadingExtends(text: string, i: nat, m: nat, j: nat, e: nat, rest: seq<string>)
    requires i < m < j <= |text| && IsWord(text[i..m]) && IsGap(text[m..j])
    requires ReadsAs(text, j, e, rest)
    ensures ReadsAs(text, i, e, [text[i..m]] + rest)
  {
    var word, gap, tail := text[i..m], text[m..j], text[j..e];
    var t := text[i..e];
    assert t == word + gap + tail;
    WordsOfWordAndRest(word, gap, tail);
    assert t[0] == word[0] && t[|t| - 1] == tail[|tail| - 1];
  }

  lemma {:induction false} MatchReadsAs(text: string, i: nat, parts: seq<string>)
    requires i <= |text| && parts != []
    requires forall k :: 0 <= k < |parts| ==> IsWord(parts[k])
    requires MatchAt(text, i, parts).Some?
    ensures ReadsAs(text, i, MatchAt(text, i, parts).value, parts)
    decreases |parts|
  {
    var m := i + |parts[0]|;
    MatchStarts(text, i, parts);
    if |parts| == 1 {
      WordsOfWord(parts[0]);
      assert parts == [parts[0]];
    } else {
      var j := SkipGap(text, m);
      TailOfWords(parts);
      MatchReadsAs(text, j, parts[1..]);
      SkippedIsGap(text, m);
      ReadingExtends(text, i, m, j, MatchAt(text, j, parts[1..]).value, parts[1..]);
    }
  }

  lemma {:induction false} TailOfWords(parts: seq<string>)
    requires parts != [] && forall k :: 0 <= k < |parts| ==> IsWord(parts[k])
    ensures forall k :: 0 <= k < |parts[1..]| ==> IsWord(parts[1..][k])
    ensures parts == [parts[0]] + parts[1..]
  {
  }

  /** A match begins with the first part, and goes on behind the gap that follows it. */
  lemma {:induction false} MatchStarts(text: string, i: nat, parts: seq<string>)
    requires i <= |text| && parts != [] && MatchAt(text, i, parts).Some?
    ensures var m := i + |parts[0]|;
      && m <= |text| && text[i..m] == parts[0]
      && (|parts| == 1 ==> MatchAt(text, i, parts) == Some(m))
      && (|parts| > 1 ==> SkipGap(text, m) > m && MatchAt(text, i, parts) == MatchAt(text, SkipGap(text, m), parts[1..]))
  {
    var m := i + |parts[0]|;
    assert text[i..m] == text[i..][..m - i];
  }

  lemma {:induction false} WordsFromIsWordsOfRest(t: string, j: nat)
    requires j <= |t|
    ensures WordsFrom(t, j) == Words(t[j..])
  {
    WordsBehind(t[..j], t[j..], 0);
    assert t[..j] + t[j..] == t;
  }

  lemma {:induction false} TrimmedStarts(t: string)
    requires Trimmed(t)
    ensures var b := SkipWord(t, 0); 0 < b && Words(t) == [t[..b]] + WordsFrom(t, b)
  {
    SkipGapEndsAt(t, 0, 0);
    var b := SkipWord(t, 0);
    assert t[0..b] == t[..b];
  }

  /** After a first word that is not the whole text comes a gap, and then more trimmed text. */
  lemma {:induction false} TrimmedContinues(t: string, b: nat)
    requires Trimmed(t) && b < |t| && IsSpace(t[b])
    ensures var j := SkipGap(t, b); b < j < |t| && WordsFrom(t, b) == Words(t[j..]) && Trimmed(t[j..])
  {
    var j := SkipGap(t, b);
    SkippedIsGap(t, b);
    SkipGapStopsAt(t, b, |t| - 1);
    WordsFromGap(t, b, j);
    WordsFromIsWordsOfRest(t, j);
  }

  lemma {:induction false} SkipGapInSlice(text: string, i: nat, e: nat, b: nat)
    requires i <= e <= |text| && b <= e - i && SkipGap(text[i..e], b) < e - i
    ensures SkipGap(text, i + b) == i + SkipGap(text[i..e], b)
    decreases e - i - b
  {
    if IsSpace(text[i + b]) { SkipGapInSlice(text, i, e, b + 1); }
  }

  /** How a match of a word and more parts continues behind the word. */
  lemma {:induction false} MatchStep(text: string, i: nat, m: nat, rest: seq<string>)
    requires i <= m <= |text|
    ensures var parts := [text[i..m]] + rest;
      MatchAt(text, i, parts) ==
      if rest == [] then Some(m)
      else if SkipGap(text, m) == m then None
      else MatchAt(text, SkipGap(text, m), rest)
  {
    assert text[i..][..m - i] == text[i..m];
    var parts := [text[i..m]] + rest;
    assert parts[1..] == rest;
  }

  lemma {:induction false} SliceOfSlice(text: string, i: nat, e: nat, a: nat, b: nat)
    requires i <= e <= |text| && a <= b <= e - i
    ensures text[i..e][a..b] == text[i + a..i + b]
    ensures a == 0 ==> text[i..e][..b] == text[i..i + b]
    ensures b == e - i ==> text[i..e][a..] == text[i + a..e]
  {
    var t := text[i..e];
    assert forall k :: a <= k < b ==> t[k] == text[i + k];
    assert t[a..b] == text[i + a..i + b];
  }

  /** The first word of a trimmed slice, and where the next one starts in the whole text. */
  lemma {:induction false} FirstWordOf(text: string, i: nat, e: nat) 
    returns (m: nat, j: nat, rest: seq<string>)
    requires i <= e <= |text| && Trimmed(text[i..e])
    ensures i < m <= e && m <= j <= |text| && j == SkipGap(text, m)
    ensures Words(text[i..e]) == [text[i..m]] + rest
    ensures m == e ==> rest == []
    ensures m < e ==> m < j < e && Trimmed(text[j..e]) && rest == Words(text[j..e])
  {
    var t := text[i..e];
    TrimmedStarts(t);
    var b := SkipWord(t, 0);
    m := i + b;
    j := SkipGap(text, m);
    rest := WordsFrom(t, b);
    SliceOfSlice(text, i, e, 0, b);
    if b < |t| {
      TrimmedContinues(t, b);
      SkipGapInSlice(text, i, e, b);
      SliceOfSlice(text, i, e, j - i, |t|);
      var tail := t[j - i..];
      assert rest == Words(tail);
    }
  }

  lemma {:induction false} ReadingMatches(text: string, i: nat, e: nat, parts: seq<string>)
    requires ReadsAs(text, i, e, parts)
    ensures parts != [] && MatchAt(text, i, parts) == Some(e)
    decreases e - i
  {
    var m, j, rest := FirstWordOf(text, i, e);
    if m < e { ReadingMatches(text, j, e, rest); }
    MatchStep(text, i, m, rest);
  }

  lemma {:induction false} SearchFindsFirst(text: string, parts: seq<string>, i: nat)
    requires i <= |text| && parts != []
    requires forall k :: 0 <= k < |parts| ==> IsWord(parts[k])
    ensures var r := SearchFrom(text, parts, i);
      && (r.Some? ==> ReadsAs(text, r.value.start, r.value.end, parts))
      && forall p: nat, e: nat :: i <= p && ReadsAs(text, p, e, parts) ==>
           r.Some? && (r.value.start < p || r.value == Span(p, e))
    decreases |text| - i
  {
    var m := MatchAt(text, i, parts);
    forall p: nat, e: nat | i <= p && ReadsAs(text, p, e, parts)
      ensures MatchAt(text, p, parts) == Some(e)
    {
      ReadingMatches(text, p, e, parts);
    }
    if m.Some? {
      MatchReadsAs(text, i, parts);
    } else if i < |text| {
      SearchFindsFirst(text, parts, i + 1);
    }
  }

  lemma {:induction false} FindIsFirst(text: string, pattern: string, i: nat)
    requires i <= |text|
    ensures var r := FindFrom(text, pattern, i);
      && (r.Some? ==> i <= r.value && OccursAt(text, r.value, pattern))
      && forall p: nat :: i <= p && OccursAt(text, p, pattern) ==> r.Some? && r.value <= p
    decreases |text| - i
  {
    if i + |pattern| <= |text| {
      assert text[i..][..|pattern|] == text[i..i + |pattern|];
    }
    if !StartsWith(text[i..], pattern) && i < |text| {
      FindIsFirst(text, pattern, i + 1);
    }
  }

  // ---------- main results about the span ----------

  /** The canonical form in which the queue builder hands candidates over. */
  predicate Canonical(candidate: string) {
    candidate != [] && Collapse(candidate) == candidate
  }

  lemma {:induction false} JoinIsTrimmed(ws: seq<string>)
    requires ws != [] && forall k :: 0 <= k < |ws| ==> IsWord(ws[k])
    ensures Trimmed(Join(ws))
  {
    if |ws| > 1 {
      JoinIsTrimmed(ws[1..]);
      var rest := Join(ws[1..]);
      var s := ws[0] + " " + rest;
      assert s[0] == ws[0][0] && s[|s| - 1] == rest[|rest| - 1];
    }
  }

  /** A canonical candidate is trimmed, so each literal occurrence of it reads as its words. */
  lemma {:induction false} CanonicalReads(candidate: string)
    requires Canonical(candidate)
    ensures Trimmed(candidate) && Words(candidate) != []
    ensures forall k :: 0 <= k < |Words(candidate)| ==> IsWord(Words(candidate)[k])
  {
    WordsAreWords(candidate, 0);
    JoinIsTrimmed(Words(candidate));
  }

  /**
   * A canonical candidate is grounded exactly when some slice of the text reads as its words;
   * the evidence then is such a slice, collapses to the candidate, and is the first literal
   * occurrence, or, where there is none, the first reading.
   */
  lemma {:induction false} CandidateSpanIsFirstReading(text: string, candidate: string)
    requires Canonical(candidate)
    ensures CandidateSpan(text, candidate).Success? <==>
      exists i: nat, e: nat :: ReadsAs(text, i, e, Words(candidate))
    ensures match CandidateSpan(text, candidate)
      case Failure(error) => error == CandidateNotGrounded
      case Success(span) =>
        && ReadsAs(text, span.start, span.end, Words(candidate))
        && Collapse(text[span.start..span.end]) == candidate
        && ((exists p: nat :: OccursAt(text, p, candidate)) ==>
              OccursAt(text, span.start, candidate) && span.end == span.start + |candidate|)
        && (forall p: nat :: OccursAt(text, p, candidate) ==> span.start <= p)
        && ((forall p: nat :: !OccursAt(text, p, candidate)) ==>
              forall p: nat, e: nat :: ReadsAs(text, p, e, Words(candidate)) ==> span.start <= p)
  {
    CanonicalReads(candidate);
    FindIsFirst(text, candidate, 0);
    SearchFindsFirst(text, Words(candidate), 0);
  }

  /** What the queue builder relies on: a span inside the text, from word to word, that collapses to the candidate. */
  lemma {:induction false} SpanIsGrounded(text: string, candidate: string)
    requires Canonical(candidate) && CandidateSpan(text, candidate).Success?
    ensures var span := CandidateSpan(text, candidate).value;
      && span.start < span.end <= |text|
      && !IsSpace(text[span.start]) && !IsSpace(text[span.end - 1])
      && Collapse(text[span.start..span.end]) == candidate
  {
    CandidateSpanIsFirstReading(text, candidate);
    var span := CandidateSpan(text, candidate).value;
    ReadingEnds(text, span.start, span.end, Words(candidate));
  }

  lemma {:induction false} ReadingEnds(text: string, i: nat, e: nat, parts: seq<string>)
    requires ReadsAs(text, i, e, parts)
    ensures !IsSpace(text[i]) && !IsSpace(text[e - 1])
  {
    var slice := text[i..e];
    assert slice[0] == text[i] && slice[|slice| - 1] == text[e - 1];
  }

  /** The result for any candidate, canonical or not: the empty one is found at once, a blank one never. */
  lemma {:induction false} CandidateSpanErrors(text: string, candidate: string)
    ensures candidate == "" ==> CandidateSpan(text, candidate) == Success(Span(0, 0))
    ensures CandidateSpan(text, candidate) == Failure(CandidateEmpty) <==>
      Words(candidate) == [] && forall p: nat :: !OccursAt(text, p, candidate)
  {
    FindIsFirst(text, candidate, 0);
    if candidate == "" {
      assert OccursAt(text, 0, candidate);
    }
  }
}
