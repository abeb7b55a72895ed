/** The token window that is quoted around a grounded span. */
module TokenWindow {
  import opened Wrappers
  import opened Text
  import opened Grounding

  /** The tokens `re.finditer(r"\S+", text)` yields from position `i` on. */
  function TokensFrom(s: string, i: nat): seq<Span>
    requires i <= |s|
    decreases |s| - i
  {
    var a := SkipGap(s, i);
    if a == |s| then []
    else
      var b := SkipWord(s, a);
      [Span(a, b)] + TokensFrom(s, b)
  }

  predicate Overlaps(token: Span, start: nat, end: nat) {
    token.end > start && token.start < end
  }

  /** The indexes, from `k` on, of the tokens that overlap the span. */
  function HitsFrom(tokens: seq<Span>, start: nat, end: nat, k: nat): seq<nat>
    requires k <= |tokens|
    decreases |tokens| - k
  {
    if k == |tokens| then []
    else (if Overlaps(tokens[k], start, end) then [k] else []) + HitsFrom(tokens, start, end, k + 1)
  }

  function Min(a: nat, b: nat): nat {
    if a < b then a else b
  }

  /** First and last token of the window around the hits. */
  function WindowOf(count: nat, hits: seq<nat>, radius: nat): (w: (int, int)) {
    if hits == [] then (0, -1)
    else
      var low := hits[0] - radius;
      var high := hits[|hits| - 1] + radius;
      (if low < 0 then 0 else low, if high > count - 1 then count - 1 else high)
  }

  /** `None` is the failure for a span that overlaps no token. */
  function ContextWindow(text: string, start: nat, end: nat, radius: nat): Option<Span> {
    var tokens := TokensFrom(text, 0);
    if tokens == [] then Some(Span(0, |text|))
    else
      var w := WindowOf(|tokens|, HitsFrom(tokens, start, end, 0), radius);
      if 0 <= w.0 <= w.1 < |tokens| then Some(Span(tokens[w.0].start, tokens[w.1].end)) else None
  }

  // ---------- what the tokens are ----------

  /** The spans are the maximal runs of non-whitespace of `s` from `i` on, in order. */
  ghost predicate MaximalRuns(s: string, i: nat, ts: seq<Span>) {
    && (forall k :: 0 <= k < |ts| ==> i <= ts[k].start < ts[k].end <= |s|)
    && (forall k :: 0 < k < |ts| ==> ts[k - 1].end < ts[k].start)
    && (forall p :: i <= p < |s| ==>
          (!IsSpace(s[p]) <==> exists k :: 0 <= k < |ts| && ts[k].start <= p < ts[k].end))
  }

  lemma {:induction false} TokensAreBounded(s: string, i: nat)
    requires i <= |s|
    ensures var ts := TokensFrom(s, i);
      && (forall k :: 0 <= k < |ts| ==> i <= ts[k].start < ts[k].end <= |s|)
      && (forall k :: 0 < k < |ts| ==> ts[k - 1].end < ts[k].start)
      && (ts != [] ==> ts[0].start == SkipGap(s, i) < |s|)
    decreases |s| - i
  {
    var a := SkipGap(s, i);
    if a < |s| {
      var b := SkipWord(s, a);
      TokensAreBounded(s, b);
      var rest := TokensFrom(s, b);
      assert rest != [] ==> b < rest[0].start;
    }
  }

  lemma {:induction false} TokensCover(s: string, i: nat, p: nat)
    requires i <= p < |s|
    ensures var ts := TokensFrom(s, i);
      !IsSpace(s[p]) <==> exists k :: 0 <= k < |ts| && ts[k].start <= p < ts[k].end
    decreases |s| - i
  {
    var ts := TokensFrom(s, i);
    TokensAreBounded(s, i);
    var a := SkipGap(s, i);
    SkippedIsGap(s, i);
    if a < |s| {
      var b := SkipWord(s, a);
      SkippedIsWord(s, a);
      assert ts[0] == Span(a, b);
      if b <= p {
        TokensCover(s, b, p);
        var rest := TokensFrom(s, b);
        assert forall k :: 0 <= k < |rest| ==> rest[k] == ts[k + 1];
        assert forall k :: 0 < k < |ts| ==> ts[k] == rest[k - 1];
      } else {
        TokensAreBounded(s, b);
        assert forall k :: 0 < k < |ts| ==> ts[k] == TokensFrom(s, b)[k - 1];
      }
    }
  }

  /** The tokens are exactly the maximal runs of non-whitespace. */
  lemma {:induction false} TokensAreMaximalRuns(s: string)
    ensures MaximalRuns(s, 0, TokensFrom(s, 0))
  {
    TokensAreBounded(s, 0);
    forall p: nat | p < |s|
      ensures !IsSpace(s[p]) <==> exists k :: 0 <= k < |TokensFrom(s, 0)| && TokensFrom(s, 0)[k].start <= p < TokensFrom(s, 0)[k].end
    {
      TokensCover(s, 0, p);
    }
  }

  // ---------- tokens of a part of the text ----------

  lemma {:induction false} SkipGapInPrefix(s: string, c: nat, i: nat)
    requires i <= c <= |s| && SkipGap(s, i) < c
    ensures SkipGap(s[..c], i) == SkipGap(s, i)
    decreases c - i
  {
    if IsSpace(s[i]) { SkipGapInPrefix(s, c, i + 1); }
  }

  lemma {:induction false} SkipWordInPrefix(s: string, c: nat, i: nat)
    requires i <= c <= |s| && SkipWord(s, i) <= c
    ensures SkipWord(s[..c], i) == SkipWord(s, i)
    decreases c - i
  {
    if i < c && !IsSpace(s[i]) { SkipWordInPrefix(s, c, i + 1); }
  }

  /** Cutting the text off at the end of a token keeps exactly the tokens up to it. */
  lemma {:induction false} TokensOfPrefix(s: string, i: nat, m: nat)
    requires i <= |s| && m < |TokensFrom(s, i)|
    ensures var c := TokensFrom(s, i)[m].end;
      i <= c <= |s| && TokensFrom(s[..c], i) == TokensFrom(s, i)[..m + 1]
    decreases m
  {
    var ts := TokensFrom(s, i);
    TokensAreBounded(s, i);
    var c := ts[m].end;
    var a := SkipGap(s, i);
    var b := SkipWord(s, a);
    assert m > 0 ==> ts[m] == TokensFrom(s, b)[m - 1];
    if m > 0 {
      TokensOfPrefix(s, b, m - 1);
    } else {
      assert TokensFrom(s[..b], b) == [];
    }
    SkipGapInPrefix(s, c, i);
    SkipWordInPrefix(s, c, a);
    assert TokensFrom(s[..c], i) == [Span(a, b)] + TokensFrom(s[..c], b);
  }

  /** Scanning from the start of a token yields the tokens from it on. */
  lemma {:induction false} TokensOfSuffix(s: string, i: nat, k: nat)
    requires i <= |s| && k < |TokensFrom(s, i)|
    ensures var a := TokensFrom(s, i)[k].start; a <= |s| && TokensFrom(s, a) == TokensFrom(s, i)[k..]
    decreases k
  {
    var ts := TokensFrom(s, i);
    TokensAreBounded(s, i);
    var a := SkipGap(s, i);
    if k == 0 {
      SkipGapEndsAt(s, a, a);
      assert ts[0].start == a;
    } else {
      var b := SkipWord(s, a);
      TokensOfSuffix(s, b, k - 1);
      assert ts[k] == TokensFrom(s, b)[k - 1];
      assert ts[k..] == TokensFrom(s, b)[k - 1..];
    }
  }

  /** The words are the texts of the tokens. */
  lemma {:induction false} TokenTexts(s: string, i: nat)
    requires i <= |s|
    ensures var ts, ws := TokensFrom(s, i), WordsFrom(s, i);
      |ts| == |ws| && forall k :: 0 <= k < |ts| ==> ts[k].start <= ts[k].end <= |s| && ws[k] == s[ts[k].start..ts[k].end]
    decreases |s| - i
  {
    if SkipGap(s, i) < |s| { TokenTexts(s, SkipWord(s, SkipGap(s, i))); }
  }

  /** The text from the start of one token to the end of a later one has just the words between. */
  lemma {:induction false} WordsOfWindow(text: string, first: nat, last: nat)
    requires first <= last < |TokensFrom(text, 0)|
    ensures var ts := TokensFrom(text, 0);
      && ts[first].start <= ts[last].end <= |text|
      && |ts| == |Words(text)|
      && Words(text[ts[first].start..ts[last].end]) == Words(text)[first..last + 1]
  {
    var ts := TokensFrom(text, 0);
    var c := ts[last].end;
    TokensOfPrefix(text, 0, last);
    var t := text[..c];
    assert TokensFrom(t, 0)[first] == ts[first];
    TokensOfSuffix(t, 0, first);
    var a := ts[first].start;
    assert TokensFrom(t, a) == ts[first..last + 1];
    WordsOfPrefix(text, c, a, first);
    WordsFromIsWordsOfRest(t, a);
    assert t[a..] == text[a..c];
  }

  /** Where the tokens of a prefix are those of the text, so are the words. */
  lemma {:induction false} WordsOfPrefix(text: string, c: nat, a: nat, first: nat)
    requires a <= c <= |text|
    requires var cut := TokensFrom(text[..c], a);
      first + |cut| <= |TokensFrom(text, 0)| && cut == TokensFrom(text, 0)[first..first + |cut|]
    ensures |Words(text)| == |TokensFrom(text, 0)|
    ensures WordsFrom(text[..c], a) == Words(text)[first..first + |TokensFrom(text[..c], a)|]
  {
    var t := text[..c];
    var cut := TokensFrom(t, a);
    TokenTexts(t, a);
    TokenTexts(text, 0);
    TokensAreBounded(t, a);
    forall k: nat | k < |cut|
      ensures WordsFrom(t, a)[k] == Words(text)[first + k]
    {
      SliceOfPrefix(text, c, cut[k].start, cut[k].end);
    }
  }

  lemma {:induction false} SliceOfPrefix(text: string, c: nat, a: nat, b: nat)
    requires a <= b <= c <= |text|
    ensures text[..c][a..b] == text[a..b]
  {
    assert text[..c] == text[0..c];
    SliceOfSlice(text, 0, c, a, b);
  }

  // ---------- the hits are one block ----------

  /** Tokens in order, with a gap between neighbours. */
  ghost predicate Separated(tokens: seq<Span>) {
    && (forall m :: 0 <= m < |tokens| ==> tokens[m].start < tokens[m].end)
    && (forall m :: 0 < m < |tokens| ==> tokens[m - 1].end < tokens[m].start)
  }

  lemma {:induction false} HitsAreOverlaps(tokens: seq<Span>, start: nat, end: nat, k: nat)
    requires k <= |tokens|
    ensures var hits := HitsFrom(tokens, start, end, k);
      && (forall m :: m in hits <==> k <= m < |tokens| && Overlaps(tokens[m], start, end))
      && (forall m :: m in hits ==> hits[0] <= m <= hits[|hits| - 1])
    decreases |tokens| - k
  {
    if k < |tokens| {
      HitsAreOverlaps(tokens, start, end, k + 1);
      var hits, rest := HitsFrom(tokens, start, end, k), HitsFrom(tokens, start, end, k + 1);
      if Overlaps(tokens[k], start, end) {
        assert hits == [k] + rest;
        assert rest != [] ==> rest[|rest| - 1] in rest && hits[|hits| - 1] == rest[|rest| - 1];
      } else {
        assert hits == rest;
      }
    }
  }

  lemma {:induction false} OrderedTokens(tokens: seq<Span>, a: nat, b: nat)
    requires Separated(tokens) && a <= b < |tokens|
    ensures tokens[a].start <= tokens[b].start && tokens[a].end <= tokens[b].end
    decreases b - a
  {
    if a < b {
      OrderedTokens(tokens, a + 1, b);
      assert tokens[a + 1 - 1].end < tokens[a + 1].start;
    }
  }

  /** Everything between two overlapping tokens overlaps too. */
  lemma {:induction false} HitsAreBlock(tokens: seq<Span>, start: nat, end: nat)
    requires Separated(tokens)
    requires HitsFrom(tokens, start, end, 0) != []
    ensures var hits := HitsFrom(tokens, start, end, 0);
      && 0 <= hits[0] <= hits[|hits| - 1] < |tokens|
      && forall m: nat :: m < |tokens| ==> (Overlaps(tokens[m], start, end) <==> hits[0] <= m <= hits[|hits| - 1])
  {
    HitsAreOverlaps(tokens, start, end, 0);
    var hits := HitsFrom(tokens, start, end, 0);
    var h0, h1 := hits[0], hits[|hits| - 1];
    assert h0 in hits && h1 in hits;
    forall m: nat | h0 <= m <= h1
      ensures Overlaps(tokens[m], start, end)
    {
      OrderedTokens(tokens, h0, m);
      OrderedTokens(tokens, m, h1);
    }
  }

  // ---------- main result about the window ----------

  /** The tokens that overlap the span are those from `h0` to `h1`. */
  ghost predicate HitBlock(tokens: seq<Span>, start: nat, end: nat, h0: nat, h1: nat) {
    && h0 <= h1 < |tokens|
    && forall k: nat :: k < |tokens| ==> (Overlaps(tokens[k], start, end) <==> h0 <= k <= h1)
  }

  /**
   * The window holds exactly the words of the block of overlapping tokens, `min(radius, available)`
   * words before it and as many after it, and begins and ends with a token.
   */
  ghost predicate WindowAround(text: string, start: nat, end: nat, radius: nat, window: Span, h0: nat, h1: nat) {
    var tokens, words := TokensFrom(text, 0), Words(text);
    && HitBlock(tokens, start, end, h0, h1)
    && |words| == |tokens|
    && var first, last := h0 - Min(radius, h0), h1 + Min(radius, |words| - 1 - h1);
       && window == Span(tokens[first].start, tokens[last].end)
       && window.start <= window.end <= |text|
       && Words(text[window.start..window.end]) == words[first..last + 1]
  }

  lemma {:induction false} OverlapBlockIsWindow(text: string, start: nat, end: nat, radius: nat) returns (h0: nat, h1: nat)
    requires HitsFrom(TokensFrom(text, 0), start, end, 0) != []
    ensures var w := ContextWindow(text, start, end, radius);
      w.Some? && WindowAround(text, start, end, radius, w.value, h0, h1)
  {
    var tokens := TokensFrom(text, 0);
    var hits := HitsFrom(tokens, start, end, 0);
    h0, h1 := HitsBoundBlock(text, start, end);
    WindowOfBlock(|tokens|, hits, radius);
    BlockIsWindow(text, start, end, radius, h0, h1);
  }

  lemma {:induction false} HitsBoundBlock(text: string, start: nat, end: nat) returns (h0: nat, h1: nat)
    requires HitsFrom(TokensFrom(text, 0), start, end, 0) != []
    ensures var hits := HitsFrom(TokensFrom(text, 0), start, end, 0);
      h0 == hits[0] && h1 == hits[|hits| - 1] && HitBlock(TokensFrom(text, 0), start, end, h0, h1)
  {
    var tokens := TokensFrom(text, 0);
    TokensAreBounded(text, 0);
    HitsAreBlock(tokens, start, end);
    var hits := HitsFrom(tokens, start, end, 0);
    h0, h1 := hits[0], hits[|hits| - 1];
  }

  lemma {:induction false} WindowOfBlock(count: nat, hits: seq<nat>, radius: nat)
    requires hits != [] && hits[0] <= hits[|hits| - 1] < count
    ensures var h0, h1 := hits[0], hits[|hits| - 1];
      WindowOf(count, hits, radius) == (h0 - Min(radius, h0), h1 + Min(radius, count - 1 - h1))
  {
  }

  /** The tokens around a block bound the window of that block. */
  lemma {:induction false} BlockIsWindow(text: string, start: nat, end: nat, radius: nat, h0: nat, h1: nat)
    requires HitBlock(TokensFrom(text, 0), start, end, h0, h1)
    ensures var tokens := TokensFrom(text, 0);
      var first, last := h0 - Min(radius, h0), h1 + Min(radius, |tokens| - 1 - h1);
      && tokens[first].start <= tokens[last].end
      && WindowAround(text, start, end, radius, Span(tokens[first].start, tokens[last].end), h0, h1)
  {
    var count := |TokensFrom(text, 0)|;
    WordsOfWindow(text, h0 - Min(radius, h0), h1 + Min(radius, count - 1 - h1));
  }

  lemma {:induction false} BlockCovers(tokens: seq<Span>, start: nat, end: nat, radius: nat, h0: nat, h1: nat, k: nat)
    requires Separated(tokens) && HitBlock(tokens, start, end, h0, h1)
    requires k < |tokens| && Overlaps(tokens[k], start, end)
    ensures tokens[h0 - Min(radius, h0)].start <= tokens[k].start
    ensures tokens[k].end <= tokens[h1 + Min(radius, |tokens| - 1 - h1)].end
  {
    OrderedTokens(tokens, h0 - Min(radius, h0), k);
    OrderedTokens(tokens, k, h1 + Min(radius, |tokens| - 1 - h1));
  }

  lemma {:induction false} TokenAt(text: string, p: nat) returns (k: nat)
    requires p < |text| && !IsSpace(text[p])
    ensures var tokens := TokensFrom(text, 0); k < |tokens| && tokens[k].start <= p < tokens[k].end
  {
    TokensCover(text, 0, p);
    k :| k < |TokensFrom(text, 0)| && TokensFrom(text, 0)[k].start <= p < TokensFrom(text, 0)[k].end;
  }

  /** A span that begins and ends inside words has a window, and the window contains it. */
  lemma {:induction false} ContextWindowIsExact(text: string, start: nat, end: nat, radius: nat)
    requires start < end <= |text| && !IsSpace(text[start]) && !IsSpace(text[end - 1])
    ensures var w := ContextWindow(text, start, end, radius);
      && w.Some? && w.value.start <= start && end <= w.value.end
      && exists h0: nat, h1: nat :: WindowAround(text, start, end, radius, w.value, h0, h1)
  {
    var ks := TokenAt(text, start);
    OverlapIsHit(text, start, end, ks);
    var h0, h1 := OverlapBlockIsWindow(text, start, end, radius);
    WindowContains(text, start, end, radius, ContextWindow(text, start, end, radius).value, h0, h1);
  }

  /** A window around a span that begins and ends inside words contains it. */
  lemma {:induction false} WindowContains(text: string, start: nat, end: nat, radius: nat, window: Span, h0: nat, h1: nat)
    requires start < end <= |text| && !IsSpace(text[start]) && !IsSpace(text[end - 1])
    requires WindowAround(text, start, end, radius, window, h0, h1)
    ensures window.start <= start && end <= window.end
  {
    var ks := TokenAt(text, start);
    var ke := TokenAt(text, end - 1);
    TokensAreBounded(text, 0);
    BlockCovers(TokensFrom(text, 0), start, end, radius, h0, h1, ks);
    BlockCovers(TokensFrom(text, 0), start, end, radius, h0, h1, ke);
  }

  lemma {:induction false} OverlapIsHit(text: string, start: nat, end: nat, k: nat)
    requires k < |TokensFrom(text, 0)| && Overlaps(TokensFrom(text, 0)[k], start, end)
    ensures HitsFrom(TokensFrom(text, 0), start, end, 0) != []
  {
    HitsAreOverlaps(TokensFrom(text, 0), start, end, 0);
    assert k in HitsFrom(TokensFrom(text, 0), start, end, 0);
  }

  lemma {:induction false} TokensOfBlank(text: string)
    ensures TokensFrom(text, 0) == [] <==> Blank(text)
  {
    SkippedIsGap(text, 0);
    var a := SkipGap(text, 0);
    if a < |text| { assert !IsSpace(text[a]); }
  }

  /** The only failure: the text has tokens, but none overlaps the span; a text without tokens is its own window. */
  lemma {:induction false} ContextWindowFails(text: string, start: nat, end: nat, radius: nat)
    ensures var tokens := TokensFrom(text, 0);
      ContextWindow(text, start, end, radius) == None <==>
      tokens != [] && forall k :: 0 <= k < |tokens| ==> !Overlaps(tokens[k], start, end)
    ensures TokensFrom(text, 0) == [] <==> Blank(text)
    ensures Blank(text) ==> ContextWindow(text, start, end, radius) == Some(Span(0, |text|))
  {
    TokensOfBlank(text);
    var tokens := TokensFrom(text, 0);
    HitsAreOverlaps(tokens, start, end, 0);
    var hits := HitsFrom(tokens, start, end, 0);
    if hits != [] {
      assert hits[0] in hits;
      var _, _ := OverlapBlockIsWindow(text, start, end, radius);
    }
  }
}
