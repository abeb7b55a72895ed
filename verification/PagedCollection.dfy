/** Collecting job matches page by page under a budget. */
module PagedCollection {
  import opened Wrappers
  import opened Text
  import Grounding

  // ---------- which search terms a job matches ----------

  /** `needle in text` */
  predicate Contains(text: string, needle: string) {
    exists i :: 0 <= i <= |text| && Grounding.OccursAt(text, i, needle)
  }

  /** Every token of the term occurs in the text. */
  predicate TokensOccur(text: string, term: string) {
    Words(term) != [] && forall k :: 0 <= k < |Words(term)| ==> Contains(text, Words(term)[k])
  }

  /** The terms all of whose tokens occur, in order. */
  function TokenwiseMatches(text: string, terms: seq<string>, normalize: string -> string): seq<string> {
    if terms == [] then []
    else (if TokensOccur(text, normalize(terms[0])) then [terms[0]] else []) + TokenwiseMatches(text, terms[1..], normalize)
  }

  lemma {:induction false} WordsAreSlices(s: string, i: nat, k: nat)
    requires i <= |s| && k < |WordsFrom(s, i)|
    ensures exists a, b :: 0 <= a <= b <= |s| && WordsFrom(s, i)[k] == s[a..b]
    decreases |s| - i
  {
    var a := SkipGap(s, i);
    var b := SkipWord(s, a);
    assert WordsFrom(s, i) == [s[a..b]] + WordsFrom(s, b);
    if k == 0 {
      assert WordsFrom(s, i)[k] == s[a..b];
    } else {
      WordsAreSlices(s, b, k - 1);
      assert WordsFrom(s, i)[k] == WordsFrom(s, b)[k - 1];
    }
  }

  lemma {:induction false} SliceOccurs(text: string, term: string, a: nat, b: nat)
    requires Contains(text, term) && a <= b <= |term|
    ensures Contains(text, term[a..b])
  {
    var i :| 0 <= i <= |text| && Grounding.OccursAt(text, i, term);
    Grounding.SliceOfSlice(text, i, i + |term|, a, b);
    var word := term[a..b];
    assert text[i + a..i + a + |word|] == word;
    var j := i + a;
    assert 0 <= j <= |text| && Grounding.OccursAt(text, j, word);
    assert Contains(text, word);
  }

  /** A text that holds the whole term holds each of its tokens. */
  lemma {:induction false} WholeTermHoldsTokens(text: string, term: string, k: nat)
    requires Contains(text, term) && k < |Words(term)|
    ensures Contains(text, Words(term)[k])
  {
    WordsAreSlices(term, 0, k);
    var a, b :| 0 <= a <= b <= |term| && Words(term)[k] == term[a..b];
    SliceOccurs(text, term, a, b);
  }

  /** Testing the whole term first decides nothing that testing its tokens does not. */
  lemma {:induction false} WholeTermIsRedundant(text: string, normalized: string)
    requires normalized == "" || Trimmed(normalized)
    ensures TokensOccur(text, normalized) <==> normalized != "" && (Contains(text, normalized) || TokensOccur(text, normalized))
  {
    if normalized != "" {
      TrimmedHasWords(normalized);
      if Contains(text, normalized) {
        forall k | 0 <= k < |Words(normalized)|
          ensures Contains(text, Words(normalized)[k])
        {
          WholeTermHoldsTokens(text, normalized, k);
        }
      }
    }
  }

  lemma {:induction false} TrimmedHasWords(term: string)
    requires Trimmed(term)
    ensures Words(term) != []
  {
    assert SkipGap(term, 0) == 0;
  }

  lemma {:induction false} TokenwiseStep(matched: seq<string>, text: string, terms: seq<string>, i: nat, normalize: string -> string)
    requires i < |terms|
    ensures matched + TokenwiseMatches(text, terms[i..], normalize)
      == (if TokensOccur(text, normalize(terms[i])) then matched + [terms[i]] else matched) + TokenwiseMatches(text, terms[i + 1..], normalize)
  {
    assert terms[i..][0] == terms[i] && terms[i..][1..] == terms[i + 1..];
    var rest := TokenwiseMatches(text, terms[i + 1..], normalize);
    assert matched + ([terms[i]] + rest) == (matched + [terms[i]]) + rest;
    assert matched + ([] + rest) == matched + rest;
  }

  /** `normalized_lower` strips what it returns. */
  ghost predicate Strips(normalize: string -> string) {
    forall term :: normalize(term) == "" || Trimmed(normalize(term))
  }

  /** `matched_terms_for_job`: the check for the whole term decides nothing that the check for its tokens does not. */
  method MatchedTerms(text: string, terms: seq<string>, normalize: string -> string) returns (matched: seq<string>)
    requires Strips(normalize)
    ensures matched == TokenwiseMatches(text, terms, normalize)
  {
    matched := [];
    var i := 0;
    while i < |terms|
      invariant 0 <= i <= |terms|
      invariant matched + TokenwiseMatches(text, terms[i..], normalize) == TokenwiseMatches(text, terms, normalize)
    {
      var term, normalized := terms[i], normalize(terms[i]);
      WholeTermIsRedundant(text, normalized);
      TokenwiseStep(matched, text, terms, i, normalize);
      i := i + 1;
      if normalized == "" { continue; }
      if Contains(text, normalized) {
        matched := matched + [term];
        continue;
      }
      if TokensOccur(text, normalized) {
        matched := matched + [term];
      }
    }
  }

  /** The token stands somewhere in the text. */
  ghost predicate StandsIn(text: string, token: string) {
    exists before, behind :: text == before + token + behind
  }

  /** A term is matched exactly if, normalised, it has words and each of them stands in the text. */
  lemma {:induction false} MatchedTermsAre(text: string, terms: seq<string>, normalize: string -> string)
    ensures forall term :: term in TokenwiseMatches(text, terms, normalize) <==>
      && term in terms && Words(normalize(term)) != []
      && forall word :: word in Words(normalize(term)) ==> StandsIn(text, word)
  {
    if terms != [] {
      var rest := terms[1..];
      MatchedTermsAre(text, rest, normalize);
      assert forall term :: term in terms <==> term == terms[0] || term in rest;
      TokensAre(text, normalize(terms[0]));
    }
  }

  lemma {:induction false} ContainsMeans(text: string, token: string)
    ensures Contains(text, token) <==> StandsIn(text, token)
  {
    if i :| 0 <= i <= |text| && Grounding.OccursAt(text, i, token) {
      assert text == text[..i] + token + text[i + |token|..];
    }
    if before, behind :| text == before + token + behind {
      assert text[|before|..|before| + |token|] == token;
      assert Grounding.OccursAt(text, |before|, token);
    }
  }

  lemma {:induction false} TokensAre(text: string, term: string)
    ensures TokensOccur(text, term) <==> Words(term) != [] && forall word :: word in Words(term) ==> StandsIn(text, word)
  {
    forall word
      ensures Contains(text, word) <==> StandsIn(text, word)
    {
      ContainsMeans(text, word);
    }
  }

  // ---------- one page ----------

  /** The matches of a page in order; the matcher sees which page, hence which query, the job came from. */
  function MatchesOf<J, M>(page: nat, jobs: seq<J>, matcher: (nat, J) -> Option<M>): seq<M> {
    if jobs == [] then []
    else if matcher(page, jobs[0]).Some? then [matcher(page, jobs[0]).value] + MatchesOf(page, jobs[1..], matcher)
    else MatchesOf(page, jobs[1..], matcher)
  }

  /** The first `max` elements; none when `max` is not positive. */
  function Take<M>(s: seq<M>, max: int): seq<M> {
    if max <= 0 then [] else if max < |s| then s[..max] else s
  }

  lemma {:induction false} TakeOfConcat<M>(a: seq<M>, b: seq<M>, max: int)
    ensures Take(a + b, max) == Take(a, max) + Take(b, max - |Take(a, max)|)
  {
  }

  /** `jobs_to_matches` */
  method JobsToMatches<J, M>(page: nat, jobs: seq<J>, matcher: (nat, J) -> Option<M>, max: int) returns (matches: seq<M>)
    ensures matches == Take(MatchesOf(page, jobs, matcher), max)
  {
    if max <= 0 { return []; }
    matches := [];
    var i := 0;
    while i < |jobs|
      invariant 0 <= i <= |jobs| && |matches| < max
      invariant matches + MatchesOf(page, jobs[i..], matcher) == MatchesOf(page, jobs, matcher)
    {
      assert jobs[i..][0] == jobs[i] && jobs[i..][1..] == jobs[i + 1..];
      var found := matcher(page, jobs[i]);
      i := i + 1;
      if found.Some? {
        assert matches + ([found.value] + MatchesOf(page, jobs[i..], matcher))
            == (matches + [found.value]) + MatchesOf(page, jobs[i..], matcher);
        matches := matches + [found.value];
        if |matches| >= max {
          break;
        }
      }
    }
  }

  // ---------- all pages ----------

  /** What a request answers; `None` is a failed request. */
  type Page<J> = Option<seq<J>>

  function Jobs<J>(page: Page<J>): seq<J> {
    if page.Some? then page.value else []
  }

  /** The matches of the first `k` pages. */
  function MatchesUpTo<J, M>(pages: seq<Page<J>>, matcher: (nat, J) -> Option<M>, k: nat): seq<M>
    requires k <= |pages|
  {
    if k == 0 then [] else MatchesUpTo(pages, matcher, k - 1) + MatchesOf(k - 1, Jobs(pages[k - 1]), matcher)
  }

  function JobsUpTo<J>(pages: seq<Page<J>>, k: nat): nat
    requires k <= |pages|
  {
    if k == 0 then 0 else JobsUpTo(pages, k - 1) + |Jobs(pages[k - 1])|
  }

  predicate Fills<J, M>(pages: seq<Page<J>>, matcher: (nat, J) -> Option<M>, max: int, k: nat)
    requires k <= |pages|
  {
    |MatchesUpTo(pages, matcher, k)| >= max
  }

  function FirstFilling<J, M>(pages: seq<Page<J>>, matcher: (nat, J) -> Option<M>, max: int, k: nat): (n: nat)
    requires k <= |pages|
    ensures k <= n <= |pages|
    decreases |pages| - k
  {
    if k == |pages| || (k > 0 && Fills(pages, matcher, max, k)) then k else FirstFilling(pages, matcher, max, k + 1)
  }

  /** How many requests a probe makes when none fails. */
  function RequestCount<J, M>(pages: seq<Page<J>>, matcher: (nat, J) -> Option<M>, max: int): (n: nat)
    ensures n <= |pages|
  {
    FirstFilling(pages, matcher, max, 0)
  }

  lemma {:induction false} FirstFillingIsFirst<J, M>(pages: seq<Page<J>>, matcher: (nat, J) -> Option<M>, max: int, k: nat)
    requires k <= |pages|
    ensures var n := FirstFilling(pages, matcher, max, k);
      && (forall j :: k <= j < n && j > 0 ==> !Fills(pages, matcher, max, j))
      && (n < |pages| ==> n > 0 && Fills(pages, matcher, max, n))
    decreases |pages| - k
  {
    if !(k == |pages| || (k > 0 && Fills(pages, matcher, max, k))) {
      FirstFillingIsFirst(pages, matcher, max, k + 1);
    }
  }

  /** The request count is the least positive number of pages that fills the budget, and all pages if none does. */
  lemma {:induction false} RequestCountIsLeast<J, M>(pages: seq<Page<J>>, matcher: (nat, J) -> Option<M>, max: int, n: nat)
    requires n <= |pages|
    ensures n == RequestCount(pages, matcher, max) <==>
      && (n == 0 ==> pages == [])
      && (forall j :: 0 < j < n ==> !Fills(pages, matcher, max, j))
      && (n < |pages| ==> Fills(pages, matcher, max, n))
  {
    FirstFillingIsFirst(pages, matcher, max, 0);
  }

  /** The matches only grow, so later pages cannot change the first `max` once the budget is full. */
  lemma {:induction false} FilledIsFinal<J, M>(pages: seq<Page<J>>, matcher: (nat, J) -> Option<M>, max: int, k: nat, n: nat)
    requires k <= n <= |pages| && Fills(pages, matcher, max, k)
    ensures Take(MatchesUpTo(pages, matcher, n), max) == Take(MatchesUpTo(pages, matcher, k), max)
    ensures Fills(pages, matcher, max, n)
    decreases n
  {
    if k < n {
      FilledIsFinal(pages, matcher, max, k, n - 1);
      TakeOfConcat(MatchesUpTo(pages, matcher, n - 1), MatchesOf(n - 1, Jobs(pages[n - 1]), matcher), max);
    }
  }

  /** Stopping early loses nothing: the collected matches are the first `max` of all pages together. */
  lemma {:induction false} StoppingLosesNothing<J, M>(pages: seq<Page<J>>, matcher: (nat, J) -> Option<M>, max: int)
    ensures var n := RequestCount(pages, matcher, max);
      && Take(MatchesUpTo(pages, matcher, n), max) == Take(MatchesUpTo(pages, matcher, |pages|), max)
      && (n > 0 ==> (Fills(pages, matcher, max, n) <==> Fills(pages, matcher, max, |pages|)))
  {
    var n := RequestCount(pages, matcher, max);
    RequestCountIsLeast(pages, matcher, max, n);
    if n < |pages| { FilledIsFinal(pages, matcher, max, n, |pages|); }
  }

  // ---------- the probes ----------

  /** `made` is how many requests went out up to the failing one, which the raised exception does not say. */
  datatype Probe<M> =
    | RequestFailed(made: nat)
    | Probed(requestCount: nat, totalReturned: nat, matches: seq<M>, limitReached: bool, credentialsMissing: bool)

  /** One of the first `n` requests fails. */
  predicate FailsWithin<J>(pages: seq<Page<J>>, n: nat)
    requires n <= |pages|
  {
    exists k :: 0 <= k < n && pages[k].None?
  }

  /** The probe stands after `page` pages, all requested and answered. */
  ghost predicate StandsAt<J, M>(pages: seq<Page<J>>, matcher: (nat, J) -> Option<M>, max: int, page: nat, matches: seq<M>, returned: nat) {
    && page <= |pages| && matches == Take(MatchesUpTo(pages, matcher, page), max) && returned == JobsUpTo(pages, page)
    && RequestCount(pages, matcher, max) == FirstFilling(pages, matcher, max, page)
    && forall k :: 0 <= k < page ==> pages[k].Some?
  }

  /** One more page under the residual budget. */
  lemma {:induction false} PageAdds<J, M>(pages: seq<Page<J>>, matcher: (nat, J) -> Option<M>, max: int, page: nat,
        matches: seq<M>, returned: nat, more: seq<M>)
    requires StandsAt(pages, matcher, max, page, matches, returned) && page < |pages| && pages[page].Some?
    requires page > 0 ==> |matches| < max
    requires more == Take(MatchesOf(page, pages[page].value, matcher), max - |matches|)
    ensures StandsAt(pages, matcher, max, page + 1, matches + more, returned + |pages[page].value|)
  {
    TakeOfConcat(MatchesUpTo(pages, matcher, page), MatchesOf(page, Jobs(pages[page]), matcher), max);
  }

  /** When the pages so far do not fill the budget, the probe goes on, and a failing next page fails it. */
  lemma {:induction false} FailureCounts<J, M>(pages: seq<Page<J>>, matcher: (nat, J) -> Option<M>, max: int,
        page: nat, matches: seq<M>, returned: nat)
    requires StandsAt(pages, matcher, max, page, matches, returned) && page < |pages| && pages[page].None?
    requires page > 0 ==> |matches| < max
    ensures ProbeOf(pages, matcher, max) == RequestFailed(page + 1)
  {
    FirstFailureIsFirst(pages, 0, page);
    assert FirstFilling(pages, matcher, max, page) == FirstFilling(pages, matcher, max, page + 1);
  }

  /** The number of the first page from `k` on whose request fails, or of all pages. */
  function FirstFailure<J>(pages: seq<Page<J>>, k: nat): (n: nat)
    requires k <= |pages|
    ensures k <= n <= |pages|
    decreases |pages| - k
  {
    if k == |pages| || pages[k].None? then k else FirstFailure(pages, k + 1)
  }

  lemma {:induction false} FirstFailureIsFirst<J>(pages: seq<Page<J>>, k: nat, page: nat)
    requires k <= page < |pages| && pages[page].None? && forall j :: k <= j < page ==> pages[j].Some?
    ensures FirstFailure(pages, k) == page
    decreases page - k
  {
    if k < page { FirstFailureIsFirst(pages, k + 1, page); }
  }

  /** How many requests a probe makes, the failing one included. */
  function RequestsMade<J, M>(pages: seq<Page<J>>, matcher: (nat, J) -> Option<M>, max: int): nat {
    var n, failure := RequestCount(pages, matcher, max), FirstFailure(pages, 0);
    if FailsWithin(pages, n) then failure + 1 else n
  }

  /** A probe with credentials that asks for as few pages as fill its budget. */
  function ProbeOf<J, M>(pages: seq<Page<J>>, matcher: (nat, J) -> Option<M>, max: int): Probe<M> {
    var n := RequestCount(pages, matcher, max);
    if FailsWithin(pages, n) then RequestFailed(RequestsMade(pages, matcher, max))
    else Probed(n, JobsUpTo(pages, n), Take(MatchesUpTo(pages, matcher, |pages|), max),
                n > 0 && Fills(pages, matcher, max, |pages|), false)
  }

  /** Where the probe stops without a failure: its request count, its matches and its note. */
  lemma {:induction false} StopsAt<J, M>(pages: seq<Page<J>>, matcher: (nat, J) -> Option<M>, max: int, page: nat,
        matches: seq<M>, returned: nat, limitReached: bool)
    requires StandsAt(pages, matcher, max, page, matches, returned)
    requires limitReached == (page > 0 && |matches| >= max) && (page == |pages| || limitReached)
    ensures Probed(page, returned, matches, limitReached, false) == ProbeOf(pages, matcher, max)
  {
    assert page == RequestCount(pages, matcher, max);
    StoppingLosesNothing(pages, matcher, max);
  }

  /**
   * The four `probe_*` loops: arbeitnow asks for numbered pages, the others for one page per search term,
   * and adzuna and jooble do not start without credentials.
   */
  method ProbePages<J, M>(pages: seq<Page<J>>, matcher: (nat, J) -> Option<M>, max: int, credentials: bool) returns (probe: Probe<M>)
    ensures !credentials ==> probe == Probed(0, 0, [], false, true)
    ensures credentials ==> probe == ProbeOf(pages, matcher, max)
  {
    if !credentials { return Probed(0, 0, [], false, true); }
    var matches: seq<M>, page := [], 0;
    var totalReturned: nat, requestCount: nat := 0, 0;
    while page < |pages|
      invariant requestCount == page && StandsAt(pages, matcher, max, page, matches, totalReturned)
      invariant page > 0 ==> |matches| < max
    {
      if pages[page].None? {
        FailureCounts(pages, matcher, max, page, matches, totalReturned);
        return RequestFailed(requestCount + 1);
      }
      var jobs := pages[page].value;
      requestCount := requestCount + 1;
      var more := JobsToMatches(page, jobs, matcher, max - |matches|);
      PageAdds(pages, matcher, max, page, matches, totalReturned, more);
      totalReturned := totalReturned + |jobs|;
      matches := matches + more;
      page := page + 1;
      if |matches| >= max {
        StopsAt(pages, matcher, max, page, matches, totalReturned, true);
        return Probed(requestCount, totalReturned, matches, true, false);
      }
    }
    StopsAt(pages, matcher, max, page, matches, totalReturned, false);
    return Probed(requestCount, totalReturned, matches, false, false);
  }

  datatype Status = NotProbedByDesign | ProbeFailed | SkippedMissingCredentials | ProbedWithMatches | ProbedWithoutMatches

  datatype Evaluation<M> = Evaluation(status: Status, requestCount: nat, totalReturned: nat, matches: seq<M>)

  /** The part of `evaluate_candidate` that follows the probe; without a probe there is no request. */
  function Evaluate<M>(probe: Option<Probe<M>>): Evaluation<M> {
    match probe
    case None => Evaluation(NotProbedByDesign, 0, 0, [])
    case Some(RequestFailed(_)) => Evaluation(ProbeFailed, 0, 0, [])
    case Some(Probed(requestCount, totalReturned, matches, _, credentialsMissing)) =>
      Evaluation(if credentialsMissing then SkippedMissingCredentials
                 else if matches != [] then ProbedWithMatches
                 else ProbedWithoutMatches,
                 requestCount, totalReturned, matches)
  }

  /** A whole evaluation: it reports matches exactly when the budget allows one and the pages hold one. */
  method EvaluateCandidate<J, M>(pages: seq<Page<J>>, matcher: (nat, J) -> Option<M>, max: int, credentials: bool) returns (evaluation: Evaluation<M>)
    ensures evaluation.status == ProbedWithMatches <==>
      && credentials && max > 0 && MatchesUpTo(pages, matcher, |pages|) != []
      && !FailsWithin(pages, RequestCount(pages, matcher, max))
    ensures evaluation.status == ProbeFailed <==>
      credentials && FailsWithin(pages, RequestCount(pages, matcher, max))
    ensures evaluation.status == ProbeFailed || evaluation.status == SkippedMissingCredentials ==>
      evaluation.requestCount == 0 && evaluation.matches == []
    ensures var made := if credentials then RequestsMade(pages, matcher, max) else 0;
      && (evaluation.requestCount == made <==> evaluation.status != ProbeFailed)
      && (evaluation.status == ProbeFailed ==> evaluation.requestCount < made)
  {
    var probe := ProbePages(pages, matcher, max, credentials);
    evaluation := Evaluate(Some(probe));
  }

  /** Without a positive budget the first page is still requested, and nothing else. */
  lemma {:induction false} EmptyBudgetStillAsksOnce<J, M>(pages: seq<Page<J>>, matcher: (nat, J) -> Option<M>, max: int)
    requires max <= 0 && pages != []
    ensures RequestCount(pages, matcher, max) == 1 && Take(MatchesUpTo(pages, matcher, |pages|), max) == []
  {
    RequestCountIsLeast(pages, matcher, max, 1);
  }

  // ---------- what a probe reports, from the pages ----------

  /** The matches of a page are the answers of the matcher to its jobs, in their order. */
  lemma {:induction false} MatchesAreAnswers<J, M>(page: nat, jobs: seq<J>, matcher: (nat, J) -> Option<M>)
    ensures forall m :: m in MatchesOf(page, jobs, matcher) <==> exists k :: 0 <= k < |jobs| && matcher(page, jobs[k]) == Some(m)
    ensures forall n: nat :: n <= |jobs| ==> MatchesOf(page, jobs[..n], matcher) <= MatchesOf(page, jobs, matcher)
  {
    if jobs != [] {
      MatchesAreAnswers(page, jobs[1..], matcher);
      assert forall k :: 0 <= k < |jobs| - 1 ==> jobs[1..][k] == jobs[k + 1];
      forall n: nat | n <= |jobs|
        ensures MatchesOf(page, jobs[..n], matcher) <= MatchesOf(page, jobs, matcher)
      {
        if n > 0 { assert jobs[..n][0] == jobs[0] && jobs[..n][1..] == jobs[1..][..n - 1]; }
      }
    }
  }

  /**
   * A probe that answers: it made `n` requests, all of them answered; it returned the jobs of these pages; its matches
   * are as many of theirs as fit the budget; it notes a full budget exactly if the matches fill it.
   */
  lemma {:induction false} ProbeReports<J, M>(pages: seq<Page<J>>, matcher: (nat, J) -> Option<M>, max: int)
    requires ProbeOf(pages, matcher, max).Probed?
    ensures var probe := ProbeOf(pages, matcher, max); var n := probe.requestCount;
      && n <= |pages| && (forall k :: 0 <= k < n ==> pages[k].Some?)
      && probe.totalReturned == JobsUpTo(pages, n)
      && probe.matches <= MatchesUpTo(pages, matcher, n)
      && |probe.matches| == (if max <= 0 then 0 else if max < |MatchesUpTo(pages, matcher, n)| then max else |MatchesUpTo(pages, matcher, n)|)
      && (probe.limitReached <==> n > 0 && |probe.matches| >= max)
      && (!probe.limitReached ==> n == |pages|) && !probe.credentialsMissing
  {
    StoppingLosesNothing(pages, matcher, max);
    RequestCountIsLeast(pages, matcher, max, RequestCount(pages, matcher, max));
  }
}
