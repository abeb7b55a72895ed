/** Looking up a known employer: the key index against a scan of the candidate list. */
module CompanyIndex {
  import opened Wrappers
  import Sorting

  datatype Candidate = Candidate(
    id: int,
    companyKey: string,
    companyName: string,
    sourceFamily: string,
    status: string,
    riskLevel: string)

  /** `normalize_company_key`; nothing here depends on what it does. */
  type Normalizer = string -> string

  /** `company_key_matches(observed, candidate)`; nothing here depends on what it does. */
  type Matcher = (string, string) -> bool

  function KeysOf(candidate: Candidate, normalize: Normalizer): set<string> {
    {normalize(candidate.companyKey), normalize(candidate.companyName), normalize(candidate.sourceFamily)}
  }

  /** An entry of the dictionary, with the list position of the candidate it holds; entries are in insertion order. */
  datatype Entry = Entry(key: string, owner: nat)

  predicate Has(index: seq<Entry>, key: string) {
    exists i :: 0 <= i < |index| && index[i].key == key
  }

  predicate Owns(candidates: seq<Candidate>, normalize: Normalizer, owner: nat, key: string) {
    key != "" && owner < |candidates| && key in KeysOf(candidates[owner], normalize)
  }

  /** The entry holds the first candidate, among those before `n`, that owns its key. */
  ghost predicate IsFirstOwner(candidates: seq<Candidate>, normalize: Normalizer, entry: Entry) {
    && Owns(candidates, normalize, entry.owner, entry.key)
    && forall j: nat :: j < entry.owner ==> !Owns(candidates, normalize, j, entry.key)
  }

  ghost predicate Entries(candidates: seq<Candidate>, normalize: Normalizer, index: seq<Entry>, n: nat) {
    && (forall i :: 0 <= i < |index| ==> index[i].owner < n && IsFirstOwner(candidates, normalize, index[i]))
    && (forall i, j :: 0 <= i < j < |index| ==> index[i].key != index[j].key && index[i].owner <= index[j].owner)
  }

  /** What the dictionary is, up to the order in which one candidate's keys were inserted. */
  ghost predicate IsIndex(candidates: seq<Candidate>, normalize: Normalizer, index: seq<Entry>) {
    && Entries(candidates, normalize, index, |candidates|)
    && forall owner: nat, key :: Owns(candidates, normalize, owner, key) ==> Has(index, key)
  }

  lemma {:induction false} HasMore(index: seq<Entry>, entry: Entry, key: string)
    ensures Has(index + [entry], key) <==> Has(index, key) || entry.key == key
  {
    var more := index + [entry];
    assert more[|index|] == entry;
    if Has(index, key) {
      var i :| 0 <= i < |index| && index[i].key == key;
      assert more[i].key == key;
    }
  }

  /** The set of a candidate's keys has no order: the inner loop takes any key that is left. */
  method AddKeys(candidates: seq<Candidate>, normalize: Normalizer, index: seq<Entry>, n: nat) returns (more: seq<Entry>)
    requires n < |candidates| && Entries(candidates, normalize, index, n)
    requires forall owner: nat, key :: owner < n && Owns(candidates, normalize, owner, key) ==> Has(index, key)
    ensures Entries(candidates, normalize, more, n + 1)
    ensures forall owner: nat, key :: owner <= n && Owns(candidates, normalize, owner, key) ==> Has(more, key)
  {
    more := index;
    var keys := KeysOf(candidates[n], normalize);
    while keys != {}
      invariant keys <= KeysOf(candidates[n], normalize)
      invariant Entries(candidates, normalize, more, n + 1)
      invariant forall key :: Has(index, key) ==> Has(more, key)
      invariant forall key :: Owns(candidates, normalize, n, key) && key !in keys ==> Has(more, key)
      decreases |keys|
    {
      var key :| key in keys;
      keys := keys - {key};
      if key != "" && !Has(more, key) {
        EntryFits(candidates, normalize, index, more, n, key);
        forall other
          ensures Has(more + [Entry(key, n)], other) <==> Has(more, other) || key == other
        {
          HasMore(more, Entry(key, n), other);
        }
        more := more + [Entry(key, n)];
      }
    }
  }

  lemma {:induction false} EntryFits(candidates: seq<Candidate>, normalize: Normalizer, index: seq<Entry>,
        more: seq<Entry>, n: nat, key: string)
    requires n < |candidates| && Entries(candidates, normalize, more, n + 1)
    requires forall owner: nat, key :: owner < n && Owns(candidates, normalize, owner, key) ==> Has(index, key)
    requires forall key :: Has(index, key) ==> Has(more, key)
    requires Owns(candidates, normalize, n, key) && !Has(more, key)
    ensures Entries(candidates, normalize, more + [Entry(key, n)], n + 1)
  {
    forall j: nat | j < n
      ensures !Owns(candidates, normalize, j, key)
    {
      assert Owns(candidates, normalize, j, key) ==> Has(index, key);
    }
    assert IsFirstOwner(candidates, normalize, Entry(key, n));
    var grown := more + [Entry(key, n)];
    forall i, j | 0 <= i < j < |grown|
      ensures grown[i].key != grown[j].key && grown[i].owner <= grown[j].owner
    {
      assert grown[i] == more[i];
    }
  }

  /** `build_known_candidate_index` */
  method BuildIndex(candidates: seq<Candidate>, normalize: Normalizer) returns (index: seq<Entry>)
    ensures IsIndex(candidates, normalize, index)
  {
    index := [];
    var n := 0;
    while n < |candidates|
      invariant 0 <= n <= |candidates| && Entries(candidates, normalize, index, n)
      invariant forall owner: nat, key :: owner < n && Owns(candidates, normalize, owner, key) ==> Has(index, key)
    {
      index := AddKeys(candidates, normalize, index, n);
      n := n + 1;
    }
  }

  // ---------- the lookup ----------

  predicate NotShorter(a: Entry, b: Entry) {
    |a.key| >= |b.key|
  }

  /** `sorted(index, key=len, reverse=True)`: longest first, and stable. */
  function ByLength(index: seq<Entry>): seq<Entry> {
    Sorting.Sort(index, NotShorter)
  }

  function FirstMatch(entries: seq<Entry>, query: string, matches: Matcher): Option<Entry> {
    if entries == [] then None
    else if matches(query, entries[0].key) then Some(entries[0])
    else FirstMatch(entries[1..], query, matches)
  }

  /** Among the matching entries the longest, and of those the one inserted first. */
  ghost predicate IsBest(index: seq<Entry>, query: string, matches: Matcher, best: Option<Entry>) {
    match best
    case None => forall i :: 0 <= i < |index| ==> !matches(query, index[i].key)
    case Some(entry) =>
      exists b :: 0 <= b < |index| && index[b] == entry && matches(query, entry.key)
        && forall i :: 0 <= i < |index| && matches(query, index[i].key) ==>
             |index[i].key| < |entry.key| || (|index[i].key| == |entry.key| && b <= i)
  }

  ghost predicate Descending(entries: seq<Entry>) {
    forall i, j :: 0 <= i < j < |entries| ==> |entries[i].key| >= |entries[j].key|
  }

  lemma {:induction false} ByLengthDescends(index: seq<Entry>)
    ensures Descending(ByLength(index))
  {
    Sorting.SortSorts(index, NotShorter);
  }

  /** The first match of a sorted list into which an entry is inserted. */
  lemma {:induction false} FirstMatchOfInsert(x: Entry, entries: seq<Entry>, query: string, matches: Matcher)
    requires Descending(entries)
    ensures var before := FirstMatch(entries, query, matches);
      FirstMatch(Sorting.Insert(x, entries, NotShorter), query, matches)
      == if matches(query, x.key) && (before == None || |x.key| >= |before.value.key|) then Some(x) else before
  {
    if entries == [] || NotShorter(x, entries[0]) {
      assert ([x] + entries)[1..] == entries;
      FirstMatchIsMember(entries, query, matches);
    } else {
      var rest := Sorting.Insert(x, entries[1..], NotShorter);
      assert ([entries[0]] + rest)[1..] == rest;
      FirstMatchOfInsert(x, entries[1..], query, matches);
    }
  }

  lemma {:induction false} FirstMatchIsMember(entries: seq<Entry>, query: string, matches: Matcher)
    ensures var first := FirstMatch(entries, query, matches);
      && (first == None ==> forall i :: 0 <= i < |entries| ==> !matches(query, entries[i].key))
      && (first.Some? ==> first.value in entries && matches(query, first.value.key))
  {
    if entries != [] {
      FirstMatchIsMember(entries[1..], query, matches);
      assert forall i :: 0 < i < |entries| ==> entries[i] == entries[1..][i - 1];
    }
  }

  /** Scanning the sorted keys finds the longest matching entry that was inserted first. */
  lemma {:induction false} SortedScanFindsBest(index: seq<Entry>, query: string, matches: Matcher)
    ensures IsBest(index, query, matches, FirstMatch(ByLength(index), query, matches))
  {
    if index != [] {
      var rest := index[1..];
      SortedScanFindsBest(rest, query, matches);
      ByLengthDescends(rest);
      FirstMatchOfInsert(index[0], ByLength(rest), query, matches);
      BestOfCons(index, query, matches, FirstMatch(ByLength(rest), query, matches));
    }
  }

  lemma {:induction false} BestOfCons(index: seq<Entry>, query: string, matches: Matcher, best: Option<Entry>)
    requires index != [] && IsBest(index[1..], query, matches, best)
    ensures var x := index[0];
      IsBest(index, query, matches, if matches(query, x.key) && (best == None || |x.key| >= |best.value.key|) then Some(x) else best)
  {
    var x, rest := index[0], index[1..];
    assert forall i :: 0 < i < |index| ==> index[i] == rest[i - 1];
    if matches(query, x.key) && (best == None || |x.key| >= |best.value.key|) {
      assert index[0] == x;
    } else if best.Some? {
      var entry := best.value;
      var b :| 0 <= b < |rest| && rest[b] == entry && matches(query, entry.key)
        && forall i :: 0 <= i < |rest| && matches(query, rest[i].key) ==>
             |rest[i].key| < |entry.key| || (|rest[i].key| == |entry.key| && b <= i);
      assert index[b + 1] == entry;
    }
  }

  /** The dictionary first, then its keys by length. */
  ghost function Lookup(index: seq<Entry>, query: string, matches: Matcher): Option<nat> {
    if exact: nat :| exact < |index| && index[exact].key == query then Some(index[exact].owner)
    else match FirstMatch(ByLength(index), query, matches)
      case None => None
      case Some(entry) => Some(entry.owner)
  }

  // ---------- the scan of the candidate list ----------

  /** Some candidate owns a matching key of this length. */
  ghost predicate Matched(candidates: seq<Candidate>, normalize: Normalizer, query: string, matches: Matcher, owner: nat, length: nat) {
    exists key :: Owns(candidates, normalize, owner, key) && |key| == length && matches(query, key)
  }

  ghost predicate IsExact(candidates: seq<Candidate>, normalize: Normalizer, query: string, r: nat) {
    Owns(candidates, normalize, r, query) && forall j: nat :: j < r ==> !Owns(candidates, normalize, j, query)
  }

  ghost predicate IsLongest(candidates: seq<Candidate>, normalize: Normalizer, query: string, matches: Matcher, r: nat, length: nat) {
    && Matched(candidates, normalize, query, matches, r, length)
    && (forall j: nat :: j < r ==> !Matched(candidates, normalize, query, matches, j, length))
    && forall j: nat, more: nat :: more > length ==> !Matched(candidates, normalize, query, matches, j, more)
  }

  /**
   * What the lookup means without an index: the first listed candidate owning the very key; without one the
   * first listed candidate owning a matching key of maximal length; otherwise nobody.
   */
  ghost predicate IsAnswer(candidates: seq<Candidate>, normalize: Normalizer, query: string, matches: Matcher, r: Option<nat>) {
    if exists j: nat :: Owns(candidates, normalize, j, query) then
      r.Some? && IsExact(candidates, normalize, query, r.value)
    else match r
      case Some(owner) => exists length: nat :: IsLongest(candidates, normalize, query, matches, owner, length)
      case None => forall j: nat, length: nat :: !Matched(candidates, normalize, query, matches, j, length)
  }

  lemma {:induction false} AnswerMatches(candidates: seq<Candidate>, normalize: Normalizer, query: string, matches: Matcher, r: Option<nat>)
    requires IsAnswer(candidates, normalize, query, matches, r)
    ensures r.Some? ==>
      || Owns(candidates, normalize, r.value, query)
      || exists length: nat :: Matched(candidates, normalize, query, matches, r.value, length)
  {
    if r.Some? && !Owns(candidates, normalize, r.value, query) {
      var length: nat :| IsLongest(candidates, normalize, query, matches, r.value, length);
      assert Matched(candidates, normalize, query, matches, r.value, length);
    }
  }

  /** The scan has one answer only. */
  lemma {:induction false} AnswerIsUnique(candidates: seq<Candidate>, normalize: Normalizer, query: string,
        matches: Matcher, a: Option<nat>, b: Option<nat>)
    requires IsAnswer(candidates, normalize, query, matches, a) && IsAnswer(candidates, normalize, query, matches, b)
    ensures a == b
  {
    AnswerMatches(candidates, normalize, query, matches, a);
    AnswerMatches(candidates, normalize, query, matches, b);
    if exists j: nat :: Owns(candidates, normalize, j, query) {
      assert a.Some? && b.Some?;
      assert !(a.value < b.value) && !(b.value < a.value);
    } else if a.Some? && b.Some? {
      var la: nat :| IsLongest(candidates, normalize, query, matches, a.value, la);
      var lb: nat :| IsLongest(candidates, normalize, query, matches, b.value, lb);
      assert !(la < lb) && !(lb < la);
    }
  }

  /** One of the three names that a candidate is known by. */
  predicate IsNameOf(candidate: Candidate, name: string) {
    name == candidate.companyKey || name == candidate.companyName || name == candidate.sourceFamily
  }

  /** Some name of the candidate reads as this key. */
  ghost predicate GoesBy(candidate: Candidate, normalize: Normalizer, key: string) {
    exists name :: IsNameOf(candidate, name) && normalize(name) == key
  }

  /** A name of the candidate reads as the query or matches it. */
  ghost predicate MayBe(candidate: Candidate, normalize: Normalizer, query: string, matches: Matcher) {
    exists key :: key != "" && GoesBy(candidate, normalize, key) && (key == query || matches(query, key))
  }

  /**
   * The answer in terms of names: nobody exactly if no candidate has a name that reads as the query or matches it; the
   * first candidate with a name that reads as the query, if there is one; otherwise one with a matching name.
   */
  lemma {:induction false} AnswerByNames(candidates: seq<Candidate>, normalize: Normalizer, query: string, matches: Matcher, r: Option<nat>)
    requires query != "" && IsAnswer(candidates, normalize, query, matches, r)
    ensures r.Some? <==> exists j :: 0 <= j < |candidates| && MayBe(candidates[j], normalize, query, matches)
    ensures forall j :: 0 <= j < |candidates| && GoesBy(candidates[j], normalize, query) ==>
      r.Some? && r.value <= j && GoesBy(candidates[r.value], normalize, query)
    ensures r.Some? ==> r.value < |candidates| && MayBe(candidates[r.value], normalize, query, matches)
  {
    forall j: nat, key
      ensures Owns(candidates, normalize, j, key) <==> key != "" && j < |candidates| && GoesBy(candidates[j], normalize, key)
    {
      OwnsByName(candidates, normalize, j, key);
    }
    AnswerMatches(candidates, normalize, query, matches, r);
    if r == None {
      forall j | 0 <= j < |candidates|
        ensures !MayBe(candidates[j], normalize, query, matches)
      {
        forall key | key != "" && GoesBy(candidates[j], normalize, key)
          ensures key != query && !matches(query, key)
        {
          assert Owns(candidates, normalize, j, key) && !Matched(candidates, normalize, query, matches, j, |key|);
        }
      }
    } else if !Owns(candidates, normalize, r.value, query) {
      var length: nat :| Matched(candidates, normalize, query, matches, r.value, length);
      var key :| Owns(candidates, normalize, r.value, key) && |key| == length && matches(query, key);
      assert GoesBy(candidates[r.value], normalize, key);
    } else {
      assert GoesBy(candidates[r.value], normalize, query);
    }
  }

  lemma {:induction false} OwnsByName(candidates: seq<Candidate>, normalize: Normalizer, j: nat, key: string)
    ensures Owns(candidates, normalize, j, key) <==> key != "" && j < |candidates| && GoesBy(candidates[j], normalize, key)
  {
    if j < |candidates| {
      var c := candidates[j];
      assert IsNameOf(c, c.companyKey) && IsNameOf(c, c.companyName) && IsNameOf(c, c.sourceFamily);
    }
  }

  lemma {:induction false} OwnedIsIndexed(candidates: seq<Candidate>, normalize: Normalizer, index: seq<Entry>,
        owner: nat, key: string) returns (i: nat)
    requires IsIndex(candidates, normalize, index) && Owns(candidates, normalize, owner, key)
    ensures i < |index| && index[i].key == key && index[i].owner <= owner
  {
    assert Has(index, key);
    i :| 0 <= i < |index| && index[i].key == key;
    assert IsFirstOwner(candidates, normalize, index[i]);
  }

  lemma {:induction false} BestIsLongest(candidates: seq<Candidate>, normalize: Normalizer, index: seq<Entry>,
        query: string, matches: Matcher, entry: Entry)
    requires IsIndex(candidates, normalize, index) && IsBest(index, query, matches, Some(entry))
    ensures IsLongest(candidates, normalize, query, matches, entry.owner, |entry.key|)
  {
    var b :| 0 <= b < |index| && index[b] == entry && matches(query, entry.key)
      && forall i :: 0 <= i < |index| && matches(query, index[i].key) ==>
           |index[i].key| < |entry.key| || (|index[i].key| == |entry.key| && b <= i);
    assert IsFirstOwner(candidates, normalize, index[b]);
    assert Matched(candidates, normalize, query, matches, entry.owner, |entry.key|);
    forall j: nat, length: nat | Matched(candidates, normalize, query, matches, j, length)
      ensures length < |entry.key| || (length == |entry.key| && entry.owner <= j)
    {
      var key :| Owns(candidates, normalize, j, key) && |key| == length && matches(query, key);
      var i := OwnedIsIndexed(candidates, normalize, index, j, key);
      if length == |entry.key| && b < i { assert index[b].owner <= index[i].owner; }
    }
  }

  /** The lookup agrees with the scan, whatever the index's insertion order. */
  lemma {:induction false} LookupIsAnswer(candidates: seq<Candidate>, normalize: Normalizer, index: seq<Entry>,
        query: string, matches: Matcher)
    requires IsIndex(candidates, normalize, index)
    ensures IsAnswer(candidates, normalize, query, matches, Lookup(index, query, matches))
  {
    if Has(index, query) {
      var e: nat :| e < |index| && index[e].key == query;
      assert IsFirstOwner(candidates, normalize, index[e]);
      var owner := Lookup(index, query, matches).value;
      var exact: nat :| exact < |index| && index[exact].key == query && index[exact].owner == owner;
      assert IsFirstOwner(candidates, normalize, index[exact]);
      assert Owns(candidates, normalize, owner, query);
    } else {
      assert forall j: nat :: !Owns(candidates, normalize, j, query);
      SortedScanFindsBest(index, query, matches);
      var best := FirstMatch(ByLength(index), query, matches);
      assert Lookup(index, query, matches) == if best == None then None else Some(best.value.owner);
      if best.Some? {
        BestIsLongest(candidates, normalize, index, query, matches, best.value);
      } else {
        forall j: nat, length: nat
          ensures !Matched(candidates, normalize, query, matches, j, length)
        {
          if key :| Owns(candidates, normalize, j, key) && |key| == length && matches(query, key) {
            var i := OwnedIsIndexed(candidates, normalize, index, j, key);
          }
        }
      }
    }
  }

  /** Two indexes of the same list, built in whatever set order, answer alike. */
  lemma {:induction false} SetOrderIsIrrelevant(candidates: seq<Candidate>, normalize: Normalizer, a: seq<Entry>,
        b: seq<Entry>, query: string, matches: Matcher)
    requires IsIndex(candidates, normalize, a) && IsIndex(candidates, normalize, b)
    ensures Lookup(a, query, matches) == Lookup(b, query, matches)
  {
    LookupIsAnswer(candidates, normalize, a, query, matches);
    LookupIsAnswer(candidates, normalize, b, query, matches);
    AnswerIsUnique(candidates, normalize, query, matches, Lookup(a, query, matches), Lookup(b, query, matches));
  }

  /** `find_known_candidate_for_company_key` */
  method FindKnownCandidate(query: string, candidates: seq<Candidate>, normalize: Normalizer, matches: Matcher) returns (answer: Option<nat>)
    ensures IsAnswer(candidates, normalize, query, matches, answer)
    ensures answer.Some? ==> answer.value < |candidates|
  {
    var index := BuildIndex(candidates, normalize);
    LookupIsAnswer(candidates, normalize, index, query, matches);
    var exact := 0;
    while exact < |index|
      invariant 0 <= exact <= |index|
      invariant forall i :: 0 <= i < exact ==> index[i].key != query
    {
      if index[exact].key == query {
        ExactIsLookup(candidates, normalize, index, query, matches, exact);
        return Some(index[exact].owner);
      }
      exact := exact + 1;
    }
    var order := ByLength(index);
    var i := 0;
    while i < |order|
      invariant 0 <= i <= |order|
      invariant FirstMatch(order, query, matches) == FirstMatch(order[i..], query, matches)
    {
      assert order[i..][0] == order[i] && order[i..][1..] == order[i + 1..];
      if matches(query, order[i].key) {
        FirstMatchIsMember(order, query, matches);
        OwnersAreListed(candidates, normalize, index, order[i]);
        return Some(order[i].owner);
      }
      i := i + 1;
    }
    return None;
  }

  lemma {:induction false} ExactIsLookup(candidates: seq<Candidate>, normalize: Normalizer, index: seq<Entry>,
        query: string, matches: Matcher, e: nat)
    requires IsIndex(candidates, normalize, index) && e < |index| && index[e].key == query
    ensures Lookup(index, query, matches) == Some(index[e].owner) && index[e].owner < |candidates|
  {
    assert IsFirstOwner(candidates, normalize, index[e]);
  }

  lemma {:induction false} OwnersAreListed(candidates: seq<Candidate>, normalize: Normalizer, index: seq<Entry>, entry: Entry)
    requires IsIndex(candidates, normalize, index) && entry in ByLength(index)
    ensures entry.owner < |candidates|
  {
    Sorting.SortPermutes(index, NotShorter);
    assert entry in multiset(index);
    var i :| 0 <= i < |index| && index[i] == entry;
  }

  // ---------- what follows for a company name ----------

  const ACTIVE := {"active_controlled"}
  const HARD_STOP := {"deprecated", "disabled", "abort_documented"}
  const INACTIVE := {
    "candidate", "discovery", "deferred", "manual_review_required", "connector_candidate", "watchlist", "degraded"
  }

  datatype Decision = KeepForDiscovery | SuppressActive | SuppressHardStop | Observe

  datatype Handoff = QueueRecheck | SuppressFromDiscovery | ObserveAsEvidence | KeepForNewDiscovery

  datatype Suppression = Suppression(decision: Decision, known: Option<nat>, recheck: bool)

  /** The review record of a candidate: whether its last gate reason may be rechecked, and whether a recheck is due. */
  datatype Review = Review(recheckable: bool, due: bool)

  /** `candidate_recheck_decision` */
  predicate RecheckEligible(candidate: Candidate, review: Review) {
    if candidate.status in ACTIVE || candidate.status in HARD_STOP then false
    else if candidate.riskLevel == "blocked" then false
    else candidate.status in INACTIVE && review.recheckable && review.due
  }

  /** Inactive, not blocked, stopped for a recheckable reason and not reviewed lately. */
  predicate IsDue(candidate: Candidate, review: Review) {
    candidate.status in INACTIVE && candidate.riskLevel != "blocked" && review == Review(true, true)
  }

  /** The order of the checks does not matter: the three status lists have nothing in common. */
  lemma {:induction false} EligibleMeansDue(candidate: Candidate, review: Review)
    ensures RecheckEligible(candidate, review) <==> IsDue(candidate, review)
    ensures candidate.status in INACTIVE ==> candidate.status !in ACTIVE + HARD_STOP
  {
    if candidate.status in INACTIVE { StatusListsAreDisjoint(candidate.status); }
  }

  lemma {:induction false} StatusListsAreDisjoint(status: string)
    requires status in INACTIVE
    ensures status !in ACTIVE && status !in HARD_STOP
  {
    InactiveShape(status);
    if status in ACTIVE + HARD_STOP { DecidedShape(status); }
  }

  lemma {:induction false} InactiveShape(status: string)
    requires status in INACTIVE
    ensures |status| == 9 || |status| == 19 || |status| == 22 || (|status| == 8 && status[2] != 's')
  {
  }

  lemma {:induction false} DecidedShape(status: string)
    requires status in ACTIVE + HARD_STOP
    ensures |status| == 17 || |status| == 10 || |status| == 16 || (|status| == 8 && status[2] == 's')
  {
  }

  lemma {:induction false} ActiveIsNoHardStop(status: string)
    ensures status in ACTIVE ==> status !in HARD_STOP
  {
    assert |"active_controlled"| == 17 && |"deprecated"| == 10 && |"disabled"| == 8 && |"abort_documented"| == 16;
  }

  /** `handoff_action` */
  function HandoffOf(suppression: Suppression): Handoff {
    if suppression.recheck then QueueRecheck
    else if suppression.decision == SuppressActive || suppression.decision == SuppressHardStop then SuppressFromDiscovery
    else if suppression.decision == Observe then ObserveAsEvidence
    else KeepForNewDiscovery
  }

  /** The candidate that the scan finds for a company name; a name without a key is nobody's. */
  ghost predicate IsKnownAs(company: string, candidates: seq<Candidate>, normalize: Normalizer, matches: Matcher, known: Option<nat>) {
    if normalize(company) == "" then known == None
    else IsAnswer(candidates, normalize, normalize(company), matches, known)
  }

  /**
   * `suppress_aggregator_company`: a name is kept for discovery exactly when the scan finds nobody, suppressed
   * exactly when it finds an active or stopped candidate, queued again exactly when the candidate is due for a
   * recheck, and observed as evidence otherwise.
   */
  method SuppressCompany(company: string, candidates: seq<Candidate>, reviews: seq<Review>, normalize: Normalizer, matches: Matcher)
    returns (suppression: Suppression)
    requires |reviews| == |candidates|
    ensures IsKnownAs(company, candidates, normalize, matches, suppression.known)
    ensures suppression.known.Some? ==> suppression.known.value < |candidates|
    ensures HandoffOf(suppression) == KeepForNewDiscovery <==> suppression.known == None
    ensures HandoffOf(suppression) == SuppressFromDiscovery <==>
      suppression.known.Some? && candidates[suppression.known.value].status in ACTIVE + HARD_STOP
    ensures HandoffOf(suppression) == QueueRecheck <==>
      suppression.known.Some? && IsDue(candidates[suppression.known.value], reviews[suppression.known.value])
    ensures HandoffOf(suppression) == ObserveAsEvidence <==>
      && suppression.known.Some? && candidates[suppression.known.value].status !in ACTIVE + HARD_STOP
      && !IsDue(candidates[suppression.known.value], reviews[suppression.known.value])
    ensures suppression.decision == KeepForDiscovery <==> suppression.known == None
    ensures suppression.decision == SuppressActive <==>
      suppression.known.Some? && candidates[suppression.known.value].status == "active_controlled"
    ensures suppression.decision == SuppressHardStop <==>
      suppression.known.Some? && candidates[suppression.known.value].status in {"deprecated", "disabled", "abort_documented"}
    ensures suppression.recheck <==>
      suppression.known.Some? && IsDue(candidates[suppression.known.value], reviews[suppression.known.value])
    ensures suppression.recheck ==> suppression.decision == Observe
  {
    var normalized := normalize(company);
    if normalized == "" { return Suppression(KeepForDiscovery, None, false); }
    var known := FindKnownCandidate(normalized, candidates, normalize, matches);
    if known == None { return Suppression(KeepForDiscovery, None, false); }
    var candidate := candidates[known.value];
    EligibleMeansDue(candidate, reviews[known.value]);
    ActiveIsNoHardStop(candidate.status);
    var recheck := RecheckEligible(candidate, reviews[known.value]);
    if candidate.status in ACTIVE { return Suppression(SuppressActive, known, recheck); }
    if candidate.status in HARD_STOP { return Suppression(SuppressHardStop, known, recheck); }
    return Suppression(Observe, known, recheck);
  }
}
