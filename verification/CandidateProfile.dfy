/** The candidate fact profile, its facts table and its revision ledger. */
module CandidateProfile {
  import opened Wrappers

  datatype ProfileStatus = DraftProfile | ApprovedProfile | SupersededProfile

  datatype ApprovalStatus = Proposed | Approved | Rejected | Superseded

  datatype EvidenceClass =
    | ProfessionalEmployment
    | FormalEducation
    | PortfolioImplementation
    | TrainingCertification
    | OperatorPreference
    | TargetDirection
    | PlannedCapability

  /** A fact; `content` stands for the columns that no rule here looks at. */
  datatype Fact = Fact(factKey: string, evidenceClass: EvidenceClass, approval: ApprovalStatus, content: string)

  datatype Profile = Profile(version: string, status: ProfileStatus, approvedBy: Option<string>, approvedAt: string, facts: seq<Fact>)

  /** SHA-256 of the canonical payload, symbolically: distinct payloads have distinct hashes. */
  datatype Digest = Digest(payload: Profile)

  /** The first characters of a hash; two hashes may share them. */
  type Shortening = Digest -> string

  datatype RevisionKey = RevisionKey(version: string, short: string)

  datatype ProfileRow = ProfileRow(version: string, status: ProfileStatus, payload: Profile, sha: Digest, approvedBy: Option<string>)

  datatype Revision = Revision(
    key: RevisionKey,
    previousPayload: Option<Profile>,
    nextPayload: Profile,
    previousSha: Option<Digest>,
    nextSha: Digest,
    appliedBy: string)

  datatype Store = Store(current: Option<ProfileRow>, revisions: seq<Revision>, facts: map<string, Fact>)

  datatype Error =
    | NotApproved
    | ApproverMismatch
    | CapabilityClaim
    | VersionReused
    | RevisionExists
    | DuplicateFactKey
    | CountMismatch

  datatype Reply = AlreadyCurrent | Imported | Refused(error: Error)

  const CAPABILITY_EVIDENCE := {ProfessionalEmployment, FormalEducation, PortfolioImplementation, TrainingCertification}
  const NON_CAPABILITY_EVIDENCE := {OperatorPreference, TargetDirection, PlannedCapability}

  predicate IsApproved(fact: Fact) {
    fact.approval == Approved
  }

  predicate IsCapabilityEvidence(fact: Fact) {
    IsApproved(fact) && fact.evidenceClass in CAPABILITY_EVIDENCE
  }

  predicate IsProductionEvidence(fact: Fact) {
    IsApproved(fact) && fact.evidenceClass == ProfessionalEmployment
  }

  /** `ensure_no_capability_claim_from_direction` */
  predicate NoCapabilityFromDirection(facts: seq<Fact>) {
    forall k :: 0 <= k < |facts| && facts[k].evidenceClass in NON_CAPABILITY_EVIDENCE ==> !IsCapabilityEvidence(facts[k])
  }

  function RevisionKeyOf(profile: Profile, shorten: Shortening): RevisionKey {
    RevisionKey(profile.version, shorten(Digest(profile)))
  }

  function KeysOf(revisions: seq<Revision>): set<RevisionKey> {
    set revision | revision in revisions :: revision.key
  }

  function RowOf(profile: Profile): ProfileRow {
    ProfileRow(profile.version, profile.status, profile, Digest(profile), profile.approvedBy)
  }

  function RevisionOf(current: Option<ProfileRow>, profile: Profile, appliedBy: string, shorten: Shortening): Revision {
    Revision(RevisionKeyOf(profile, shorten),
             if current.Some? then Some(current.value.payload) else None, profile,
             if current.Some? then Some(current.value.sha) else None, Digest(profile), appliedBy)
  }

  /** The inserts one after the other; `None` is a violated primary key. */
  function InsertFacts(table: map<string, Fact>, facts: seq<Fact>): Option<map<string, Fact>>
    decreases |facts|
  {
    if facts == [] then Some(table)
    else if facts[0].factKey in table then None
    else InsertFacts(table[facts[0].factKey := facts[0]], facts[1..])
  }

  datatype Counts = Counts(facts: nat, approved: nat, capability: nat, production: nat)

  function CountWhere(table: map<string, Fact>, p: Fact -> bool): nat {
    |set key | key in table && p(table[key])|
  }

  /** `load_persisted_counts` */
  function CountsOf(table: map<string, Fact>): Counts {
    Counts(|table|, CountWhere(table, IsApproved), CountWhere(table, IsCapabilityEvidence), CountWhere(table, IsProductionEvidence))
  }

  function Matching(facts: seq<Fact>, p: Fact -> bool): seq<Fact> {
    if facts == [] then []
    else if p(facts[0]) then [facts[0]] + Matching(facts[1..], p)
    else Matching(facts[1..], p)
  }

  /** The four counts of `redacted_summary`. */
  function Summary(profile: Profile): Counts {
    Counts(|profile.facts|, |Matching(profile.facts, IsApproved)|, |Matching(profile.facts, IsCapabilityEvidence)|,
           |Matching(profile.facts, IsProductionEvidence)|)
  }

  /** `apply_profile` */
  function Apply(store: Store, profile: Profile, appliedBy: string, shorten: Shortening): (Store, Reply) {
    if profile.status != ApprovedProfile then (store, Refused(NotApproved))
    else if profile.approvedBy != Some(appliedBy) then (store, Refused(ApproverMismatch))
    else if !NoCapabilityFromDirection(profile.facts) then (store, Refused(CapabilityClaim))
    else if store.current.Some? && store.current.value.sha == Digest(profile) then (store, AlreadyCurrent)
    else if store.current.Some? && store.current.value.version == profile.version then (store, Refused(VersionReused))
    else if RevisionKeyOf(profile, shorten) in KeysOf(store.revisions) then (store, Refused(RevisionExists))
    else match InsertFacts(map[], profile.facts)
      case None => (store, Refused(DuplicateFactKey))
      case Some(facts) =>
        if CountsOf(facts) != Summary(profile) then (store, Refused(CountMismatch))
        else (Store(Some(RowOf(profile)), store.revisions + [RevisionOf(store.current, profile, appliedBy, shorten)], facts), Imported)
  }

  // ---------- checks that never fire ----------

  /** The capability check cannot fail: a fact's class is never on both lists. */
  lemma {:induction false} CapabilityCheckNeverFires(facts: seq<Fact>)
    ensures NoCapabilityFromDirection(facts)
  {
    assert CAPABILITY_EVIDENCE !! NON_CAPABILITY_EVIDENCE;
  }

  lemma {:induction false} CountsGrow(table: map<string, Fact>, facts: seq<Fact>, p: Fact -> bool)
    requires InsertFacts(table, facts).Some?
    ensures CountWhere(InsertFacts(table, facts).value, p) == CountWhere(table, p) + |Matching(facts, p)|
    ensures |InsertFacts(table, facts).value| == |table| + |facts|
    decreases |facts|
  {
    if facts != [] {
      CountsGrow(table[facts[0].factKey := facts[0]], facts[1..], p);
      CountOfMore(table, facts[0], p);
    }
  }

  lemma {:induction false} CountOfMore(table: map<string, Fact>, fact: Fact, p: Fact -> bool)
    requires fact.factKey !in table
    ensures CountWhere(table[fact.factKey := fact], p) == CountWhere(table, p) + if p(fact) then 1 else 0
  {
    var next := table[fact.factKey := fact];
    var before, after := set key | key in table && p(table[key]), set key | key in next && p(next[key]);
    if p(fact) {
      assert after == before + {fact.factKey};
    } else {
      assert after == before;
    }
  }

  /** The counts read back from the table are those of the profile, so a mismatch is never reported. */
  lemma {:induction false} CountsAlwaysMatch(profile: Profile)
    requires InsertFacts(map[], profile.facts).Some?
    ensures CountsOf(InsertFacts(map[], profile.facts).value) == Summary(profile)
  {
    CountsGrow(map[], profile.facts, IsApproved);
    CountsGrow(map[], profile.facts, IsCapabilityEvidence);
    CountsGrow(map[], profile.facts, IsProductionEvidence);
  }

  /** The keys of the facts that are approved and of one of these classes. */
  function ApprovedOf(table: map<string, Fact>, classes: set<EvidenceClass>): set<string> {
    set key | key in table && table[key].approval == Approved && table[key].evidenceClass in classes
  }

  /** What is counted: all facts, approved ones, those that are evidence of a capability, and those from employment. */
  lemma {:induction false} CountsMean(table: map<string, Fact>)
    ensures var counts := CountsOf(table);
      && counts.facts == |table| && counts.approved == |set key | key in table && table[key].approval == Approved|
      && counts.capability ==
           |ApprovedOf(table, {ProfessionalEmployment, FormalEducation, PortfolioImplementation, TrainingCertification})|
      && counts.production == |ApprovedOf(table, {ProfessionalEmployment})|
  {
    CountIs(table, IsApproved, set key | key in table && table[key].approval == Approved);
    CountIs(table, IsCapabilityEvidence, ApprovedOf(table, CAPABILITY_EVIDENCE));
    CountIs(table, IsProductionEvidence, ApprovedOf(table, {ProfessionalEmployment}));
  }

  lemma {:induction false} CountIs(table: map<string, Fact>, p: Fact -> bool, keys: set<string>)
    requires forall key :: key in keys <==> key in table && p(table[key])
    ensures CountWhere(table, p) == |keys|
  {
    assert (set key | key in table && p(table[key])) == keys;
  }

  predicate DistinctKeys(facts: seq<Fact>) {
    forall i, j :: 0 <= i < j < |facts| ==> facts[i].factKey != facts[j].factKey
  }

  /** The facts table of a profile: each fact under its key, and nothing else. */
  ghost predicate IsTableOf(table: map<string, Fact>, facts: seq<Fact>) {
    && (forall k :: 0 <= k < |facts| ==> facts[k].factKey in table && table[facts[k].factKey] == facts[k])
    && (forall key :: key in table ==> exists k :: 0 <= k < |facts| && facts[k].factKey == key)
  }

  lemma {:induction false} InsertedMembers(table: map<string, Fact>, facts: seq<Fact>, key: string)
    requires InsertFacts(table, facts).Some?
    ensures var after := InsertFacts(table, facts).value;
      && (key in table ==> key in after && after[key] == table[key])
      && (key in after && key !in table ==> exists k :: 0 <= k < |facts| && facts[k].factKey == key && after[key] == facts[k])
    decreases |facts|
  {
    if facts != [] {
      InsertedMembers(table[facts[0].factKey := facts[0]], facts[1..], key);
      var after := InsertFacts(table, facts).value;
      if key in after && key !in table && key != facts[0].factKey {
        var k :| 0 <= k < |facts| - 1 && facts[1..][k].factKey == key && after[key] == facts[1..][k];
        assert facts[k + 1] == facts[1..][k];
      }
    }
  }

  lemma {:induction false} InsertedAll(table: map<string, Fact>, facts: seq<Fact>, k: nat)
    requires InsertFacts(table, facts).Some? && k < |facts|
    ensures var after := InsertFacts(table, facts).value;
      facts[k].factKey in after && after[facts[k].factKey] == facts[k]
    decreases |facts|
  {
    var next := table[facts[0].factKey := facts[0]];
    if k == 0 {
      InsertedMembers(next, facts[1..], facts[0].factKey);
    } else {
      InsertedAll(next, facts[1..], k - 1);
    }
  }

  lemma {:induction false} InsertsFailOnDuplicates(table: map<string, Fact>, facts: seq<Fact>)
    ensures InsertFacts(table, facts).Some? <==>
      DistinctKeys(facts) && forall k :: 0 <= k < |facts| ==> facts[k].factKey !in table
    decreases |facts|
  {
    if facts != [] {
      var next, rest := table[facts[0].factKey := facts[0]], facts[1..];
      InsertsFailOnDuplicates(next, rest);
      assert forall k :: 0 <= k < |rest| ==> rest[k] == facts[k + 1];
      if DistinctKeys(facts) && forall k :: 0 <= k < |facts| ==> facts[k].factKey !in table {
        assert DistinctKeys(rest);
      } else if InsertFacts(table, facts).Some? {
        DistinctByHead(table, facts);
        assert false;
      }
    }
  }

  lemma {:induction false} DistinctByHead(table: map<string, Fact>, facts: seq<Fact>)
    requires facts != [] && facts[0].factKey !in table && DistinctKeys(facts[1..])
    requires forall k :: 0 <= k < |facts[1..]| ==> facts[1..][k].factKey !in table[facts[0].factKey := facts[0]]
    ensures DistinctKeys(facts) && forall k :: 0 <= k < |facts| ==> facts[k].factKey !in table
  {
    var rest := facts[1..];
    forall k | 0 < k < |facts|
      ensures facts[k].factKey != facts[0].factKey && facts[k].factKey !in table
    {
      assert facts[k] == rest[k - 1];
    }
    forall i, j | 0 <= i < j < |facts|
      ensures facts[i].factKey != facts[j].factKey
    {
      if i > 0 { assert facts[i] == rest[i - 1] && facts[j] == rest[j - 1]; }
    }
  }

  /** Replacing the facts succeeds exactly for distinct keys, and then the table is that of the profile. */
  lemma {:induction false} ReplacedFacts(facts: seq<Fact>)
    ensures InsertFacts(map[], facts).Some? <==> DistinctKeys(facts)
    ensures DistinctKeys(facts) ==> IsTableOf(InsertFacts(map[], facts).value, facts)
  {
    InsertsFailOnDuplicates(map[], facts);
    if DistinctKeys(facts) {
      forall k | 0 <= k < |facts|
        ensures facts[k].factKey in InsertFacts(map[], facts).value
        ensures InsertFacts(map[], facts).value[facts[k].factKey] == facts[k]
      {
        InsertedAll(map[], facts, k);
      }
      forall key | key in InsertFacts(map[], facts).value
        ensures exists k :: 0 <= k < |facts| && facts[k].factKey == key
      {
        InsertedMembers(map[], facts, key);
      }
    }
  }

  // ---------- the ledger ----------

  /** The hash chain: it starts from nothing, every revision starts where the one before ended, and no step stands still. */
  ghost predicate IsChain(revisions: seq<Revision>) {
    && (revisions != [] ==> revisions[0].previousSha == None && revisions[0].previousPayload == None)
    && forall i :: 0 < i < |revisions| ==> Follows(revisions[i - 1], revisions[i])
  }

  predicate Follows(before: Revision, revision: Revision) {
    && revision.previousSha == Some(before.nextSha) && revision.previousPayload == Some(before.nextPayload)
    && revision.nextSha != before.nextSha && revision.nextPayload.version != before.nextPayload.version
  }

  /** A revision records an approved profile under its own key and hash, applied by its approver. */
  ghost predicate IsRecord(revision: Revision, shorten: Shortening) {
    && revision.key == RevisionKeyOf(revision.nextPayload, shorten)
    && revision.nextSha == Digest(revision.nextPayload)
    && revision.nextPayload.status == ApprovedProfile
    && revision.nextPayload.approvedBy == Some(revision.appliedBy)
    && DistinctKeys(revision.nextPayload.facts)
  }

  ghost predicate UniqueKeys(revisions: seq<Revision>) {
    forall i, j :: 0 <= i < j < |revisions| ==> revisions[i].key != revisions[j].key
  }

  /** What holds on every run. */
  ghost predicate Coherent(store: Store, shorten: Shortening) {
    && IsChain(store.revisions)
    && (forall i :: 0 <= i < |store.revisions| ==> IsRecord(store.revisions[i], shorten))
    && UniqueKeys(store.revisions)
    && store == FromLedger(store.revisions)
  }

  /** The profile row and the facts table as functions of the ledger. */
  function FromLedger(revisions: seq<Revision>): Store {
    if revisions == [] then Store(None, [], map[])
    else
      var payload := revisions[|revisions| - 1].nextPayload;
      Store(Some(RowOf(payload)), revisions, (match InsertFacts(map[], payload.facts) case Some(facts) => facts case None => map[]))
  }

  lemma {:induction false} ChainGrows(revisions: seq<Revision>, revision: Revision)
    requires IsChain(revisions) && revisions != [] && Follows(revisions[|revisions| - 1], revision)
    ensures IsChain(revisions + [revision])
  {
    var n, more := |revisions|, revisions + [revision];
    forall i | 0 < i < |more|
      ensures Follows(more[i - 1], more[i])
    {
      if i < n { assert more[i] == revisions[i]; }
    }
  }

  lemma {:induction false} UniqueKeysGrow(revisions: seq<Revision>, revision: Revision)
    requires UniqueKeys(revisions) && revision.key !in KeysOf(revisions)
    ensures UniqueKeys(revisions + [revision])
  {
    var more := revisions + [revision];
    forall i, j | 0 <= i < j < |more|
      ensures more[i].key != more[j].key
    {
      assert more[i] == revisions[i];
      if j == |revisions| { assert revisions[i] in revisions; }
    }
  }

  /** An import appends one revision, which starts where the last one ended and has a key of its own. */
  lemma {:induction false} ImportedExtendsLedger(store: Store, profile: Profile, appliedBy: string, shorten: Shortening)
    requires Coherent(store, shorten) && Apply(store, profile, appliedBy, shorten).1 == Imported
    ensures var after := Apply(store, profile, appliedBy, shorten).0; var n := |store.revisions|;
      && Coherent(after, shorten) && |after.revisions| == n + 1 && after.revisions[..n] == store.revisions
      && after.revisions[n].nextPayload == profile && (n > 0 ==> Follows(after.revisions[n - 1], after.revisions[n]))
  {
    var revision := RevisionOf(store.current, profile, appliedBy, shorten);
    var revisions, n := store.revisions, |store.revisions|;
    ReplacedFacts(profile.facts);
    ImportedFollows(store, profile, appliedBy, shorten);
    if n > 0 { ChainGrows(revisions, revision); }
    RecordsGrow(revisions, revision, shorten);
    UniqueKeysGrow(revisions, revision);
  }

  lemma {:induction false} ImportedFollows(store: Store, profile: Profile, appliedBy: string, shorten: Shortening)
    requires Coherent(store, shorten) && Apply(store, profile, appliedBy, shorten).1 == Imported
    ensures var revision, n := RevisionOf(store.current, profile, appliedBy, shorten), |store.revisions|;
      && (n > 0 ==> Follows(store.revisions[n - 1], revision)) && revision.key !in KeysOf(store.revisions)
      && (n == 0 ==> revision.previousSha == None && revision.previousPayload == None)
  {
    var n := |store.revisions|;
    if n > 0 { assert IsRecord(store.revisions[n - 1], shorten); }
  }

  lemma {:induction false} RecordsGrow(revisions: seq<Revision>, revision: Revision, shorten: Shortening)
    requires forall i :: 0 <= i < |revisions| ==> IsRecord(revisions[i], shorten)
    requires IsRecord(revision, shorten)
    ensures var more := revisions + [revision]; forall i :: 0 <= i < |more| ==> IsRecord(more[i], shorten)
  {
  }

  /** Every import keeps the chain, the current row, the facts table and the unique keys. */
  lemma {:induction false} ApplyKeepsCoherent(store: Store, profile: Profile, appliedBy: string, shorten: Shortening)
    requires Coherent(store, shorten)
    ensures Coherent(Apply(store, profile, appliedBy, shorten).0, shorten)
    ensures Apply(store, profile, appliedBy, shorten).1 != Imported ==> Apply(store, profile, appliedBy, shorten).0 == store
    ensures store.revisions <= Apply(store, profile, appliedBy, shorten).0.revisions
  {
    if Apply(store, profile, appliedBy, shorten).1 == Imported {
      ImportedExtendsLedger(store, profile, appliedBy, shorten);
    }
  }

  datatype ImportCall = ImportCall(profile: Profile, appliedBy: string)

  function Run(store: Store, calls: seq<ImportCall>, shorten: Shortening): Store
    decreases |calls|
  {
    if calls == [] then store
    else Run(Apply(store, calls[0].profile, calls[0].appliedBy, shorten).0, calls[1..], shorten)
  }

  /** On every run the ledger is an append-only hash chain that alone determines the profile and its facts. */
  lemma {:induction false} RunKeepsCoherent(store: Store, calls: seq<ImportCall>, shorten: Shortening)
    requires Coherent(store, shorten)
    ensures Coherent(Run(store, calls, shorten), shorten)
    ensures store.revisions <= Run(store, calls, shorten).revisions
    decreases |calls|
  {
    if calls != [] {
      ApplyKeepsCoherent(store, calls[0].profile, calls[0].appliedBy, shorten);
      RunKeepsCoherent(Apply(store, calls[0].profile, calls[0].appliedBy, shorten).0, calls[1..], shorten);
    }
  }

  /** On every run the current row and the facts table are those of the last revision. */
  lemma {:induction false} CurrentIsLastRevision(store: Store, shorten: Shortening)
    requires Coherent(store, shorten)
    ensures store.revisions == [] ==> store.current == None && store.facts == map[]
    ensures store.revisions != [] ==>
      var last := store.revisions[|store.revisions| - 1];
      && store.current == Some(RowOf(last.nextPayload)) && store.current.value.sha == last.nextSha
      && IsTableOf(store.facts, last.nextPayload.facts)
  {
    if store.revisions != [] {
      var last := store.revisions[|store.revisions| - 1];
      assert IsRecord(last, shorten);
      ReplacedFacts(last.nextPayload.facts);
    }
  }

  // ---------- what a call answers ----------

  predicate Wellformed(profile: Profile, appliedBy: string) {
    profile.status == ApprovedProfile && profile.approvedBy == Some(appliedBy) && DistinctKeys(profile.facts)
  }

  /** The reply to an approved profile as a function of the ledger alone. */
  lemma {:induction false} ReplyByHistory(store: Store, profile: Profile, appliedBy: string, shorten: Shortening)
    requires Coherent(store, shorten) && Wellformed(profile, appliedBy)
    ensures var reply := Apply(store, profile, appliedBy, shorten).1; var n := |store.revisions|;
      && (reply == AlreadyCurrent <==> n > 0 && store.revisions[n - 1].nextPayload == profile)
      && (reply == Imported <==>
            (n > 0 ==> store.revisions[n - 1].nextPayload.version != profile.version)
            && RevisionKeyOf(profile, shorten) !in KeysOf(store.revisions))
  {
    CapabilityCheckNeverFires(profile.facts);
    ReplacedFacts(profile.facts);
    CountsAlwaysMatch(profile);
    var n := |store.revisions|;
    if n > 0 {
      assert IsRecord(store.revisions[n - 1], shorten);
      assert store.revisions[n - 1] in store.revisions;
    }
  }

  /**
   * A profile that was current once never becomes current again: unless it still is, it is refused
   * after every run, whoever applies it.
   */
  lemma {:induction false} FormerProfileIsRefused(store: Store, calls: seq<ImportCall>, profile: Profile, appliedBy: string, shorten: Shortening)
    requires Coherent(store, shorten)
    requires store.current == Some(RowOf(profile))
    ensures var end := Run(store, calls, shorten);
      end.current != Some(RowOf(profile)) ==> Apply(end, profile, appliedBy, shorten).1.Refused?
  {
    RunKeepsCoherent(store, calls, shorten);
    LedgerRefuses(Run(store, calls, shorten), store.revisions, profile, appliedBy, shorten);
  }

  /** A profile in the ledger is refused unless it is the current one. */
  lemma {:induction false} LedgerRefuses(end: Store, earlier: seq<Revision>, profile: Profile, appliedBy: string, shorten: Shortening)
    requires earlier != [] && earlier <= end.revisions && earlier[|earlier| - 1].key == RevisionKeyOf(profile, shorten)
    requires end.current.Some? ==> end.current.value == RowOf(end.current.value.payload)
    ensures end.current != Some(RowOf(profile)) ==> Apply(end, profile, appliedBy, shorten).1.Refused?
  {
    var n := |earlier|;
    assert end.revisions[n - 1] == earlier[n - 1];
    assert end.revisions[n - 1] in end.revisions;
  }

  /** Importing, importing another and importing the first again: the third call is refused. */
  lemma {:induction false} ReturnIsRefused(store: Store, a: Profile, b: Profile, byA: string, byB: string, shorten: Shortening)
    requires Coherent(store, shorten) && Apply(store, a, byA, shorten).1 == Imported
    requires Apply(Apply(store, a, byA, shorten).0, b, byB, shorten).1 == Imported
    ensures Apply(Apply(Apply(store, a, byA, shorten).0, b, byB, shorten).0, a, byA, shorten).1 == Refused(RevisionExists)
  {
    var s1 := Apply(store, a, byA, shorten).0;
    var s2 := Apply(s1, b, byB, shorten).0;
    assert s2.revisions[|store.revisions|].key == RevisionKeyOf(a, shorten);
    assert s2.revisions[|store.revisions|] in s2.revisions;
  }

  // ---------- by fields ----------

  /** Two profiles share a revision key exactly if they share the version and the beginning of the hash. */
  predicate SameRevision(a: Profile, b: Profile, shorten: Shortening) {
    a.version == b.version && shorten(Digest(a)) == shorten(Digest(b))
  }

  /** Some revision of the ledger has the profile's version and the beginning of its hash. */
  ghost predicate HasRevision(revisions: seq<Revision>, profile: Profile, shorten: Shortening) {
    exists i :: 0 <= i < |revisions| && SameRevision(revisions[i].nextPayload, profile, shorten)
  }

  /**
   * Every answer of an import, from the ledger and the profile's fields, in the order of the checks: a profile is
   * imported exactly if it is approved by the caller, is not the last one, has another version than the last one,
   * shares no revision key with any and has distinct fact keys.
   */
  lemma {:induction false} AnswersExactly(store: Store, profile: Profile, appliedBy: string, shorten: Shortening)
    requires Coherent(store, shorten)
    ensures var reply, n := Apply(store, profile, appliedBy, shorten).1, |store.revisions|;
      var approved := profile.status == ApprovedProfile;
      var own := approved && profile.approvedBy == Some(appliedBy);
      var newer := own && (n > 0 ==> store.revisions[n - 1].nextPayload != profile);
      var other := newer && (n > 0 ==> store.revisions[n - 1].nextPayload.version != profile.version);
      var first := other && !HasRevision(store.revisions, profile, shorten);
      && (reply == Refused(NotApproved) <==> !approved)
      && (reply == Refused(ApproverMismatch) <==> approved && !own)
      && (reply == AlreadyCurrent <==> own && !newer)
      && (reply == Refused(VersionReused) <==> newer && !other)
      && (reply == Refused(RevisionExists) <==> other && !first)
      && (reply == Refused(DuplicateFactKey) <==> first && !DistinctKeys(profile.facts))
      && (reply == Imported <==> first && DistinctKeys(profile.facts))
  {
    CapabilityCheckNeverFires(profile.facts);
    ReplacedFacts(profile.facts);
    if InsertFacts(map[], profile.facts).Some? { CountsAlwaysMatch(profile); }
    HasRevisionIs(store.revisions, profile, shorten);
    var n := |store.revisions|;
    if n > 0 { assert IsRecord(store.revisions[n - 1], shorten); }
  }

  lemma {:induction false} HasRevisionIs(revisions: seq<Revision>, profile: Profile, shorten: Shortening)
    requires forall i :: 0 <= i < |revisions| ==> IsRecord(revisions[i], shorten)
    ensures RevisionKeyOf(profile, shorten) in KeysOf(revisions) <==> HasRevision(revisions, profile, shorten)
  {
    if i :| 0 <= i < |revisions| && SameRevision(revisions[i].nextPayload, profile, shorten) {
      assert IsRecord(revisions[i], shorten) && revisions[i] in revisions;
    }
    if RevisionKeyOf(profile, shorten) in KeysOf(revisions) {
      var revision :| revision in revisions && revision.key == RevisionKeyOf(profile, shorten);
      var i :| 0 <= i < |revisions| && revisions[i] == revision;
      assert IsRecord(revisions[i], shorten);
    }
  }

  /** What an import writes: the profile's columns, its facts by key, and a revision that says what it replaced and who applied it. */
  lemma {:induction false} ImportWrites(store: Store, profile: Profile, appliedBy: string, shorten: Shortening)
    requires Coherent(store, shorten) && Apply(store, profile, appliedBy, shorten).1 == Imported
    ensures var after := Apply(store, profile, appliedBy, shorten).0;
      && after.current == Some(ProfileRow(profile.version, ApprovedProfile, profile, Digest(profile), Some(appliedBy)))
      && IsTableOf(after.facts, profile.facts)
    ensures var after, n := Apply(store, profile, appliedBy, shorten).0, |store.revisions|;
      && |after.revisions| == n + 1 && after.revisions[..n] == store.revisions
      && var revision := after.revisions[n];
         && revision.key == RevisionKey(profile.version, shorten(Digest(profile)))
         && revision.nextPayload == profile && revision.nextSha == Digest(profile) && revision.appliedBy == appliedBy
         && revision.previousPayload == (if n == 0 then None else Some(store.revisions[n - 1].nextPayload))
         && revision.previousSha == (if n == 0 then None else Some(store.revisions[n - 1].nextSha))
  {
    ReplacedFacts(profile.facts);
    ImportedExtendsLedger(store, profile, appliedBy, shorten);
    ImportedFollows(store, profile, appliedBy, shorten);
  }

  // ---------- the transaction ----------

  class ProfileTables {
    var current: Option<ProfileRow>
    var revisions: seq<Revision>
    var facts: map<string, Fact>

    ghost function Contents(): Store
      reads this
    {
      Store(current, revisions, facts)
    }

    constructor ()
      ensures Contents() == Store(None, [], map[])
      ensures forall shorten: Shortening :: Coherent(Contents(), shorten)
    {
      current, revisions, facts := None, [], map[];
    }

    /** `_insert_revision`; the answer is whether a row was inserted. */
    method InsertRevision(profile: Profile, appliedBy: string, shorten: Shortening) returns (inserted: bool)
      modifies this`revisions
      ensures inserted == (RevisionKeyOf(profile, shorten) !in KeysOf(old(revisions)))
      ensures revisions == if inserted then old(revisions) + [RevisionOf(current, profile, appliedBy, shorten)] else old(revisions)
      ensures UniqueKeys(old(revisions)) ==> UniqueKeys(revisions)
    {
      inserted := RevisionKeyOf(profile, shorten) !in KeysOf(revisions);
      if inserted {
        if UniqueKeys(revisions) { UniqueKeysGrow(revisions, RevisionOf(current, profile, appliedBy, shorten)); }
        revisions := revisions + [RevisionOf(current, profile, appliedBy, shorten)];
      }
    }

    /** `_replace_facts`; on a duplicate key the caller rolls back. */
    method ReplaceFacts(profile: Profile) returns (ok: bool)
      modifies this`facts
      ensures ok == InsertFacts(map[], profile.facts).Some?
      ensures ok ==> facts == InsertFacts(map[], profile.facts).value
    {
      facts := map[];
      var i := 0;
      while i < |profile.facts|
        invariant 0 <= i <= |profile.facts|
        invariant InsertFacts(facts, profile.facts[i..]) == InsertFacts(map[], profile.facts)
      {
        var fact := profile.facts[i];
        assert profile.facts[i..][0] == fact && profile.facts[i..][1..] == profile.facts[i + 1..];
        if fact.factKey in facts { return false; }
        facts := facts[fact.factKey := fact];
        i := i + 1;
      }
      return true;
    }

    /** `apply_profile` with its transaction: a refusal leaves every table as it was. */
    method ApplyProfile(profile: Profile, appliedBy: string, shorten: Shortening) returns (reply: Reply)
      requires Coherent(Contents(), shorten)
      modifies this
      ensures (Contents(), reply) == Apply(old(Contents()), profile, appliedBy, shorten)
      ensures Coherent(Contents(), shorten)
      ensures !reply.Refused? ==> current == Some(RowOf(profile))
    {
      ApplyKeepsCoherent(Contents(), profile, appliedBy, shorten);
      if profile.status != ApprovedProfile { return Refused(NotApproved); }
      if profile.approvedBy != Some(appliedBy) { return Refused(ApproverMismatch); }
      if !NoCapabilityFromDirection(profile.facts) { return Refused(CapabilityClaim); }
      if current.Some? && current.value.sha == Digest(profile) {
        CurrentIsLastRevision(Contents(), shorten);
        return AlreadyCurrent;
      }
      if current.Some? && current.value.version == profile.version { return Refused(VersionReused); }
      var saved, savedRevisions, savedFacts := current, revisions, facts;
      var inserted := InsertRevision(profile, appliedBy, shorten);
      if !inserted { return Refused(RevisionExists); }
      current := Some(RowOf(profile));
      var ok := ReplaceFacts(profile);
      if !ok || CountsOf(facts) != Summary(profile) {
        reply := Refused(if ok then CountMismatch else DuplicateFactKey);
        current, revisions, facts := saved, savedRevisions, savedFacts;
        return;
      }
      return Imported;
    }
  }
}
