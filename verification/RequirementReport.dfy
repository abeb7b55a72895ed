/** Applying a requirement report to the job assessments, with revalidation and a revision ledger. */
module RequirementReport {
  import opened Wrappers

  /** What the check after the apply looks at; absent texts read as empty. */
  datatype Marks = Marks(
    assessedBy: string,
    policyVersion: string,
    hardFilterStatus: string,
    capabilityFitStatus: string,
    scores: seq<Option<int>>,
    marker: Option<string>)

  /** An assessment's columns; `content` stands for those that no rule here looks at. */
  datatype Payload = Payload(jobId: int, marks: Marks, content: string)

  datatype Binding = Binding(sourceName: string, sourceUrl: string, lifecycle: string)

  datatype Assessment = Assessment(payload: Payload, updatedAt: int)

  datatype Revision = Revision(jobId: int, key: string, previous: Option<Payload>, next: Payload, appliedBy: string)

  /** A proposal of the plan; `next` is missing when it is no mapping, and `previous` when the job had no assessment. */
  datatype Proposal = Proposal(
    jobId: int,
    sourceName: string,
    sourceUrl: string,
    key: string,
    mode: string,
    assessmentUpdatedAt: Option<int>,
    previous: Option<Payload>,
    next: Option<Payload>)

  datatype Store = Store(bindings: map<int, Binding>, silver: set<int>, assessments: map<int, Assessment>, ledger: seq<Revision>)

  datatype Error =
    | LeftCurrentTruth
    | NotActive
    | SourceChanged
    | UrlChanged
    | PayloadMissing
    | AssessmentDisappeared
    | AssessmentChanged
    | UnsupportedMode
    | SilverDisappeared
    | AssessmentAppeared
    | ConstraintViolated

  datatype Action = Inserted | Updated | AlreadyCurrent

  datatype Counts = Counts(inserted: nat, updated: nat, alreadyCurrent: nat)

  const ACTIVE_CONFIRMED := "active_confirmed"

  predicate InLedger(ledger: seq<Revision>, jobId: int, key: string) {
    exists i :: 0 <= i < |ledger| && ledger[i].jobId == jobId && ledger[i].key == key
  }

  /** `_load_exact_current_binding` and the three checks on its row. */
  function CheckBinding(store: Store, proposal: Proposal): Option<Error> {
    if proposal.jobId !in store.bindings then Some(LeftCurrentTruth)
    else
      var binding := store.bindings[proposal.jobId];
      if binding.lifecycle != ACTIVE_CONFIRMED then Some(NotActive)
      else if binding.sourceName != proposal.sourceName then Some(SourceChanged)
      else if binding.sourceUrl != proposal.sourceUrl then Some(UrlChanged)
      else None
  }

  /** `_write_revision`: the foreign key on Silver jobs is all that can still fail. */
  function WriteRevision(store: Store, proposal: Proposal, appliedBy: string): Result<Store, Error>
    requires proposal.next.Some?
  {
    if proposal.jobId !in store.silver then Failure(ConstraintViolated)
    else Success(store.(ledger := store.ledger +
      [Revision(proposal.jobId, proposal.key, proposal.previous, proposal.next.value, appliedBy)]))
  }

  /** `_update_assessment` writes the row that the payload names. */
  function UpdateAssessment(store: Store, payload: Payload, now: int): Result<Store, Error> {
    if payload.jobId !in store.assessments then Failure(ConstraintViolated)
    else Success(store.(assessments := store.assessments[payload.jobId := Assessment(payload, now)]))
  }

  function InsertAssessment(store: Store, payload: Payload, now: int): Result<Store, Error> {
    if payload.jobId in store.assessments || payload.jobId !in store.silver then Failure(ConstraintViolated)
    else Success(store.(assessments := store.assessments[payload.jobId := Assessment(payload, now)]))
  }

  function Update(store: Store, proposal: Proposal, appliedBy: string, now: int): Result<Store, Error>
    requires proposal.next.Some?
  {
    if proposal.jobId !in store.assessments then Failure(AssessmentDisappeared)
    else if Some(store.assessments[proposal.jobId].updatedAt) != proposal.assessmentUpdatedAt then Failure(AssessmentChanged)
    else match WriteRevision(store, proposal, appliedBy)
      case Failure(error) => Failure(error)
      case Success(next) => UpdateAssessment(next, proposal.next.value, now)
  }

  function Insert(store: Store, proposal: Proposal, appliedBy: string, now: int): Result<Store, Error>
    requires proposal.next.Some?
  {
    if proposal.jobId !in store.silver then Failure(SilverDisappeared)
    else if proposal.jobId in store.assessments then Failure(AssessmentAppeared)
    else match InsertAssessment(store, proposal.next.value, now)
      case Failure(error) => Failure(error)
      case Success(next) => WriteRevision(next, proposal, appliedBy)
  }

  /** One round of the loop in `apply_report`. */
  function ApplyOne(store: Store, proposal: Proposal, appliedBy: string, now: int): Result<(Store, Action), Error> {
    if CheckBinding(store, proposal).Some? then Failure(CheckBinding(store, proposal).value)
    else if InLedger(store.ledger, proposal.jobId, proposal.key) then Success((store, AlreadyCurrent))
    else if proposal.next == None then Failure(PayloadMissing)
    else if proposal.mode == "update" then
      match Update(store, proposal, appliedBy, now)
      case Failure(error) => Failure(error)
      case Success(next) => Success((next, Updated))
    else if proposal.mode == "insert" then
      match Insert(store, proposal, appliedBy, now)
      case Failure(error) => Failure(error)
      case Success(next) => Success((next, Inserted))
    else Failure(UnsupportedMode)
  }

  function Count(counts: Counts, action: Action): Counts {
    match action
    case Inserted => counts.(inserted := counts.inserted + 1)
    case Updated => counts.(updated := counts.updated + 1)
    case AlreadyCurrent => counts.(alreadyCurrent := counts.alreadyCurrent + 1)
  }

  /** `apply_report`; a failure rolls everything back. */
  function ApplyAll(store: Store, proposals: seq<Proposal>, appliedBy: string, now: int): Result<(Store, Counts), Error>
    decreases |proposals|
  {
    if proposals == [] then Success((store, Counts(0, 0, 0)))
    else match ApplyOne(store, proposals[0], appliedBy, now)
      case Failure(error) => Failure(error)
      case Success((next, action)) =>
        match ApplyAll(next, proposals[1..], appliedBy, now)
        case Failure(error) => Failure(error)
        case Success((end, counts)) => Success((end, Count(counts, action)))
  }

  /** As the plan builds them: the new payload is that of the proposal's own job. */
  predicate Aligned(proposals: seq<Proposal>) {
    forall k :: 0 <= k < |proposals| && proposals[k].next.Some? ==> proposals[k].next.value.jobId == proposals[k].jobId
  }

  predicate DistinctJobs(proposals: seq<Proposal>) {
    forall i, j :: 0 <= i < j < |proposals| ==> proposals[i].jobId != proposals[j].jobId
  }

  // ---------- one proposal ----------

  /** What one round writes: nothing, or one assessment row and one revision of the proposal's job. */
  lemma {:induction false} ApplyOneWrites(store: Store, proposal: Proposal, appliedBy: string, now: int)
    requires Aligned([proposal]) && ApplyOne(store, proposal, appliedBy, now).Success?
    ensures var (after, action) := ApplyOne(store, proposal, appliedBy, now).value;
      && (action == AlreadyCurrent <==> InLedger(store.ledger, proposal.jobId, proposal.key))
      && (action == AlreadyCurrent ==> after == store)
      && (action != AlreadyCurrent ==>
            && proposal.next.Some?
            && after.ledger == store.ledger + [Revision(proposal.jobId, proposal.key, proposal.previous, proposal.next.value, appliedBy)]
            && after.assessments == store.assessments[proposal.jobId := Assessment(proposal.next.value, now)])
      && after.bindings == store.bindings && after.silver == store.silver
  {
    assert [proposal][0] == proposal;
  }

  lemma {:induction false} LedgerGrows(ledger: seq<Revision>, revision: Revision, jobId: int, key: string)
    ensures InLedger(ledger + [revision], jobId, key) <==>
      InLedger(ledger, jobId, key) || (revision.jobId == jobId && revision.key == key)
  {
    var more := ledger + [revision];
    assert more[|ledger|] == revision;
    if InLedger(ledger, jobId, key) {
      var i :| 0 <= i < |ledger| && ledger[i].jobId == jobId && ledger[i].key == key;
      assert more[i] == ledger[i];
    }
  }

  /** Afterwards the proposal's own revision is on the ledger. */
  lemma {:induction false} ApplyOneRecords(store: Store, proposal: Proposal, appliedBy: string, now: int)
    requires Aligned([proposal]) && ApplyOne(store, proposal, appliedBy, now).Success?
    ensures var after := ApplyOne(store, proposal, appliedBy, now).value.0;
      && InLedger(after.ledger, proposal.jobId, proposal.key)
      && forall jobId, key :: InLedger(store.ledger, jobId, key) ==> InLedger(after.ledger, jobId, key)
  {
    ApplyOneWrites(store, proposal, appliedBy, now);
    var (after, action) := ApplyOne(store, proposal, appliedBy, now).value;
    if action != AlreadyCurrent {
      var revision := Revision(proposal.jobId, proposal.key, proposal.previous, proposal.next.value, appliedBy);
      LedgerGrows(store.ledger, revision, proposal.jobId, proposal.key);
      forall jobId, key | InLedger(store.ledger, jobId, key)
        ensures InLedger(after.ledger, jobId, key)
      {
        LedgerGrows(store.ledger, revision, jobId, key);
      }
    }
  }

  /** A round on one job decides nothing about another job's proposal. */
  lemma {:induction false} ApplyOneFrame(store: Store, proposal: Proposal, other: Proposal, appliedBy: string, now: int)
    requires Aligned([proposal]) && Aligned([other]) && ApplyOne(store, proposal, appliedBy, now).Success?
    requires other.jobId != proposal.jobId
    ensures var after := ApplyOne(store, proposal, appliedBy, now).value.0;
      && (ApplyOne(after, other, appliedBy, now).Success? <==> ApplyOne(store, other, appliedBy, now).Success?)
      && (InLedger(after.ledger, other.jobId, other.key) <==> InLedger(store.ledger, other.jobId, other.key))
  {
    ApplyOneWrites(store, proposal, appliedBy, now);
    var (after, action) := ApplyOne(store, proposal, appliedBy, now).value;
    assert [other][0] == other;
    if action != AlreadyCurrent {
      LedgerGrows(store.ledger, after.ledger[|store.ledger|], other.jobId, other.key);
      assert other.jobId in after.assessments <==> other.jobId in store.assessments;
    }
  }

  // ---------- the whole report ----------

  lemma {:induction false} AlignedRest(proposals: seq<Proposal>)
    requires proposals != [] && Aligned(proposals)
    ensures Aligned([proposals[0]]) && Aligned(proposals[1..])
  {
    assert [proposals[0]][0] == proposals[0];
    assert forall k :: 0 <= k < |proposals| - 1 ==> proposals[1..][k] == proposals[k + 1];
  }

  /** The three counters add up to the proposals, and the ledger grows by the rows written. */
  lemma {:induction false} CountsAddUp(store: Store, proposals: seq<Proposal>, appliedBy: string, now: int)
    requires Aligned(proposals) && ApplyAll(store, proposals, appliedBy, now).Success?
    ensures var (after, counts) := ApplyAll(store, proposals, appliedBy, now).value;
      && counts.inserted + counts.updated + counts.alreadyCurrent == |proposals|
      && |after.ledger| == |store.ledger| + counts.inserted + counts.updated
      && store.ledger <= after.ledger
      && after.bindings == store.bindings && after.silver == store.silver
      && |after.assessments| == |store.assessments| + counts.inserted
    decreases |proposals|
  {
    if proposals != [] {
      AlignedRest(proposals);
      ApplyOneWrites(store, proposals[0], appliedBy, now);
      var (next, action) := ApplyOne(store, proposals[0], appliedBy, now).value;
      CountsAddUp(next, proposals[1..], appliedBy, now);
      RowsAddUp(store, proposals[0], appliedBy, now);
    }
  }

  lemma {:induction false} RowsAddUp(store: Store, proposal: Proposal, appliedBy: string, now: int)
    requires Aligned([proposal]) && ApplyOne(store, proposal, appliedBy, now).Success?
    ensures var (after, action) := ApplyOne(store, proposal, appliedBy, now).value;
      |after.assessments| == |store.assessments| + if action == Inserted then 1 else 0
  {
    assert [proposal][0] == proposal;
    var (after, action) := ApplyOne(store, proposal, appliedBy, now).value;
    if action == Updated {
      assert after.assessments.Keys == store.assessments.Keys;
      assert |after.assessments.Keys| == |after.assessments| && |store.assessments.Keys| == |store.assessments|;
    }
  }

  /** For distinct jobs the report goes through exactly when every proposal would on its own. */
  lemma {:induction false} SucceedsExactly(store: Store, proposals: seq<Proposal>, appliedBy: string, now: int)
    requires Aligned(proposals) && DistinctJobs(proposals)
    ensures ApplyAll(store, proposals, appliedBy, now).Success?
      <==> forall k :: 0 <= k < |proposals| ==> ApplyOne(store, proposals[k], appliedBy, now).Success?
    decreases |proposals|
  {
    if proposals != [] && ApplyOne(store, proposals[0], appliedBy, now).Success? {
      var next, rest := ApplyOne(store, proposals[0], appliedBy, now).value.0, proposals[1..];
      AlignedRest(proposals);
      SucceedsExactly(next, rest, appliedBy, now);
      forall k | 0 <= k < |rest|
        ensures ApplyOne(next, rest[k], appliedBy, now).Success? <==> ApplyOne(store, proposals[k + 1], appliedBy, now).Success?
      {
        assert rest[k] == proposals[k + 1] && [rest[k]][0] == rest[k];
        ApplyOneFrame(store, proposals[0], rest[k], appliedBy, now);
      }
    }
  }

  /** Revalidation: a job whose assessment moved since the plan stops the whole report. */
  lemma {:induction false} StalePlanIsRefused(store: Store, proposals: seq<Proposal>, appliedBy: string, now: int, k: nat)
    requires Aligned(proposals) && DistinctJobs(proposals) && k < |proposals|
    requires !InLedger(store.ledger, proposals[k].jobId, proposals[k].key)
    requires proposals[k].mode == "update" && (
      proposals[k].jobId in store.assessments ==> Some(store.assessments[proposals[k].jobId].updatedAt) != proposals[k].assessmentUpdatedAt)
    ensures ApplyAll(store, proposals, appliedBy, now).Failure?
  {
    SucceedsExactly(store, proposals, appliedBy, now);
    assert ApplyOne(store, proposals[k], appliedBy, now).Failure?;
  }

  // ---------- each job at most once ----------

  /** The plan was made before the transaction. */
  predicate Earlier(proposals: seq<Proposal>, now: int) {
    forall k :: 0 <= k < |proposals| && proposals[k].assessmentUpdatedAt.Some? ==> proposals[k].assessmentUpdatedAt.value < now
  }

  predicate DistinctRevisionJobs(revisions: seq<Revision>) {
    forall i, j :: 0 <= i < j < |revisions| ==> revisions[i].jobId != revisions[j].jobId
  }

  /** A job written in this transaction is not written again. */
  lemma {:induction false} WrittenStaysWritten(store: Store, proposals: seq<Proposal>, appliedBy: string, now: int, jobId: int)
    requires Aligned(proposals) && Earlier(proposals, now) && ApplyAll(store, proposals, appliedBy, now).Success?
    requires jobId in store.assessments && store.assessments[jobId].updatedAt == now
    ensures var after := ApplyAll(store, proposals, appliedBy, now).value.0;
      && jobId in after.assessments && after.assessments[jobId] == store.assessments[jobId]
      && forall i :: |store.ledger| <= i < |after.ledger| ==> after.ledger[i].jobId != jobId
    decreases |proposals|
  {
    if proposals != [] {
      AlignedRest(proposals);
      ApplyOneWrites(store, proposals[0], appliedBy, now);
      var (next, action) := ApplyOne(store, proposals[0], appliedBy, now).value;
      assert action != AlreadyCurrent ==> proposals[0].jobId != jobId;
      WrittenStaysWritten(next, proposals[1..], appliedBy, now, jobId);
      CountsAddUp(next, proposals[1..], appliedBy, now);
    }
  }

  /** Each job is written at most once, even when the report lists it several times. */
  lemma {:induction false} EachJobAtMostOnce(store: Store, proposals: seq<Proposal>, appliedBy: string, now: int)
    requires Aligned(proposals) && Earlier(proposals, now) && ApplyAll(store, proposals, appliedBy, now).Success?
    ensures var after := ApplyAll(store, proposals, appliedBy, now).value.0;
      |store.ledger| <= |after.ledger| && DistinctRevisionJobs(after.ledger[|store.ledger|..])
    decreases |proposals|
  {
    CountsAddUp(store, proposals, appliedBy, now);
    if proposals != [] {
      AlignedRest(proposals);
      ApplyOneWrites(store, proposals[0], appliedBy, now);
      var (next, action) := ApplyOne(store, proposals[0], appliedBy, now).value;
      EachJobAtMostOnce(next, proposals[1..], appliedBy, now);
      if action != AlreadyCurrent {
        WrittenStaysWritten(next, proposals[1..], appliedBy, now, proposals[0].jobId);
        CountsAddUp(next, proposals[1..], appliedBy, now);
        NewRowsCons(store.ledger, next.ledger, ApplyAll(next, proposals[1..], appliedBy, now).value.0.ledger);
      }
    }
  }

  lemma {:induction false} NewRowsCons(before: seq<Revision>, next: seq<Revision>, after: seq<Revision>)
    requires before <= next <= after && |next| == |before| + 1
    requires DistinctRevisionJobs(after[|next|..])
    requires forall i :: |next| <= i < |after| ==> after[i].jobId != next[|before|].jobId
    ensures DistinctRevisionJobs(after[|before|..])
  {
    var more, rest := after[|before|..], after[|next|..];
    assert more[0] == next[|before|];
    assert forall i :: 0 < i < |more| ==> more[i] == rest[i - 1] && more[i] == after[|before| + i];
  }

  // ---------- the newest revision ----------

  /** The last revision of the job. */
  function Newest(ledger: seq<Revision>, jobId: int): Option<Revision> {
    if ledger == [] then None
    else if ledger[|ledger| - 1].jobId == jobId then Some(ledger[|ledger| - 1])
    else Newest(ledger[..|ledger| - 1], jobId)
  }

  /** The stored payload of a job is that of its newest revision. */
  ghost predicate StoredIsNewest(store: Store) {
    forall jobId :: Newest(store.ledger, jobId).Some? ==> IsStored(store, jobId, Newest(store.ledger, jobId).value.next)
  }

  predicate IsStored(store: Store, jobId: int, payload: Payload) {
    jobId in store.assessments && store.assessments[jobId].payload == payload
  }

  lemma {:induction false} NewestOfMore(ledger: seq<Revision>, revision: Revision, jobId: int)
    ensures Newest(ledger + [revision], jobId) == if revision.jobId == jobId then Some(revision) else Newest(ledger, jobId)
  {
    var more := ledger + [revision];
    assert more[..|more| - 1] == ledger;
  }

  lemma {:induction false} ApplyOneKeepsNewest(store: Store, proposal: Proposal, appliedBy: string, now: int)
    requires StoredIsNewest(store) && Aligned([proposal]) && ApplyOne(store, proposal, appliedBy, now).Success?
    ensures StoredIsNewest(ApplyOne(store, proposal, appliedBy, now).value.0)
  {
    ApplyOneWrites(store, proposal, appliedBy, now);
    var (after, action) := ApplyOne(store, proposal, appliedBy, now).value;
    if action != AlreadyCurrent {
      var revision := Revision(proposal.jobId, proposal.key, proposal.previous, proposal.next.value, appliedBy);
      forall jobId | Newest(after.ledger, jobId).Some?
        ensures IsStored(after, jobId, Newest(after.ledger, jobId).value.next)
      {
        NewestOfMore(store.ledger, revision, jobId);
        assert jobId != proposal.jobId ==> IsStored(store, jobId, Newest(store.ledger, jobId).value.next);
      }
    }
  }

  lemma {:induction false} ApplyAllKeepsNewest(store: Store, proposals: seq<Proposal>, appliedBy: string, now: int)
    requires StoredIsNewest(store) && Aligned(proposals) && ApplyAll(store, proposals, appliedBy, now).Success?
    ensures StoredIsNewest(ApplyAll(store, proposals, appliedBy, now).value.0)
    decreases |proposals|
  {
    if proposals != [] {
      AlignedRest(proposals);
      ApplyOneKeepsNewest(store, proposals[0], appliedBy, now);
      ApplyAllKeepsNewest(ApplyOne(store, proposals[0], appliedBy, now).value.0, proposals[1..], appliedBy, now);
    }
  }

  // ---------- replay ----------

  /** Every proposal is recorded and its binding still fits. */
  ghost predicate Settled(store: Store, proposals: seq<Proposal>) {
    forall k :: 0 <= k < |proposals| ==> IsSettled(store, proposals[k])
  }

  predicate IsSettled(store: Store, proposal: Proposal) {
    CheckBinding(store, proposal) == None && InLedger(store.ledger, proposal.jobId, proposal.key)
  }

  lemma {:induction false} SettledReplays(store: Store, proposals: seq<Proposal>, appliedBy: string, now: int)
    requires Settled(store, proposals)
    ensures ApplyAll(store, proposals, appliedBy, now) == Success((store, Counts(0, 0, |proposals|)))
  {
    if proposals != [] {
      assert IsSettled(store, proposals[0]);
      assert forall k :: 0 <= k < |proposals| - 1 ==> proposals[1..][k] == proposals[k + 1];
      SettledReplays(store, proposals[1..], appliedBy, now);
    }
  }

  lemma {:induction false} SettledStays(store: Store, proposals: seq<Proposal>, proposal: Proposal, appliedBy: string, now: int)
    requires Aligned(proposals) && ApplyAll(store, proposals, appliedBy, now).Success? && IsSettled(store, proposal)
    ensures IsSettled(ApplyAll(store, proposals, appliedBy, now).value.0, proposal)
    decreases |proposals|
  {
    if proposals != [] {
      AlignedRest(proposals);
      ApplyOneRecords(store, proposals[0], appliedBy, now);
      ApplyOneWrites(store, proposals[0], appliedBy, now);
      var next := ApplyOne(store, proposals[0], appliedBy, now).value.0;
      assert CheckBinding(next, proposal) == CheckBinding(store, proposal);
      SettledStays(next, proposals[1..], proposal, appliedBy, now);
    }
  }

  lemma {:induction false} SuccessSettles(store: Store, proposals: seq<Proposal>, appliedBy: string, now: int)
    requires Aligned(proposals) && ApplyAll(store, proposals, appliedBy, now).Success?
    ensures Settled(ApplyAll(store, proposals, appliedBy, now).value.0, proposals)
    decreases |proposals|
  {
    if proposals != [] {
      AlignedRest(proposals);
      ApplyOneRecords(store, proposals[0], appliedBy, now);
      ApplyOneWrites(store, proposals[0], appliedBy, now);
      var next, rest := ApplyOne(store, proposals[0], appliedBy, now).value.0, proposals[1..];
      assert CheckBinding(next, proposals[0]) == None;
      SuccessSettles(next, rest, appliedBy, now);
      SettledStays(next, rest, proposals[0], appliedBy, now);
      assert forall k :: 0 < k < |proposals| ==> proposals[k] == rest[k - 1];
    }
  }

  datatype Report = Report(proposals: seq<Proposal>, appliedBy: string, now: int)

  function AfterReport(store: Store, report: Report): Store {
    match ApplyAll(store, report.proposals, report.appliedBy, report.now)
    case Failure(_) => store
    case Success((after, _)) => after
  }

  function AfterReports(store: Store, reports: seq<Report>): Store
    decreases |reports|
  {
    if reports == [] then store else AfterReports(AfterReport(store, reports[0]), reports[1..])
  }

  predicate AllAligned(reports: seq<Report>) {
    forall k :: 0 <= k < |reports| ==> Aligned(reports[k].proposals)
  }

  /** On every run of reports, refused ones included, every stored payload is that of the newest revision. */
  lemma {:induction false} RunKeepsNewest(store: Store, reports: seq<Report>)
    requires StoredIsNewest(store) && AllAligned(reports)
    ensures StoredIsNewest(AfterReports(store, reports))
    decreases |reports|
  {
    if reports != [] {
      var first := reports[0];
      if ApplyAll(store, first.proposals, first.appliedBy, first.now).Success? {
        ApplyAllKeepsNewest(store, first.proposals, first.appliedBy, first.now);
      }
      assert forall k :: 0 <= k < |reports| - 1 ==> reports[1..][k] == reports[k + 1];
      RunKeepsNewest(AfterReport(store, first), reports[1..]);
    }
  }

  lemma {:induction false} SettledThroughRun(store: Store, reports: seq<Report>, proposals: seq<Proposal>)
    requires Settled(store, proposals) && AllAligned(reports)
    ensures Settled(AfterReports(store, reports), proposals)
    decreases |reports|
  {
    if reports != [] {
      var first := reports[0];
      var next := AfterReport(store, first);
      if ApplyAll(store, first.proposals, first.appliedBy, first.now).Success? {
        forall k | 0 <= k < |proposals|
          ensures IsSettled(next, proposals[k])
        {
          SettledStays(store, first.proposals, proposals[k], first.appliedBy, first.now);
        }
      }
      assert forall k :: 0 <= k < |reports| - 1 ==> reports[1..][k] == reports[k + 1];
      SettledThroughRun(next, reports[1..], proposals);
    }
  }

  /** Replaying a report after any other reports writes nothing, although every timestamp has moved. */
  lemma {:induction false} ReplayWritesNothing(store: Store, report: Report, between: seq<Report>, appliedBy: string, now: int)
    requires Aligned(report.proposals) && AllAligned(between)
    requires ApplyAll(store, report.proposals, report.appliedBy, report.now).Success?
    ensures var end := AfterReports(AfterReport(store, report), between);
      ApplyAll(end, report.proposals, appliedBy, now) == Success((end, Counts(0, 0, |report.proposals|)))
  {
    SuccessSettles(store, report.proposals, report.appliedBy, report.now);
    SettledThroughRun(AfterReport(store, report), between, report.proposals);
    SettledReplays(AfterReports(AfterReport(store, report), between), report.proposals, appliedBy, now);
  }

  // ---------- what `already_current` means ----------

  lemma {:induction false} OtherJobsKeep(store: Store, proposals: seq<Proposal>, appliedBy: string, now: int, jobId: int)
    requires Aligned(proposals) && ApplyAll(store, proposals, appliedBy, now).Success?
    requires forall k :: 0 <= k < |proposals| ==> proposals[k].jobId != jobId
    ensures var after := ApplyAll(store, proposals, appliedBy, now).value.0;
      && (jobId in after.assessments <==> jobId in store.assessments)
      && (jobId in store.assessments ==> after.assessments[jobId] == store.assessments[jobId])
    decreases |proposals|
  {
    if proposals != [] {
      AlignedRest(proposals);
      ApplyOneWrites(store, proposals[0], appliedBy, now);
      assert forall k :: 0 <= k < |proposals| - 1 ==> proposals[1..][k] == proposals[k + 1];
      OtherJobsKeep(ApplyOne(store, proposals[0], appliedBy, now).value.0, proposals[1..], appliedBy, now, jobId);
    }
  }

  /**
   * After a successful report a job carries the proposed payload exactly when the proposal was new to the
   * ledger or the job carried that payload already; an older revision of the job is not brought back.
   */
  lemma {:induction false} ProposalIsStoredExactly(store: Store, proposals: seq<Proposal>, appliedBy: string, now: int, k: nat)
    requires Aligned(proposals) && DistinctJobs(proposals) && ApplyAll(store, proposals, appliedBy, now).Success?
    requires k < |proposals| && proposals[k].next.Some?
    ensures var p := proposals[k];
      IsStored(ApplyAll(store, proposals, appliedBy, now).value.0, p.jobId, p.next.value)
      <==> !InLedger(store.ledger, p.jobId, p.key) || IsStored(store, p.jobId, p.next.value)
    decreases |proposals|
  {
    AlignedRest(proposals);
    var first, rest := proposals[0], proposals[1..];
    ApplyOneWrites(store, first, appliedBy, now);
    var next := ApplyOne(store, first, appliedBy, now).value.0;
    if k == 0 {
      OtherJobsKeep(next, rest, appliedBy, now, first.jobId);
    } else {
      assert rest[k - 1] == proposals[k] && [rest[k - 1]][0] == rest[k - 1];
      assert DistinctJobs(rest);
      SucceedsExactly(next, rest, appliedBy, now);
      ApplyOneFrame(store, first, proposals[k], appliedBy, now);
      ProposalIsStoredExactly(next, rest, appliedBy, now, k - 1);
    }
  }

  /**
   * Evidence that goes from `a` to `b` and back to `a` stays on `b`: the third report counts as already
   * current while the stored payload is the second one.
   */
  lemma {:induction false} ReturningEvidenceStaysStale(store: Store, a: Proposal, b: Proposal, back: Proposal,
        appliedBy: string, t1: int, t2: int, t3: int)
    requires Aligned([a]) && Aligned([b]) && a.jobId == b.jobId == back.jobId && a.key == back.key && a.next == back.next
    requires a.sourceName == b.sourceName == back.sourceName && a.sourceUrl == b.sourceUrl == back.sourceUrl
    requires ApplyAll(store, [a], appliedBy, t1).Success? && !InLedger(store.ledger, b.jobId, b.key)
    requires b.key != a.key && b.next != a.next && b.next.Some? && b.mode == "update" && b.assessmentUpdatedAt == Some(t1)
    requires !InLedger(store.ledger, a.jobId, a.key)
    ensures var s1 := ApplyAll(store, [a], appliedBy, t1).value.0;
      ApplyAll(s1, [b], appliedBy, t2).Success? &&
      var s2 := ApplyAll(s1, [b], appliedBy, t2).value.0;
      && ApplyAll(s2, [back], appliedBy, t3) == Success((s2, Counts(0, 0, 1)))
      && IsStored(s2, back.jobId, b.next.value) && Some(b.next.value) != back.next
  {
    ApplyOneWrites(store, a, appliedBy, t1);
    ApplyOneRecords(store, a, appliedBy, t1);
    SingleReport(store, a, appliedBy, t1);
    var s1 := ApplyOne(store, a, appliedBy, t1).value.0;
    LedgerGrows(store.ledger, s1.ledger[|store.ledger|], b.jobId, b.key);
    assert [b][0] == b;
    SingleReport(s1, b, appliedBy, t2);
    ApplyOneWrites(s1, b, appliedBy, t2);
    ApplyOneRecords(s1, b, appliedBy, t2);
    var s2 := ApplyOne(s1, b, appliedBy, t2).value.0;
    assert [back][0] == back && IsSettled(s2, back);
    SettledReplays(s2, [back], appliedBy, t3);
  }

  lemma {:induction false} SingleReport(store: Store, proposal: Proposal, appliedBy: string, now: int)
    ensures ApplyAll(store, [proposal], appliedBy, now).Success? <==> ApplyOne(store, proposal, appliedBy, now).Success?
    ensures ApplyOne(store, proposal, appliedBy, now).Success? ==>
      ApplyAll(store, [proposal], appliedBy, now).value.0 == ApplyOne(store, proposal, appliedBy, now).value.0
  {
    assert [proposal][1..] == [];
  }

  // ---------- the transaction ----------

  class Database {
    var bindings: map<int, Binding>
    var silver: set<int>
    var assessments: map<int, Assessment>
    var ledger: seq<Revision>

    ghost function Contents(): Store
      reads this
    {
      Store(bindings, silver, assessments, ledger)
    }

    constructor (bindings: map<int, Binding>, silver: set<int>, assessments: map<int, Assessment>)
      ensures Contents() == Store(bindings, silver, assessments, []) && StoredIsNewest(Contents())
    {
      this.bindings, this.silver, this.assessments, ledger := bindings, silver, assessments, [];
    }

    /** The body of the loop; after a failure the caller rolls back. */
    method ApplyProposal(proposal: Proposal, appliedBy: string, now: int) returns (action: Result<Action, Error>)
      modifies this`assessments, this`ledger
      ensures match ApplyOne(old(Contents()), proposal, appliedBy, now)
        case Failure(error) => action == Failure(error)
        case Success((after, done)) => action == Success(done) && Contents() == after
    {
      ghost var before := Contents();
      var refused := CheckBinding(Store(bindings, silver, assessments, ledger), proposal);
      if refused.Some? { return Failure(refused.value); }
      if InLedger(ledger, proposal.jobId, proposal.key) { return Success(AlreadyCurrent); }
      if proposal.next == None { return Failure(PayloadMissing); }
      var payload := proposal.next.value;
      var revision := Revision(proposal.jobId, proposal.key, proposal.previous, payload, appliedBy);
      if proposal.mode == "update" {
        if proposal.jobId !in assessments { return Failure(AssessmentDisappeared); }
        if Some(assessments[proposal.jobId].updatedAt) != proposal.assessmentUpdatedAt { return Failure(AssessmentChanged); }
        if proposal.jobId !in silver { return Failure(ConstraintViolated); }
        ledger := ledger + [revision];
        if payload.jobId !in assessments { return Failure(ConstraintViolated); }
        assessments := assessments[payload.jobId := Assessment(payload, now)];
        return Success(Updated);
      }
      if proposal.mode != "insert" { return Failure(UnsupportedMode); }
      if proposal.jobId !in silver { return Failure(SilverDisappeared); }
      if proposal.jobId in assessments { return Failure(AssessmentAppeared); }
      if payload.jobId in assessments || payload.jobId !in silver { return Failure(ConstraintViolated); }
      assessments := assessments[payload.jobId := Assessment(payload, now)];
      ledger := ledger + [revision];
      return Success(Inserted);
    }

    /** `apply_report`: all proposals in one transaction. */
    method ApplyReport(proposals: seq<Proposal>, appliedBy: string, now: int) returns (result: Result<Counts, Error>)
      modifies this`assessments, this`ledger
      ensures match ApplyAll(old(Contents()), proposals, appliedBy, now)
        case Failure(error) => result == Failure(error) && Contents() == old(Contents())
        case Success((after, counts)) => result == Success(counts) && Contents() == after
    {
      ghost var before := Contents();
      var savedAssessments, savedLedger := assessments, ledger;
      var inserted, updated, alreadyCurrent := 0, 0, 0;
      var i := 0;
      while i < |proposals|
        invariant 0 <= i <= |proposals|
        invariant ApplyAll(before, proposals, appliedBy, now)
          == Resume(ApplyAll(Contents(), proposals[i..], appliedBy, now), Counts(inserted, updated, alreadyCurrent))
      {
        ResumeStep(Contents(), proposals, i, appliedBy, now, Counts(inserted, updated, alreadyCurrent));
        var action := ApplyProposal(proposals[i], appliedBy, now);
        if action.Failure? {
          assessments, ledger := savedAssessments, savedLedger;
          return Failure(action.error);
        }
        if action.value == Inserted {
          inserted := inserted + 1;
        } else if action.value == Updated {
          updated := updated + 1;
        } else {
          alreadyCurrent := alreadyCurrent + 1;
        }
        i := i + 1;
      }
      return Success(Counts(inserted, updated, alreadyCurrent));
    }
  }

  lemma {:induction false} ResumeStep(store: Store, proposals: seq<Proposal>, i: nat, appliedBy: string, now: int, done: Counts)
    requires i < |proposals|
    ensures match ApplyOne(store, proposals[i], appliedBy, now)
      case Failure(error) => Resume(ApplyAll(store, proposals[i..], appliedBy, now), done) == Failure(error)
      case Success((next, action)) =>
        Resume(ApplyAll(store, proposals[i..], appliedBy, now), done)
        == Resume(ApplyAll(next, proposals[i + 1..], appliedBy, now), Count(done, action))
  {
    assert proposals[i..][0] == proposals[i] && proposals[i..][1..] == proposals[i + 1..];
  }

  /** A result with the counters so far added. */
  function Resume(result: Result<(Store, Counts), Error>, done: Counts): Result<(Store, Counts), Error> {
    match result
    case Failure(error) => Failure(error)
    case Success((store, counts)) =>
      Success((store, Counts(done.inserted + counts.inserted, done.updated + counts.updated,
                             done.alreadyCurrent + counts.alreadyCurrent)))
  }
}
