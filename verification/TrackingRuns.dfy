/** What holds over every run of operator actions and environment steps on the tracking tables. */
module TrackingRuns {
  import opened Wrappers
  import opened Text
  import opened TrackingModel

  datatype Step =
    | RecordStep(submission: SubmissionRequest)
    | RemoveStep(removal: RemovalRequest)
    | CorrectStep(title: TitleRequest, now: int)
    | MailboxStep(row: Application)
    | EvidenceStep(candidateId: int, candidate: EventCandidate)
    | EventStep(eventId: int, event: LifecycleEvent)
    | ApprovedStep(approved: Submission)
    | MergeStep(canonicalId: int, duplicateId: int)
    | SilverStep(silverJobId: int, job: SilverJob)
    | DraftStep(draftJobId: int, draftId: int)
    | SupersedeStep(supersededId: int)
    | CleanupStep(cohort: set<int>)

  // ---------- the environment ----------

  /** The mailbox ingest inserts an observed application under an unused key. */
  ghost function AddMailbox(store: Store, row: Application): Store {
    var drawn := store.(nextApplicationId := store.nextApplicationId + 1);
    if row.kind == MailboxObserved && row.sha == Digest(row.snapshot) && !Owned(row)
       && RowWithKey(store.tables, row.key) == None
    then drawn.(tables := store.tables.(applications := store.tables.applications[store.nextApplicationId := row]))
    else drawn
  }

  /** Communication evidence, matched to an existing application or to none. */
  function AddEvidence(store: Store, id: int, candidate: EventCandidate): Store {
    var tables := store.tables;
    if id in tables.candidates then store
    else if candidate.matchedApplicationId.Some? && candidate.matchedApplicationId.value !in tables.applications then store
    else store.(tables := tables.(candidates := tables.candidates[id := candidate]))
  }

  function AddEvent(store: Store, id: int, event: LifecycleEvent): Store {
    var tables := store.tables;
    if id in tables.events || event.submissionId !in tables.submissions then store
    else store.(tables := tables.(events := tables.events[id := event]))
  }

  /** A submission from an approved authoritative record, outside the operator action. */
  ghost function AddApproved(store: Store, submission: Submission): Store {
    var tables, id := store.tables, submission.applicationId;
    if id in tables.applications && SubmissionOf(tables, id) == None
       && submission.authority == ApprovedRecord && submission.idempotencyKey.RecordKey?
    then store.(tables := tables.(submissions := tables.submissions[store.nextSubmissionId := submission]),
                nextSubmissionId := store.nextSubmissionId + 1)
    else store
  }

  function Rematch(candidate: EventCandidate, canonicalId: int, duplicateId: int): EventCandidate {
    if candidate.matchedApplicationId == Some(duplicateId)
    then candidate.(matchedApplicationId := Some(canonicalId))
    else candidate
  }

  /** Identity reconciliation moves the evidence of a duplicate and deletes the duplicate. */
  ghost function Merge(store: Store, canonicalId: int, duplicateId: int): Store {
    var tables := store.tables;
    if canonicalId in tables.applications && duplicateId in tables.applications && canonicalId != duplicateId
       && tables.applications[duplicateId].kind == MailboxObserved
       && SubmissionOf(tables, duplicateId) == None
    then store.(tables := tables.(
           candidates := map c | c in tables.candidates :: Rematch(tables.candidates[c], canonicalId, duplicateId),
           applications := tables.applications - {duplicateId}))
    else store
  }

  /** Newer evidence from the same message supersedes the one before. */
  function SupersedeEvidence(store: Store, id: int): Store {
    var tables := store.tables;
    if id in tables.candidates
    then store.(tables := tables.(candidates := tables.candidates[id := tables.candidates[id].(active := false)]))
    else store
  }

  /** `coalesce(snapshot->>key, '') = ''` */
  predicate Absent(snapshot: Snapshot, key: string) {
    key !in snapshot || snapshot[key] == Null || snapshot[key] == Str("")
  }

  const COHORT_SIZE := 19
  const FIRST_COHORT_ID := 19

  /** The row is a mailbox one without any identity, and has no submission. */
  ghost predicate IsFalsePositive(tables: Tables, a: int) {
    && a in tables.applications && a >= FIRST_COHORT_ID
    && var row := tables.applications[a];
       && row.kind == MailboxObserved && row.silverJobId == None
       && Absent(row.snapshot, "job_title") && Absent(row.snapshot, "employer_name")
       && SubmissionOf(tables, a) == None
  }

  ghost function FalsePositives(tables: Tables, cohort: set<int>): set<int> {
    set a | a in cohort && IsFalsePositive(tables, a)
  }

  predicate MatchedAmong(candidate: EventCandidate, ids: set<int>) {
    candidate.matchedApplicationId.Some? && candidate.matchedApplicationId.value in ids
  }

  function Unmatch(candidate: EventCandidate, ids: set<int>): EventCandidate {
    if candidate.active && MatchedAmong(candidate, ids) then candidate.(matchedApplicationId := None) else candidate
  }

  /** Superseded evidence stays matched, and its foreign key then forbids the deletion. */
  ghost predicate HeldBySuperseded(tables: Tables, ids: set<int>) {
    exists c :: c in tables.candidates && !tables.candidates[c].active && MatchedAmong(tables.candidates[c], ids)
  }

  /**
   * The audited clean-up of false mailbox rows: it unmatches their evidence and deletes them. `cohort` are the rows
   * with the audited time of creation.
   */
  ghost function CleanUp(store: Store, cohort: set<int>): Store {
    var tables := store.tables;
    var ids := FalsePositives(tables, cohort);
    if |ids| != COHORT_SIZE || HeldBySuperseded(tables, ids) then store
    else store.(tables := tables.(
           candidates := map c | c in tables.candidates :: Unmatch(tables.candidates[c], ids),
           applications := tables.applications - ids))
  }

  // ---------- runs ----------

  ghost function Next(store: Store, step: Step): (Store, Option<Reply>) {
    match step
    case RecordStep(request) => var (after, reply) := Record(store, request); (after, Some(reply))
    case RemoveStep(request) => var (after, reply) := Remove(store, request); (after, Some(reply))
    case CorrectStep(request, now) => var (after, reply) := Correct(store, request, now); (after, Some(reply))
    case MailboxStep(row) => (AddMailbox(store, row), None)
    case EvidenceStep(id, candidate) => (AddEvidence(store, id, candidate), None)
    case EventStep(id, event) => (AddEvent(store, id, event), None)
    case ApprovedStep(submission) => (AddApproved(store, submission), None)
    case MergeStep(canonicalId, duplicateId) => (Merge(store, canonicalId, duplicateId), None)
    case SilverStep(id, job) => (store.(tables := store.tables.(silver := store.tables.silver[id := job])), None)
    case DraftStep(id, draft) =>
      (store.(tables := store.tables.(approvedDrafts := store.tables.approvedDrafts[id := draft])), None)
    case SupersedeStep(id) => (SupersedeEvidence(store, id), None)
    case CleanupStep(cohort) => (CleanUp(store, cohort), None)
  }

  ghost function Run(store: Store, steps: seq<Step>): Store
    decreases |steps|
  {
    if steps == [] then store else Run(Next(store, steps[0]).0, steps[1..])
  }

  /** The applications that the record action created along a run. */
  ghost function CreatedBy(store: Store, steps: seq<Step>): set<int>
    decreases |steps|
  {
    if steps == [] then {}
    else
      var (after, reply) := Next(store, steps[0]);
      (match reply
       case Some(Recorded(true, id, _)) => {id}
       case _ => {}) + CreatedBy(after, steps[1..])
  }

  // ---------- lookups under the invariant ----------

  lemma {:induction false} RowWithKeyIs(tables: Tables, id: int)
    requires KeysUnique(tables) && id in tables.applications
    ensures RowWithKey(tables, tables.applications[id].key) == Some(id)
  {
    assert IsRowOf(tables, tables.applications[id].key, id);
  }

  lemma {:induction false} SubmissionOfIs(tables: Tables, id: int)
    requires OneSubmissionEach(tables) && id in tables.submissions
    ensures SubmissionOf(tables, tables.submissions[id].applicationId) == Some(id)
  {
    assert IsSubmissionOf(tables, tables.submissions[id].applicationId, id);
  }

  lemma {:induction false} NoSubmission(tables: Tables, applicationId: int)
    requires SubmissionOf(tables, applicationId) == None
    ensures forall s :: s in tables.submissions ==> tables.submissions[s].applicationId != applicationId
  {
    forall s | s in tables.submissions
      ensures tables.submissions[s].applicationId != applicationId
    {
      assert !IsSubmissionOf(tables, applicationId, s);
    }
  }

  lemma {:induction false} NoRow(tables: Tables, key: ApplicationKey)
    requires RowWithKey(tables, key) == None
    ensures forall a :: a in tables.applications ==> tables.applications[a].key != key
  {
    forall a | a in tables.applications
      ensures tables.applications[a].key != key
    {
      assert !IsRowOf(tables, key, a);
    }
  }

  // ---------- the invariant over every run ----------

  lemma {:induction false} AddSubmissionKeepsConsistent(store: Store, id: int, created: bool, identity: Identity, request: SubmissionRequest)
    requires Consistent(store) && id in store.tables.applications
    requires store.tables.applications[id].key == identity.key
    requires SubmissionOf(store.tables, id) == None
    ensures Consistent(AddSubmission(store, id, created, identity, request).0)
  {
    NoSubmission(store.tables, id);
  }

  lemma {:induction false} AddApplicationKeepsConsistent(store: Store, row: Application)
    requires Consistent(store) && row.sha == Digest(row.snapshot) && RowWithKey(store.tables, row.key) == None
    ensures var id := store.nextApplicationId;
      var after := store.(tables := store.tables.(applications := store.tables.applications[id := row]), nextApplicationId := id + 1);
      Consistent(after) && SubmissionOf(after.tables, id) == None && id !in store.tables.applications
  {
    NoRow(store.tables, row.key);
    var id := store.nextApplicationId;
    forall s
      ensures !IsSubmissionOf(store.tables, id, s)
    {
    }
  }

  lemma {:induction false} RecordKeepsConsistent(store: Store, request: SubmissionRequest)
    requires Consistent(store)
    ensures Consistent(Record(store, request).0)
  {
    var identity := IdentityOf(store.tables, request);
    if identity.Success? {
      match RowWithKey(store.tables, identity.value.key)
      case None =>
        var row := NewApplication(identity.value, request);
        AddApplicationKeepsConsistent(store, row);
        var id := store.nextApplicationId;
        var with := store.(tables := store.tables.(applications := store.tables.applications[id := row]), nextApplicationId := id + 1);
        AddSubmissionKeepsConsistent(with, id, true, identity.value, request);
      case Some(id) =>
        assert IsRowOf(store.tables, identity.value.key, id);
        var drawn := store.(nextApplicationId := store.nextApplicationId + 1);
        if RowConflict(store.tables.applications[id], identity.value, request) == None && SubmissionOf(store.tables, id) == None {
          AddSubmissionKeepsConsistent(drawn, id, false, identity.value, request);
        }
    }
  }

  lemma {:induction false} RemoveKeepsConsistent(store: Store, request: RemovalRequest)
    requires Consistent(store)
    ensures Consistent(Remove(store, request).0)
  {
    var tables, id := store.tables, request.applicationId;
    if Remove(store, request).1.Removed? {
      var s := SubmissionOf(tables, id).value;
      assert IsSubmissionOf(tables, id, s);
      var after := Remove(store, request).0.tables;
      forall e | e in after.events
        ensures after.events[e].submissionId in after.submissions
      {
        assert e !in EventsOf(tables, s);
      }
      forall c | c in after.candidates && after.candidates[c].matchedApplicationId.Some?
        ensures after.candidates[c].matchedApplicationId.value in after.applications
      {
        assert after.candidates[c].matchedApplicationId == Some(id) ==> c in CandidatesOf(tables, id);
      }
    }
  }

  lemma {:induction false} MergeKeepsConsistent(store: Store, canonicalId: int, duplicateId: int)
    requires Consistent(store)
    ensures Consistent(Merge(store, canonicalId, duplicateId))
  {
    if SubmissionOf(store.tables, duplicateId) == None {
      NoSubmission(store.tables, duplicateId);
    }
  }

  lemma {:induction false} CleanUpKeepsConsistent(store: Store, cohort: set<int>)
    requires Consistent(store)
    ensures Consistent(CleanUp(store, cohort))
  {
    var tables, after := store.tables, CleanUp(store, cohort).tables;
    var ids := FalsePositives(tables, cohort);
    if |ids| == COHORT_SIZE && !HeldBySuperseded(tables, ids) {
      forall s | s in after.submissions
        ensures after.submissions[s].applicationId in after.applications
      {
        FalsePositiveHasNoSubmission(tables, cohort, s);
      }
    }
  }

  lemma {:induction false} FalsePositiveHasNoSubmission(tables: Tables, cohort: set<int>, s: int)
    requires s in tables.submissions
    ensures tables.submissions[s].applicationId !in FalsePositives(tables, cohort)
  {
    assert IsSubmissionOf(tables, tables.submissions[s].applicationId, s);
  }

  lemma {:induction false} StepKeepsConsistent(store: Store, step: Step)
    requires Consistent(store)
    ensures Consistent(Next(store, step).0)
  {
    match step
    case RecordStep(request) => RecordKeepsConsistent(store, request);
    case RemoveStep(request) => RemoveKeepsConsistent(store, request);
    case CorrectStep(request, now) => CorrectKeepsConsistent(store, request, now);
    case MailboxStep(row) => MailboxKeepsConsistent(store, row);
    case ApprovedStep(submission) => ApprovedKeepsConsistent(store, submission);
    case MergeStep(canonicalId, duplicateId) => MergeKeepsConsistent(store, canonicalId, duplicateId);
    case CleanupStep(cohort) => CleanUpKeepsConsistent(store, cohort);
    case _ => AttachmentKeepsConsistent(store, step);
  }

  lemma {:induction false} CorrectKeepsConsistent(store: Store, request: TitleRequest, now: int)
    requires Consistent(store)
    ensures Consistent(Correct(store, request, now).0)
  {
  }

  lemma {:induction false} MailboxKeepsConsistent(store: Store, row: Application)
    requires Consistent(store)
    ensures Consistent(AddMailbox(store, row))
  {
    if row.sha == Digest(row.snapshot) && RowWithKey(store.tables, row.key) == None {
      AddApplicationKeepsConsistent(store, row);
    }
  }

  lemma {:induction false} ApprovedKeepsConsistent(store: Store, submission: Submission)
    requires Consistent(store)
    ensures Consistent(AddApproved(store, submission))
  {
    if SubmissionOf(store.tables, submission.applicationId) == None { NoSubmission(store.tables, submission.applicationId); }
  }

  lemma {:induction false} AttachmentKeepsConsistent(store: Store, step: Step)
    requires Consistent(store) && (step.EvidenceStep? || step.EventStep? || step.SilverStep? || step.DraftStep? || step.SupersedeStep?)
    ensures Consistent(Next(store, step).0)
  {
  }

  /**
   * Over every run: application keys stay unique, each application has at most one submission, each
   * stored hash is that of its snapshot, and every reference between the tables resolves.
   */
  lemma {:induction false} RunKeepsConsistent(store: Store, steps: seq<Step>)
    requires Consistent(store)
    ensures Consistent(Run(store, steps))
    decreases |steps|
  {
    if steps != [] {
      StepKeepsConsistent(store, steps[0]);
      RunKeepsConsistent(Next(store, steps[0]).0, steps[1..]);
    }
  }

  /** The insert of a new submission never meets the unique index on idempotency keys. */
  lemma {:induction false} IdempotencyKeyIsFresh(store: Store, id: int, identity: Identity, request: SubmissionRequest)
    requires Consistent(store) && id in store.tables.applications
    requires store.tables.applications[id].key == identity.key
    requires SubmissionOf(store.tables, id) == None
    ensures forall s :: s in store.tables.submissions ==>
      store.tables.submissions[s].idempotencyKey != IdempotencyKeyOf(identity.key, request)
  {
    NoSubmission(store.tables, id);
  }

  // ---------- replay ----------

  /** The request is on record as this submission of this application. */
  ghost predicate RecordedAs(tables: Tables, request: SubmissionRequest, applicationId: int, submissionId: int) {
    && IdentityOf(tables, request).Success?
    && var identity := IdentityOf(tables, request).value;
       && IsRowOf(tables, identity.key, applicationId)
       && RowConflict(tables.applications[applicationId], identity, request) == None
       && IsSubmissionOf(tables, applicationId, submissionId)
       && SameSubmission(tables.submissions[submissionId], request, IdempotencyKeyOf(identity.key, request))
  }

  lemma {:induction false} FreshRecordEstablishes(store: Store, request: SubmissionRequest)
    requires Consistent(store) && Record(store, request).1.Recorded?
    ensures var (after, reply) := Record(store, request);
      RecordedAs(after.tables, request, reply.applicationId, reply.submissionId)
  {
    var identity := IdentityOf(store.tables, request).value;
    var drawn := store.(nextApplicationId := store.nextApplicationId + 1);
    match RowWithKey(store.tables, identity.key)
    case None =>
      var id := store.nextApplicationId;
      var row := NewApplication(identity, request);
      AddSubmissionEstablishes(drawn.(tables := store.tables.(applications := store.tables.applications[id := row])),
                               id, true, identity, request);
    case Some(id) => AddSubmissionEstablishes(drawn, id, false, identity, request);
  }

  lemma {:induction false} AddSubmissionEstablishes(store: Store, id: int, created: bool, identity: Identity, request: SubmissionRequest)
    requires IdentityOf(store.tables, request) == Success(identity) && IsRowOf(store.tables, identity.key, id)
    requires RowConflict(store.tables.applications[id], identity, request) == None
    ensures RecordedAs(AddSubmission(store, id, created, identity, request).0.tables, request, id, store.nextSubmissionId)
  {
  }

  lemma {:induction false} RepeatedRecordEstablishes(store: Store, request: SubmissionRequest)
    requires Consistent(store) && Record(store, request).1.AlreadyRecorded?
    ensures var (after, reply) := Record(store, request);
      after.tables == store.tables && RecordedAs(store.tables, request, reply.applicationId, reply.submissionId)
  {
  }

  /** A successful record, or a successful replay, leaves the request on record; anything else changes no table. */
  lemma {:induction false} RecordEstablishes(store: Store, request: SubmissionRequest)
    requires Consistent(store)
    ensures match Record(store, request).1
      case Recorded(_, a, s) => RecordedAs(Record(store, request).0.tables, request, a, s)
      case AlreadyRecorded(a, s) => RecordedAs(Record(store, request).0.tables, request, a, s)
      case _ => Record(store, request).0.tables == store.tables
  {
    OtherwiseNothingIsRecorded(store, request);
    match Record(store, request).1
    case Recorded(_, _, _) => FreshRecordEstablishes(store, request);
    case AlreadyRecorded(_, _) => RepeatedRecordEstablishes(store, request);
    case _ =>
  }

  /** A request on record is answered with the same ids and changes no table. */
  lemma {:induction false} ReplayChangesNothing(store: Store, request: SubmissionRequest, a: int, s: int)
    requires Consistent(store) && RecordedAs(store.tables, request, a, s)
    ensures Record(store, request).1 == AlreadyRecorded(a, s)
    ensures Record(store, request).0.tables == store.tables
  {
    RowWithKeyIs(store.tables, a);
    SubmissionOfIs(store.tables, s);
  }

  /** The step neither removes the submission of the application nor rewrites the silver row of the request. */
  ghost predicate Spares(store: Store, step: Step, request: SubmissionRequest, a: int) {
    match step
    case RemoveStep(removal) => removal.applicationId == a ==> !Remove(store, removal).1.Removed?
    case SilverStep(id, job) => request.silverJobId == Some(id) ==> id in store.tables.silver && store.tables.silver[id] == job
    case _ => true
  }

  /** What a recording adds to the tables. */
  lemma {:induction false} RecordShape(store: Store, request: SubmissionRequest)
    requires Consistent(store) && Record(store, request).1.Recorded?
    ensures var (recorded, reply) := Record(store, request);
      var a, s, t := reply.applicationId, reply.submissionId, recorded.tables;
      && s == store.nextSubmissionId && s !in store.tables.submissions
      && IsSubmissionOf(t, a, s) && t.submissions[s].authority == OperatorConfirmation
      && t.submissions[s].confirmedBy == request.confirmedBy
      && t.submissions - {s} == store.tables.submissions
      && t == store.tables.(applications := t.applications, submissions := t.submissions)
      && a in t.applications
      && (reply.created ==> a == store.nextApplicationId && a !in store.tables.applications
                            && Owned(t.applications[a]) && t.applications - {a} == store.tables.applications)
      && (!reply.created ==> t.applications == store.tables.applications)
  {
    var (recorded, reply) := Record(store, request);
    var a, s, t := reply.applicationId, reply.submissionId, recorded.tables;
    assert t.submissions - {s} == store.tables.submissions;
    if reply.created {
      assert t.applications - {a} == store.tables.applications;
    } else {
      assert IsRowOf(store.tables, IdentityOf(store.tables, request).value.key, a);
    }
  }

  lemma {:induction false} OtherwiseNothingIsRecorded(store: Store, request: SubmissionRequest)
    ensures !Record(store, request).1.Recorded? ==> Record(store, request).0.tables == store.tables
  {
  }

  /** Recording only adds rows. */
  lemma {:induction false} RecordOnlyAdds(store: Store, other: SubmissionRequest)
    requires Consistent(store)
    ensures var after := Record(store, other).0.tables;
      && after.silver == store.tables.silver && after.approvedDrafts == store.tables.approvedDrafts
      && (forall a :: a in store.tables.applications ==> a in after.applications && after.applications[a] == store.tables.applications[a])
      && (forall s :: s in store.tables.submissions ==> s in after.submissions && after.submissions[s] == store.tables.submissions[s])
  {
    OtherwiseNothingIsRecorded(store, other);
    if Record(store, other).1.Recorded? {
      RecordShape(store, other);
      var (after, reply) := Record(store, other);
      forall t | t in store.tables.submissions
        ensures t in after.tables.submissions && after.tables.submissions[t] == store.tables.submissions[t]
      {
        assert t in after.tables.submissions - {reply.submissionId};
      }
      forall a | a in store.tables.applications && reply.created
        ensures a in after.tables.applications && after.tables.applications[a] == store.tables.applications[a]
      {
        assert a in after.tables.applications - {reply.applicationId};
      }
    }
  }

  lemma {:induction false} RecordKeepsRecorded(store: Store, other: SubmissionRequest, request: SubmissionRequest, a: int, s: int)
    requires Consistent(store) && RecordedAs(store.tables, request, a, s)
    ensures RecordedAs(Record(store, other).0.tables, request, a, s)
  {
    RecordOnlyAdds(store, other);
  }

  lemma {:induction false} RemoveKeepsRecorded(store: Store, removal: RemovalRequest, request: SubmissionRequest, a: int, s: int)
    requires Consistent(store) && RecordedAs(store.tables, request, a, s)
    requires removal.applicationId != a
    ensures RecordedAs(Remove(store, removal).0.tables, request, a, s)
  {
    if Remove(store, removal).1.Removed? {
      var t := SubmissionOf(store.tables, removal.applicationId).value;
      assert IsSubmissionOf(store.tables, removal.applicationId, t);
    }
  }

  lemma {:induction false} StepKeepsRecorded(store: Store, step: Step, request: SubmissionRequest, a: int, s: int)
    requires Consistent(store) && RecordedAs(store.tables, request, a, s) && Spares(store, step, request, a)
    ensures RecordedAs(Next(store, step).0.tables, request, a, s)
  {
    match step
    case RecordStep(other) => RecordKeepsRecorded(store, other, request, a, s);
    case RemoveStep(removal) =>
      if removal.applicationId != a {
        RemoveKeepsRecorded(store, removal, request, a, s);
      } else {
        RefusedChangesNothing(store, removal);
      }
    case CorrectStep(title, now) => CorrectKeepsRecorded(store, title, now, request, a, s);
    case CleanupStep(cohort) => FalsePositiveHasNoSubmission(store.tables, cohort, s);
    case _ => OutsideStepKeepsRecorded(store, step, request, a, s);
  }

  lemma {:induction false} RefusedChangesNothing(store: Store, removal: RemovalRequest)
    ensures !Remove(store, removal).1.Removed? ==> Remove(store, removal).0 == store
  {
  }

  lemma {:induction false} CorrectKeepsRecorded(store: Store, title: TitleRequest, now: int, request: SubmissionRequest, a: int, s: int)
    requires RecordedAs(store.tables, request, a, s)
    ensures RecordedAs(Correct(store, title, now).0.tables, request, a, s)
  {
  }

  lemma {:induction false} OutsideStepKeepsRecorded(store: Store, step: Step, request: SubmissionRequest, a: int, s: int)
    requires Consistent(store) && RecordedAs(store.tables, request, a, s) && Spares(store, step, request, a)
    requires !step.RecordStep? && !step.RemoveStep? && !step.CorrectStep? && !step.CleanupStep?
    ensures RecordedAs(Next(store, step).0.tables, request, a, s)
  {
  }

  ghost predicate SparesRun(store: Store, steps: seq<Step>, request: SubmissionRequest, a: int)
    decreases |steps|
  {
    steps == [] || (Spares(store, steps[0], request, a) && SparesRun(Next(store, steps[0]).0, steps[1..], request, a))
  }

  /**
   * After any run of corrections, evidence, lifecycle events, merges and actions on other
   * applications, replaying a recorded request returns the same ids and changes nothing.
   */
  lemma {:induction false} ReplayAfterRun(store: Store, steps: seq<Step>, request: SubmissionRequest, a: int, s: int)
    requires Consistent(store) && RecordedAs(store.tables, request, a, s)
    requires SparesRun(store, steps, request, a)
    ensures var after := Run(store, steps);
      && RecordedAs(after.tables, request, a, s)
      && Record(after, request).1 == AlreadyRecorded(a, s)
      && Record(after, request).0.tables == after.tables
    decreases |steps|
  {
    if steps == [] {
      ReplayChangesNothing(store, request, a, s);
    } else {
      StepKeepsConsistent(store, steps[0]);
      StepKeepsRecorded(store, steps[0], request, a, s);
      ReplayAfterRun(Next(store, steps[0]).0, steps[1..], request, a, s);
    }
  }

  /**
   * A second request for the same application is taken for a replay exactly when it agrees with the
   * recorded one in identity, time, precision, channel, reference and operator; otherwise it is
   * rejected, and either way no table changes.
   */
  lemma {:induction false} SecondRequestReplaysOrIsRejected(
    store: Store, request: SubmissionRequest, second: SubmissionRequest, a: int, s: int)
    requires Consistent(store) && RecordedAs(store.tables, request, a, s)
    requires IdentityOf(store.tables, second).Success?
    requires IdentityOf(store.tables, second).value.key == IdentityOf(store.tables, request).value.key
    ensures var (after, reply) := Record(store, second);
      && after.tables == store.tables
      && (reply == AlreadyRecorded(a, s) <==>
            && IdentityOf(store.tables, second).value.snapshot == IdentityOf(store.tables, request).value.snapshot
            && (second.submittedAt, second.precision, second.channel, second.authorityReference, second.confirmedBy)
               == (request.submittedAt, request.precision, request.channel, request.authorityReference, request.confirmedBy))
      && (reply != AlreadyRecorded(a, s) ==> reply == Rejected(JobIdentityChanged) || reply == Rejected(SubmissionAlreadyRecorded))
  {
    RowWithKeyIs(store.tables, a);
    SubmissionOfIs(store.tables, s);
  }

  /** A silver row that changed since the recording makes the replay fail, again without a change. */
  lemma {:induction false} ChangedSilverRowIsRejected(store: Store, request: SubmissionRequest, a: int, s: int, id: int, job: SilverJob)
    requires Consistent(store) && RecordedAs(store.tables, request, a, s)
    requires request.silverJobId == Some(id) && store.tables.silver[id] != job
    ensures var changed := Next(store, SilverStep(id, job)).0;
      Record(changed, request).1 == Rejected(JobIdentityChanged) && Record(changed, request).0.tables == changed.tables
  {
    var changed := Next(store, SilverStep(id, job)).0;
    StepKeepsConsistent(store, SilverStep(id, job));
    RowWithKeyIs(changed.tables, a);
    SnapshotsDiffer(id, store.tables.silver[id], job);
  }

  /** The snapshot of a silver row determines the row. */
  lemma {:induction false} SnapshotsDiffer(id: int, a: SilverJob, b: SilverJob)
    requires a != b
    ensures JobSnapshot(id, a) != JobSnapshot(id, b)
  {
    if JobSnapshot(id, a) == JobSnapshot(id, b) { SnapshotDetermines(id, a, b); }
  }

  lemma {:induction false} SnapshotDetermines(id: int, a: SilverJob, b: SilverJob)
    requires JobSnapshot(id, a) == JobSnapshot(id, b)
    ensures a == b
  {
    var x, y := JobSnapshot(id, a), JobSnapshot(id, b);
    assert x["source_name"] == y["source_name"] && x["external_job_id"] == y["external_job_id"];
    assert x["source_url"] == y["source_url"] && x["title"] == y["title"] && x["company_name"] == y["company_name"];
    assert x["city"] == y["city"] && x["postal_code"] == y["postal_code"] && x["country"] == y["country"];
    assert x["publication_date"] == y["publication_date"];
  }

  // ---------- removal ----------

  lemma {:induction false} NoEventsMeans(tables: Tables, s: int)
    ensures EventsOf(tables, s) == {} <==> forall e :: e in tables.events ==> tables.events[e].submissionId != s
  {
    var events := EventsOf(tables, s);
    assert forall e :: e in tables.events && tables.events[e].submissionId == s ==> e in events;
    if forall e :: e in tables.events ==> tables.events[e].submissionId != s {
      assert events == {};
    }
  }

  lemma {:induction false} NothingAttachedYet(store: Store)
    requires Consistent(store)
    ensures EventsOf(store.tables, store.nextSubmissionId) == {}
    ensures CandidatesOf(store.tables, store.nextApplicationId) == {}
  {
    NoEventsMeans(store.tables, store.nextSubmissionId);
    var candidates := CandidatesOf(store.tables, store.nextApplicationId);
    forall c | c in store.tables.candidates
      ensures store.tables.candidates[c].matchedApplicationId != Some(store.nextApplicationId)
    {
    }
    assert candidates == {};
  }

  /**
   * A removal right after a recording restores every table, with one exception: an application that
   * the recording found, rather than created, is deleted all the same if it is owned and has no
   * evidence.
   */
  lemma {:induction false} RemoveUndoesRecord(store: Store, request: SubmissionRequest)
    requires Consistent(store) && Record(store, request).1.Recorded?
    ensures var (recorded, reply) := Record(store, request);
      var a := reply.applicationId;
      var (removed, answer) := Remove(recorded, RemovalRequest(a, request.confirmedBy));
      && answer.Removed?
      && answer.applicationDeleted == (Owned(recorded.tables.applications[a]) && CandidatesOf(store.tables, a) == {})
      && (removed.tables == store.tables <==>
            reply.created || !Owned(recorded.tables.applications[a]) || CandidatesOf(store.tables, a) != {})
      && removed.tables.submissions == store.tables.submissions
      && removed.tables.candidates == store.tables.candidates && removed.tables.events == store.tables.events
  {
    var (recorded, reply) := Record(store, request);
    RecordKeepsConsistent(store, request);
    RecordShape(store, request);
    NothingAttachedYet(store);
    var a, s := reply.applicationId, reply.submissionId;
    SubmissionOfIs(recorded.tables, s);
    assert EventsOf(recorded.tables, s) == EventsOf(store.tables, s);
    assert CandidatesOf(recorded.tables, a) == CandidatesOf(store.tables, a);
  }

  /** An owned application is no mailbox row, and has a submission or at least evidence. */
  ghost predicate OwnedAnchored(tables: Tables) {
    forall a | a in tables.applications && Owned(tables.applications[a]) ::
      && tables.applications[a].kind != MailboxObserved
      && (SubmissionOf(tables, a).Some? || CandidatesOf(tables, a) != {})
  }

  lemma {:induction false} StillSubmitted(before: Tables, after: Tables, a: int)
    requires SubmissionOf(before, a).Some?
    requires forall s :: IsSubmissionOf(before, a, s) ==> IsSubmissionOf(after, a, s)
    ensures SubmissionOf(after, a).Some?
  {
    assert IsSubmissionOf(after, a, SubmissionOf(before, a).value);
  }

  lemma {:induction false} StillEvidenced(before: Tables, after: Tables, a: int)
    requires CandidatesOf(before, a) != {}
    requires forall c :: c in CandidatesOf(before, a) ==>
      c in after.candidates && after.candidates[c].matchedApplicationId == Some(a)
    ensures CandidatesOf(after, a) != {}
  {
    forall c | c in CandidatesOf(before, a)
      ensures c in CandidatesOf(after, a)
    {
    }
    assert CandidatesOf(before, a) <= CandidatesOf(after, a);
  }

  lemma {:induction false} StepKeepsAnchored(store: Store, step: Step)
    requires Consistent(store) && OwnedAnchored(store.tables)
    ensures OwnedAnchored(Next(store, step).0.tables)
  {
    var before, after := store.tables, Next(store, step).0.tables;
    forall a | a in after.applications && Owned(after.applications[a])
      ensures after.applications[a].kind != MailboxObserved && (SubmissionOf(after, a).Some? || CandidatesOf(after, a) != {})
    {
      OwnedRowStaysAnchored(store, step, a);
    }
  }

  lemma {:induction false} RecordedRowStaysAnchored(store: Store, request: SubmissionRequest, a: int)
    requires Consistent(store) && OwnedAnchored(store.tables)
    requires var after := Record(store, request).0.tables; a in after.applications && Owned(after.applications[a])
    ensures var after := Record(store, request).0.tables;
      after.applications[a].kind != MailboxObserved && (SubmissionOf(after, a).Some? || CandidatesOf(after, a) != {})
  {
    OtherwiseNothingIsRecorded(store, request);
    if Record(store, request).1.Recorded? {
      RecordShape(store, request);
      RecordOnlyAdds(store, request);
      var (after, reply) := Record(store, request);
      if a == reply.applicationId {
        assert IsSubmissionOf(after.tables, a, reply.submissionId);
        OwnedKindOfRecord(store, request);
      } else {
        AnchorCarriesOver(store.tables, after.tables, a);
      }
    }
  }

  lemma {:induction false} RemainingRowStaysAnchored(store: Store, request: RemovalRequest, a: int)
    requires Consistent(store) && OwnedAnchored(store.tables)
    requires var after := Remove(store, request).0.tables; a in after.applications && Owned(after.applications[a])
    ensures var after := Remove(store, request).0.tables;
      after.applications[a].kind != MailboxObserved && (SubmissionOf(after, a).Some? || CandidatesOf(after, a) != {})
  {
    var after := Remove(store, request).0.tables;
    RemoveTouchesOneSubmission(store, request);
    if a != request.applicationId {
      AnchorCarriesOver(store.tables, after, a);
    } else {
      assert CandidatesOf(after, a) == CandidatesOf(store.tables, a);
    }
  }

  lemma {:induction false} MergedRowStaysAnchored(store: Store, canonicalId: int, duplicateId: int, a: int)
    requires Consistent(store) && OwnedAnchored(store.tables)
    requires var after := Merge(store, canonicalId, duplicateId).tables; a in after.applications && Owned(after.applications[a])
    ensures var after := Merge(store, canonicalId, duplicateId).tables;
      after.applications[a].kind != MailboxObserved && (SubmissionOf(after, a).Some? || CandidatesOf(after, a) != {})
  {
    AnchorCarriesOver(store.tables, Merge(store, canonicalId, duplicateId).tables, a);
  }

  lemma {:induction false} OwnedRowStaysAnchored(store: Store, step: Step, a: int)
    requires Consistent(store) && OwnedAnchored(store.tables)
    requires var after := Next(store, step).0.tables; a in after.applications && Owned(after.applications[a])
    ensures var after := Next(store, step).0.tables;
      after.applications[a].kind != MailboxObserved && (SubmissionOf(after, a).Some? || CandidatesOf(after, a) != {})
  {
    var before, after := store.tables, Next(store, step).0.tables;
    match step
    case RecordStep(request) => RecordedRowStaysAnchored(store, request, a);
    case RemoveStep(request) => RemainingRowStaysAnchored(store, request, a);
    case MergeStep(canonicalId, duplicateId) => MergedRowStaysAnchored(store, canonicalId, duplicateId, a);
    case MailboxStep(row) => RowStepStaysAnchored(store, step, a);
    case CorrectStep(title, now) => RowStepStaysAnchored(store, step, a);
    case EvidenceStep(id, candidate) => AttachedStepStaysAnchored(store, step, a);
    case EventStep(id, event) => AttachedStepStaysAnchored(store, step, a);
    case ApprovedStep(submission) => AttachedStepStaysAnchored(store, step, a);
    case SilverStep(id, job) => AnchorCarriesOver(before, after, a);
    case DraftStep(id, draft) => AnchorCarriesOver(before, after, a);
    case SupersedeStep(id) => AnchorCarriesOver(before, after, a);
    case CleanupStep(cohort) => SparedRowStaysAnchored(store, cohort, a);
  }

  lemma {:induction false} SparedRowStaysAnchored(store: Store, cohort: set<int>, a: int)
    requires Consistent(store) && OwnedAnchored(store.tables)
    requires var after := CleanUp(store, cohort).tables; a in after.applications && Owned(after.applications[a])
    ensures var after := CleanUp(store, cohort).tables;
      after.applications[a].kind != MailboxObserved && (SubmissionOf(after, a).Some? || CandidatesOf(after, a) != {})
  {
    AnchorCarriesOver(store.tables, CleanUp(store, cohort).tables, a);
  }

  lemma {:induction false} RowStepStaysAnchored(store: Store, step: Step, a: int)
    requires Consistent(store) && OwnedAnchored(store.tables) && (step.MailboxStep? || step.CorrectStep?)
    requires var after := Next(store, step).0.tables; a in after.applications && Owned(after.applications[a])
    ensures var after := Next(store, step).0.tables;
      after.applications[a].kind != MailboxObserved && (SubmissionOf(after, a).Some? || CandidatesOf(after, a) != {})
  {
    var after := Next(store, step).0.tables;
    if step.MailboxStep? {
      OwnedBeforeMailbox(store, step.row, a);
    } else {
      OwnedBeforeCorrection(store, step.title, step.now, a);
    }
    RowsAloneChange(store, step);
    SameAttachments(store.tables, after, a);
    AnchorCarriesOver(store.tables, after, a);
  }

  lemma {:induction false} RowsAloneChange(store: Store, step: Step)
    requires step.MailboxStep? || step.CorrectStep?
    ensures Next(store, step).0.tables.submissions == store.tables.submissions
    ensures Next(store, step).0.tables.candidates == store.tables.candidates
  {
  }

  lemma {:induction false} SameAttachments(before: Tables, after: Tables, a: int)
    requires after.submissions == before.submissions && after.candidates == before.candidates
    ensures forall s :: IsSubmissionOf(before, a, s) ==> IsSubmissionOf(after, a, s)
    ensures forall c :: c in CandidatesOf(before, a) ==>
      c in after.candidates && after.candidates[c].matchedApplicationId == Some(a)
  {
  }

  lemma {:induction false} OwnedBeforeMailbox(store: Store, row: Application, a: int)
    requires Consistent(store)
    requires var after := AddMailbox(store, row).tables; a in after.applications && Owned(after.applications[a])
    ensures a in store.tables.applications && AddMailbox(store, row).tables.applications[a] == store.tables.applications[a]
  {
  }

  lemma {:induction false} OwnedBeforeCorrection(store: Store, request: TitleRequest, now: int, a: int)
    requires OwnedAnchored(store.tables)
    requires var after := Correct(store, request, now).0.tables; a in after.applications && Owned(after.applications[a])
    ensures a in store.tables.applications && Owned(store.tables.applications[a])
    ensures Correct(store, request, now).0.tables.applications[a].kind == store.tables.applications[a].kind
  {
  }

  lemma {:induction false} AttachedStepStaysAnchored(store: Store, step: Step, a: int)
    requires Consistent(store) && OwnedAnchored(store.tables)
    requires step.EvidenceStep? || step.EventStep? || step.ApprovedStep?
    requires var after := Next(store, step).0.tables; a in after.applications && Owned(after.applications[a])
    ensures var after := Next(store, step).0.tables;
      after.applications[a].kind != MailboxObserved && (SubmissionOf(after, a).Some? || CandidatesOf(after, a) != {})
  {
    AnchorCarriesOver(store.tables, Next(store, step).0.tables, a);
  }

  lemma {:induction false} OwnedKindOfRecord(store: Store, request: SubmissionRequest)
    requires Consistent(store) && OwnedAnchored(store.tables) && Record(store, request).1.Recorded?
    ensures var (after, reply) := Record(store, request);
      after.tables.applications[reply.applicationId].kind != MailboxObserved
  {
    RecordEstablishes(store, request);
  }

  lemma {:induction false} AnchorCarriesOver(before: Tables, after: Tables, a: int)
    requires OwnedAnchored(before) && a in before.applications && a in after.applications
    requires Owned(before.applications[a]) && after.applications[a].kind == before.applications[a].kind
    requires forall s :: IsSubmissionOf(before, a, s) ==> IsSubmissionOf(after, a, s)
    requires forall c :: c in CandidatesOf(before, a) ==>
      c in after.candidates && after.candidates[c].matchedApplicationId == Some(a)
    ensures after.applications[a].kind != MailboxObserved && (SubmissionOf(after, a).Some? || CandidatesOf(after, a) != {})
  {
    if SubmissionOf(before, a).Some? {
      StillSubmitted(before, after, a);
    } else {
      StillEvidenced(before, after, a);
    }
  }

  /**
   * On every run, a removal right after a recording restores every table: the exception above cannot
   * arise, because an owned application without submission always has evidence.
   */
  lemma {:induction false} RemoveUndoesRecordOnEveryRun(store: Store, steps: seq<Step>, request: SubmissionRequest)
    requires Consistent(store) && OwnedAnchored(store.tables)
    requires Record(Run(store, steps), request).1.Recorded?
    ensures var (recorded, reply) := Record(Run(store, steps), request);
      Remove(recorded, RemovalRequest(reply.applicationId, request.confirmedBy)).0.tables == Run(store, steps).tables
    decreases |steps|
  {
    if steps == [] {
      RemoveUndoesRecord(store, request);
      var (recorded, reply) := Record(store, request);
      RecordShape(store, request);
      if !reply.created {
        FoundWithoutSubmission(store, request);
      }
    } else {
      StepKeepsConsistent(store, steps[0]);
      StepKeepsAnchored(store, steps[0]);
      RemoveUndoesRecordOnEveryRun(Next(store, steps[0]).0, steps[1..], request);
    }
  }

  lemma {:induction false} FoundWithoutSubmission(store: Store, request: SubmissionRequest)
    requires Consistent(store) && Record(store, request).1.Recorded? && !Record(store, request).1.created
    ensures SubmissionOf(store.tables, Record(store, request).1.applicationId) == None
  {
  }

  /** Removal is refused exactly in the guarded cases, and whatever it does, all other rows stay. */
  lemma {:induction false} RemoveTouchesOneSubmission(store: Store, request: RemovalRequest)
    requires Consistent(store)
    ensures var (after, reply) := Remove(store, request);
      var a := request.applicationId;
      && after.tables.events == store.tables.events && after.tables.candidates == store.tables.candidates
      && (!reply.Removed? ==> after == store)
      && (reply.Removed? <==> exists s ::
            && IsSubmissionOf(store.tables, a, s)
            && store.tables.submissions[s].authority == OperatorConfirmation
            && store.tables.submissions[s].confirmedBy == request.confirmedBy
            && forall e :: e in store.tables.events ==> store.tables.events[e].submissionId != s)
      && (forall t :: t in store.tables.submissions && store.tables.submissions[t].applicationId != a ==>
            t in after.tables.submissions && after.tables.submissions[t] == store.tables.submissions[t])
      && (forall b :: b in store.tables.applications && (b != a || CandidatesOf(store.tables, a) != {}) ==>
            b in after.tables.applications && after.tables.applications[b] == store.tables.applications[b])
  {
    var tables, a := store.tables, request.applicationId;
    if SubmissionOf(tables, a).Some? {
      var s := SubmissionOf(tables, a).value;
      assert IsSubmissionOf(tables, a, s);
      forall t | IsSubmissionOf(tables, a, t)
        ensures t == s
      {
      }
      NoEventsMeans(tables, s);
    } else {
      NoSubmission(tables, a);
    }
  }

  /** Removing twice: idempotent when the application went too, an error when it was retained. */
  lemma {:induction false} SecondRemove(store: Store, request: RemovalRequest)
    requires Consistent(store) && Remove(store, request).1.Removed?
    ensures var (after, reply) := Remove(store, request);
      Remove(after, request) == (after,
        if reply.applicationDeleted then AlreadyRemoved(request.applicationId) else Rejected(ConfirmationNotPresent))
  {
    var after := Remove(store, request).0;
    var s := SubmissionOf(store.tables, request.applicationId).value;
    assert IsSubmissionOf(store.tables, request.applicationId, s);
    forall t
      ensures !IsSubmissionOf(after.tables, request.applicationId, t)
    {
    }
  }

  /** Every owned application in the tables was created by the record action. */
  ghost predicate OwnedAmong(tables: Tables, created: set<int>) {
    forall a :: a in tables.applications && Owned(tables.applications[a]) ==> a in created
  }

  lemma {:induction false} RecordKeepsOwned(store: Store, request: SubmissionRequest, created: set<int>)
    requires OwnedAmong(store.tables, created)
    ensures var (after, reply) := Record(store, request);
      OwnedAmong(after.tables, created + match reply case Recorded(true, id, _) => {id} case _ => {})
  {
  }

  lemma {:induction false} StepKeepsOwned(store: Store, step: Step, created: set<int>)
    requires OwnedAmong(store.tables, created)
    ensures OwnedAmong(Next(store, step).0.tables, created + CreatedBy(store, [step]))
  {
    assert [step][1..] == [];
    if step.RecordStep? {
      RecordKeepsOwned(store, step.submission, created);
    } else {
      OtherStepKeepsOwned(store, step, created);
    }
  }

  lemma {:induction false} OtherStepKeepsOwned(store: Store, step: Step, created: set<int>)
    requires OwnedAmong(store.tables, created) && !step.RecordStep?
    ensures OwnedAmong(Next(store, step).0.tables, created)
  {
  }

  /** On every run, an application that a removal deletes had been created by the record action. */
  lemma {:induction false} RemoveDeletesOnlyCreated(store: Store, created: set<int>, steps: seq<Step>, request: RemovalRequest)
    requires OwnedAmong(store.tables, created)
    ensures OwnedAmong(Run(store, steps).tables, created + CreatedBy(store, steps))
    ensures var after := Run(store, steps);
      forall a :: a in after.tables.applications && a !in Remove(after, request).0.tables.applications ==>
        a in created + CreatedBy(store, steps)
    decreases |steps|
  {
    if steps != [] {
      var after := Next(store, steps[0]).0;
      StepKeepsOwned(store, steps[0], created);
      assert [steps[0]][1..] == [];
      RemoveDeletesOnlyCreated(after, created + CreatedBy(store, [steps[0]]), steps[1..], request);
      assert CreatedBy(store, steps) == CreatedBy(store, [steps[0]]) + CreatedBy(after, steps[1..]);
    }
  }

  // ---------- the audited clean-up ----------

  /**
   * The clean-up takes effect exactly for a full cohort that no superseded evidence holds. Then it deletes just these
   * rows and frees their evidence; every other application keeps its row, its submission and its evidence, and
   * another clean-up does nothing more.
   */
  lemma {:induction false} CleanUpIsExact(store: Store, cohort: set<int>)
    requires Consistent(store)
    ensures var before, after, ids := store.tables, CleanUp(store, cohort).tables, FalsePositives(store.tables, cohort);
      && (after.applications != before.applications <==> |ids| == COHORT_SIZE && !HeldBySuperseded(before, ids))
      && (after.applications == before.applications ==> after == before)
      && (after.applications != before.applications ==>
            && after.applications.Keys == before.applications.Keys - ids
            && (forall a :: a in ids ==> CandidatesOf(after, a) == {}))
      && (forall a :: a in after.applications ==>
            after.applications[a] == before.applications[a] && CandidatesOf(after, a) == CandidatesOf(before, a))
      && after.submissions == before.submissions && after.events == before.events
      && after.candidates.Keys == before.candidates.Keys
      && CleanUp(CleanUp(store, cohort), cohort) == CleanUp(store, cohort)
  {
    var before, ids := store.tables, FalsePositives(store.tables, cohort);
    if |ids| == COHORT_SIZE && !HeldBySuperseded(before, ids) {
      CleanUpDeletes(store, cohort);
      CleanUpFreesEvidence(store, cohort);
    }
  }

  lemma {:induction false} CleanUpDeletes(store: Store, cohort: set<int>)
    requires var ids := FalsePositives(store.tables, cohort); |ids| == COHORT_SIZE && !HeldBySuperseded(store.tables, ids)
    ensures var before, after, ids := store.tables, CleanUp(store, cohort).tables, FalsePositives(store.tables, cohort);
      && after.applications == before.applications - ids && after.applications != before.applications
      && CleanUp(CleanUp(store, cohort), cohort) == CleanUp(store, cohort)
  {
    var before, after, ids := store.tables, CleanUp(store, cohort).tables, FalsePositives(store.tables, cohort);
    var a :| a in ids;
    assert a in before.applications && a !in after.applications;
    forall b | IsFalsePositive(after, b)
      ensures IsFalsePositive(before, b)
    {
      NoneLikewise(before, after, b);
    }
    assert FalsePositives(after, cohort) == {};
  }

  lemma {:induction false} NoneLikewise(before: Tables, after: Tables, a: int)
    requires after.submissions == before.submissions && SubmissionOf(after, a) == None
    ensures SubmissionOf(before, a) == None
  {
    forall s
      ensures !IsSubmissionOf(before, a, s)
    {
      assert !IsSubmissionOf(after, a, s);
    }
  }

  lemma {:induction false} CleanUpFreesEvidence(store: Store, cohort: set<int>)
    requires var ids := FalsePositives(store.tables, cohort); |ids| == COHORT_SIZE && !HeldBySuperseded(store.tables, ids)
    ensures var before, after, ids := store.tables, CleanUp(store, cohort).tables, FalsePositives(store.tables, cohort);
      && after.candidates.Keys == before.candidates.Keys
      && forall a :: CandidatesOf(after, a) == if a in ids then {} else CandidatesOf(before, a)
  {
    var before, after, ids := store.tables, CleanUp(store, cohort).tables, FalsePositives(store.tables, cohort);
    forall a
      ensures CandidatesOf(after, a) == if a in ids then {} else CandidatesOf(before, a)
    {
      forall c | c in before.candidates
        ensures c in CandidatesOf(after, a) <==> c in CandidatesOf(before, a) && a !in ids
      {
        assert before.candidates[c].active || !MatchedAmong(before.candidates[c], ids);
      }
    }
  }

  // ---------- title correction ----------

  /** Filling in a title keeps the employer, so repeating the correction finds it already correct. */
  lemma {:induction false} CorrectionIsIdempotent(store: Store, request: TitleRequest, now: int, later: int)
    requires Correct(store, request, now).1.Corrected? && !Blank(request.jobTitle)
    ensures var after := Correct(store, request, now).0;
      Correct(after, request, later) == (after, AlreadyCorrect(request.applicationId))
  {
    var row := store.tables.applications[request.applicationId];
    var next := WithTitle(row, request, now);
    FirstTruthySame(row.snapshot, next.snapshot, ["employer_name", "company_name", "company"]);
    assert next.snapshot["job_title"] == Str(request.jobTitle);
  }

  lemma {:induction false} FirstTruthySame(a: Snapshot, b: Snapshot, keys: seq<string>)
    requires forall k :: k in keys ==> (k in a <==> k in b) && (k in a ==> a[k] == b[k])
    ensures FirstTruthy(a, keys) == FirstTruthy(b, keys)
  {
    if keys != [] { FirstTruthySame(a, b, keys[1..]); }
  }

  /** A title once present is never replaced by a different one, and nothing but the row changes. */
  lemma {:induction false} CorrectionFillsOnlyMissingTitles(store: Store, request: TitleRequest, now: int)
    ensures var (after, reply) := Correct(store, request, now);
      && (reply.Corrected? ==>
            && store.tables.applications[request.applicationId].kind == MailboxObserved
            && Blank(TitleOf(store.tables.applications[request.applicationId].snapshot)))
      && (!reply.Corrected? ==> after == store)
      && after.tables.submissions == store.tables.submissions
      && after.tables.applications.Keys == store.tables.applications.Keys
      && forall b :: b in store.tables.applications && b != request.applicationId ==>
           after.tables.applications[b] == store.tables.applications[b]
  {
  }
}
