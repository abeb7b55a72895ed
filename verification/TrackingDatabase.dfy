/** The operator actions as transactions on the tracking tables. */
module TrackingDatabase {
  import opened Wrappers
  import opened Text
  import opened TrackingModel
  import TrackingRuns

  class Database {
    var applications: map<int, Application>
    var submissions: map<int, Submission>
    var events: map<int, LifecycleEvent>
    var candidates: map<int, EventCandidate>
    var silver: map<int, SilverJob>
    var approvedDrafts: map<int, int>
    var nextApplicationId: int
    var nextSubmissionId: int

    ghost function Contents(): Store
      reads this
    {
      Store(Tables(applications, submissions, events, candidates, silver, approvedDrafts), nextApplicationId, nextSubmissionId)
    }

    /** Empty tracking tables over the given silver jobs and drafts. */
    constructor (silver: map<int, SilverJob>, approvedDrafts: map<int, int>)
      ensures Contents() == Store(Tables(map[], map[], map[], map[], silver, approvedDrafts), 1, 1)
      ensures Consistent(Contents()) && TrackingRuns.OwnedAnchored(Contents().tables)
    {
      applications, submissions, events, candidates := map[], map[], map[], map[];
      this.silver, this.approvedDrafts := silver, approvedDrafts;
      nextApplicationId, nextSubmissionId := 1, 1;
    }

    /** `SELECT id FROM applications WHERE application_key = ...` */
    method SelectByKey(key: ApplicationKey) returns (row: Option<int>)
      requires Consistent(Contents())
      ensures row == RowWithKey(Contents().tables, key)
    {
      if id :| id in applications && applications[id].key == key {
        assert IsRowOf(Contents().tables, key, id);
        return Some(id);
      }
      assert forall id :: !IsRowOf(Contents().tables, key, id);
      return None;
    }

    /** `SELECT id FROM application_submissions WHERE application_id = ...` */
    method SelectSubmission(applicationId: int) returns (row: Option<int>)
      requires OneSubmissionEach(Contents().tables)
      ensures row == SubmissionOf(Contents().tables, applicationId)
    {
      if id :| id in submissions && submissions[id].applicationId == applicationId {
        assert IsSubmissionOf(Contents().tables, applicationId, id);
        return Some(id);
      }
      assert forall id :: !IsSubmissionOf(Contents().tables, applicationId, id);
      return None;
    }

    /** `INSERT INTO applications ... ON CONFLICT (application_key) DO NOTHING`; the sequence moves either way. */
    method InsertApplication(row: Application) returns (inserted: bool)
      requires Consistent(Contents()) && row.sha == Digest(row.snapshot)
      modifies this`applications, this`nextApplicationId
      ensures Consistent(Contents())
      ensures inserted == (RowWithKey(old(Contents()).tables, row.key) == None)
      ensures nextApplicationId == old(nextApplicationId) + 1
      ensures applications == if inserted then old(applications)[old(nextApplicationId) := row] else old(applications)
      ensures inserted ==> SubmissionOf(Contents().tables, old(nextApplicationId)) == None
      ensures inserted ==> RowWithKey(Contents().tables, row.key) == Some(old(nextApplicationId))
    {
      var conflict := SelectByKey(row.key);
      inserted := conflict == None;
      if inserted {
        TrackingRuns.AddApplicationKeepsConsistent(Contents(), row);
        applications := applications[nextApplicationId := row];
      }
      ghost var id := nextApplicationId;
      nextApplicationId := nextApplicationId + 1;
      if inserted { TrackingRuns.RowWithKeyIs(Contents().tables, id); }
    }

    /** `record_operator_confirmed_submission` for a submission request. */
    method RecordSubmission(request: SubmissionRequest) returns (reply: Reply)
      requires Consistent(Contents())
      modifies this
      ensures (Contents(), reply) == Record(old(Contents()), request)
      ensures Consistent(Contents())
    {
      ghost var before := Contents();
      TrackingRuns.RecordKeepsConsistent(before, request);
      var resolved := IdentityOf(Tables(applications, submissions, events, candidates, silver, approvedDrafts), request);
      if resolved.Failure? { return Rejected(resolved.error); }
      var identity := resolved.value;

      var savedApplications := applications;
      var inserted := InsertApplication(NewApplication(identity, request));
      var found := SelectByKey(identity.key);
      var id := found.value;
      assert IsRowOf(Contents().tables, identity.key, id);
      var conflict := RowConflict(applications[id], identity, request);
      RecordConflicts(before, Contents(), request, identity, inserted, id);
      if conflict.Some? {
        applications := savedApplications;
        return Rejected(conflict.value);
      }
      RecordSplits(before, Contents(), request, identity, inserted, id);
      reply := SubmitFor(id, inserted, identity, request);
      if reply.Rejected? {
        applications := savedApplications;
      }
    }

    /** The second half of the transaction: compare with the submission on record, or insert one. */
    method SubmitFor(id: int, created: bool, identity: Identity, request: SubmissionRequest) returns (reply: Reply)
      requires Consistent(Contents()) && id in applications && applications[id].key == identity.key
      modifies this`submissions, this`nextSubmissionId
      ensures match SubmissionOf(old(Contents()).tables, id)
        case None => (Contents(), reply) == AddSubmission(old(Contents()), id, created, identity, request)
        case Some(s) =>
          && Contents() == old(Contents())
          && reply == if SameSubmission(submissions[s], request, IdempotencyKeyOf(identity.key, request))
                      then AlreadyRecorded(id, s) else Rejected(SubmissionAlreadyRecorded)
    {
      var existing := SelectSubmission(id);
      if existing.Some? {
        var s := existing.value;
        assert IsSubmissionOf(Contents().tables, id, s);
        if SameSubmission(submissions[s], request, IdempotencyKeyOf(identity.key, request)) {
          return AlreadyRecorded(id, s);
        }
        return Rejected(SubmissionAlreadyRecorded);
      }
      TrackingRuns.IdempotencyKeyIsFresh(Contents(), id, identity, request);
      var row := NewSubmission(id, identity, request);
      assert forall s :: s in submissions ==> submissions[s].idempotencyKey != row.idempotencyKey;
      submissions := submissions[nextSubmissionId := row];
      reply := Recorded(created, id, nextSubmissionId);
      nextSubmissionId := nextSubmissionId + 1;
    }

    /** `remove_operator_submission_confirmation` */
    method RemoveConfirmation(request: RemovalRequest) returns (reply: Reply)
      requires Consistent(Contents())
      modifies this`applications, this`submissions
      ensures (Contents(), reply) == Remove(old(Contents()), request)
      ensures Consistent(Contents())
    {
      TrackingRuns.RemoveKeepsConsistent(Contents(), request);
      var id := request.applicationId;
      if id !in applications { return AlreadyRemoved(id); }
      var found := SelectSubmission(id);
      if found == None { return Rejected(ConfirmationNotPresent); }
      var s := found.value;
      assert IsSubmissionOf(Contents().tables, id, s);
      if submissions[s].authority != OperatorConfirmation { return Rejected(NotOperatorConfirmation); }
      if submissions[s].confirmedBy != request.confirmedBy { return Rejected(OwnerMismatch); }
      var history := set e | e in events && events[e].submissionId == s;
      assert history == EventsOf(Contents().tables, s);
      if history != {} { return Rejected(LifecycleHistoryPresent); }
      var evidence := set c | c in candidates && candidates[c].matchedApplicationId == Some(id);
      assert evidence == CandidatesOf(Contents().tables, id);
      submissions := submissions - {s};
      var deleted := Owned(applications[id]) && |evidence| == 0;
      if deleted {
        applications := applications - {id};
      }
      reply := Removed(id, deleted, |evidence|);
    }

    /** `correct_application_job_title` */
    method CorrectTitle(request: TitleRequest, now: int) returns (reply: Reply)
      requires Consistent(Contents())
      modifies this`applications
      ensures (Contents(), reply) == Correct(old(Contents()), request, now)
      ensures Consistent(Contents())
    {
      TrackingRuns.StepKeepsConsistent(Contents(), TrackingRuns.CorrectStep(request, now));
      var id := request.applicationId;
      if id !in applications { return Rejected(ApplicationNotFound); }
      var row := applications[id];
      if row.kind != MailboxObserved { return Rejected(CorrectionNeedsMailbox); }
      if NormalizedText(EmployerOf(row.snapshot)) != NormalizedText(request.expectedEmployer) {
        return Rejected(EmployerMismatch);
      }
      var existing := TitleOf(row.snapshot);
      if !Blank(existing) {
        if NormalizedText(existing) == NormalizedText(request.jobTitle) { return AlreadyCorrect(id); }
        return Rejected(TitleAlreadyPresent);
      }
      applications := applications[id := WithTitle(row, request, now)];
      reply := Corrected(id);
    }
  }

  /** The store after the insert, and the row that carries the key then. */
  ghost predicate Inserted(store: Store, middle: Store, request: SubmissionRequest, identity: Identity, inserted: bool, id: int) {
    && IdentityOf(store.tables, request) == Success(identity)
    && inserted == (RowWithKey(store.tables, identity.key) == None)
    && id == (if inserted then store.nextApplicationId else RowWithKey(store.tables, identity.key).value)
    && id in middle.tables.applications
    && middle == store.(
         nextApplicationId := store.nextApplicationId + 1,
         tables := if inserted then store.tables.(
             applications := store.tables.applications[id := NewApplication(identity, request)]) else store.tables)
  }

  lemma {:induction false} RecordConflicts(store: Store, middle: Store, request: SubmissionRequest, identity: Identity, inserted: bool, id: int)
    requires Inserted(store, middle, request, identity, inserted, id)
    ensures var conflict := RowConflict(middle.tables.applications[id], identity, request);
      conflict.Some? ==> !inserted && Record(store, request) == (middle, Rejected(conflict.value))
  {
  }

  lemma {:induction false} RecordSplits(store: Store, middle: Store, request: SubmissionRequest, identity: Identity, inserted: bool, id: int)
    requires Inserted(store, middle, request, identity, inserted, id)
    requires RowConflict(middle.tables.applications[id], identity, request) == None
    requires inserted ==> SubmissionOf(middle.tables, id) == None
    ensures Record(store, request) ==
      match SubmissionOf(middle.tables, id)
      case None => AddSubmission(middle, id, inserted, identity, request)
      case Some(s) =>
        if SameSubmission(middle.tables.submissions[s], request, IdempotencyKeyOf(identity.key, request))
        then (middle, AlreadyRecorded(id, s))
        else (middle, Rejected(SubmissionAlreadyRecorded))
  {
  }
}
