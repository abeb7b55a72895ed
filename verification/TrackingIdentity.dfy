/** Which requests are about the same application, and what a recording writes, told from the request alone. */
module TrackingIdentity {
  import opened Wrappers
  import opened Text
  import opened TrackingModel
  import opened TrackingRuns

  // ---------- the job a request is about ----------

  /** Equal up to letter case and whitespace. */
  predicate SameText(a: string, b: string) {
    Words(Fold(a)) == Words(Fold(b))
  }

  /** An external job with employer and title. */
  predicate IsExternal(request: SubmissionRequest) {
    && request.silverJobId == None
    && request.employerName.Some? && request.employerName.value != ""
    && request.jobTitle.Some? && request.jobTitle.value != ""
  }

  predicate IsKnownJob(tables: Tables, request: SubmissionRequest) {
    request.silverJobId.Some? && request.silverJobId.value in tables.silver
  }

  /** The request names a job. */
  predicate IsComplete(tables: Tables, request: SubmissionRequest) {
    IsExternal(request) || IsKnownJob(tables, request)
  }

  /** The two requests are about one job: the same Silver row, or external with the same employer, title, URL and day. */
  predicate SameJob(a: SubmissionRequest, b: SubmissionRequest) {
    if a.silverJobId.Some? || b.silverJobId.Some? then a.silverJobId == b.silverJobId
    else
      && a.employerName.Some? && b.employerName.Some? && SameText(a.employerName.value, b.employerName.value)
      && a.jobTitle.Some? && b.jobTitle.Some? && SameText(a.jobTitle.value, b.jobTitle.value)
      && a.sourceUrl == b.sourceUrl
      && a.submittedAt / 86400 == b.submittedAt / 86400
  }

  lemma {:induction false} NormalizedAlike(a: string, b: string)
    ensures NormalizedText(a) == NormalizedText(b) <==> SameText(a, b)
  {
    WordsAreWords(Fold(a), 0);
    WordsAreWords(Fold(b), 0);
    WordsOfJoin(Words(Fold(a)));
    WordsOfJoin(Words(Fold(b)));
  }

  /** A request has an identity exactly if it names a job, and which error it gets otherwise. */
  lemma {:induction false} IdentityExists(tables: Tables, request: SubmissionRequest)
    ensures IdentityOf(tables, request).Success? <==> IsComplete(tables, request)
    ensures IdentityOf(tables, request) == Failure(SilverJobNotFound) <==>
      request.silverJobId.Some? && request.silverJobId.value !in tables.silver
    ensures IdentityOf(tables, request) == Failure(ManualIdentityIncomplete) <==>
      request.silverJobId == None && !IsExternal(request)
  {
  }

  /** Two requests get the same application key exactly if they are about the same job. */
  lemma {:induction false} KeysAgreeExactly(tables: Tables, a: SubmissionRequest, b: SubmissionRequest)
    requires IsComplete(tables, a) && IsComplete(tables, b)
    ensures IdentityOf(tables, a).Success? && IdentityOf(tables, b).Success?
    ensures IdentityOf(tables, a).value.key == IdentityOf(tables, b).value.key <==> SameJob(a, b)
  {
    if IsExternal(a) && IsExternal(b) {
      NormalizedAlike(a.employerName.value, b.employerName.value);
      NormalizedAlike(a.jobTitle.value, b.jobTitle.value);
    }
  }

  /** Requests about one job show the same snapshot exactly if it is a Silver job, or the texts are letter for letter the same. */
  lemma {:induction false} SnapshotsAgreeExactly(tables: Tables, a: SubmissionRequest, b: SubmissionRequest)
    requires IsComplete(tables, a) && IsComplete(tables, b) && SameJob(a, b)
    ensures IdentityOf(tables, a).value.snapshot == IdentityOf(tables, b).value.snapshot <==>
      a.silverJobId.Some? || (a.employerName == b.employerName && a.jobTitle == b.jobTitle)
  {
    if IsExternal(a) {
      var x, y := IdentityOf(tables, a).value.snapshot, IdentityOf(tables, b).value.snapshot;
      assert x["title"] == Str(a.jobTitle.value) && x["company_name"] == Str(a.employerName.value);
      assert y["title"] == Str(b.jobTitle.value) && y["company_name"] == Str(b.employerName.value);
    }
  }

  // ---------- two requests ----------

  /** No application has the key of the request's job. */
  ghost predicate IsNewJob(tables: Tables, request: SubmissionRequest) {
    IdentityOf(tables, request).Success? && RowWithKey(tables, IdentityOf(tables, request).value.key) == None
  }

  lemma {:induction false} NewJobIsCreated(store: Store, request: SubmissionRequest)
    requires Consistent(store) && IsNewJob(store.tables, request)
    ensures var (after, reply) := Record(store, request);
      && reply == Recorded(true, store.nextApplicationId, store.nextSubmissionId)
      && after.tables.silver == store.tables.silver
      && RecordedAs(after.tables, request, store.nextApplicationId, store.nextSubmissionId)
  {
    RecordShape(store, request);
    RecordEstablishes(store, request);
  }

  lemma {:induction false} OtherKeyIsStillNew(store: Store, first: SubmissionRequest, second: SubmissionRequest)
    requires Consistent(store) && IsNewJob(store.tables, first) && IsNewJob(store.tables, second) && !SameJob(first, second)
    ensures IsNewJob(Record(store, first).0.tables, second)
  {
    var after := Record(store, first).0.tables;
    IdentityExists(store.tables, first);
    IdentityExists(store.tables, second);
    KeysAgreeExactly(store.tables, first, second);
    NewJobIsCreated(store, first);
    IdentityInSilver(store.tables, after, second);
    RecordShape(store, first);
    var key := IdentityOf(after, second).value.key;
    NoRow(store.tables, key);
    forall id | id in after.applications
      ensures !IsRowOf(after, key, id)
    {
      if id == store.nextApplicationId {
        assert IsRowOf(after, IdentityOf(after, first).value.key, id);
        KeysAgreeExactly(after, first, second);
      } else {
        assert id in after.applications - {store.nextApplicationId};
      }
    }
  }

  /** The key of a request depends on nothing but the request and the Silver rows. */
  lemma {:induction false} IdentityInSilver(before: Tables, after: Tables, request: SubmissionRequest)
    requires after.silver == before.silver && IdentityOf(before, request).Success?
    ensures IdentityOf(after, request).Success? && IdentityOf(after, request).value.key == IdentityOf(before, request).value.key
    ensures IdentityOf(after, request).value.snapshot == IdentityOf(before, request).value.snapshot
  {
  }

  /**
   * From a consistent store without either job: a second request is recorded under another application exactly if it
   * is about another job, and the first application and its submission stay as they are.
   */
  lemma {:induction false} DifferentJobsAreBothRecorded(store: Store, first: SubmissionRequest, second: SubmissionRequest)
    requires Consistent(store) && IsNewJob(store.tables, first) && IsNewJob(store.tables, second)
    ensures var (s1, r1) := Record(store, first);
      var (s2, r2) := Record(s1, second);
      && r1.Recorded? && r1.created
      && (r2.Recorded? <==> !SameJob(first, second))
      && (r2.Recorded? ==> r2.created && r2.applicationId != r1.applicationId && r2.submissionId != r1.submissionId)
      && r1.applicationId in s1.tables.applications && r1.applicationId in s2.tables.applications
      && s2.tables.applications[r1.applicationId] == s1.tables.applications[r1.applicationId]
      && r1.submissionId in s1.tables.submissions && r1.submissionId in s2.tables.submissions
      && s2.tables.submissions[r1.submissionId] == s1.tables.submissions[r1.submissionId]
  {
    var (s1, r1) := Record(store, first);
    NewJobIsCreated(store, first);
    RecordShape(store, first);
    RecordKeepsConsistent(store, first);
    RecordOnlyAdds(s1, second);
    IdentityInSilver(store.tables, s1.tables, second);
    if SameJob(first, second) {
      IdentityExists(store.tables, first);
      IdentityExists(store.tables, second);
      KeysAgreeExactly(s1.tables, first, second);
      SecondRequestReplaysOrIsRejected(s1, first, second, r1.applicationId, r1.submissionId);
    } else {
      OtherKeyIsStillNew(store, first, second);
      NewJobIsCreated(s1, second);
    }
  }

  /**
   * A second request about a job on record, told by fields: it replays exactly if it agrees in the external texts and
   * in time, precision, channel, reference and operator; texts that only normalise alike count as a changed identity.
   */
  lemma {:induction false} RepeatedRequestAnswers(store: Store, first: SubmissionRequest, second: SubmissionRequest, a: int, s: int)
    requires Consistent(store) && RecordedAs(store.tables, first, a, s)
    requires IsComplete(store.tables, second) && SameJob(first, second)
    ensures var reply := Record(store, second).1;
      var sameTexts := first.silverJobId.Some? || (first.employerName == second.employerName && first.jobTitle == second.jobTitle);
      var sameDetails := (first.submittedAt, first.precision, first.channel, first.authorityReference, first.confirmedBy)
                         == (second.submittedAt, second.precision, second.channel, second.authorityReference, second.confirmedBy);
      && (reply == AlreadyRecorded(a, s) <==> sameTexts && sameDetails)
      && (reply == Rejected(JobIdentityChanged) <==> !sameTexts)
      && (reply == Rejected(SubmissionAlreadyRecorded) <==> sameTexts && !sameDetails)
      && Record(store, second).0.tables == store.tables
  {
    IdentityExists(store.tables, first);
    KeysAgreeExactly(store.tables, first, second);
    SnapshotsAgreeExactly(store.tables, first, second);
    SecondRequestReplaysOrIsRejected(store, first, second, a, s);
    RowWithKeyIs(store.tables, a);
    SubmissionOfIs(store.tables, s);
  }

  /** The answer when the job's application is there, by its row: every check in the order of the checks. */
  lemma {:induction false} FoundRowAnswers(store: Store, request: SubmissionRequest, a: int)
    requires Consistent(store) && IsComplete(store.tables, request) && a in store.tables.applications
    requires store.tables.applications[a].key == IdentityOf(store.tables, request).value.key
    ensures var reply, row := Record(store, request).1, store.tables.applications[a];
      var kind := if request.silverJobId.Some? then JapPrepared else ManualExternal;
      var sameJob := row.silverJobId == request.silverJobId;
      var sameSnapshot := row.snapshot == IdentityOf(store.tables, request).value.snapshot;
      && (reply == Rejected(NullSilverJobId) <==> request.silverJobId.Some? && row.silverJobId == None)
      && (reply == Rejected(IdentityConflict) <==> !sameJob && row.silverJobId.Some?)
      && (reply == Rejected(JobIdentityChanged) <==> sameJob && !sameSnapshot)
      && (reply == Rejected(DiscoveryKindChanged) <==> sameJob && sameSnapshot && row.kind != kind)
      && (reply == Recorded(false, a, store.nextSubmissionId) <==>
            sameJob && sameSnapshot && row.kind == kind && forall s :: !IsSubmissionOf(store.tables, a, s))
  {
    RowWithKeyIs(store.tables, a);
    if SubmissionOf(store.tables, a).Some? {
      assert IsSubmissionOf(store.tables, a, SubmissionOf(store.tables, a).value);
    }
  }

  /** The answer when that application has a submission: a replay exactly if every field of it repeats the request. */
  lemma {:induction false} FoundSubmissionAnswers(store: Store, request: SubmissionRequest, a: int, s: int)
    requires Consistent(store) && IsComplete(store.tables, request) && IsSubmissionOf(store.tables, a, s)
    requires a in store.tables.applications && RowConflict(store.tables.applications[a], IdentityOf(store.tables, request).value, request) == None
    requires store.tables.applications[a].key == IdentityOf(store.tables, request).value.key
    ensures var reply, submission := Record(store, request).1, store.tables.submissions[s];
      && (reply == AlreadyRecorded(a, s) <==>
            Repeats(submission, request) && KeyRepeats(submission.idempotencyKey, request, store.tables.applications[a].key))
      && (reply != AlreadyRecorded(a, s) ==> reply == Rejected(SubmissionAlreadyRecorded))
  {
    RowWithKeyIs(store.tables, a);
    SubmissionOfIs(store.tables, s);
  }

  // ---------- what a recording writes ----------

  /** The submission row repeats the request. */
  predicate Repeats(submission: Submission, request: SubmissionRequest) {
    && submission.submittedAt == request.submittedAt && submission.channel == request.channel
    && submission.authority == OperatorConfirmation
    && submission.authorityReference == request.authorityReference && submission.confirmedBy == request.confirmedBy
  }

  /** So does what its idempotency key is taken of. */
  predicate KeyRepeats(key: IdempotencyKey, request: SubmissionRequest, application: ApplicationKey) {
    && key.OperatorKey? && key.identity.applicationKey == application
    && key.identity.submittedAt == request.submittedAt && key.identity.precision == request.precision
    && key.identity.channel == request.channel && key.identity.authorityReference == request.authorityReference
    && key.identity.confirmedBy == request.confirmedBy
  }

  predicate SnapshotRepeats(snapshot: SubmissionSnapshot, request: SubmissionRequest, sha: Digest) {
    && snapshot.silverJobId == request.silverJobId && snapshot.sha == sha
    && snapshot.submittedAt == request.submittedAt && snapshot.precision == request.precision
    && snapshot.channel == request.channel && snapshot.authorityReference == request.authorityReference
    && snapshot.operatorReference == request.operatorReference
  }

  predicate ShowsText(snapshot: Snapshot, key: string, text: Option<string>) {
    key in snapshot && snapshot[key] == if text.Some? then Str(text.value) else Null
  }

  /** The snapshot shows the Silver row, field by field. */
  predicate ShowsSilver(snapshot: Snapshot, id: int, job: SilverJob) {
    && "silver_job_id" in snapshot && snapshot["silver_job_id"] == Number(id)
    && ShowsText(snapshot, "source_name", job.sourceName) && ShowsText(snapshot, "external_job_id", job.externalJobId)
    && ShowsText(snapshot, "source_url", job.sourceUrl) && ShowsText(snapshot, "title", job.title)
    && ShowsText(snapshot, "company_name", job.companyName) && ShowsText(snapshot, "city", job.city)
    && ShowsText(snapshot, "postal_code", job.postalCode) && ShowsText(snapshot, "country", job.country)
    && ShowsText(snapshot, "publication_date", job.publicationDate)
    && ShowsText(snapshot, "identity_source", Some("silver_job"))
  }

  predicate ShowsExternal(snapshot: Snapshot, request: SubmissionRequest) {
    && ShowsText(snapshot, "title", request.jobTitle) && ShowsText(snapshot, "company_name", request.employerName)
    && ShowsText(snapshot, "source_url", request.sourceUrl)
    && ShowsText(snapshot, "identity_source", Some("manual_operator"))
  }

  /** The rows that a recording adds, column by column. */
  lemma {:induction false} RecordWrites(store: Store, request: SubmissionRequest)
    requires Consistent(store) && Record(store, request).1.Recorded?
    ensures var (after, reply) := Record(store, request);
      var a, s, t := reply.applicationId, reply.submissionId, after.tables;
      && a in t.applications && s in t.submissions && t.submissions[s].applicationId == a
      && Repeats(t.submissions[s], request) && KeyRepeats(t.submissions[s].idempotencyKey, request, t.applications[a].key)
      && t.submissions[s].snapshot.Some? && SnapshotRepeats(t.submissions[s].snapshot.value, request, t.applications[a].sha)
      && (reply.created ==> IsNewRow(t.applications[a], store.tables, request))
  {
    RecordShape(store, request);
    RecordEstablishes(store, request);
    if Record(store, request).1.created { CreatedRow(store, request); }
  }

  /** The application row of a request whose job was new. */
  ghost predicate IsNewRow(row: Application, tables: Tables, request: SubmissionRequest) {
    && row.silverJobId == request.silverJobId && row.discoveredAt == request.submittedAt
    && row.preparedBy == Some(request.confirmedBy)
    && row.provenance == Provenance(Some("record_operator_confirmed_submission"), true, "explicit_operator_confirmation", [])
    && match request.silverJobId
       case Some(id) =>
         && id in tables.silver && ShowsSilver(row.snapshot, id, tables.silver[id]) && row.kind == JapPrepared
         && row.draftRequestId == if id in tables.approvedDrafts then Some(tables.approvedDrafts[id]) else None
       case None => ShowsExternal(row.snapshot, request) && row.kind == ManualExternal && row.draftRequestId == None
  }

  lemma {:induction false} CreatedRow(store: Store, request: SubmissionRequest)
    requires Record(store, request).1.Recorded? && Record(store, request).1.created
    ensures var (after, reply) := Record(store, request);
      reply.applicationId in after.tables.applications
      && IsNewRow(after.tables.applications[reply.applicationId], store.tables, request)
  {
    IdentityExists(store.tables, request);
    CreatedSnapshot(store.tables, request);
  }

  lemma {:induction false} CreatedSnapshot(tables: Tables, request: SubmissionRequest)
    requires IsComplete(tables, request)
    ensures var snapshot := IdentityOf(tables, request).value.snapshot;
      if request.silverJobId.Some? then ShowsSilver(snapshot, request.silverJobId.value, tables.silver[request.silverJobId.value])
      else ShowsExternal(snapshot, request)
  {
    if request.silverJobId.Some? {
      SilverShows(request.silverJobId.value, tables.silver[request.silverJobId.value]);
    }
  }

  lemma {:induction false} SilverShows(id: int, job: SilverJob)
    ensures ShowsSilver(JobSnapshot(id, job), id, job)
  {
  }

  // ---------- the removal ----------

  ghost predicate HasHistory(tables: Tables, s: int) {
    exists e :: e in tables.events && tables.events[e].submissionId == s
  }

  ghost predicate NoEvidence(tables: Tables, a: int) {
    forall c :: c in tables.candidates ==> tables.candidates[c].matchedApplicationId != Some(a)
  }

  lemma {:induction false} NoEvidenceMeans(tables: Tables, a: int)
    ensures CandidatesOf(tables, a) == {} <==> NoEvidence(tables, a)
  {
    var candidates := CandidatesOf(tables, a);
    assert forall c :: c in tables.candidates && tables.candidates[c].matchedApplicationId == Some(a) ==> c in candidates;
    if NoEvidence(tables, a) {
      forall c
        ensures c !in candidates
      {
      }
      assert candidates == {};
    }
  }

  /** Every answer of a removal, by the rows; an application goes exactly if the record action made it and it has no evidence. */
  lemma {:induction false} RemoveAnswers(store: Store, request: RemovalRequest, s: int)
    requires Consistent(store) && request.applicationId in store.tables.applications
    requires IsSubmissionOf(store.tables, request.applicationId, s)
    ensures var (after, reply) := Remove(store, request); var a, t := request.applicationId, store.tables;
      var row, submission := t.applications[a], t.submissions[s];
      var own := submission.authority == OperatorConfirmation;
      && (reply == Rejected(NotOperatorConfirmation) <==> !own)
      && (reply == Rejected(OwnerMismatch) <==> own && submission.confirmedBy != request.confirmedBy)
      && (reply == Rejected(LifecycleHistoryPresent) <==> own && submission.confirmedBy == request.confirmedBy && HasHistory(t, s))
      && (reply.Removed? <==> own && submission.confirmedBy == request.confirmedBy && !HasHistory(t, s))
      && (reply.Removed? ==>
            && after.tables.submissions == t.submissions - {s}
            && reply.applicationDeleted == (a !in after.tables.applications)
            && (a !in after.tables.applications <==>
                  && row.provenance.action == Some("record_operator_confirmed_submission") && row.provenance.recordedLocally
                  && NoEvidence(t, a)))
  {
    SubmissionOfIs(store.tables, s);
    NoEventsMeans(store.tables, s);
    NoEvidenceMeans(store.tables, request.applicationId);
  }

  // ---------- the title correction ----------

  /** Neither missing nor null, empty or zero. */
  predicate Holds(snapshot: Snapshot, key: string) {
    key in snapshot && snapshot[key] != Null && snapshot[key] != Str("") && snapshot[key] != Number(0)
  }

  /** The first of the three entries that holds something. */
  function EntryOf(snapshot: Snapshot, a: string, b: string, c: string): Json {
    if Holds(snapshot, a) then snapshot[a] else if Holds(snapshot, b) then snapshot[b] else if Holds(snapshot, c) then snapshot[c] else Null
  }

  function DecimalValue(s: string): int {
    if s == "" then 0 else 10 * DecimalValue(s[..|s| - 1]) + (s[|s| - 1] as int - '0' as int)
  }

  /** The decimal digits of the number, without leading zeros. */
  ghost predicate IsDecimal(s: string, n: int) {
    s != "" && (forall i :: 0 <= i < |s| ==> '0' <= s[i] <= '9') && DecimalValue(s) == n && (|s| > 1 ==> s[0] != '0')
  }

  /** The text that an entry reads as. */
  ghost predicate ReadsAs(value: Json, text: string) {
    match value
    case Null => text == ""
    case Str(own) => text == own
    case Number(n) => if n < 0 then text != "" && text[0] == '-' && IsDecimal(text[1..], -n) else IsDecimal(text, n)
  }

  lemma {:induction false} DigitsAreDecimal(n: nat)
    ensures IsDecimal(Digits(n), n) && (n > 0 ==> Digits(n)[0] != '0')
  {
    if n < 10 {
      assert Digits(n)[..0] == "";
    } else {
      DigitsAreDecimal(n / 10);
      var front := Digits(n / 10);
      assert Digits(n)[..|Digits(n)| - 1] == front;
    }
  }

  lemma {:induction false} FirstEntry(snapshot: Snapshot, a: string, b: string, c: string)
    ensures ReadsAs(EntryOf(snapshot, a, b, c), AsText(FirstTruthy(snapshot, [a, b, c])))
  {
    assert [a, b, c][1..] == [b, c] && [b, c][1..] == [c] && [c][1..] == [];
    assert FirstTruthy(snapshot, [c]) == if c in snapshot && Truthy(snapshot[c]) then Some(snapshot[c]) else None;
    match EntryOf(snapshot, a, b, c)
    case Number(n) => TextOfNumber(n);
    case _ =>
  }

  lemma {:induction false} TextOfNumber(n: int)
    requires n != 0
    ensures ReadsAs(Number(n), AsText(Some(Number(n))))
  {
    if n < 0 {
      DigitsAreDecimal(-n);
      assert ("-" + Digits(-n))[1..] == Digits(-n);
    } else {
      DigitsAreDecimal(n);
    }
  }

  /** Employer and title are read from the first of three entries that holds something. */
  lemma {:induction false} EntriesOf(snapshot: Snapshot)
    ensures ReadsAs(EntryOf(snapshot, "employer_name", "company_name", "company"), EmployerOf(snapshot))
    ensures ReadsAs(EntryOf(snapshot, "job_title", "title", "position"), TitleOf(snapshot))
  {
    FirstEntry(snapshot, "employer_name", "company_name", "company");
    FirstEntry(snapshot, "job_title", "title", "position");
  }

  /**
   * A title is corrected exactly for a mailbox row of the expected employer that has no title; then the row shows the
   * given title and its history who gave it, and every other entry stays.
   */
  lemma {:induction false} CorrectsExactly(store: Store, request: TitleRequest, now: int)
    ensures var (after, reply) := Correct(store, request, now); var id := request.applicationId;
      && (reply == Rejected(ApplicationNotFound) <==> id !in store.tables.applications)
      && (id in store.tables.applications ==>
            var row := store.tables.applications[id];
            var employer, title := EmployerOf(row.snapshot), TitleOf(row.snapshot);
            var expected := row.kind == MailboxObserved && SameText(employer, request.expectedEmployer);
            && ReadsAs(EntryOf(row.snapshot, "employer_name", "company_name", "company"), employer)
            && ReadsAs(EntryOf(row.snapshot, "job_title", "title", "position"), title)
            && (reply == Rejected(CorrectionNeedsMailbox) <==> row.kind != MailboxObserved)
            && (reply == Rejected(EmployerMismatch) <==> row.kind == MailboxObserved && !expected)
            && (reply == AlreadyCorrect(id) <==> expected && !Blank(title) && SameText(title, request.jobTitle))
            && (reply == Rejected(TitleAlreadyPresent) <==> expected && !Blank(title) && !SameText(title, request.jobTitle))
            && (reply == Corrected(id) <==> expected && Blank(title)))
    ensures var (after, reply) := Correct(store, request, now); var id := request.applicationId;
      reply == Corrected(id) ==>
        var row, next := store.tables.applications[id], after.tables.applications[id];
        && next.snapshot == row.snapshot["job_title" := Str(request.jobTitle)] && next.sha == Digest(next.snapshot)
        && next.provenance.corrections == row.provenance.corrections
             + [Correction(request.confirmedBy, row.sha, next.sha, request.jobTitle, now)]
        && next == row.(snapshot := next.snapshot, sha := next.sha, provenance := row.provenance.(corrections := next.provenance.corrections))
  {
    if request.applicationId in store.tables.applications {
      var row := store.tables.applications[request.applicationId];
      EntriesOf(row.snapshot);
      NormalizedAlike(EmployerOf(row.snapshot), request.expectedEmployer);
      NormalizedAlike(TitleOf(row.snapshot), request.jobTitle);
    }
  }
}
