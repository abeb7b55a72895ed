/** The application tracking tables and what each operator action does to them. */
module TrackingModel {
  import opened Wrappers
  import opened Text

  // ---------- data ----------

  datatype Json = Null | Str(text: string) | Number(value: int)

  type Snapshot = map<string, Json>

  /** `canonical_sha256` of a snapshot: equal digests mean equal snapshots. */
  datatype Digest = Digest(of: Snapshot)

  datatype Precision = DateOnly | DateTime

  datatype Channel = EmployerPortal | Email | ExternalPlatform | ManualOther

  datatype DiscoveryKind = JapPrepared | MailboxObserved | ManualExternal

  datatype AuthorityKind = OperatorConfirmation | ApprovedRecord

  /** What the digest inside a `manual-external:` key is taken of. */
  datatype ManualIdentity = ManualIdentity(company: string, title: string, url: Option<string>, day: int)

  datatype ApplicationKey =
    | SilverJobKey(silverJobId: int)
    | ManualExternalKey(identity: ManualIdentity)
    | MailboxKey(fingerprint: string)

  /** What the digest inside an `operator-submission:` key is taken of. */
  datatype SubmissionIdentity = SubmissionIdentity(
    applicationKey: ApplicationKey,
    submittedAt: int,
    precision: Precision,
    channel: Channel,
    authorityReference: string,
    confirmedBy: string)

  datatype IdempotencyKey = OperatorKey(identity: SubmissionIdentity) | RecordKey(reference: string)

  datatype Correction = Correction(confirmedBy: string, previous: Digest, next: Digest, newValue: string, recordedAt: int)

  datatype Provenance = Provenance(
    action: Option<string>,
    recordedLocally: bool,
    details: string,
    corrections: seq<Correction>)

  datatype Application = Application(
    key: ApplicationKey,
    silverJobId: Option<int>,
    draftRequestId: Option<int>,
    kind: DiscoveryKind,
    discoveredAt: int,
    preparedBy: Option<string>,
    snapshot: Snapshot,
    sha: Digest,
    provenance: Provenance)

  datatype SubmissionSnapshot = SubmissionSnapshot(
    silverJobId: Option<int>,
    sha: Digest,
    submittedAt: int,
    precision: Precision,
    channel: Channel,
    authorityReference: string,
    operatorReference: Option<string>)

  datatype Submission = Submission(
    applicationId: int,
    submittedAt: int,
    channel: Channel,
    authority: AuthorityKind,
    authorityReference: string,
    confirmedBy: string,
    snapshot: Option<SubmissionSnapshot>,
    idempotencyKey: IdempotencyKey)

  datatype LifecycleEvent = LifecycleEvent(submissionId: int, eventType: string)

  /** `active` ends when newer evidence from the same message supersedes it. */
  datatype EventCandidate = EventCandidate(matchedApplicationId: Option<int>, candidateClass: string, active: bool)

  datatype SilverJob = SilverJob(
    sourceName: Option<string>,
    externalJobId: Option<string>,
    sourceUrl: Option<string>,
    title: Option<string>,
    companyName: Option<string>,
    city: Option<string>,
    postalCode: Option<string>,
    country: Option<string>,
    publicationDate: Option<string>)

  datatype Tables = Tables(
    applications: map<int, Application>,
    submissions: map<int, Submission>,
    events: map<int, LifecycleEvent>,
    candidates: map<int, EventCandidate>,
    silver: map<int, SilverJob>,
    approvedDrafts: map<int, int>)

  /** The tables and the two id sequences, which no rollback resets. */
  datatype Store = Store(tables: Tables, nextApplicationId: int, nextSubmissionId: int)

  datatype SubmissionRequest = SubmissionRequest(
    silverJobId: Option<int>,
    submittedAt: int,
    channel: Channel,
    authorityReference: string,
    employerName: Option<string>,
    jobTitle: Option<string>,
    sourceUrl: Option<string>,
    precision: Precision,
    confirmedBy: string,
    operatorReference: Option<string>)

  datatype RemovalRequest = RemovalRequest(applicationId: int, confirmedBy: string)

  datatype TitleRequest = TitleRequest(applicationId: int, jobTitle: string, expectedEmployer: string, confirmedBy: string)

  datatype ActionError =
    | SilverJobNotFound
    | ManualIdentityIncomplete
    | IdentityConflict
    | NullSilverJobId
    | JobIdentityChanged
    | DiscoveryKindChanged
    | SubmissionAlreadyRecorded
    | ConfirmationNotPresent
    | NotOperatorConfirmation
    | OwnerMismatch
    | LifecycleHistoryPresent
    | ApplicationNotFound
    | CorrectionNeedsMailbox
    | EmployerMismatch
    | TitleAlreadyPresent

  datatype Reply =
    | Recorded(created: bool, applicationId: int, submissionId: int)
    | AlreadyRecorded(applicationId: int, submissionId: int)
    | AlreadyRemoved(applicationId: int)
    | Removed(applicationId: int, applicationDeleted: bool, candidatesRetained: nat)
    | Corrected(applicationId: int)
    | AlreadyCorrect(applicationId: int)
    | Rejected(error: ActionError)

  const ACTION_NAME := "record_operator_confirmed_submission"

  // ---------- identities ----------

  function TextOrNull(value: Option<string>): Json {
    match value
    case None => Null
    case Some(text) => Str(text)
  }

  function JobSnapshot(id: int, job: SilverJob): Snapshot {
    map[
      "silver_job_id" := Number(id),
      "source_name" := TextOrNull(job.sourceName),
      "external_job_id" := TextOrNull(job.externalJobId),
      "source_url" := TextOrNull(job.sourceUrl),
      "title" := TextOrNull(job.title),
      "company_name" := TextOrNull(job.companyName),
      "city" := TextOrNull(job.city),
      "postal_code" := TextOrNull(job.postalCode),
      "country" := TextOrNull(job.country),
      "publication_date" := TextOrNull(job.publicationDate),
      "identity_source" := Str("silver_job")]
  }

  function ManualSnapshot(employer: string, title: string, url: Option<string>): Snapshot {
    map[
      "title" := Str(title),
      "company_name" := Str(employer),
      "source_url" := TextOrNull(url),
      "identity_source" := Str("manual_operator")]
  }

  /** `_normalized_identity_text` */
  function NormalizedText(text: string): string {
    Collapse(Fold(text))
  }

  datatype Identity = Identity(key: ApplicationKey, snapshot: Snapshot, kind: DiscoveryKind, draft: Option<int>)

  /** Which application a submission request is about, read from the request and the silver row. */
  function IdentityOf(tables: Tables, request: SubmissionRequest): Result<Identity, ActionError> {
    match request.silverJobId
    case Some(id) =>
      if id !in tables.silver then Failure(SilverJobNotFound)
      else
        var draft := if id in tables.approvedDrafts then Some(tables.approvedDrafts[id]) else None;
        Success(Identity(SilverJobKey(id), JobSnapshot(id, tables.silver[id]), JapPrepared, draft))
    case None =>
      match (request.employerName, request.jobTitle)
      case (Some(employer), Some(title)) =>
        if employer == "" || title == "" then Failure(ManualIdentityIncomplete)
        else
          var day := request.submittedAt / 86400;
          var identity := ManualIdentity(NormalizedText(employer), NormalizedText(title), request.sourceUrl, day);
          Success(Identity(ManualExternalKey(identity), ManualSnapshot(employer, title, request.sourceUrl), ManualExternal, None))
      case _ => Failure(ManualIdentityIncomplete)
  }

  function IdempotencyKeyOf(key: ApplicationKey, request: SubmissionRequest): IdempotencyKey {
    OperatorKey(SubmissionIdentity(key, request.submittedAt, request.precision, request.channel,
                                   request.authorityReference, request.confirmedBy))
  }

  predicate SameSubmission(existing: Submission, request: SubmissionRequest, key: IdempotencyKey) {
    && existing.submittedAt == request.submittedAt
    && existing.channel == request.channel
    && existing.authority == OperatorConfirmation
    && existing.authorityReference == request.authorityReference
    && existing.confirmedBy == request.confirmedBy
    && existing.idempotencyKey == key
  }

  function NewApplication(identity: Identity, request: SubmissionRequest): Application {
    Application(identity.key, request.silverJobId, identity.draft, identity.kind, request.submittedAt,
                Some(request.confirmedBy), identity.snapshot, Digest(identity.snapshot),
                Provenance(Some(ACTION_NAME), true, "explicit_operator_confirmation", []))
  }

  function NewSubmission(applicationId: int, identity: Identity, request: SubmissionRequest): Submission {
    Submission(applicationId, request.submittedAt, request.channel, OperatorConfirmation,
               request.authorityReference, request.confirmedBy,
               Some(SubmissionSnapshot(request.silverJobId, Digest(identity.snapshot), request.submittedAt,
                                       request.precision, request.channel, request.authorityReference,
                                       request.operatorReference)),
               IdempotencyKeyOf(identity.key, request))
  }

  /** The checks on the application row found under the key, in order. */
  function RowConflict(row: Application, identity: Identity, request: SubmissionRequest): Option<ActionError> {
    if request.silverJobId == None && row.silverJobId != None then Some(IdentityConflict)
    else if request.silverJobId != None && row.silverJobId == None then Some(NullSilverJobId)
    else if request.silverJobId != row.silverJobId then Some(IdentityConflict)
    else if row.sha != Digest(identity.snapshot) then Some(JobIdentityChanged)
    else if row.kind != identity.kind then Some(DiscoveryKindChanged)
    else None
  }

  /** The row was created by the record action on this machine. */
  predicate Owned(row: Application) {
    row.provenance.action == Some(ACTION_NAME) && row.provenance.recordedLocally
  }

  // ---------- lookups ----------

  ghost predicate IsRowOf(tables: Tables, key: ApplicationKey, id: int) {
    id in tables.applications && tables.applications[id].key == key
  }

  ghost predicate IsSubmissionOf(tables: Tables, applicationId: int, id: int) {
    id in tables.submissions && tables.submissions[id].applicationId == applicationId
  }

  ghost function RowWithKey(tables: Tables, key: ApplicationKey): Option<int> {
    if exists id :: IsRowOf(tables, key, id) then
      var id :| IsRowOf(tables, key, id);
      Some(id)
    else None
  }

  ghost function SubmissionOf(tables: Tables, applicationId: int): Option<int> {
    if exists id :: IsSubmissionOf(tables, applicationId, id) then
      var id :| IsSubmissionOf(tables, applicationId, id);
      Some(id)
    else None
  }

  function EventsOf(tables: Tables, submissionId: int): set<int> {
    set id | id in tables.events && tables.events[id].submissionId == submissionId
  }

  function CandidatesOf(tables: Tables, applicationId: int): set<int> {
    set id | id in tables.candidates && tables.candidates[id].matchedApplicationId == Some(applicationId)
  }

  // ---------- the invariant ----------

  /** What the tables promise at the end of every transaction. */
  ghost predicate Consistent(store: Store) {
    && KeysUnique(store.tables)
    && OneSubmissionEach(store.tables)
    && HashesMatch(store.tables)
    && ReferencesExist(store.tables)
    && OperatorKeysMatch(store.tables)
    && IdsBelowCounters(store)
  }

  ghost predicate KeysUnique(tables: Tables) {
    forall a, b | a in tables.applications && b in tables.applications ::
      tables.applications[a].key == tables.applications[b].key ==> a == b
  }

  ghost predicate OneSubmissionEach(tables: Tables) {
    forall a, b | a in tables.submissions && b in tables.submissions ::
      tables.submissions[a].applicationId == tables.submissions[b].applicationId ==> a == b
  }

  ghost predicate HashesMatch(tables: Tables) {
    forall a :: a in tables.applications ==> tables.applications[a].sha == Digest(tables.applications[a].snapshot)
  }

  ghost predicate ReferencesExist(tables: Tables) {
    && (forall s :: s in tables.submissions ==> tables.submissions[s].applicationId in tables.applications)
    && (forall e :: e in tables.events ==> tables.events[e].submissionId in tables.submissions)
    && (forall c :: c in tables.candidates && tables.candidates[c].matchedApplicationId.Some? ==>
          tables.candidates[c].matchedApplicationId.value in tables.applications)
  }

  /** The idempotency key of an operator submission names the key of its own application. */
  ghost predicate OperatorKeysMatch(tables: Tables) {
    forall s | s in tables.submissions && tables.submissions[s].idempotencyKey.OperatorKey?
            && tables.submissions[s].applicationId in tables.applications ::
      tables.submissions[s].idempotencyKey.identity.applicationKey
      == tables.applications[tables.submissions[s].applicationId].key
  }

  ghost predicate IdsBelowCounters(store: Store) {
    && (forall a :: a in store.tables.applications ==> a < store.nextApplicationId)
    && (forall s :: s in store.tables.submissions ==> s < store.nextSubmissionId)
  }

  // ---------- the three actions ----------

  ghost function Record(store: Store, request: SubmissionRequest): (Store, Reply) {
    match IdentityOf(store.tables, request)
    case Failure(error) => (store, Rejected(error))
    case Success(identity) =>
      var drawn := store.(nextApplicationId := store.nextApplicationId + 1);
      match RowWithKey(store.tables, identity.key)
      case None =>
        var id := store.nextApplicationId;
        AddSubmission(drawn.(tables := store.tables.(applications :=
                        store.tables.applications[id := NewApplication(identity, request)])),
                      id, true, identity, request)
      case Some(id) =>
        var conflict := RowConflict(store.tables.applications[id], identity, request);
        if conflict.Some? then (drawn, Rejected(conflict.value))
        else
          match SubmissionOf(store.tables, id)
          case None => AddSubmission(drawn, id, false, identity, request)
          case Some(s) =>
            if SameSubmission(store.tables.submissions[s], request, IdempotencyKeyOf(identity.key, request))
            then (drawn, AlreadyRecorded(id, s))
            else (drawn, Rejected(SubmissionAlreadyRecorded))
  }

  ghost function AddSubmission(store: Store, id: int, created: bool, identity: Identity, request: SubmissionRequest): (Store, Reply) {
    var s := store.nextSubmissionId;
    var tables := store.tables.(submissions := store.tables.submissions[s := NewSubmission(id, identity, request)]);
    (store.(tables := tables, nextSubmissionId := s + 1), Recorded(created, id, s))
  }

  ghost function Remove(store: Store, request: RemovalRequest): (Store, Reply) {
    var tables, id := store.tables, request.applicationId;
    if id !in tables.applications then (store, AlreadyRemoved(id))
    else
      match SubmissionOf(tables, id)
      case None => (store, Rejected(ConfirmationNotPresent))
      case Some(s) =>
        var submission := tables.submissions[s];
        if submission.authority != OperatorConfirmation then (store, Rejected(NotOperatorConfirmation))
        else if submission.confirmedBy != request.confirmedBy then (store, Rejected(OwnerMismatch))
        else if EventsOf(tables, s) != {} then (store, Rejected(LifecycleHistoryPresent))
        else
          var deleted := Owned(tables.applications[id]) && CandidatesOf(tables, id) == {};
          var after := tables.(
            submissions := tables.submissions - {s},
            applications := if deleted then tables.applications - {id} else tables.applications);
          (store.(tables := after), Removed(id, deleted, |CandidatesOf(tables, id)|))
  }

  /** Python's `or` over dictionary lookups: the first value that is neither missing nor falsy. */
  function FirstTruthy(snapshot: Snapshot, keys: seq<string>): Option<Json> {
    if keys == [] then None
    else if keys[0] in snapshot && Truthy(snapshot[keys[0]]) then Some(snapshot[keys[0]])
    else FirstTruthy(snapshot, keys[1..])
  }

  predicate Truthy(value: Json) {
    match value
    case Null => false
    case Str(text) => text != ""
    case Number(n) => n != 0
  }

  function Digits(n: nat): string {
    if n < 10 then [('0' as int + n) as char] else Digits(n / 10) + [('0' as int + n % 10) as char]
  }

  /** `str(value or "")` */
  function AsText(value: Option<Json>): string {
    match value
    case None => ""
    case Some(Null) => ""
    case Some(Str(text)) => text
    case Some(Number(n)) => if n == 0 then "" else if n < 0 then "-" + Digits(-n) else Digits(n)
  }

  function EmployerOf(snapshot: Snapshot): string {
    AsText(FirstTruthy(snapshot, ["employer_name", "company_name", "company"]))
  }

  function TitleOf(snapshot: Snapshot): string {
    AsText(FirstTruthy(snapshot, ["job_title", "title", "position"]))
  }

  /** The row after its missing title has been filled in. */
  function WithTitle(row: Application, request: TitleRequest, now: int): Application {
    var snapshot := row.snapshot["job_title" := Str(request.jobTitle)];
    var correction := Correction(request.confirmedBy, row.sha, Digest(snapshot), request.jobTitle, now);
    row.(snapshot := snapshot, sha := Digest(snapshot),
         provenance := row.provenance.(corrections := row.provenance.corrections + [correction]))
  }

  ghost function Correct(store: Store, request: TitleRequest, now: int): (Store, Reply) {
    var tables, id := store.tables, request.applicationId;
    if id !in tables.applications then (store, Rejected(ApplicationNotFound))
    else
      var row := tables.applications[id];
      if row.kind != MailboxObserved then (store, Rejected(CorrectionNeedsMailbox))
      else if NormalizedText(EmployerOf(row.snapshot)) != NormalizedText(request.expectedEmployer)
      then (store, Rejected(EmployerMismatch))
      else if !Blank(TitleOf(row.snapshot)) then
        if NormalizedText(TitleOf(row.snapshot)) == NormalizedText(request.jobTitle)
        then (store, AlreadyCorrect(id))
        else (store, Rejected(TitleAlreadyPresent))
      else
        (store.(tables := tables.(applications := tables.applications[id := WithTitle(row, request, now)])), Corrected(id))
  }
}
