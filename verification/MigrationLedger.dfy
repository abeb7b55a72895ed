/** The migration tracking table next to a log of the SQL that really committed. */
module MigrationLedger {
  import opened Wrappers

  datatype Status = Succeeded | Failed | Bootstrapped

  datatype Mode = ManualBootstrap | ScriptApply | ScriptApplyExact

  /** A migration file; its name is its key. */
  datatype Migration = Migration(key: string, version: int, checksum: string)

  datatype TrackedRow = TrackedRow(version: int, checksum: string, status: Status, mode: Mode, appliedBy: string)

  /** `committed` is the history of committed migration SQL, which no table records. */
  datatype Ledger = Ledger(
    tableExists: bool,
    tracking: map<string, TrackedRow>,
    views: set<string>,
    committed: seq<string>)

  /**
   * What becomes of one migration: its SQL fails and rolls back; or it commits with its row and leaves these
   * views; or it commits with its row and the report that follows the commit fails; or the file commits on its
   * own (files 018 and 020 hold `BEGIN; ... COMMIT;`) and the insert of its row fails after that.
   */
  datatype Attempt =
    | SqlFails
    | Commits(views: set<string>)
    | CommitsUnreported(views: set<string>)
    | CommitsUntracked(views: set<string>)

  /** The database's behaviour, as an arbitrary function of the migration and the views it meets. */
  type Sql = (string, set<string>) -> Attempt

  datatype Reply =
    | Done(count: nat)
    | ExactDone(applied: bool)
    | ChecksumMismatch
    | TableMissing
    | SqlFailed(key: string)
    | Unrecorded(key: string)
    | KeyNotUnique
    | NotSolePending
    | TargetFileMissing
    | PolicyWithoutFoundation
    | UnresolvedPredecessors
    | ViewsMissing

  const FOUNDATION := "077_create_product_v1_monolith_foundation.sql"
  const POLICY := "078_activate_product_v1_operator_policy.sql"
  const MANAGED_VIEWS: set<string> := {
    "gold_product_v1_application_readiness",
    "gold_product_v1_top_jobs",
    "gold_product_v1_job_readiness"}

  /** File names in one directory are distinct. */
  predicate DistinctKeys(migrations: seq<Migration>) {
    forall i, j :: 0 <= i < j < |migrations| ==> migrations[i].key != migrations[j].key
  }

  function Count(log: seq<string>, key: string): nat {
    if log == [] then 0 else (if log[0] == key then 1 else 0) + Count(log[1..], key)
  }

  function Keys(migrations: seq<Migration>): (keys: seq<string>)
    ensures |keys| == |migrations|
    ensures forall k :: 0 <= k < |keys| ==> keys[k] == migrations[k].key
  {
    seq(|migrations|, k requires 0 <= k < |migrations| => migrations[k].key)
  }

  /** Inside the bundle's transaction these undo everything. */
  predicate RollsBack(attempt: Attempt) {
    attempt.SqlFails? || attempt.CommitsUntracked?
  }

  predicate IsSuccess(ledger: Ledger, key: string) {
    key in ledger.tracking && ledger.tracking[key].status == Succeeded
  }

  /** `migration_is_complete` */
  predicate Complete(ledger: Ledger, key: string) {
    key in ledger.tracking && ledger.tracking[key].status != Failed
  }

  predicate HasMismatch(migrations: seq<Migration>, tracking: map<string, TrackedRow>) {
    exists i :: 0 <= i < |migrations| && migrations[i].key in tracking
      && tracking[migrations[i].key].checksum != migrations[i].checksum
  }

  /** `pending_migrations`: whatever has no row, whatever the status of the rows there are. */
  function Pending(migrations: seq<Migration>, tracking: map<string, TrackedRow>): seq<Migration> {
    if migrations == [] then []
    else (if migrations[0].key in tracking then [] else [migrations[0]]) + Pending(migrations[1..], tracking)
  }

  /** `insert_tracking_row`: an existing row keeps its version. */
  function Track(ledger: Ledger, m: Migration, status: Status, mode: Mode, user: string): Ledger {
    var version := if m.key in ledger.tracking then ledger.tracking[m.key].version else m.version;
    ledger.(tracking := ledger.tracking[m.key := TrackedRow(version, m.checksum, status, mode, user)])
  }

  /** SQL that committed, with no row for it. */
  function Log(ledger: Ledger, m: Migration, views: set<string>): Ledger {
    ledger.(views := views, committed := ledger.committed + [m.key])
  }

  function Commit(ledger: Ledger, m: Migration, views: set<string>, mode: Mode, user: string): Ledger {
    Track(ledger, m, Succeeded, mode, user).(views := views, committed := ledger.committed + [m.key])
  }

  // ---------- the operations ----------

  function BootstrapRows(ledger: Ledger, migrations: seq<Migration>, user: string): Ledger
    decreases |migrations|
  {
    if migrations == [] then ledger
    else
      var m := migrations[0];
      BootstrapRows(if m.key in ledger.tracking then ledger else Track(ledger, m, Bootstrapped, ManualBootstrap, user),
                    migrations[1..], user)
  }

  function Bootstrap(ledger: Ledger, migrations: seq<Migration>, user: string): (Ledger, Reply) {
    if HasMismatch(migrations, ledger.tracking) then (ledger, ChecksumMismatch)
    else if !ledger.tableExists then (ledger, TableMissing)
    else (BootstrapRows(ledger, migrations, user), Done(|Pending(migrations, ledger.tracking)|))
  }

  /** The exception handler after SQL that has committed: whatever row it finds reads `failed` then. */
  function MarkFailed(ledger: Ledger, m: Migration, views: set<string>, user: string): Ledger {
    Track(Log(ledger, m, views), m, Failed, ScriptApply, user)
  }

  /** The loop of `apply_pending`, with the exception handler that records a failure. */
  function ApplyEach(ledger: Ledger, pending: seq<Migration>, sql: Sql, user: string, applied: nat): (Ledger, Reply)
    decreases |pending|
  {
    if pending == [] then (ledger, Done(applied))
    else if !ledger.tableExists then (ledger, TableMissing)
    else
      var m := pending[0];
      match sql(m.key, ledger.views)
      case SqlFails => (Track(ledger, m, Failed, ScriptApply, user), SqlFailed(m.key))
      case Commits(views) => ApplyEach(Commit(ledger, m, views, ScriptApply, user), pending[1..], sql, user, applied + 1)
      case CommitsUnreported(views) => (MarkFailed(ledger, m, views, user), Unrecorded(m.key))
      case CommitsUntracked(views) => (MarkFailed(ledger, m, views, user), Unrecorded(m.key))
  }

  function ApplyPending(ledger: Ledger, migrations: seq<Migration>, sql: Sql, user: string): (Ledger, Reply) {
    if HasMismatch(migrations, ledger.tracking) then (ledger, ChecksumMismatch)
    else ApplyEach(ledger, Pending(migrations, ledger.tracking), sql, user, 0)
  }

  function Matching(migrations: seq<Migration>, key: string): seq<Migration> {
    if migrations == [] then []
    else (if migrations[0].key == key then [migrations[0]] else []) + Matching(migrations[1..], key)
  }

  function ApplyExact(ledger: Ledger, migrations: seq<Migration>, key: string, sole: bool, sql: Sql, user: string): (Ledger, Reply) {
    if HasMismatch(migrations, ledger.tracking) then (ledger, ChecksumMismatch)
    else if |Matching(migrations, key)| != 1 then (ledger, KeyNotUnique)
    else if key in ledger.tracking then (ledger, ExactDone(false))
    else if sole && Keys(Pending(migrations, ledger.tracking)) != [key] then (ledger, NotSolePending)
    else if !ledger.tableExists then (ledger, TableMissing)
    else
      match sql(key, ledger.views)
      case SqlFails => (ledger, SqlFailed(key))
      case Commits(views) => (Commit(ledger, Matching(migrations, key)[0], views, ScriptApplyExact, user), ExactDone(true))
      case CommitsUnreported(views) => (Commit(ledger, Matching(migrations, key)[0], views, ScriptApplyExact, user), ExactDone(true))
      case CommitsUntracked(views) => (Log(ledger, Matching(migrations, key)[0], views), Unrecorded(key))
  }

  // ---------- the atomic bundle of 077 and 078 ----------

  predicate HasFile(migrations: seq<Migration>, key: string) {
    exists i :: 0 <= i < |migrations| && migrations[i].key == key
  }

  /** The last file of that key, as in `_migration_map`. */
  function FileOf(migrations: seq<Migration>, key: string): Migration
    requires HasFile(migrations, key)
    decreases |migrations|
  {
    var n := |migrations| - 1;
    if migrations[n].key == key then migrations[n] else FileOf(migrations[..n], key)
  }

  predicate PredecessorsComplete(ledger: Ledger, migrations: seq<Migration>) {
    forall i :: 0 <= i < |migrations| && migrations[i].version < 77 ==> Complete(ledger, migrations[i].key)
  }

  function PendingTargets(ledger: Ledger, migrations: seq<Migration>): seq<Migration>
    requires HasFile(migrations, FOUNDATION) && HasFile(migrations, POLICY)
  {
    (if Complete(ledger, FOUNDATION) then [] else [FileOf(migrations, FOUNDATION)])
    + (if Complete(ledger, POLICY) then [] else [FileOf(migrations, POLICY)])
  }

  /**
   * The transaction body; a failure names the migration that rolled everything back. Neither 077 nor 078 commits
   * on its own, so a failing insert of the row rolls back as well.
   */
  function ApplyBundle(ledger: Ledger, targets: seq<Migration>, sql: Sql, user: string): Result<Ledger, string>
    decreases |targets|
  {
    if targets == [] then Success(ledger)
    else
      var m := targets[0];
      var views := if m.key == POLICY then ledger.views - MANAGED_VIEWS else ledger.views;
      match sql(m.key, views)
      case SqlFails => Failure(m.key)
      case Commits(after) => ApplyBundle(Commit(ledger, m, after, ScriptApply, user), targets[1..], sql, user)
      case CommitsUnreported(after) => ApplyBundle(Commit(ledger, m, after, ScriptApply, user), targets[1..], sql, user)
      case CommitsUntracked(_) => Failure(m.key)
  }

  function ApplyTargets(ledger: Ledger, migrations: seq<Migration>, sql: Sql, user: string): (Ledger, Reply) {
    if !ledger.tableExists then (ledger, TableMissing)
    else if HasMismatch(migrations, ledger.tracking) then (ledger, ChecksumMismatch)
    else if !HasFile(migrations, FOUNDATION) || !HasFile(migrations, POLICY) then (ledger, TargetFileMissing)
    else if Complete(ledger, POLICY) && !Complete(ledger, FOUNDATION) then (ledger, PolicyWithoutFoundation)
    else if !PredecessorsComplete(ledger, migrations) then (ledger, UnresolvedPredecessors)
    else
      var targets := PendingTargets(ledger, migrations);
      if targets == [] then (ledger, Done(0))
      else
        match ApplyBundle(ledger, targets, sql, user)
        case Failure(key) => (ledger, SqlFailed(key))
        case Success(after) =>
          if POLICY in Keys(targets) && !(MANAGED_VIEWS <= after.views) then (ledger, ViewsMissing)
          else (after, Done(|targets|))
  }
}
