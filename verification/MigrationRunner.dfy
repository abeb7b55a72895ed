/** The migration scripts as transactions on the tracking table. */
module MigrationRunner {
  import opened Wrappers
  import opened MigrationLedger
  import opened MigrationTruth
  import MigrationReplay

  class Runner {
    var tableExists: bool
    var tracking: map<string, TrackedRow>
    var views: set<string>
    ghost var committed: seq<string>

    ghost function Contents(): Ledger
      reads this
    {
      Ledger(tableExists, tracking, views, committed)
    }

    constructor (tableExists: bool, views: set<string>)
      ensures Contents() == Ledger(tableExists, map[], views, [])
      ensures Truthful(Contents())
    {
      this.tableExists, this.views := tableExists, views;
      tracking, committed := map[], [];
    }

    /** `insert_tracking_row`: the row of the migration and no other, at the version it was first seen with. */
    method InsertTrackingRow(m: Migration, status: Status, mode: Mode, user: string)
      modifies this`tracking
      ensures Contents() == Track(old(Contents()), m, status, mode, user)
      ensures forall key :: key != m.key ==>
        (key in tracking <==> key in old(tracking)) && (key in tracking ==> tracking[key] == old(tracking)[key])
      ensures m.key in tracking && tracking[m.key].status == status && tracking[m.key].checksum == m.checksum
      ensures m.key in old(tracking) ==> tracking[m.key].version == old(tracking)[m.key].version
      ensures Complete(Contents(), m.key) <==> status != Failed
    {
      var version := if m.key in tracking then tracking[m.key].version else m.version;
      tracking := tracking[m.key := TrackedRow(version, m.checksum, status, mode, user)];
    }

    /** SQL of a file with its own `COMMIT`, before any row for it is written. */
    method CommitAlone(m: Migration, after: set<string>)
      modifies this`views, this`committed
      ensures Contents() == Log(old(Contents()), m, after)
    {
      views, committed := after, committed + [m.key];
    }

    /** SQL that ran, its tracking row and the commit. */
    method CommitMigration(m: Migration, after: set<string>, mode: Mode, user: string)
      modifies this`tracking, this`views, this`committed
      ensures Contents() == Commit(old(Contents()), m, after, mode, user)
    {
      views := after;
      InsertTrackingRow(m, Succeeded, mode, user);
      committed := committed + [m.key];
    }

    /** `pending_migrations` */
    method PendingMigrations(migrations: seq<Migration>) returns (pending: seq<Migration>)
      ensures pending == Pending(migrations, tracking)
    {
      pending := [];
      assert migrations[0..] == migrations;
      for i := 0 to |migrations|
        invariant Pending(migrations, tracking) == pending + Pending(migrations[i..], tracking)
      {
        assert migrations[i..][0] == migrations[i] && migrations[i..][1..] == migrations[i + 1..];
        ghost var rest := Pending(migrations[i + 1..], tracking);
        if migrations[i].key !in tracking {
          assert pending + ([migrations[i]] + rest) == (pending + [migrations[i]]) + rest;
          pending := pending + [migrations[i]];
        } else {
          assert Pending(migrations[i..], tracking) == rest;
        }
      }
    }

    /** `bootstrap_existing` */
    method BootstrapExisting(migrations: seq<Migration>, user: string) returns (reply: Reply)
      requires DistinctKeys(migrations)
      modifies this`tracking
      ensures (Contents(), reply) == Bootstrap(old(Contents()), migrations, user)
      ensures reply.Done? ==> MigrationReplay.AllFit(migrations, tracking) && Pending(migrations, tracking) == []
    {
      ghost var before := Contents();
      MigrationReplay.BootstrapFits(before, migrations, user);
      if HasMismatch(migrations, tracking) { return ChecksumMismatch; }
      if !tableExists { return TableMissing; }
      var current := tracking;
      var inserted := 0;
      ghost var goal := BootstrapRows(Contents(), migrations, user);
      assert migrations[0..] == migrations;
      for i := 0 to |migrations|
        invariant forall k :: i <= k < |migrations| ==> (migrations[k].key in tracking <==> migrations[k].key in current)
        invariant goal == BootstrapRows(Contents(), migrations[i..], user)
        invariant |Pending(migrations, current)| == inserted + |Pending(migrations[i..], current)|
      {
        var m := migrations[i];
        assert migrations[i..][0] == m && migrations[i..][1..] == migrations[i + 1..];
        if m.key !in current {
          InsertTrackingRow(m, Bootstrapped, ManualBootstrap, user);
          inserted := inserted + 1;
        }
      }
      reply := Done(inserted);
    }

    /** `apply_pending`: one transaction per migration, and a `failed` row for the one that stops it. */
    method ApplyPendingMigrations(migrations: seq<Migration>, sql: Sql, user: string) returns (reply: Reply)
      modifies this`tracking, this`views, this`committed
      ensures (Contents(), reply) == ApplyPending(old(Contents()), migrations, sql, user)
    {
      if HasMismatch(migrations, tracking) { return ChecksumMismatch; }
      var pending := PendingMigrations(migrations);
      var applied := 0;
      ghost var goal := ApplyEach(Contents(), pending, sql, user, 0);
      assert pending[0..] == pending;
      for i := 0 to |pending|
        invariant goal == ApplyEach(Contents(), pending[i..], sql, user, applied)
      {
        var m := pending[i];
        assert pending[i..][0] == m && pending[i..][1..] == pending[i + 1..];
        if !tableExists { return TableMissing; }
        match sql(m.key, views)
        case SqlFails =>
          InsertTrackingRow(m, Failed, ScriptApply, user);
          return SqlFailed(m.key);
        case Commits(after) =>
          CommitMigration(m, after, ScriptApply, user);
          applied := applied + 1;
        case CommitsUnreported(after) =>
          FailedAfterSuccess(Contents(), m, after, user);
          CommitMigration(m, after, ScriptApply, user);
          InsertTrackingRow(m, Failed, ScriptApply, user);
          return Unrecorded(m.key);
        case CommitsUntracked(after) =>
          CommitAlone(m, after);
          InsertTrackingRow(m, Failed, ScriptApply, user);
          return Unrecorded(m.key);
      }
      reply := Done(applied);
    }

    /** `apply_exact_migration` */
    method ApplyExactMigration(migrations: seq<Migration>, key: string, sole: bool, sql: Sql, user: string) returns (reply: Reply)
      modifies this`tracking, this`views, this`committed
      ensures (Contents(), reply) == ApplyExact(old(Contents()), migrations, key, sole, sql, user)
    {
      if HasMismatch(migrations, tracking) { return ChecksumMismatch; }
      var matches := Matching(migrations, key);
      if |matches| != 1 { return KeyNotUnique; }
      if key in tracking { return ExactDone(false); }
      var pending := PendingMigrations(migrations);
      if sole && Keys(pending) != [key] { return NotSolePending; }
      if !tableExists { return TableMissing; }
      var attempt := sql(key, views);
      if attempt.SqlFails? { return SqlFailed(key); }
      if attempt.CommitsUntracked? {
        CommitAlone(matches[0], attempt.views);
        return Unrecorded(key);
      }
      CommitMigration(matches[0], attempt.views, ScriptApplyExact, user);
      reply := ExactDone(true);
    }

    /** The loop of `apply_targets`; after a failure the caller rolls back. */
    method ExecuteTargets(targets: seq<Migration>, sql: Sql, user: string) returns (failed: Option<string>)
      modifies this`tracking, this`views, this`committed
      ensures match ApplyBundle(old(Contents()), targets, sql, user)
        case Failure(key) => failed == Some(key)
        case Success(after) => failed == None && Contents() == after
    {
      ghost var goal := ApplyBundle(Contents(), targets, sql, user);
      assert targets[0..] == targets;
      for i := 0 to |targets|
        invariant goal == ApplyBundle(Contents(), targets[i..], sql, user)
      {
        var m := targets[i];
        assert targets[i..][0] == m && targets[i..][1..] == targets[i + 1..];
        if m.key == POLICY { views := views - MANAGED_VIEWS; }
        var attempt := sql(m.key, views);
        if RollsBack(attempt) { return Some(m.key); }
        CommitMigration(m, attempt.views, ScriptApply, user);
      }
      return None;
    }

    /** `apply_targets`: both migrations in one transaction, or neither. */
    method ApplyTargetMigrations(migrations: seq<Migration>, sql: Sql, user: string) returns (reply: Reply)
      modifies this`tracking, this`views, this`committed
      ensures (Contents(), reply) == ApplyTargets(old(Contents()), migrations, sql, user)
    {
      if !tableExists { return TableMissing; }
      if HasMismatch(migrations, tracking) { return ChecksumMismatch; }
      if !HasFile(migrations, FOUNDATION) || !HasFile(migrations, POLICY) { return TargetFileMissing; }
      var now := Ledger(tableExists, tracking, views, []);
      if Complete(now, POLICY) && !Complete(now, FOUNDATION) { return PolicyWithoutFoundation; }
      if !PredecessorsComplete(now, migrations) { return UnresolvedPredecessors; }
      var targets := PendingTargets(now, migrations);
      assert targets == PendingTargets(Contents(), migrations);
      if targets == [] { return Done(0); }

      var savedTracking, savedViews := tracking, views;
      ghost var savedCommitted := committed;
      var policyWillApply := POLICY in Keys(targets);
      var failed := ExecuteTargets(targets, sql, user);
      if failed.Some? {
        tracking, views, committed := savedTracking, savedViews, savedCommitted;
        return SqlFailed(failed.value);
      }
      if policyWillApply && !(MANAGED_VIEWS <= views) {
        tracking, views, committed := savedTracking, savedViews, savedCommitted;
        return ViewsMissing;
      }
      reply := Done(|targets|);
    }
  }

  lemma {:induction false} FailedAfterSuccess(ledger: Ledger, m: Migration, views: set<string>, user: string)
    ensures Track(Commit(ledger, m, views, ScriptApply, user), m, Failed, ScriptApply, user) == MarkFailed(ledger, m, views, user)
  {
    var row := Commit(ledger, m, views, ScriptApply, user).tracking[m.key];
    var failed := MarkFailed(ledger, m, views, user).tracking[m.key];
    assert ledger.tracking[m.key := row][m.key := failed] == ledger.tracking[m.key := failed];
  }
}
