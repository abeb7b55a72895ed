/** Applying again after a success: the rows that were written fit the files they were written for. */
module MigrationReplay {
  import opened MigrationLedger
  import opened MigrationRuns
  import opened MigrationBundle

  /** The row belongs to the file. */
  predicate Fits(row: TrackedRow, m: Migration) {
    row.checksum == m.checksum
  }

  ghost predicate AllFit(migrations: seq<Migration>, tracking: map<string, TrackedRow>) {
    forall i :: 0 <= i < |migrations| && migrations[i].key in tracking ==> Fits(tracking[migrations[i].key], migrations[i])
  }

  lemma {:induction false} MismatchMeans(migrations: seq<Migration>, tracking: map<string, TrackedRow>)
    ensures HasMismatch(migrations, tracking) <==> !AllFit(migrations, tracking)
  {
  }

  /** Rows written by one operation: those of the listed files, with the file's version and checksum; all others stay. */
  ghost predicate Wrote(before: Ledger, after: Ledger, files: seq<Migration>, status: Status, mode: Mode, user: string) {
    && RowsOf(after, files, status, mode, user)
    && SameRowsExcept(before, after, Keys(files))
    && after.tableExists == before.tableExists
  }

  lemma {:induction false} TrackWrites(ledger: Ledger, m: Migration, status: Status, mode: Mode, user: string)
    requires m.key !in ledger.tracking
    ensures Wrote(ledger, Track(ledger, m, status, mode, user), [m], status, mode, user)
  {
    assert Keys([m]) == [m.key];
  }

  ghost predicate RowsOf(after: Ledger, files: seq<Migration>, status: Status, mode: Mode, user: string) {
    forall k :: 0 <= k < |files| ==> IsRowFor(after, files[k], status, mode, user)
  }

  predicate IsRowFor(after: Ledger, m: Migration, status: Status, mode: Mode, user: string) {
    m.key in after.tracking && after.tracking[m.key] == TrackedRow(m.version, m.checksum, status, mode, user)
  }

  /** One file more before the others. */
  lemma {:induction false} WroteCons(before: Ledger, next: Ledger, after: Ledger, files: seq<Migration>, status: Status, mode: Mode, user: string)
    requires files != [] && DistinctKeys(files)
    requires Wrote(before, next, [files[0]], status, mode, user) && Wrote(next, after, files[1..], status, mode, user)
    ensures Wrote(before, after, files, status, mode, user)
  {
    var rest := files[1..];
    LaterKeysDiffer(files, |rest|);
    assert rest[..|rest|] == rest;
    SameRowsCons(before, next, after, files);
    assert IsRowFor(next, [files[0]][0], status, mode, user);
    forall k | 0 <= k < |files|
      ensures IsRowFor(after, files[k], status, mode, user)
    {
      if k > 0 { assert files[k] == rest[k - 1]; }
    }
  }

  lemma {:induction false} SameRowsCons(before: Ledger, next: Ledger, after: Ledger, files: seq<Migration>)
    requires files != [] && SameRowsExcept(before, next, Keys([files[0]])) && SameRowsExcept(next, after, Keys(files[1..]))
    ensures SameRowsExcept(before, after, Keys(files))
  {
    assert Keys([files[0]]) == [files[0].key];
    assert Keys(files) == [files[0].key] + Keys(files[1..]);
  }

  // ---------- what each operation writes ----------

  lemma {:induction false} BootstrapTracked(ledger: Ledger, migrations: seq<Migration>, user: string)
    requires DistinctKeys(migrations)
    ensures Wrote(ledger, BootstrapRows(ledger, migrations, user), Pending(migrations, ledger.tracking), Bootstrapped, ManualBootstrap, user)
    ensures BootstrapRows(ledger, migrations, user).committed == ledger.committed
    ensures BootstrapRows(ledger, migrations, user).views == ledger.views
    decreases |migrations|
  {
    if migrations != [] {
      var m, rest := migrations[0], migrations[1..];
      assert DistinctKeys(rest);
      if m.key in ledger.tracking {
        BootstrapTracked(ledger, rest, user);
        assert [] + Pending(rest, ledger.tracking) == Pending(rest, ledger.tracking);
      } else {
        var next := Track(ledger, m, Bootstrapped, ManualBootstrap, user);
        TrackWrites(ledger, m, Bootstrapped, ManualBootstrap, user);
        BootstrapTracked(next, rest, user);
        SamePending(rest, ledger.tracking, next.tracking, m);
        PendingIsUntracked(ledger, migrations);
        var pending := Pending(migrations, ledger.tracking);
        assert pending == [m] + Pending(rest, ledger.tracking);
        assert pending[0] == m && pending[1..] == Pending(rest, ledger.tracking);
        WroteCons(ledger, next, BootstrapRows(next, rest, user), pending, Bootstrapped, ManualBootstrap, user);
      }
    }
  }

  /** A row for a file that is not among them changes nothing about what is pending. */
  lemma {:induction false} SamePending(migrations: seq<Migration>, before: map<string, TrackedRow>, after: map<string, TrackedRow>, m: Migration)
    requires after.Keys == before.Keys + {m.key} && forall k :: 0 <= k < |migrations| ==> migrations[k].key != m.key
    ensures Pending(migrations, after) == Pending(migrations, before)
  {
    if migrations != [] {
      assert forall k :: 0 <= k < |migrations[1..]| ==> migrations[1..][k] == migrations[k + 1];
      SamePending(migrations[1..], before, after, m);
    }
  }

  lemma {:induction false} ApplyEachWrites(ledger: Ledger, pending: seq<Migration>, sql: Sql, user: string, applied: nat)
    requires DistinctKeys(pending) && Untracked(ledger, pending) && ApplyEach(ledger, pending, sql, user, applied).1.Done?
    ensures Wrote(ledger, ApplyEach(ledger, pending, sql, user, applied).0, pending, Succeeded, ScriptApply, user)
    decreases |pending|
  {
    if pending != [] {
      var m := pending[0];
      var views := sql(m.key, ledger.views).views;
      var next := Commit(ledger, m, views, ScriptApply, user);
      TrackWrites(ledger, m, Succeeded, ScriptApply, user);
      assert Wrote(ledger, next, [m], Succeeded, ScriptApply, user);
      CommitLeavesRestUntracked(ledger, pending, views, user);
      ApplyEachWrites(next, pending[1..], sql, user, applied + 1);
      WroteCons(ledger, next, ApplyEach(ledger, pending, sql, user, applied).0, pending, Succeeded, ScriptApply, user);
    }
  }

  // ---------- and applying again ----------

  /** After the rows of all pending files have been written for these files, they fit and nothing is pending. */
  lemma {:induction false} WrittenFits(ledger: Ledger, after: Ledger, migrations: seq<Migration>, status: Status, mode: Mode, user: string)
    requires AllFit(migrations, ledger.tracking)
    requires Wrote(ledger, after, Pending(migrations, ledger.tracking), status, mode, user)
    requires DistinctKeys(migrations)
    ensures forall i :: 0 <= i < |migrations| ==>
      migrations[i].key in after.tracking && after.tracking[migrations[i].key].checksum == migrations[i].checksum
    ensures !HasMismatch(migrations, after.tracking) && Pending(migrations, after.tracking) == []
  {
    var pending := Pending(migrations, ledger.tracking);
    PendingMembers(migrations, ledger.tracking);
    forall i | 0 <= i < |migrations|
      ensures migrations[i].key in after.tracking && Fits(after.tracking[migrations[i].key], migrations[i])
    {
      var m := migrations[i];
      if m.key in ledger.tracking {
        TrackedIsNotPending(migrations, ledger.tracking, |pending|, m.key);
        assert pending[..|pending|] == pending;
      } else {
        assert m in pending;
        var k :| 0 <= k < |pending| && pending[k] == m;
        assert IsRowFor(after, pending[k], status, mode, user);
      }
    }
    AllTracked(migrations, after.tracking);
  }

  lemma {:induction false} AllTracked(migrations: seq<Migration>, tracking: map<string, TrackedRow>)
    requires forall i :: 0 <= i < |migrations| ==> migrations[i].key in tracking
    ensures Pending(migrations, tracking) == []
  {
    if migrations != [] { AllTracked(migrations[1..], tracking); }
  }

  /** Nothing pending and nothing drifted: applying again does nothing, whatever the SQL would do. */
  ghost predicate Settled(ledger: Ledger, migrations: seq<Migration>) {
    && (forall i :: 0 <= i < |migrations| ==>
          migrations[i].key in ledger.tracking && ledger.tracking[migrations[i].key].checksum == migrations[i].checksum)
    && forall sql: Sql, user ::
         ApplyPending(ledger, migrations, sql, user) == (ledger, Done(0))
  }

  /**
   * A bootstrap that goes through gives each untracked file a row with the file's own version and checksum, runs no
   * SQL and touches no other row; then every file has its own checksum and an apply has nothing to do.
   */
  lemma {:induction false} BootstrapSettles(ledger: Ledger, migrations: seq<Migration>, user: string)
    requires DistinctKeys(migrations) && Bootstrap(ledger, migrations, user).1.Done?
    ensures var (after, reply) := Bootstrap(ledger, migrations, user);
      && Wrote(ledger, after, Pending(migrations, ledger.tracking), Bootstrapped, ManualBootstrap, user)
      && after.committed == ledger.committed && after.views == ledger.views
      && AllFit(migrations, after.tracking) && Pending(migrations, after.tracking) == []
      && Settled(after, migrations) && (ledger.tableExists ==> Bootstrap(after, migrations, user) == (after, Done(0)))
  {
    var after := Bootstrap(ledger, migrations, user).0;
    MismatchMeans(migrations, ledger.tracking);
    BootstrapTracked(ledger, migrations, user);
    WrittenFits(ledger, after, migrations, Bootstrapped, ManualBootstrap, user);
    BootstrapNothing(after, migrations, user);
  }

  lemma {:induction false} BootstrapNothing(ledger: Ledger, migrations: seq<Migration>, user: string)
    requires Pending(migrations, ledger.tracking) == []
    ensures BootstrapRows(ledger, migrations, user) == ledger
    decreases |migrations|
  {
    if migrations != [] { BootstrapNothing(ledger, migrations[1..], user); }
  }

  /** The same for an apply that goes through: rows `success` for each pending file, and a second apply does nothing. */
  lemma {:induction false} ApplySettles(ledger: Ledger, migrations: seq<Migration>, sql: Sql, user: string)
    requires DistinctKeys(migrations) && ApplyPending(ledger, migrations, sql, user).1.Done?
    ensures var after := ApplyPending(ledger, migrations, sql, user).0;
      && Wrote(ledger, after, Pending(migrations, ledger.tracking), Succeeded, ScriptApply, user)
      && Settled(after, migrations) && AllFit(migrations, after.tracking) && Pending(migrations, after.tracking) == []
  {
    var after := ApplyPending(ledger, migrations, sql, user).0;
    MismatchMeans(migrations, ledger.tracking);
    PendingIsUntracked(ledger, migrations);
    ApplyEachWrites(ledger, Pending(migrations, ledger.tracking), sql, user, 0);
    WrittenFits(ledger, after, migrations, Succeeded, ScriptApply, user);
  }

  lemma {:induction false} BootstrapFits(ledger: Ledger, migrations: seq<Migration>, user: string)
    requires DistinctKeys(migrations)
    ensures var (after, reply) := Bootstrap(ledger, migrations, user);
      reply.Done? ==> AllFit(migrations, after.tracking) && Pending(migrations, after.tracking) == []
  {
    if Bootstrap(ledger, migrations, user).1.Done? { BootstrapSettles(ledger, migrations, user); }
  }

  /** The one file of a key. */
  lemma {:induction false} MatchingOne(migrations: seq<Migration>, key: string, i: nat)
    requires DistinctKeys(migrations) && i < |migrations| && migrations[i].key == key
    ensures Matching(migrations, key) == [migrations[i]]
    decreases |migrations|
  {
    var rest := migrations[1..];
    assert forall k :: 0 <= k < |rest| ==> rest[k] == migrations[k + 1];
    if i == 0 {
      NoneMatching(rest, key);
    } else {
      MatchingOne(rest, key, i - 1);
    }
  }

  lemma {:induction false} NoneMatching(migrations: seq<Migration>, key: string)
    requires forall k :: 0 <= k < |migrations| ==> migrations[k].key != key
    ensures Matching(migrations, key) == []
  {
    if migrations != [] {
      assert forall k :: 0 <= k < |migrations[1..]| ==> migrations[1..][k] == migrations[k + 1];
      NoneMatching(migrations[1..], key);
    }
  }

  /**
   * An exact apply that ran its file gives just that file a row with its version and checksum; then no file has
   * drifted, the file is no longer pending, and the same call again does nothing.
   */
  lemma {:induction false} ExactSettles(ledger: Ledger, migrations: seq<Migration>, i: nat, sole: bool, sql: Sql, user: string)
    requires DistinctKeys(migrations) && i < |migrations|
    requires ApplyExact(ledger, migrations, migrations[i].key, sole, sql, user).1 == ExactDone(true)
    ensures var after := ApplyExact(ledger, migrations, migrations[i].key, sole, sql, user).0;
      && Wrote(ledger, after, [migrations[i]], Succeeded, ScriptApplyExact, user)
      && after.committed == ledger.committed + [migrations[i].key]
      && AllFit(migrations, after.tracking) && migrations[i] !in Pending(migrations, after.tracking)
      && forall again: Sql, other, only ::
           ApplyExact(after, migrations, migrations[i].key, only, again, other) == (after, ExactDone(false))
  {
    var m := migrations[i];
    var after := ApplyExact(ledger, migrations, m.key, sole, sql, user).0;
    MatchingOne(migrations, m.key, i);
    MismatchMeans(migrations, ledger.tracking);
    TrackWrites(ledger, m, Succeeded, ScriptApplyExact, user);
    forall k | 0 <= k < |migrations| && migrations[k].key in after.tracking
      ensures Fits(after.tracking[migrations[k].key], migrations[k])
    {
      if k != i { assert migrations[k].key != m.key; }
    }
    MismatchMeans(migrations, after.tracking);
    PendingMembers(migrations, after.tracking);
  }

  /** When an exact apply does not get to its SQL, in the order of its checks. */
  lemma {:induction false} ExactRefuses(ledger: Ledger, migrations: seq<Migration>, key: string, sole: bool, sql: Sql, user: string)
    requires DistinctKeys(migrations)
    ensures var (after, reply) := ApplyExact(ledger, migrations, key, sole, sql, user);
      var fits, known := AllFit(migrations, ledger.tracking), exists i :: 0 <= i < |migrations| && migrations[i].key == key;
      var alone := forall i :: 0 <= i < |migrations| && migrations[i].key !in ledger.tracking ==> migrations[i].key == key;
      && (reply == ChecksumMismatch <==> !fits)
      && (reply == KeyNotUnique <==> fits && !known)
      && (reply == ExactDone(false) <==> fits && known && key in ledger.tracking)
      && (reply == NotSolePending <==> fits && known && key !in ledger.tracking && sole && !alone)
      && (reply == TableMissing <==> fits && known && key !in ledger.tracking && (sole ==> alone) && !ledger.tableExists)
  {
    MismatchMeans(migrations, ledger.tracking);
    if i: nat :| i < |migrations| && migrations[i].key == key {
      MatchingOne(migrations, key, i);
      if key !in ledger.tracking { SolePending(migrations, ledger.tracking, i); }
    } else {
      NoneMatching(migrations, key);
    }
  }

  lemma {:induction false} SolePending(migrations: seq<Migration>, tracking: map<string, TrackedRow>, i: nat)
    requires DistinctKeys(migrations) && i < |migrations| && migrations[i].key !in tracking
    ensures Keys(Pending(migrations, tracking)) == [migrations[i].key] <==>
      forall k :: 0 <= k < |migrations| && migrations[k].key !in tracking ==> migrations[k].key == migrations[i].key
  {
    var pending, m := Pending(migrations, tracking), migrations[i];
    PendingMembers(migrations, tracking);
    assert |pending| > 1 ==> pending[0].key != pending[1].key;
    assert m in pending;
    var n :| 0 <= n < |pending| && pending[n] == m;
    if forall k :: 0 <= k < |migrations| && migrations[k].key !in tracking ==> migrations[k].key == m.key {
      forall k | 0 <= k < |pending|
        ensures pending[k].key == m.key
      {
        assert pending[k] in pending;
      }
      assert Keys(pending) == [m.key];
    } else {
      var k :| 0 <= k < |migrations| && migrations[k].key !in tracking && migrations[k].key != m.key;
      assert migrations[k] in pending;
      var l :| 0 <= l < |pending| && pending[l] == migrations[k];
      assert |pending| > 1;
    }
  }

  // ---------- the bundle ----------

  /** When the bundle does not get to its SQL, in the order of its checks. */
  lemma {:induction false} BundleRefuses(ledger: Ledger, migrations: seq<Migration>, sql: Sql, user: string)
    ensures var reply := ApplyTargets(ledger, migrations, sql, user).1;
      var fits := ledger.tableExists && AllFit(migrations, ledger.tracking);
      var files := fits && InFiles(migrations, "077_create_product_v1_monolith_foundation.sql")
                   && InFiles(migrations, "078_activate_product_v1_operator_policy.sql");
      var ordered := IsComplete(ledger, POLICY) ==> IsComplete(ledger, FOUNDATION);
      var predecessors := forall i :: 0 <= i < |migrations| && migrations[i].version < 77 ==> IsComplete(ledger, migrations[i].key);
      && (reply == TableMissing <==> !ledger.tableExists)
      && (reply == ChecksumMismatch <==> ledger.tableExists && !AllFit(migrations, ledger.tracking))
      && (reply == TargetFileMissing <==> fits && !files)
      && (reply == PolicyWithoutFoundation <==> files && !ordered)
      && (reply == UnresolvedPredecessors <==> files && ordered && !predecessors)
      && (reply == Done(0) <==> files && ordered && predecessors && IsComplete(ledger, POLICY))
  {
    MismatchMeans(migrations, ledger.tracking);
    if HasFile(migrations, FOUNDATION) && HasFile(migrations, POLICY) { TargetKeys(ledger, migrations); }
  }

  predicate InFiles(migrations: seq<Migration>, name: string) {
    exists i :: 0 <= i < |migrations| && migrations[i].key == name
  }

  /** The row says that the migration took effect, by a run or by a bootstrap. */
  predicate IsComplete(ledger: Ledger, key: string) {
    key in ledger.tracking && (ledger.tracking[key].status == Succeeded || ledger.tracking[key].status == Bootstrapped)
  }

  /** A bundle row: the file's checksum, and the version of the row it replaces, if there was one. */
  predicate IsBundleRow(before: Ledger, after: Ledger, m: Migration, user: string) {
    && m.key in after.tracking
    && var version := if m.key in before.tracking then before.tracking[m.key].version else m.version;
       after.tracking[m.key] == TrackedRow(version, m.checksum, Succeeded, ScriptApply, user)
  }

  lemma {:induction false} BundleWrites(ledger: Ledger, targets: seq<Migration>, sql: Sql, user: string)
    requires DistinctKeys(targets) && ApplyBundle(ledger, targets, sql, user).Success?
    ensures forall k :: 0 <= k < |targets| ==> IsBundleRow(ledger, ApplyBundle(ledger, targets, sql, user).value, targets[k], user)
    decreases |targets|
  {
    if targets != [] {
      var m, rest := targets[0], targets[1..];
      var views := if m.key == POLICY then ledger.views - MANAGED_VIEWS else ledger.views;
      var next := Commit(ledger, m, sql(m.key, views).views, ScriptApply, user);
      LaterKeysDiffer(targets, |rest|);
      assert rest[..|rest|] == rest;
      BundleRows(next, rest, sql, user);
      BundleWrites(next, rest, sql, user);
      var after := ApplyBundle(ledger, targets, sql, user).value;
      assert IsBundleRow(ledger, next, m, user) && after.tracking[m.key] == next.tracking[m.key];
      forall k | 0 < k < |targets|
        ensures IsBundleRow(ledger, after, targets[k], user)
      {
        assert targets[k] == rest[k - 1] && IsBundleRow(next, after, rest[k - 1], user);
      }
    }
  }

  /** A bundle that ran leaves rows of the two files' own checksums, kept versions included. */
  lemma {:induction false} BundleSettles(ledger: Ledger, migrations: seq<Migration>, sql: Sql, user: string, i: nat)
    requires DistinctKeys(migrations) && i < |migrations| && ApplyTargets(ledger, migrations, sql, user).1.Done?
    requires migrations[i].key == FOUNDATION || migrations[i].key == POLICY
    ensures var after := ApplyTargets(ledger, migrations, sql, user).0;
      if IsComplete(ledger, migrations[i].key) then
        migrations[i].key in after.tracking && after.tracking[migrations[i].key] == ledger.tracking[migrations[i].key]
      else IsBundleRow(ledger, after, migrations[i], user)
  {
    var targets := PendingTargets(ledger, migrations);
    if targets != [] {
      var after := ApplyTargets(ledger, migrations, sql, user).0;
      assert Ordered(ledger);
      PendingTargetsEndWithPolicy(ledger, migrations);
      BundleWrites(ledger, targets, sql, user);
      BundleRows(ledger, targets, sql, user);
      TargetRow(ledger, after, migrations, user, i);
    } else {
      TargetKeys(ledger, migrations);
    }
  }

  lemma {:induction false} TargetRow(ledger: Ledger, after: Ledger, migrations: seq<Migration>, user: string, i: nat)
    requires DistinctKeys(migrations) && i < |migrations| && HasFile(migrations, FOUNDATION) && HasFile(migrations, POLICY)
    requires migrations[i].key == FOUNDATION || migrations[i].key == POLICY
    requires var targets := PendingTargets(ledger, migrations);
      && SameRowsExcept(ledger, after, Keys(targets))
      && forall k :: 0 <= k < |targets| ==> IsBundleRow(ledger, after, targets[k], user)
    ensures if IsComplete(ledger, migrations[i].key) then
        migrations[i].key in after.tracking && after.tracking[migrations[i].key] == ledger.tracking[migrations[i].key]
      else IsBundleRow(ledger, after, migrations[i], user)
  {
    TargetKeys(ledger, migrations);
    var keys := Keys(PendingTargets(ledger, migrations));
    PolicyIsNotFoundation();
    assert migrations[i].key in keys <==> !IsComplete(ledger, migrations[i].key);
    if migrations[i].key in keys { TargetIsFile(ledger, migrations, i); }
  }

  lemma {:induction false} PolicyIsNotFoundation()
    ensures FOUNDATION != POLICY
  {
    assert FOUNDATION[2] != POLICY[2];
  }

  // ---------- no operation makes a file drift ----------

  lemma {:induction false} TrackKeepsFit(ledger: Ledger, migrations: seq<Migration>, m: Migration, status: Status, mode: Mode, user: string)
    requires DistinctKeys(migrations) && AllFit(migrations, ledger.tracking) && m in migrations
    ensures AllFit(migrations, Track(ledger, m, status, mode, user).tracking)
  {
    var n :| 0 <= n < |migrations| && migrations[n] == m;
    forall i | 0 <= i < |migrations| && migrations[i].key in Track(ledger, m, status, mode, user).tracking
      ensures Fits(Track(ledger, m, status, mode, user).tracking[migrations[i].key], migrations[i])
    {
      if i != n { assert migrations[i].key != m.key; }
    }
  }

  lemma {:induction false} BootstrapKeepsFit(ledger: Ledger, files: seq<Migration>, migrations: seq<Migration>, user: string)
    requires DistinctKeys(migrations) && AllFit(migrations, ledger.tracking) && forall m :: m in files ==> m in migrations
    ensures AllFit(migrations, BootstrapRows(ledger, files, user).tracking)
    decreases |files|
  {
    if files != [] {
      var m := files[0];
      TrackKeepsFit(ledger, migrations, m, Bootstrapped, ManualBootstrap, user);
      BootstrapKeepsFit(if m.key in ledger.tracking then ledger else Track(ledger, m, Bootstrapped, ManualBootstrap, user),
                        files[1..], migrations, user);
    }
  }

  lemma {:induction false} ApplyEachKeepsFit(ledger: Ledger, pending: seq<Migration>, migrations: seq<Migration>, sql: Sql, user: string, applied: nat)
    requires DistinctKeys(migrations) && AllFit(migrations, ledger.tracking) && forall m :: m in pending ==> m in migrations
    ensures AllFit(migrations, ApplyEach(ledger, pending, sql, user, applied).0.tracking)
    decreases |pending|
  {
    if pending != [] && ledger.tableExists {
      var m := pending[0];
      match sql(m.key, ledger.views)
      case SqlFails => TrackKeepsFit(ledger, migrations, m, Failed, ScriptApply, user);
      case Commits(views) =>
        TrackKeepsFit(ledger, migrations, m, Succeeded, ScriptApply, user);
        ApplyEachKeepsFit(Commit(ledger, m, views, ScriptApply, user), pending[1..], migrations, sql, user, applied + 1);
      case CommitsUnreported(views) => TrackKeepsFit(Log(ledger, m, views), migrations, m, Failed, ScriptApply, user);
      case CommitsUntracked(views) => TrackKeepsFit(Log(ledger, m, views), migrations, m, Failed, ScriptApply, user);
    }
  }

  lemma {:induction false} ExactKeepsFit(ledger: Ledger, migrations: seq<Migration>, key: string, sole: bool, sql: Sql, user: string)
    requires DistinctKeys(migrations) && AllFit(migrations, ledger.tracking)
    ensures AllFit(migrations, ApplyExact(ledger, migrations, key, sole, sql, user).0.tracking)
  {
    if i: nat :| i < |migrations| && migrations[i].key == key {
      MatchingOne(migrations, key, i);
      TrackKeepsFit(ledger, migrations, migrations[i], Succeeded, ScriptApplyExact, user);
    } else {
      NoneMatching(migrations, key);
    }
  }

  lemma {:induction false} BundleKeepsFit(ledger: Ledger, migrations: seq<Migration>, sql: Sql, user: string)
    requires DistinctKeys(migrations) && AllFit(migrations, ledger.tracking)
    ensures AllFit(migrations, ApplyTargets(ledger, migrations, sql, user).0.tracking)
  {
    var (after, reply) := ApplyTargets(ledger, migrations, sql, user);
    BundleIsAtomic(ledger, migrations, sql, user);
    if reply.Done? && reply.count > 0 {
      var targets := PendingTargets(ledger, migrations);
      PendingTargetsEndWithPolicy(ledger, migrations);
      BundleRows(ledger, targets, sql, user);
      MismatchMeans(migrations, ledger.tracking);
      StillMatches(ledger, after, migrations);
      MismatchMeans(migrations, after.tracking);
    }
  }

  /** The step works on these files. */
  predicate On(step: Step, migrations: seq<Migration>) {
    match step
    case BootstrapStep(files) => files == migrations
    case PendingStep(files, _) => files == migrations
    case ExactStep(files, _, _, _) => files == migrations
    case TargetsStep(files, _) => files == migrations
  }

  lemma {:induction false} StepKeepsFit(ledger: Ledger, migrations: seq<Migration>, step: Step, user: string)
    requires DistinctKeys(migrations) && AllFit(migrations, ledger.tracking) && On(step, migrations)
    ensures AllFit(migrations, Next(ledger, step, user).0.tracking) && Next(ledger, step, user).1 != ChecksumMismatch
  {
    MismatchMeans(migrations, ledger.tracking);
    match step
    case BootstrapStep(_) => BootstrapKeepsFit(ledger, migrations, migrations, user);
    case PendingStep(_, sql) =>
      PendingMembers(migrations, ledger.tracking);
      ApplyEachKeepsFit(ledger, Pending(migrations, ledger.tracking), migrations, sql, user, 0);
      ApplyEachReplies(ledger, Pending(migrations, ledger.tracking), sql, user, 0);
    case ExactStep(_, key, sole, sql) => ExactKeepsFit(ledger, migrations, key, sole, sql, user);
    case TargetsStep(_, sql) => BundleKeepsFit(ledger, migrations, sql, user);
  }

  lemma {:induction false} ApplyEachReplies(ledger: Ledger, pending: seq<Migration>, sql: Sql, user: string, applied: nat)
    ensures ApplyEach(ledger, pending, sql, user, applied).1 != ChecksumMismatch
  {
    if pending != [] && !ledger.tableExists {
    } else if ledger.tableExists {
      var n := ApplyEachStops(ledger, pending, sql, user, applied);
    }
  }

  /** Over every run on unchanged files, whatever fails in between, no operation ever finds a checksum mismatch. */
  lemma {:induction false} RunNeverDrifts(ledger: Ledger, migrations: seq<Migration>, steps: seq<Step>, last: Step, user: string)
    requires DistinctKeys(migrations) && AllFit(migrations, ledger.tracking)
    requires (forall k :: 0 <= k < |steps| ==> On(steps[k], migrations)) && On(last, migrations)
    ensures AllFit(migrations, Run(ledger, steps, user).tracking)
    ensures Next(Run(ledger, steps, user), last, user).1 != ChecksumMismatch
    decreases |steps|
  {
    if steps == [] {
      StepKeepsFit(ledger, migrations, last, user);
    } else {
      StepKeepsFit(ledger, migrations, steps[0], user);
      assert forall k :: 0 <= k < |steps[1..]| ==> steps[1..][k] == steps[k + 1];
      RunNeverDrifts(Next(ledger, steps[0], user).0, migrations, steps[1..], last, user);
    }
  }
}
