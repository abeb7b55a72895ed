/** The atomic bundle of migrations 077 and 078. */
module MigrationBundle {
  import opened MigrationLedger
  import opened MigrationRuns

  /** What the bundle refuses to start from. */
  predicate Ordered(ledger: Ledger) {
    Complete(ledger, POLICY) ==> Complete(ledger, FOUNDATION)
  }

  // ---------- the bundle on its own ----------

  lemma {:induction false} BundleLog(ledger: Ledger, targets: seq<Migration>, sql: Sql, user: string)
    ensures var r := ApplyBundle(ledger, targets, sql, user);
      r.Success? ==> r.value.committed == ledger.committed + Keys(targets) && r.value.tableExists == ledger.tableExists
    decreases |targets|
  {
    if targets == [] {
      assert Keys(targets) == [];
    } else {
      var m := targets[0];
      var views := if m.key == POLICY then ledger.views - MANAGED_VIEWS else ledger.views;
      if !RollsBack(sql(m.key, views)) {
        BundleLog(Commit(ledger, m, sql(m.key, views).views, ScriptApply, user), targets[1..], sql, user);
        LogOfCommit(ledger.committed, targets);
      }
    }
  }

  lemma {:induction false} LogOfCommit(log: seq<string>, targets: seq<Migration>)
    requires targets != []
    ensures log + [targets[0].key] + Keys(targets[1..]) == log + Keys(targets)
  {
    assert Keys(targets) == [targets[0].key] + Keys(targets[1..]);
  }

  /** The row that a committed target gets, and that no later target of the bundle overwrites. */
  ghost predicate RowOfTarget(ledger: Ledger, m: Migration) {
    m.key in ledger.tracking && ledger.tracking[m.key].status == Succeeded && ledger.tracking[m.key].checksum == m.checksum
  }

  lemma {:induction false} BundleRows(ledger: Ledger, targets: seq<Migration>, sql: Sql, user: string)
    requires DistinctKeys(targets) && ApplyBundle(ledger, targets, sql, user).Success?
    ensures var after := ApplyBundle(ledger, targets, sql, user).value;
      && SameRowsExcept(ledger, after, Keys(targets))
      && forall k :: 0 <= k < |targets| ==> RowOfTarget(after, targets[k])
    decreases |targets|
  {
    if targets != [] {
      var m := targets[0];
      var views := if m.key == POLICY then ledger.views - MANAGED_VIEWS else ledger.views;
      var next := Commit(ledger, m, sql(m.key, views).views, ScriptApply, user);
      LaterKeysDiffer(targets, |targets| - 1);
      BundleRows(next, targets[1..], sql, user);
      RowsOfCons(ledger, next, ApplyBundle(ledger, targets, sql, user).value, targets);
    }
  }

  lemma {:induction false} RowsOfCons(ledger: Ledger, next: Ledger, after: Ledger, targets: seq<Migration>)
    requires targets != [] && targets[0].key !in Keys(targets[1..][..|targets| - 1])
    requires SameRowsExcept(ledger, next, [targets[0].key]) && RowOfTarget(next, targets[0])
    requires SameRowsExcept(next, after, Keys(targets[1..]))
    requires forall k :: 0 <= k < |targets| - 1 ==> RowOfTarget(after, targets[1..][k])
    ensures SameRowsExcept(ledger, after, Keys(targets))
    ensures forall k :: 0 <= k < |targets| ==> RowOfTarget(after, targets[k])
  {
    assert targets[1..][..|targets| - 1] == targets[1..];
    assert Keys(targets) == [targets[0].key] + Keys(targets[1..]);
    assert forall k :: 1 <= k < |targets| ==> targets[k] == targets[1..][k - 1];
  }

  /** A non-empty set of pending targets always ends with 078, so the view check always runs. */
  lemma {:induction false} PendingTargetsEndWithPolicy(ledger: Ledger, migrations: seq<Migration>)
    requires HasFile(migrations, FOUNDATION) && HasFile(migrations, POLICY) && Ordered(ledger)
    requires PendingTargets(ledger, migrations) != []
    ensures Keys(PendingTargets(ledger, migrations)) == [FOUNDATION, POLICY] || Keys(PendingTargets(ledger, migrations)) == [POLICY]
    ensures DistinctKeys(PendingTargets(ledger, migrations))
  {
    TargetKeys(ledger, migrations);
    var targets := PendingTargets(ledger, migrations);
    forall k | 0 <= k < |targets|
      ensures targets[k].key == Keys(targets)[k]
    {
    }
    assert FOUNDATION[2] != POLICY[2];
  }

  /**
   * The bundle is all or nothing. If it commits anything, it commits 078, after 077 where that was
   * missing; both rows are complete, all managed views exist, and every other row is as before.
   * Otherwise nothing changes at all.
   */
  lemma {:induction false} BundleIsAtomic(ledger: Ledger, migrations: seq<Migration>, sql: Sql, user: string)
    ensures var (after, reply) := ApplyTargets(ledger, migrations, sql, user);
      if reply.Done? && reply.count > 0 then
        && after.committed == ledger.committed + (if Complete(ledger, FOUNDATION) then [POLICY] else [FOUNDATION, POLICY])
        && Complete(after, FOUNDATION) && Complete(after, POLICY) && MANAGED_VIEWS <= after.views
        && SameRowsExcept(ledger, after, [FOUNDATION, POLICY])
      else after == ledger
  {
    var (after, reply) := ApplyTargets(ledger, migrations, sql, user);
    if reply.Done? && reply.count > 0 {
      var targets := PendingTargets(ledger, migrations);
      PendingTargetsEndWithPolicy(ledger, migrations);
      TargetKeys(ledger, migrations);
      BundleLog(ledger, targets, sql, user);
      BundleRows(ledger, targets, sql, user);
      TargetsComplete(ledger, after, targets);
    }
  }

  lemma {:induction false} TargetsComplete(ledger: Ledger, after: Ledger, targets: seq<Migration>)
    requires SameRowsExcept(ledger, after, Keys(targets))
    requires forall k :: 0 <= k < |targets| ==> RowOfTarget(after, targets[k])
    requires Keys(targets) == [FOUNDATION, POLICY] || (Keys(targets) == [POLICY] && Complete(ledger, FOUNDATION))
    ensures Complete(after, FOUNDATION) && Complete(after, POLICY)
    ensures SameRowsExcept(ledger, after, [FOUNDATION, POLICY])
  {
    assert FOUNDATION[2] != POLICY[2];
    assert RowOfTarget(after, targets[|targets| - 1]) && Keys(targets)[|targets| - 1] == POLICY;
    assert RowOfTarget(after, targets[0]) && targets[0].key == Keys(targets)[0];
  }

  /** Repeating a bundle that succeeded does nothing. */
  lemma {:induction false} BundleRepeats(ledger: Ledger, migrations: seq<Migration>, sql: Sql, again: Sql, user: string)
    requires DistinctKeys(migrations) && ApplyTargets(ledger, migrations, sql, user).1.Done?
    ensures var after := ApplyTargets(ledger, migrations, sql, user).0;
      ApplyTargets(after, migrations, again, user) == (after, Done(0))
  {
    var (after, reply) := ApplyTargets(ledger, migrations, sql, user);
    BundleIsAtomic(ledger, migrations, sql, user);
    if reply.count > 0 {
      var targets := PendingTargets(ledger, migrations);
      PendingTargetsEndWithPolicy(ledger, migrations);
      BundleRows(ledger, targets, sql, user);
      BundleLog(ledger, targets, sql, user);
      StillMatches(ledger, after, migrations);
    }
  }

  /** The rows that the bundle wrote carry the checksums of the files. */
  lemma {:induction false} StillMatches(ledger: Ledger, after: Ledger, migrations: seq<Migration>)
    requires DistinctKeys(migrations) && HasFile(migrations, FOUNDATION) && HasFile(migrations, POLICY)
    requires !HasMismatch(migrations, ledger.tracking)
    requires SameRowsExcept(ledger, after, Keys(PendingTargets(ledger, migrations)))
    requires forall k :: 0 <= k < |PendingTargets(ledger, migrations)| ==> RowOfTarget(after, PendingTargets(ledger, migrations)[k])
    ensures !HasMismatch(migrations, after.tracking)
  {
    forall i | 0 <= i < |migrations| && migrations[i].key in after.tracking
      ensures after.tracking[migrations[i].key].checksum == migrations[i].checksum
    {
      if migrations[i].key in Keys(PendingTargets(ledger, migrations)) {
        TargetIsFile(ledger, migrations, i);
      }
    }
  }

  lemma {:induction false} FileIsUnique(migrations: seq<Migration>, key: string, i: nat)
    requires DistinctKeys(migrations) && HasFile(migrations, key) && i < |migrations| && migrations[i].key == key
    ensures FileOf(migrations, key) == migrations[i]
    decreases |migrations|
  {
    var n := |migrations| - 1;
    if i < n {
      assert migrations[..n][i].key == key;
      FileIsUnique(migrations[..n], key, i);
    }
  }

  lemma {:induction false} TargetIsFile(ledger: Ledger, migrations: seq<Migration>, i: nat)
    requires DistinctKeys(migrations) && i < |migrations|
    requires HasFile(migrations, FOUNDATION) && HasFile(migrations, POLICY)
    requires migrations[i].key in Keys(PendingTargets(ledger, migrations))
    ensures exists k :: 0 <= k < |PendingTargets(ledger, migrations)| && PendingTargets(ledger, migrations)[k] == migrations[i]
  {
    var targets := PendingTargets(ledger, migrations);
    var k :| 0 <= k < |targets| && Keys(targets)[k] == migrations[i].key;
    FileHasKey(migrations, FOUNDATION);
    FileHasKey(migrations, POLICY);
    FileIsUnique(migrations, migrations[i].key, i);
    assert targets[k] == migrations[i];
  }
}
