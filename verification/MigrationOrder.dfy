/** "078 complete implies 077 complete" among the four operations. */
module MigrationOrder {
  import opened MigrationLedger
  import opened MigrationRuns
  import opened MigrationTruth
  import opened MigrationBundle

  // ---------- 078 complete without 077 ----------

  /** Discovered files: sorted by version, and the two targets carry their own version numbers. */
  predicate Discovered(migrations: seq<Migration>) {
    && DistinctKeys(migrations)
    && (forall i, j :: 0 <= i < j < |migrations| ==> migrations[i].version <= migrations[j].version)
    && (forall i :: 0 <= i < |migrations| && migrations[i].key == FOUNDATION ==> migrations[i].version == 77)
    && (forall i :: 0 <= i < |migrations| && migrations[i].key == POLICY ==> migrations[i].version == 78)
  }

  predicate IsPending(ledger: Ledger, migrations: seq<Migration>, key: string) {
    HasFile(migrations, key) && key !in ledger.tracking
  }

  /** What a caller can check before a plain apply: 078 is not pending, or 077 is complete or pending too. */
  predicate SafeToApply(ledger: Ledger, migrations: seq<Migration>) {
    !IsPending(ledger, migrations, POLICY) || Complete(ledger, FOUNDATION) || IsPending(ledger, migrations, FOUNDATION)
  }

  /** `apply_pending` completes exactly a prefix of the pending list. */
  lemma {:induction false} PendingCompletesPrefix(ledger: Ledger, pending: seq<Migration>, sql: Sql, user: string) returns (n: nat)
    requires ledger.tableExists && DistinctKeys(pending) && Untracked(ledger, pending)
    ensures var (after, reply) := ApplyEach(ledger, pending, sql, user, 0);
      && n <= |pending| && FirstSucceed(ledger, pending, n, sql, user)
      && (n < |pending| ==> !sql(pending[n].key, CommitFirst(ledger, pending, n, sql, user).views).Commits?)
      && (forall k :: 0 <= k < |pending| ==> (Complete(after, pending[k].key) <==> k < n))
      && (forall key :: key !in Keys(pending) ==> (Complete(after, key) <==> Complete(ledger, key)))
  {
    n := ApplyEachStops(ledger, pending, sql, user, 0);
    var after := ApplyEach(ledger, pending, sql, user, 0).0;
    CommitFirstRows(ledger, pending, n, sql, user);
    var first := CommitFirst(ledger, pending, n, sql, user);
    UntouchedRows(ledger, first, pending, n);
    forall key | key !in Keys(pending)
      ensures Complete(after, key) <==> Complete(ledger, key)
    {
      forall k | 0 <= k < n
        ensures Keys(pending[..n])[k] != key
      {
        assert Keys(pending)[k] == pending[k].key;
      }
      assert n < |pending| ==> Keys(pending)[n] == pending[n].key;
    }
  }

  lemma {:induction false} PendingIndex(ledger: Ledger, migrations: seq<Migration>, key: string) returns (k: nat)
    requires IsPending(ledger, migrations, key)
    ensures var pending := Pending(migrations, ledger.tracking); k < |pending| && pending[k].key == key
  {
    PendingMembers(migrations, ledger.tracking);
    var i :| 0 <= i < |migrations| && migrations[i].key == key;
    assert migrations[i] in Pending(migrations, ledger.tracking);
    k :| 0 <= k < |Pending(migrations, ledger.tracking)| && Pending(migrations, ledger.tracking)[k] == migrations[i];
  }

  lemma {:induction false} NotPendingKey(ledger: Ledger, migrations: seq<Migration>, key: string)
    requires !IsPending(ledger, migrations, key)
    ensures key !in Keys(Pending(migrations, ledger.tracking))
  {
    var pending := Pending(migrations, ledger.tracking);
    PendingMembers(migrations, ledger.tracking);
    forall k | 0 <= k < |pending|
      ensures pending[k].key != key
    {
      assert pending[k] in pending;
      var i :| 0 <= i < |migrations| && migrations[i] == pending[k];
    }
  }

  ghost predicate VersionOrder(a: Migration, b: Migration) {
    a.version <= b.version
  }

  /** In a safe state, applying pending migrations keeps "078 complete implies 077 complete", whatever fails. */
  lemma {:induction false} SafeApplyKeepsOrdered(ledger: Ledger, migrations: seq<Migration>, sql: Sql, user: string)
    requires ledger.tableExists && Discovered(migrations) && Ordered(ledger) && SafeToApply(ledger, migrations)
    ensures Ordered(ApplyPending(ledger, migrations, sql, user).0)
  {
    PendingIsUntracked(ledger, migrations);
    var n := PendingCompletesPrefix(ledger, Pending(migrations, ledger.tracking), sql, user);
    if !IsPending(ledger, migrations, POLICY) {
      NotPendingKey(ledger, migrations, POLICY);
      if Complete(ledger, FOUNDATION) { NotPendingKey(ledger, migrations, FOUNDATION); }
    } else if Complete(ledger, FOUNDATION) {
      NotPendingKey(ledger, migrations, FOUNDATION);
    } else {
      var p := PendingIndex(ledger, migrations, POLICY);
      var f := PendingIndex(ledger, migrations, FOUNDATION);
      FoundationFirst(ledger, migrations, f, p);
    }
  }

  lemma {:induction false} TargetsDiffer(foundation: Migration, policy: Migration)
    requires foundation.key == FOUNDATION && policy.key == POLICY
    ensures foundation != policy
  {
    assert FOUNDATION[2] != POLICY[2];
  }

  lemma {:induction false} FoundationFirst(ledger: Ledger, migrations: seq<Migration>, f: nat, p: nat)
    requires Discovered(migrations)
    requires var pending := Pending(migrations, ledger.tracking);
      f < |pending| && p < |pending| && pending[f].key == FOUNDATION && pending[p].key == POLICY
    ensures f < p
  {
    var pending := Pending(migrations, ledger.tracking);
    PendingMembers(migrations, ledger.tracking);
    PendingInOrder(migrations, ledger.tracking, VersionOrder);
    assert pending[f] in pending && pending[p] in pending;
    var i :| 0 <= i < |migrations| && migrations[i] == pending[f];
    var j :| 0 <= j < |migrations| && migrations[j] == pending[p];
    TargetsDiffer(pending[f], pending[p]);
  }

  /** 078 is pending, and it and all migrations before it commit as they should. */
  ghost predicate PolicyCommits(ledger: Ledger, migrations: seq<Migration>, sql: Sql, user: string) {
    var pending := Pending(migrations, ledger.tracking);
    exists p: nat :: p < |pending| && pending[p].key == POLICY && FirstSucceed(ledger, pending, p + 1, sql, user)
  }

  /** The loop stops behind every stretch of migrations that commit as they should, and nowhere later. */
  lemma {:induction false} StopsBehind(ledger: Ledger, pending: seq<Migration>, sql: Sql, user: string, n: nat, p: nat)
    requires n <= |pending| && p <= |pending| && FirstSucceed(ledger, pending, n, sql, user)
    requires n < |pending| ==> !sql(pending[n].key, CommitFirst(ledger, pending, n, sql, user).views).Commits?
    ensures FirstSucceed(ledger, pending, p, sql, user) <==> p <= n
    decreases |pending|
  {
    if n > 0 && p > 0 {
      var next := Commit(ledger, pending[0], sql(pending[0].key, ledger.views).views, ScriptApply, user);
      StopsBehind(next, pending[1..], sql, user, n - 1, p - 1);
    }
  }

  /** In any other state, a plain apply breaks it exactly when 078 commits. */
  lemma {:induction false} UnsafeApplyBreaksOrdered(ledger: Ledger, migrations: seq<Migration>, sql: Sql, user: string)
    requires ledger.tableExists && Discovered(migrations) && Ordered(ledger) && !SafeToApply(ledger, migrations)
    requires !HasMismatch(migrations, ledger.tracking)
    ensures Ordered(ApplyPending(ledger, migrations, sql, user).0) <==> !PolicyCommits(ledger, migrations, sql, user)
  {
    var pending := Pending(migrations, ledger.tracking);
    PendingIsUntracked(ledger, migrations);
    var n := PendingCompletesPrefix(ledger, pending, sql, user);
    var p := PendingIndex(ledger, migrations, POLICY);
    NotPendingKey(ledger, migrations, FOUNDATION);
    StopsBehind(ledger, pending, sql, user, n, p + 1);
    PolicyCommitsAt(ledger, migrations, sql, user, p);
  }

  lemma {:induction false} PolicyCommitsAt(ledger: Ledger, migrations: seq<Migration>, sql: Sql, user: string, p: nat)
    requires DistinctKeys(Pending(migrations, ledger.tracking))
    requires p < |Pending(migrations, ledger.tracking)| && Pending(migrations, ledger.tracking)[p].key == POLICY
    ensures PolicyCommits(ledger, migrations, sql, user) <==>
      FirstSucceed(ledger, Pending(migrations, ledger.tracking), p + 1, sql, user)
  {
    var pending := Pending(migrations, ledger.tracking);
    if PolicyCommits(ledger, migrations, sql, user) {
      var q: nat :| q < |pending| && pending[q].key == POLICY && FirstSucceed(ledger, pending, q + 1, sql, user);
      assert q == p;
    }
  }

  // ---------- the other operations ----------

  lemma {:induction false} BootstrapCompletes(ledger: Ledger, migrations: seq<Migration>, user: string, key: string)
    ensures Complete(BootstrapRows(ledger, migrations, user), key) <==>
      Complete(ledger, key) || IsPending(ledger, migrations, key)
    decreases |migrations|
  {
    if migrations != [] {
      var m, rest := migrations[0], migrations[1..];
      var next := if m.key in ledger.tracking then ledger else Track(ledger, m, Bootstrapped, ManualBootstrap, user);
      BootstrapCompletes(next, rest, user, key);
      HasFileCons(migrations, key);
    }
  }

  lemma {:induction false} HasFileCons(migrations: seq<Migration>, key: string)
    requires migrations != []
    ensures HasFile(migrations, key) <==> migrations[0].key == key || HasFile(migrations[1..], key)
  {
    if HasFile(migrations, key) && migrations[0].key != key {
      var i :| 0 <= i < |migrations| && migrations[i].key == key;
      assert migrations[1..][i - 1].key == key;
    }
    if HasFile(migrations[1..], key) {
      var i :| 0 <= i < |migrations| - 1 && migrations[1..][i].key == key;
      assert migrations[i + 1].key == key;
    }
  }

  /** A bootstrap that runs keeps the order exactly in the states that are safe for a plain apply. */
  lemma {:induction false} BootstrapKeepsOrderedExactly(ledger: Ledger, migrations: seq<Migration>, user: string)
    requires ledger.tableExists && !HasMismatch(migrations, ledger.tracking) && Ordered(ledger)
    ensures Ordered(Bootstrap(ledger, migrations, user).0) <==> SafeToApply(ledger, migrations)
  {
    BootstrapCompletes(ledger, migrations, user, FOUNDATION);
    BootstrapCompletes(ledger, migrations, user, POLICY);
  }

  /** The exact apply breaks it when it runs 078 before 077 is complete and 078 commits with its row. */
  predicate ExactBreaks(ledger: Ledger, migrations: seq<Migration>, key: string, sole: bool, sql: Sql) {
    && key == POLICY && !Complete(ledger, FOUNDATION) && ExactRuns(ledger, migrations, key, sole)
    && !RollsBack(sql(key, ledger.views))
  }

  lemma {:induction false} ExactKeepsOrderedExactly(ledger: Ledger, migrations: seq<Migration>, key: string, sole: bool, sql: Sql, user: string)
    requires Ordered(ledger)
    ensures Ordered(ApplyExact(ledger, migrations, key, sole, sql, user).0) <==> !ExactBreaks(ledger, migrations, key, sole, sql)
  {
    assert FOUNDATION[2] != POLICY[2];
    if ExactRuns(ledger, migrations, key, sole) {
      MatchingKeys(migrations, key);
      assert Matching(migrations, key)[0] in Matching(migrations, key);
    }
  }

  // ---------- every run ----------

  /** The step would complete 078 without 077: a condition on the ledger before it, the files and the SQL. */
  ghost predicate StepBreaks(ledger: Ledger, step: Step, user: string) {
    match step
    case BootstrapStep(migrations) =>
      ledger.tableExists && !HasMismatch(migrations, ledger.tracking) && !SafeToApply(ledger, migrations)
    case PendingStep(migrations, sql) =>
      && ledger.tableExists && !HasMismatch(migrations, ledger.tracking) && !SafeToApply(ledger, migrations)
      && PolicyCommits(ledger, migrations, sql, user)
    case ExactStep(migrations, key, sole, sql) => ExactBreaks(ledger, migrations, key, sole, sql)
    case TargetsStep(_, _) => false
  }

  predicate FromDiscovered(step: Step) {
    Discovered(step.migrations)
  }

  /** One operation keeps the order exactly when it does not break it. */
  lemma {:induction false} StepKeepsOrderedExactly(ledger: Ledger, step: Step, user: string)
    requires Ordered(ledger) && FromDiscovered(step)
    ensures Ordered(Next(ledger, step, user).0) <==> !StepBreaks(ledger, step, user)
  {
    match step
    case BootstrapStep(migrations) =>
      if ledger.tableExists && !HasMismatch(migrations, ledger.tracking) { BootstrapKeepsOrderedExactly(ledger, migrations, user); }
    case PendingStep(migrations, sql) =>
      if ledger.tableExists && !HasMismatch(migrations, ledger.tracking) {
        if SafeToApply(ledger, migrations) {
          SafeApplyKeepsOrdered(ledger, migrations, sql, user);
        } else {
          UnsafeApplyBreaksOrdered(ledger, migrations, sql, user);
        }
      }
    case ExactStep(migrations, key, sole, sql) => ExactKeepsOrderedExactly(ledger, migrations, key, sole, sql, user);
    case TargetsStep(migrations, sql) => BundleIsAtomic(ledger, migrations, sql, user);
  }

  /** The order holds at every point of the run. */
  ghost predicate AlwaysOrdered(ledger: Ledger, steps: seq<Step>, user: string)
    decreases |steps|
  {
    Ordered(ledger) && (steps == [] || AlwaysOrdered(Next(ledger, steps[0], user).0, steps[1..], user))
  }

  /** No step of the run, at the ledger it meets, breaks the order. */
  ghost predicate NoneBreaks(ledger: Ledger, steps: seq<Step>, user: string)
    decreases |steps|
  {
    steps == [] || (!StepBreaks(ledger, steps[0], user) && NoneBreaks(Next(ledger, steps[0], user).0, steps[1..], user))
  }

  /** Over every run of the four operations "078 complete implies 077 complete" holds throughout exactly when no step breaks it. */
  lemma {:induction false} RunKeepsOrderedExactly(ledger: Ledger, steps: seq<Step>, user: string)
    requires Ordered(ledger) && forall k :: 0 <= k < |steps| ==> FromDiscovered(steps[k])
    ensures AlwaysOrdered(ledger, steps, user) <==> NoneBreaks(ledger, steps, user)
    decreases |steps|
  {
    if steps != [] {
      StepKeepsOrderedExactly(ledger, steps[0], user);
      if !StepBreaks(ledger, steps[0], user) {
        RunKeepsOrderedExactly(Next(ledger, steps[0], user).0, steps[1..], user);
      }
    }
  }

  // ---------- the state that stays ----------

  /** The state nobody can leave: 077 failed, 078 complete. */
  predicate Stuck(ledger: Ledger) {
    FOUNDATION in ledger.tracking && ledger.tracking[FOUNDATION].status == Failed && Complete(ledger, POLICY)
  }

  lemma {:induction false} BootstrapKeepsRows(ledger: Ledger, migrations: seq<Migration>, user: string)
    ensures var after := BootstrapRows(ledger, migrations, user);
      forall key :: key in ledger.tracking ==> key in after.tracking && after.tracking[key] == ledger.tracking[key]
    decreases |migrations|
  {
    if migrations != [] {
      var m := migrations[0];
      BootstrapKeepsRows(if m.key in ledger.tracking then ledger else Track(ledger, m, Bootstrapped, ManualBootstrap, user),
                         migrations[1..], user);
    }
  }

  lemma {:induction false} ApplyEachKeepsRows(ledger: Ledger, pending: seq<Migration>, sql: Sql, user: string, applied: nat)
    requires DistinctKeys(pending) && Untracked(ledger, pending)
    ensures var after := ApplyEach(ledger, pending, sql, user, applied).0;
      forall key :: key in ledger.tracking ==> key in after.tracking && after.tracking[key] == ledger.tracking[key]
    decreases |pending|
  {
    if pending != [] && ledger.tableExists && sql(pending[0].key, ledger.views).Commits? {
      var views := sql(pending[0].key, ledger.views).views;
      CommitLeavesRestUntracked(ledger, pending, views, user);
      ApplyEachKeepsRows(Commit(ledger, pending[0], views, ScriptApply, user), pending[1..], sql, user, applied + 1);
    }
  }

  /** Apply and bootstrap never rewrite a row that exists; only the bundle can. */
  lemma {:induction false} OnlyBundleRewritesRows(ledger: Ledger, step: Step, user: string)
    requires WellFormed(step) && !step.TargetsStep?
    ensures var after := Next(ledger, step, user).0;
      forall key :: key in ledger.tracking ==> key in after.tracking && after.tracking[key] == ledger.tracking[key]
  {
    match step
    case BootstrapStep(migrations) => BootstrapKeepsRows(ledger, migrations, user);
    case PendingStep(migrations, sql) =>
      PendingIsUntracked(ledger, migrations);
      ApplyEachKeepsRows(ledger, Pending(migrations, ledger.tracking), sql, user, 0);
    case ExactStep(migrations, key, sole, sql) =>
      MatchingKeys(migrations, key);
      assert |Matching(migrations, key)| == 1 ==> Matching(migrations, key)[0] in Matching(migrations, key);
  }

  /** Once 077 has failed and 078 is complete, no run of the four operations ever repairs it. */
  lemma {:induction false} StuckForever(ledger: Ledger, steps: seq<Step>, user: string)
    requires Stuck(ledger) && forall k :: 0 <= k < |steps| ==> WellFormed(steps[k])
    ensures Stuck(Run(ledger, steps, user))
    decreases |steps|
  {
    if steps != [] {
      if !steps[0].TargetsStep? { OnlyBundleRewritesRows(ledger, steps[0], user); }
      StuckForever(Next(ledger, steps[0], user).0, steps[1..], user);
    }
  }
}
