/** When the tracking table tells the truth about the SQL that committed, over every run. */
module MigrationTruth {
  import opened Wrappers
  import opened MigrationLedger
  import opened MigrationRuns

  /** A row reads `success` exactly when its SQL committed once; no SQL ever committed twice. */
  ghost predicate Truthful(ledger: Ledger) {
    forall key :: Count(ledger.committed, key) == if IsSuccess(ledger, key) then 1 else 0
  }

  lemma {:induction false} CountAppend(log: seq<string>, last: string, key: string)
    ensures Count(log + [last], key) == Count(log, key) + if last == key then 1 else 0
  {
    if log != [] {
      assert (log + [last])[1..] == log[1..] + [last];
      CountAppend(log[1..], last, key);
    }
  }

  lemma {:induction false} CommitIsTruthful(ledger: Ledger, m: Migration, views: set<string>, mode: Mode, user: string)
    requires Truthful(ledger) && !IsSuccess(ledger, m.key)
    ensures Truthful(Commit(ledger, m, views, mode, user))
  {
    var after := Commit(ledger, m, views, mode, user);
    forall key
      ensures Count(after.committed, key) == if IsSuccess(after, key) then 1 else 0
    {
      CountAppend(ledger.committed, m.key, key);
    }
  }

  /** Overwriting the row of an uncommitted migration with another status stays truthful. */
  lemma {:induction false} MarkIsTruthful(ledger: Ledger, m: Migration, status: Status, mode: Mode, user: string)
    requires Truthful(ledger) && !IsSuccess(ledger, m.key) && status != Succeeded
    ensures Truthful(Track(ledger, m, status, mode, user))
  {
    var after := Track(ledger, m, status, mode, user);
    forall key
      ensures Count(after.committed, key) == if IsSuccess(after, key) then 1 else 0
    {
      assert Count(ledger.committed, key) == if IsSuccess(ledger, key) then 1 else 0;
    }
  }

  // ---------- the condition on the inputs ----------

  /** The SQL stays committed while no row, or a `failed` one, is left behind. */
  predicate GoesUnrecorded(attempt: Attempt) {
    attempt.CommitsUnreported? || attempt.CommitsUntracked?
  }

  /** Some pending migration is reached, all before it commit as they should, and its own commit goes unrecorded. */
  ghost predicate SomeGoesUnrecorded(ledger: Ledger, pending: seq<Migration>, sql: Sql, user: string) {
    exists n: nat :: n < |pending| && FirstSucceed(ledger, pending, n, sql, user)
      && GoesUnrecorded(sql(pending[n].key, CommitFirst(ledger, pending, n, sql, user).views))
  }

  lemma {:induction false} UnrecordedStep(ledger: Ledger, pending: seq<Migration>, sql: Sql, user: string)
    requires pending != []
    ensures SomeGoesUnrecorded(ledger, pending, sql, user) <==>
      match sql(pending[0].key, ledger.views)
      case SqlFails => false
      case Commits(views) => SomeGoesUnrecorded(Commit(ledger, pending[0], views, ScriptApply, user), pending[1..], sql, user)
      case _ => true
  {
    match sql(pending[0].key, ledger.views)
    case SqlFails =>
    case Commits(views) =>
      var next, rest := Commit(ledger, pending[0], views, ScriptApply, user), pending[1..];
      if SomeGoesUnrecorded(ledger, pending, sql, user) {
        var n: nat :| n < |pending| && FirstSucceed(ledger, pending, n, sql, user)
          && GoesUnrecorded(sql(pending[n].key, CommitFirst(ledger, pending, n, sql, user).views));
        assert n > 0 && FirstSucceed(next, rest, n - 1, sql, user);
      }
      if SomeGoesUnrecorded(next, rest, sql, user) {
        var n: nat :| n < |rest| && FirstSucceed(next, rest, n, sql, user)
          && GoesUnrecorded(sql(rest[n].key, CommitFirst(next, rest, n, sql, user).views));
        assert FirstSucceed(ledger, pending, n + 1, sql, user);
      }
    case CommitsUnreported(_) => assert FirstSucceed(ledger, pending, 0, sql, user);
    case CommitsUntracked(_) => assert FirstSucceed(ledger, pending, 0, sql, user);
  }

  /** What `apply_exact_migration` checks before it runs the SQL. */
  predicate ExactRuns(ledger: Ledger, migrations: seq<Migration>, key: string, sole: bool) {
    && ledger.tableExists && !HasMismatch(migrations, ledger.tracking) && |Matching(migrations, key)| == 1
    && key !in ledger.tracking && (sole ==> Keys(Pending(migrations, ledger.tracking)) == [key])
  }

  /** The step commits SQL that no row records: a condition on the ledger before it, the files and the SQL. */
  ghost predicate StepGoesUnrecorded(ledger: Ledger, step: Step, user: string) {
    match step
    case PendingStep(migrations, sql) =>
      && ledger.tableExists && !HasMismatch(migrations, ledger.tracking)
      && SomeGoesUnrecorded(ledger, Pending(migrations, ledger.tracking), sql, user)
    case ExactStep(migrations, key, sole, sql) =>
      ExactRuns(ledger, migrations, key, sole) && sql(key, ledger.views).CommitsUntracked?
    case _ => false
  }

  // ---------- what cannot be undone ----------

  /** The SQL committed twice, or committed without a row that says so. */
  predicate Spoiled(ledger: Ledger, key: string) {
    Count(ledger.committed, key) >= 2 || (Count(ledger.committed, key) == 1 && !IsSuccess(ledger, key))
  }

  lemma {:induction false} SpoiledByMark(ledger: Ledger, m: Migration, views: set<string>, user: string)
    requires !IsSuccess(ledger, m.key) && Count(ledger.committed, m.key) == 0
    ensures Spoiled(MarkFailed(ledger, m, views, user), m.key)
    ensures m.key !in ledger.tracking ==> Spoiled(Log(ledger, m, views), m.key)
  {
    CountAppend(ledger.committed, m.key, m.key);
  }

  lemma {:induction false} SpoiledThroughCommit(ledger: Ledger, m: Migration, views: set<string>, mode: Mode, user: string, key: string)
    requires Spoiled(ledger, key)
    ensures Spoiled(Commit(ledger, m, views, mode, user), key)
    ensures Spoiled(Log(ledger, m, views), key)
    ensures Spoiled(MarkFailed(ledger, m, views, user), key)
  {
    CountAppend(ledger.committed, m.key, key);
  }

  lemma {:induction false} SpoiledThroughTrack(ledger: Ledger, m: Migration, status: Status, mode: Mode, user: string, key: string)
    requires Spoiled(ledger, key) && status != Succeeded
    ensures Spoiled(Track(ledger, m, status, mode, user), key)
  {
  }

  lemma {:induction false} SpoiledThroughBootstrap(ledger: Ledger, migrations: seq<Migration>, user: string, key: string)
    requires Spoiled(ledger, key)
    ensures Spoiled(BootstrapRows(ledger, migrations, user), key)
    decreases |migrations|
  {
    if migrations != [] {
      var m := migrations[0];
      SpoiledThroughTrack(ledger, m, Bootstrapped, ManualBootstrap, user, key);
      SpoiledThroughBootstrap(if m.key in ledger.tracking then ledger else Track(ledger, m, Bootstrapped, ManualBootstrap, user),
                              migrations[1..], user, key);
    }
  }

  lemma {:induction false} SpoiledThroughApply(ledger: Ledger, pending: seq<Migration>, sql: Sql, user: string, applied: nat, key: string)
    requires Spoiled(ledger, key)
    ensures Spoiled(ApplyEach(ledger, pending, sql, user, applied).0, key)
    decreases |pending|
  {
    if pending != [] && ledger.tableExists {
      var m := pending[0];
      match sql(m.key, ledger.views)
      case SqlFails => SpoiledThroughTrack(ledger, m, Failed, ScriptApply, user, key);
      case Commits(views) =>
        SpoiledThroughCommit(ledger, m, views, ScriptApply, user, key);
        SpoiledThroughApply(Commit(ledger, m, views, ScriptApply, user), pending[1..], sql, user, applied + 1, key);
      case CommitsUnreported(views) => SpoiledThroughCommit(ledger, m, views, ScriptApply, user, key);
      case CommitsUntracked(views) => SpoiledThroughCommit(ledger, m, views, ScriptApply, user, key);
    }
  }

  lemma {:induction false} SpoiledThroughBundle(ledger: Ledger, targets: seq<Migration>, sql: Sql, user: string, key: string)
    requires Spoiled(ledger, key)
    ensures var r := ApplyBundle(ledger, targets, sql, user); r.Success? ==> Spoiled(r.value, key)
    decreases |targets|
  {
    if targets != [] {
      var m := targets[0];
      var views := if m.key == POLICY then ledger.views - MANAGED_VIEWS else ledger.views;
      if !RollsBack(sql(m.key, views)) {
        var after := sql(m.key, views).views;
        SpoiledThroughCommit(ledger, m, after, ScriptApply, user, key);
        SpoiledThroughBundle(Commit(ledger, m, after, ScriptApply, user), targets[1..], sql, user, key);
      }
    }
  }

  /** No operation repairs a migration that committed twice or unrecorded. */
  lemma {:induction false} SpoiledThroughStep(ledger: Ledger, step: Step, user: string, key: string)
    requires Spoiled(ledger, key)
    ensures Spoiled(Next(ledger, step, user).0, key)
  {
    match step
    case BootstrapStep(migrations) => SpoiledThroughBootstrap(ledger, migrations, user, key);
    case PendingStep(migrations, sql) => SpoiledThroughApply(ledger, Pending(migrations, ledger.tracking), sql, user, 0, key);
    case ExactStep(migrations, exact, sole, sql) =>
      if ExactRuns(ledger, migrations, exact, sole) && !sql(exact, ledger.views).SqlFails? {
        SpoiledThroughCommit(ledger, Matching(migrations, exact)[0], sql(exact, ledger.views).views, ScriptApplyExact, user, key);
      }
    case TargetsStep(migrations, sql) =>
      if HasFile(migrations, FOUNDATION) && HasFile(migrations, POLICY) {
        SpoiledThroughBundle(ledger, PendingTargets(ledger, migrations), sql, user, key);
      }
  }

  lemma {:induction false} SpoiledForever(ledger: Ledger, steps: seq<Step>, user: string, key: string)
    requires Spoiled(ledger, key)
    ensures Spoiled(Run(ledger, steps, user), key) && !Truthful(Run(ledger, steps, user))
    decreases |steps|
  {
    if steps != [] {
      SpoiledThroughStep(ledger, steps[0], user, key);
      SpoiledForever(Next(ledger, steps[0], user).0, steps[1..], user, key);
    } else {
      assert Count(ledger.committed, key) != if IsSuccess(ledger, key) then 1 else 0;
    }
  }

  // ---------- one operation ----------

  /** Either the ledger is truthful afterwards, or some key is spoiled for good: as the inputs decide. */
  lemma {:induction false} ApplyEachIsTruthful(ledger: Ledger, pending: seq<Migration>, sql: Sql, user: string, applied: nat) returns (key: string)
    requires ledger.tableExists && Truthful(ledger) && DistinctKeys(pending) && Untracked(ledger, pending)
    ensures var after := ApplyEach(ledger, pending, sql, user, applied).0;
      if SomeGoesUnrecorded(ledger, pending, sql, user) then Spoiled(after, key) else Truthful(after)
    decreases |pending|
  {
    key := "";
    if pending != [] {
      var m := pending[0];
      UnrecordedStep(ledger, pending, sql, user);
      assert Count(ledger.committed, m.key) == if IsSuccess(ledger, m.key) then 1 else 0;
      match sql(m.key, ledger.views)
      case SqlFails => MarkIsTruthful(ledger, m, Failed, ScriptApply, user);
      case Commits(views) =>
        CommitIsTruthful(ledger, m, views, ScriptApply, user);
        CommitLeavesRestUntracked(ledger, pending, views, user);
        key := ApplyEachIsTruthful(Commit(ledger, m, views, ScriptApply, user), pending[1..], sql, user, applied + 1);
      case CommitsUnreported(views) => key := m.key; SpoiledByMark(ledger, m, views, user);
      case CommitsUntracked(views) => key := m.key; SpoiledByMark(ledger, m, views, user);
    }
  }

  lemma {:induction false} BootstrapIsTruthful(ledger: Ledger, migrations: seq<Migration>, user: string)
    requires Truthful(ledger)
    ensures Truthful(BootstrapRows(ledger, migrations, user))
    decreases |migrations|
  {
    if migrations != [] {
      var m := migrations[0];
      if m.key !in ledger.tracking { MarkIsTruthful(ledger, m, Bootstrapped, ManualBootstrap, user); }
      BootstrapIsTruthful(if m.key in ledger.tracking then ledger else Track(ledger, m, Bootstrapped, ManualBootstrap, user),
                          migrations[1..], user);
    }
  }

  ghost predicate NoneSucceeded(ledger: Ledger, targets: seq<Migration>) {
    forall k :: 0 <= k < |targets| ==> !IsSuccess(ledger, targets[k].key)
  }

  lemma {:induction false} CommitLeavesRestUnsuccessful(ledger: Ledger, targets: seq<Migration>, views: set<string>, user: string)
    requires targets != [] && DistinctKeys(targets) && NoneSucceeded(ledger, targets)
    ensures NoneSucceeded(Commit(ledger, targets[0], views, ScriptApply, user), targets[1..]) && DistinctKeys(targets[1..])
  {
  }

  lemma {:induction false} BundleIsTruthful(ledger: Ledger, targets: seq<Migration>, sql: Sql, user: string)
    requires Truthful(ledger) && DistinctKeys(targets) && NoneSucceeded(ledger, targets)
    ensures var r := ApplyBundle(ledger, targets, sql, user); r.Success? ==> Truthful(r.value)
    decreases |targets|
  {
    if targets != [] {
      var m := targets[0];
      var views := if m.key == POLICY then ledger.views - MANAGED_VIEWS else ledger.views;
      if !RollsBack(sql(m.key, views)) {
        var after := sql(m.key, views).views;
        CommitIsTruthful(ledger, m, after, ScriptApply, user);
        CommitLeavesRestUnsuccessful(ledger, targets, after, user);
        BundleIsTruthful(Commit(ledger, m, after, ScriptApply, user), targets[1..], sql, user);
      }
    }
  }

  lemma {:induction false} TargetsAreTruthful(ledger: Ledger, migrations: seq<Migration>, sql: Sql, user: string)
    requires Truthful(ledger)
    ensures Truthful(ApplyTargets(ledger, migrations, sql, user).0)
  {
    if HasFile(migrations, FOUNDATION) && HasFile(migrations, POLICY) {
      var targets := PendingTargets(ledger, migrations);
      TargetKeys(ledger, migrations);
      forall k | 0 <= k < |targets|
        ensures targets[k].key == Keys(targets)[k]
      {
      }
      BundleIsTruthful(ledger, targets, sql, user);
    }
  }

  lemma {:induction false} ExactIsTruthful(ledger: Ledger, migrations: seq<Migration>, key: string, sole: bool, sql: Sql, user: string)
    requires Truthful(ledger)
    ensures var after := ApplyExact(ledger, migrations, key, sole, sql, user).0;
      if ExactRuns(ledger, migrations, key, sole) && sql(key, ledger.views).CommitsUntracked? then Spoiled(after, key) else Truthful(after)
  {
    if ExactRuns(ledger, migrations, key, sole) && !sql(key, ledger.views).SqlFails? {
      MatchingKeys(migrations, key);
      var m, views := Matching(migrations, key)[0], sql(key, ledger.views).views;
      assert m in Matching(migrations, key);
      assert Count(ledger.committed, key) == if IsSuccess(ledger, key) then 1 else 0;
      SpoiledByMark(ledger, m, views, user);
      CommitIsTruthful(ledger, m, views, ScriptApplyExact, user);
    }
  }

  lemma {:induction false} StepOutcome(ledger: Ledger, step: Step, user: string) returns (key: string)
    requires Truthful(ledger) && WellFormed(step)
    ensures var after := Next(ledger, step, user).0;
      if StepGoesUnrecorded(ledger, step, user) then Spoiled(after, key) else Truthful(after)
  {
    key := "";
    match step
    case BootstrapStep(migrations) => BootstrapIsTruthful(ledger, migrations, user);
    case PendingStep(migrations, sql) =>
      PendingIsUntracked(ledger, migrations);
      if ledger.tableExists { key := ApplyEachIsTruthful(ledger, Pending(migrations, ledger.tracking), sql, user, 0); }
    case ExactStep(migrations, exact, sole, sql) =>
      key := exact;
      ExactIsTruthful(ledger, migrations, exact, sole, sql, user);
    case TargetsStep(migrations, sql) => TargetsAreTruthful(ledger, migrations, sql, user);
  }

  /** After one operation the rows are truthful exactly when it does not commit SQL that goes unrecorded. */
  lemma {:induction false} StepIsTruthful(ledger: Ledger, step: Step, user: string)
    requires Truthful(ledger) && WellFormed(step)
    ensures Truthful(Next(ledger, step, user).0) <==> !StepGoesUnrecorded(ledger, step, user)
  {
    var key := StepOutcome(ledger, step, user);
    if StepGoesUnrecorded(ledger, step, user) {
      SpoiledForever(Next(ledger, step, user).0, [], user, key);
    }
  }

  // ---------- every run ----------

  /** Some operation of the run commits SQL that goes unrecorded. */
  ghost predicate RunGoesUnrecorded(ledger: Ledger, steps: seq<Step>, user: string)
    decreases |steps|
  {
    steps != [] &&
    (StepGoesUnrecorded(ledger, steps[0], user) || RunGoesUnrecorded(Next(ledger, steps[0], user).0, steps[1..], user))
  }

  /**
   * Over every run of the four operations: each migration's SQL commits at most once and its row reads `success`
   * exactly when it committed, if and only if no operation of the run commits SQL that goes unrecorded.
   */
  lemma {:induction false} RunIsTruthful(ledger: Ledger, steps: seq<Step>, user: string)
    requires Truthful(ledger) && forall k :: 0 <= k < |steps| ==> WellFormed(steps[k])
    ensures Truthful(Run(ledger, steps, user)) <==> !RunGoesUnrecorded(ledger, steps, user)
    decreases |steps|
  {
    if steps != [] {
      var next := Next(ledger, steps[0], user).0;
      var key := StepOutcome(ledger, steps[0], user);
      if StepGoesUnrecorded(ledger, steps[0], user) {
        SpoiledForever(next, steps[1..], user, key);
      } else {
        RunIsTruthful(next, steps[1..], user);
      }
    }
  }

  /** No answer of the step's SQL goes unrecorded. */
  ghost predicate AlwaysRecorded(step: Step) {
    match step
    case PendingStep(_, sql) => forall key, views :: !GoesUnrecorded(sql(key, views))
    case ExactStep(_, _, _, sql) => forall key, views :: !GoesUnrecorded(sql(key, views))
    case _ => true
  }

  /** For the caller: a run whose SQL never goes unrecorded is truthful. */
  lemma {:induction false} RecordedRunIsTruthful(ledger: Ledger, steps: seq<Step>, user: string)
    requires Truthful(ledger) && forall k :: 0 <= k < |steps| ==> WellFormed(steps[k]) && AlwaysRecorded(steps[k])
    ensures Truthful(Run(ledger, steps, user))
    decreases |steps|
  {
    if steps != [] {
      assert AlwaysRecorded(steps[0]);
      StepIsTruthful(ledger, steps[0], user);
      RecordedRunIsTruthful(Next(ledger, steps[0], user).0, steps[1..], user);
    }
  }

  /**
   * Without that condition it is false: if the report of a committed 077 fails, its row reads
   * `failed`, and the bundle then commits the same SQL a second time.
   */
  lemma {:induction false} UnreportedCommitRunsTwice(user: string)
    ensures var files := [Migration(FOUNDATION, 77, "a"), Migration(POLICY, 78, "b")];
      var unreported: Sql := (key, views) => CommitsUnreported(views);
      var recreating: Sql := (key, views) => Commits(views + MANAGED_VIEWS);
      var start := Ledger(true, map[], {}, []);
      Count(Run(start, [PendingStep(files, unreported), TargetsStep(files, recreating)], user).committed, FOUNDATION) == 2
  {
    var files := [Migration(FOUNDATION, 77, "a"), Migration(POLICY, 78, "b")];
    var unreported: Sql := (key, views) => CommitsUnreported(views);
    var recreating: Sql := (key, views) => Commits(views + MANAGED_VIEWS);
    var start := Ledger(true, map[], {}, []);
    var first := PendingStep(files, unreported);
    var second := TargetsStep(files, recreating);
    var middle := Next(start, first, user).0;
    UnreportedFirst(files, unreported, user);
    BundleCommitsBoth(middle, files, recreating, user);
    var last := Next(middle, second, user).0;
    assert [first, second][1..] == [second] && [second][1..] == [];
    assert last.committed == [FOUNDATION, FOUNDATION, POLICY];
    CountTwice();
    assert Run(middle, [second], user) == Run(last, [], user) == last;
  }

  lemma {:induction false} CountTwice()
    ensures Count([FOUNDATION, FOUNDATION, POLICY], FOUNDATION) == 2
  {
    assert FOUNDATION[2] != POLICY[2];
    assert [POLICY][1..] == [] && Count([POLICY], FOUNDATION) == 0;
    assert [FOUNDATION, POLICY][1..] == [POLICY] && Count([FOUNDATION, POLICY], FOUNDATION) == 1;
    assert [FOUNDATION, FOUNDATION, POLICY][1..] == [FOUNDATION, POLICY];
  }

  lemma {:induction false} UnreportedFirst(files: seq<Migration>, sql: Sql, user: string)
    requires files == [Migration(FOUNDATION, 77, "a"), Migration(POLICY, 78, "b")]
    requires forall key, views :: sql(key, views) == CommitsUnreported(views)
    ensures var start := Ledger(true, map[], {}, []); var middle := ApplyPending(start, files, sql, user).0;
      && middle.committed == [FOUNDATION] && !Complete(middle, FOUNDATION) && !Complete(middle, POLICY)
      && middle.tableExists && !HasMismatch(files, middle.tracking)
  {
    var start := Ledger(true, map[], {}, []);
    assert files[1..] == [files[1]] && files[1..][1..] == [];
    assert Pending(files[1..][1..], start.tracking) == [];
    assert Pending(files[1..], start.tracking) == [files[1]];
    assert Pending(files, start.tracking) == files;
    assert FOUNDATION[2] != POLICY[2];
  }

  lemma {:induction false} BundleCommitsBoth(ledger: Ledger, files: seq<Migration>, sql: Sql, user: string)
    requires files == [Migration(FOUNDATION, 77, "a"), Migration(POLICY, 78, "b")]
    requires forall key, views :: sql(key, views) == Commits(views + MANAGED_VIEWS)
    requires ledger.tableExists && !HasMismatch(files, ledger.tracking)
    requires !Complete(ledger, FOUNDATION) && !Complete(ledger, POLICY)
    ensures ApplyTargets(ledger, files, sql, user).0.committed == ledger.committed + [FOUNDATION, POLICY]
  {
    assert files[0].key == FOUNDATION && files[1].key == POLICY;
    assert files[..1] == [files[0]];
    assert FileOf(files, POLICY) == files[1];
    assert FileOf(files[..1], FOUNDATION) == files[0];
    assert FileOf(files, FOUNDATION) == files[0];
    var targets := PendingTargets(ledger, files);
    assert targets == files;
    var first := Commit(ledger, files[0], ledger.views + MANAGED_VIEWS, ScriptApply, user);
    var second := Commit(first, files[1], first.views - MANAGED_VIEWS + MANAGED_VIEWS, ScriptApply, user);
    assert targets[1..] == [files[1]] && targets[1..][1..] == [];
    assert ApplyBundle(second, [], sql, user) == Success(second);
    assert ApplyBundle(first, [files[1]], sql, user) == Success(second);
    assert ApplyBundle(ledger, files, sql, user) == Success(second);
    assert POLICY in Keys(targets) by { assert Keys(targets)[1] == POLICY; }
  }
}
