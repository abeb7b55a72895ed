/** What holds over every run of the four migration operations. */
module MigrationRuns {
  import opened MigrationLedger

  datatype Step =
    | BootstrapStep(migrations: seq<Migration>)
    | PendingStep(migrations: seq<Migration>, sql: Sql)
    | ExactStep(migrations: seq<Migration>, key: string, sole: bool, sql: Sql)
    | TargetsStep(migrations: seq<Migration>, sql: Sql)

  function Next(ledger: Ledger, step: Step, user: string): (Ledger, Reply) {
    match step
    case BootstrapStep(migrations) => Bootstrap(ledger, migrations, user)
    case PendingStep(migrations, sql) => ApplyPending(ledger, migrations, sql, user)
    case ExactStep(migrations, key, sole, sql) => ApplyExact(ledger, migrations, key, sole, sql, user)
    case TargetsStep(migrations, sql) => ApplyTargets(ledger, migrations, sql, user)
  }

  // ---------- what is pending ----------

  lemma {:induction false} PendingMembers(migrations: seq<Migration>, tracking: map<string, TrackedRow>)
    ensures forall m :: m in Pending(migrations, tracking) <==> m in migrations && m.key !in tracking
    ensures DistinctKeys(migrations) ==> DistinctKeys(Pending(migrations, tracking))
  {
    if migrations != [] {
      var rest := Pending(migrations[1..], tracking);
      PendingMembers(migrations[1..], tracking);
      assert migrations == [migrations[0]] + migrations[1..];
      if DistinctKeys(migrations) { DistinctTail(migrations, rest); }
    }
  }

  lemma {:induction false} DistinctTail(migrations: seq<Migration>, rest: seq<Migration>)
    requires migrations != [] && DistinctKeys(migrations)
    requires DistinctKeys(migrations[1..]) ==> DistinctKeys(rest)
    requires forall m :: m in rest ==> m in migrations[1..]
    ensures DistinctKeys(rest) && DistinctKeys([migrations[0]] + rest)
  {
    assert DistinctKeys(migrations[1..]);
    forall m | m in rest
      ensures m.key != migrations[0].key
    {
      var k :| 0 <= k < |migrations[1..]| && migrations[1..][k] == m;
      assert migrations[k + 1] == m;
    }
  }

  /** Sorted by version and name, as the files are discovered. */
  ghost predicate InOrder(migrations: seq<Migration>, before: (Migration, Migration) -> bool) {
    forall i, j :: 0 <= i < j < |migrations| ==> before(migrations[i], migrations[j])
  }

  /** The pending list keeps whatever order the files have. */
  lemma {:induction false} PendingInOrder(migrations: seq<Migration>, tracking: map<string, TrackedRow>, before: (Migration, Migration) -> bool)
    requires InOrder(migrations, before)
    ensures InOrder(Pending(migrations, tracking), before)
  {
    if migrations != [] {
      PendingInOrder(migrations[1..], tracking, before);
      PendingMembers(migrations[1..], tracking);
      var rest := Pending(migrations[1..], tracking);
      forall m | m in rest
        ensures before(migrations[0], m)
      {
        assert m in migrations[1..];
      }
    }
  }

  // ---------- apply pending ----------

  ghost predicate Untracked(ledger: Ledger, migrations: seq<Migration>) {
    forall k :: 0 <= k < |migrations| ==> migrations[k].key !in ledger.tracking
  }

  lemma {:induction false} PendingIsUntracked(ledger: Ledger, migrations: seq<Migration>)
    ensures Untracked(ledger, Pending(migrations, ledger.tracking))
    ensures DistinctKeys(migrations) ==> DistinctKeys(Pending(migrations, ledger.tracking))
  {
    var pending := Pending(migrations, ledger.tracking);
    PendingMembers(migrations, ledger.tracking);
    assert forall k :: 0 <= k < |pending| ==> pending[k] in pending;
  }

  lemma {:induction false} CommitLeavesRestUntracked(ledger: Ledger, pending: seq<Migration>, views: set<string>, user: string)
    requires pending != [] && DistinctKeys(pending) && Untracked(ledger, pending)
    ensures Untracked(Commit(ledger, pending[0], views, ScriptApply, user), pending[1..]) && DistinctKeys(pending[1..])
  {
  }

  /** The ledger after the first `n` pending migrations have committed, one transaction each. */
  ghost function CommitFirst(ledger: Ledger, pending: seq<Migration>, n: nat, sql: Sql, user: string): Ledger
    requires n <= |pending|
    decreases n
  {
    if n == 0 then ledger
    else
      match sql(pending[0].key, ledger.views)
      case Commits(views) => CommitFirst(Commit(ledger, pending[0], views, ScriptApply, user), pending[1..], n - 1, sql, user)
      case _ => ledger
  }

  /** Each of the first `n` pending migrations commits and is reported. */
  ghost predicate FirstSucceed(ledger: Ledger, pending: seq<Migration>, n: nat, sql: Sql, user: string)
    requires n <= |pending|
    decreases n
  {
    n == 0 ||
    match sql(pending[0].key, ledger.views)
    case Commits(views) => FirstSucceed(Commit(ledger, pending[0], views, ScriptApply, user), pending[1..], n - 1, sql, user)
    case _ => false
  }

  /** The keys of the other migrations keep their rows. */
  ghost predicate SameRowsExcept(before: Ledger, after: Ledger, touched: seq<string>) {
    forall key | key !in touched ::
      && (key in after.tracking <==> key in before.tracking)
      && (key in before.tracking ==> after.tracking[key] == before.tracking[key])
  }

  lemma {:induction false} CommitFirstLog(ledger: Ledger, pending: seq<Migration>, n: nat, sql: Sql, user: string)
    requires n <= |pending| && FirstSucceed(ledger, pending, n, sql, user)
    ensures var after := CommitFirst(ledger, pending, n, sql, user);
      after.committed == ledger.committed + Keys(pending[..n]) && after.tableExists == ledger.tableExists
    decreases n
  {
    if n > 0 {
      var next := Commit(ledger, pending[0], sql(pending[0].key, ledger.views).views, ScriptApply, user);
      CommitFirstLog(next, pending[1..], n - 1, sql, user);
      assert Keys(pending[..n]) == [pending[0].key] + Keys(pending[1..][..n - 1]);
    }
  }

  lemma {:induction false} LaterKeysDiffer(pending: seq<Migration>, n: nat)
    requires pending != [] && DistinctKeys(pending) && n < |pending|
    ensures pending[0].key !in Keys(pending[1..][..n]) && DistinctKeys(pending[1..])
  {
    var later := pending[1..][..n];
    forall k | 0 <= k < n
      ensures Keys(later)[k] != pending[0].key
    {
      assert later[k] == pending[k + 1];
    }
  }

  lemma {:induction false} CommitFirstRows(ledger: Ledger, pending: seq<Migration>, n: nat, sql: Sql, user: string)
    requires n <= |pending| && FirstSucceed(ledger, pending, n, sql, user) && DistinctKeys(pending)
    ensures var after := CommitFirst(ledger, pending, n, sql, user);
      && SameRowsExcept(ledger, after, Keys(pending[..n]))
      && forall k :: 0 <= k < n ==> IsSuccess(after, pending[k].key)
    decreases n
  {
    if n > 0 {
      var next := Commit(ledger, pending[0], sql(pending[0].key, ledger.views).views, ScriptApply, user);
      var after := CommitFirst(ledger, pending, n, sql, user);
      CommitFirstRows(next, pending[1..], n - 1, sql, user);
      assert forall k :: 1 <= k < n ==> pending[k] == pending[1..][k - 1];
      assert Keys(pending[..n]) == [pending[0].key] + Keys(pending[1..][..n - 1]);
      LaterKeysDiffer(pending, n - 1);
      assert IsSuccess(next, pending[0].key);
    }
  }

  /** The loop stops after some `n` committed migrations, for one of three reasons. */
  lemma {:induction false} ApplyEachStops(ledger: Ledger, pending: seq<Migration>, sql: Sql, user: string, applied: nat) returns (n: nat)
    requires ledger.tableExists
    ensures n <= |pending| && FirstSucceed(ledger, pending, n, sql, user)
    ensures var (after, reply) := ApplyEach(ledger, pending, sql, user, applied);
      var first := CommitFirst(ledger, pending, n, sql, user);
      match reply
      case Done(count) => n == |pending| && after == first && count == applied + n
      case SqlFailed(key) =>
        && n < |pending| && key == pending[n].key && sql(key, first.views) == SqlFails
        && after == Track(first, pending[n], Failed, ScriptApply, user)
      case Unrecorded(key) =>
        && n < |pending| && key == pending[n].key && (sql(key, first.views).CommitsUnreported? || sql(key, first.views).CommitsUntracked?)
        && after == MarkFailed(first, pending[n], sql(key, first.views).views, user)
      case _ => false
    decreases |pending|
  {
    n := 0;
    if pending != [] && sql(pending[0].key, ledger.views).Commits? {
      var next := Commit(ledger, pending[0], sql(pending[0].key, ledger.views).views, ScriptApply, user);
      var rest := ApplyEachStops(next, pending[1..], sql, user, applied + 1);
      n := rest + 1;
    }
  }

  /**
   * What `apply_pending` leaves when a migration fails: exactly the migrations before it have
   * committed, in order, and read `success`; its own row reads `failed` without a commit; the later
   * ones are untracked; every other row is as before.
   */
  ghost predicate FailedAfterPrefix(ledger: Ledger, pending: seq<Migration>, after: Ledger, n: nat) {
    && n < |pending|
    && after.committed == ledger.committed + Keys(pending[..n])
    && (forall k :: 0 <= k < n ==> IsSuccess(after, pending[k].key))
    && pending[n].key in after.tracking && after.tracking[pending[n].key].status == Failed
    && (forall k :: n < k < |pending| ==> pending[k].key !in after.tracking)
    && SameRowsExcept(ledger, after, Keys(pending[..n + 1]))
  }

  lemma {:induction false} FailureLeavesPrefix(ledger: Ledger, pending: seq<Migration>, sql: Sql, user: string) returns (n: nat)
    requires ledger.tableExists && DistinctKeys(pending) && Untracked(ledger, pending)
    requires ApplyEach(ledger, pending, sql, user, 0).1.SqlFailed?
    ensures FailedAfterPrefix(ledger, pending, ApplyEach(ledger, pending, sql, user, 0).0, n)
    ensures ApplyEach(ledger, pending, sql, user, 0).1 == SqlFailed(pending[n].key)
  {
    n := ApplyEachStops(ledger, pending, sql, user, 0);
    var first := CommitFirst(ledger, pending, n, sql, user);
    CommitFirstLog(ledger, pending, n, sql, user);
    CommitFirstRows(ledger, pending, n, sql, user);
    UntouchedRows(ledger, first, pending, n);
    FailedRow(ledger, first, pending, n, user);
  }

  /** Marking migration `n` as failed after the first `n` have committed. */
  lemma {:induction false} FailedRow(ledger: Ledger, first: Ledger, pending: seq<Migration>, n: nat, user: string)
    requires n < |pending| && DistinctKeys(pending)
    requires first.committed == ledger.committed + Keys(pending[..n]) && SameRowsExcept(ledger, first, Keys(pending[..n]))
    requires forall k :: 0 <= k < n ==> IsSuccess(first, pending[k].key)
    requires forall k :: n <= k < |pending| ==> pending[k].key !in first.tracking
    ensures FailedAfterPrefix(ledger, pending, Track(first, pending[n], Failed, ScriptApply, user), n)
  {
    KeysUpTo(pending, n);
  }

  lemma {:induction false} KeysUpTo(pending: seq<Migration>, n: nat)
    requires n < |pending|
    ensures Keys(pending[..n + 1]) == Keys(pending[..n]) + [pending[n].key]
  {
  }

  lemma {:induction false} UntouchedRows(before: Ledger, after: Ledger, pending: seq<Migration>, n: nat)
    requires n <= |pending| && DistinctKeys(pending) && Untracked(before, pending)
    requires SameRowsExcept(before, after, Keys(pending[..n]))
    ensures forall k :: n <= k < |pending| ==> pending[k].key !in after.tracking
  {
    forall k | n <= k < |pending|
      ensures pending[k].key !in after.tracking
    {
      assert forall j :: 0 <= j < n ==> Keys(pending[..n])[j] == pending[j].key;
      assert pending[k].key !in Keys(pending[..n]);
    }
  }

  /** Success commits everything that was pending, in order, and leaves nothing pending. */
  lemma {:induction false} SuccessCommitsAll(ledger: Ledger, pending: seq<Migration>, sql: Sql, user: string)
    requires ledger.tableExists && DistinctKeys(pending) && Untracked(ledger, pending)
    requires ApplyEach(ledger, pending, sql, user, 0).1.Done?
    ensures var (after, reply) := ApplyEach(ledger, pending, sql, user, 0);
      && reply == Done(|pending|)
      && after.committed == ledger.committed + Keys(pending)
      && (forall k :: 0 <= k < |pending| ==> IsSuccess(after, pending[k].key))
      && SameRowsExcept(ledger, after, Keys(pending))
  {
    var n := ApplyEachStops(ledger, pending, sql, user, 0);
    CommitFirstLog(ledger, pending, n, sql, user);
    CommitFirstRows(ledger, pending, n, sql, user);
    assert pending[..n] == pending;
  }

  // ---------- a failed migration is not retried ----------

  lemma {:induction false} PendingAfter(migrations: seq<Migration>, before: map<string, TrackedRow>, after: map<string, TrackedRow>, m: Migration)
    requires before.Keys <= after.Keys
    ensures m in Pending(migrations, after) <==> m in Pending(migrations, before) && m.key !in after
  {
    PendingMembers(migrations, before);
    PendingMembers(migrations, after);
  }

  lemma {:induction false} TrackedIsNotPending(migrations: seq<Migration>, tracking: map<string, TrackedRow>, n: nat, key: string)
    requires n <= |Pending(migrations, tracking)| && key in tracking
    ensures key !in Keys(Pending(migrations, tracking)[..n])
  {
    var pending := Pending(migrations, tracking);
    PendingMembers(migrations, tracking);
    forall k | 0 <= k < n
      ensures Keys(pending[..n])[k] != key
    {
      assert pending[k] in pending;
    }
  }

  /**
   * After `apply_pending` stopped at a failing migration, the next `apply_pending` does not retry
   * it: what is pending then are just the migrations behind it.
   */
  lemma {:induction false} FailedIsSkipped(ledger: Ledger, migrations: seq<Migration>, sql: Sql, user: string) returns (n: nat)
    requires ledger.tableExists && DistinctKeys(migrations)
    requires ApplyPending(ledger, migrations, sql, user).1.SqlFailed?
    ensures var (after, reply) := ApplyPending(ledger, migrations, sql, user);
      var pending := Pending(migrations, ledger.tracking);
      && n < |pending| && reply == SqlFailed(pending[n].key)
      && forall m :: m in Pending(migrations, after.tracking) <==> m in pending[n + 1..]
  {
    var pending := Pending(migrations, ledger.tracking);
    PendingMembers(migrations, ledger.tracking);
    n := FailureLeavesPrefix(ledger, pending, sql, user);
    var after := ApplyPending(ledger, migrations, sql, user).0;
    forall key | key in ledger.tracking
      ensures key in after.tracking
    {
      TrackedIsNotPending(migrations, ledger.tracking, n + 1, key);
    }
    StillPending(migrations, ledger.tracking, after.tracking, n);
  }

  lemma {:induction false} StillPending(migrations: seq<Migration>, before: map<string, TrackedRow>, after: map<string, TrackedRow>, n: nat)
    requires before.Keys <= after.Keys && n < |Pending(migrations, before)|
    requires forall k :: 0 <= k < |Pending(migrations, before)| ==> (Pending(migrations, before)[k].key in after <==> k <= n)
    ensures forall m :: m in Pending(migrations, after) <==> m in Pending(migrations, before)[n + 1..]
  {
    forall m
      ensures m in Pending(migrations, after) <==> m in Pending(migrations, before)[n + 1..]
    {
      PendingAfter(migrations, before, after, m);
      BehindFailure(Pending(migrations, before), after, n, m);
    }
  }

  lemma {:induction false} BehindFailure(pending: seq<Migration>, after: map<string, TrackedRow>, n: nat, m: Migration)
    requires n < |pending|
    requires forall k :: 0 <= k < |pending| ==> (pending[k].key in after <==> k <= n)
    ensures m in pending && m.key !in after <==> m in pending[n + 1..]
  {
    if m in pending && m.key !in after {
      var k :| 0 <= k < |pending| && pending[k] == m;
      assert pending[n + 1..][k - n - 1] == m;
    }
  }

  // ---------- the files of one key ----------

  lemma {:induction false} MatchingKeys(migrations: seq<Migration>, key: string)
    ensures forall m :: m in Matching(migrations, key) ==> m.key == key
  {
    if migrations != [] { MatchingKeys(migrations[1..], key); }
  }

  lemma {:induction false} FileHasKey(migrations: seq<Migration>, key: string)
    requires HasFile(migrations, key)
    ensures FileOf(migrations, key).key == key
    decreases |migrations|
  {
    var n := |migrations| - 1;
    if migrations[n].key != key {
      var i :| 0 <= i < |migrations| && migrations[i].key == key;
      assert migrations[..n][i].key == key;
      FileHasKey(migrations[..n], key);
    }
  }

  /** The migrations the bundle will run, in order: 077 before 078, each only if it is not complete. */
  lemma {:induction false} TargetKeys(ledger: Ledger, migrations: seq<Migration>)
    requires HasFile(migrations, FOUNDATION) && HasFile(migrations, POLICY)
    ensures Keys(PendingTargets(ledger, migrations)) ==
      (if Complete(ledger, FOUNDATION) then [] else [FOUNDATION]) + (if Complete(ledger, POLICY) then [] else [POLICY])
  {
    FileHasKey(migrations, FOUNDATION);
    FileHasKey(migrations, POLICY);
  }

  // ---------- runs ----------

  ghost predicate WellFormed(step: Step) {
    match step
    case BootstrapStep(migrations) => DistinctKeys(migrations)
    case PendingStep(migrations, _) => DistinctKeys(migrations)
    case ExactStep(migrations, _, _, _) => DistinctKeys(migrations)
    case TargetsStep(migrations, _) => DistinctKeys(migrations)
  }

  ghost function Run(ledger: Ledger, steps: seq<Step>, user: string): Ledger
    decreases |steps|
  {
    if steps == [] then ledger else Run(Next(ledger, steps[0], user).0, steps[1..], user)
  }
}
