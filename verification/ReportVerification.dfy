/** The check that follows an applied requirement report, and what it does not notice. */
module ReportVerification {
  import opened Wrappers
  import opened RequirementReport

  const ASSESSED_BY := "deterministic_f4a_r2_requirement_evidence_v2"
  const UNKNOWN := "unknown"

  /** The checks on one stored row. */
  predicate RowPasses(stored: Payload, proposed: Payload) {
    && stored.marks.assessedBy == ASSESSED_BY
    && stored.marks.policyVersion == proposed.marks.policyVersion
    && stored.marks.hardFilterStatus == UNKNOWN && stored.marks.capabilityFitStatus == UNKNOWN
    && (forall k :: 0 <= k < |stored.marks.scores| ==> stored.marks.scores[k] == None)
    && stored.marks.marker.Some?
  }

  /** The cohort is a dictionary by job, so of several proposals for a job the last one is expected. */
  predicate IsExpected(proposals: seq<Proposal>, k: nat) {
    k < |proposals| && forall j :: k < j < |proposals| ==> proposals[j].jobId != proposals[k].jobId
  }

  predicate ProposalPasses(store: Store, proposal: Proposal) {
    && proposal.jobId in store.assessments && proposal.next.Some?
    && RowPasses(store.assessments[proposal.jobId].payload, proposal.next.value)
  }

  /** `verify_persisted` raises nothing. */
  predicate Verified(store: Store, proposals: seq<Proposal>) {
    proposals != [] && forall k :: 0 <= k < |proposals| && IsExpected(proposals, k) ==> ProposalPasses(store, proposals[k])
  }

  /** What the plan writes into every payload it builds. */
  predicate Decorated(payload: Payload) {
    RowPasses(payload, payload)
  }

  predicate AllDecorated(proposals: seq<Proposal>) {
    forall k :: 0 <= k < |proposals| ==> proposals[k].next.Some? && Decorated(proposals[k].next.value)
  }

  predicate DecoratedLedger(ledger: seq<Revision>) {
    forall i :: 0 <= i < |ledger| ==> Decorated(ledger[i].next)
  }

  lemma {:induction false} ApplyKeepsDecorated(store: Store, proposals: seq<Proposal>, appliedBy: string, now: int)
    requires Aligned(proposals) && AllDecorated(proposals) && DecoratedLedger(store.ledger)
    requires ApplyAll(store, proposals, appliedBy, now).Success?
    ensures DecoratedLedger(ApplyAll(store, proposals, appliedBy, now).value.0.ledger)
    decreases |proposals|
  {
    if proposals != [] {
      AlignedRest(proposals);
      ApplyOneWrites(store, proposals[0], appliedBy, now);
      assert forall k :: 0 <= k < |proposals| - 1 ==> proposals[1..][k] == proposals[k + 1];
      ApplyKeepsDecorated(ApplyOne(store, proposals[0], appliedBy, now).value.0, proposals[1..], appliedBy, now);
    }
  }

  /** On every run of reports with decorated payloads the ledger holds decorated payloads only. */
  lemma {:induction false} RunKeepsDecorated(store: Store, reports: seq<Report>)
    requires DecoratedLedger(store.ledger) && AllAligned(reports)
    requires forall k :: 0 <= k < |reports| ==> AllDecorated(reports[k].proposals)
    ensures DecoratedLedger(AfterReports(store, reports).ledger)
    decreases |reports|
  {
    if reports != [] {
      var first := reports[0];
      if ApplyAll(store, first.proposals, first.appliedBy, first.now).Success? {
        ApplyKeepsDecorated(store, first.proposals, first.appliedBy, first.now);
      }
      assert forall k :: 0 <= k < |reports| - 1 ==> reports[1..][k] == reports[k + 1];
      RunKeepsDecorated(AfterReport(store, first), reports[1..]);
    }
  }

  lemma {:induction false} NewestIsOnLedger(ledger: seq<Revision>, jobId: int, key: string)
    ensures Newest(ledger, jobId).Some? ==> Newest(ledger, jobId).value in ledger
    ensures InLedger(ledger, jobId, key) ==> Newest(ledger, jobId).Some?
    decreases |ledger|
  {
    if ledger != [] {
      var n := |ledger| - 1;
      NewestIsOnLedger(ledger[..n], jobId, key);
      if InLedger(ledger, jobId, key) && ledger[n].jobId != jobId {
        var i :| 0 <= i < |ledger| && ledger[i].jobId == jobId && ledger[i].key == key;
        assert ledger[..n][i] == ledger[i];
      }
    }
  }

  /** A job with a revision stores a decorated payload. */
  lemma {:induction false} StoredIsDecorated(store: Store, jobId: int, key: string)
    requires StoredIsNewest(store) && DecoratedLedger(store.ledger) && InLedger(store.ledger, jobId, key)
    ensures jobId in store.assessments && Decorated(store.assessments[jobId].payload)
  {
    NewestIsOnLedger(store.ledger, jobId, key);
    var newest := Newest(store.ledger, jobId).value;
    assert IsStored(store, jobId, newest.next);
    var i :| 0 <= i < |store.ledger| && store.ledger[i] == newest;
  }

  /** What a proposal leaves in its job's row: its own payload if it was new, otherwise what was there. */
  lemma {:induction false} RowAfter(store: Store, proposals: seq<Proposal>, appliedBy: string, now: int, k: nat)
    requires Aligned(proposals) && DistinctJobs(proposals) && ApplyAll(store, proposals, appliedBy, now).Success?
    requires k < |proposals|
    ensures var p, after := proposals[k], ApplyAll(store, proposals, appliedBy, now).value.0;
      if InLedger(store.ledger, p.jobId, p.key) then
        && (p.jobId in after.assessments <==> p.jobId in store.assessments)
        && (p.jobId in store.assessments ==> after.assessments[p.jobId] == store.assessments[p.jobId])
      else p.next.Some? && p.jobId in after.assessments && after.assessments[p.jobId] == Assessment(p.next.value, now)
    decreases |proposals|
  {
    AlignedRest(proposals);
    var first, rest := proposals[0], proposals[1..];
    ApplyOneWrites(store, first, appliedBy, now);
    var next := ApplyOne(store, first, appliedBy, now).value.0;
    assert forall j :: 0 <= j < |rest| ==> rest[j] == proposals[j + 1];
    if k == 0 {
      OtherJobsKeep(next, rest, appliedBy, now, first.jobId);
    } else {
      var p := proposals[k];
      assert rest[k - 1] == p && [p][0] == p;
      SucceedsExactly(store, proposals, appliedBy, now);
      ApplyOneFrame(store, first, p, appliedBy, now);
      RowAfter(next, rest, appliedBy, now, k - 1);
    }
  }

  /**
   * After a successful report the check passes exactly if every job whose proposal was on the ledger already
   * stores the proposal's policy version. The payloads themselves are not compared.
   */
  lemma {:induction false} VerifiedExactly(store: Store, proposals: seq<Proposal>, appliedBy: string, now: int)
    requires Aligned(proposals) && DistinctJobs(proposals) && AllDecorated(proposals) && proposals != []
    requires StoredIsNewest(store) && DecoratedLedger(store.ledger)
    requires ApplyAll(store, proposals, appliedBy, now).Success?
    ensures Verified(ApplyAll(store, proposals, appliedBy, now).value.0, proposals)
      <==> forall k :: 0 <= k < |proposals| ==> KeepsPolicyVersion(store, proposals[k])
  {
    var after := ApplyAll(store, proposals, appliedBy, now).value.0;
    forall k | 0 <= k < |proposals|
      ensures IsExpected(proposals, k) && (ProposalPasses(after, proposals[k]) <==> KeepsPolicyVersion(store, proposals[k]))
    {
      var p := proposals[k];
      RowAfter(store, proposals, appliedBy, now, k);
      if InLedger(store.ledger, p.jobId, p.key) { StoredIsDecorated(store, p.jobId, p.key); }
    }
  }

  /** New to the ledger, or the job stores the same policy version already. */
  predicate KeepsPolicyVersion(store: Store, proposal: Proposal) {
    InLedger(store.ledger, proposal.jobId, proposal.key) ==>
      && proposal.jobId in store.assessments && proposal.next.Some?
      && store.assessments[proposal.jobId].payload.marks.policyVersion == proposal.next.value.marks.policyVersion
  }

  /**
   * Which rows pass although they do not hold what was proposed: exactly those whose proposal was on the ledger
   * already and which store another payload of the same policy version.
   */
  lemma {:induction false} StaleRowsPassExactly(store: Store, proposals: seq<Proposal>, appliedBy: string, now: int, k: nat)
    requires Aligned(proposals) && DistinctJobs(proposals) && AllDecorated(proposals) && k < |proposals|
    requires StoredIsNewest(store) && DecoratedLedger(store.ledger)
    requires ApplyAll(store, proposals, appliedBy, now).Success?
    ensures var p, after := proposals[k], ApplyAll(store, proposals, appliedBy, now).value.0;
      ProposalPasses(after, p) && !IsStored(after, p.jobId, p.next.value)
      <==> InLedger(store.ledger, p.jobId, p.key) && !IsStored(store, p.jobId, p.next.value) && KeepsPolicyVersion(store, p)
  {
    var p := proposals[k];
    RowAfter(store, proposals, appliedBy, now, k);
    if InLedger(store.ledger, p.jobId, p.key) { StoredIsDecorated(store, p.jobId, p.key); }
  }

  /** Evidence that goes from `a` to `b` and back passes the check under one policy version, with `b` still stored. */
  lemma {:induction false} ReturningEvidencePasses(store: Store, a: Proposal, b: Proposal, back: Proposal, appliedBy: string, t1: int, t2: int, t3: int)
    requires Aligned([a]) && Aligned([b]) && a.jobId == b.jobId == back.jobId && a.key == back.key && a.next == back.next
    requires a.sourceName == b.sourceName == back.sourceName && a.sourceUrl == b.sourceUrl == back.sourceUrl
    requires ApplyAll(store, [a], appliedBy, t1).Success? && !InLedger(store.ledger, b.jobId, b.key)
    requires b.key != a.key && b.next != a.next && b.next.Some? && b.mode == "update" && b.assessmentUpdatedAt == Some(t1)
    requires !InLedger(store.ledger, a.jobId, a.key) && a.next.Some?
    requires Decorated(b.next.value) && b.next.value.marks.policyVersion == a.next.value.marks.policyVersion
    ensures var s1 := ApplyAll(store, [a], appliedBy, t1).value.0;
      ApplyAll(s1, [b], appliedBy, t2).Success? &&
      var s2 := ApplyAll(s1, [b], appliedBy, t2).value.0;
      && ApplyAll(s2, [back], appliedBy, t3) == Success((s2, Counts(0, 0, 1)))
      && Verified(s2, [back]) && !IsStored(s2, back.jobId, back.next.value)
  {
    ReturningEvidenceStaysStale(store, a, b, back, appliedBy, t1, t2, t3);
    assert [back][0] == back;
  }
}
