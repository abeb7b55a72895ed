/** Which jobs a requirement report may write, told from the tables and the proposals' fields. */
module ReportRevalidation {
  import opened Wrappers
  import opened RequirementReport

  /** The job is still active, under the proposal's source and URL. */
  predicate IsCurrent(bindings: map<int, Binding>, p: Proposal) {
    p.jobId in bindings && bindings[p.jobId] == Binding(p.sourceName, p.sourceUrl, "active_confirmed")
  }

  predicate OnLedger(ledger: seq<Revision>, p: Proposal) {
    exists i :: 0 <= i < |ledger| && ledger[i].jobId == p.jobId && ledger[i].key == p.key
  }

  /** The assessment is as the plan saw it. */
  predicate MayUpdate(store: Store, p: Proposal) {
    && p.mode == "update" && p.jobId in store.silver && p.jobId in store.assessments
    && p.assessmentUpdatedAt == Some(store.assessments[p.jobId].updatedAt)
  }

  predicate MayInsert(store: Store, p: Proposal) {
    p.mode == "insert" && p.jobId in store.silver && p.jobId !in store.assessments
  }

  predicate MayApply(store: Store, p: Proposal) {
    IsCurrent(store.bindings, p) && (OnLedger(store.ledger, p) || (p.next.Some? && (MayUpdate(store, p) || MayInsert(store, p))))
  }

  lemma {:induction false} OneAppliesExactly(store: Store, p: Proposal, appliedBy: string, now: int)
    requires Aligned([p])
    ensures ApplyOne(store, p, appliedBy, now).Success? <==> MayApply(store, p)
  {
    assert [p][0] == p;
    OnLedgerIs(store.ledger, p);
    assert "update" != "insert" by { assert "update"[0] != "insert"[0]; }
  }

  lemma {:induction false} OnLedgerIs(ledger: seq<Revision>, p: Proposal)
    ensures OnLedger(ledger, p) <==> InLedger(ledger, p.jobId, p.key)
  {
  }

  /** Why a proposal is refused, in the order of the checks. */
  lemma {:induction false} OneRefuses(store: Store, p: Proposal, appliedBy: string, now: int)
    requires Aligned([p])
    ensures var result := ApplyOne(store, p, appliedBy, now);
      var known := p.jobId in store.bindings;
      var active := known && store.bindings[p.jobId].lifecycle == "active_confirmed";
      var source := active && store.bindings[p.jobId].sourceName == p.sourceName;
      var open := source && store.bindings[p.jobId].sourceUrl == p.sourceUrl && !OnLedger(store.ledger, p);
      && (result == Failure(LeftCurrentTruth) <==> !known)
      && (result == Failure(NotActive) <==> known && !active)
      && (result == Failure(SourceChanged) <==> active && !source)
      && (result == Failure(UrlChanged) <==> source && store.bindings[p.jobId].sourceUrl != p.sourceUrl)
      && (result == Failure(PayloadMissing) <==> open && p.next == None)
      && (result == Failure(UnsupportedMode) <==> open && p.next.Some? && p.mode != "update" && p.mode != "insert")
      && (result == Failure(AssessmentDisappeared) <==> open && p.next.Some? && p.mode == "update" && p.jobId !in store.assessments)
      && (result == Failure(AssessmentChanged) <==>
            && open && p.next.Some? && p.mode == "update" && p.jobId in store.assessments
            && p.assessmentUpdatedAt != Some(store.assessments[p.jobId].updatedAt))
      && (result == Failure(SilverDisappeared) <==> open && p.next.Some? && p.mode == "insert" && p.jobId !in store.silver)
      && (result == Failure(AssessmentAppeared) <==>
            open && p.next.Some? && p.mode == "insert" && p.jobId in store.silver && p.jobId in store.assessments)
  {
    assert [p][0] == p;
    OnLedgerIs(store.ledger, p);
    assert "update" != "insert" by { assert "update"[0] != "insert"[0]; }
  }

  /**
   * For distinct jobs the report goes through exactly if each job is still active under the proposal's source and URL,
   * and the proposal is either on the ledger, or updates an assessment that has not moved, or inserts a missing one.
   */
  lemma {:induction false} ReportAppliesExactly(store: Store, proposals: seq<Proposal>, appliedBy: string, now: int)
    requires Aligned(proposals) && DistinctJobs(proposals)
    ensures ApplyAll(store, proposals, appliedBy, now).Success? <==>
      forall k :: 0 <= k < |proposals| ==> MayApply(store, proposals[k])
  {
    SucceedsExactly(store, proposals, appliedBy, now);
    forall k | 0 <= k < |proposals|
      ensures ApplyOne(store, proposals[k], appliedBy, now).Success? <==> MayApply(store, proposals[k])
    {
      assert [proposals[k]][0] == proposals[k];
      OneAppliesExactly(store, proposals[k], appliedBy, now);
    }
  }

  /** Any report that goes through, repeated jobs or not, is about current jobs alone. */
  lemma {:induction false} WrittenJobsAreCurrent(store: Store, proposals: seq<Proposal>, appliedBy: string, now: int)
    requires Aligned(proposals) && ApplyAll(store, proposals, appliedBy, now).Success?
    ensures forall k :: 0 <= k < |proposals| ==> IsCurrent(store.bindings, proposals[k])
    decreases |proposals|
  {
    if proposals != [] {
      AlignedRest(proposals);
      OneAppliesExactly(store, proposals[0], appliedBy, now);
      ApplyOneWrites(store, proposals[0], appliedBy, now);
      WrittenJobsAreCurrent(ApplyOne(store, proposals[0], appliedBy, now).value.0, proposals[1..], appliedBy, now);
      assert forall k :: 0 < k < |proposals| ==> proposals[k] == proposals[1..][k - 1];
    }
  }

  /** The revision repeats the proposal and says what it replaced and who applied it. */
  predicate RevisionFor(revision: Revision, p: Proposal, appliedBy: string) {
    && revision.jobId == p.jobId && revision.key == p.key && revision.appliedBy == appliedBy
    && revision.previous == p.previous && Some(revision.next) == p.next
  }

  /** Every row a report adds to the ledger is the revision of a proposal of its own that is about a current job. */
  lemma {:induction false} NewRevisionsAreProposed(store: Store, proposals: seq<Proposal>, appliedBy: string, now: int, i: nat)
    requires Aligned(proposals) && ApplyAll(store, proposals, appliedBy, now).Success?
    requires |store.ledger| <= i < |ApplyAll(store, proposals, appliedBy, now).value.0.ledger|
    ensures exists k ::
      && 0 <= k < |proposals| && IsCurrent(store.bindings, proposals[k])
      && RevisionFor(ApplyAll(store, proposals, appliedBy, now).value.0.ledger[i], proposals[k], appliedBy)
    decreases |proposals|
  {
    if proposals != [] {
      AlignedRest(proposals);
      WrittenJobsAreCurrent(store, proposals, appliedBy, now);
      ApplyOneWrites(store, proposals[0], appliedBy, now);
      var next, rest := ApplyOne(store, proposals[0], appliedBy, now).value.0, proposals[1..];
      CountsAddUp(next, rest, appliedBy, now);
      var end := ApplyAll(store, proposals, appliedBy, now).value.0;
      if i < |next.ledger| {
        assert end.ledger[i] == next.ledger[i];
        assert RevisionFor(end.ledger[i], proposals[0], appliedBy);
      } else {
        NewRevisionsAreProposed(next, rest, appliedBy, now, i);
        var k :| 0 <= k < |rest| && RevisionFor(end.ledger[i], rest[k], appliedBy);
        assert proposals[k + 1] == rest[k];
      }
    }
  }
}
