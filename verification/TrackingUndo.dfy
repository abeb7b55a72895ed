/** Undoing a recording after other actions and writers have gone on for a while. */
module TrackingUndo {
  import opened Wrappers
  import opened TrackingModel
  import opened TrackingRuns

  /** The application is owned and carries this operator submission of this confirmer. */
  ghost predicate Held(tables: Tables, a: int, s: int, confirmedBy: string) {
    && a in tables.applications && Owned(tables.applications[a]) && tables.applications[a].kind != MailboxObserved
    && IsSubmissionOf(tables, a, s) && tables.submissions[s].authority == OperatorConfirmation
    && tables.submissions[s].confirmedBy == confirmedBy
  }

  /** The step does not itself remove the submission of the application. */
  ghost predicate Leaves(store: Store, step: Step, a: int) {
    step.RemoveStep? && step.removal.applicationId == a ==> !Remove(store, step.removal).1.Removed?
  }

  /** The step brings an event to the submission or evidence to the application. */
  ghost predicate Attaches(store: Store, step: Step, a: int, s: int) {
    match step
    case EventStep(_, event) => event.submissionId == s
    case EvidenceStep(_, candidate) => candidate.matchedApplicationId == Some(a)
    case MergeStep(canonicalId, duplicateId) => canonicalId == a && CandidatesOf(store.tables, duplicateId) != {}
    case _ => false
  }

  lemma {:induction false} RecordHolds(store: Store, request: SubmissionRequest)
    requires Consistent(store) && Record(store, request).1.Recorded? && Record(store, request).1.created
    ensures var (after, reply) := Record(store, request);
      && Held(after.tables, reply.applicationId, reply.submissionId, request.confirmedBy)
      && EventsOf(after.tables, reply.submissionId) == {} && CandidatesOf(after.tables, reply.applicationId) == {}
  {
    RecordShape(store, request);
    RecordEstablishes(store, request);
    NothingAttachedYet(store);
    var (after, reply) := Record(store, request);
    assert EventsOf(after.tables, reply.submissionId) == EventsOf(store.tables, reply.submissionId);
    assert CandidatesOf(after.tables, reply.applicationId) == CandidatesOf(store.tables, reply.applicationId);
  }

  lemma {:induction false} ActionKeepsHeld(store: Store, step: Step, a: int, s: int, confirmedBy: string)
    requires Consistent(store) && Held(store.tables, a, s, confirmedBy) && Leaves(store, step, a)
    requires step.RecordStep? || step.RemoveStep? || step.CorrectStep?
    ensures Held(Next(store, step).0.tables, a, s, confirmedBy)
  {
    match step
    case RecordStep(other) => RecordOnlyAdds(store, other);
    case RemoveStep(removal) => RemoveTouchesOneSubmission(store, removal);
    case CorrectStep(title, now) => CorrectionFillsOnlyMissingTitles(store, title, now);
  }

  lemma {:induction false} WriterKeepsHeld(store: Store, step: Step, a: int, s: int, confirmedBy: string)
    requires Consistent(store) && Held(store.tables, a, s, confirmedBy)
    requires !step.RecordStep? && !step.RemoveStep? && !step.CorrectStep?
    ensures Held(Next(store, step).0.tables, a, s, confirmedBy)
  {
  }

  lemma {:induction false} StepKeepsHeld(store: Store, step: Step, a: int, s: int, confirmedBy: string)
    requires Consistent(store) && Held(store.tables, a, s, confirmedBy) && Leaves(store, step, a)
    ensures Held(Next(store, step).0.tables, a, s, confirmedBy)
  {
    if step.RecordStep? || step.RemoveStep? || step.CorrectStep? {
      ActionKeepsHeld(store, step, a, s, confirmedBy);
    } else {
      WriterKeepsHeld(store, step, a, s, confirmedBy);
    }
  }

  ghost predicate LeavesThroughout(store: Store, steps: seq<Step>, a: int)
    decreases |steps|
  {
    steps == [] || (Leaves(store, steps[0], a) && LeavesThroughout(Next(store, steps[0]).0, steps[1..], a))
  }

  lemma {:induction false} RunKeepsHeld(store: Store, steps: seq<Step>, a: int, s: int, confirmedBy: string)
    requires Consistent(store) && Held(store.tables, a, s, confirmedBy) && LeavesThroughout(store, steps, a)
    ensures Held(Run(store, steps).tables, a, s, confirmedBy) && Consistent(Run(store, steps))
    decreases |steps|
  {
    if steps != [] {
      StepKeepsHeld(store, steps[0], a, s, confirmedBy);
      StepKeepsConsistent(store, steps[0]);
      RunKeepsHeld(Next(store, steps[0]).0, steps[1..], a, s, confirmedBy);
    }
  }

  /** Removing a held submission: refused with history, without the application with evidence, else both rows and no other. */
  lemma {:induction false} RemoveHeld(store: Store, a: int, s: int, confirmedBy: string)
    requires Consistent(store) && Held(store.tables, a, s, confirmedBy)
    ensures var (after, answer) := Remove(store, RemovalRequest(a, confirmedBy)); var t := store.tables;
      if EventsOf(t, s) != {} then after == store && answer == Rejected(LifecycleHistoryPresent)
      else if CandidatesOf(t, a) != {} then
        after.tables == t.(submissions := t.submissions - {s}) && answer == Removed(a, false, |CandidatesOf(t, a)|)
      else
        && after.tables == t.(submissions := t.submissions - {s}, applications := t.applications - {a})
        && answer == Removed(a, true, 0)
  {
    SubmissionOfIs(store.tables, s);
  }

  /**
   * After a recording that created its application and any run that does not remove it, however long, the removal
   * is refused if an event has come, takes the submission alone if evidence has come, and otherwise deletes exactly
   * that application and that submission.
   */
  lemma {:induction false} RemoveAfterRun(store: Store, request: SubmissionRequest, steps: seq<Step>)
    requires Consistent(store) && Record(store, request).1.Recorded? && Record(store, request).1.created
    requires LeavesThroughout(Record(store, request).0, steps, Record(store, request).1.applicationId)
    ensures var (recorded, reply) := Record(store, request);
      var a, s, end := reply.applicationId, reply.submissionId, Run(recorded, steps);
      var (after, answer) := Remove(end, RemovalRequest(a, request.confirmedBy)); var t := end.tables;
      && a in t.applications && s in t.submissions
      && if EventsOf(t, s) != {} then after == end && answer == Rejected(LifecycleHistoryPresent)
         else if CandidatesOf(t, a) != {} then
           after.tables == t.(submissions := t.submissions - {s}) && answer == Removed(a, false, |CandidatesOf(t, a)|)
         else
           && after.tables == t.(submissions := t.submissions - {s}, applications := t.applications - {a})
           && answer == Removed(a, true, 0)
  {
    var (recorded, reply) := Record(store, request);
    RecordHolds(store, request);
    RecordKeepsConsistent(store, request);
    RunKeepsHeld(recorded, steps, reply.applicationId, reply.submissionId, request.confirmedBy);
    RemoveHeld(Run(recorded, steps), reply.applicationId, reply.submissionId, request.confirmedBy);
  }

  // ---------- runs that attach nothing ----------

  lemma {:induction false} StepAttachesNothing(store: Store, step: Step, a: int, s: int)
    requires Consistent(store) && !Attaches(store, step, a, s)
    requires EventsOf(store.tables, s) == {} && CandidatesOf(store.tables, a) == {}
    ensures EventsOf(Next(store, step).0.tables, s) == {} && CandidatesOf(Next(store, step).0.tables, a) == {}
  {
    match step
    case RecordStep(request) => RecordKeepsAttachments(store, request);
    case EventStep(id, event) => EventsOfMore(store.tables, id, event, s);
    case EvidenceStep(id, candidate) => CandidatesOfMore(store.tables, id, candidate, a);
    case MergeStep(canonicalId, duplicateId) => MergeAttachesNothing(store, canonicalId, duplicateId, a);
    case SupersedeStep(id) => SupersedeAttachesNothing(store, id, a);
    case CleanupStep(cohort) => CleanUpAttachesNothing(store, cohort, a);
    case _ => OtherStepAttachesNothing(store, step);
  }

  lemma {:induction false} OtherStepAttachesNothing(store: Store, step: Step)
    requires !step.RecordStep? && !step.EventStep? && !step.EvidenceStep? && !step.MergeStep?
    requires !step.SupersedeStep? && !step.CleanupStep?
    ensures Next(store, step).0.tables.events == store.tables.events
    ensures Next(store, step).0.tables.candidates == store.tables.candidates
  {
  }

  lemma {:induction false} EventsOfMore(tables: Tables, id: int, event: LifecycleEvent, s: int)
    requires EventsOf(tables, s) == {} && event.submissionId != s
    ensures EventsOf(tables.(events := tables.events[id := event]), s) == {}
  {
    assert forall e :: e in tables.events && tables.events[e].submissionId == s ==> e in EventsOf(tables, s);
  }

  lemma {:induction false} CandidatesOfMore(tables: Tables, id: int, candidate: EventCandidate, a: int)
    requires CandidatesOf(tables, a) == {} && candidate.matchedApplicationId != Some(a)
    ensures CandidatesOf(tables.(candidates := tables.candidates[id := candidate]), a) == {}
  {
    assert forall c :: c in tables.candidates && tables.candidates[c].matchedApplicationId == Some(a) ==> c in CandidatesOf(tables, a);
  }

  lemma {:induction false} RecordKeepsAttachments(store: Store, request: SubmissionRequest)
    requires Consistent(store)
    ensures var after := Record(store, request).0.tables;
      after.events == store.tables.events && after.candidates == store.tables.candidates
  {
    OtherwiseNothingIsRecorded(store, request);
    if Record(store, request).1.Recorded? { RecordShape(store, request); }
  }

  lemma {:induction false} MergeAttachesNothing(store: Store, canonicalId: int, duplicateId: int, a: int)
    requires CandidatesOf(store.tables, a) == {} && (canonicalId == a ==> CandidatesOf(store.tables, duplicateId) == {})
    ensures CandidatesOf(Merge(store, canonicalId, duplicateId).tables, a) == {}
  {
    var before, after := store.tables, Merge(store, canonicalId, duplicateId).tables;
    forall c | c in after.candidates
      ensures after.candidates[c].matchedApplicationId != Some(a)
    {
      assert c in before.candidates && c !in CandidatesOf(before, a);
      assert canonicalId == a ==> c !in CandidatesOf(before, duplicateId);
    }
    assert CandidatesOf(after, a) == {};
  }

  lemma {:induction false} SupersedeAttachesNothing(store: Store, id: int, a: int)
    requires CandidatesOf(store.tables, a) == {}
    ensures CandidatesOf(SupersedeEvidence(store, id).tables, a) == {}
  {
    assert id in store.tables.candidates ==> id !in CandidatesOf(store.tables, a);
    assert CandidatesOf(SupersedeEvidence(store, id).tables, a) == CandidatesOf(store.tables, a);
  }

  lemma {:induction false} CleanUpAttachesNothing(store: Store, cohort: set<int>, a: int)
    requires CandidatesOf(store.tables, a) == {}
    ensures CandidatesOf(CleanUp(store, cohort).tables, a) == {}
  {
    var before, after := store.tables, CleanUp(store, cohort).tables;
    forall c | c in after.candidates
      ensures after.candidates[c].matchedApplicationId != Some(a)
    {
      assert c in before.candidates && c !in CandidatesOf(before, a);
    }
    assert CandidatesOf(after, a) == {};
  }

  ghost predicate AttachesNothing(store: Store, steps: seq<Step>, a: int, s: int)
    decreases |steps|
  {
    steps == [] || (!Attaches(store, steps[0], a, s) && AttachesNothing(Next(store, steps[0]).0, steps[1..], a, s))
  }

  lemma {:induction false} RunAttachesNothing(store: Store, steps: seq<Step>, a: int, s: int)
    requires Consistent(store) && AttachesNothing(store, steps, a, s)
    requires EventsOf(store.tables, s) == {} && CandidatesOf(store.tables, a) == {}
    ensures EventsOf(Run(store, steps).tables, s) == {} && CandidatesOf(Run(store, steps).tables, a) == {}
    decreases |steps|
  {
    if steps != [] {
      StepAttachesNothing(store, steps[0], a, s);
      StepKeepsConsistent(store, steps[0]);
      RunAttachesNothing(Next(store, steps[0]).0, steps[1..], a, s);
    }
  }

  /** The undo over an interval: when nothing was attached meanwhile, removal deletes both rows and nothing else. */
  lemma {:induction false} RemoveUndoesAcrossRun(store: Store, request: SubmissionRequest, steps: seq<Step>)
    requires Consistent(store) && Record(store, request).1.Recorded? && Record(store, request).1.created
    requires var (recorded, reply) := Record(store, request);
      && LeavesThroughout(recorded, steps, reply.applicationId)
      && AttachesNothing(recorded, steps, reply.applicationId, reply.submissionId)
    ensures var (recorded, reply) := Record(store, request);
      var a, s, end := reply.applicationId, reply.submissionId, Run(recorded, steps);
      var (after, answer) := Remove(end, RemovalRequest(a, request.confirmedBy));
      && a in end.tables.applications && s in end.tables.submissions && answer == Removed(a, true, 0)
      && after.tables == end.tables.(
           submissions := end.tables.submissions - {s}, applications := end.tables.applications - {a})
  {
    var (recorded, reply) := Record(store, request);
    RecordHolds(store, request);
    RecordKeepsConsistent(store, request);
    RunAttachesNothing(recorded, steps, reply.applicationId, reply.submissionId);
    RemoveAfterRun(store, request, steps);
  }
}
