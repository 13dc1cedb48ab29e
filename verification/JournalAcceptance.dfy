/**
 Which records are accepted, said of the history alone: of the steps an operation has, of its failure,
 and of whether its rollback has begun and its end been recorded. No state label decides anything
 that these do not.
*/
module JournalAcceptance {
  import opened Basics
  import opened Patterns
  import opened JournalModel
  import opened JournalMachine
  import opened JournalInvariant
  import opened JournalKeeps
  import opened JournalReplay
  import opened JournalHistory
  import opened JournalProgress
  import opened JournalRetries
  import opened JournalRuns
  import opened StringOrder
  import opened Approvals

  // ---------------------------------------------------------------- labels

  /** With nothing in flight, the label of an unfinished operation is a matter of its history. */
  lemma LabelOf(op: Operation, components: seq<string>)
    requires OperationOK(op, components) && !Busy(op.steps) && op.finishedAt == UNSET
    ensures Unfailed(op) ==> op.state == if op.steps == [] then Approved else PhaseState(Last(op.steps).phase, Approved)
    ensures op.failure.Some? && !op.rollbackStarted ==> op.state == HasFailed
    ensures op.rollbackStarted ==>
      op.state == if op.steps != [] && Last(op.steps).phase == Rollback && Last(op.steps).status == Failed
                  then NeedsRecovery else RollingBack
  {
    hide Extends, HasMutation, HasRollbackStep;
    OnlyLastRuns(op.steps, components);
  }

  /** Read from the newest step: what phases the history contains. */
  lemma PhasesOf(op: Operation, components: seq<string>)
    requires OperationOK(op, components) && op.steps != []
    ensures Last(op.steps) in op.steps && !Last(op.steps).phase.OtherPhase?
    ensures forall s | s in op.steps :: Rank(s.phase) <= Rank(Last(op.steps).phase) && !s.phase.OtherPhase?
    ensures !op.rollbackStarted ==> Last(op.steps).phase != Rollback
    ensures forall s | s in op.steps :: s.mode == ModeOf(s.phase)
  {
    hide Extends, StateOK, StepOK;
    OnlyLastRuns(op.steps, components);
    RanksBelowLast(op.steps, components);
    KnownPhases(op.steps);
    assert Last(op.steps) in op.steps;
  }

  lemma KnownPhases(steps: seq<Step>)
    requires forall s | s in steps :: StepOK(s)
    ensures forall s | s in steps :: !s.phase.OtherPhase? && s.mode == ModeOf(s.phase)
  {
    hide ValidID, ValidPolicy;
  }

  // ---------------------------------------------------------------- starting a step

  /** A request as a caller may make it, stamped by the journal. */
  predicate WellFormed(step: Step) {
    && ValidID(step.operationID) && ValidID(step.stepID) && ValidID(step.componentID) && step.attempt >= 1
    && step.startedAt != UNSET && step.finishedAt == UNSET && step.status == Running
    && step.result == "" && step.reason == "" && !step.recovered && (step.retry ==> step.attempt >= 2)
    && match step.phase
       case Preflight => step.mode == ReadOnly && Harmless(step) && step.compensates == ""
       case Verify => step.mode == ReadOnly && Harmless(step) && step.compensates == ""
       case Apply =>
         && step.mode == Mutation && ValidDigest(step.idempotency) && step.compensates == ""
         && (|| (ValidDigest(step.rollback.reference) && step.rollback.recoveryOnly == NoReason)
             || step.rollback == RollbackPolicy("", NoRollbackAvailable)
             || step.rollback == RollbackPolicy("", ExternalReconciliation))
       case Rollback =>
         && step.mode == Mutation && ValidDigest(step.idempotency) && ValidID(step.compensates)
         && ValidDigest(step.rollback.reference) && step.rollback.recoveryOnly == NoReason
       case OtherPhase(_) => false
  }

  predicate Harmless(step: Step) {
    step.idempotency == "" && step.rollback == RollbackPolicy("", NoReason)
  }

  lemma WellFormedExactly(step: Step)
    ensures ValidStoredStep(step) <==> WellFormed(step)
  {
    hide ValidID;
    NoEmptyDigest();
  }

  lemma NoEmptyDigest()
    ensures !ValidDigest("")
  {
  }

  /** Each component has a succeeded step of this phase. */
  predicate EachSucceeded(steps: seq<Step>, phase: Phase, components: seq<string>) {
    forall c | c in components :: exists s | s in steps :: s.componentID == c && s.phase == phase && s.status == Succeeded
  }

  /** Nothing failed to be undone, the step names an applied mutation as it was recorded, and nobody undid it. */
  predicate MayUndo(steps: seq<Step>, step: Step) {
    && (forall s | s in steps && s.phase == Rollback :: s.status == Succeeded && s.compensates != step.compensates)
    && exists s | s in steps ::
         && s.phase == Apply && s.stepID == step.compensates && s.componentID == step.componentID
         && s.rollback.reference == step.rollback.reference
  }

  /** What each phase asks of the history of an operation with nothing in flight. */
  predicate PhaseFits(op: Operation, components: seq<string>, step: Step) {
    match step.phase
    case Preflight => Unfailed(op) && forall s | s in op.steps :: s.phase == Preflight
    case Apply =>
      && Unfailed(op) && EachSucceeded(op.steps, Preflight, components)
      && forall s | s in op.steps :: s.phase == Preflight || s.phase == Apply
    case Verify => Unfailed(op) && EachSucceeded(op.steps, Preflight, components)
    case Rollback => op.rollbackStarted && MayUndo(op.steps, step)
    case OtherPhase(_) => false
  }

  lemma EachMeans(steps: seq<Step>, phase: Phase, components: seq<string>)
    ensures EachSucceeded(steps, phase, components) <==> forall c | c in components :: c in SucceededIn(steps, phase)
  {
  }

  lemma UndoMeans(op: Operation, components: seq<string>, step: Step)
    requires OperationOK(op, components) && !Busy(op.steps)
    ensures MayUndo(op.steps, step) <==> FreshRollback(op.steps, step)
  {
    hide Extends, StateOK, FlagsOK, StepOK;
    LastSettled(op, components);
    OnlyLastRuns(op.steps, components);
    KnownPhases(op.steps);
  }

  lemma AllPreflighted(op: Operation, components: seq<string>)
    requires OperationOK(op, components) && Distinct(components)
    ensures AllSucceeded(op.steps, Preflight, components) <==> EachSucceeded(op.steps, Preflight, components)
    ensures EachSucceeded(op.steps, Preflight, components) ==> op.steps != []
  {
    hide Extends, StateOK, FlagsOK, SucceededIn, EachSucceeded;
    EachMeans(op.steps, Preflight, components);
    OnlyLastRuns(op.steps, components);
    if AfterPreflight(op.steps, components) {
      PreflightCounted(op.steps, components);
      assert components[0] in components;
      NothingSucceeded();
    }
  }

  lemma NothingSucceeded()
    ensures SucceededIn([], Preflight) == {}
  {
  }

  lemma PreflightFits(op: Operation, components: seq<string>, step: Step)
    requires OperationOK(op, components) && !Busy(op.steps) && op.finishedAt == UNSET && step.phase == Preflight
    ensures PhaseAllows(op, components, step) <==> PhaseFits(op, components, step)
  {
    hide HistoryOK, StateOK, SucceededIn;
    LabelOf(op, components);
    if op.steps != [] { PhasesOf(op, components); }
  }

  lemma ApplyFits(op: Operation, components: seq<string>, step: Step)
    requires OperationOK(op, components) && Distinct(components)
    requires !Busy(op.steps) && op.finishedAt == UNSET && step.phase == Apply
    ensures PhaseAllows(op, components, step) <==> PhaseFits(op, components, step)
  {
    hide HistoryOK, StateOK, FlagsOK, AllSucceeded, EachSucceeded;
    LabelOf(op, components);
    AllPreflighted(op, components);
    if op.steps != [] { PhasesOf(op, components); }
  }

  lemma VerifyFits(op: Operation, components: seq<string>, step: Step)
    requires OperationOK(op, components) && Distinct(components)
    requires !Busy(op.steps) && op.finishedAt == UNSET && step.phase == Verify
    ensures PhaseAllows(op, components, step) <==> PhaseFits(op, components, step)
  {
    hide HistoryOK, StateOK, FlagsOK, AllSucceeded, EachSucceeded;
    LabelOf(op, components);
    AllPreflighted(op, components);
    if op.steps != [] { PhasesOf(op, components); }
  }

  /** The mutation a rollback undoes is the newest one of its identity, because it is the only one. */
  lemma OriginalIsEligible(op: Operation, components: seq<string>, step: Step, original: Step)
    requires OperationOK(op, components) && original in op.steps && Undoes(step, original)
    ensures EligibleMutation(op.steps, step.compensates) >= 0
    ensures op.steps[EligibleMutation(op.steps, step.compensates)] == original
  {
    hide Extends, StateOK, FlagsOK, ValidID, ValidPolicy;
    OnlyLastRuns(op.steps, components);
    assert StepOK(original);
    var a :| 0 <= a < |op.steps| && op.steps[a] == original;
    var e := EligibleMutation(op.steps, step.compensates);
    assert a <= e;
    UniqueOriginal(op.steps, components, a, e);
  }

  lemma RollbackStepFits(op: Operation, components: seq<string>, step: Step)
    requires OperationOK(op, components) && !Busy(op.steps) && op.finishedAt == UNSET && step.phase == Rollback
    ensures PhaseAllows(op, components, step) <==> PhaseFits(op, components, step)
  {
    hide HistoryOK, StateOK, FlagsOK, EligibleMutation, StepOK, MayUndo;
    UndoMeans(op, components, step);
    LabelOf(op, components);
    OnlyLastRuns(op.steps, components);
    LastSettled(op, components);
    if PhaseAllows(op, components, step) { RollbackFits(op, components, step); }
    if PhaseFits(op, components, step) {
      var original :| original in op.steps && Undoes(step, original);
      OriginalIsEligible(op, components, step, original);
    }
  }

  lemma LastSettled(op: Operation, components: seq<string>)
    requires OperationOK(op, components) && !Busy(op.steps)
    ensures forall s | s in op.steps :: !IsRunning(s)
    ensures op.steps != [] ==> Last(op.steps) in op.steps && Last(op.steps).status in {Succeeded, Failed}
  {
    hide Extends, StateOK, FlagsOK, ValidID, ValidPolicy;
    OnlyLastRuns(op.steps, components);
    if op.steps != [] { assert Last(op.steps) in op.steps && StepOK(Last(op.steps)); }
  }

  lemma IdlePhaseExactly(op: Operation, components: seq<string>, step: Step)
    requires OperationOK(op, components) && Distinct(components)
    requires !Busy(op.steps) && op.finishedAt == UNSET && !step.phase.OtherPhase?
    ensures PhaseAllows(op, components, step) <==> PhaseFits(op, components, step)
  {
    hide PhaseAllows, PhaseFits, OperationOK, Busy;
    match step.phase {
      case Preflight => PreflightFits(op, components, step);
      case Apply => ApplyFits(op, components, step);
      case Verify => VerifyFits(op, components, step);
      case Rollback => RollbackStepFits(op, components, step);
    }
  }

  /** A new identity at attempt one, or the flagged successor of an abandoned read-only attempt. */
  predicate IdentityFits(steps: seq<Step>, step: Step) {
    if forall s | s in steps :: s.stepID != step.stepID then step.attempt == 1 && !step.retry
    else step.retry && exists i | 0 <= i < |steps| ::
      && steps[i].stepID == step.stepID && (forall j | i < j < |steps| :: steps[j].stepID != step.stepID)
      && steps[i].mode == ReadOnly && steps[i].reason == "interrupted_retry" && step.attempt == steps[i].attempt + 1
  }

  predicate KeyFits(steps: seq<Step>, step: Step) {
    step.mode == Mutation ==> forall s | s in steps && s.mode == Mutation :: s.idempotency != step.idempotency
  }

  lemma IdentityExactly(steps: seq<Step>, step: Step)
    requires step.attempt >= 1
    ensures IdentityFits(steps, step) <==>
      var prior := LatestStep(steps, step.stepID);
      if prior < 0 then step.attempt == 1 && !step.retry
      else step.retry && step.attempt == Successor(steps[prior].attempt)
           && steps[prior].mode == ReadOnly && steps[prior].reason == INTERRUPTED_RETRY
  {
    hide LatestStep, Successor;
    var prior := LatestStep(steps, step.stepID);
    if prior >= 0 {
      assert steps[prior] in steps;
      NextAttempt(steps[prior].attempt, step.attempt);
      NewestIs(steps, step.stepID, prior);
    } else {
      assert forall s | s in steps :: s.stepID != step.stepID;
    }
  }

  lemma NextAttempt(before: Uint32, after: Uint32)
    requires after >= 1
    ensures after == Successor(before) <==> after == before + 1
  {
  }

  lemma NewestIs(steps: seq<Step>, id: string, prior: int)
    requires 0 <= prior < |steps| && steps[prior].stepID == id && forall j | prior < j < |steps| :: steps[j].stepID != id
    ensures forall i | 0 <= i < |steps| && steps[i].stepID == id && (forall j | i < j < |steps| :: steps[j].stepID != id) :: i == prior
  {
  }

  /** May this step begin, as far as history goes, when nothing is in flight? */
  predicate MayBegin(op: Operation, components: seq<string>, step: Step) {
    && op.finishedAt == UNSET && step.componentID in components
    && IdentityFits(op.steps, step) && KeyFits(op.steps, step) && PhaseFits(op, components, step)
  }

  lemma TransitionExactly(op: Operation, components: seq<string>, step: Step)
    requires OperationOK(op, components) && Distinct(components) && !Busy(op.steps) && WellFormed(step)
    ensures StepTransitionError(op, components, step).None? <==> MayBegin(op, components, step)
  {
    hide PhaseAllows, PhaseFits, HistoryOK, FlagsOK, Busy, IdentityFits, ValidID, ValidDigest, LatestStep;
    IdentityExactly(op.steps, step);
    if op.finishedAt == UNSET {
      UnsealedLabel(op, components);
      IdlePhaseExactly(op, components, step);
    }
  }

  lemma UnsealedLabel(op: Operation, components: seq<string>)
    requires OperationOK(op, components) && op.finishedAt == UNSET
    ensures !IsTerminal(op.state)
  {
    hide HistoryOK, FlagsOK;
  }

  /**
   With nothing in flight, a step that is not recorded yet is accepted exactly when the request is
   well formed and the history lets it begin; it is then appended as it stands.
  */
  lemma StartExactly(op: Operation, components: seq<string>, step: Step)
    requires OperationOK(op, components) && Distinct(components) && !Busy(op.steps)
    requires FindStep(op.steps, step.stepID, step.attempt) < 0
    ensures StartStep(op, components, step).Accept? <==> WellFormed(step) && MayBegin(op, components, step)
    ensures StartStep(op, components, step).Accept? ==> StartStep(op, components, step).op.steps == op.steps + [step]
  {
    hide WellFormed, MayBegin, OperationOK, StepTransitionError, FindStep, ValidStoredStep;
    WellFormedExactly(step);
    Idle(op, components);
    if WellFormed(step) { TransitionExactly(op, components, step); }
  }

  // ---------------------------------------------------------------- starting while a step is in flight

  /** The step continues the attempt in flight: same request, next attempt. */
  predicate ContinuesRunning(running: Step, step: Step) {
    && running.mode == ReadOnly && step.retry && step.attempt == running.attempt + 1
    && step.stepID == running.stepID && step.componentID == running.componentID && step.phase == running.phase
  }

  /** An unfinished operation with a read-only step in flight has failed in nothing. */
  lemma ReadingLabel(op: Operation, components: seq<string>)
    requires OperationOK(op, components) && Busy(op.steps) && op.finishedAt == UNSET && Last(op.steps).mode == ReadOnly
    ensures Unfailed(op) && (op.state == RetryRequired || op.state == PhaseState(Last(op.steps).phase, op.state))
    ensures Last(op.steps).phase in {Preflight, Verify} && Last(op.steps).componentID in components
    ensures Last(op.steps).phase == Preflight ==> !op.mutationStarted
    ensures op.state != NeedsRecovery
  {
    hide Extends;
    OnlyLastRuns(op.steps, components);
    PhasesOf(op, components);
  }

  lemma ClosedPhaseAllows(op: Operation, components: seq<string>, step: Step)
    requires OperationOK(op, components) && Distinct(components) && Busy(op.steps) && op.finishedAt == UNSET
    requires ContinuesRunning(Last(op.steps), step)
    ensures PhaseAllows(CloseAttempt(op, |op.steps| - 1, step.startedAt), components, step)
  {
    hide HistoryOK, StateOK, FlagsOK, AllSucceeded;
    ReadingLabel(op, components);
    var last := Last(op.steps);
    var closed := CloseAttempt(op, |op.steps| - 1, step.startedAt);
    assert closed.steps == Resolved(op.steps, Interrupted(last, step.startedAt));
    if last.phase == Verify {
      InterruptedOK(op, components, step.startedAt);
      RetryPreflighted(op.steps, components, step.startedAt);
    }
  }

  lemma InterruptedOK(op: Operation, components: seq<string>, at: Time)
    requires OperationOK(op, components) && op.steps != []
    ensures StepOK(Interrupted(Last(op.steps), at))
  {
    hide Extends, StateOK, FlagsOK, ValidID, ValidPolicy;
    OnlyLastRuns(op.steps, components);
    assert StepOK(Last(op.steps));
  }

  lemma ContinuedTransition(op: Operation, components: seq<string>, step: Step)
    requires OperationOK(op, components) && Distinct(components) && Busy(op.steps) && op.finishedAt == UNSET
    requires ContinuesRunning(Last(op.steps), step) && WellFormed(step)
    ensures StepTransitionError(CloseAttempt(op, |op.steps| - 1, step.startedAt), components, step).None?
  {
    hide HistoryOK, FlagsOK, PhaseAllows, ValidID, ValidDigest, LatestStep;
    ReadingLabel(op, components);
    UnsealedLabel(op, components);
    ClosedPhaseAllows(op, components, step);
    var closed := CloseAttempt(op, |op.steps| - 1, step.startedAt);
    assert closed.steps[|op.steps| - 1] == Interrupted(Last(op.steps), step.startedAt);
    assert LatestStep(closed.steps, step.stepID) == |op.steps| - 1;
  }

  /**
   With a step in flight, the only new step accepted is the well-formed, flagged next attempt of the
   same read-only request; the attempt in flight is then closed as interrupted.
  */
  lemma ContinueExactly(op: Operation, components: seq<string>, step: Step)
    requires OperationOK(op, components) && Distinct(components) && Busy(op.steps)
    requires FindStep(op.steps, step.stepID, step.attempt) < 0
    ensures StartStep(op, components, step).Accept? <==>
      WellFormed(step) && op.finishedAt == UNSET && ContinuesRunning(Last(op.steps), step)
    ensures StartStep(op, components, step).Accept? ==>
      var closed := Last(op.steps).(status := Failed, reason := "interrupted_retry", finishedAt := step.startedAt, recovered := false);
      StartStep(op, components, step).op.steps == Front(op.steps) + [closed, step]
  {
    hide OperationOK, StepTransitionError, FindStep, ValidStoredStep;
    WellFormedExactly(step);
    Idle(op, components);
    var last := Last(op.steps);
    if ValidStoredStep(step) {
      RetriesMeans(last, step);
      if Retries(last, step) && op.finishedAt == UNSET { ContinuedTransition(op, components, step); }
      SealedRefuses(CloseAttempt(op, |op.steps| - 1, step.startedAt), components, step);
    }
    ClosedSteps(op, step.startedAt);
    assert Front(op.steps) + [Interrupted(last, step.startedAt)] + [step]
        == Front(op.steps) + [Interrupted(last, step.startedAt), step];
  }

  lemma RetriesMeans(running: Step, step: Step)
    requires WellFormed(step)
    ensures Retries(running, step) <==> ContinuesRunning(running, step)
  {
    hide ValidID, ValidDigest;
  }

  lemma SealedRefuses(op: Operation, components: seq<string>, step: Step)
    ensures op.finishedAt != UNSET ==> StepTransitionError(op, components, step).Some?
  {
    hide PhaseAllows, LatestStep;
  }

  lemma ClosedSteps(op: Operation, at: Time)
    requires op.steps != []
    ensures CloseAttempt(op, |op.steps| - 1, at).steps == Front(op.steps) + [Interrupted(Last(op.steps), at)]
  {
  }

  // ---------------------------------------------------------------- finishing a step

  /** A result as a caller may report it, stamped by the journal. */
  predicate WellFormedResult(finish: StepFinish) {
    && ValidID(finish.operationID) && ValidID(finish.stepID) && finish.attempt >= 1 && finish.finishedAt != UNSET
    && (|| (finish.status == Succeeded && ValidDigest(finish.result) && finish.reason == "")
        || (finish.status == Failed && finish.result == "" && ValidReason(finish.reason)))
  }

  /** The step as the result leaves it. */
  predicate FinishedAs(before: Step, after: Step, finish: StepFinish) {
    && SameRequest(before, after) && after.operationID == before.operationID
    && after.startedAt == before.startedAt && after.retry == before.retry
    && after.status == finish.status && after.result == finish.result && after.reason == finish.reason
    && after.finishedAt == finish.finishedAt && !after.recovered
  }

  /**
   A result for the step in flight is accepted exactly when it is well formed, the operation is not
   sealed, and only a mutation is said to be reconciled. Then that step alone changes, as the result
   says, and a failed one becomes the failure of the operation.
  */
  lemma FinishExactly(op: Operation, components: seq<string>, finish: StepFinish)
    requires OperationOK(op, components) && Busy(op.steps)
    requires finish.stepID == Last(op.steps).stepID && finish.attempt == Last(op.steps).attempt
    ensures FinishStep(op, finish).Accept? <==>
      op.finishedAt == UNSET && WellFormedResult(finish) && (finish.reconciles ==> Last(op.steps).mode == Mutation)
    ensures FinishStep(op, finish).Accept? ==>
      var after := FinishStep(op, finish).op;
      && |after.steps| == |op.steps| && Front(after.steps) == Front(op.steps)
      && FinishedAs(Last(op.steps), Last(after.steps), finish)
      && (if finish.status == Failed then after.failure.Some? && FailureNames(after.failure.value, Last(after.steps))
          else after.failure == op.failure)
      && after.finishedAt == UNSET && after.rollbackStarted == op.rollbackStarted
  {
    hide HistoryOK, FlagsOK, StateOK, FindStep, InFlight, ValidID, ValidDigest, ValidReason;
    LastIsFound(op, components);
    Idle(op, components);
    var done := Finished(Last(op.steps), finish);
    assert op.steps[|op.steps| - 1 := done] == Resolved(op.steps, done);
  }

  /** A result for anything but the step in flight changes nothing. */
  lemma FinishOthers(op: Operation, components: seq<string>, finish: StepFinish)
    requires OperationOK(op, components) && FinishStep(op, finish).Accept?
    requires Busy(op.steps) ==> finish.stepID != Last(op.steps).stepID || finish.attempt != Last(op.steps).attempt
    ensures FinishStep(op, finish).op == op
    ensures exists s | s in op.steps ::
      && s.stepID == finish.stepID && s.attempt == finish.attempt && s.status == finish.status
      && s.result == finish.result && s.reason == finish.reason && s.finishedAt == finish.finishedAt
  {
    hide Extends, FlagsOK, StateOK, FindStep, InFlight, ValidResult;
    OnlyLastRuns(op.steps, components);
    var found := FindStep(op.steps, finish.stepID, finish.attempt);
    assert op.steps[found] in op.steps;
  }

  // ---------------------------------------------------------------- cancelling and rolling back

  /** Short of a repetition, cancelling needs an unfinished, idle, unfailed operation that only preflighted. */
  lemma CancelExactly(op: Operation, components: seq<string>, at: Time)
    requires OperationOK(op, components) && op.state != Cancelled
    ensures Cancel(op, at).Accept? <==> op.finishedAt == UNSET && !Busy(op.steps) && Unfailed(op) && OnlyPreflight(op.steps)
    ensures Cancel(op, at).Accept? ==> Cancel(op, at).op == op.(state := Cancelled, finishedAt := at)
  {
    hide HistoryOK, InFlight;
    Idle(op, components);
    if op.steps != [] { PhasesOf(op, components); }
    if op.finishedAt == UNSET && !Busy(op.steps) { LabelOf(op, components); }
    OnlyPreflightReads(op, components);
  }

  lemma OnlyPreflightReads(op: Operation, components: seq<string>)
    requires OperationOK(op, components)
    ensures OnlyPreflight(op.steps) ==> !op.mutationStarted
    ensures op.mutationStarted <==> exists s | s in op.steps :: s.phase == Apply || s.phase == Rollback
  {
    hide Extends, StateOK, StepOK;
    OnlyLastRuns(op.steps, components);
    KnownPhases(op.steps);
  }

  /** Some applied mutation says how to undo it. */
  predicate Reversible(steps: seq<Step>) {
    exists s | s in steps :: s.phase == Apply && s.rollback.reference != ""
  }

  /** Short of a repetition, a rollback begins for an unfinished, idle operation with something to undo. */
  lemma BeginRollbackExactly(op: Operation, components: seq<string>)
    requires OperationOK(op, components) && !op.rollbackStarted
    ensures BeginRollback(op).Accept? <==> op.finishedAt == UNSET && !Busy(op.steps) && Reversible(op.steps)
    ensures BeginRollback(op).Accept? ==> BeginRollback(op).op == op.(rollbackStarted := true, state := RollingBack)
  {
    hide HistoryOK, StateOK, FlagsOK, InFlight, HasRollbackCandidate, Reversible;
    Idle(op, components);
    if !Busy(op.steps) {
      CandidatesExactly(op, components);
      if op.finishedAt == UNSET { LabelOf(op, components); }
    }
    if op.steps != [] { PhasesOf(op, components); }
    ReversibleMutates(op, components);
  }

  lemma CandidatesExactly(op: Operation, components: seq<string>)
    requires OperationOK(op, components) && !op.rollbackStarted && !Busy(op.steps)
    ensures HasRollbackCandidate(op.steps) <==> Reversible(op.steps)
  {
    hide Extends, StateOK, StepOK;
    LastSettled(op, components);
    OnlyLastRuns(op.steps, components);
    KnownPhases(op.steps);
    assert forall id :: !Compensated(op.steps, id);
  }

  lemma ReversibleMutates(op: Operation, components: seq<string>)
    requires OperationOK(op, components)
    ensures Reversible(op.steps) ==> op.mutationStarted && op.steps != [] && Rank(Last(op.steps).phase) >= 1
  {
    hide HistoryOK, StateOK, FlagsOK;
    OnlyPreflightReads(op, components);
    if op.steps != [] { PhasesOf(op, components); }
  }

  // ---------------------------------------------------------------- sealing

  /** Every component verified, every mutation succeeded, nothing failed, rolled back or in flight. */
  lemma CompleteExactly(op: Operation, components: seq<string>, at: Time)
    requires OperationOK(op, components) && Distinct(components)
    ensures Seal(op, components, ToComplete, at).Accept? <==>
      && !Busy(op.steps) && Unfailed(op) && EachSucceeded(op.steps, Verify, components)
      && forall s | s in op.steps && s.mode == Mutation :: s.status == Succeeded
  {
    hide HistoryOK, FlagsOK, InFlight, AllSucceeded, SucceededIn, EachSucceeded;
    Idle(op, components);
    VerifiedExactly(op, components);
  }

  lemma VerifiedExactly(op: Operation, components: seq<string>)
    requires OperationOK(op, components) && Distinct(components)
    ensures AllSucceeded(op.steps, Verify, components) <==> EachSucceeded(op.steps, Verify, components)
    ensures AllVerified(op.steps, components) <==> EachSucceeded(op.steps, Verify, components)
  {
    hide Extends, StateOK, FlagsOK, EachSucceeded;
    EachMeans(op.steps, Verify, components);
    OnlyLastRuns(op.steps, components);
    if AllVerified(op.steps, components) { Distinctness(components, SucceededIn(op.steps, Verify)); }
  }

  /** A failure, nothing in flight, and no mutation. */
  lemma FailedExactly(op: Operation, components: seq<string>, at: Time)
    requires OperationOK(op, components)
    ensures Seal(op, components, ToFailed, at).Accept? <==>
      !Busy(op.steps) && op.failure.Some? && forall s | s in op.steps :: s.mode != Mutation
  {
    hide HistoryOK, InFlight;
    Idle(op, components);
    if op.finishedAt == UNSET && !Busy(op.steps) { LabelOf(op, components); }
  }

  /** Unfinished operations are left for recovery exactly when they contain a mutation. */
  lemma RecoveryExactly(op: Operation, components: seq<string>, at: Time)
    requires OperationOK(op, components) && op.finishedAt == UNSET
    ensures Seal(op, components, ToRecovery, at).Accept? <==> exists s | s in op.steps :: s.mode == Mutation
  {
    hide HistoryOK, InFlight;
    Idle(op, components);
    if Busy(op.steps) { assert Last(op.steps) in op.steps; }
  }

  /** Every mutation said how to undo it and a succeeded rollback step names it; no rollback step failed. */
  predicate EachUndone(steps: seq<Step>) {
    && (forall a | a in steps && a.phase == Apply ::
          && a.rollback.recoveryOnly == NoReason
          && exists r | r in steps :: r.phase == Rollback && r.status == Succeeded && r.compensates == a.stepID)
    && forall r | r in steps && r.phase == Rollback :: r.status == Succeeded
  }

  lemma UndoneMeans(steps: seq<Step>)
    ensures EachUndone(steps) <==> AllUndone(steps)
  {
    assert forall a | a in steps :: Compensated(steps, a.stepID) <==>
      exists r | r in steps :: r.phase == Rollback && r.status == Succeeded && r.compensates == a.stepID;
  }

  /** A rollback that has begun, nothing in flight, and everything undone. */
  lemma RolledBackExactly(op: Operation, components: seq<string>, at: Time)
    requires OperationOK(op, components) && op.finishedAt == UNSET
    ensures Seal(op, components, ToRolledBack, at).Accept? <==>
      !Busy(op.steps) && op.rollbackStarted && EachUndone(op.steps)
  {
    hide HistoryOK, FlagsOK, StateOK, InFlight, CanReportRolledBack, AllUndone, EachUndone;
    UndoneMeans(op.steps);
    Idle(op, components);
    UnsealedLabel(op, components);
    if !Busy(op.steps) && op.rollbackStarted { ReportedExactly(op, components); }
    NotReported(op);
  }

  lemma NotReported(op: Operation)
    ensures CanReportRolledBack(op) ==> op.rollbackStarted
  {
    hide InFlight;
  }

  lemma ReportedExactly(op: Operation, components: seq<string>)
    requires OperationOK(op, components) && op.finishedAt == UNSET && !Busy(op.steps) && op.rollbackStarted
    ensures CanReportRolledBack(op) <==> AllUndone(op.steps)
  {
    hide Extends, StateOK, FlagsOK, StepOK, InFlight;
    Idle(op, components);
    LabelOf(op, components);
    LastSettled(op, components);
    OnlyLastRuns(op.steps, components);
    KnownPhases(op.steps);
    Settled(op, components);
  }

  lemma Settled(op: Operation, components: seq<string>)
    requires OperationOK(op, components) && !Busy(op.steps)
    ensures forall s | s in op.steps :: s.status == Succeeded || s.status == Failed
  {
    hide Extends, StateOK, FlagsOK, ValidID, ValidPolicy;
    OnlyLastRuns(op.steps, components);
  }

  /** How each outcome is recorded: only label and end change. */
  lemma SealsAs(op: Operation, components: seq<string>, outcome: Outcome, at: Time)
    requires Seal(op, components, outcome, at).Accept? && op.finishedAt == UNSET
    ensures var after := Seal(op, components, outcome, at).op;
      && after == op.(state := after.state, finishedAt := at)
      && (outcome == ToComplete ==> after.state == Complete) && (outcome == ToFailed ==> after.state == HasFailed)
      && (outcome == ToRecovery ==> after.state == NeedsRecovery) && (outcome == ToRolledBack ==> after.state == RolledBack)
  {
    hide InFlight, CanComplete, CanReportRolledBack;
  }

  // ---------------------------------------------------------------- repetition

  /** Any record accepted once is accepted again at once, and changes nothing then. */
  lemma RepeatAccepted(op: Operation, components: seq<string>, e: Event)
    requires OperationOK(op, components) && ValidShape(e) && TimesAgree(e) && Target(e).Some?
    requires Decide(op, components, e).Accept?
    ensures Decide(Decide(op, components, e).op, components, e) == Accept(Decide(op, components, e).op)
  {
    hide OperationOK, StartStep, FinishStep, Seal, ValidID;
    match e.body {
      case StepStarted(step) => RepeatStart(op, components, step);
      case StepFinished(finish) => RepeatFinish(op, components, finish);
      case OperationFinished(_, outcome) => RepeatSeal(op, components, outcome, e.observedAt);
      case _ =>
    }
  }

  lemma RepeatStart(op: Operation, components: seq<string>, step: Step)
    requires StartStep(op, components, step).Accept?
    ensures StartStep(StartStep(op, components, step).op, components, step) == Accept(StartStep(op, components, step).op)
  {
    hide StepTransitionError, ValidStoredStep, InFlight, Retries;
    var found := FindStep(op.steps, step.stepID, step.attempt);
    if found < 0 {
      var after := StartStep(op, components, step).op;
      var closed := CloseAttempt(op, InFlight(op.steps), step.startedAt);
      assert after.steps == closed.steps + [step] && |closed.steps| == |op.steps|;
      forall i | 0 <= i < |op.steps| ensures after.steps[i].stepID != step.stepID || after.steps[i].attempt != step.attempt {
        assert after.steps[i] == closed.steps[i];
      }
      assert after.steps[|op.steps|] == step;
      assert FindStep(after.steps, step.stepID, step.attempt) == |op.steps|;
    }
  }

  lemma RepeatFinish(op: Operation, components: seq<string>, finish: StepFinish)
    requires OperationOK(op, components) && FinishStep(op, finish).Accept?
    ensures FinishStep(FinishStep(op, finish).op, finish) == Accept(FinishStep(op, finish).op)
  {
    hide OperationOK, ValidResult, InFlight, FindStep;
    var found := FindStep(op.steps, finish.stepID, finish.attempt);
    var step := op.steps[found];
    FoundAgain(op.steps, finish.stepID, finish.attempt, Finished(step, finish));
  }

  lemma FoundAgain(steps: seq<Step>, id: string, attempt: Uint32, step: Step)
    requires FindStep(steps, id, attempt) >= 0 && step.stepID == id && step.attempt == attempt
    ensures var found := FindStep(steps, id, attempt); FindStep(steps[found := step], id, attempt) == found
  {
    hide FindStep;
    var found := FindStep(steps, id, attempt);
    var after := steps[found := step];
    assert forall i | 0 <= i < found :: after[i] == steps[i];
    assert after[found] == step;
  }

  lemma RepeatSeal(op: Operation, components: seq<string>, outcome: Outcome, at: Time)
    requires Seal(op, components, outcome, at).Accept? && at != UNSET
    ensures Seal(Seal(op, components, outcome, at).op, components, outcome, at) == Accept(Seal(op, components, outcome, at).op)
  {
    hide InFlight, CanComplete, CanReportRolledBack, MayNeedRecovery;
  }

  // ---------------------------------------------------------------- starting an operation

  /** Every operation started before its approval expired. */
  lemma StartedInTime(installation: string, s: State, id: string)
    requires Reachable(installation, s) && id in s.operations
    ensures var op := s.operations[id];
      && op.approvalID in s.approvals && op.planDigest == s.approvals[op.approvalID].planDigest
      && op.startedAt < s.approvals[op.approvalID].expiresAt
  {
    hide Reachable, ProjectionOK, OperationOK;
    ReachableOK(installation, s);
    Bound(s, id);
  }

  /**
   A new operation starts exactly when its approval is known, was given for this plan, has not
   expired and has started none, and every other operation has ended; it starts with a clean record.
  */
  lemma OperationStartsExactly(s: State, installation: string, id: string, approvalID: string, plan: string, at: Time)
    requires id !in s.operations
    ensures StartOperation(s, installation, id, approvalID, plan, at).Accepted? <==>
      && ValidID(id) && ValidID(approvalID) && ValidDigest(plan)
      && approvalID in s.approvals && s.approvals[approvalID].planDigest == plan && at < s.approvals[approvalID].expiresAt
      && forall k | k in s.operations :: s.operations[k].finishedAt != UNSET && s.operations[k].approvalID != approvalID
    ensures StartOperation(s, installation, id, approvalID, plan, at).Accepted? ==>
      var after := StartOperation(s, installation, id, approvalID, plan, at).state;
      && after.approvals == s.approvals && id in after.operations && after.operations - {id} == s.operations
      && var op := after.operations[id];
         && op.id == id && op.installationID == installation && op.approvalID == approvalID && op.planDigest == plan
         && op.startedAt == at && op.finishedAt == UNSET && op.steps == [] && op.failure.None?
         && !op.rollbackStarted && !op.mutationStarted && op.state == Approved
  {
    hide ValidID, ValidDigest;
  }

  lemma RepeatOperation(s: State, installation: string, id: string, approvalID: string, plan: string, at: Time)
    requires StartOperation(s, installation, id, approvalID, plan, at).Accepted?
    ensures var once := StartOperation(s, installation, id, approvalID, plan, at).state;
      StartOperation(once, installation, id, approvalID, plan, at) == Accepted(once)
  {
    hide ValidID, ValidDigest;
  }

  /** With another approval in time, the next operation can start as soon as the last one is sealed. */
  lemma NextStarts(installation: string, s: State, id: string, approvalID: string, at: Time)
    requires id !in s.operations && ValidID(id) && ValidID(approvalID)
    requires approvalID in s.approvals && ValidDigest(s.approvals[approvalID].planDigest) && at < s.approvals[approvalID].expiresAt
    requires forall k | k in s.operations :: s.operations[k].finishedAt != UNSET && s.operations[k].approvalID != approvalID
    requires at != UNSET
    ensures Accepts(s, installation, Event(at, OperationStarted(id, approvalID, s.approvals[approvalID].planDigest)))
  {
    hide ValidID, ValidDigest, StartOperation;
    OperationStartsExactly(s, installation, id, approvalID, s.approvals[approvalID].planDigest, at);
  }

  // ---------------------------------------------------------------- recording an approval

  /** The component as the journal stores it: in its place, well formed, capabilities strictly ascending. */
  predicate ComponentStands(c: ApprovedComponent, place: int) {
    && c.index == place && ValidID(c.componentID) && ValidAdapter(c.adapter)
    && ValidDigest(c.artifact) && ValidDigest(c.configuration) && c.capabilities.Items?
    && (forall i | 0 <= i < |c.capabilities.items| :: ValidCapability(c.capabilities.items[i]))
    && forall i, j | 0 <= i < j < |c.capabilities.items| :: Less(c.capabilities.items[i], c.capabilities.items[j])
  }

  /** The binding is well formed and names a component of the approval. */
  predicate SecretStands(secret: SecretRevision, components: seq<ApprovedComponent>) {
    && ValidID(secret.componentID) && ValidID(secret.slot) && ValidDigest(secret.revision)
    && exists i | 0 <= i < |components| :: components[i].componentID == secret.componentID
  }

  predicate ApprovalStands(a: Approval, installation: string) {
    && a.installationID == installation && ValidID(a.id) && ValidID(a.actorID)
    && ValidDigest(a.planDigest) && ValidDigest(a.manifestDigest) && ValidDigest(a.authority)
    && a.issuedAt != UNSET && a.issuedAt < a.expiresAt && 1 <= |a.components| <= 64
    && (forall i | 0 <= i < |a.components| :: ComponentStands(a.components[i], i + 1))
    && (forall i, j | 0 <= i < j < |a.components| :: a.components[i].componentID != a.components[j].componentID)
    && a.secrets.Items?
    && (forall i | 0 <= i < |a.secrets.items| :: SecretStands(a.secrets.items[i], a.components))
    && forall i, j | 0 <= i < j < |a.secrets.items| :: PairLess(a.secrets.items[i], a.secrets.items[j])
  }

  lemma ComponentExactly(c: ApprovedComponent, place: int)
    ensures ValidApprovedComponent(c, place) <==> ComponentStands(c, place)
  {
    hide ValidID, ValidAdapter, ValidDigest, ValidCapability, Less;
    if c.capabilities.Items? {
      var xs := c.capabilities.items;
      if forall k | 0 < k < |xs| :: Less(xs[k - 1], xs[k]) {
        forall i, j | 0 <= i < j < |xs| ensures Less(xs[i], xs[j]) { AdjacentSorted(xs, i, j); }
      }
      if forall c | c in xs :: ValidCapability(c) {
        forall i | 0 <= i < |xs| ensures ValidCapability(xs[i]) { assert xs[i] in xs; }
      }
    }
  }

  /** Pairs in ascending order of neighbours ascend throughout. */
  lemma SecretsAscend(secrets: seq<SecretRevision>)
    requires ValidSecrets(secrets)
    ensures forall i, j | 0 <= i < j < |secrets| :: PairLess(secrets[i], secrets[j])
  {
    hide ValidID, ValidDigest, Less, PairLess;
    KeysSorted(secrets);
    forall i, j | 0 <= i < j < |secrets| ensures PairLess(secrets[i], secrets[j]) {
      assert secrets[i] in secrets && secrets[j] in secrets;
      assert Less(Keys(secrets)[i], Keys(secrets)[j]);
      SecretOrder(secrets[i], secrets[j]);
    }
  }

  lemma SecretsExactly(secrets: seq<SecretRevision>)
    ensures ValidSecrets(secrets) <==>
      && (forall i | 0 <= i < |secrets| :: ValidFields(secrets[i]))
      && forall i, j | 0 <= i < j < |secrets| :: PairLess(secrets[i], secrets[j])
  {
    hide ValidID, ValidDigest, Less, PairLess, SecretKey;
    ValidMeansOrder(secrets);
    if ValidSecrets(secrets) {
      SecretsAscend(secrets);
      forall i | 0 <= i < |secrets| ensures ValidFields(secrets[i]) { assert secrets[i] in secrets; }
    }
  }

  lemma ApprovalExactly(a: Approval, installation: string)
    ensures ValidStoredApproval(a, installation) <==> ApprovalStands(a, installation)
  {
    hide ValidID, ValidDigest, ValidApprovedComponent, ComponentStands, ValidSecrets, PairLess;
    forall c, place ensures ValidApprovedComponent(c, place) <==> ComponentStands(c, place) { ComponentExactly(c, place); }
    DistinctIDs(a.components);
    if a.secrets.Items? {
      SecretsExactly(a.secrets.items);
      SecretsNamed(a.secrets.items, a.components);
    }
  }

  lemma DistinctIDs(components: seq<ApprovedComponent>)
    ensures Distinct(ComponentIDs(components)) <==>
      forall i, j | 0 <= i < j < |components| :: components[i].componentID != components[j].componentID
  {
    if Distinct(ComponentIDs(components)) {
      forall i, j | 0 <= i < j < |components| ensures components[i].componentID != components[j].componentID {
        assert ComponentIDs(components)[i] != ComponentIDs(components)[j];
      }
    }
  }

  lemma SecretsNamed(secrets: seq<SecretRevision>, components: seq<ApprovedComponent>)
    ensures (forall i | 0 <= i < |secrets| :: ValidFields(secrets[i])) && (forall s | s in secrets :: s.componentID in ComponentIDs(components))
      <==> forall i | 0 <= i < |secrets| :: SecretStands(secrets[i], components)
  {
    hide ValidID, ValidDigest;
    forall s: SecretRevision ensures s.componentID in ComponentIDs(components)
      <==> exists i | 0 <= i < |components| :: components[i].componentID == s.componentID
    {
      if s.componentID in ComponentIDs(components) {
        var i :| 0 <= i < |ComponentIDs(components)| && ComponentIDs(components)[i] == s.componentID;
        assert components[i].componentID == s.componentID;
      }
      if i :| 0 <= i < |components| && components[i].componentID == s.componentID {
        assert ComponentIDs(components)[i] == s.componentID;
      }
    }
    if forall s | s in secrets :: s.componentID in ComponentIDs(components) {
      forall i | 0 <= i < |secrets| ensures secrets[i].componentID in ComponentIDs(components) { assert secrets[i] in secrets; }
    }
  }

  /** A new approval is recorded exactly when it stands, and touches nothing else. */
  lemma RecordsExactly(s: State, installation: string, a: Approval)
    requires a.id !in s.approvals
    ensures RecordApproval(s, installation, a).Accepted? <==> ApprovalStands(a, installation)
    ensures RecordApproval(s, installation, a).Accepted? ==>
      var after := RecordApproval(s, installation, a).state;
      after.operations == s.operations && after.approvals - {a.id} == s.approvals && a.id in after.approvals
  {
    hide ValidStoredApproval, ApprovalStands, CloneApproval;
    ApprovalExactly(a, installation);
  }

  // ---------------------------------------------------------------- times

  /** An accepted record was observed at some time, and repeats it wherever it states its own. */
  lemma StampedTimes(s: State, installation: string, e: Event)
    requires Accepts(s, installation, e)
    ensures e.observedAt != UNSET
    ensures e.body.ApprovalRecorded? ==> e.body.approval.issuedAt == e.observedAt
    ensures e.body.StepStarted? ==> e.body.step.startedAt == e.observedAt
    ensures e.body.StepFinished? ==> e.body.finish.finishedAt == e.observedAt
  {
    hide RecordApproval, StartOperation, Decide, ValidID;
  }
}
