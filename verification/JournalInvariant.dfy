/** What is true of every operation the journal can reach. */
module JournalInvariant {
  import opened Patterns
  import opened JournalModel
  import opened JournalMachine

  function Last(steps: seq<Step>): Step
    requires steps != []
  {
    steps[|steps| - 1]
  }

  function Front(steps: seq<Step>): seq<Step>
    requires steps != []
  {
    steps[..|steps| - 1]
  }

  predicate Busy(steps: seq<Step>) {
    steps != [] && IsRunning(Last(steps))
  }

  predicate StepOK(s: Step) {
    && ValidID(s.stepID) && ValidID(s.componentID)
    && !s.phase.OtherPhase? && s.mode == ModeOf(s.phase)
    && s.status in {Running, Succeeded, Failed}
    && s.attempt >= 1
    && (s.reason != "" ==> s.status == Failed)
    && (s.recovered ==> s.status == Running)
    && (s.mode == Mutation ==> ValidPolicy(s.rollback))
    && (s.phase == Rollback ==> s.rollback.recoveryOnly == NoReason)
  }

  function Rank(phase: Phase): nat {
    match phase
    case Preflight => 0
    case Apply => 1
    case Verify => 2
    case _ => 3
  }

  /** A read-only attempt that was abandoned by a restart. */
  predicate Superseded(s: Step) {
    s.mode == ReadOnly && s.status == Failed && s.reason == INTERRUPTED_RETRY
  }

  predicate FollowsPrior(front: seq<Step>, step: Step) {
    var prior := LatestStep(front, step.stepID);
    if prior < 0 then step.attempt == 1
    else step.attempt == front[prior].attempt + 1 && Superseded(front[prior])
  }

  /** `r` undoes the finished apply mutation `a`. */
  predicate Undoes(r: Step, a: Step) {
    && IsFinishedMutation(a)
    && a.stepID == r.compensates && a.componentID == r.componentID
    && a.rollback.reference == r.rollback.reference
  }

  predicate FreshRollback(front: seq<Step>, step: Step) {
    && (exists s | s in front :: Undoes(step, s))
    && (forall s | s in front && s.phase == Rollback :: s.status == Succeeded && s.compensates != step.compensates)
  }

  predicate AfterPreflight(front: seq<Step>, components: seq<string>) {
    forall c | c in components :: c in SucceededIn(front, Preflight)
  }

  /** May `step`, with any status, come directly after the history `front`? */
  predicate Extends(front: seq<Step>, components: seq<string>, step: Step) {
    && StepOK(step) && step.componentID in components
    && (forall s | s in front :: !IsRunning(s) && Rank(s.phase) <= Rank(step.phase))
    && (step.phase in {Apply, Verify} ==> AfterPreflight(front, components))
    && FollowsPrior(front, step)
    && (IsMutation(step) ==> forall s | s in front && IsMutation(s) :: s.idempotency != step.idempotency)
    && (step.phase == Rollback ==> FreshRollback(front, step))
  }

  /** Every step extends the history before it. */
  predicate HistoryOK(steps: seq<Step>, components: seq<string>)
    decreases |steps|
  {
    steps == [] || (Extends(Front(steps), components, Last(steps)) && HistoryOK(Front(steps), components))
  }

  predicate HasMutation(steps: seq<Step>) {
    exists s | s in steps :: IsMutation(s)
  }

  predicate HasRollbackStep(steps: seq<Step>) {
    exists s | s in steps :: s.phase == Rollback
  }

  predicate MutationsSucceeded(steps: seq<Step>) {
    forall s | s in steps && IsMutation(s) :: s.status == Succeeded
  }

  predicate AllVerified(steps: seq<Step>, components: seq<string>) {
    forall c | c in components :: c in SucceededIn(steps, Verify)
  }

  predicate AllUndone(steps: seq<Step>) {
    && (forall s | s in steps && s.phase == Apply ::
          s.rollback.recoveryOnly == NoReason && Compensated(steps, s.stepID))
    && (forall s | s in steps && s.phase == Rollback :: s.status == Succeeded)
  }

  predicate OnlyPreflight(steps: seq<Step>) {
    forall s | s in steps :: s.phase == Preflight
  }

  /** The newest step belongs to `phase` and did not fail. */
  predicate LastIn(steps: seq<Step>, phase: Phase) {
    steps != [] && Last(steps).phase == phase && Last(steps).status != Failed
  }

  predicate Unfailed(op: Operation) {
    op.failure.None? && !op.rollbackStarted
  }

  /** How the state label, the seal, the flags and the newest step agree. */
  predicate StateOK(op: Operation, components: seq<string>) {
    var sealed := op.finishedAt != UNSET;
    match op.state
    case Approved => op.steps == [] && !sealed && Unfailed(op)
    case Preflighting => !sealed && Unfailed(op) && LastIn(op.steps, Preflight)
    case Applying => !sealed && Unfailed(op) && LastIn(op.steps, Apply)
    case Verifying => !sealed && Unfailed(op) && LastIn(op.steps, Verify)
    case HasFailed =>
      !Busy(op.steps) && op.failure.Some? && !op.rollbackStarted && (sealed ==> !op.mutationStarted)
    case RetryRequired =>
      && Busy(op.steps) && Last(op.steps).mode == ReadOnly && Last(op.steps).recovered
      && Unfailed(op) && (sealed ==> op.mutationStarted)
    case RollingBack =>
      && !sealed && op.rollbackStarted
      && (Busy(op.steps) ==> Last(op.steps).phase == Rollback)
      && (op.steps != [] && Last(op.steps).phase == Rollback ==> Last(op.steps).status != Failed)
    case NeedsRecovery =>
      && op.mutationStarted
      && (sealed || (Busy(op.steps) && Last(op.steps).mode == Mutation)
          || (op.rollbackStarted && op.steps != [] && Last(op.steps).phase == Rollback && Last(op.steps).status == Failed))
      && (Busy(op.steps) && Last(op.steps).phase != Rollback ==> Unfailed(op))
    case Complete =>
      && sealed && !Busy(op.steps) && Unfailed(op)
      && AllVerified(op.steps, components) && MutationsSucceeded(op.steps)
    case RolledBack => sealed && !Busy(op.steps) && op.rollbackStarted && AllUndone(op.steps)
    case Cancelled =>
      sealed && !Busy(op.steps) && !op.mutationStarted && Unfailed(op) && OnlyPreflight(op.steps)
  }

  predicate FlagsOK(op: Operation) {
    && (op.mutationStarted <==> HasMutation(op.steps))
    && (op.rollbackStarted ==> op.mutationStarted)
    && (HasRollbackStep(op.steps) ==> op.rollbackStarted)
  }

  predicate OperationOK(op: Operation, components: seq<string>) {
    components != [] && HistoryOK(op.steps, components) && FlagsOK(op) && StateOK(op, components)
  }
}
