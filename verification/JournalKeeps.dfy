/** Every accepted event keeps the invariant of the operation it speaks about. */
module JournalKeeps {
  import opened Basics
  import opened Patterns
  import opened JournalModel
  import opened JournalMachine
  import opened JournalInvariant

  // ---------------------------------------------------------------- reading a history

  lemma {:induction false} OnlyLastRuns(steps: seq<Step>, components: seq<string>)
    requires HistoryOK(steps, components)
    ensures InFlight(steps) == if Busy(steps) then |steps| - 1 else -1
    ensures forall s | s in steps && IsRunning(s) :: s == Last(steps)
    ensures forall s | s in steps :: StepOK(s) && s.componentID in components
    decreases |steps|
  {
    if steps != [] {
      OnlyLastRuns(Front(steps), components);
      assert steps == Front(steps) + [Last(steps)];
      assert forall i | 0 <= i < |steps| - 1 :: steps[i] in Front(steps);
    }
  }

  lemma {:induction false} RanksBelowLast(steps: seq<Step>, components: seq<string>)
    requires HistoryOK(steps, components) && steps != []
    ensures forall s | s in steps :: Rank(s.phase) <= Rank(Last(steps).phase)
  {
    assert steps == Front(steps) + [Last(steps)];
  }

  /** Do two records describe the same attempt, whatever has become of it? */
  predicate SameRequest(a: Step, b: Step) {
    && a.stepID == b.stepID && a.componentID == b.componentID && a.phase == b.phase && a.mode == b.mode
    && a.attempt == b.attempt && a.idempotency == b.idempotency && a.rollback == b.rollback
    && a.compensates == b.compensates
  }

  /** `steps` with its newest step replaced by `step`. */
  function Resolved(steps: seq<Step>, step: Step): (r: seq<Step>)
    requires steps != []
    ensures r == Front(steps) + [step] && Front(r) == Front(steps) && Last(r) == step && |r| == |steps|
  {
    steps[|steps| - 1 := step]
  }

  lemma MutationsOf(front: seq<Step>, step: Step)
    ensures HasMutation(front + [step]) == (HasMutation(front) || IsMutation(step))
    ensures HasRollbackStep(front + [step]) == (HasRollbackStep(front) || step.phase == Rollback)
  {
    assert forall s | s in front + [step] :: s in front || s == step;
    assert forall s | s in front :: s in front + [step];
    assert step in front + [step];
  }

  /** Giving the running step a result keeps the history and the flags. */
  lemma ResolveKeeps(steps: seq<Step>, components: seq<string>, step: Step)
    requires HistoryOK(steps, components) && steps != []
    requires StepOK(step) && SameRequest(Last(steps), step)
    ensures HistoryOK(Resolved(steps, step), components)
    ensures HasMutation(Resolved(steps, step)) == HasMutation(steps)
    ensures HasRollbackStep(Resolved(steps, step)) == HasRollbackStep(steps)
    ensures !IsRunning(step) ==> (forall s | s in Resolved(steps, step) :: !IsRunning(s)) && InFlight(Resolved(steps, step)) < 0
  {
    hide HasMutation, HasRollbackStep;
    var after := Resolved(steps, step);
    assert steps == Front(steps) + [Last(steps)];
    MutationsOf(Front(steps), Last(steps));
    MutationsOf(Front(steps), step);
    assert Extends(Front(steps), components, step);
  }

  // ---------------------------------------------------------------- starting a step

  lemma CloseKeeps(op: Operation, components: seq<string>, at: Time)
    requires OperationOK(op, components)
    requires Busy(op.steps) ==> Last(op.steps).mode == ReadOnly
    ensures InFlight(op.steps) == if Busy(op.steps) then |op.steps| - 1 else -1
    ensures var closed := CloseAttempt(op, InFlight(op.steps), at);
            && HistoryOK(closed.steps, components) && FlagsOK(closed)
            && (forall s | s in closed.steps :: !IsRunning(s))
            && |closed.steps| == |op.steps|
            && (op.steps != [] ==> Last(closed.steps).phase == Last(op.steps).phase)
            && (!Busy(op.steps) ==> closed == op)
  {
    hide Extends, StateOK;
    OnlyLastRuns(op.steps, components);
    if Busy(op.steps) {
      var step := Interrupted(Last(op.steps), at);
      assert CloseAttempt(op, |op.steps| - 1, at).steps == Resolved(op.steps, step);
      ResolveKeeps(op.steps, components, step);
    }
  }

  /** The record-independent checks of a step start, read off its error function. */
  lemma NoTransitionError(closed: Operation, components: seq<string>, step: Step)
    requires ValidStoredStep(step) && StepTransitionError(closed, components, step).None?
    requires forall s | s in closed.steps :: StepOK(s)
    ensures closed.finishedAt == UNSET && step.componentID in components && StepOK(step)
    ensures FollowsPrior(closed.steps, step)
    ensures IsMutation(step) ==> forall s | s in closed.steps && IsMutation(s) :: s.idempotency != step.idempotency
    ensures PhaseAllows(closed, components, step)
  {
    hide PhaseAllows, ValidID, ValidDigest, ValidPolicy;
    var prior := LatestStep(closed.steps, step.stepID);
    assert prior >= 0 ==> StepOK(closed.steps[prior]);
  }

  /** A state label admits only phases that do not precede the recorded ones. */
  lemma RankFits(op: Operation, components: seq<string>, closed: Operation, step: Step)
    requires OperationOK(op, components) && ValidStoredStep(step)
    requires Busy(op.steps) ==> Retries(Last(op.steps), step)
    requires closed.state == op.state && PhaseAllows(closed, components, step) && step.phase != Rollback
    ensures op.steps != [] ==> Rank(Last(op.steps).phase) <= Rank(step.phase)
  {
  }

  lemma RollbackFits(closed: Operation, components: seq<string>, step: Step)
    requires HistoryOK(closed.steps, components) && PhaseAllows(closed, components, step) && step.phase == Rollback
    requires forall s | s in closed.steps :: !IsRunning(s)
    requires closed.steps != [] && Last(closed.steps).phase == Rollback ==> Last(closed.steps).status == Succeeded
    ensures FreshRollback(closed.steps, step)
  {
    var original := EligibleMutation(closed.steps, step.compensates);
    assert closed.steps[original] in closed.steps && Undoes(step, closed.steps[original]);
    forall s | s in closed.steps && s.phase == Rollback
      ensures s.status == Succeeded && s.compensates != step.compensates
    {
      if s != Last(closed.steps) {
        assert s in Front(closed.steps);
        assert Rank(Last(closed.steps).phase) >= Rank(s.phase);
        OnlyLastRuns(closed.steps, components);
        assert StepOK(Last(closed.steps));
      }
    }
  }

  lemma StartExtends(op: Operation, components: seq<string>, step: Step)
    requires OperationOK(op, components) && ValidStoredStep(step)
    requires Busy(op.steps) ==> Retries(Last(op.steps), step)
    requires StepTransitionError(CloseAttempt(op, InFlight(op.steps), step.startedAt), components, step).None?
    ensures Extends(CloseAttempt(op, InFlight(op.steps), step.startedAt).steps, components, step)
  {
    hide FlagsOK, StepTransitionError, FollowsPrior, SucceededIn, HasMutation, ValidStepInput, FreshRollback,
         LatestStep, EligibleMutation;
    var closed := CloseAttempt(op, InFlight(op.steps), step.startedAt);
    CloseKeeps(op, components, step.startedAt);
    OnlyLastRuns(closed.steps, components);
    NoTransitionError(closed, components, step);
    if closed.steps != [] { RanksBelowLast(closed.steps, components); }
    if step.phase == Rollback {
      RollbackFits(closed, components, step);
    } else {
      RankFits(op, components, closed, step);
    }
  }

  lemma StartStateOK(closed: Operation, components: seq<string>, step: Step)
    requires ValidStoredStep(step) && PhaseAllows(closed, components, step) && closed.finishedAt == UNSET
    requires FlagsOK(closed)
    ensures var op := closed.(steps := closed.steps + [step],
                              mutationStarted := closed.mutationStarted || step.mode == Mutation,
                              state := PhaseState(step.phase, closed.state));
            StateOK(op, components) && FlagsOK(op)
  {
    hide HasMutation, HasRollbackStep;
    assert Last(closed.steps + [step]) == step;
    MutationsOf(closed.steps, step);
  }

  lemma StartKeeps(op: Operation, components: seq<string>, step: Step)
    requires OperationOK(op, components) && StartStep(op, components, step).Accept?
    ensures OperationOK(StartStep(op, components, step).op, components)
  {
    hide FlagsOK, FindStep, StateOK, Extends, ValidStepInput, PhaseAllows;
    OnlyLastRuns(op.steps, components);
    if FindStep(op.steps, step.stepID, step.attempt) < 0 {
      var closed := CloseAttempt(op, InFlight(op.steps), step.startedAt);
      CloseKeeps(op, components, step.startedAt);
      OnlyLastRuns(closed.steps, components);
      NoTransitionError(closed, components, step);
      StartExtends(op, components, step);
      assert Front(closed.steps + [step]) == closed.steps;
      StartStateOK(closed, components, step);
    }
  }

  // ---------------------------------------------------------------- the other events

  lemma FinishStateOK(op: Operation, components: seq<string>, finish: StepFinish)
    requires FlagsOK(op) && StateOK(op, components) && op.finishedAt == UNSET
    requires Busy(op.steps) && StepOK(Last(op.steps)) && ValidResult(finish)
    ensures var done := Finished(Last(op.steps), finish);
            var resolved := op.(steps := Resolved(op.steps, done));
            if finish.status == Failed then
              StateOK(resolved.(failure := Some(FailureOf(done)),
                                state := if done.phase == Rollback then NeedsRecovery else HasFailed), components)
            else StateOK(resolved.(state := PhaseState(done.phase, op.state)), components)
  {
    hide ValidID, ValidDigest, ValidReason, ValidPolicy;
    assert Last(op.steps) in op.steps;
    assert Last(op.steps).phase == Rollback ==> HasRollbackStep(op.steps);
  }

  lemma FinishKeeps(op: Operation, components: seq<string>, finish: StepFinish)
    requires OperationOK(op, components) && FinishStep(op, finish).Accept?
    ensures OperationOK(FinishStep(op, finish).op, components)
  {
    hide StateOK, Extends, FindStep, HasMutation, HasRollbackStep, InFlight, ValidReason, ValidDigest, ValidID;
    OnlyLastRuns(op.steps, components);
    var found := FindStep(op.steps, finish.stepID, finish.attempt);
    if IsRunning(op.steps[found]) {
      var done := Finished(op.steps[found], finish);
      assert op.steps[found := done] == Resolved(op.steps, done);
      ResolveKeeps(op.steps, components, done);
      FinishStateOK(op, components, finish);
    }
  }

  lemma RollbackKeeps(op: Operation, components: seq<string>)
    requires OperationOK(op, components) && BeginRollback(op).Accept?
    ensures OperationOK(BeginRollback(op).op, components)
  {
    hide Extends, HasRollbackCandidate;
    OnlyLastRuns(op.steps, components);
    assert op.steps != [] ==> Last(op.steps) in op.steps;
  }

  lemma CancelKeeps(op: Operation, components: seq<string>, at: Time)
    requires OperationOK(op, components) && at != UNSET && Cancel(op, at).Accept?
    ensures OperationOK(Cancel(op, at).op, components)
  {
    hide Extends, HasMutation, HasRollbackStep;
    OnlyLastRuns(op.steps, components);
    if op.steps != [] { RanksBelowLast(op.steps, components); }
  }

  lemma RolledBackKeeps(op: Operation, components: seq<string>)
    requires OperationOK(op, components) && CanReportRolledBack(op)
    ensures AllUndone(op.steps) && !Busy(op.steps)
  {
    hide Extends, HasMutation, HasRollbackStep, FlagsOK;
    OnlyLastRuns(op.steps, components);
  }

  lemma RecoveryKeeps(op: Operation, components: seq<string>, at: Time)
    requires OperationOK(op, components) && MayNeedRecovery(op) && at != UNSET
    ensures OperationOK(op.(state := NeedsRecovery, finishedAt := at), components)
  {
    hide Extends, HasRollbackStep;
    OnlyLastRuns(op.steps, components);
    assert Busy(op.steps) ==> Last(op.steps) in op.steps;
  }

  lemma SealKeeps(op: Operation, components: seq<string>, outcome: Outcome, at: Time)
    requires OperationOK(op, components) && at != UNSET && Seal(op, components, outcome, at).Accept?
    ensures OperationOK(Seal(op, components, outcome, at).op, components)
  {
    hide Extends, HasMutation, HasRollbackStep;
    OnlyLastRuns(op.steps, components);
    match outcome {
      case ToRecovery => if MayNeedRecovery(op) { RecoveryKeeps(op, components, at); }
      case ToRolledBack => if CanReportRolledBack(op) { RolledBackKeeps(op, components); }
      case _ =>
    }
  }

  /** No event renames an operation or takes back its seal. */
  lemma DecideFrames(op: Operation, components: seq<string>, e: Event)
    requires ValidShape(e) && Target(e).Some?
    ensures var after := Decide(op, components, e).op;
            && after.id == op.id && after.approvalID == op.approvalID && after.planDigest == op.planDigest
            && after.installationID == op.installationID && after.startedAt == op.startedAt
            && (op.finishedAt != UNSET ==> after.finishedAt != UNSET)
  {
    hide InFlight, FindStep, StepTransitionError, CanComplete, CanReportRolledBack, ValidStoredStep, ValidResult;
  }

  /** One accepted event keeps the invariant of its operation. */
  lemma DecideKeeps(op: Operation, components: seq<string>, e: Event)
    requires OperationOK(op, components) && ValidShape(e) && Target(e).Some?
    requires Decide(op, components, e).Accept?
    ensures OperationOK(Decide(op, components, e).op, components)
  {
    hide OperationOK, StartStep, FinishStep, Cancel, BeginRollback, Seal;
    match e.body {
      case StepStarted(step) => StartKeeps(op, components, step);
      case StepFinished(finish) => FinishKeeps(op, components, finish);
      case OperationCancelled(_) => CancelKeeps(op, components, e.observedAt);
      case RollbackStarted(_) => RollbackKeeps(op, components);
      case OperationFinished(_, outcome) => SealKeeps(op, components, outcome, e.observedAt);
    }
  }
}
