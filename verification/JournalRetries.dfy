/**
 When do all attempts of a step identity belong to one component and one phase? Replay alone does
 not enforce it: a rollback record flagged as a retry may take over the identity of a read-only
 step whose caller reported the reason "interrupted_retry". The public calls never write such a
 record, because they set the flag only while the interrupted attempt is still running.
*/
module JournalRetries {
  import opened Patterns
  import opened JournalModel
  import opened JournalMachine
  import opened JournalInvariant
  import opened JournalKeeps
  import opened JournalRuns
  import opened JournalReplay
  import opened JournalHistory
  import opened JournalRequests

  predicate Uniform(steps: seq<Step>) {
    forall i, j | 0 <= i < j < |steps| && steps[i].stepID == steps[j].stepID ::
      steps[i].componentID == steps[j].componentID && steps[i].phase == steps[j].phase
  }

  /** Without a reported failure, every failed step was retried. */
  predicate Unreported(op: Operation) {
    op.failure.None? ==>
      forall i | 0 <= i < |op.steps| && op.steps[i].status == Failed :: LatestStep(op.steps, op.steps[i].stepID) != i
  }

  /** The failure names this failed step. */
  predicate FailureNames(failure: FailurePoint, step: Step) {
    && step.status == Failed
    && failure.phase == step.phase && failure.componentID == step.componentID && failure.stepID == step.stepID
    && failure.attempt == step.attempt && failure.reason == step.reason
  }

  /** A reported failure is that of a failed step. */
  predicate Reported(op: Operation) {
    op.failure.Some? ==> exists s | s in op.steps :: FailureNames(op.failure.value, s)
  }

  /** Failed steps and the reported failure account for each other. */
  predicate Accounted(op: Operation) {
    Unreported(op) && Reported(op)
  }

  // ---------------------------------------------------------------- the failure point

  lemma StartAccounted(op: Operation, components: seq<string>, step: Step)
    requires OperationOK(op, components) && Accounted(op) && StartStep(op, components, step).Accept?
    ensures Accounted(StartStep(op, components, step).op)
  {
    hide Extends, StateOK, FlagsOK, StepTransitionError, FindStep, ValidStepInput, Reported;
    StartReported(op, components, step);
    OnlyLastRuns(op.steps, components);
    if FindStep(op.steps, step.stepID, step.attempt) < 0 && op.failure.None? {
      var closed := CloseAttempt(op, InFlight(op.steps), step.startedAt).steps;
      var after := closed + [step];
      forall i | 0 <= i < |after| && after[i].status == Failed
        ensures LatestStep(after, after[i].stepID) != i
      {
        assert after[i].stepID == op.steps[i].stepID;
        if op.steps[i].status == Failed {
          var later := LatestStep(op.steps, op.steps[i].stepID);
          assert after[later].stepID == op.steps[i].stepID;
        } else {
          assert after[|closed|].stepID == after[i].stepID;
        }
      }
    }
  }

  lemma FinishAccounted(op: Operation, components: seq<string>, finish: StepFinish)
    requires OperationOK(op, components) && Accounted(op) && FinishStep(op, finish).Accept?
    ensures Accounted(FinishStep(op, finish).op)
  {
    hide Extends, StateOK, FlagsOK, ValidID, ValidDigest, ValidReason, HistoryOK, InFlight, FindStep, Reported;
    FinishReported(op, finish);
    var after := FinishStep(op, finish).op;
    if after.failure.None? {
      forall i | 0 <= i < |after.steps| && after.steps[i].status == Failed
        ensures LatestStep(after.steps, after.steps[i].stepID) != i
      {
        var later := LatestStep(op.steps, op.steps[i].stepID);
        assert after.steps[later].stepID == op.steps[later].stepID;
      }
    }
  }

  lemma DecideAccounted(op: Operation, components: seq<string>, e: Event)
    requires OperationOK(op, components) && Accounted(op) && ValidShape(e) && Target(e).Some?
    requires Decide(op, components, e).Accept?
    ensures Accounted(Decide(op, components, e).op)
  {
    hide OperationOK, StartStep, FinishStep, InFlight, CanComplete, CanReportRolledBack, HasRollbackCandidate, LatestStep,
         FailureNames;
    match e.body {
      case StepStarted(step) => StartAccounted(op, components, step);
      case StepFinished(finish) => FinishAccounted(op, components, finish);
      case _ =>
    }
  }

  /** A failed step elsewhere than at `at` stays in the list when that entry is replaced. */
  lemma StaysIn(steps: seq<Step>, s: Step, at: int, other: Step)
    requires s in steps && 0 <= at < |steps| && steps[at] != s
    ensures s in steps[at := other]
  {
    var i :| 0 <= i < |steps| && steps[i] == s;
    assert steps[at := other][i] == s;
  }

  lemma StartReported(op: Operation, components: seq<string>, step: Step)
    requires OperationOK(op, components) && Reported(op) && StartStep(op, components, step).Accept?
    ensures Reported(StartStep(op, components, step).op)
  {
    hide HistoryOK, StateOK, FlagsOK, StepTransitionError, FindStep, ValidStoredStep, InFlight;
    if op.failure.Some? {
      var s :| s in op.steps && FailureNames(op.failure.value, s);
      var current := InFlight(op.steps);
      if current >= 0 { StaysIn(op.steps, s, current, Interrupted(op.steps[current], step.startedAt)); }
      assert s in StartStep(op, components, step).op.steps;
    }
  }

  lemma FinishReported(op: Operation, finish: StepFinish)
    requires Reported(op) && FinishStep(op, finish).Accept?
    ensures Reported(FinishStep(op, finish).op)
  {
    hide ValidResult, FindStep, InFlight;
    var found := FindStep(op.steps, finish.stepID, finish.attempt);
    var after := FinishStep(op, finish).op;
    if op.steps[found].status == Running {
      var done := Finished(op.steps[found], finish);
      if finish.status == Failed {
        assert after.steps[found] == done && FailureNames(after.failure.value, done);
      } else if op.failure.Some? {
        var s :| s in op.steps && FailureNames(op.failure.value, s);
        StaysIn(op.steps, s, found, done);
      }
    }
  }

  lemma MarkReported(op: Operation, components: seq<string>)
    requires OperationOK(op, components) && Reported(op)
    ensures Reported(Mark(op))
  {
    hide HistoryOK, StateOK, FlagsOK, InFlight;
    var current := InFlight(op.steps);
    if op.failure.Some? && current >= 0 {
      var s :| s in op.steps && FailureNames(op.failure.value, s);
      StaysIn(op.steps, s, current, op.steps[current].(recovered := true));
    }
  }

  /** In every reachable operation, a reported failure names a failed step as it was recorded. */
  lemma FailureIsRecorded(installation: string, s: State, id: string)
    requires Reachable(installation, s) && id in s.operations && s.operations[id].failure.Some?
    ensures exists step | step in s.operations[id].steps :: FailureNames(s.operations[id].failure.value, step)
  {
    hide Run, ProjectionOK, Unreported, FailureNames;
    var moves :| Run(installation, moves).Live? && Run(installation, moves).state == s;
    RunAccounted(installation, moves);
    assert Accounted(s.operations[id]);
  }

  predicate AccountedAll(s: State) {
    forall id | id in s.operations :: Accounted(s.operations[id])
  }

  lemma TransitionAccounted(s: State, installation: string, e: Event)
    requires ProjectionOK(s) && AccountedAll(s) && Accepts(s, installation, e)
    ensures AccountedAll(After(s, installation, e))
  {
    hide OperationOK, Decide, ValidStoredApproval, ValidID, ValidDigest, LatestStep;
    if Target(e).Some? {
      var id := Target(e).value;
      Bound(s, id);
      DecideAccounted(s.operations[id], OperationComponents(s, s.operations[id]), e);
    }
  }

  lemma MarkAccounted(op: Operation, components: seq<string>)
    requires OperationOK(op, components) && Accounted(op)
    ensures Accounted(Mark(op))
  {
    hide OperationOK, Reported;
    MarkReported(op, components);
    MarkOperation(op, components);
    var marked := Mark(op);
    if marked.failure.None? {
      forall i | 0 <= i < |marked.steps| && marked.steps[i].status == Failed
        ensures LatestStep(marked.steps, marked.steps[i].stepID) != i
      {
        var later := LatestStep(op.steps, op.steps[i].stepID);
        assert marked.steps[later].stepID == op.steps[later].stepID;
      }
    }
  }

  lemma MarkAllAccounted(s: State)
    requires ProjectionOK(s) && AccountedAll(s)
    ensures AccountedAll(MarkAll(s))
  {
    hide OperationOK, Accounted, Mark;
    forall id | id in s.operations ensures Accounted(Mark(s.operations[id])) {
      Bound(s, id);
      MarkAccounted(s.operations[id], OperationComponents(s, s.operations[id]));
    }
  }

  lemma EmptyAccounted()
    ensures ProjectionOK(EMPTY) && AccountedAll(EMPTY)
  {
  }

  lemma {:induction false} ReplayAccounted(installation: string, log: seq<Event>)
    requires Replay(installation, log).Some?
    ensures ProjectionOK(Replay(installation, log).value) && AccountedAll(Replay(installation, log).value)
    decreases |log|
  {
    hide Accepts, After, ProjectionOK, AccountedAll;
    if log == [] {
      EmptyAccounted();
    } else {
      var front := log[..|log| - 1];
      ReplayAccounted(installation, front);
      TransitionKeeps(Replay(installation, front).value, installation, log[|log| - 1]);
      TransitionAccounted(Replay(installation, front).value, installation, log[|log| - 1]);
    }
  }

  lemma {:induction false} RunAccounted(installation: string, moves: seq<Move>)
    requires Run(installation, moves).Live?
    ensures ProjectionOK(Run(installation, moves).state) && AccountedAll(Run(installation, moves).state)
    decreases |moves|
  {
    hide Accepts, After, ProjectionOK, AccountedAll, MarkAll, Replay;
    if moves == [] {
      EmptyAccounted();
    } else {
      var front, move := moves[..|moves| - 1], moves[|moves| - 1];
      RunAccounted(installation, front);
      var before := Run(installation, front);
      match move {
        case Request(e) =>
          if Accepts(before.state, installation, e) {
            TransitionKeeps(before.state, installation, e);
            TransitionAccounted(before.state, installation, e);
          }
        case Reopen =>
          ReplayAccounted(installation, before.log);
          MarkKeeps(Replay(installation, before.log).value);
          MarkAllAccounted(Replay(installation, before.log).value);
      }
    }
  }

  // ---------------------------------------------------------------- the exact condition

  /** A newly started step that reuses an identity outside a retry of the running attempt is a rollback. */
  lemma StrayRetry(op: Operation, components: seq<string>, step: Step)
    requires OperationOK(op, components) && Accounted(op) && StartStep(op, components, step).Accept?
    requires FindStep(op.steps, step.stepID, step.attempt) < 0 && InFlight(op.steps) < 0 && step.retry
    ensures var prior := LatestStep(op.steps, step.stepID); prior >= 0 && op.steps[prior].phase != step.phase
  {
    hide Extends, FlagsOK, StateOK, FindStep, ValidID, ValidDigest, ValidPolicy, AllSucceeded;
    OnlyLastRuns(op.steps, components);
    var prior := LatestStep(op.steps, step.stepID);
    assert op.steps[prior] in op.steps;
  }

  /** The retried attempt is the newest one of its identity. */
  lemma RetriedIsLatest(op: Operation, components: seq<string>, step: Step)
    requires OperationOK(op, components) && Busy(op.steps) && StartStep(op, components, step).Accept?
    requires FindStep(op.steps, step.stepID, step.attempt) < 0
    ensures Last(op.steps).stepID == step.stepID && Last(op.steps).componentID == step.componentID
            && Last(op.steps).phase == step.phase
  {
    hide Extends, FlagsOK, StateOK, FindStep, ValidStepInput, StepTransitionError;
    OnlyLastRuns(op.steps, components);
  }

  /** The histories before and after a start name the same requests. */
  lemma StartHistory(op: Operation, components: seq<string>, step: Step)
    requires OperationOK(op, components) && StartStep(op, components, step).Accept?
    requires FindStep(op.steps, step.stepID, step.attempt) < 0
    ensures var after := StartStep(op, components, step).op.steps;
      && |after| == |op.steps| + 1 && after[|op.steps|] == step
      && forall i | 0 <= i < |op.steps| :: SameRequest(after[i], op.steps[i])
  {
    hide Extends, FlagsOK, StateOK, FindStep, ValidStepInput, StepTransitionError, HistoryOK, InFlight;
  }

  /**
   Starting a step keeps the attempts uniform if and only if a record flagged as a retry comes
   while an attempt is running.
  */
  lemma UniformExactly(op: Operation, components: seq<string>, step: Step)
    requires OperationOK(op, components) && Accounted(op) && Uniform(op.steps)
    requires StartStep(op, components, step).Accept? && FindStep(op.steps, step.stepID, step.attempt) < 0
    ensures Uniform(StartStep(op, components, step).op.steps) <==> (step.retry ==> InFlight(op.steps) >= 0)
  {
    hide StartStep, OperationOK, InFlight, FindStep, Accounted, LatestStep;
    var after := StartStep(op, components, step).op.steps;
    StartHistory(op, components, step);
    Idle(op, components);
    if InFlight(op.steps) >= 0 {
      RetriedIsLatest(op, components, step);
      forall i, j | 0 <= i < j < |after| && after[i].stepID == after[j].stepID
        ensures after[i].componentID == after[j].componentID && after[i].phase == after[j].phase
      {
        if j == |op.steps| && i < |op.steps| - 1 { assert op.steps[i].stepID == Last(op.steps).stepID; }
      }
    } else if step.retry {
      StrayRetry(op, components, step);
      var prior := LatestStep(op.steps, step.stepID);
      assert after[prior].stepID == after[|op.steps|].stepID && after[prior].phase != after[|op.steps|].phase;
    } else {
      FirstAttempt(op, components, step);
    }
  }

  lemma FirstAttempt(op: Operation, components: seq<string>, step: Step)
    requires OperationOK(op, components) && StartStep(op, components, step).Accept?
    requires FindStep(op.steps, step.stepID, step.attempt) < 0 && InFlight(op.steps) < 0 && !step.retry
    ensures forall i | 0 <= i < |op.steps| :: op.steps[i].stepID != step.stepID
  {
    hide Extends, FlagsOK, StateOK, FindStep, ValidStepInput, PhaseAllows, HistoryOK;
  }

  // ---------------------------------------------------------------- runs of the public calls

  /** Every accepted request of the run was one that a public call writes. */
  predicate IssuedRun(installation: string, moves: seq<Move>)
    decreases |moves|
  {
    moves == []
    || (var front := moves[..|moves| - 1];
        && IssuedRun(installation, front)
        && (moves[|moves| - 1].Request? && Run(installation, front).Live?
            && Accepts(Run(installation, front).state, installation, moves[|moves| - 1].e)
            ==> Issued(Run(installation, front).state, moves[|moves| - 1].e)))
  }

  predicate UniformAll(s: State) {
    forall id | id in s.operations :: Uniform(s.operations[id].steps)
  }

  lemma DecideUniform(op: Operation, components: seq<string>, e: Event)
    requires OperationOK(op, components) && Accounted(op) && Uniform(op.steps)
    requires ValidShape(e) && Target(e).Some? && IssuedOn(op, e) && Decide(op, components, e).Accept?
    ensures Uniform(Decide(op, components, e).op.steps)
  {
    hide OperationOK, StartStep, InFlight, FindStep, CanComplete, CanReportRolledBack, HasRollbackCandidate,
         Accounted, ValidResult;
    if e.body.StepStarted? { UniformExactly(op, components, e.body.step); }
  }

  lemma NoAttempts()
    ensures Uniform([])
  {
  }

  lemma TransitionUniform(s: State, installation: string, e: Event)
    requires ProjectionOK(s) && AccountedAll(s) && UniformAll(s) && Issued(s, e) && Accepts(s, installation, e)
    ensures UniformAll(After(s, installation, e))
  {
    hide OperationOK, Decide, ValidStoredApproval, ValidID, ValidDigest, IssuedOn, Accounted, Uniform;
    if Target(e).Some? {
      var id := Target(e).value;
      Bound(s, id);
      DecideUniform(s.operations[id], OperationComponents(s, s.operations[id]), e);
    } else if e.body.OperationStarted? {
      NoAttempts();
    }
  }

  lemma SimilarUniform(t: Operation, s: Operation, components: seq<string>)
    requires Paired(t, s, components) && Uniform(t.steps)
    ensures Uniform(Mark(s).steps)
  {
    hide OperationOK, InFlight;
    SimilarMeans(t, s, components, components);
    MarkOperation(t, components);
  }

  lemma ReopenUniform(t: State, s: State)
    requires InStep(t, s) && UniformAll(t)
    ensures UniformAll(MarkAll(s))
  {
    hide ProjectionOK, Uniform, Mark, Paired;
    forall id | id in s.operations ensures Uniform(Mark(s.operations[id]).steps) {
      SimilarBinding(t, s, id);
      SimilarUniform(t.operations[id], s.operations[id], OperationComponents(s, s.operations[id]));
    }
  }

  /** In every run of the public calls, all attempts of an identity share component and phase. */
  lemma {:induction false} RetriesUniform(installation: string, moves: seq<Move>)
    requires IssuedRun(installation, moves)
    ensures Run(installation, moves).Live? && UniformAll(Run(installation, moves).state)
    decreases |moves|
  {
    hide Accepts, After, InStep, MarkAll, ProjectionOK, AccountedAll, UniformAll, Issued, Replay;
    CrashReplay(installation, moves);
    if moves == [] {
      NoneUniform();
    } else {
      var front, move := moves[..|moves| - 1], moves[|moves| - 1];
      RetriesUniform(installation, front);
      CrashReplay(installation, front);
      var before := Run(installation, front);
      match move {
        case Request(e) =>
          if Accepts(before.state, installation, e) {
            RunAccounted(installation, front);
            TransitionUniform(before.state, installation, e);
          }
        case Reopen => ReopenUniform(before.state, Replay(installation, before.log).value);
      }
    }
  }

  lemma NoneUniform()
    ensures UniformAll(EMPTY)
  {
  }

  // ---------------------------------------------------------------- mutations are never retried

  predicate MutationsOnce(steps: seq<Step>) {
    forall j | 0 <= j < |steps| && IsMutation(steps[j]) :: steps[j].attempt == 1
  }

  lemma OnceFromChains(op: Operation, components: seq<string>)
    requires OperationOK(op, components) && AttemptsChained(op.steps) && Uniform(op.steps)
    ensures MutationsOnce(op.steps)
  {
    hide Extends, StateOK, FlagsOK, Superseded;
    OnlyLastRuns(op.steps, components);
    forall j | 0 <= j < |op.steps| && IsMutation(op.steps[j]) ensures op.steps[j].attempt == 1 {
      assert StepOK(op.steps[j]);
      if op.steps[j].attempt > 1 {
        assert HasAttempt(op.steps, j, op.steps[j].stepID, 1);
        var i :| 0 <= i < j && op.steps[i].stepID == op.steps[j].stepID && op.steps[i].attempt == 1;
        assert StepOK(op.steps[i]) && Superseded(op.steps[i]);
        SupersededReads(op.steps[i]);
      }
    }
  }

  lemma SupersededReads(step: Step)
    requires Superseded(step)
    ensures step.mode == ReadOnly
  {
  }

  /** In every run of the public calls, a mutation step has one attempt. */
  lemma MutationsHaveOneAttempt(installation: string, moves: seq<Move>, id: string)
    requires IssuedRun(installation, moves)
    requires Run(installation, moves).Live? && id in Run(installation, moves).state.operations
    ensures MutationsOnce(Run(installation, moves).state.operations[id].steps)
  {
    hide Run, IssuedRun, OperationOK, AttemptsChained, Uniform;
    var s := Run(installation, moves).state;
    assert Reachable(installation, s);
    RetriesUniform(installation, moves);
    RetryChains(installation, s, id);
    ReachableOperation(installation, s, id);
    OnceFromChains(s.operations[id], OperationComponents(s, s.operations[id]));
  }

  /**
   Among accepted records, a new mutation step is a first attempt if and only if it is not flagged
   as a retry while nothing is in flight.
  */
  lemma FirstAttemptExactly(op: Operation, components: seq<string>, step: Step)
    requires OperationOK(op, components) && StartStep(op, components, step).Accept? && IsMutation(step)
    requires FindStep(op.steps, step.stepID, step.attempt) < 0
    ensures step.attempt == 1 <==> (step.retry ==> InFlight(op.steps) >= 0)
  {
    hide HistoryOK, FlagsOK, StateOK, FindStep, PhaseAllows, ValidID, ValidDigest, ValidPolicy;
    OnlyLastRuns(op.steps, components);
    var prior := LatestStep(op.steps, step.stepID);
    if prior >= 0 { assert StepOK(op.steps[prior]); }
  }
}
