/**
 Crashes and replay agree. A live projection that was relabelled at some past reopens stays
 similar to the plain replay of the log: every record the live journal accepts is accepted by the
 replay, and relabelling both gives the same projection.
*/
module JournalReplay {
  import opened Basics
  import opened Patterns
  import opened JournalModel
  import opened JournalMachine
  import opened JournalInvariant
  import opened JournalKeeps
  import opened JournalRuns

  /** An operation as plain replay leaves it: nothing is relabelled. */
  predicate Plain(op: Operation) {
    && (op.steps != [] ==> !Last(op.steps).recovered)
    && op.state != RetryRequired
    && (op.state == NeedsRecovery && op.finishedAt == UNSET ==> !Busy(op.steps))
  }

  /** The live operation `t` differs from `s` at most by the relabelling of its running step. */
  predicate SimilarOperation(t: Operation, s: Operation) {
    Mark(t) == Mark(s) && (t.state == s.state || t.state == Mark(s).state)
  }

  lemma SimilarMeans(t: Operation, s: Operation, ct: seq<string>, cs: seq<string>)
    requires OperationOK(t, ct) && OperationOK(s, cs) && SimilarOperation(t, s)
    ensures Busy(t.steps) == Busy(s.steps)
    ensures !Busy(s.steps) ==> t == s
    ensures |t.steps| == |s.steps|
    ensures t.(steps := s.steps, state := s.state) == s
    ensures Busy(s.steps) ==>
              && Front(t.steps) == Front(s.steps)
              && Last(t.steps).(recovered := Last(s.steps).recovered) == Last(s.steps)
              && InFlight(t.steps) == |s.steps| - 1 == InFlight(s.steps)
  {
    hide OperationOK, InFlight;
    MarkOperation(t, ct);
    MarkOperation(s, cs);
    Idle(t, ct);
    Idle(s, cs);
    if Busy(s.steps) && Busy(t.steps) {
      assert Front(Mark(t).steps) == Front(t.steps) && Front(Mark(s).steps) == Front(s.steps);
      assert Last(Mark(t).steps) == Last(t.steps).(recovered := true);
      assert Last(Mark(s).steps) == Last(s.steps).(recovered := true);
    }
  }

  lemma Idle(op: Operation, components: seq<string>)
    requires OperationOK(op, components)
    ensures InFlight(op.steps) == if Busy(op.steps) then |op.steps| - 1 else -1
    ensures Busy(Mark(op).steps) == Busy(op.steps)
  {
    hide Extends, FlagsOK, StateOK;
    OnlyLastRuns(op.steps, components);
  }

  /** Histories that differ only in the recovered flag of the newest step answer lookups alike. */
  lemma SameLookups(t: seq<Step>, s: seq<Step>, id: string, attempt: Uint32)
    requires t != [] && s != [] && Front(t) == Front(s)
    requires Last(t).(recovered := Last(s).recovered) == Last(s)
    ensures FindStep(t, id, attempt) == FindStep(s, id, attempt)
    ensures var f := FindStep(t, id, attempt); f >= 0 ==> t[f].(recovered := s[f].recovered) == s[f]
  {
    assert |t| == |s|;
    forall i | 0 <= i < |t| ensures t[i].(recovered := s[i].recovered) == s[i] {
      if i < |t| - 1 { assert t[i] == Front(t)[i] && s[i] == Front(s)[i]; }
    }
    var ft, fs := FindStep(t, id, attempt), FindStep(s, id, attempt);
    if 0 <= ft { assert s[ft].stepID == id && s[ft].attempt == attempt; }
    if 0 <= fs { assert t[fs].stepID == id && t[fs].attempt == attempt; }
  }

  /** The states in which a plain operation can be while a step runs. */
  lemma PlainBusy(s: Operation, components: seq<string>)
    requires OperationOK(s, components) && Plain(s) && Busy(s.steps)
    ensures StepOK(Last(s.steps))
    ensures s.finishedAt == UNSET ==> s.state == PhaseState(Last(s.steps).phase, s.state)
    ensures s.finishedAt != UNSET ==> s.state == NeedsRecovery && s.mutationStarted
  {
    hide Extends, FlagsOK;
    OnlyLastRuns(s.steps, components);
    assert Last(s.steps) in s.steps;
  }

  // ---------------------------------------------------------------- one event, both projections

  /** `t` is live, `s` is plain, they are similar and a step is running in both. */
  predicate Paired(t: Operation, s: Operation, components: seq<string>) {
    OperationOK(t, components) && OperationOK(s, components) && Plain(s) && SimilarOperation(t, s)
  }

  predicate Agree(t: Verdict, s: Verdict) {
    t.Accept? ==> s.Accept? && Plain(s.op) && SimilarOperation(t.op, s.op)
  }

  lemma ClosedAgree(t: Operation, s: Operation, components: seq<string>, step: Step)
    requires Paired(t, s, components) && Busy(s.steps) && ValidStoredStep(step)
    requires Retries(Last(t.steps), step)
    requires StepTransitionError(CloseAttempt(t, |t.steps| - 1, step.startedAt), components, step).None?
    ensures StepTransitionError(CloseAttempt(s, |s.steps| - 1, step.startedAt), components, step).None?
    ensures CloseAttempt(s, |s.steps| - 1, step.startedAt) == CloseAttempt(t, |t.steps| - 1, step.startedAt).(state := s.state)
  {
    hide OperationOK, SimilarOperation, Mark, SucceededIn, LatestStep, InFlight, ValidID, ValidDigest, ValidPolicy,
         AllSucceeded, EligibleMutation, Compensated;
    SimilarMeans(t, s, components, components);
    PlainBusy(s, components);
    var ct := CloseAttempt(t, |t.steps| - 1, step.startedAt);
    var cs := CloseAttempt(s, |s.steps| - 1, step.startedAt);
    assert Interrupted(Last(t.steps), step.startedAt) == Interrupted(Last(s.steps), step.startedAt);
    assert ct.steps == Resolved(t.steps, Interrupted(Last(t.steps), step.startedAt));
    assert cs.steps == Resolved(s.steps, Interrupted(Last(s.steps), step.startedAt));
    assert cs == ct.(state := s.state);
  }

  lemma StartAgrees(t: Operation, s: Operation, components: seq<string>, step: Step)
    requires Paired(t, s, components) && Busy(s.steps)
    ensures Agree(StartStep(t, components, step), StartStep(s, components, step))
  {
    hide OperationOK, StepTransitionError, FindStep, ValidStepInput, Mark;
    SimilarMeans(t, s, components, components);
    SameLookups(t.steps, s.steps, step.stepID, step.attempt);
    if StartStep(t, components, step).Accept? && FindStep(t.steps, step.stepID, step.attempt) < 0 {
      ClosedAgree(t, s, components, step);
      PlainBusy(s, components);
      Appended(CloseAttempt(s, |s.steps| - 1, step.startedAt).steps, step);
    }
  }

  lemma Appended(steps: seq<Step>, step: Step)
    ensures Last(steps + [step]) == step && Front(steps + [step]) == steps
  {
  }

  /** `t` and `s` differ at most in the label and in the recovered flag of the running step. */
  predicate Twins(t: Operation, s: Operation) {
    && Busy(s.steps) && Busy(t.steps) && t.(steps := s.steps, state := s.state) == s
    && Front(t.steps) == Front(s.steps) && |t.steps| == |s.steps|
    && Last(t.steps).(recovered := Last(s.steps).recovered) == Last(s.steps)
    && InFlight(t.steps) == |s.steps| - 1 == InFlight(s.steps)
    && !Last(s.steps).phase.OtherPhase?
  }

  /** The running step of an operation, finished. */
  function FinishLast(op: Operation, finish: StepFinish): Operation
    requires op.steps != []
  {
    var done := Finished(Last(op.steps), finish);
    var resolved := op.(steps := Resolved(op.steps, done));
    if finish.status == Failed
    then resolved.(failure := Some(FailureOf(done)), state := if done.phase == Rollback then NeedsRecovery else HasFailed)
    else resolved.(state := PhaseState(done.phase, op.state))
  }

  /** Finishing either repeats an old result or finishes the running step. */
  lemma FinishCases(op: Operation, finish: StepFinish)
    requires op.steps != [] && InFlight(op.steps) == |op.steps| - 1
    ensures FinishStep(op, finish).Accept? ==>
              if FindStep(op.steps, finish.stepID, finish.attempt) == |op.steps| - 1
              then FinishStep(op, finish).op == FinishLast(op, finish)
              else FinishStep(op, finish).op == op
  {
    hide FindStep, InFlight, ValidID, ValidDigest, ValidReason;
  }

  lemma FinishSame(t: Operation, s: Operation, finish: StepFinish)
    requires Twins(t, s) && FinishStep(t, finish).Accept?
    ensures var (vt, vs) := (FinishStep(t, finish), FinishStep(s, finish));
            vs.Accept? && ((vt.op == t && vs.op == s) || (vt.op == vs.op && vs.op == FinishLast(s, finish)))
  {
    hide FindStep, InFlight, ValidResult, FinishStep, FinishLast;
    SameLookups(t.steps, s.steps, finish.stepID, finish.attempt);
    SameAcceptance(t, s, finish);
    FinishCases(t, finish);
    FinishCases(s, finish);
    SameLast(t, s, finish);
  }

  lemma SameAcceptance(t: Operation, s: Operation, finish: StepFinish)
    requires Twins(t, s) && FinishStep(t, finish).Accept?
    requires FindStep(t.steps, finish.stepID, finish.attempt) == FindStep(s.steps, finish.stepID, finish.attempt)
    ensures FinishStep(s, finish).Accept?
  {
    hide FindStep, InFlight, ValidResult;
    var found := FindStep(s.steps, finish.stepID, finish.attempt);
    if 0 <= found < |s.steps| - 1 { assert t.steps[found] == Front(t.steps)[found] == Front(s.steps)[found] == s.steps[found]; }
  }

  lemma SameLast(t: Operation, s: Operation, finish: StepFinish)
    requires Twins(t, s)
    ensures FinishLast(t, finish) == FinishLast(s, finish)
  {
    hide InFlight, FailureOf;
    var done := Finished(Last(s.steps), finish);
    assert Finished(Last(t.steps), finish) == done;
    assert Resolved(t.steps, done) == Front(s.steps) + [done] == Resolved(s.steps, done);
    assert t.(steps := Resolved(t.steps, done), state := HasFailed) == s.(steps := Resolved(s.steps, done), state := HasFailed);
  }

  lemma FinishPlain(s: Operation, finish: StepFinish)
    requires s.steps != [] && ValidResult(finish) && !Last(s.steps).phase.OtherPhase?
    ensures Plain(FinishLast(s, finish))
  {
    hide InFlight, ValidID, ValidDigest, ValidReason;
  }

  lemma FinishAgrees(t: Operation, s: Operation, components: seq<string>, finish: StepFinish)
    requires Paired(t, s, components) && Busy(s.steps)
    ensures Agree(FinishStep(t, finish), FinishStep(s, finish))
  {
    hide OperationOK, InFlight, FindStep, Mark, Plain, FinishLast, ValidResult;
    SimilarMeans(t, s, components, components);
    PlainBusy(s, components);
    if FinishStep(t, finish).Accept? {
      FinishSame(t, s, finish);
      FinishPlain(s, finish);
    }
  }

  lemma SealAgrees(t: Operation, s: Operation, components: seq<string>, outcome: Outcome, at: Time)
    requires Paired(t, s, components) && Busy(s.steps) && at != UNSET
    ensures Agree(Seal(t, components, outcome, at), Seal(s, components, outcome, at))
  {
    hide OperationOK, CanComplete, CanReportRolledBack, InFlight;
    SimilarMeans(t, s, components, components);
    PlainBusy(s, components);
    MarkOperation(t, components);
    MarkOperation(s, components);
    MutationMeans(s, components);
    if Seal(t, components, outcome, at).Accept? {
      SealedSimilar(t, s, components, at);
    }
  }

  lemma MutationMeans(s: Operation, components: seq<string>)
    requires OperationOK(s, components) && Busy(s.steps)
    ensures IsMutation(Last(s.steps)) ==> s.mutationStarted
  {
    hide Extends, StateOK, HistoryOK;
    MarkedFlags(s);
  }

  /** Sealing both as recovery-required keeps them similar. */
  lemma SealedSimilar(t: Operation, s: Operation, components: seq<string>, at: Time)
    requires Paired(t, s, components) && Busy(s.steps)
    ensures SimilarOperation(t.(state := NeedsRecovery, finishedAt := at), s.(state := NeedsRecovery, finishedAt := at))
  {
    hide OperationOK, Plain;
  }

  lemma EventAgrees(t: Operation, s: Operation, components: seq<string>, e: Event)
    requires Paired(t, s, components) && ValidShape(e) && Target(e).Some?
    ensures Agree(Decide(t, components, e), Decide(s, components, e))
  {
    hide OperationOK, SimilarOperation, StartStep, FinishStep, Seal;
    SimilarMeans(t, s, components, components);
    if !Busy(s.steps) {
      IdleAgrees(s, components, e);
    } else {
      match e.body {
        case StepStarted(step) => StartAgrees(t, s, components, step);
        case StepFinished(finish) => FinishAgrees(t, s, components, finish);
        case OperationFinished(_, outcome) => SealAgrees(t, s, components, outcome, e.observedAt);
        case OperationCancelled(_) => CancelAgrees(t, s, components, e.observedAt);
        case RollbackStarted(_) => BeginAgrees(t, s, components);
      }
    }
  }

  lemma CancelAgrees(t: Operation, s: Operation, components: seq<string>, at: Time)
    requires Paired(t, s, components) && Busy(s.steps)
    ensures Agree(Cancel(t, at), Cancel(s, at))
  {
    hide HistoryOK, Mark;
    SimilarMeans(t, s, components, components);
  }

  lemma BeginAgrees(t: Operation, s: Operation, components: seq<string>)
    requires Paired(t, s, components) && Busy(s.steps)
    ensures Agree(BeginRollback(t), BeginRollback(s))
  {
    hide OperationOK, Mark;
    SimilarMeans(t, s, components, components);
  }

  lemma StartStaysPlain(s: Operation, components: seq<string>, step: Step)
    requires Plain(s) && InFlight(s.steps) < 0 && StartStep(s, components, step).Accept?
    ensures Plain(StartStep(s, components, step).op)
  {
    hide InFlight, FindStep, StepTransitionError, ValidStepInput, Plain;
    Appended(s.steps, step);
    if FindStep(s.steps, step.stepID, step.attempt) < 0 { StartedIsPlain(s, step); }
  }

  lemma StartedIsPlain(s: Operation, step: Step)
    requires Plain(s) && ValidStoredStep(step)
    ensures Plain(s.(steps := s.steps + [step], mutationStarted := s.mutationStarted || step.mode == Mutation,
                     state := PhaseState(step.phase, s.state)))
  {
    hide ValidID, ValidDigest, ValidPolicy;
    Appended(s.steps, step);
  }

  lemma FinishStaysPlain(s: Operation, finish: StepFinish)
    requires Plain(s) && InFlight(s.steps) < 0 && FinishStep(s, finish).Accept?
    ensures FinishStep(s, finish).op == s
  {
    hide ValidResult;
  }

  /** With nothing running the two operations are equal, and stay plain. */
  lemma IdleAgrees(s: Operation, components: seq<string>, e: Event)
    requires OperationOK(s, components) && Plain(s) && !Busy(s.steps) && ValidShape(e) && Target(e).Some?
    ensures var verdict := Decide(s, components, e);
            verdict.Accept? ==> Plain(verdict.op) && SimilarOperation(verdict.op, verdict.op)
  {
    hide Mark, OperationOK, StartStep, FinishStep, CanComplete, CanReportRolledBack, InFlight, HasRollbackCandidate;
    Idle(s, components);
    if Decide(s, components, e).Accept? {
      match e.body {
        case StepStarted(step) => StartStaysPlain(s, components, step);
        case StepFinished(finish) => FinishStaysPlain(s, finish);
        case _ =>
      }
    }
  }

  // ---------------------------------------------------------------- whole projections and whole runs

  predicate PlainAll(s: State) {
    forall id | id in s.operations :: Plain(s.operations[id])
  }

  predicate Similar(t: State, s: State) {
    && t.approvals == s.approvals
    && t.operations.Keys == s.operations.Keys
    && forall id | id in s.operations :: SimilarOperation(t.operations[id], s.operations[id])
  }

  predicate InStep(t: State, s: State) {
    ProjectionOK(t) && ProjectionOK(s) && PlainAll(s) && Similar(t, s)
  }

  lemma SimilarMarks(t: State, s: State)
    requires Similar(t, s)
    ensures MarkAll(t) == MarkAll(s)
  {
    hide Mark;
  }

  /** Similar operations agree on everything the other operations look at. */
  lemma SimilarBinding(t: State, s: State, id: string)
    requires InStep(t, s) && id in s.operations
    ensures Paired(t.operations[id], s.operations[id], OperationComponents(s, s.operations[id]))
    ensures t.operations[id].approvalID == s.operations[id].approvalID
    ensures t.operations[id].planDigest == s.operations[id].planDigest
    ensures t.operations[id].finishedAt == s.operations[id].finishedAt
  {
    hide OperationOK, Mark, Plain;
    Bound(t, id);
    Bound(s, id);
    SimilarMeans(t.operations[id], s.operations[id],
                 OperationComponents(t, t.operations[id]), OperationComponents(s, s.operations[id]));
  }

  lemma StartsAgree(t: State, s: State, installation: string, e: Event)
    requires InStep(t, s) && ValidShape(e) && e.body.OperationStarted? && Transition(t, installation, e).Accepted?
    ensures Transition(s, installation, e).Accepted?
    ensures PlainAll(After(s, installation, e)) && Similar(After(t, installation, e), After(s, installation, e))
  {
    hide OperationOK, Mark, ValidID, ValidDigest, BoundTo, SoleAuthority;
    forall id | id in s.operations
      ensures t.operations[id].approvalID == s.operations[id].approvalID
      ensures t.operations[id].planDigest == s.operations[id].planDigest
      ensures t.operations[id].finishedAt == s.operations[id].finishedAt
    {
      SimilarBinding(t, s, id);
    }
  }

  /** A record accepted by the live projection is accepted by the plain one, and they stay in step. */
  lemma RecordAgrees(t: State, s: State, installation: string, e: Event)
    requires InStep(t, s) && Accepts(t, installation, e)
    ensures Accepts(s, installation, e)
    ensures InStep(After(t, installation, e), After(s, installation, e))
  {
    hide ProjectionOK, Decide, SimilarOperation, Plain, StartOperation, RecordApproval;
    TransitionKeeps(t, installation, e);
    match e.body {
      case ApprovalRecorded(a) => ApprovalsAgree(t, s, installation, a);
      case OperationStarted(_, _, _) => StartsAgree(t, s, installation, e);
      case _ =>
        var id := Target(e).value;
        SimilarBinding(t, s, id);
        EventAgrees(t.operations[id], s.operations[id], OperationComponents(s, s.operations[id]), e);
    }
    TransitionKeeps(s, installation, e);
  }

  lemma ApprovalsAgree(t: State, s: State, installation: string, a: Approval)
    requires Similar(t, s) && PlainAll(s) && RecordApproval(t, installation, a).Accepted?
    ensures RecordApproval(s, installation, a).Accepted?
    ensures var (u, v) := (RecordApproval(t, installation, a).state, RecordApproval(s, installation, a).state);
            Similar(u, v) && PlainAll(v)
  {
    hide ValidStoredApproval, SimilarOperation, Plain;
  }

  lemma MarkedInStep(s: State)
    requires ProjectionOK(s) && PlainAll(s)
    ensures InStep(MarkAll(s), s)
  {
    hide Plain, OperationOK, BoundTo, InFlight;
    MarkKeeps(s);
    forall id | id in s.operations ensures SimilarOperation(Mark(s.operations[id]), s.operations[id]) {
      Bound(s, id);
      MarkTwice(s.operations[id], OperationComponents(s, s.operations[id]));
    }
  }

  /** Relabelling is idempotent: a second reopen in a row changes nothing. */
  lemma MarkTwice(op: Operation, components: seq<string>)
    requires OperationOK(op, components)
    ensures Mark(Mark(op)) == Mark(op)
  {
    hide OperationOK, InFlight;
    MarkOperation(op, components);
    MarkOperation(Mark(op), components);
  }

  /**
   Crash/replay equivalence. However requests and reopens interleave, the journal is never Refused,
   replaying the whole log accepts every record, and relabelling the replayed projection gives
   exactly the relabelled live projection.
  */
  lemma {:induction false} CrashReplay(installation: string, moves: seq<Move>)
    ensures var live := Run(installation, moves);
            && live.Live?
            && Replay(installation, live.log).Some?
            && InStep(live.state, Replay(installation, live.log).value)
            && MarkAll(live.state) == MarkAll(Replay(installation, live.log).value)
    decreases |moves|
  {
    hide Accepts, After, InStep, MarkAll, ProjectionOK;
    if moves == [] {
      EmptyInStep();
    } else {
      CrashReplay(installation, moves[..|moves| - 1]);
      var before := Run(installation, moves[..|moves| - 1]);
      var plain := Replay(installation, before.log).value;
      match moves[|moves| - 1] {
        case Request(e) =>
          if Accepts(before.state, installation, e) {
            RecordAgrees(before.state, plain, installation, e);
            assert (before.log + [e])[..|before.log|] == before.log;
          }
        case Reopen =>
          InStepPlain(before.state, plain);
          MarkedInStep(plain);
      }
    }
    var live := Run(installation, moves);
    InStepMarks(live.state, Replay(installation, live.log).value);
  }

  lemma EmptyInStep()
    ensures InStep(EMPTY, EMPTY)
  {
  }

  lemma InStepPlain(t: State, s: State)
    requires InStep(t, s)
    ensures ProjectionOK(s) && PlainAll(s)
  {
  }

  lemma InStepMarks(t: State, s: State)
    requires InStep(t, s)
    ensures MarkAll(t) == MarkAll(s)
  {
    SimilarMarks(t, s);
  }
}
