/** A run in which an applied mutation fails, is rolled back, and is reported so. */
module JournalOutcomes {
  import opened Basics
  import opened Patterns
  import opened JournalModel
  import opened JournalMachine
  import opened JournalInvariant
  import opened JournalKeeps
  import opened JournalHistory
  import opened JournalAcceptance
  import opened JournalExceptions

  const BROKEN := "failed"

  /** The step that undoes the apply step, under the third identity and with a key of its own. */
  function Undo(n: Names, key: string): Step {
    Step(n.operation, n.verify, n.component, Rollback, Mutation, 1, key, RollbackPolicy(n.digest, NoReason), n.apply,
         n.at, UNSET, Running, "", "", false, false)
  }

  function Breaks(n: Names): Event {
    Event(n.at, StepFinished(StepFinish(n.operation, n.apply, 1, Failed, "", BROKEN, n.at, false)))
  }

  lemma BrokenIsReason()
    ensures ValidReason(BROKEN)
  {
  }

  /** One accepted event, with what reachability says of the operation before it. */
  lemma Take(installation: string, n: Names, s: State, op: Operation, e: Event) returns (next: State, after: Operation)
    requires At(installation, n, s, op)
    requires ValidShape(e) && TimesAgree(e) && Target(e) == Some(n.operation) && Decide(op, [n.component], e).Accept?
    ensures At(installation, n, next, after) && after == Decide(op, [n.component], e).op
    ensures Accepts(s, installation, e) && next == After(s, installation, e)
  {
    hide Decide, Reachable, ValidShape;
    DecideFrames(op, [n.component], e);
    next := Advance(installation, n, s, op, e);
    after := Decide(op, [n.component], e).op;
  }

  lemma Sound(installation: string, n: Names, s: State, op: Operation)
    requires At(installation, n, s, op)
    ensures OperationOK(op, [n.component]) && Distinct([n.component])
  {
    hide Reachable, OperationOK;
    ReachableOperation(installation, s, n.operation);
  }

  /** The history after the failed apply step, up to what results and times the steps carry. */
  predicate Broken(n: Names, op: Operation) {
    && |op.steps| == 2 && op.steps[0] == Done(n, n.preflight, Preflight)
    && SameRequest(op.steps[1], Doing(n, n.apply, Apply)) && op.steps[1].status == Failed
    && op.finishedAt == UNSET && op.failure.Some?
  }

  lemma BreaksApply(installation: string, a: Approval, n: Names) returns (s: State, op: Operation)
    requires ValidStoredApproval(a, installation) && Proper(n) && n.at == a.issuedAt
    requires ComponentIDs(a.components) == [n.component]
    ensures At(installation, n, s, op) && Broken(n, op) && !op.rollbackStarted
  {
    hide ValidStoredApproval, Proper, Decide, Reachable, Accepts, After, PhaseAllows, AllSucceeded, OperationOK, OperationComponents;
    ProperNames(n);
    s, op := Preflighted(installation, a, n);
    assert PhaseAllows(op, [n.component], Doing(n, n.apply, Apply)) by { ApplyAllowed(n, op); }
    Begins(n, op, n.apply, Apply);
    s := Advance(installation, n, s, op, Begin(n, n.apply, Apply));
    op := s.operations[n.operation];
    Sound(installation, n, s, op);
    BreakAccepted(n, op);
    s, op := Take(installation, n, s, op, Breaks(n));
  }

  lemma BreakAccepted(n: Names, op: Operation)
    requires Proper(n) && OperationOK(op, [n.component]) && op.finishedAt == UNSET && !op.rollbackStarted
    requires op.steps == [Done(n, n.preflight, Preflight), Doing(n, n.apply, Apply)]
    ensures var verdict := Decide(op, [n.component], Breaks(n));
      verdict.Accept? && Broken(n, verdict.op) && !verdict.op.rollbackStarted
  {
    hide OperationOK, FinishStep, ValidID, ValidDigest, ValidReason;
    BrokenIsReason();
    var finish := Breaks(n).body.finish;
    FinishExactly(op, [n.component], finish);
    var after := FinishStep(op, finish).op;
    assert after.steps == Front(op.steps) + [Last(after.steps)];
  }

  lemma RollbackAccepted(n: Names, op: Operation)
    requires Proper(n) && OperationOK(op, [n.component]) && Broken(n, op) && !op.rollbackStarted
    ensures Decide(op, [n.component], Event(n.at, RollbackStarted(n.operation)))
      == Accept(op.(rollbackStarted := true, state := RollingBack))
  {
    hide OperationOK, BeginRollback, ValidID, ValidDigest;
    NoEmptyDigest();
    BeginRollbackExactly(op, [n.component]);
    assert op.steps[1] in op.steps && op.steps[1].rollback.reference == n.digest;
  }

  lemma UndoAccepted(n: Names, op: Operation, key: string)
    requires Proper(n) && OperationOK(op, [n.component]) && Broken(n, op) && op.rollbackStarted
    requires ValidDigest(key) && key != n.digest
    ensures var verdict := Decide(op, [n.component], Event(n.at, StepStarted(Undo(n, key))));
      && verdict.Accept? && verdict.op.steps == op.steps + [Undo(n, key)]
      && verdict.op.finishedAt == UNSET && verdict.op.rollbackStarted
  {
    hide OperationOK, StepTransitionError, FindStep, ValidStoredStep, InFlight, ValidID, ValidDigest;
    var step := Undo(n, key);
    assert forall s | s in op.steps :: s == op.steps[0] || s == op.steps[1];
    assert op.steps[1] in op.steps;
    NotFound(op.steps, n.verify);
    StartExactly(op, [n.component], step);
  }

  lemma NotFound(steps: seq<Step>, id: string)
    requires forall s | s in steps :: s.stepID != id
    ensures FindStep(steps, id, 1) < 0
  {
    hide FindStep;
    assert forall i | 0 <= i < |steps| :: steps[i] in steps;
  }

  lemma UndoneAccepted(n: Names, op: Operation, before: seq<Step>, key: string)
    requires Proper(n) && OperationOK(op, [n.component]) && op.finishedAt == UNSET && op.rollbackStarted
    requires op.steps == before + [Undo(n, key)]
    ensures var verdict := Decide(op, [n.component], End(n, n.verify));
      && verdict.Accept? && |verdict.op.steps| == |before| + 1 && verdict.op.steps[..|before|] == before
      && SameRequest(Undo(n, key), verdict.op.steps[|before|]) && verdict.op.steps[|before|].status == Succeeded
      && verdict.op.finishedAt == UNSET && verdict.op.rollbackStarted
  {
    hide OperationOK, FinishStep, ValidID, ValidDigest, ValidReason;
    FinishExactly(op, [n.component], End(n, n.verify).body.finish);
  }

  lemma ReportAccepted(n: Names, op: Operation, key: string)
    requires OperationOK(op, [n.component]) && op.finishedAt == UNSET && op.rollbackStarted
    requires |op.steps| == 3 && op.steps[0] == Done(n, n.preflight, Preflight)
    requires SameRequest(op.steps[1], Doing(n, n.apply, Apply)) && op.steps[1].status == Failed
    requires SameRequest(Undo(n, key), op.steps[2]) && op.steps[2].status == Succeeded
    ensures var verdict := Decide(op, [n.component], Event(n.at, OperationFinished(n.operation, ToRolledBack)));
      verdict.Accept? && verdict.op.state == RolledBack && verdict.op.steps == op.steps
  {
    hide OperationOK, Seal;
    assert forall s | s in op.steps :: s == op.steps[0] || s == op.steps[1] || s == op.steps[2];
    assert op.steps[2] in op.steps;
    RolledBackExactly(op, [n.component], n.at);
    SealsAs(op, [n.component], ToRolledBack, n.at);
  }

  /** A run from a failed apply step to a reported rollback. */
  lemma FailureRolledBack(installation: string, a: Approval, n: Names, key: string) returns (s: State)
    requires ValidStoredApproval(a, installation) && Proper(n) && n.at == a.issuedAt
    requires ComponentIDs(a.components) == [n.component] && ValidDigest(key) && key != n.digest
    ensures Reachable(installation, s) && n.operation in s.operations && s.operations[n.operation].state == RolledBack
    ensures exists step | step in s.operations[n.operation].steps :: step.phase == Apply && step.status == Failed
  {
    hide ValidStoredApproval, Proper, Decide, Reachable, Accepts, After, OperationOK, OperationComponents, ValidID, ValidDigest;
    ProperNames(n);
    ProperOperation(n);
    var op: Operation;
    s, op := BreaksApply(installation, a, n);
    Sound(installation, n, s, op);
    RollbackAccepted(n, op);
    s, op := Take(installation, n, s, op, Event(n.at, RollbackStarted(n.operation)));
    Sound(installation, n, s, op);
    UndoAccepted(n, op, key);
    var before := op.steps;
    s, op := Take(installation, n, s, op, Event(n.at, StepStarted(Undo(n, key))));
    Sound(installation, n, s, op);
    UndoneAccepted(n, op, before, key);
    s, op := Take(installation, n, s, op, End(n, n.verify));
    Sound(installation, n, s, op);
    assert op.steps[0] == before[0] && op.steps[1] == before[1];
    ReportAccepted(n, op, key);
    s, op := Take(installation, n, s, op, Event(n.at, OperationFinished(n.operation, ToRolledBack)));
    assert op.steps[1] in op.steps;
  }
}
