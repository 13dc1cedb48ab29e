/** The records that the public calls of the journal write, beyond what any accepted record is. */
module JournalRequests {
  import opened Basics
  import opened JournalModel
  import opened JournalMachine

  /** Does this request retry the read-only attempt that a reopen found running? */
  predicate RetriesRecovered(op: Operation, step: Step) {
    var current := InFlight(op.steps);
    && current >= 0 && op.steps[current].recovered && op.steps[current].mode == ReadOnly
    && op.steps[current].stepID == step.stepID && op.steps[current].componentID == step.componentID
    && op.steps[current].phase == step.phase && step.attempt == Successor(op.steps[current].attempt)
  }

  /** Would a public call on the operation `op` write this record? */
  predicate IssuedOn(op: Operation, e: Event)
    requires Target(e).Some?
  {
    match e.body
    case StepStarted(step) =>
      FindStep(op.steps, step.stepID, step.attempt) < 0 && step.retry == RetriesRecovered(op, step)
    case StepFinished(finish) =>
      var found := FindStep(op.steps, finish.stepID, finish.attempt);
      && found >= 0 && IsRunning(op.steps[found])
      && !(op.steps[found].recovered && op.steps[found].mode == ReadOnly)
      && finish.reconciles == (op.steps[found].recovered && op.steps[found].mode == Mutation)
    case OperationCancelled(_) => op.state != Cancelled
    case RollbackStarted(_) => !op.rollbackStarted
    case OperationFinished(_, outcome) =>
      Wanted(outcome).Some? && !(Wanted(outcome) == Some(op.state) && op.finishedAt != UNSET)
  }

  /** Would some public call on the projection `s` write this record? */
  predicate Issued(s: State, e: Event) {
    && ValidShape(e) && TimesAgree(e)
    && match e.body
       case ApprovalRecorded(a) => a.id !in s.approvals
       case OperationStarted(id, _, _) => id !in s.operations
       case _ => Target(e).value in s.operations && IssuedOn(s.operations[Target(e).value], e)
  }
}
