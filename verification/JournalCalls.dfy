/**
 What each public call of the journal does with a projection: it answers at once, or it submits one
 record. The records that calls submit are exactly the issued ones.
*/
module JournalCalls {
  import opened Basics
  import opened Patterns
  import opened JournalModel
  import opened JournalMachine
  import opened JournalInvariant
  import opened JournalRuns
  import opened JournalRequests

  datatype Call =
    | ApproveCall(requested: Approval)
    | StartCall(id: string, approvalID: string, plan: string)
    | BeginCall(step: Step)
    | FinishCall(finish: StepFinish)
    | CancelCall(id: string)
    | RollbackCall(id: string)
    | SealCall(id: string, outcome: Outcome)

  datatype Reply = Answer(error: Option<Error>) | Submission(e: Event)

  /** Do two steps come from the same request? Progress, recovery flags and times are not part of it. */
  predicate SameCall(a: Step, b: Step) {
    && a.operationID == b.operationID && a.stepID == b.stepID && a.componentID == b.componentID
    && a.phase == b.phase && a.mode == b.mode && a.attempt == b.attempt
    && a.idempotency == b.idempotency && a.rollback == b.rollback && a.compensates == b.compensates
  }

  predicate SameResult(step: Step, finish: StepFinish) {
    step.status == finish.status && step.result == finish.result && step.reason == finish.reason
  }

  function ApproveReply(s: State, requested: Approval, now: Time): Reply {
    if requested.id in s.approvals then
      Answer(if s.approvals[requested.id] == requested.(issuedAt := s.approvals[requested.id].issuedAt) then None
             else Some(Conflict))
    else if now >= requested.expiresAt then Answer(Some(Expired))
    else Submission(Event(now, ApprovalRecorded(requested.(issuedAt := now))))
  }

  function StartReply(s: State, id: string, approvalID: string, plan: string, now: Time): Reply {
    if !ValidID(id) || !ValidID(approvalID) || !ValidDigest(plan) then Answer(Some(InvalidInput))
    else if id in s.operations then
      Answer(if s.operations[id].approvalID == approvalID && s.operations[id].planDigest == plan then None
             else Some(Conflict))
    else if approvalID !in s.approvals then Answer(Some(NotFound))
    else if now >= s.approvals[approvalID].expiresAt then Answer(Some(Expired))
    else if s.approvals[approvalID].planDigest != plan then Answer(Some(Conflict))
    else Submission(Event(now, OperationStarted(id, approvalID, plan)))
  }

  /** The step that a request starts; it is a retry when a reopen left its last attempt running. */
  function Candidate(op: Operation, input: Step, now: Time): Step {
    Step(input.operationID, input.stepID, input.componentID, input.phase, input.mode, input.attempt,
         input.idempotency, input.rollback, input.compensates, now, UNSET, Running, "", "", false,
         RetriesRecovered(op, input))
  }

  function BeginReply(s: State, input: Step, now: Time): Reply {
    if !ValidStepInput(input) then Answer(Some(InvalidInput))
    else if input.operationID !in s.operations then Answer(Some(NotFound))
    else
      var op := s.operations[input.operationID];
      var found := FindStep(op.steps, input.stepID, input.attempt);
      if found >= 0 then Answer(if SameCall(op.steps[found], input) then None else Some(Conflict))
      else Submission(Event(now, StepStarted(Candidate(op, input, now))))
  }

  function FinishReply(s: State, input: StepFinish, now: Time): Reply {
    if !ValidResult(input) then Answer(Some(InvalidInput))
    else if input.operationID !in s.operations then Answer(Some(NotFound))
    else FinishReplyOn(s.operations[input.operationID], input, now)
  }

  function FinishReplyOn(op: Operation, input: StepFinish, now: Time): Reply {
    var found := FindStep(op.steps, input.stepID, input.attempt);
    if found < 0 then Answer(Some(NotFound))
    else
      var step := op.steps[found];
      if step.status != Running then Answer(if SameResult(step, input) then None else Some(Conflict))
      else if step.recovered && step.mode == ReadOnly then Answer(Some(InvalidTransition))
      else Submission(Event(now, StepFinished(input.(finishedAt := now, reconciles := step.recovered && step.mode == Mutation))))
  }

  /** Has the operation already come to what the event asks for? */
  predicate Concluded(op: Operation, body: Body) {
    match body
    case OperationCancelled(_) => op.state == Cancelled
    case RollbackStarted(_) => op.rollbackStarted
    case OperationFinished(_, outcome) => Wanted(outcome) == Some(op.state) && op.finishedAt != UNSET
    case _ => false
  }

  predicate Concludes(body: Body) {
    body.OperationCancelled? || body.RollbackStarted? || body.OperationFinished?
  }

  function ConcludeReply(s: State, body: Body, now: Time): Reply
    requires Concludes(body)
  {
    if !ValidID(body.operationID) || (body.OperationFinished? && Wanted(body.outcome).None?) then
      Answer(Some(InvalidInput))
    else if body.operationID in s.operations && Concluded(s.operations[body.operationID], body) then Answer(None)
    else Submission(Event(now, body))
  }

  function BodyOf(call: Call): Body
    requires call.CancelCall? || call.RollbackCall? || call.SealCall?
  {
    if call.CancelCall? then OperationCancelled(call.id)
    else if call.RollbackCall? then RollbackStarted(call.id)
    else OperationFinished(call.id, call.outcome)
  }

  function ReplyTo(s: State, call: Call, now: Time): Reply {
    match call
    case ApproveCall(requested) => ApproveReply(s, requested, now)
    case StartCall(id, approvalID, plan) => StartReply(s, id, approvalID, plan, now)
    case BeginCall(step) => BeginReply(s, step, now)
    case FinishCall(finish) => FinishReply(s, finish, now)
    case _ => ConcludeReply(s, BodyOf(call), now)
  }

  /** The call whose record this is. */
  function CallFor(e: Event): Call {
    match e.body
    case ApprovalRecorded(a) => ApproveCall(a)
    case OperationStarted(id, approvalID, plan) => StartCall(id, approvalID, plan)
    case StepStarted(step) => BeginCall(step)
    case StepFinished(finish) => FinishCall(finish)
    case OperationCancelled(id) => CancelCall(id)
    case RollbackStarted(id) => RollbackCall(id)
    case OperationFinished(id, outcome) => SealCall(id, outcome)
  }

  // ---------------------------------------------------------------- which records calls write

  /** What a call submits is issued, once it is accepted. */
  lemma SubmissionIsIssued(s: State, installation: string, call: Call, e: Event)
    requires ReplyTo(s, call, e.observedAt) == Submission(e) && Accepts(s, installation, e)
    ensures Issued(s, e)
  {
    hide ValidID, ValidDigest, ValidStepInput, ValidResult, FindStep, InFlight, StartStep, FinishStep, Cancel, BeginRollback,
         Seal, ValidStoredApproval, RecordApproval, StartOperation;
  }

  /** What is issued and accepted is what the matching call submits. */
  lemma IssuedIsSubmitted(s: State, installation: string, e: Event)
    requires ProjectionOK(s) && Issued(s, e) && Accepts(s, installation, e)
    ensures ReplyTo(s, CallFor(e), e.observedAt) == Submission(e)
  {
    hide ProjectionOK, OperationOK, Transition, Issued, Accepts;
    AcceptedAs(s, installation, e);
    match e.body {
      case ApprovalRecorded(_) => SubmitsApproval(s, installation, e);
      case OperationStarted(_, _, _) => SubmitsStart(s, installation, e);
      case StepStarted(step) => SubmitsBegin(s, e);
      case StepFinished(finish) => SubmitsFinish(s, e);
      case _ => SubmitsConclusion(s, e);
    }
  }

  /** An accepted event is in shape and agrees with its envelope; one about an operation was accepted by it. */
  lemma AcceptedAs(s: State, installation: string, e: Event)
    requires Accepts(s, installation, e)
    ensures ValidShape(e) && TimesAgree(e)
    ensures Target(e).Some? ==>
      var id := Target(e).value;
      id in s.operations && Decide(s.operations[id], OperationComponents(s, s.operations[id]), e).Accept?
  {
    hide Decide, RecordApproval, StartOperation, ValidID;
  }

  lemma SubmitsApproval(s: State, installation: string, e: Event)
    requires e.body.ApprovalRecorded? && Issued(s, e) && Accepts(s, installation, e)
    ensures ReplyTo(s, CallFor(e), e.observedAt) == Submission(e)
  {
    hide ValidID, ValidDigest, ValidSecrets, ValidApprovedComponent;
  }

  lemma SubmitsStart(s: State, installation: string, e: Event)
    requires e.body.OperationStarted? && Issued(s, e) && Accepts(s, installation, e)
    ensures ReplyTo(s, CallFor(e), e.observedAt) == Submission(e)
  {
    hide ValidID, ValidDigest;
  }

  lemma SubmitsBegin(s: State, e: Event)
    requires e.body.StepStarted? && Issued(s, e) && TimesAgree(e) && e.body.step.operationID in s.operations
    requires var op := s.operations[e.body.step.operationID];
      StartStep(op, OperationComponents(s, op), e.body.step).Accept?
    ensures ReplyTo(s, CallFor(e), e.observedAt) == Submission(e)
  {
    hide ValidStepInput, FindStep, InFlight, StepTransitionError, OperationComponents;
  }

  lemma SubmitsFinish(s: State, e: Event)
    requires e.body.StepFinished? && Issued(s, e) && TimesAgree(e) && e.body.finish.operationID in s.operations
    requires FinishStep(s.operations[e.body.finish.operationID], e.body.finish).Accept?
    ensures ReplyTo(s, CallFor(e), e.observedAt) == Submission(e)
  {
    hide ValidResult, FindStep, InFlight;
  }

  lemma SubmitsConclusion(s: State, e: Event)
    requires ProjectionOK(s) && Issued(s, e) && Concludes(e.body)
    ensures ReplyTo(s, CallFor(e), e.observedAt) == Submission(e)
  {
    hide OperationOK, ValidID;
    Bound(s, e.body.operationID);
  }

  /** Among accepted records, the issued ones are exactly those that some call submits. */
  lemma CallsSubmitExactly(s: State, installation: string, e: Event)
    requires ProjectionOK(s) && Accepts(s, installation, e)
    ensures Issued(s, e) <==> exists call :: ReplyTo(s, call, e.observedAt) == Submission(e)
  {
    hide ProjectionOK, Accepts, Issued, ReplyTo;
    if Issued(s, e) { IssuedIsSubmitted(s, installation, e); }
    if call :| ReplyTo(s, call, e.observedAt) == Submission(e) { SubmissionIsIssued(s, installation, call, e); }
  }

  /** The record finishes a read-only attempt that a reopen found running. */
  predicate FinishesRecovered(s: State, e: Event) {
    e.body.StepFinished? && e.body.finish.operationID in s.operations &&
    var steps := s.operations[e.body.finish.operationID].steps;
    var found := FindStep(steps, e.body.finish.stepID, e.body.finish.attempt);
    found >= 0 && IsRunning(steps[found]) && steps[found].recovered && steps[found].mode == ReadOnly
  }

  /**
   The calls are no stricter than replay, but for one rule: what replay accepts is refused by its
   call exactly when it finishes a recovered read-only attempt.
  */
  lemma RefusedExactly(s: State, installation: string, e: Event)
    requires ProjectionOK(s) && Accepts(s, installation, e)
    ensures (ReplyTo(s, CallFor(e), e.observedAt).Answer? && ReplyTo(s, CallFor(e), e.observedAt).error.Some?)
      <==> FinishesRecovered(s, e)
  {
    hide ProjectionOK, OperationOK, Transition, Accepts;
    AcceptedAs(s, installation, e);
    match e.body {
      case ApprovalRecorded(_) => ReadsApproval(s, installation, e);
      case OperationStarted(_, _, _) => ReadsStart(s, installation, e);
      case StepStarted(step) => ReadsBegin(s, e);
      case StepFinished(finish) => ReadsFinish(s, e);
      case _ => ReadsConclusion(s, e);
    }
  }

  predicate NotRefused(reply: Reply) {
    reply.Answer? ==> reply.error.None?
  }

  lemma ReadsApproval(s: State, installation: string, e: Event)
    requires e.body.ApprovalRecorded? && Accepts(s, installation, e)
    ensures NotRefused(ReplyTo(s, CallFor(e), e.observedAt))
  {
    hide ValidID, ValidDigest, ValidSecrets, ValidApprovedComponent;
  }

  lemma ReadsStart(s: State, installation: string, e: Event)
    requires e.body.OperationStarted? && Accepts(s, installation, e)
    ensures NotRefused(ReplyTo(s, CallFor(e), e.observedAt))
  {
    hide ValidID, ValidDigest;
  }

  lemma ReadsBegin(s: State, e: Event)
    requires e.body.StepStarted? && TimesAgree(e) && e.body.step.operationID in s.operations
    requires var op := s.operations[e.body.step.operationID];
      StartStep(op, OperationComponents(s, op), e.body.step).Accept?
    ensures NotRefused(ReplyTo(s, CallFor(e), e.observedAt))
  {
    hide ValidStepInput, FindStep, InFlight, StepTransitionError, OperationComponents;
  }

  lemma ReadsFinish(s: State, e: Event)
    requires e.body.StepFinished? && TimesAgree(e) && e.body.finish.operationID in s.operations
    requires FinishStep(s.operations[e.body.finish.operationID], e.body.finish).Accept?
    ensures NotRefused(ReplyTo(s, CallFor(e), e.observedAt)) <==> !FinishesRecovered(s, e)
  {
    hide ValidResult, FindStep, InFlight;
  }

  lemma ReadsConclusion(s: State, e: Event)
    requires ProjectionOK(s) && Concludes(e.body) && e.body.operationID in s.operations
    requires var op := s.operations[e.body.operationID]; Decide(op, OperationComponents(s, op), e).Accept?
    ensures NotRefused(ReplyTo(s, CallFor(e), e.observedAt))
  {
    hide OperationOK, ValidID, InFlight, CanComplete, CanReportRolledBack, HasRollbackCandidate;
    Bound(s, e.body.operationID);
  }

  // ---------------------------------------------------------------- what calls read

  /** The projection already holds what the call asks for. */
  predicate Holds(s: State, call: Call) {
    match call
    case ApproveCall(requested) =>
      requested.id in s.approvals && s.approvals[requested.id] == requested.(issuedAt := s.approvals[requested.id].issuedAt)
    case StartCall(id, approvalID, plan) =>
      id in s.operations && s.operations[id].approvalID == approvalID && s.operations[id].planDigest == plan
    case BeginCall(step) =>
      step.operationID in s.operations && exists x | x in s.operations[step.operationID].steps :: SameCall(x, step)
    case FinishCall(finish) =>
      finish.operationID in s.operations && exists x | x in s.operations[finish.operationID].steps ::
        x.stepID == finish.stepID && x.attempt == finish.attempt && SameResult(x, finish)
    case _ => call.id in s.operations && Concluded(s.operations[call.id], BodyOf(call))
  }

  /** A call that succeeds without a record found everything it asked for. */
  lemma ReadsWhatHolds(s: State, call: Call, now: Time)
    requires ReplyTo(s, call, now) == Answer(None)
    ensures Holds(s, call)
  {
    hide ValidID, ValidDigest, ValidStepInput, ValidResult;
    if call.BeginCall? {
      var steps := s.operations[call.step.operationID].steps;
      assert steps[FindStep(steps, call.step.stepID, call.step.attempt)] in steps;
    }
    if call.FinishCall? {
      var steps := s.operations[call.finish.operationID].steps;
      assert steps[FindStep(steps, call.finish.stepID, call.finish.attempt)] in steps;
    }
  }

  // ---------------------------------------------------------------- expiry

  /** No call submits an approval that has expired, or an operation under one. */
  lemma SubmittedInTime(s: State, call: Call, now: Time, e: Event)
    requires ReplyTo(s, call, now) == Submission(e)
    ensures e.body.ApprovalRecorded? ==> e.body.approval.issuedAt == now && now < e.body.approval.expiresAt
    ensures e.body.OperationStarted? ==> e.body.approvalID in s.approvals && now < s.approvals[e.body.approvalID].expiresAt
  {
    hide ValidID, ValidDigest, ValidStepInput, ValidResult, FindStep, RetriesRecovered;
  }
}
