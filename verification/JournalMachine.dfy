/**
 The transition function of the journal. A rejected event still reports the projection it leaves
 behind, because starting a step closes the interrupted attempt before the new one is checked.
*/
module JournalMachine {
  import opened Basics
  import opened Patterns
  import opened StringOrder
  import opened JournalModel

  // ---------------------------------------------------------------- input shapes

  predicate ValidPolicy(policy: RollbackPolicy) {
    || (ValidDigest(policy.reference) && policy.recoveryOnly == NoReason)
    || (policy.reference == "" && policy.recoveryOnly in {NoRollbackAvailable, ExternalReconciliation})
  }

  function ModeOf(phase: Phase): Mode {
    if phase == Apply || phase == Rollback then Mutation else ReadOnly
  }

  /** What a caller must supply to begin a step. */
  predicate ValidStepInput(step: Step) {
    && ValidID(step.operationID) && ValidID(step.stepID) && ValidID(step.componentID)
    && step.attempt != 0
    && !step.phase.OtherPhase?
    && step.mode == ModeOf(step.phase)
    && (if step.mode == Mutation
        then ValidDigest(step.idempotency) && ValidPolicy(step.rollback)
        else step.idempotency == "" && step.rollback == NO_POLICY)
    && (if step.phase == Rollback
        then ValidID(step.compensates) && step.rollback.recoveryOnly == NoReason
        else step.compensates == "")
  }

  predicate ValidStoredStep(step: Step) {
    && ValidStepInput(step)
    && step.startedAt != UNSET && step.finishedAt == UNSET
    && step.status == Running && step.result == "" && step.reason == "" && !step.recovered
    && (step.retry ==> step.attempt >= 2)
  }

  predicate ValidResult(finish: StepFinish) {
    && ValidID(finish.operationID) && ValidID(finish.stepID) && finish.attempt != 0
    && match finish.status
       case Succeeded => ValidDigest(finish.result) && finish.reason == ""
       case Failed => finish.result == "" && ValidReason(finish.reason)
       case _ => false
  }

  /** A component and a slot joined by NUL. */
  function Key(component: string, slot: string): string {
    component + "\0" + slot
  }

  function SecretKey(secret: SecretRevision): string {
    Key(secret.componentID, secret.slot)
  }

  /** Present, and strictly increasing. */
  predicate SortedUnique(values: Slice<string>) {
    values.Items? && forall i | 0 < i < |values.items| :: Less(values.items[i - 1], values.items[i])
  }

  predicate ValidSecrets(secrets: seq<SecretRevision>) {
    && (forall s | s in secrets :: ValidID(s.componentID) && ValidID(s.slot) && ValidDigest(s.revision))
    && (forall i | 0 < i < |secrets| :: Less(SecretKey(secrets[i - 1]), SecretKey(secrets[i])))
  }

  predicate ValidApprovedComponent(component: ApprovedComponent, position: int) {
    && component.index == position
    && ValidID(component.componentID) && ValidAdapter(component.adapter)
    && ValidDigest(component.artifact) && ValidDigest(component.configuration)
    && SortedUnique(component.capabilities)
    && forall c | c in component.capabilities.items :: ValidCapability(c)
  }

  function ComponentIDs(components: seq<ApprovedComponent>): (r: seq<string>)
    ensures |r| == |components|
    ensures forall i | 0 <= i < |r| :: r[i] == components[i].componentID
  {
    seq(|components|, i requires 0 <= i < |components| => components[i].componentID)
  }

  predicate ValidStoredApproval(a: Approval, installation: string) {
    && a.installationID == installation
    && ValidID(a.id) && ValidID(a.actorID)
    && ValidDigest(a.planDigest) && ValidDigest(a.manifestDigest) && ValidDigest(a.authority)
    && a.issuedAt != UNSET && a.issuedAt < a.expiresAt
    && 0 < |a.components| <= 64
    && (forall i | 0 <= i < |a.components| :: ValidApprovedComponent(a.components[i], i + 1))
    && Distinct(ComponentIDs(a.components))
    && a.secrets.Items? && ValidSecrets(a.secrets.items)
    && forall s | s in a.secrets.items :: s.componentID in ComponentIDs(a.components)
  }

  // ---------------------------------------------------------------- scans over the steps

  predicate IsRunning(step: Step) { step.status == Running }

  /** The newest running step, or -1. */
  function InFlight(steps: seq<Step>): (r: int)
    ensures -1 <= r < |steps|
    ensures 0 <= r ==> IsRunning(steps[r])
    ensures forall i | r < i < |steps| :: !IsRunning(steps[i])
  {
    LastWhere(steps, IsRunning)
  }

  /** The first step with this identity and attempt, or -1. */
  function FindStep(steps: seq<Step>, id: string, attempt: Uint32): (r: int)
    ensures -1 <= r < |steps|
    ensures 0 <= r ==> steps[r].stepID == id && steps[r].attempt == attempt
                       && forall i | 0 <= i < r :: steps[i].stepID != id || steps[i].attempt != attempt
    ensures r == -1 ==> forall i | 0 <= i < |steps| :: steps[i].stepID != id || steps[i].attempt != attempt
  {
    FirstWhere(steps, (s: Step) => s.stepID == id && s.attempt == attempt)
  }

  /** The newest step with this identity, or -1. */
  function LatestStep(steps: seq<Step>, id: string): (r: int)
    ensures -1 <= r < |steps|
    ensures 0 <= r ==> steps[r].stepID == id
    ensures forall i | r < i < |steps| :: steps[i].stepID != id
  {
    LastWhere(steps, (s: Step) => s.stepID == id)
  }

  predicate IsMutation(step: Step) { step.mode == Mutation }

  /** An apply mutation that has an outcome and may therefore need compensation. */
  predicate IsFinishedMutation(step: Step) {
    step.mode == Mutation && step.phase == Apply && step.status != Running
  }

  /** The newest finished apply mutation with this identity, or -1. */
  function EligibleMutation(steps: seq<Step>, id: string): (r: int)
    ensures -1 <= r < |steps|
    ensures 0 <= r ==> steps[r].stepID == id && steps[r].mode == Mutation && steps[r].phase == Apply
                       && steps[r].status in {Succeeded, Failed}
    ensures forall i | r < i < |steps| ::
              !(steps[i].stepID == id && steps[i].mode == Mutation && steps[i].phase == Apply
                && steps[i].status in {Succeeded, Failed})
  {
    LastWhere(steps, (s: Step) => s.stepID == id && s.mode == Mutation && s.phase == Apply
                                  && s.status in {Succeeded, Failed})
  }

  predicate Compensated(steps: seq<Step>, id: string) {
    exists s | s in steps :: s.phase == Rollback && s.compensates == id && s.status == Succeeded
  }

  predicate HasRollbackCandidate(steps: seq<Step>) {
    exists s | s in steps :: IsFinishedMutation(s) && s.rollback.reference != "" && !Compensated(steps, s.stepID)
  }

  /** Components with a succeeded step of this phase. */
  function SucceededIn(steps: seq<Step>, phase: Phase): set<string> {
    set s | s in steps && s.phase == phase && s.status == Succeeded :: s.componentID
  }

  predicate AllSucceeded(steps: seq<Step>, phase: Phase, components: seq<string>) {
    && |SucceededIn(steps, phase)| == |components|
    && forall c | c in components :: c in SucceededIn(steps, phase)
  }

  predicate CanComplete(op: Operation, components: seq<string>) {
    && op.failure.None? && !op.rollbackStarted && InFlight(op.steps) < 0
    && (forall s | s in op.steps :: IsMutation(s) ==> s.status == Succeeded)
    && AllSucceeded(op.steps, Verify, components)
  }

  predicate CanReportRolledBack(op: Operation) {
    && op.rollbackStarted && op.state == RollingBack && InFlight(op.steps) < 0
    && (forall s | s in op.steps && s.phase == Apply && s.mode == Mutation :: s.rollback.recoveryOnly == NoReason)
    && (forall s | s in op.steps && s.phase == Rollback :: s.status != Failed)
    && (forall s | s in op.steps && IsFinishedMutation(s) :: Compensated(op.steps, s.stepID))
  }

  // ---------------------------------------------------------------- one operation

  /** The answer of a transition on one operation, and what the operation looks like afterwards. */
  datatype Verdict = Accept(op: Operation) | Refuse(error: Error, op: Operation)

  function PhaseState(phase: Phase, otherwise: OperationState): OperationState {
    match phase
    case Preflight => Preflighting
    case Apply => Applying
    case Verify => Verifying
    case Rollback => RollingBack
    case OtherPhase(_) => otherwise
  }

  predicate IsTerminal(state: OperationState) {
    state in {Complete, RolledBack, Cancelled}
  }

  /** May `step` replace the interrupted attempt `current`? */
  predicate Retries(current: Step, step: Step) {
    && current.stepID == step.stepID && current.componentID == step.componentID
    && current.phase == step.phase && current.mode == ReadOnly
    && step.retry && step.attempt == Successor(current.attempt)
  }

  function Interrupted(current: Step, at: Time): Step {
    current.(status := Failed, reason := INTERRUPTED_RETRY, finishedAt := at, recovered := false)
  }

  function StepTransitionError(op: Operation, components: seq<string>, step: Step): Option<Error> {
    if IsTerminal(op.state) || op.finishedAt != UNSET || step.componentID !in components then
      Some(InvalidTransition)
    else
      var prior := LatestStep(op.steps, step.stepID);
      if prior >= 0 && !(step.retry && step.attempt == Successor(op.steps[prior].attempt)
                         && op.steps[prior].mode == ReadOnly && op.steps[prior].reason == INTERRUPTED_RETRY) then
        Some(Conflict)
      else if prior < 0 && (step.attempt != 1 || step.retry) then
        Some(InvalidTransition)
      else if step.mode == Mutation
              && exists s | s in op.steps :: IsMutation(s) && s.idempotency == step.idempotency then
        Some(Conflict)
      else if !PhaseAllows(op, components, step) then
        Some(InvalidTransition)
      else
        None
  }

  predicate PhaseAllows(op: Operation, components: seq<string>, step: Step) {
    match step.phase
    case Preflight =>
      && !op.mutationStarted && !op.rollbackStarted && op.failure.None?
      && op.state in {Approved, Preflighting, RetryRequired}
    case Apply =>
      && !op.rollbackStarted && op.failure.None? && op.state in {Preflighting, Applying}
      && AllSucceeded(op.steps, Preflight, components)
    case Verify =>
      && !op.rollbackStarted && op.failure.None?
      && op.state in {Preflighting, Applying, Verifying, RetryRequired}
      && AllSucceeded(op.steps, Preflight, components)
    case Rollback =>
      && op.rollbackStarted && op.state == RollingBack
      && var original := EligibleMutation(op.steps, step.compensates);
         && original >= 0
         && op.steps[original].componentID == step.componentID
         && op.steps[original].rollback.reference == step.rollback.reference
         && !Compensated(op.steps, op.steps[original].stepID)
    case OtherPhase(_) => true
  }

  function StartStep(op: Operation, components: seq<string>, step: Step): Verdict {
    if !ValidStoredStep(step) then Refuse(InvalidInput, op) else
    var found := FindStep(op.steps, step.stepID, step.attempt);
    if found >= 0 then
      if op.steps[found] == step.(recovered := op.steps[found].recovered)
      then Accept(op) else Refuse(Conflict, op)
    else
      var current := InFlight(op.steps);
      if current >= 0 && !Retries(op.steps[current], step) then Refuse(InvalidTransition, op) else
      var closed := CloseAttempt(op, current, step.startedAt);
      var error := StepTransitionError(closed, components, step);
      if error.Some? then Refuse(error.value, closed) else
      Accept(closed.(
        steps := closed.steps + [step],
        mutationStarted := closed.mutationStarted || step.mode == Mutation,
        state := PhaseState(step.phase, closed.state)))
  }

  function CloseAttempt(op: Operation, current: int, at: Time): Operation
    requires -1 <= current < |op.steps|
  {
    if current < 0 then op
    else op.(steps := op.steps[current := Interrupted(op.steps[current], at)])
  }

  function Finished(step: Step, finish: StepFinish): Step {
    step.(status := finish.status, result := finish.result, reason := finish.reason,
          finishedAt := finish.finishedAt, recovered := false)
  }

  function FailureOf(step: Step): FailurePoint {
    FailurePoint(step.phase, step.componentID, step.stepID, step.attempt, step.reason)
  }

  function FinishStep(op: Operation, finish: StepFinish): Verdict {
    if op.finishedAt != UNSET then Refuse(InvalidTransition, op) else
    if !ValidResult(finish) || finish.finishedAt == UNSET then Refuse(InvalidInput, op) else
    var found := FindStep(op.steps, finish.stepID, finish.attempt);
    if found < 0 then Refuse(NotFound, op) else
    var step := op.steps[found];
    if step.status != Running then
      if step.status == finish.status && step.result == finish.result
         && step.reason == finish.reason && step.finishedAt == finish.finishedAt
      then Accept(op) else Refuse(Conflict, op)
    else if InFlight(op.steps) != found || (finish.reconciles && step.mode != Mutation) then
      Refuse(InvalidTransition, op)
    else
      var done := Finished(step, finish);
      var resolved := op.(steps := op.steps[found := done]);
      if finish.status == Failed then
        Accept(resolved.(
          failure := Some(FailureOf(done)),
          state := if step.phase == Rollback then NeedsRecovery else HasFailed))
      else
        Accept(resolved.(state := PhaseState(step.phase, op.state)))
  }

  function Cancel(op: Operation, at: Time): Verdict {
    if op.state == Cancelled then Accept(op) else
    if op.mutationStarted || InFlight(op.steps) >= 0 || op.state !in {Approved, Preflighting} then
      Refuse(InvalidTransition, op)
    else
      Accept(op.(state := Cancelled, finishedAt := at))
  }

  function BeginRollback(op: Operation): Verdict {
    if op.rollbackStarted then Accept(op) else
    if op.state !in {Applying, Verifying, HasFailed} || !op.mutationStarted || InFlight(op.steps) >= 0
       || op.finishedAt != UNSET || !HasRollbackCandidate(op.steps) then
      Refuse(InvalidTransition, op)
    else
      Accept(op.(rollbackStarted := true, state := RollingBack))
  }

  function Wanted(outcome: Outcome): Option<OperationState> {
    match outcome
    case ToComplete => Some(Complete)
    case ToFailed => Some(HasFailed)
    case ToRecovery => Some(NeedsRecovery)
    case ToRolledBack => Some(RolledBack)
    case OtherOutcome(_) => None
  }

  /** May an operation be sealed as recovery-required? */
  predicate MayNeedRecovery(op: Operation) {
    var current := InFlight(op.steps);
    || op.state == NeedsRecovery
    || (current >= 0 && op.steps[current].mode == Mutation
        && op.state in {Applying, RollingBack, NeedsRecovery})
    || (op.mutationStarted && op.finishedAt == UNSET)
  }

  function Seal(op: Operation, components: seq<string>, outcome: Outcome, at: Time): Verdict {
    var wanted := Wanted(outcome);
    if wanted == Some(op.state) && op.finishedAt != UNSET then Accept(op) else
    if InFlight(op.steps) >= 0 && outcome != ToRecovery then Refuse(InvalidTransition, op) else
    if wanted.None? then Refuse(InvalidInput, op) else
    var allowed :=
      match outcome
      case ToComplete => CanComplete(op, components)
      case ToFailed => op.state == HasFailed && !op.mutationStarted
      case ToRecovery => MayNeedRecovery(op)
      case ToRolledBack => CanReportRolledBack(op)
      case OtherOutcome(_) => false;
    if !allowed then Refuse(InvalidTransition, op)
    else Accept(op.(state := wanted.value, finishedAt := at))
  }

  // ---------------------------------------------------------------- the whole projection

  datatype Applied = Accepted(state: State) | Rejected(error: Error, state: State)

  /** The components of an approval; none when the approval is unknown. */
  function Components(s: State, approvalID: string): seq<string> {
    if approvalID in s.approvals then ComponentIDs(s.approvals[approvalID].components) else []
  }

  function OperationComponents(s: State, op: Operation): seq<string> {
    Components(s, op.approvalID)
  }

  function Put(s: State, id: string, op: Operation): State {
    s.(operations := s.operations[id := op])
  }

  /** The projection keeps its own copy, in which a copied empty list is nil. */
  function CloneApproval(a: Approval): Approval {
    a.(components := seq(|a.components|, i requires 0 <= i < |a.components| =>
         a.components[i].(capabilities := CopySlice(a.components[i].capabilities))),
       secrets := if a.secrets.Nil? then Items([]) else a.secrets)
  }

  function CopySlice<T>(xs: Slice<T>): Slice<T> {
    if xs.Items? && xs.items == [] then Nil else xs
  }

  function RecordApproval(s: State, installation: string, a: Approval): Applied {
    if !ValidStoredApproval(a, installation) then Rejected(InvalidInput, s) else
    if a.id in s.approvals then
      if s.approvals[a.id] == a then Accepted(s) else Rejected(Conflict, s)
    else
      Accepted(s.(approvals := s.approvals[a.id := CloneApproval(a)]))
  }

  function NewOperation(installation: string, id: string, approvalID: string, plan: string, at: Time): Operation {
    Operation(id, installation, approvalID, plan, at, UNSET, Approved, false, false, None, [])
  }

  function StartOperation(s: State, installation: string, id: string, approvalID: string, plan: string, at: Time): Applied {
    if !ValidID(id) || !ValidID(approvalID) || !ValidDigest(plan) then Rejected(InvalidInput, s) else
    if approvalID !in s.approvals || s.approvals[approvalID].planDigest != plan
       || at >= s.approvals[approvalID].expiresAt then
      Rejected(InvalidTransition, s)
    else if id in s.operations then
      if s.operations[id].approvalID == approvalID && s.operations[id].planDigest == plan
      then Accepted(s) else Rejected(Conflict, s)
    else if exists k | k in s.operations ::
              s.operations[k].approvalID == approvalID || s.operations[k].finishedAt == UNSET then
      Rejected(Conflict, s)
    else
      Accepted(Put(s, id, NewOperation(installation, id, approvalID, plan, at)))
  }

  /** Install the verdict about one operation in the projection. */
  function Install(s: State, id: string, verdict: Verdict): Applied {
    match verdict
    case Accept(op) => Accepted(Put(s, id, op))
    case Refuse(error, op) => Rejected(error, Put(s, id, op))
  }

  /** The operation an event speaks about, when it speaks about one. */
  function Target(e: Event): Option<string> {
    match e.body
    case ApprovalRecorded(_) => None
    case OperationStarted(_, _, _) => None
    case StepStarted(step) => Some(step.operationID)
    case StepFinished(finish) => Some(finish.operationID)
    case OperationCancelled(id) => Some(id)
    case RollbackStarted(id) => Some(id)
    case OperationFinished(id, _) => Some(id)
  }

  /** The body times must repeat the envelope time. */
  predicate TimesAgree(e: Event) {
    match e.body
    case ApprovalRecorded(a) => a.issuedAt == e.observedAt
    case StepStarted(step) => step.startedAt == e.observedAt
    case StepFinished(finish) => finish.finishedAt == e.observedAt
    case _ => true
  }

  /** What an event does to the operation it speaks about. */
  function Decide(op: Operation, components: seq<string>, e: Event): Verdict
    requires Target(e).Some?
  {
    match e.body
    case StepStarted(step) => StartStep(op, components, step)
    case StepFinished(finish) => FinishStep(op, finish)
    case OperationCancelled(_) => Cancel(op, e.observedAt)
    case RollbackStarted(_) => BeginRollback(op)
    case OperationFinished(_, outcome) => Seal(op, components, outcome, e.observedAt)
  }

  function Transition(s: State, installation: string, e: Event): Applied {
    if !TimesAgree(e) then Rejected(InvalidTransition, s) else
    match e.body
    case ApprovalRecorded(a) => RecordApproval(s, installation, a)
    case OperationStarted(id, approvalID, plan) => StartOperation(s, installation, id, approvalID, plan, e.observedAt)
    case _ =>
      var id := Target(e).value;
      if id !in s.operations then Rejected(NotFound, s)
      else Install(s, id, Decide(s.operations[id], OperationComponents(s, s.operations[id]), e))
  }

  /** The part of the record shape that the transitions rely on. */
  predicate ValidShape(e: Event) {
    && e.observedAt != UNSET
    && (e.body.OperationCancelled? || e.body.RollbackStarted? ==> ValidID(e.body.operationID))
  }

  predicate Accepts(s: State, installation: string, e: Event) {
    ValidShape(e) && Transition(s, installation, e).Accepted?
  }

  function After(s: State, installation: string, e: Event): State {
    Transition(s, installation, e).state
  }
}
