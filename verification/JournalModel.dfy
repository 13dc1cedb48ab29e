/** The values the journal stores: approvals, operations, steps and the events that change them. */
module JournalModel {
  import opened Basics

  /** An instant; UNSET is the zero time, which means "not yet". */
  type Time = int
  const UNSET: Time := 0

  type Uint32 = x: int | 0 <= x < 0x1_0000_0000

  /** The wrapping successor of an attempt number. */
  function Successor(attempt: Uint32): Uint32 {
    (attempt + 1) % 0x1_0000_0000
  }

  /** The log never holds more records than this. */
  const MAX_RECORDS := 262144

  const INTERRUPTED_RETRY := "interrupted_retry"

  datatype Error =
    | InvalidInput | Corrupt | Closed | NotFound | Conflict | Expired
    | InvalidTransition | RecoveryRequired | Limit | Storage

  datatype Phase = Preflight | Apply | Verify | Rollback | OtherPhase(text: string)

  datatype Mode = ReadOnly | Mutation | OtherMode(text: string)

  datatype Status = Running | Succeeded | Failed | OtherStatus(text: string)

  datatype Outcome = ToComplete | ToFailed | ToRecovery | ToRolledBack | OtherOutcome(text: string)

  datatype OperationState =
    | Approved | Preflighting | Applying | Verifying | HasFailed | RetryRequired
    | RollingBack | NeedsRecovery | Complete | RolledBack | Cancelled

  datatype RecoveryOnly = NoReason | NoRollbackAvailable | ExternalReconciliation | OtherReason(text: string)

  datatype RollbackPolicy = RollbackPolicy(reference: string, recoveryOnly: RecoveryOnly)
  const NO_POLICY := RollbackPolicy("", NoReason)

  datatype SecretRevision = SecretRevision(componentID: string, slot: string, revision: string)

  datatype ApprovedComponent = ApprovedComponent(
    index: int, componentID: string, adapter: string, artifact: string, configuration: string,
    capabilities: Slice<string>)

  datatype Approval = Approval(
    id: string, installationID: string, planDigest: string, manifestDigest: string,
    actorID: string, authority: string, issuedAt: Time, expiresAt: Time,
    components: seq<ApprovedComponent>, secrets: Slice<SecretRevision>)

  datatype Step = Step(
    operationID: string, stepID: string, componentID: string, phase: Phase, mode: Mode,
    attempt: Uint32, idempotency: string, rollback: RollbackPolicy, compensates: string,
    startedAt: Time, finishedAt: Time, status: Status, result: string, reason: string,
    recovered: bool, retry: bool)

  datatype FailurePoint = FailurePoint(
    phase: Phase, componentID: string, stepID: string, attempt: Uint32, reason: string)

  datatype Operation = Operation(
    id: string, installationID: string, approvalID: string, planDigest: string,
    startedAt: Time, finishedAt: Time, state: OperationState,
    rollbackStarted: bool, mutationStarted: bool,
    failure: Option<FailurePoint>, steps: seq<Step>)

  /** The in-memory projection of the log. */
  datatype State = State(approvals: map<string, Approval>, operations: map<string, Operation>)
  const EMPTY := State(map[], map[])

  datatype StepFinish = StepFinish(
    operationID: string, stepID: string, attempt: Uint32, status: Status,
    result: string, reason: string, finishedAt: Time, reconciles: bool)

  /** Exactly one body per record. */
  datatype Body =
    | ApprovalRecorded(approval: Approval)
    | OperationStarted(id: string, approvalID: string, planDigest: string)
    | StepStarted(step: Step)
    | StepFinished(finish: StepFinish)
    | OperationCancelled(operationID: string)
    | RollbackStarted(operationID: string)
    | OperationFinished(operationID: string, outcome: Outcome)

  /** A record without its chain envelope. */
  datatype Event = Event(observedAt: Time, body: Body)
}
