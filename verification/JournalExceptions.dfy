/** Where the journal does something other than the obvious claim, with the exact condition and a run. */
module JournalExceptions {
  import opened Basics
  import opened Patterns
  import opened JournalModel
  import opened JournalMachine
  import opened JournalInvariant
  import opened JournalRuns
  import opened JournalReplay
  import opened JournalHistory
  import opened JournalProgress
  import opened JournalRetries

  // ---------------------------------------------------------------- sealing again

  /**
   A sealed operation changes under another terminal record exactly when it was left for recovery
   and nothing speaks against completion; then it becomes complete.
  */
  lemma ResealExactly(op: Operation, components: seq<string>, outcome: Outcome, at: Time)
    requires OperationOK(op, components) && op.finishedAt != UNSET
    ensures Seal(op, components, outcome, at).Accept? && Seal(op, components, outcome, at).op != op
      <==> op.state == NeedsRecovery && outcome == ToComplete && CanComplete(op, components)
    ensures Seal(op, components, outcome, at).op.state == op.state
         || (op.state == NeedsRecovery && Seal(op, components, outcome, at).op.state == Complete)
  {
    hide HistoryOK, FlagsOK, AllSucceeded;
    Idle(op, components);
    if op.state == Cancelled { NoVerification(op, components); }
  }

  // ---------------------------------------------------------------- repeating an approval record

  predicate NoEmptyLists(a: Approval) {
    forall i | 0 <= i < |a.components| :: a.components[i].capabilities != Items([])
  }

  /** The journal's copy equals the record it came from exactly when no capability list is empty. */
  lemma CloneExactly(a: Approval)
    requires a.secrets.Items?
    ensures CloneApproval(a) == a <==> NoEmptyLists(a)
  {
    var copy := CloneApproval(a);
    if NoEmptyLists(a) {
      assert forall i | 0 <= i < |a.components| :: copy.components[i] == a.components[i];
      assert copy.components == a.components;
    }
    if copy == a {
      forall i | 0 <= i < |a.components| ensures a.components[i].capabilities != Items([]) {
        assert copy.components[i] == a.components[i];
      }
    }
  }

  /** What the journal stores is already in the form that copying gives. */
  lemma CloneTwice(a: Approval)
    ensures CloneApproval(CloneApproval(a)) == CloneApproval(a)
  {
    var once := CloneApproval(a);
    assert CloneApproval(once).components == once.components;
  }

  /**
   Applying the same approval record a second time is idempotent exactly when no capability list in
   it is empty; otherwise it conflicts with the copy made of it.
  */
  lemma RepeatExactly(s: State, installation: string, a: Approval)
    requires ValidStoredApproval(a, installation) && a.id !in s.approvals
    ensures var once := RecordApproval(s, installation, a).state;
      && (NoEmptyLists(a) ==> RecordApproval(once, installation, a) == Accepted(once))
      && (!NoEmptyLists(a) ==> RecordApproval(once, installation, a) == Rejected(Conflict, once))
  {
    hide ValidID, ValidDigest, ValidSecrets, ValidApprovedComponent, CloneApproval;
    CloneExactly(a);
  }

  // ---------------------------------------------------------------- two runs

  datatype Names = Names(
    operation: string, component: string, preflight: string, apply: string, verify: string, digest: string, at: Time)

  predicate Proper(n: Names) {
    && ValidID(n.operation) && ValidID(n.component)
    && ValidID(n.preflight) && ValidID(n.apply) && ValidID(n.verify)
    && n.preflight != n.apply && n.apply != n.verify && n.preflight != n.verify
    && ValidDigest(n.digest) && n.at != UNSET
  }

  function Doing(n: Names, id: string, phase: Phase): Step {
    Step(n.operation, id, n.component, phase, ModeOf(phase), 1,
         if ModeOf(phase) == Mutation then n.digest else "",
         if ModeOf(phase) == Mutation then RollbackPolicy(n.digest, NoReason) else NO_POLICY,
         "", n.at, UNSET, Running, "", "", false, false)
  }

  function Done(n: Names, id: string, phase: Phase): Step {
    Doing(n, id, phase).(status := Succeeded, result := n.digest, finishedAt := n.at)
  }

  function Begin(n: Names, id: string, phase: Phase): Event {
    Event(n.at, StepStarted(Doing(n, id, phase)))
  }

  function End(n: Names, id: string): Event {
    Event(n.at, StepFinished(StepFinish(n.operation, id, 1, Succeeded, n.digest, "", n.at, false)))
  }

  predicate AllDone(steps: seq<Step>) {
    forall i | 0 <= i < |steps| :: steps[i].status == Succeeded
  }

  lemma Begins(n: Names, op: Operation, id: string, phase: Phase)
    requires Proper(n) && op.finishedAt == UNSET && !IsTerminal(op.state) && AllDone(op.steps)
    requires ValidID(id) && forall i | 0 <= i < |op.steps| :: op.steps[i].stepID != id
    requires phase in {Preflight, Apply, Verify}
    requires phase == Apply ==> forall i | 0 <= i < |op.steps| :: op.steps[i].mode != Mutation
    requires PhaseAllows(op, [n.component], Doing(n, id, phase))
    ensures Decide(op, [n.component], Begin(n, id, phase)) == Accept(op.(
      steps := op.steps + [Doing(n, id, phase)],
      mutationStarted := op.mutationStarted || phase == Apply,
      state := PhaseState(phase, op.state)))
  {
    hide PhaseAllows, ValidID, ValidDigest;
    var step := Doing(n, id, phase);
    assert ValidStoredStep(step);
    assert InFlight(op.steps) < 0 && FindStep(op.steps, id, 1) < 0 && LatestStep(op.steps, id) < 0;
    assert StepTransitionError(op, [n.component], step) == None;
  }

  lemma Ends(n: Names, op: Operation, before: seq<Step>, id: string, phase: Phase)
    requires Proper(n) && op.finishedAt == UNSET && AllDone(before)
    requires ValidID(id) && forall i | 0 <= i < |before| :: before[i].stepID != id
    requires op.steps == before + [Doing(n, id, phase)] && phase in {Preflight, Apply, Verify}
    ensures Decide(op, [n.component], End(n, id)) == Accept(op.(
      steps := before + [Done(n, id, phase)], state := PhaseState(phase, op.state)))
  {
    hide ValidID, ValidDigest;
    var last := |before|;
    assert op.steps[last] == Doing(n, id, phase);
    assert InFlight(op.steps) == last;
    assert FindStep(op.steps, id, 1) == last;
    assert op.steps[last := Done(n, id, phase)] == before + [Done(n, id, phase)];
  }

  lemma OneComponentDone(steps: seq<Step>, phase: Phase, component: string, i: nat)
    requires i < |steps| && steps[i].phase == phase && steps[i].status == Succeeded
    requires forall k | 0 <= k < |steps| :: steps[k].componentID == component
    ensures AllSucceeded(steps, phase, [component])
  {
    assert steps[i] in steps;
    assert SucceededIn(steps, phase) == {component};
  }

  /** The state knows the operation, bound to its one component. */
  ghost predicate At(installation: string, n: Names, s: State, op: Operation) {
    && Reachable(installation, s)
    && n.operation in s.operations && s.operations[n.operation] == op
    && OperationComponents(s, op) == [n.component]
  }

  lemma ReachableNext(installation: string, s: State, e: Event)
    requires Reachable(installation, s) && Accepts(s, installation, e)
    ensures Reachable(installation, After(s, installation, e))
  {
    hide Accepts, After, ValidShape;
    var moves :| Run(installation, moves).Live? && Run(installation, moves).state == s;
    var more := moves + [Request(e)];
    assert more[..|more| - 1] == moves;
    assert Run(installation, more).state == After(s, installation, e);
  }

  lemma ReachableMarked(installation: string, s: State)
    requires Reachable(installation, s)
    ensures Reachable(installation, MarkAll(s))
  {
    hide Accepts, After, ValidShape, MarkAll;
    var moves :| Run(installation, moves).Live? && Run(installation, moves).state == s;
    var more := moves + [Reopen];
    assert more[..|more| - 1] == moves;
    CrashReplay(installation, moves);
    assert Run(installation, more).state == MarkAll(s);
  }

  lemma Advance(installation: string, n: Names, s: State, op: Operation, e: Event) returns (next: State)
    requires At(installation, n, s, op)
    requires ValidShape(e) && TimesAgree(e) && Target(e) == Some(n.operation) && Decide(op, [n.component], e).Accept?
    requires Decide(op, [n.component], e).op.approvalID == op.approvalID
    ensures Accepts(s, installation, e) && next == After(s, installation, e)
    ensures At(installation, n, next, Decide(op, [n.component], e).op)
  {
    hide Decide, Reachable;
    next := After(s, installation, e);
    ReachableNext(installation, s, e);
  }

  /** An approval of one component, its operation, and a preflight. */
  lemma Preflighted(installation: string, a: Approval, n: Names) returns (s: State, op: Operation)
    requires ValidStoredApproval(a, installation) && Proper(n) && n.at == a.issuedAt
    requires ComponentIDs(a.components) == [n.component]
    ensures At(installation, n, s, op) && op.finishedAt == UNSET && op.state == Preflighting
    ensures !op.rollbackStarted && op.failure.None?
    ensures op.steps == [Done(n, n.preflight, Preflight)]
  {
    hide ValidStoredApproval, Proper, Decide, Reachable, Accepts, After, PhaseAllows, AllSucceeded;
    ProperNames(n);
    s, op := Started(installation, a, n);
    assert PhaseAllows(op, [n.component], Doing(n, n.preflight, Preflight)) by { PreflightAllowed(n, op); }
    Begins(n, op, n.preflight, Preflight);
    s := Advance(installation, n, s, op, Begin(n, n.preflight, Preflight));
    op := s.operations[n.operation];
    Ends(n, op, [], n.preflight, Preflight);
    s := Advance(installation, n, s, op, End(n, n.preflight));
    op := s.operations[n.operation];
    assert op.steps == [Done(n, n.preflight, Preflight)];
  }

  /** The same, and an applied mutation. */
  lemma Applied(installation: string, a: Approval, n: Names) returns (s: State, op: Operation)
    requires ValidStoredApproval(a, installation) && Proper(n) && n.at == a.issuedAt
    requires ComponentIDs(a.components) == [n.component]
    ensures At(installation, n, s, op) && op.finishedAt == UNSET && op.state == Applying && op.mutationStarted
    ensures !op.rollbackStarted && op.failure.None?
    ensures op.steps == [Done(n, n.preflight, Preflight), Done(n, n.apply, Apply)]
  {
    hide ValidStoredApproval, Proper, Decide, Reachable, Accepts, After, PhaseAllows, AllSucceeded;
    ProperNames(n);
    s, op := Preflighted(installation, a, n);
    assert PhaseAllows(op, [n.component], Doing(n, n.apply, Apply)) by { ApplyAllowed(n, op); }
    Begins(n, op, n.apply, Apply);
    s := Advance(installation, n, s, op, Begin(n, n.apply, Apply));
    op := s.operations[n.operation];
    Ends(n, op, [Done(n, n.preflight, Preflight)], n.apply, Apply);
    s := Advance(installation, n, s, op, End(n, n.apply));
    op := s.operations[n.operation];
  }

  lemma ProperNames(n: Names)
    requires Proper(n)
    ensures ValidID(n.preflight) && ValidID(n.apply) && ValidID(n.verify)
    ensures n.preflight != n.apply && n.apply != n.verify && n.preflight != n.verify && n.at != UNSET
  {
  }

  lemma PreflightAllowed(n: Names, op: Operation)
    requires op.steps == [] && op.state == Approved && !op.mutationStarted && !op.rollbackStarted && op.failure.None?
    ensures PhaseAllows(op, [n.component], Doing(n, n.preflight, Preflight))
  {
  }

  lemma ApplyAllowed(n: Names, op: Operation)
    requires op.steps == [Done(n, n.preflight, Preflight)] && op.state == Preflighting
    requires !op.rollbackStarted && op.failure.None?
    ensures PhaseAllows(op, [n.component], Doing(n, n.apply, Apply))
  {
    OneComponentDone(op.steps, Preflight, n.component, 0);
  }

  lemma VerifyAllowed(n: Names, op: Operation)
    requires op.steps == [Done(n, n.preflight, Preflight), Done(n, n.apply, Apply)] && op.state == Applying
    requires !op.rollbackStarted && op.failure.None?
    ensures PhaseAllows(op, [n.component], Doing(n, n.verify, Verify))
  {
    OneComponentDone(op.steps, Preflight, n.component, 0);
  }

  lemma Started(installation: string, a: Approval, n: Names) returns (s: State, op: Operation)
    requires ValidStoredApproval(a, installation) && Proper(n) && n.at == a.issuedAt
    requires ComponentIDs(a.components) == [n.component]
    ensures At(installation, n, s, op)
    ensures op == NewOperation(installation, n.operation, a.id, a.planDigest, n.at)
  {
    hide Reachable;
    var approved := Event(n.at, ApprovalRecorded(a));
    var started := Event(n.at, OperationStarted(n.operation, a.id, a.planDigest));
    ReachableEmpty(installation);
    ApprovalTaken(installation, a, n.at);
    var s1 := After(EMPTY, installation, approved);
    ReachableNext(installation, EMPTY, approved);
    OperationTaken(installation, a, n);
    s := After(s1, installation, started);
    ReachableNext(installation, s1, started);
    op := NewOperation(installation, n.operation, a.id, a.planDigest, n.at);
  }

  lemma ReachableEmpty(installation: string)
    ensures Reachable(installation, EMPTY)
  {
    assert Run(installation, []).state == EMPTY;
  }

  lemma ApprovalTaken(installation: string, a: Approval, at: Time)
    requires ValidStoredApproval(a, installation) && at == a.issuedAt
    ensures Accepts(EMPTY, installation, Event(at, ApprovalRecorded(a)))
    ensures After(EMPTY, installation, Event(at, ApprovalRecorded(a))) == State(map[a.id := CloneApproval(a)], map[])
    ensures ComponentIDs(CloneApproval(a).components) == ComponentIDs(a.components)
  {
    hide ValidID, ValidDigest, ValidSecrets, ValidApprovedComponent;
  }

  lemma OperationTaken(installation: string, a: Approval, n: Names)
    requires ValidStoredApproval(a, installation) && Proper(n) && n.at == a.issuedAt
    ensures var s := State(map[a.id := CloneApproval(a)], map[]);
      var started := Event(n.at, OperationStarted(n.operation, a.id, a.planDigest));
      && Accepts(s, installation, started)
      && After(s, installation, started)
           == Put(s, n.operation, NewOperation(installation, n.operation, a.id, a.planDigest, n.at))
  {
    hide ValidID, ValidDigest, ValidSecrets, ValidApprovedComponent;
  }

  /** A run in which an operation left for recovery is complete one accepted record later. */
  lemma RecoveryThenComplete(installation: string, a: Approval, n: Names) returns (s: State, e: Event)
    requires ValidStoredApproval(a, installation) && Proper(n) && n.at == a.issuedAt
    requires ComponentIDs(a.components) == [n.component]
    ensures Reachable(installation, s) && n.operation in s.operations
    ensures s.operations[n.operation].state == NeedsRecovery && s.operations[n.operation].finishedAt != UNSET
    ensures Accepts(s, installation, e) && n.operation in After(s, installation, e).operations
    ensures After(s, installation, e).operations[n.operation].state == Complete
  {
    hide ValidStoredApproval, Proper, Decide, Reachable, Accepts, After, PhaseAllows, AllSucceeded;
    ProperNames(n);
    var op: Operation;
    s, op := Applied(installation, a, n);
    assert PhaseAllows(op, [n.component], Doing(n, n.verify, Verify)) by { VerifyAllowed(n, op); }
    var before := op.steps;
    Begins(n, op, n.verify, Verify);
    s := Advance(installation, n, s, op, Begin(n, n.verify, Verify));
    op := s.operations[n.operation];
    Ends(n, op, before, n.verify, Verify);
    s := Advance(installation, n, s, op, End(n, n.verify));
    op := s.operations[n.operation];
    assert op.steps == before + [Done(n, n.verify, Verify)];
    SealsForRecovery(n, op);
    s := Advance(installation, n, s, op, Event(n.at, OperationFinished(n.operation, ToRecovery)));
    op := s.operations[n.operation];
    OneComponentDone(op.steps, Verify, n.component, 2);
    SealsComplete(n, op);
    e := Event(n.at, OperationFinished(n.operation, ToComplete));
    var after := Advance(installation, n, s, op, e);
  }

  lemma SealsForRecovery(n: Names, op: Operation)
    requires op.mutationStarted && op.finishedAt == UNSET
    ensures Decide(op, [n.component], Event(n.at, OperationFinished(n.operation, ToRecovery)))
              == Accept(op.(state := NeedsRecovery, finishedAt := n.at))
  {
    hide InFlight;
    assert MayNeedRecovery(op);
  }

  lemma SealsComplete(n: Names, op: Operation)
    requires op.state == NeedsRecovery && op.failure.None? && !op.rollbackStarted && AllDone(op.steps)
    requires AllSucceeded(op.steps, Verify, [n.component])
    ensures Decide(op, [n.component], Event(n.at, OperationFinished(n.operation, ToComplete)))
              == Accept(op.(state := Complete, finishedAt := n.at))
  {
    hide AllSucceeded;
    assert InFlight(op.steps) < 0;
    assert CanComplete(op, [n.component]);
  }

  /** A run in which reopening takes the recovery outcome off a sealed operation. */
  lemma RecoveryThenRelabelled(installation: string, a: Approval, n: Names) returns (s: State)
    requires ValidStoredApproval(a, installation) && Proper(n) && n.at == a.issuedAt
    requires ComponentIDs(a.components) == [n.component]
    ensures Reachable(installation, s) && n.operation in s.operations
    ensures s.operations[n.operation].state == NeedsRecovery && s.operations[n.operation].finishedAt != UNSET
    ensures Reachable(installation, MarkAll(s)) && MarkAll(s).operations[n.operation].state == RetryRequired
    ensures MarkAll(s).operations[n.operation].finishedAt != UNSET
  {
    hide ValidStoredApproval, Proper, Decide, Reachable, Accepts, After, PhaseAllows, AllSucceeded;
    ProperNames(n);
    var op: Operation;
    s, op := Applied(installation, a, n);
    assert PhaseAllows(op, [n.component], Doing(n, n.verify, Verify)) by { VerifyAllowed(n, op); }
    Begins(n, op, n.verify, Verify);
    s := Advance(installation, n, s, op, Begin(n, n.verify, Verify));
    op := s.operations[n.operation];
    SealsForRecovery(n, op);
    s := Advance(installation, n, s, op, Event(n.at, OperationFinished(n.operation, ToRecovery)));
    assert Busy(s.operations[n.operation].steps) && Last(s.operations[n.operation].steps).mode != Mutation by {
      StillDoing(n);
    }
    ReopenRelabels(installation, s, n.operation);
    ReachableMarked(installation, s);
  }

  lemma StillDoing(n: Names)
    ensures Doing(n, n.verify, Verify).status == Running && Doing(n, n.verify, Verify).mode == ReadOnly
  {
  }

  // ---------------------------------------------------------------- a stray retry

  function Failing(n: Names, id: string): Event {
    Event(n.at, StepFinished(StepFinish(n.operation, id, 1, Failed, "", INTERRUPTED_RETRY, n.at, false)))
  }

  function FailedVerify(n: Names): Step {
    Doing(n, n.verify, Verify).(status := Failed, reason := INTERRUPTED_RETRY, finishedAt := n.at)
  }

  /** A rollback of the applied mutation under the identity of the verification, flagged as its retry. */
  function Stray(n: Names, key: string): Step {
    Step(n.operation, n.verify, n.component, Rollback, Mutation, 2, key, RollbackPolicy(n.digest, NoReason), n.apply,
         n.at, UNSET, Running, "", "", false, true)
  }

  predicate VerifyFailed(n: Names, op: Operation) {
    && op.steps == [Done(n, n.preflight, Preflight), Done(n, n.apply, Apply), FailedVerify(n)]
    && op.finishedAt == UNSET && op.mutationStarted
  }

  lemma ReasonIsValid()
    ensures ValidReason(INTERRUPTED_RETRY)
  {
  }

  lemma FailsVerify(n: Names, op: Operation)
    requires Proper(n) && op.finishedAt == UNSET && op.mutationStarted
    requires op.steps == [Done(n, n.preflight, Preflight), Done(n, n.apply, Apply), Doing(n, n.verify, Verify)]
    ensures var verdict := Decide(op, [n.component], Failing(n, n.verify));
      verdict.Accept? && VerifyFailed(n, verdict.op) && verdict.op.state == HasFailed
      && verdict.op.rollbackStarted == op.rollbackStarted && verdict.op.approvalID == op.approvalID
  {
    hide ValidID, ValidDigest, ValidReason;
    ReasonIsValid();
    assert op.steps[2] == Doing(n, n.verify, Verify);
    assert InFlight(op.steps) == 2 && FindStep(op.steps, n.verify, 1) == 2;
    assert op.steps[2 := FailedVerify(n)] == [Done(n, n.preflight, Preflight), Done(n, n.apply, Apply), FailedVerify(n)];
  }

  lemma BeginsRollback(n: Names, op: Operation)
    requires Proper(n) && VerifyFailed(n, op) && op.state == HasFailed && !op.rollbackStarted
    ensures Decide(op, [n.component], Event(n.at, RollbackStarted(n.operation)))
      == Accept(op.(rollbackStarted := true, state := RollingBack))
  {
    hide ValidID, ValidDigest;
    DigestNotEmpty(n.digest);
    assert InFlight(op.steps) < 0;
    assert IsFinishedMutation(op.steps[1]) && op.steps[1] in op.steps;
    assert !Compensated(op.steps, n.apply);
    assert HasRollbackCandidate(op.steps);
  }

  lemma DigestNotEmpty(d: string)
    requires ValidDigest(d)
    ensures d != ""
  {
  }

  lemma EligibleIsApply(n: Names, op: Operation)
    requires VerifyFailed(n, op)
    ensures EligibleMutation(op.steps, n.apply) == 1
  {
    var applied := op.steps[1];
    assert applied.stepID == n.apply && applied.mode == Mutation && applied.phase == Apply && applied.status in {Succeeded, Failed};
    assert op.steps[2].mode == ReadOnly;
  }

  lemma StrayAllowed(n: Names, op: Operation, key: string)
    requires VerifyFailed(n, op) && op.state == RollingBack && op.rollbackStarted
    ensures PhaseAllows(op, [n.component], Stray(n, key))
  {
    EligibleIsApply(n, op);
    assert !Compensated(op.steps, n.apply);
  }

  lemma StartsStray(n: Names, op: Operation, key: string)
    requires Proper(n) && VerifyFailed(n, op) && op.state == RollingBack && op.rollbackStarted
    requires ValidDigest(key) && key != n.digest
    ensures Decide(op, [n.component], Event(n.at, StepStarted(Stray(n, key))))
      == Accept(op.(steps := op.steps + [Stray(n, key)]))
  {
    hide ValidID, ValidDigest, PhaseAllows;
    var step := Stray(n, key);
    assert ValidStoredStep(step);
    assert InFlight(op.steps) < 0 && FindStep(op.steps, n.verify, 2) < 0 && LatestStep(op.steps, n.verify) == 2;
    StrayAllowed(n, op, key);
    assert StepTransitionError(op, [n.component], step) == None;
  }

  /** A run of accepted records in which one identity has two phases and a mutation is a second attempt. */
  lemma StrayRetryHappens(installation: string, a: Approval, n: Names, key: string) returns (s: State)
    requires ValidStoredApproval(a, installation) && Proper(n) && n.at == a.issuedAt
    requires ComponentIDs(a.components) == [n.component] && ValidDigest(key) && key != n.digest
    ensures Reachable(installation, s) && n.operation in s.operations
    ensures !Uniform(s.operations[n.operation].steps) && !MutationsOnce(s.operations[n.operation].steps)
  {
    hide ValidStoredApproval, Proper, Decide, Reachable, Accepts, After, PhaseAllows, AllSucceeded, ValidID, ValidDigest;
    ProperNames(n);
    var op: Operation;
    s, op := Applied(installation, a, n);
    assert PhaseAllows(op, [n.component], Doing(n, n.verify, Verify)) by { VerifyAllowed(n, op); }
    Begins(n, op, n.verify, Verify);
    s := Advance(installation, n, s, op, Begin(n, n.verify, Verify));
    op := s.operations[n.operation];
    FailsVerify(n, op);
    s := Advance(installation, n, s, op, Failing(n, n.verify));
    op := s.operations[n.operation];
    BeginsRollback(n, op);
    ProperOperation(n);
    s := Advance(installation, n, s, op, Event(n.at, RollbackStarted(n.operation)));
    op := s.operations[n.operation];
    StartsStray(n, op, key);
    s := Advance(installation, n, s, op, Event(n.at, StepStarted(Stray(n, key))));
    op := s.operations[n.operation];
    assert op.steps[2] == FailedVerify(n) && op.steps[3] == Stray(n, key);
  }

  lemma ProperOperation(n: Names)
    requires Proper(n)
    ensures ValidID(n.operation)
  {
    hide ValidID, ValidDigest;
  }

  /** Any valid approval stays valid when a capability list is emptied, so a repeated record may conflict. */
  lemma EmptyListsAreStored(installation: string, a: Approval)
    requires ValidStoredApproval(a, installation)
    ensures var emptied := a.(components := a.components[0 := a.components[0].(capabilities := Items([]))]);
      ValidStoredApproval(emptied, installation) && !NoEmptyLists(emptied)
  {
    hide ValidID, ValidDigest, ValidSecrets, ValidAdapter, ValidCapability;
    var emptied := a.(components := a.components[0 := a.components[0].(capabilities := Items([]))]);
    assert ComponentIDs(emptied.components) == ComponentIDs(a.components);
    assert emptied.components[0].capabilities == Items([]);
    assert ValidApprovedComponent(a.components[0], 1);
  }
}
