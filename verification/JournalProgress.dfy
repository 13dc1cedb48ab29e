/** Sealed operations stay sealed, authority is never shared, and no operation is ever stuck. */
module JournalProgress {
  import opened Basics
  import opened Patterns
  import opened JournalModel
  import opened JournalMachine
  import opened JournalInvariant
  import opened JournalKeeps
  import opened JournalRuns
  import opened JournalReplay
  import opened JournalHistory
  import opened JournalRequests
  import opened JournalCalls

  // ---------------------------------------------------------------- sealing

  /** What a sealed operation may still become: only an unresolved one may turn out complete. */
  predicate KeepsSeal(before: Operation, after: Operation) {
    && after.finishedAt != UNSET && after.steps == before.steps
    && (after.state == before.state || (before.state == NeedsRecovery && after.state == Complete))
  }

  lemma SealedOperation(op: Operation, components: seq<string>, e: Event)
    requires OperationOK(op, components) && op.finishedAt != UNSET
    requires ValidShape(e) && Target(e).Some? && Decide(op, components, e).Accept?
    ensures KeepsSeal(op, Decide(op, components, e).op)
  {
    hide HistoryOK, FlagsOK, FindStep, ValidResult, ValidStoredStep, AllSucceeded, HasRollbackCandidate;
    Idle(op, components);
    if e.body.OperationFinished? && e.body.outcome == ToComplete && op.state == Cancelled {
      NoVerification(op, components);
    }
  }

  /** A cancelled operation has verified nothing, so it cannot turn out complete. */
  lemma NoVerification(op: Operation, components: seq<string>)
    requires OperationOK(op, components) && op.state == Cancelled
    ensures !AllSucceeded(op.steps, Verify, components)
  {
    hide HistoryOK, FlagsOK;
    assert components[0] in components;
  }

  /** Under every accepted record a sealed operation keeps its seal, its steps and its outcome. */
  lemma SealedStays(installation: string, s: State, id: string, e: Event)
    requires Reachable(installation, s) && id in s.operations && s.operations[id].finishedAt != UNSET
    requires Accepts(s, installation, e)
    ensures id in After(s, installation, e).operations
    ensures KeepsSeal(s.operations[id], After(s, installation, e).operations[id])
  {
    hide Reachable, OperationOK, Decide, ValidStoredApproval, ValidID, ValidDigest;
    ReachableOperation(installation, s, id);
    if Target(e) == Some(id) {
      SealedOperation(s.operations[id], OperationComponents(s, s.operations[id]), e);
    }
  }

  /** Approvals never change, and each authorises at most one operation, one of which is unfinished. */
  lemma Authority(installation: string, s: State, e: Event)
    requires Reachable(installation, s) && Accepts(s, installation, e)
    ensures forall a | a in s.approvals ::
              a in After(s, installation, e).approvals && After(s, installation, e).approvals[a] == s.approvals[a]
    ensures SoleAuthority(s) && SoleAuthority(After(s, installation, e))
  {
    hide Reachable, OperationOK, Decide, ValidID, ValidDigest, ValidStoredApproval, BoundTo;
    ReachableOK(installation, s);
    TransitionKeeps(s, installation, e);
  }

  /** A reopen relabels exactly the operations whose newest step is running, sealed or not. */
  lemma ReopenRelabels(installation: string, s: State, id: string)
    requires Reachable(installation, s) && id in s.operations
    ensures var (op, marked) := (s.operations[id], MarkAll(s).operations[id]);
      && marked.finishedAt == op.finishedAt
      && (marked == op <==> !Busy(op.steps)
                            || (Last(op.steps).recovered
                                && op.state == (if Last(op.steps).mode == Mutation then NeedsRecovery else RetryRequired)))
      && (op.finishedAt != UNSET && op.state == NeedsRecovery ==>
            (marked.state == RetryRequired <==> Busy(op.steps) && Last(op.steps).mode != Mutation))
  {
    hide Reachable, OperationOK, InFlight;
    ReachableOperation(installation, s, id);
    MarkOperation(s.operations[id], OperationComponents(s, s.operations[id]));
  }

  // ---------------------------------------------------------------- no operation is stuck

  function StepEvent(step: Step): Event {
    Event(step.startedAt, StepStarted(step))
  }

  const ABANDONED := "abandoned"

  function FailEvent(step: Step, at: Time): Event {
    Event(at, StepFinished(StepFinish(step.operationID, step.stepID, step.attempt, Failed, "", ABANDONED, at, false)))
  }

  function SealEvent(op: Operation, outcome: Outcome, at: Time): Event {
    Event(at, OperationFinished(op.id, outcome))
  }

  function RequestStep(op: Operation, id: string, component: string, phase: Phase, attempt: Uint32, retry: bool, at: Time): Step {
    Step(op.id, id, component, phase, ReadOnly, attempt, "", NO_POLICY, "", at, UNSET, Running, "", "", false, retry)
  }

  /** The successor of an abandoned attempt. */
  function RetryStep(op: Operation, at: Time): Step
    requires op.steps != []
  {
    var last := Last(op.steps);
    RequestStep(op, last.stepID, last.componentID, last.phase, Successor(last.attempt), true, at)
  }

  /** At most three records that bring an unfinished operation to its end. */
  function WayOut(op: Operation, component: string, unused: string, at: Time): (r: seq<Event>)
    ensures |r| <= 3
  {
    if op.mutationStarted then
      [SealEvent(op, ToRecovery, at)]
    else if Busy(op.steps) then
      if Last(op.steps).recovered then
        var step := RetryStep(op, at);
        [StepEvent(step), FailEvent(step, at), SealEvent(op, ToFailed, at)]
      else
        [FailEvent(Last(op.steps).(operationID := op.id), at), SealEvent(op, ToFailed, at)]
    else if op.state == Verifying then
      var step := RequestStep(op, unused, component, Verify, 1, false, at);
      [StepEvent(step), FailEvent(step, at), SealEvent(op, ToFailed, at)]
    else if op.state == HasFailed then
      [SealEvent(op, ToFailed, at)]
    else
      [Event(at, OperationCancelled(op.id))]
  }

  /** Every event is one a public call writes, and is accepted, from `s` on. */
  predicate Takes(s: State, installation: string, events: seq<Event>)
    decreases |events|
  {
    events == []
    || (Issued(s, events[0]) && Accepts(s, installation, events[0])
        && Takes(After(s, installation, events[0]), installation, events[1..]))
  }

  /** Each event is what its public call submits, and is accepted, from `s` on. */
  predicate Serves(s: State, installation: string, events: seq<Event>)
    decreases |events|
  {
    events == []
    || (ReplyTo(s, CallFor(events[0]), events[0].observedAt) == Submission(events[0])
        && Accepts(s, installation, events[0]) && Serves(After(s, installation, events[0]), installation, events[1..]))
  }

  lemma {:induction false} TakesServed(s: State, installation: string, events: seq<Event>)
    requires ProjectionOK(s) && Takes(s, installation, events)
    ensures Serves(s, installation, events)
    decreases |events|
  {
    hide ProjectionOK, Issued, Accepts, After, ReplyTo;
    if events != [] {
      IssuedIsSubmitted(s, installation, events[0]);
      TransitionKeeps(s, installation, events[0]);
      TakesServed(After(s, installation, events[0]), installation, events[1..]);
    }
  }

  function TakeAll(s: State, installation: string, events: seq<Event>): State
    decreases |events|
  {
    if events == [] then s else TakeAll(After(s, installation, events[0]), installation, events[1..])
  }

  /** One operation taking events that all speak about it. */
  predicate OperationTakes(op: Operation, components: seq<string>, events: seq<Event>)
    decreases |events|
  {
    events == []
    || (ValidShape(events[0]) && TimesAgree(events[0]) && Target(events[0]) == Some(op.id)
        && IssuedOn(op, events[0]) && Decide(op, components, events[0]).Accept?
        && OperationTakes(Decide(op, components, events[0]).op, components, events[1..]))
  }

  function OperationAfter(op: Operation, components: seq<string>, events: seq<Event>): Operation
    requires OperationTakes(op, components, events)
    decreases |events|
  {
    if events == [] then op else OperationAfter(Decide(op, components, events[0]).op, components, events[1..])
  }

  lemma {:induction false} LiftTakes(s: State, installation: string, id: string, events: seq<Event>)
    requires id in s.operations && s.operations[id].id == id
    requires OperationTakes(s.operations[id], OperationComponents(s, s.operations[id]), events)
    ensures Takes(s, installation, events)
    ensures var end := TakeAll(s, installation, events);
            id in end.operations
            && end.operations[id] == OperationAfter(s.operations[id], OperationComponents(s, s.operations[id]), events)
    decreases |events|
  {
    hide Decide, IssuedOn, ValidShape, TimesAgree;
    if events != [] {
      var op, components := s.operations[id], OperationComponents(s, s.operations[id]);
      var next := After(s, installation, events[0]);
      DecideNames(op, components, events[0]);
      assert next.operations[id] == Decide(op, components, events[0]).op;
      assert OperationComponents(next, next.operations[id]) == components;
      LiftTakes(next, installation, id, events[1..]);
    }
  }

  lemma DecideNames(op: Operation, components: seq<string>, e: Event)
    requires ValidShape(e) && Target(e).Some?
    ensures Decide(op, components, e).op.id == op.id && Decide(op, components, e).op.approvalID == op.approvalID
  {
    hide Decide;
    DecideFrames(op, components, e);
  }

  // Each way out, on one operation.

  lemma SealsRecovery(op: Operation, components: seq<string>, at: Time)
    requires OperationOK(op, components) && op.mutationStarted && op.finishedAt == UNSET && at != UNSET
    ensures OperationTakes(op, components, [SealEvent(op, ToRecovery, at)])
    ensures OperationAfter(op, components, [SealEvent(op, ToRecovery, at)]).finishedAt != UNSET
  {
    hide OperationOK, InFlight;
    var e := SealEvent(op, ToRecovery, at);
    assert [e][1..] == [];
    assert MayNeedRecovery(op);
    assert Decide(op, components, e) == Accept(op.(state := NeedsRecovery, finishedAt := at));
  }

  lemma SealsFailed(op: Operation, components: seq<string>, at: Time)
    requires InFlight(op.steps) < 0 && op.state == HasFailed && !op.mutationStarted && op.finishedAt == UNSET && at != UNSET
    ensures OperationTakes(op, components, [SealEvent(op, ToFailed, at)])
    ensures OperationAfter(op, components, [SealEvent(op, ToFailed, at)]).finishedAt != UNSET
  {
    hide InFlight;
    var e := SealEvent(op, ToFailed, at);
    assert [e][1..] == [];
    assert Decide(op, components, e) == Accept(op.(state := HasFailed, finishedAt := at));
  }

  lemma Cancels(op: Operation, components: seq<string>, at: Time)
    requires InFlight(op.steps) < 0 && op.state in {Approved, Preflighting} && !op.mutationStarted
    requires at != UNSET && ValidID(op.id)
    ensures OperationTakes(op, components, [Event(at, OperationCancelled(op.id))])
    ensures OperationAfter(op, components, [Event(at, OperationCancelled(op.id))]).finishedAt != UNSET
  {
    hide InFlight, ValidID;
    var e := Event(at, OperationCancelled(op.id));
    assert [e][1..] == [];
    assert Decide(op, components, e) == Accept(op.(state := Cancelled, finishedAt := at));
  }

  /** A running read-only step that was not relabelled can be failed, and then the operation too. */
  lemma FailsRunning(op: Operation, components: seq<string>, at: Time)
    requires OperationOK(op, components) && Busy(op.steps) && !Last(op.steps).recovered
    requires !op.mutationStarted && op.finishedAt == UNSET && at != UNSET && ValidID(op.id)
    ensures var events := [FailEvent(Last(op.steps).(operationID := op.id), at), SealEvent(op, ToFailed, at)];
            OperationTakes(op, components, events) && OperationAfter(op, components, events).finishedAt != UNSET
  {
    hide Extends, StateOK, InFlight, FindStep, ValidID, HasMutation, HasRollbackStep, ValidPolicy, ValidDigest;
    OnlyLastRuns(op.steps, components);
    var last := Last(op.steps);
    assert last in op.steps;
    LastIsFound(op, components);
    NotMutating(op, components);
    var e := FailEvent(last.(operationID := op.id), at);
    var done := Finished(last, e.body.finish);
    var next := op.(steps := Resolved(op.steps, done), failure := Some(FailureOf(done)), state := HasFailed);
    assert ValidReason(ABANDONED);
    assert Decide(op, components, e) == Accept(next);
    ResolveKeeps(op.steps, components, done);
    SealsFailed(next, components, at);
    assert [e, SealEvent(op, ToFailed, at)][1..] == [SealEvent(next, ToFailed, at)];
  }

  /** The running step is the only record of its attempt. */
  lemma LastIsFound(op: Operation, components: seq<string>)
    requires OperationOK(op, components) && op.steps != []
    ensures FindStep(op.steps, Last(op.steps).stepID, Last(op.steps).attempt) == |op.steps| - 1
  {
    hide Extends, StateOK, FlagsOK;
    var f := FindStep(op.steps, Last(op.steps).stepID, Last(op.steps).attempt);
    if f < |op.steps| - 1 { SameIdentity(op.steps, components, f, |op.steps| - 1); }
  }

  lemma NotMutating(op: Operation, components: seq<string>)
    requires OperationOK(op, components) && !op.mutationStarted && op.steps != []
    ensures Last(op.steps).mode == ReadOnly && Last(op.steps).phase in {Preflight, Verify}
    ensures Unfailed(op) || op.failure.Some?
    ensures Busy(op.steps) && op.finishedAt == UNSET ==> Unfailed(op)
  {
    hide Extends;
    OnlyLastRuns(op.steps, components);
    assert Last(op.steps) in op.steps;
  }

  /** Appending a request that the rules allow starts it. */
  lemma StartedStep(op: Operation, components: seq<string>, step: Step)
    requires OperationOK(op, components) && StartStep(op, components, step).Accept?
    requires FindStep(op.steps, step.stepID, step.attempt) < 0 && step.mode == ReadOnly
    requires !op.mutationStarted && op.finishedAt == UNSET
    ensures var next := StartStep(op, components, step).op;
      && OperationOK(next, components) && Busy(next.steps) && Last(next.steps) == step && !next.mutationStarted
      && next.finishedAt == UNSET && next.id == op.id && next.approvalID == op.approvalID
  {
    hide OperationOK, FindStep, StepTransitionError, InFlight, ValidStepInput;
    StartKeeps(op, components, step);
  }

  /** A fresh or retried read-only step, its failure, and the seal. */
  lemma StartsAndFails(op: Operation, components: seq<string>, step: Step, at: Time)
    requires OperationOK(op, components) && ValidID(op.id) && step.operationID == op.id
    requires step.startedAt == at && at != UNSET && !step.recovered && step.mode == ReadOnly
    requires FindStep(op.steps, step.stepID, step.attempt) < 0 && step.retry == RetriesRecovered(op, step)
    requires StartStep(op, components, step).Accept? && !op.mutationStarted && op.finishedAt == UNSET
    ensures var events := [StepEvent(step), FailEvent(step, at), SealEvent(op, ToFailed, at)];
            OperationTakes(op, components, events) && OperationAfter(op, components, events).finishedAt != UNSET
  {
    hide OperationOK, StartStep, FinishStep, Seal, FindStep, RetriesRecovered, ValidID, Busy;
    StartedStep(op, components, step);
    var next := StartStep(op, components, step).op;
    FailsRunning(next, components, at);
    var events := [StepEvent(step), FailEvent(step, at), SealEvent(op, ToFailed, at)];
    assert step.(operationID := next.id) == step;
    assert events[1..] == [FailEvent(Last(next.steps).(operationID := next.id), at), SealEvent(next, ToFailed, at)];
  }

  lemma Distinctness(components: seq<string>, found: set<string>)
    requires Distinct(components)
    requires forall c :: c in found <==> c in components
    ensures |found| == |components|
  {
    if components == [] {
      assert found == {};
    } else {
      var rest := components[..|components| - 1];
      var last := components[|components| - 1];
      assert forall c :: c in components <==> c in rest || c == last;
      Distinctness(rest, found - {last});
    }
  }

  lemma PreflightCounted(steps: seq<Step>, components: seq<string>)
    requires Distinct(components) && AfterPreflight(steps, components)
    requires forall s | s in steps :: s.componentID in components
    ensures AllSucceeded(steps, Preflight, components)
  {
    Distinctness(components, SucceededIn(steps, Preflight));
  }

  /** A retry of the newest attempt is accepted while the operation has not mutated anything. */
  lemma RetryAccepted(op: Operation, components: seq<string>, at: Time)
    requires OperationOK(op, components) && Distinct(components) && ValidID(op.id)
    requires Busy(op.steps) && !op.mutationStarted && op.finishedAt == UNSET && at != UNSET
    requires Last(op.steps).attempt < 0xFFFF_FFFF
    ensures StartStep(op, components, RetryStep(op, at)).Accept?
    ensures FindStep(op.steps, RetryStep(op, at).stepID, RetryStep(op, at).attempt) < 0
  {
    hide Extends, HasMutation, HasRollbackStep, ValidID, ValidDigest, ValidPolicy, AllSucceeded, FindStep, SucceededIn;
    var step, last := RetryStep(op, at), Last(op.steps);
    OnlyLastRuns(op.steps, components);
    NotMutating(op, components);
    assert last in op.steps;
    NewAttempt(op.steps, components);
    var closed := CloseAttempt(op, |op.steps| - 1, at);
    assert closed.steps == Resolved(op.steps, Interrupted(last, at));
    assert LatestStep(closed.steps, last.stepID) == |op.steps| - 1;
    if last.phase == Verify { RetryPreflighted(op.steps, components, at); }
  }

  lemma NewAttempt(steps: seq<Step>, components: seq<string>)
    requires HistoryOK(steps, components) && steps != [] && Last(steps).attempt < 0xFFFF_FFFF
    ensures FindStep(steps, Last(steps).stepID, Last(steps).attempt + 1) < 0
  {
    hide Extends;
    var f := FindStep(steps, Last(steps).stepID, Last(steps).attempt + 1);
    if 0 <= f < |steps| - 1 { SameIdentity(steps, components, f, |steps| - 1); }
  }

  lemma RetryPreflighted(steps: seq<Step>, components: seq<string>, at: Time)
    requires HistoryOK(steps, components) && Distinct(components) && steps != [] && Last(steps).phase == Verify
    requires StepOK(Interrupted(Last(steps), at))
    ensures AllSucceeded(Resolved(steps, Interrupted(Last(steps), at)), Preflight, components)
  {
    hide FollowsPrior, StepOK, FreshRollback;
    var after := Resolved(steps, Interrupted(Last(steps), at));
    ResolveKeeps(steps, components, Interrupted(Last(steps), at));
    OnlyLastRuns(after, components);
    assert forall s | s in Front(steps) :: s in after;
    PreflightCounted(after, components);
  }

  /** Another verification may always start while an operation is verifying. */
  lemma VerifyAccepted(op: Operation, components: seq<string>, component: string, unused: string, at: Time)
    requires OperationOK(op, components) && Distinct(components) && ValidID(op.id)
    requires component in components && ValidID(component)
    requires op.state == Verifying && !Busy(op.steps) && !op.mutationStarted && at != UNSET
    requires ValidID(unused) && forall s | s in op.steps :: s.stepID != unused
    ensures var step := RequestStep(op, unused, component, Verify, 1, false, at);
            StartStep(op, components, step).Accept? && FindStep(op.steps, step.stepID, step.attempt) < 0
  {
    hide FollowsPrior, StepOK, FreshRollback, HasMutation, HasRollbackStep, ValidID, ValidDigest, ValidPolicy, SucceededIn;
    OnlyLastRuns(op.steps, components);
    assert forall s | s in Front(op.steps) :: s in op.steps;
    assert op.steps == Front(op.steps) + [Last(op.steps)];
    MorePreflight(Front(op.steps), op.steps, components);
    PreflightCounted(op.steps, components);
  }

  lemma MorePreflight(front: seq<Step>, steps: seq<Step>, components: seq<string>)
    requires AfterPreflight(front, components) && forall s | s in front :: s in steps
    ensures AfterPreflight(steps, components)
  {
  }

  lemma {:induction false} AttemptBound(steps: seq<Step>, components: seq<string>, j: int)
    requires HistoryOK(steps, components) && 0 <= j < |steps|
    ensures steps[j].attempt <= j + 1
    decreases j
  {
    hide StepOK, FreshRollback, AfterPreflight, Superseded;
    Extract(steps, components, j);
    var prior := LatestStep(steps[..j], steps[j].stepID);
    if prior >= 0 { AttemptBound(steps, components, prior); }
  }

  lemma WayOutTaken(op: Operation, components: seq<string>, component: string, unused: string, at: Time)
    requires OperationOK(op, components) && Distinct(components) && ValidID(op.id)
    requires component in components && ValidID(component)
    requires op.finishedAt == UNSET && at != UNSET && |op.steps| < 0xFFFF_FFFF
    requires ValidID(unused) && forall s | s in op.steps :: s.stepID != unused
    ensures var events := WayOut(op, component, unused, at);
            OperationTakes(op, components, events) && OperationAfter(op, components, events).finishedAt != UNSET
  {
    hide Extends, HistoryOK, InFlight, StartStep, FindStep, ValidID, OperationTakes, OperationAfter, Decide;
    Idle(op, components);
    if op.mutationStarted {
      SealsRecovery(op, components, at);
    } else if Busy(op.steps) {
      NotMutating(op, components);
      if Last(op.steps).recovered {
        AttemptBound(op.steps, components, |op.steps| - 1);
        RetryAccepted(op, components, at);
        StartsAndFails(op, components, RetryStep(op, at), at);
      } else {
        FailsRunning(op, components, at);
      }
    } else if op.state == Verifying {
      VerifyAccepted(op, components, component, unused, at);
      StartsAndFails(op, components, RequestStep(op, unused, component, Verify, 1, false, at), at);
    } else if op.state == HasFailed {
      SealsFailed(op, components, at);
    } else {
      ApplyMutates(op, components);
      Cancels(op, components, at);
    }
  }

  lemma ApplyMutates(op: Operation, components: seq<string>)
    requires OperationOK(op, components) && !op.mutationStarted
    ensures op.state != Applying
  {
    hide Extends;
    OnlyLastRuns(op.steps, components);
    if op.steps != [] { assert Last(op.steps) in op.steps; }
  }

  lemma {:induction false} StepsBounded(installation: string, log: seq<Event>, id: string)
    requires Replay(installation, log).Some? && id in Replay(installation, log).value.operations
    ensures |Replay(installation, log).value.operations[id].steps| <= |log|
    decreases |log|
  {
    hide Decide, ValidStoredApproval;
    var before := Replay(installation, log[..|log| - 1]).value;
    if id in before.operations {
      StepsBounded(installation, log[..|log| - 1], id);
      if Target(log[|log| - 1]) == Some(id) {
        OneStepMore(before.operations[id], OperationComponents(before, before.operations[id]), log[|log| - 1]);
      }
    }
  }

  lemma OneStepMore(op: Operation, components: seq<string>, e: Event)
    requires Target(e).Some?
    ensures |Decide(op, components, e).op.steps| <= |op.steps| + 1
  {
    hide StepTransitionError, CanComplete, CanReportRolledBack, ValidStoredStep, ValidResult;
  }

  /**
   No operation is ever stuck. After any run, whatever was interrupted, an unfinished operation has
   at most three further public calls, each of which submits an accepted record, and then it is sealed.
  */
  lemma NoDeadlock(installation: string, moves: seq<Move>, id: string, component: string, unused: string, at: Time)
    requires Run(installation, moves).Live? && id in Run(installation, moves).state.operations
    requires |Run(installation, moves).log| <= MAX_RECORDS && at != UNSET
    requires var op := Run(installation, moves).state.operations[id];
      op.finishedAt == UNSET && ValidID(unused) && forall s | s in op.steps :: s.stepID != unused
    requires var s := Run(installation, moves).state; component in OperationComponents(s, s.operations[id])
    ensures var s := Run(installation, moves).state;
            var events := WayOut(s.operations[id], component, unused, at);
            var end := TakeAll(s, installation, events);
            Serves(s, installation, events) && id in end.operations && end.operations[id].finishedAt != UNSET
  {
    hide Serves, Run, Replay, MarkAll, OperationOK, ValidID, OperationTakes, Takes, TakeAll, Mark, OperationAfter, WayOut, Distinct;
    CrashReplay(installation, moves);
    var s, log := Run(installation, moves).state, Run(installation, moves).log;
    Bound(s, id);
    var op := s.operations[id];
    var plain := Replay(installation, log).value;
    StepsBounded(installation, log, id);
    SimilarLength(s, plain, id);
    var components := OperationComponents(s, op);
    WayOutTaken(op, components, component, unused, at);
    LiftTakes(s, installation, id, WayOut(op, component, unused, at));
    TakesServed(s, installation, WayOut(op, component, unused, at));
  }

  lemma SimilarLength(t: State, s: State, id: string)
    requires InStep(t, s) && id in t.operations
    ensures id in s.operations && |t.operations[id].steps| == |s.operations[id].steps|
  {
    hide OperationOK, Mark;
    Bound(t, id);
    Bound(s, id);
    SimilarMeans(t.operations[id], s.operations[id],
                 OperationComponents(t, t.operations[id]), OperationComponents(s, s.operations[id]));
  }
}
