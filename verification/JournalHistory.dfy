/** What the history of a reachable operation looks like. */
module JournalHistory {
  import opened Patterns
  import opened JournalModel
  import opened JournalMachine
  import opened JournalInvariant
  import opened JournalKeeps
  import opened JournalRuns
  import opened JournalReplay

  /** Some interleaving of requests, crashes and reopens leads to this projection. */
  ghost predicate Reachable(installation: string, s: State) {
    exists moves :: Run(installation, moves).Live? && Run(installation, moves).state == s
  }

  lemma ReachableOK(installation: string, s: State)
    requires Reachable(installation, s)
    ensures ProjectionOK(s)
  {
    hide ProjectionOK, MarkAll;
    var moves :| Run(installation, moves).Live? && Run(installation, moves).state == s;
    CrashReplay(installation, moves);
  }

  lemma ReachableOperation(installation: string, s: State, id: string)
    requires Reachable(installation, s) && id in s.operations
    ensures OperationOK(s.operations[id], OperationComponents(s, s.operations[id]))
  {
    hide ProjectionOK, OperationOK;
    ReachableOK(installation, s);
    Bound(s, id);
  }

  /** Every step extends the history before it, wherever it stands. */
  lemma {:induction false} Extract(steps: seq<Step>, components: seq<string>, j: int)
    requires HistoryOK(steps, components) && 0 <= j < |steps|
    ensures Extends(steps[..j], components, steps[j])
    decreases |steps|
  {
    hide Extends;
    if j < |steps| - 1 {
      Extract(Front(steps), components, j);
      assert Front(steps)[..j] == steps[..j];
    }
  }

  // ---------------------------------------------------------------- phases

  /** Phases never go back, only the newest step runs, and mutating or verifying work is preflighted. */
  predicate PhasesInOrder(steps: seq<Step>, components: seq<string>) {
    && (forall i, j | 0 <= i < j < |steps| :: Rank(steps[i].phase) <= Rank(steps[j].phase))
    && (forall i | 0 <= i < |steps| - 1 :: steps[i].status != Running)
    && (forall j, c | 0 <= j < |steps| && steps[j].phase in {Apply, Verify} && c in components ::
          c in SucceededIn(steps[..j], Preflight))
  }

  lemma PhaseOrder(installation: string, s: State, id: string)
    requires Reachable(installation, s) && id in s.operations
    ensures PhasesInOrder(s.operations[id].steps, OperationComponents(s, s.operations[id]))
  {
    hide Reachable, FollowsPrior, StepOK, FreshRollback, StateOK, FlagsOK, SucceededIn;
    ReachableOperation(installation, s, id);
    var steps, components := s.operations[id].steps, OperationComponents(s, s.operations[id]);
    forall i, j | 0 <= i < j < |steps| ensures Rank(steps[i].phase) <= Rank(steps[j].phase) {
      Extract(steps, components, j);
      assert steps[i] in steps[..j];
    }
    forall i | 0 <= i < |steps| - 1 ensures steps[i].status != Running {
      Extract(steps, components, |steps| - 1);
      assert steps[i] in steps[..|steps| - 1];
    }
    forall j, c | 0 <= j < |steps| && steps[j].phase in {Apply, Verify} && c in components
      ensures c in SucceededIn(steps[..j], Preflight)
    {
      Extract(steps, components, j);
    }
  }

  // ---------------------------------------------------------------- attempts

  predicate HasAttempt(steps: seq<Step>, before: int, id: string, attempt: int) {
    exists i | 0 <= i < before && i < |steps| :: steps[i].stepID == id && steps[i].attempt == attempt
  }

  /**
   The attempts of a step identity count 1, 2, ... in order; every attempt but the newest is a
   read-only one abandoned by a restart; mutations never share an idempotency key.
  */
  predicate AttemptsChained(steps: seq<Step>) {
    && (forall i, j | 0 <= i < j < |steps| && steps[i].stepID == steps[j].stepID ::
          Superseded(steps[i]) && steps[i].attempt < steps[j].attempt)
    && (forall j, a | 0 <= j < |steps| && 1 <= a < steps[j].attempt :: HasAttempt(steps, j, steps[j].stepID, a))
    && (forall i, j | 0 <= i < j < |steps| && IsMutation(steps[i]) && IsMutation(steps[j]) ::
          steps[i].idempotency != steps[j].idempotency)
  }

  /** Two steps of one identity: the older was abandoned and has the smaller attempt. */
  lemma {:induction false} SameIdentity(steps: seq<Step>, components: seq<string>, i: int, j: int)
    requires HistoryOK(steps, components) && 0 <= i < j < |steps| && steps[i].stepID == steps[j].stepID
    ensures Superseded(steps[i]) && steps[i].attempt < steps[j].attempt
    decreases j
  {
    hide StepOK, FreshRollback, AfterPreflight, Superseded;
    Extract(steps, components, j);
    var prior := LatestStep(steps[..j], steps[j].stepID);
    assert steps[..j][i] == steps[i];
    if i < prior { SameIdentity(steps, components, i, prior); }
  }

  lemma {:induction false} AttemptsCount(steps: seq<Step>, components: seq<string>, j: int, a: int)
    requires HistoryOK(steps, components) && 0 <= j < |steps| && 1 <= a < steps[j].attempt
    ensures HasAttempt(steps, j, steps[j].stepID, a)
    decreases j
  {
    hide StepOK, FreshRollback, AfterPreflight, Superseded;
    Extract(steps, components, j);
    var prior := LatestStep(steps[..j], steps[j].stepID);
    assert steps[..j][prior] == steps[prior];
    if a < steps[prior].attempt { AttemptsCount(steps, components, prior, a); }
  }

  lemma RetryChains(installation: string, s: State, id: string)
    requires Reachable(installation, s) && id in s.operations
    ensures AttemptsChained(s.operations[id].steps)
  {
    hide Reachable, StateOK, FlagsOK, FollowsPrior, StepOK, FreshRollback, AfterPreflight, Superseded, HasAttempt;
    ReachableOperation(installation, s, id);
    var steps, components := s.operations[id].steps, OperationComponents(s, s.operations[id]);
    forall i, j | 0 <= i < j < |steps| && steps[i].stepID == steps[j].stepID
      ensures Superseded(steps[i]) && steps[i].attempt < steps[j].attempt
    {
      SameIdentity(steps, components, i, j);
    }
    forall j, a | 0 <= j < |steps| && 1 <= a < steps[j].attempt
      ensures HasAttempt(steps, j, steps[j].stepID, a)
    {
      AttemptsCount(steps, components, j, a);
    }
    forall i, j | 0 <= i < j < |steps| && IsMutation(steps[i]) && IsMutation(steps[j])
      ensures steps[i].idempotency != steps[j].idempotency
    {
      Extract(steps, components, j);
      assert steps[i] in steps[..j];
    }
  }

  // ---------------------------------------------------------------- what the outcomes mean

  /**
   A complete operation: nothing was undone, every mutation succeeded, and each approved component
   has a succeeded verification later than every mutation of the operation.
  */
  predicate SoundlyComplete(steps: seq<Step>, components: seq<string>) {
    && (forall i | 0 <= i < |steps| :: steps[i].phase != Rollback)
    && (forall i | 0 <= i < |steps| && IsMutation(steps[i]) :: steps[i].status == Succeeded)
    && (forall c | c in components :: VerifiedLast(steps, c))
  }

  predicate VerifiedLast(steps: seq<Step>, component: string) {
    exists v | 0 <= v < |steps| ::
      && steps[v].phase == Verify && steps[v].status == Succeeded && steps[v].componentID == component
      && forall i | 0 <= i < |steps| && IsMutation(steps[i]) :: i < v
  }

  lemma CompleteSound(installation: string, s: State, id: string)
    requires Reachable(installation, s) && id in s.operations && s.operations[id].state == Complete
    ensures SoundlyComplete(s.operations[id].steps, OperationComponents(s, s.operations[id]))
  {
    hide Reachable, OperationOK, PhasesInOrder, SoundlyComplete;
    ReachableOperation(installation, s, id);
    PhaseOrder(installation, s, id);
    CompleteOperation(s.operations[id], OperationComponents(s, s.operations[id]));
  }

  lemma CompleteOperation(op: Operation, components: seq<string>)
    requires OperationOK(op, components) && op.state == Complete && PhasesInOrder(op.steps, components)
    ensures SoundlyComplete(op.steps, components)
  {
    hide HistoryOK, FlagsOK, PhasesInOrder, StepOK, SucceededIn;
    OnlyKnownPhases(op, components);
    assert forall i | 0 <= i < |op.steps| :: op.steps[i] in op.steps;
    forall c | c in components ensures VerifiedLast(op.steps, c) {
      VerifiedAfter(op.steps, components, c);
    }
  }

  lemma OnlyKnownPhases(op: Operation, components: seq<string>)
    requires OperationOK(op, components)
    ensures forall i | 0 <= i < |op.steps| :: StepOK(op.steps[i])
    ensures !op.rollbackStarted ==> forall i | 0 <= i < |op.steps| :: op.steps[i].phase != Rollback
  {
    hide Extends, StepOK, StateOK, HasMutation;
    OnlyLastRuns(op.steps, components);
    assert forall i | 0 <= i < |op.steps| :: op.steps[i] in op.steps;
  }

  lemma VerifiedAfter(steps: seq<Step>, components: seq<string>, c: string)
    requires PhasesInOrder(steps, components) && c in SucceededIn(steps, Verify)
    requires forall i | 0 <= i < |steps| :: StepOK(steps[i]) && steps[i].phase != Rollback
    ensures VerifiedLast(steps, c)
  {
    hide ValidID, ValidPolicy;
    var st :| st in steps && st.phase == Verify && st.status == Succeeded && st.componentID == c;
    var v :| 0 <= v < |steps| && steps[v] == st;
    assert forall i | v < i < |steps| :: Rank(steps[v].phase) <= Rank(steps[i].phase);
  }

  /** `r` is the one succeeded rollback step that undoes the mutation at `a`. */
  predicate SoleUndo(steps: seq<Step>, a: int, r: int)
    requires 0 <= a < |steps| && 0 <= r < |steps|
  {
    && steps[r].phase == Rollback && steps[r].status == Succeeded && Undoes(steps[r], steps[a])
    && (forall k | 0 <= k < |steps| && steps[k].phase == Rollback && Undoes(steps[k], steps[a]) :: k == r)
    && (forall k | 0 <= k < |steps| && steps[k].phase == Apply && Undoes(steps[r], steps[k]) :: k == a)
  }

  /**
   A rolled-back operation: apply mutations and rollback steps correspond one to one, each pair
   names the same component and reference, and no mutation was recovery-only.
  */
  predicate SoundlyRolledBack(steps: seq<Step>) {
    && (forall a | 0 <= a < |steps| && steps[a].phase == Apply ::
          steps[a].rollback.recoveryOnly == NoReason
          && exists r | 0 <= r < |steps| :: SoleUndo(steps, a, r))
    && (forall r | 0 <= r < |steps| && steps[r].phase == Rollback ::
          exists a | 0 <= a < |steps| && steps[a].phase == Apply :: SoleUndo(steps, a, r))
  }

  lemma DistinctUndo(steps: seq<Step>, components: seq<string>, i: int, j: int)
    requires HistoryOK(steps, components) && 0 <= i < j < |steps|
    requires steps[i].phase == Rollback && steps[j].phase == Rollback
    ensures steps[i].compensates != steps[j].compensates
  {
    hide StepOK, AfterPreflight, FollowsPrior, HistoryOK;
    Extract(steps, components, j);
    assert steps[i] in steps[..j];
  }

  lemma UndoFacts(steps: seq<Step>, components: seq<string>, a: int, r: int)
    requires HistoryOK(steps, components) && 0 <= a < |steps| && 0 <= r < |steps|
    requires steps[a].phase == Apply && steps[r].phase == Rollback && steps[r].status == Succeeded
    requires Undoes(steps[r], steps[a])
    ensures SoleUndo(steps, a, r)
  {
    hide StepOK, AfterPreflight, FollowsPrior, HistoryOK;
    forall k | 0 <= k < |steps| && steps[k].phase == Rollback && k != r
      ensures steps[k].compensates != steps[r].compensates
    {
      if k < r { DistinctUndo(steps, components, k, r); } else { DistinctUndo(steps, components, r, k); }
    }
    forall k | 0 <= k < |steps| && steps[k].phase == Apply && Undoes(steps[r], steps[k]) ensures k == a {
      if k < a { SameIdentity(steps, components, k, a); }
      if a < k { SameIdentity(steps, components, a, k); }
    }
  }

  /** The original that a rollback step names. */
  lemma HasOriginal(steps: seq<Step>, components: seq<string>, r: int) returns (a: int)
    requires HistoryOK(steps, components) && 0 <= r < |steps| && steps[r].phase == Rollback
    ensures 0 <= a < r && steps[a].phase == Apply && Undoes(steps[r], steps[a])
  {
    hide StepOK, AfterPreflight, FollowsPrior, HistoryOK;
    Extract(steps, components, r);
    var original :| original in steps[..r] && Undoes(steps[r], original);
    a :| 0 <= a < r && steps[a] == original;
  }

  lemma UndoOf(steps: seq<Step>, components: seq<string>, a: int)
    requires HistoryOK(steps, components) && 0 <= a < |steps| && steps[a].phase == Apply
    requires Compensated(steps, steps[a].stepID)
    ensures exists r | 0 <= r < |steps| :: SoleUndo(steps, a, r)
  {
    hide Extends, SoleUndo, HistoryOK;
    var st :| st in steps && st.phase == Rollback && st.compensates == steps[a].stepID && st.status == Succeeded;
    var r :| 0 <= r < |steps| && steps[r] == st;
    var original := HasOriginal(steps, components, r);
    UniqueOriginal(steps, components, original, a);
    UndoFacts(steps, components, a, r);
  }

  lemma RolledBackSound(installation: string, s: State, id: string)
    requires Reachable(installation, s) && id in s.operations && s.operations[id].state == RolledBack
    ensures SoundlyRolledBack(s.operations[id].steps)
  {
    hide Reachable, Extends, FlagsOK, SoleUndo, HistoryOK, Undoes, Compensated;
    ReachableOperation(installation, s, id);
    var steps, components := s.operations[id].steps, OperationComponents(s, s.operations[id]);
    assert HistoryOK(steps, components) && AllUndone(steps);
    forall r | 0 <= r < |steps| && steps[r].phase == Rollback
      ensures exists a | 0 <= a < |steps| && steps[a].phase == Apply :: SoleUndo(steps, a, r)
    {
      assert steps[r] in steps;
      var a := HasOriginal(steps, components, r);
      UndoFacts(steps, components, a, r);
    }
    forall a | 0 <= a < |steps| && steps[a].phase == Apply
      ensures steps[a].rollback.recoveryOnly == NoReason && exists r | 0 <= r < |steps| :: SoleUndo(steps, a, r)
    {
      assert steps[a] in steps;
      UndoOf(steps, components, a);
    }
  }

  lemma UniqueOriginal(steps: seq<Step>, components: seq<string>, i: int, j: int)
    requires HistoryOK(steps, components) && 0 <= i < |steps| && 0 <= j < |steps|
    requires IsFinishedMutation(steps[i]) && steps[j].phase == Apply && steps[i].stepID == steps[j].stepID
    ensures i == j
  {
    if i < j { SameIdentity(steps, components, i, j); }
    if j < i {
      SameIdentity(steps, components, j, i);
      Extract(steps, components, j);
    }
  }

  /** A history that was cancelled, or sealed as failed, contains no mutation. */
  lemma UntouchedWhenAbandoned(installation: string, s: State, id: string)
    requires Reachable(installation, s) && id in s.operations
    requires s.operations[id].state == Cancelled
             || (s.operations[id].state == HasFailed && s.operations[id].finishedAt != UNSET)
    ensures forall step | step in s.operations[id].steps :: step.mode == ReadOnly
  {
    hide Reachable, Extends;
    ReachableOperation(installation, s, id);
    OnlyLastRuns(s.operations[id].steps, OperationComponents(s, s.operations[id]));
  }
}
