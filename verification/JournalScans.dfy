/** The loops over the steps of an operation, each against the function it computes. */
module JournalScans {
  import opened JournalModel
  import opened JournalMachine

  method ScanInFlight(steps: seq<Step>) returns (r: int)
    ensures r == InFlight(steps)
  {
    r := |steps| - 1;
    while r >= 0
      invariant -1 <= r < |steps|
      invariant forall i | r < i < |steps| :: !IsRunning(steps[i])
    {
      if steps[r].status == Running { return; }
      r := r - 1;
    }
  }

  method ScanFindStep(steps: seq<Step>, id: string, attempt: Uint32) returns (r: int)
    ensures r == FindStep(steps, id, attempt)
  {
    for index := 0 to |steps|
      invariant forall i | 0 <= i < index :: steps[i].stepID != id || steps[i].attempt != attempt
    {
      if steps[index].stepID == id && steps[index].attempt == attempt { return index; }
    }
    return -1;
  }

  method ScanLatestStep(steps: seq<Step>, id: string) returns (r: int)
    ensures r == LatestStep(steps, id)
  {
    r := |steps| - 1;
    while r >= 0
      invariant -1 <= r < |steps|
      invariant forall i | r < i < |steps| :: steps[i].stepID != id
    {
      if steps[r].stepID == id { return; }
      r := r - 1;
    }
  }

  method ScanEligibleMutation(steps: seq<Step>, id: string) returns (r: int)
    ensures r == EligibleMutation(steps, id)
  {
    r := |steps| - 1;
    while r >= 0
      invariant -1 <= r < |steps|
      invariant forall i | r < i < |steps| ::
                  !(steps[i].stepID == id && steps[i].mode == Mutation && steps[i].phase == Apply
                    && steps[i].status in {Succeeded, Failed})
    {
      var step := steps[r];
      if step.stepID == id && step.mode == Mutation && step.phase == Apply
         && (step.status == Succeeded || step.status == Failed) {
        return;
      }
      r := r - 1;
    }
  }

  method ScanCompensated(steps: seq<Step>, id: string) returns (found: bool)
    ensures found == Compensated(steps, id)
  {
    for index := 0 to |steps|
      invariant forall i | 0 <= i < index ::
                  !(steps[i].phase == Rollback && steps[i].compensates == id && steps[i].status == Succeeded)
    {
      var step := steps[index];
      if step.phase == Rollback && step.compensates == id && step.status == Succeeded {
        assert step in steps;
        return true;
      }
    }
    return false;
  }

  method ScanRollbackCandidate(steps: seq<Step>) returns (found: bool)
    ensures found == HasRollbackCandidate(steps)
  {
    for index := 0 to |steps|
      invariant forall i | 0 <= i < index ::
                  !(IsFinishedMutation(steps[i]) && steps[i].rollback.reference != ""
                    && !Compensated(steps, steps[i].stepID))
    {
      var step := steps[index];
      if step.phase == Apply && step.mode == Mutation && step.status != Running && step.rollback.reference != "" {
        var done := ScanCompensated(steps, step.stepID);
        if !done {
          assert step in steps && IsFinishedMutation(step);
          return true;
        }
      }
    }
    return false;
  }

  /** Does an earlier mutation already own this idempotency key? */
  method ScanKeyUsed(steps: seq<Step>, key: string) returns (used: bool)
    ensures used == exists s | s in steps :: IsMutation(s) && s.idempotency == key
  {
    for index := 0 to |steps|
      invariant forall i | 0 <= i < index :: !(IsMutation(steps[i]) && steps[i].idempotency == key)
    {
      if steps[index].mode == Mutation && steps[index].idempotency == key {
        assert steps[index] in steps;
        return true;
      }
    }
    return false;
  }

  /** Collect the components with a success in this phase, then compare with the approved ones. */
  method ScanAllSucceeded(steps: seq<Step>, phase: Phase, components: seq<string>) returns (all: bool)
    ensures all == AllSucceeded(steps, phase, components)
  {
    var succeeded := {};
    for index := 0 to |steps|
      invariant succeeded == SucceededIn(steps[..index], phase)
    {
      assert steps[..index + 1] == steps[..index] + [steps[index]];
      if steps[index].phase == phase && steps[index].status == Succeeded {
        succeeded := succeeded + {steps[index].componentID};
      }
    }
    assert steps[..|steps|] == steps;
    if |succeeded| != |components| { return false; }
    for index := 0 to |components|
      invariant forall i | 0 <= i < index :: components[i] in succeeded
    {
      if components[index] !in succeeded {
        assert components[index] in components;
        return false;
      }
    }
    return true;
  }

  method ScanCanComplete(op: Operation, components: seq<string>) returns (can: bool)
    ensures can == CanComplete(op, components)
  {
    var current := ScanInFlight(op.steps);
    if op.failure.Some? || op.rollbackStarted || current >= 0 { return false; }
    for index := 0 to |op.steps|
      invariant forall i | 0 <= i < index :: IsMutation(op.steps[i]) ==> op.steps[i].status == Succeeded
    {
      if op.steps[index].mode == Mutation && op.steps[index].status != Succeeded {
        assert op.steps[index] in op.steps && IsMutation(op.steps[index]);
        return false;
      }
    }
    can := ScanAllSucceeded(op.steps, Verify, components);
  }

  method ScanCanReportRolledBack(op: Operation) returns (can: bool)
    ensures can == CanReportRolledBack(op)
  {
    var current := ScanInFlight(op.steps);
    if !op.rollbackStarted || op.state != RollingBack || current >= 0 { return false; }
    for index := 0 to |op.steps|
      invariant forall i | 0 <= i < index ::
                  && (op.steps[i].phase == Apply && op.steps[i].mode == Mutation ==> op.steps[i].rollback.recoveryOnly == NoReason)
                  && (op.steps[i].phase == Rollback ==> op.steps[i].status != Failed)
                  && (IsFinishedMutation(op.steps[i]) ==> Compensated(op.steps, op.steps[i].stepID))
    {
      var step := op.steps[index];
      assert step in op.steps;
      if step.phase == Apply && step.mode == Mutation && step.rollback.recoveryOnly != NoReason { return false; }
      if step.phase == Rollback && step.status == Failed { return false; }
      if step.phase == Apply && step.mode == Mutation && step.status != Running {
        var done := ScanCompensated(op.steps, step.stepID);
        if !done {
          assert IsFinishedMutation(step);
          return false;
        }
      }
    }
    return true;
  }
}
