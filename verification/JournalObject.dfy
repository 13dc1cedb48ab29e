/**
 The journal as the object it is: maps and operations updated in place, a preview on a deep copy,
 an append that reaches the disk in steps, and a replay loop that rebuilds everything.
*/
module JournalObject {
  import opened Basics
  import opened Patterns
  import opened JournalModel
  import opened JournalMachine
  import opened JournalRuns
  import opened JournalScans
  import opened JournalRequests
  import opened JournalCalls
  import opened LogFrames
  import opened LogRecovery
  import opened LogCrash

  /** One operation of the projection, updated through its reference. */
  class OperationCell {
    var id: string
    var installationID: string
    var approvalID: string
    var planDigest: string
    var startedAt: Time
    var finishedAt: Time
    var state: OperationState
    var rollbackStarted: bool
    var mutationStarted: bool
    var failure: Option<FailurePoint>
    var steps: seq<Step>

    function Value(): Operation
      reads this
    {
      Operation(id, installationID, approvalID, planDigest, startedAt, finishedAt, state,
                rollbackStarted, mutationStarted, failure, steps)
    }

    constructor (op: Operation)
      ensures Value() == op
    {
      id, installationID, approvalID, planDigest := op.id, op.installationID, op.approvalID, op.planDigest;
      startedAt, finishedAt, state := op.startedAt, op.finishedAt, op.state;
      rollbackStarted, mutationStarted, failure, steps := op.rollbackStarted, op.mutationStarted, op.failure, op.steps;
    }
  }

  /** What a call reports and leaves behind agrees with a transition of the projection. */
  predicate Reports(applied: Applied, error: Option<Error>, now: State) {
    && now == applied.state
    && (if applied.Accepted? then error.None? else error == Some(applied.error))
  }

  /** The same for one operation. */
  predicate Judges(verdict: Verdict, error: Option<Error>, now: Operation) {
    && now == verdict.op
    && (if verdict.Accept? then error.None? else error == Some(verdict.error))
  }

  /** How an append can stop. */
  datatype Fault =
    | NoFault
    | SeekFails
    | WriteStops(written: nat)   // some bytes of the frame were written
    | SyncFails                  // the whole frame was written
    | HeadFails                  // before the rename of the new checkpoint
    | HeadUnsynced               // after the rename

  /** How an opening can stop. */
  datatype Trouble =
    | NoTrouble
    | Unreadable   // the log cannot be measured or read
    | Unwritten    // the truncation or the new checkpoint fails
    | Unsynced     // it takes effect, but is not confirmed

  class Journal {
    const installation: string
    const codec: Codec

    // The disk.
    var log: Bytes
    var headFile: Head

    // The handle.
    var head: Head
    var recordCount: nat
    var poisoned: bool
    var approvals: map<string, Approval>
    var operations: map<string, OperationCell>

    /** Different operations are different objects. */
    ghost predicate Valid()
      reads this`operations
    {
      forall a, b | a in operations && b in operations && a != b :: operations[a] != operations[b]
    }

    ghost function Projection(): State
      reads this`approvals, this`operations, operations.Values
    {
      State(approvals, map id | id in operations :: operations[id].Value())
    }

    ghost function OnDisk(): Disk
      reads this`log, this`headFile
    {
      Disk(log, headFile)
    }

    ghost function Held(): Handle
      reads this, operations.Values
    {
      Handle(Projection(), head, recordCount)
    }

    /** A handle with an empty projection on this disk. */
    constructor (installation: string, codec: Codec, disk: Disk)
      ensures Valid() && fresh(operations.Values)
      ensures this.installation == installation && this.codec == codec
      ensures Projection() == EMPTY && OnDisk() == disk && head == disk.head && !poisoned && recordCount == 0
    {
      this.installation, this.codec := installation, codec;
      log, headFile, head := disk.log, disk.head, disk.head;
      recordCount, poisoned := 0, false;
      approvals, operations := map[], map[];
    }

    // -------------------------------------------------------------- transitions in place

    /** The components of an approval, as the scans below need them. */
    function ApprovedComponents(approvalID: string): seq<string>
      reads this`approvals
    {
      if approvalID in approvals then ComponentIDs(approvals[approvalID].components) else []
    }

    method ApplyApproval(approval: Approval) returns (error: Option<Error>)
      requires Valid()
      modifies this`approvals
      ensures Valid() && Reports(JournalMachine.RecordApproval(old(Projection()), installation, approval), error, Projection())
    {
      if !ValidStoredApproval(approval, installation) { return Some(InvalidInput); }
      if approval.id in approvals {
        if approvals[approval.id] == approval { return None; }
        return Some(Conflict);
      }
      approvals := approvals[approval.id := CloneApproval(approval)];
      return None;
    }

    /** Is some operation bound to this approval, or still unfinished? */
    method AuthorityTaken(approvalID: string) returns (taken: bool)
      ensures taken == exists k | k in operations ::
                         operations[k].approvalID == approvalID || operations[k].finishedAt == UNSET
    {
      var todo := operations.Keys;
      while todo != {}
        invariant todo <= operations.Keys
        invariant forall k | k in operations && k !in todo ::
                    operations[k].approvalID != approvalID && operations[k].finishedAt != UNSET
        decreases todo
      {
        var k :| k in todo;
        if operations[k].approvalID == approvalID || operations[k].finishedAt == UNSET { return true; }
        todo := todo - {k};
      }
      return false;
    }

    method AddOperation(id: string, op: Operation)
      requires Valid() && id !in operations
      modifies this`operations
      ensures Valid() && fresh(operations.Values - old(operations.Values))
      ensures Projection() == Put(old(Projection()), id, op)
    {
      hide OperationCell.Value;
      var cell := new OperationCell(op);
      operations := operations[id := cell];
      assert forall k | k in old(operations) :: operations[k] == old(operations[k]);
      assert Projection().operations == old(Projection()).operations[id := op];
    }

    method ApplyOperation(id: string, approvalID: string, plan: string, at: Time) returns (error: Option<Error>)
      requires Valid()
      modifies this`operations
      ensures Valid() && fresh(operations.Values - old(operations.Values))
      ensures Reports(JournalMachine.StartOperation(old(Projection()), installation, id, approvalID, plan, at), error, Projection())
    {
      hide ValidID, ValidDigest;
      if !ValidID(id) || !ValidID(approvalID) || !ValidDigest(plan) { return Some(InvalidInput); }
      if approvalID !in approvals || approvals[approvalID].planDigest != plan || at >= approvals[approvalID].expiresAt {
        return Some(InvalidTransition);
      }
      if id in operations {
        if operations[id].approvalID == approvalID && operations[id].planDigest == plan { return None; }
        return Some(Conflict);
      }
      assert forall k | k in operations :: Projection().operations[k] == operations[k].Value();
      var clash := AuthorityTaken(approvalID);
      if clash { return Some(Conflict); }
      AddOperation(id, NewOperation(installation, id, approvalID, plan, at));
      return None;
    }

    method AllComponentsSucceeded(operation: OperationCell, phase: Phase) returns (all: bool)
      ensures all == AllSucceeded(operation.steps, phase, ApprovedComponents(operation.approvalID))
    {
      var components := ApprovedComponents(operation.approvalID);
      all := ScanAllSucceeded(operation.steps, phase, components);
    }

    /** The phase rules, with the scans in the order the source makes them. */
    method PhaseRules(operation: OperationCell, step: Step) returns (allowed: bool)
      ensures allowed == PhaseAllows(operation.Value(), ApprovedComponents(operation.approvalID), step)
    {
      match step.phase {
        case Preflight =>
          allowed := !operation.mutationStarted && !operation.rollbackStarted && operation.failure.None?
                     && operation.state in {Approved, Preflighting, RetryRequired};
        case Apply =>
          if operation.rollbackStarted || operation.failure.Some? || operation.state !in {Preflighting, Applying} {
            return false;
          }
          allowed := AllComponentsSucceeded(operation, Preflight);
        case Verify =>
          if operation.rollbackStarted || operation.failure.Some?
             || operation.state !in {Preflighting, Applying, Verifying, RetryRequired} {
            return false;
          }
          allowed := AllComponentsSucceeded(operation, Preflight);
        case Rollback =>
          if !operation.rollbackStarted || operation.state != RollingBack { return false; }
          var original := ScanEligibleMutation(operation.steps, step.compensates);
          if original < 0 || operation.steps[original].componentID != step.componentID
             || operation.steps[original].rollback.reference != step.rollback.reference {
            return false;
          }
          var done := ScanCompensated(operation.steps, operation.steps[original].stepID);
          allowed := !done;
        case OtherPhase(_) => allowed := true;
      }
    }

    method ValidateStepTransition(operation: OperationCell, step: Step) returns (error: Option<Error>)
      ensures error == StepTransitionError(operation.Value(), ApprovedComponents(operation.approvalID), step)
    {
      if IsTerminal(operation.state) || operation.finishedAt != UNSET
         || step.componentID !in ApprovedComponents(operation.approvalID) {
        return Some(InvalidTransition);
      }
      var prior := ScanLatestStep(operation.steps, step.stepID);
      if prior >= 0 {
        var latest := operation.steps[prior];
        if !step.retry || step.attempt != Successor(latest.attempt) || latest.mode != ReadOnly
           || latest.reason != INTERRUPTED_RETRY {
          return Some(Conflict);
        }
      } else if step.attempt != 1 || step.retry {
        return Some(InvalidTransition);
      }
      if step.mode == Mutation {
        var used := ScanKeyUsed(operation.steps, step.idempotency);
        if used { return Some(Conflict); }
      }
      var allowed := PhaseRules(operation, step);
      return if allowed then None else Some(InvalidTransition);
    }

    /**
     Closes an interrupted attempt before the new one is checked, so a refusal here can still have
     changed the operation.
    */
    method StartStepOn(operation: OperationCell, step: Step) returns (error: Option<Error>)
      modifies operation
      ensures operation.approvalID == old(operation.approvalID)
      ensures Judges(StartStep(old(operation.Value()), ApprovedComponents(operation.approvalID), step), error, operation.Value())
    {
      hide StepTransitionError, ValidStoredStep, InFlight, FindStep, IsRunning, Successor;
      if !ValidStoredStep(step) { return Some(InvalidInput); }
      var found := ScanFindStep(operation.steps, step.stepID, step.attempt);
      if found >= 0 {
        if operation.steps[found] == step.(recovered := operation.steps[found].recovered) { return None; }
        return Some(Conflict);
      }
      var current := ScanInFlight(operation.steps);
      if current >= 0 {
        if !Retries(operation.steps[current], step) { return Some(InvalidTransition); }
        operation.steps := operation.steps[current := Interrupted(operation.steps[current], step.startedAt)];
      }
      assert operation.Value() == CloseAttempt(old(operation.Value()), current, step.startedAt);
      error := ValidateStepTransition(operation, step);
      if error.Some? { return; }
      operation.steps := operation.steps + [step];
      if step.mode == Mutation { operation.mutationStarted := true; }
      operation.state := PhaseState(step.phase, operation.state);
    }

    method FinishStepOn(operation: OperationCell, finish: StepFinish) returns (error: Option<Error>)
      modifies operation
      ensures Judges(JournalMachine.FinishStep(old(operation.Value()), finish), error, operation.Value())
    {
      hide ValidResult, InFlight, FindStep, IsRunning;
      if operation.finishedAt != UNSET { return Some(InvalidTransition); }
      if !ValidResult(finish) || finish.finishedAt == UNSET { return Some(InvalidInput); }
      var found := ScanFindStep(operation.steps, finish.stepID, finish.attempt);
      if found < 0 { return Some(NotFound); }
      var step := operation.steps[found];
      if step.status != Running {
        if step.status == finish.status && step.result == finish.result && step.reason == finish.reason
           && step.finishedAt == finish.finishedAt {
          return None;
        }
        return Some(Conflict);
      }
      var current := ScanInFlight(operation.steps);
      if current != found { return Some(InvalidTransition); }
      if finish.reconciles && step.mode != Mutation { return Some(InvalidTransition); }
      step := Finished(step, finish);
      operation.steps := operation.steps[found := step];
      if finish.status == Failed {
        operation.failure := Some(FailureOf(step));
        operation.state := if step.phase == Rollback then NeedsRecovery else HasFailed;
      } else {
        operation.state := PhaseState(step.phase, operation.state);
      }
      return None;
    }

    method CancelOn(operation: OperationCell, at: Time) returns (error: Option<Error>)
      modifies operation
      ensures Judges(JournalMachine.Cancel(old(operation.Value()), at), error, operation.Value())
    {
      hide InFlight;
      if operation.state == Cancelled { return None; }
      var current := ScanInFlight(operation.steps);
      if operation.mutationStarted || current >= 0 || operation.state !in {Approved, Preflighting} {
        return Some(InvalidTransition);
      }
      operation.state := Cancelled;
      operation.finishedAt := at;
      return None;
    }

    method RollbackOn(operation: OperationCell) returns (error: Option<Error>)
      modifies operation
      ensures Judges(JournalMachine.BeginRollback(old(operation.Value())), error, operation.Value())
    {
      hide InFlight, HasRollbackCandidate;
      if operation.rollbackStarted { return None; }
      var current := ScanInFlight(operation.steps);
      var candidate := ScanRollbackCandidate(operation.steps);
      if operation.state !in {Applying, Verifying, HasFailed} || !operation.mutationStarted || current >= 0
         || operation.finishedAt != UNSET || !candidate {
        return Some(InvalidTransition);
      }
      operation.rollbackStarted := true;
      operation.state := RollingBack;
      return None;
    }

    method SealOn(operation: OperationCell, outcome: Outcome, at: Time) returns (error: Option<Error>)
      modifies operation
      ensures operation.approvalID == old(operation.approvalID)
      ensures Judges(Seal(old(operation.Value()), ApprovedComponents(operation.approvalID), outcome, at), error, operation.Value())
    {
      hide InFlight, CanComplete, CanReportRolledBack;
      if Wanted(outcome) == Some(operation.state) && operation.finishedAt != UNSET { return None; }
      var current := ScanInFlight(operation.steps);
      if current >= 0 && outcome != ToRecovery { return Some(InvalidTransition); }
      var allowed;
      match outcome {
        case ToComplete => allowed := ScanCanComplete(operation.Value(), ApprovedComponents(operation.approvalID));
        case ToFailed => allowed := operation.state == HasFailed && !operation.mutationStarted;
        case ToRecovery =>
          var interrupted := current >= 0 && operation.steps[current].mode == Mutation
                             && operation.state in {Applying, RollingBack, NeedsRecovery};
          var possiblyLive := operation.mutationStarted && operation.finishedAt == UNSET;
          allowed := operation.state == NeedsRecovery || interrupted || possiblyLive;
        case ToRolledBack => allowed := ScanCanReportRolledBack(operation.Value());
        case OtherOutcome(_) => return Some(InvalidInput);
      }
      if !allowed { return Some(InvalidTransition); }
      operation.state := Wanted(outcome).value;
      operation.finishedAt := at;
      return None;
    }

    method DecideOn(operation: OperationCell, e: Event) returns (error: Option<Error>)
      requires Target(e).Some?
      modifies operation
      ensures Judges(Decide(old(operation.Value()), old(ApprovedComponents(operation.approvalID)), e), error, operation.Value())
    {
      hide StartStep, JournalMachine.FinishStep, JournalMachine.Cancel, JournalMachine.BeginRollback, Seal;
      match e.body {
        case StepStarted(step) => error := StartStepOn(operation, step);
        case StepFinished(finish) => error := FinishStepOn(operation, finish);
        case OperationCancelled(_) => error := CancelOn(operation, e.observedAt);
        case RollbackStarted(_) => error := RollbackOn(operation);
        case OperationFinished(_, outcome) => error := SealOn(operation, outcome, e.observedAt);
      }
    }

    /** Look the operation up and let the event act on it. */
    method ApplyToOperation(e: Event) returns (error: Option<Error>)
      requires Valid() && Target(e).Some? && TimesAgree(e)
      modifies operations.Values
      ensures Valid() && Reports(Transition(old(Projection()), installation, e), error, Projection())
    {
      hide Decide, TimesAgree;
      var id := Target(e).value;
      if id !in operations { return Some(NotFound); }
      var operation := operations[id];
      ghost var before := Projection();
      assert before.operations[id] == operation.Value();
      error := DecideOn(operation, e);
      assert Projection() == Put(before, id, operation.Value());
    }

    /** The single transition entry, used by live calls and by replay. */
    method ApplyRecord(e: Event) returns (error: Option<Error>)
      requires Valid()
      modifies this`approvals, this`operations, operations.Values
      ensures Valid() && fresh(operations.Values - old(operations.Values))
      ensures Reports(Transition(old(Projection()), installation, e), error, Projection())
    {
      hide JournalMachine.StartOperation, JournalMachine.RecordApproval, Decide;
      if !TimesAgree(e) { return Some(InvalidTransition); }
      match e.body {
        case ApprovalRecorded(a) => error := ApplyApproval(a);
        case OperationStarted(id, approvalID, plan) => error := ApplyOperation(id, approvalID, plan, e.observedAt);
        case _ => error := ApplyToOperation(e);
      }
    }

    // -------------------------------------------------------------- preview and append

    ghost function CopiedSoFar(todo: set<string>): State
      reads this, operations.Values
    {
      State(approvals, map k | k in operations && k !in todo :: operations[k].Value())
    }

    lemma CopiedNext(todo: set<string>, k: string)
      requires k in todo && k in operations
      ensures CopiedSoFar(todo - {k}) == Put(CopiedSoFar(todo), k, operations[k].Value())
      ensures k !in CopiedSoFar(todo).operations
    {
      assert CopiedSoFar(todo - {k}).operations == CopiedSoFar(todo).operations[k := operations[k].Value()];
    }

    lemma CopiedEnds()
      ensures CopiedSoFar(operations.Keys) == State(approvals, map[]) && CopiedSoFar({}) == Projection()
    {
      assert CopiedSoFar(operations.Keys).operations == map[];
      assert CopiedSoFar({}).operations == Projection().operations;
    }

    /** A separate journal with the same projection: no cell is shared. */
    method DeepCopy() returns (copy: Journal)
      requires Valid()
      ensures fresh(copy) && copy.Valid() && fresh(copy.operations.Values)
      ensures copy.installation == installation && copy.Projection() == Projection()
    {
      hide CopiedSoFar;
      copy := new Journal(installation, codec, Disk(log, headFile));
      copy.approvals := approvals;
      CopiedEnds();
      var todo := operations.Keys;
      while todo != {}
        invariant todo <= operations.Keys && copy.Valid()
        invariant fresh(copy) && fresh(copy.operations.Values)
        invariant copy.Projection() == CopiedSoFar(todo)
        decreases todo
      {
        var k :| k in todo;
        CopiedNext(todo, k);
        assert k !in copy.Projection().operations;
        copy.AddOperation(k, operations[k].Value());
        todo := todo - {k};
      }
    }

    /** Would this event be accepted? The answer comes from the copy, which is then dropped. */
    method Preview(e: Event) returns (error: Option<Error>)
      requires Valid()
      ensures if ValidRecord(NextRecord(installation, Held(), e))
              then Reports(Transition(Projection(), installation, e), error, After(Projection(), installation, e))
              else error == Some(InvalidInput)
    {
      hide Transition, ValidRecord;
      if !ValidRecord(Record(head.sequence + 1, head.digest, installation, e)) { return Some(InvalidInput); }
      var copy := DeepCopy();
      error := copy.ApplyRecord(e);
    }

    /** Header and payload copied into one buffer. */
    method EncodeFrame(payload: Bytes) returns (frame: Option<Bytes>)
      requires |codec.sha(payload)| == DIGEST_SIZE
      ensures frame == if FitsFrame(payload) then Some(Frame(codec, payload)) else None
    {
      hide BigEndian, ReadBigEndian;
      if |payload| == 0 || |payload| > MAX_PAYLOAD { return None; }
      var digest, length := codec.sha(payload), BigEndian(|payload|);
      var buffer := new byte[HEADER_SIZE + |payload|];
      forall i | 0 <= i < 8 { buffer[i] := MAGIC[i]; }
      forall i | 8 <= i < 12 { buffer[i] := length[i - 8]; }
      forall i | 12 <= i < HEADER_SIZE { buffer[i] := digest[i - 12]; }
      forall i | HEADER_SIZE <= i < buffer.Length { buffer[i] := payload[i - HEADER_SIZE]; }
      assert buffer[..] == buffer[..8] + buffer[8..12] + buffer[12..HEADER_SIZE] + buffer[HEADER_SIZE..];
      assert buffer[..8] == MAGIC && buffer[8..12] == length && buffer[12..HEADER_SIZE] == digest;
      assert buffer[HEADER_SIZE..] == payload;
      return Some(buffer[..]);
    }

    /** The record that an append of this event would write. */
    ghost function Next(e: Event): Record
      reads this`head
    {
      Record(head.sequence + 1, head.digest, installation, e)
    }

    /** Everything an append checks before it touches the log. */
    ghost predicate Encodes(e: Event)
      reads this
    {
      var r := Record(head.sequence + 1, head.digest, installation, e);
      ValidRecord(r) && recordCount < MAX_RECORDS && FitsFrame(codec.encode(r))
    }

    ghost predicate Fits(e: Event)
      reads this
    {
      |log| + |FrameOf(codec, Record(head.sequence + 1, head.digest, installation, e))| <= MAX_LOG
    }

    /** Write the frame, sync it, replace the checkpoint: each step may be the last. */
    method AppendRecord(e: Event, fault: Fault) returns (error: Option<Error>)
      requires ValidCodec(codec)
      modifies this`log, this`headFile, this`head, this`recordCount, this`poisoned
      ensures error == if old(poisoned) then Some(RecoveryRequired) else old(AppendAnswer(codec, Next(e), recordCount, |log|, fault))
      ensures old(poisoned) || !old(Encodes(e)) || (fault != SeekFails && !old(Fits(e))) ==>
                OnDisk() == old(OnDisk()) && head == old(head) && recordCount == old(recordCount)
                && poisoned == old(poisoned)
      ensures !old(poisoned) && old(Encodes(e)) && (fault == SeekFails || old(Fits(e))) ==>
                var r := old(Record(head.sequence + 1, head.digest, installation, e));
                var next := Head(r.sequence, codec.sha(codec.encode(r)));
                && OnDisk() == Disk(old(log) + FrameOf(codec, r)[..Written(fault, |FrameOf(codec, r)|)],
                                    if fault in {NoFault, HeadUnsynced} then next else old(headFile))
                && (if fault == NoFault
                    then !poisoned && head == next && recordCount == old(recordCount) + 1
                    else poisoned && head == old(head) && recordCount == old(recordCount))
    {
      hide ValidRecord, Frame;
      if poisoned { return Some(RecoveryRequired); }
      if recordCount >= MAX_RECORDS { return Some(Limit); }
      var record := Record(head.sequence + 1, head.digest, installation, e);
      if !ValidRecord(record) { return Some(InvalidInput); }
      var payload := codec.encode(record);
      var encoded := EncodeFrame(payload);
      if encoded.None? { return Some(Limit); }
      var frame := encoded.value;
      if fault == SeekFails { poisoned := true; return Some(Storage); }
      if |log| + |frame| > MAX_LOG { return Some(Limit); }
      if fault.WriteStops? {
        log := log + frame[..Written(fault, |frame|)];
        poisoned := true;
        return Some(Storage);
      }
      log := log + frame;
      if fault == SyncFails { poisoned := true; return Some(Storage); }
      var next := Head(record.sequence, codec.sha(payload));
      if fault == HeadFails { poisoned := true; return Some(Storage); }
      headFile := next;
      if fault == HeadUnsynced { poisoned := true; return Some(Storage); }
      head := next;
      recordCount := recordCount + 1;
      return None;
    }

    // -------------------------------------------------------------- preview, append, apply

    /** The disk and the handle moved exactly as that action moves them. */
    twostate predicate Submitted(e: Event, fault: Fault)
      reads this, operations.Values
    {
      var sys := Act(codec, installation, System(old(OnDisk()), Some(old(Held())), [], None), old(ActionTaken(codec, installation, OnDisk(), Held(), e, fault)));
      && OnDisk() == sys.disk
      && (poisoned <==> sys.handle.None?)
      && (if poisoned then Projection() == old(Projection()) else Held() == sys.handle.value)
    }

    twostate predicate Untouched()
      reads this, operations.Values
    {
      OnDisk() == old(OnDisk()) && Held() == old(Held()) && poisoned == old(poisoned)
    }

    lemma AppendedIs(e: Event)
      requires ValidRecord(NextRecord(installation, Held(), e)) && Accepts(Projection(), installation, e)
      ensures Writes(codec, installation, OnDisk(), Held(), e) <==> Encodes(e) && Fits(e)
    {
      hide ValidRecord, Accepts, Frame;
    }

    /**
     Preview on the copy, append, apply. Because the preview ran the same transition, the apply after
     the append cannot fail, and the operation the record names is there: both poisoning branches of
     the source are dead.
    */
    method Submit(e: Event, fault: Fault) returns (error: Option<Error>)
      requires Valid() && ValidCodec(codec) && !poisoned
      modifies this`approvals, this`operations, operations.Values, this`log, this`headFile, this`head,
               this`recordCount, this`poisoned
      ensures Valid() && Submitted(e, fault)
      ensures error.None? ==> Projection() == old(After(Projection(), installation, e)) && old(Accepts(Projection(), installation, e))
      ensures error == old(SubmitAnswer(codec, installation, OnDisk(), Held(), e, fault))
      ensures fresh(operations.Values - old(operations.Values))
    {
      hide Projection, Valid, ValidRecord, ValidShape, Transition, FrameOf, Act, FitsFrame, Names;
      ghost var before := Projection();
      RecordShape(NextRecord(installation, Held(), e));
      NotWritten(codec, installation, OnDisk(), Held(), e);
      error := Preview(e);
      if error.Some? { return; }
      AppendedIs(e);
      WrittenAs(codec, installation, OnDisk(), Held(), e, fault);
      error := AppendRecord(e, fault);
      assert Projection() == before;
      if error.Some? { return; }
      error := ApplyRecord(e);
      if error.Some? { assert false; }
      var name := Names(e);
      if name.Some? && name.value !in operations {
        AcceptedNames(before, installation, e);
        KnownOperations();
        assert false;
      }
    }

    lemma KnownOperations()
      ensures Projection().operations.Keys == operations.Keys
    {
    }

    // -------------------------------------------------------------- the public calls

    /** The handle gives the reply: an answer that leaves everything as it was, or the record it asks for. */
    twostate predicate Served(reply: Reply, new error: Option<Error>, new submitted: Option<Event>, fault: Fault)
      reads this, operations.Values
    {
      if old(poisoned) then submitted.None? && error == Some(RecoveryRequired) && Untouched()
      else match reply
        case Answer(answer) => submitted.None? && error == answer && Untouched()
        case Submission(e) =>
          && submitted == Some(e) && Submitted(e, fault)
          && (error.None? ==> Projection() == old(After(Projection(), installation, e)) && old(Accepts(Projection(), installation, e)))
          && error == old(SubmitAnswer(codec, installation, OnDisk(), Held(), e, fault))
    }

    /** The tail of an approval call: an exact duplicate is a read, anything else is recorded. */
    method RecordApproval(requested: Approval, now: Time, fault: Fault)
      returns (error: Option<Error>, ghost submitted: Option<Event>)
      requires Valid() && ValidCodec(codec)
      modifies this`approvals, this`operations, operations.Values, this`log, this`headFile, this`head,
               this`recordCount, this`poisoned
      ensures Valid() && fresh(operations.Values - old(operations.Values))
      ensures Served(old(ApproveReply(Projection(), requested, now)), error, submitted, fault)
    {
      hide Submitted, SubmitAnswer;
      submitted := None;
      if poisoned { error := Some(RecoveryRequired); return; }
      var approval := requested.(issuedAt := now);
      if requested.id in approvals {
        var existing := approvals[requested.id];
        approval := approval.(issuedAt := existing.issuedAt);
        if existing == approval { error := None; } else { error := Some(Conflict); }
        return;
      }
      if now >= approval.expiresAt { error := Some(Expired); return; }
      submitted := Some(Event(now, ApprovalRecorded(approval)));
      error := Submit(Event(now, ApprovalRecorded(approval)), fault);
    }

    method StartOperation(id: string, approvalID: string, plan: string, now: Time, fault: Fault)
      returns (error: Option<Error>, ghost submitted: Option<Event>)
      requires Valid() && ValidCodec(codec)
      modifies this`approvals, this`operations, operations.Values, this`log, this`headFile, this`head,
               this`recordCount, this`poisoned
      ensures Valid() && fresh(operations.Values - old(operations.Values))
      ensures Served(old(StartReply(Projection(), id, approvalID, plan, now)), error, submitted, fault)
    {
      hide Submitted, SubmitAnswer, ValidID, ValidDigest;
      submitted := None;
      if poisoned { error := Some(RecoveryRequired); return; }
      if !ValidID(id) || !ValidID(approvalID) || !ValidDigest(plan) { error := Some(InvalidInput); return; }
      if id in operations {
        if operations[id].approvalID == approvalID && operations[id].planDigest == plan { error := None; }
        else { error := Some(Conflict); }
        return;
      }
      if approvalID !in approvals { error := Some(NotFound); return; }
      if now >= approvals[approvalID].expiresAt { error := Some(Expired); return; }
      if approvals[approvalID].planDigest != plan { error := Some(Conflict); return; }
      submitted := Some(Event(now, OperationStarted(id, approvalID, plan)));
      error := Submit(Event(now, OperationStarted(id, approvalID, plan)), fault);
    }

    /** The record of a step about to start; it is a retry when a reopen left its last attempt running. */
    method CandidateFor(operation: OperationCell, input: Step, now: Time) returns (candidate: Step)
      ensures candidate == Candidate(operation.Value(), input, now)
    {
      hide InFlight;
      candidate := Step(input.operationID, input.stepID, input.componentID, input.phase, input.mode, input.attempt,
                        input.idempotency, input.rollback, input.compensates, now, UNSET, Running, "", "", false, false);
      var current := ScanInFlight(operation.steps);
      if current >= 0 {
        var running := operation.steps[current];
        if running.recovered && running.mode == ReadOnly && running.stepID == input.stepID
           && running.componentID == input.componentID && running.phase == input.phase
           && input.attempt == Successor(running.attempt) {
          candidate := candidate.(retry := true);
        }
      }
    }

    /** What a request to begin a step comes to. */
    method BeginFor(input: Step, now: Time) returns (reply: Reply)
      requires Valid()
      ensures reply == BeginReply(Projection(), input, now)
    {
      hide ValidStepInput, RetriesRecovered, FindStep;
      if !ValidStepInput(input) { return Answer(Some(InvalidInput)); }
      if input.operationID !in operations { return Answer(Some(NotFound)); }
      var operation := operations[input.operationID];
      assert Projection().operations[input.operationID] == operation.Value();
      var candidate := CandidateFor(operation, input, now);
      var found := ScanFindStep(operation.steps, input.stepID, input.attempt);
      if found >= 0 {
        return Answer(if SameCall(operation.steps[found], candidate) then None else Some(Conflict));
      }
      reply := Submission(Event(now, StepStarted(candidate)));
    }

    /** Intent before work. `input` carries the caller's fields; times, status and flags are set here. */
    method BeginStep(input: Step, now: Time, fault: Fault)
      returns (error: Option<Error>, ghost submitted: Option<Event>)
      requires Valid() && ValidCodec(codec)
      modifies this`approvals, this`operations, operations.Values, this`log, this`headFile, this`head,
               this`recordCount, this`poisoned
      ensures Valid() && fresh(operations.Values - old(operations.Values))
      ensures Served(old(BeginReply(Projection(), input, now)), error, submitted, fault)
    {
      hide Act, ActionTaken, SubmitAnswer, BeginReply;
      submitted := None;
      if poisoned { error := Some(RecoveryRequired); return; }
      var reply := BeginFor(input, now);
      if reply.Answer? { error := reply.error; return; }
      submitted := Some(reply.e);
      error := Submit(reply.e, fault);
    }

    /** What a request to finish a step comes to. */
    method FinishFor(input: StepFinish, now: Time) returns (reply: Reply)
      requires Valid()
      ensures reply == FinishReply(Projection(), input, now)
    {
      hide ValidResult, FindStep;
      if !ValidResult(input) { return Answer(Some(InvalidInput)); }
      if input.operationID !in operations { return Answer(Some(NotFound)); }
      var operation := operations[input.operationID];
      assert Projection().operations[input.operationID] == operation.Value();
      var found := ScanFindStep(operation.steps, input.stepID, input.attempt);
      if found < 0 { return Answer(Some(NotFound)); }
      var step := operation.steps[found];
      if step.status != Running { return Answer(if SameResult(step, input) then None else Some(Conflict)); }
      if step.recovered && step.mode == ReadOnly { return Answer(Some(InvalidTransition)); }
      var finish := input.(finishedAt := now, reconciles := step.recovered && step.mode == Mutation);
      reply := Submission(Event(now, StepFinished(finish)));
    }

    method FinishStep(input: StepFinish, now: Time, fault: Fault)
      returns (error: Option<Error>, ghost submitted: Option<Event>)
      requires Valid() && ValidCodec(codec)
      modifies this`approvals, this`operations, operations.Values, this`log, this`headFile, this`head,
               this`recordCount, this`poisoned
      ensures Valid() && fresh(operations.Values - old(operations.Values))
      ensures Served(old(FinishReply(Projection(), input, now)), error, submitted, fault)
    {
      hide Act, ActionTaken, SubmitAnswer, FinishReply;
      submitted := None;
      if poisoned { error := Some(RecoveryRequired); return; }
      var reply := FinishFor(input, now);
      if reply.Answer? { error := reply.error; return; }
      submitted := Some(reply.e);
      error := Submit(reply.e, fault);
    }

    /** What a request to conclude comes to. */
    method ConcludeFor(body: Body, now: Time) returns (reply: Reply)
      requires Valid() && Concludes(body)
      ensures reply == ConcludeReply(Projection(), body, now)
    {
      hide ValidID;
      if !ValidID(body.operationID) || (body.OperationFinished? && Wanted(body.outcome).None?) {
        return Answer(Some(InvalidInput));
      }
      if body.operationID in operations {
        var operation := operations[body.operationID];
        assert Projection().operations[body.operationID] == operation.Value();
        var done := match body
          case OperationCancelled(_) => operation.state == Cancelled
          case RollbackStarted(_) => operation.rollbackStarted
          case OperationFinished(_, outcome) => Wanted(outcome) == Some(operation.state) && operation.finishedAt != UNSET
          case _ => false;
        if done { return Answer(None); }
      }
      reply := Submission(Event(now, body));
    }

    /** Cancel, begin a rollback, or seal: the calls that name an operation and nothing it contains. */
    method Conclude(body: Body, now: Time, fault: Fault) returns (error: Option<Error>, ghost submitted: Option<Event>)
      requires Valid() && ValidCodec(codec) && Concludes(body)
      modifies this`approvals, this`operations, operations.Values, this`log, this`headFile, this`head,
               this`recordCount, this`poisoned
      ensures Valid() && fresh(operations.Values - old(operations.Values))
      ensures Served(old(ConcludeReply(Projection(), body, now)), error, submitted, fault)
    {
      hide Act, ActionTaken, SubmitAnswer, ConcludeReply;
      submitted := None;
      if poisoned { error := Some(RecoveryRequired); return; }
      var reply := ConcludeFor(body, now);
      if reply.Answer? { error := reply.error; return; }
      submitted := Some(reply.e);
      error := Submit(reply.e, fault);
    }

    /** Any public call that may write. */
    method Perform(call: Call, now: Time, fault: Fault) returns (error: Option<Error>, ghost submitted: Option<Event>)
      requires Valid() && ValidCodec(codec)
      modifies this`approvals, this`operations, operations.Values, this`log, this`headFile, this`head,
               this`recordCount, this`poisoned
      ensures Valid() && fresh(operations.Values - old(operations.Values))
      ensures Served(old(ReplyTo(Projection(), call, now)), error, submitted, fault)
    {
      hide Served, ApproveReply, StartReply, BeginReply, FinishReply, ConcludeReply;
      match call {
        case ApproveCall(requested) => error, submitted := RecordApproval(requested, now, fault);
        case StartCall(id, approvalID, plan) => error, submitted := StartOperation(id, approvalID, plan, now, fault);
        case BeginCall(step) => error, submitted := BeginStep(step, now, fault);
        case FinishCall(finish) => error, submitted := FinishStep(finish, now, fault);
        case _ => error, submitted := Conclude(BodyOf(call), now, fault);
      }
    }

    /** The unfinished operation, whatever order the map yields its keys in: there is no second one. */
    method ActiveOperation() returns (r: Result<Option<string>, Error>)
      requires Valid()
      ensures poisoned ==> r == Err(RecoveryRequired)
      ensures !poisoned ==> r.Ok?
      ensures r == Ok(None) ==> forall k | k in operations :: operations[k].finishedAt != UNSET
      ensures r.Ok? && r.value.Some? ==>
                r.value.value in operations && operations[r.value.value].finishedAt == UNSET
      ensures r.Ok? && r.value.Some? && SoleAuthority(Projection()) ==>
                forall k | k in operations && operations[k].finishedAt == UNSET :: k == r.value.value
    {
      if poisoned { return Err(RecoveryRequired); }
      var todo := operations.Keys;
      while todo != {}
        invariant todo <= operations.Keys
        invariant forall k | k in operations && k !in todo :: operations[k].finishedAt != UNSET
        decreases todo
      {
        var k :| k in todo;
        if operations[k].finishedAt == UNSET {
          assert Projection().operations[k].finishedAt == UNSET;
          assert forall other | other in operations :: Projection().operations[other].finishedAt == operations[other].finishedAt;
          return Ok(Some(k));
        }
        todo := todo - {k};
      }
      r := Ok(None);
    }

    // -------------------------------------------------------------- recovery

    method MarkOn(operation: OperationCell)
      modifies operation
      ensures operation.Value() == Mark(old(operation.Value()))
    {
      hide InFlight;
      var current := ScanInFlight(operation.steps);
      if current >= 0 {
        operation.state := if operation.steps[current].mode == Mutation then NeedsRecovery else RetryRequired;
        operation.steps := operation.steps[current := operation.steps[current].(recovered := true)];
      }
    }

    /** Relabel, in whatever order the map yields them, the operations whose newest step runs. */
    method MarkInterruptedSteps()
      requires Valid()
      modifies operations.Values
      ensures Projection() == MarkAll(old(Projection()))
    {
      hide Mark;
      var todo := operations.Keys;
      while todo != {}
        invariant todo <= operations.Keys
        invariant forall k | k in operations ::
                    operations[k].Value() == if k in todo then old(operations[k].Value()) else Mark(old(operations[k].Value()))
        decreases todo
      {
        var k :| k in todo;
        MarkOn(operations[k]);
        todo := todo - {k};
      }
      assert Projection().operations == MarkAll(old(Projection())).operations;
    }

    /** Where the loop stands. */
    ghost function At(offset: nat, sequence: nat, digest: Bytes): Cursor
      reads this`approvals, this`operations, operations.Values
    {
      Cursor(offset, sequence, digest, Projection())
    }

    /** One whole frame: check its envelope, apply its event, compare with the checkpoint. */
    method ReplayOne(record: Record, payload: Bytes, offset: nat, sequence: nat, digest: Bytes)
      returns (error: Option<Error>)
      requires Valid()
      modifies this`approvals, this`operations, operations.Values
      ensures Valid() && fresh(operations.Values - old(operations.Values))
      ensures var moved := Advance(codec, installation, head, old(At(offset, sequence, digest)), payload, record);
              if moved.Ok?
              then error.None? && moved.value == At(offset + HEADER_SIZE + |payload|, record.sequence, codec.sha(payload))
              else error == Some(moved.error)
    {
      hide Transition;
      if record.sequence != sequence + 1 || record.previous != digest || record.installation != installation {
        return Some(Corrupt);
      }
      var refused := ApplyRecord(record.event);
      if refused.Some? { return Some(Corrupt); }
      var sum := codec.sha(payload);
      if record.sequence == head.sequence && sum != head.digest { return Some(Corrupt); }
      if record.sequence > head.sequence + 1 { return Some(Corrupt); }
      if record.sequence > MAX_RECORDS { return Some(Limit); }
      return None;
    }

    /** The handle and the disk are what `opening` says, unless something stops the repair it needs. */
    ghost predicate Answered(opening: Opening, before: Disk, trouble: Trouble, error: Option<Error>, truncated: nat, repaired: bool)
      reads this, operations.Values
    {
      if opening.CannotOpen? then error == Some(opening.error) && OnDisk() == before
      else if (opening.truncated > 0 || opening.repaired) && trouble != NoTrouble then
        error == Some(Storage) && OnDisk() == (if trouble == Unsynced then opening.disk else before)
      else
        && error.None? && OnDisk() == opening.disk
        && Held() == Handle(opening.state, opening.head, opening.count)
        && truncated == opening.truncated && repaired == opening.repaired
    }

    /** Cut a torn tail. */
    method TruncateTail(offset: nat, sequence: nat, ghost digest: Bytes, trouble: Trouble)
      returns (error: Option<Error>, truncated: nat)
      requires Valid() && offset < |log|
      modifies this`log, this`recordCount, operations.Values
      ensures Valid()
      ensures Answered(old(Opened(MarkAll(Projection()), head, sequence, TruncatedTo(OnDisk(), offset), |log| - offset, false)),
                       old(OnDisk()), trouble, error, truncated, false)
    {
      hide Projection, MarkAll, Valid;
      truncated := |log| - offset;
      if trouble == Unreadable || trouble == Unwritten { return Some(Storage), 0; }
      log := log[..offset];
      if trouble == Unsynced { return Some(Storage), 0; }
      recordCount := sequence;
      MarkInterruptedSteps();
      error := None;
    }

    /** After the last frame: refuse a log that does not reach the checkpoint, or move a stale one. */
    method RepairHead(offset: nat, sequence: nat, digest: Bytes, trouble: Trouble) returns (error: Option<Error>, repaired: bool)
      requires Valid() && head == headFile
      modifies this`headFile, this`head, this`recordCount, operations.Values
      ensures Valid()
      ensures Answered(old(Checkpoint(OnDisk(), At(offset, sequence, digest))), old(OnDisk()), trouble, error, 0, repaired)
    {
      hide Projection, MarkAll, Valid;
      if sequence < head.sequence || (sequence == head.sequence && digest != head.digest) { return Some(Corrupt), false; }
      repaired := sequence > head.sequence;
      if repaired {
        if sequence != head.sequence + 1 { return Some(Corrupt), false; }
        if trouble == Unreadable || trouble == Unwritten { return Some(Storage), false; }
        headFile := Head(sequence, digest);
        if trouble == Unsynced { return Some(Storage), false; }
        head := headFile;
      }
      recordCount := sequence;
      MarkInterruptedSteps();
      error := None;
    }

    /** Rebuild the projection from the log, then settle the disk. */
    method Replay(trouble: Trouble) returns (error: Option<Error>, truncated: nat, repaired: bool)
      requires Valid() && Projection() == EMPTY && head == headFile
      modifies this`approvals, this`operations, operations.Values, this`log, this`headFile, this`head, this`recordCount
      ensures Valid() && fresh(operations.Values - old(operations.Values))
      ensures if trouble == Unreadable && ValidHead(old(headFile)) then error == Some(Storage) && OnDisk() == old(OnDisk())
              else Answered(Open(codec, installation, old(OnDisk())), old(OnDisk()), trouble, error, truncated, repaired)
    {
      hide ReadPiece, Advance, MarkAll, Checkpoint;
      truncated, repaired := 0, false;
      if !ValidHead(head) { return Some(Corrupt), 0, false; }
      if trouble == Unreadable { return Some(Storage), 0, false; }
      if |log| > MAX_LOG { return Some(Limit), 0, false; }
      var offset: nat, sequence: nat, digest: Bytes := 0, 0, ZERO_DIGEST;
      ghost var scan := ScanFrom(codec, installation, head, log, START);
      while offset < |log|
        invariant log == old(log) && head == old(head) && headFile == old(headFile)
        invariant Valid() && offset <= |log| && fresh(operations.Values - old(operations.Values))
        invariant scan == ScanFrom(codec, installation, head, log, At(offset, sequence, digest))
        decreases |log| - offset
      {
        MoreToRead(codec, log, offset);
        match ReadPiece(codec, log, offset) {
          case End => assert false;
          case Fragment =>
            if sequence == head.sequence && digest == head.digest {
              error, truncated := TruncateTail(offset, sequence, digest, trouble);
              return;
            }
            return Some(Corrupt), 0, false;
          case Broken(broken) => return Some(broken), 0, false;
          case Whole(payload, record) =>
            var refused := ReplayOne(record, payload, offset, sequence, digest);
            if refused.Some? { return refused, 0, false; }
            offset, sequence, digest := offset + HEADER_SIZE + |payload|, record.sequence, codec.sha(payload);
        }
      }
      EndOfLog(codec, log);
      error, repaired := RepairHead(offset, sequence, digest, trouble);
    }
  }

  lemma MoreToRead(c: Codec, log: Bytes, offset: nat)
    requires offset < |log|
    ensures !ReadPiece(c, log, offset).End?
  {
    assert log[offset..] != [];
  }

  /** What an append answers: the refusals before the first write in the source's order, then the fault. */
  function AppendAnswer(c: Codec, r: Record, count: nat, size: nat, fault: Fault): Option<Error> {
    if count >= MAX_RECORDS then Some(Limit)
    else if !ValidRecord(r) then Some(InvalidInput)
    else if !FitsFrame(c.encode(r)) then Some(Limit)
    else if fault == SeekFails then Some(Storage)
    else if size + |FrameOf(c, r)| > MAX_LOG then Some(Limit)
    else if fault == NoFault then None
    else Some(Storage)
  }

  /** What submitting a record answers: the refusals of the preview, then those of the append. */
  function SubmitAnswer(c: Codec, installation: string, disk: Disk, h: Handle, e: Event, fault: Fault): Option<Error> {
    var r := NextRecord(installation, h, e);
    if !ValidRecord(r) then Some(InvalidInput)
    else match Transition(h.state, installation, e)
      case Rejected(error, _) => Some(error)
      case Accepted(_) => AppendAnswer(c, r, h.count, |disk.log|, fault)
  }

  /** A submission succeeds exactly when it gets as far as writing and nothing stops it. */
  lemma SucceedsExactly(c: Codec, installation: string, disk: Disk, h: Handle, e: Event, fault: Fault)
    ensures SubmitAnswer(c, installation, disk, h, e, fault).None?
      <==> Writes(c, installation, disk, h, e) && fault == NoFault
  {
    hide Transition, Frame, ValidID, FitsFrame, ValidShape;
    RecordShape(NextRecord(installation, h, e));
  }

  /** The operation that a record about operations names. */
  function Names(e: Event): Option<string> {
    if e.body.OperationStarted? then Some(e.body.id) else Target(e)
  }

  lemma AcceptedNames(s: State, installation: string, e: Event)
    requires Transition(s, installation, e).Accepted?
    ensures Names(e).Some? ==> Names(e).value in Transition(s, installation, e).state.operations
  {
    hide Decide, ValidID, ValidDigest, ValidStoredApproval;
  }

  /** The action of the whole-system runs that one append with this fault is. */
  function ActionOf(c: Codec, installation: string, h: Handle, e: Event, fault: Fault): (r: Action)
    ensures (r.Append? || r.AppendStops?) && r.e == e
  {
    match fault
    case NoFault => Append(e)
    case SeekFails => AppendStops(e, 0, false)
    case _ => AppendStops(e, Written(fault, |FrameOf(c, NextRecord(installation, h, e))|), fault == HeadUnsynced)
  }

  /** What submitting a record amounts to in the whole-system runs: an append, or one that stops. */
  function ActionTaken(c: Codec, installation: string, disk: Disk, h: Handle, e: Event, fault: Fault): (r: Action)
    ensures (r.Append? || r.AppendStops?) && r.e == e
  {
    var r := NextRecord(installation, h, e);
    if !ValidRecord(r) || !Accepts(h.state, installation, e) || h.count >= MAX_RECORDS || !FitsFrame(c.encode(r))
       || (fault != SeekFails && |disk.log| + |FrameOf(c, r)| > MAX_LOG)
    then Append(e)
    else ActionOf(c, installation, h, e, fault)
  }

  /** A submission that succeeds is a complete append. */
  lemma SuccessAppends(c: Codec, installation: string, disk: Disk, h: Handle, e: Event, fault: Fault)
    requires SubmitAnswer(c, installation, disk, h, e, fault).None?
    ensures Writes(c, installation, disk, h, e)
    ensures ActionTaken(c, installation, disk, h, e, fault) == Append(e)
  {
    hide SubmitAnswer, Writes, ValidRecord, Accepts, FitsFrame, Frame;
    SucceedsExactly(c, installation, disk, h, e, fault);
  }

  /** An append that gets as far as the log leaves what that action leaves. */
  lemma WrittenAs(c: Codec, installation: string, disk: Disk, h: Handle, e: Event, fault: Fault)
    requires ValidCodec(c)
    ensures fault == SeekFails || Writes(c, installation, disk, h, e) ==>
              var sys := Act(c, installation, System(disk, Some(h), [], None), ActionOf(c, installation, h, e, fault));
              var r := NextRecord(installation, h, e);
              var next := Head(r.sequence, c.sha(c.encode(r)));
              && sys.disk == Disk(disk.log + FrameOf(c, r)[..Written(fault, |FrameOf(c, r)|)],
                                  if fault in {NoFault, HeadUnsynced} then next else disk.head)
              && sys.handle == if fault == NoFault then Some(Handle(After(h.state, installation, e), next, h.count + 1)) else None
  {
    hide Writes, After, Frame;
    var frame := FrameOf(c, NextRecord(installation, h, e));
    LongerThanHeader(c, NextRecord(installation, h, e));
    assert frame[..|frame|] == frame && frame[..0] == [] && disk.log + [] == disk.log;
  }

  /** A refused append changes nothing. */
  lemma NotWritten(c: Codec, installation: string, disk: Disk, h: Handle, e: Event)
    ensures !Writes(c, installation, disk, h, e) ==>
              Act(c, installation, System(disk, Some(h), [], None), Append(e)) == System(disk, Some(h), [], None)
  {
    hide Writes;
  }

  lemma RecordShape(r: Record)
    ensures ValidRecord(r) ==> ValidShape(r.event)
  {
    hide ValidShape, ValidID;
  }

  /** How much of a frame of this size reaches the log. */
  function Written(fault: Fault, size: nat): (r: nat)
    ensures r <= size
  {
    match fault
    case SeekFails => 0
    case WriteStops(written) => if written < size then written else size
    case _ => size
  }
}
