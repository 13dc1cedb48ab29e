/**
 Whole runs of the journal: accepted records in any order, with the process stopped and the log
 reopened at any point. Reopening replays the log from the empty projection and then relabels
 every operation whose newest step never finished.
*/
module JournalRuns {
  import opened Basics
  import opened Patterns
  import opened JournalModel
  import opened JournalMachine
  import opened JournalInvariant
  import opened JournalKeeps

  // ---------------------------------------------------------------- relabelling after a reopen

  function Mark(op: Operation): Operation {
    var current := InFlight(op.steps);
    if current < 0 then op
    else op.(
      steps := op.steps[current := op.steps[current].(recovered := true)],
      state := if op.steps[current].mode == Mutation then NeedsRecovery else RetryRequired)
  }

  function MarkAll(s: State): State {
    s.(operations := map id | id in s.operations :: Mark(s.operations[id]))
  }

  // ---------------------------------------------------------------- replay and live runs

  /** The projection of a log, or None when a record is refused. */
  function Replay(installation: string, log: seq<Event>): Option<State> {
    if log == [] then Some(EMPTY) else
    match Replay(installation, log[..|log| - 1])
    case None => None
    case Some(s) =>
      var e := log[|log| - 1];
      if Accepts(s, installation, e) then Some(After(s, installation, e)) else None
  }

  /** A caller's request, or the end of the process followed by a reopen. */
  datatype Move = Request(e: Event) | Reopen

  datatype Live = Live(state: State, log: seq<Event>) | Refused

  /**
   The projection a caller sees and the records on disk. A refused request changes neither; a
   reopen that could not replay its log would leave the journal Refused.
  */
  function Run(installation: string, moves: seq<Move>): Live {
    if moves == [] then Live(EMPTY, []) else
    match Run(installation, moves[..|moves| - 1])
    case Refused => Refused
    case Live(s, log) =>
      match moves[|moves| - 1]
      case Request(e) =>
        if Accepts(s, installation, e) then Live(After(s, installation, e), log + [e]) else Live(s, log)
      case Reopen =>
        match Replay(installation, log)
        case None => Refused
        case Some(replayed) => Live(MarkAll(replayed), log)
  }

  // ---------------------------------------------------------------- the invariant of the projection

  predicate ApprovalsOK(s: State) {
    forall id | id in s.approvals ::
      && s.approvals[id].id == id
      && s.approvals[id].components != []
      && Distinct(ComponentIDs(s.approvals[id].components))
      && (forall c | c in ComponentIDs(s.approvals[id].components) :: ValidID(c))
  }

  predicate BoundTo(s: State, id: string, op: Operation) {
    && op.id == id && ValidID(id)
    && op.approvalID in s.approvals
    && s.approvals[op.approvalID].planDigest == op.planDigest
    && op.startedAt < s.approvals[op.approvalID].expiresAt
    && OperationOK(op, OperationComponents(s, op))
  }

  /** An approval authorises at most one operation, and at most one operation is unfinished. */
  predicate SoleAuthority(s: State) {
    forall a, b | a in s.operations && b in s.operations && a != b ::
      && s.operations[a].approvalID != s.operations[b].approvalID
      && (s.operations[a].finishedAt != UNSET || s.operations[b].finishedAt != UNSET)
  }

  predicate ProjectionOK(s: State) {
    && ApprovalsOK(s)
    && (forall id | id in s.operations :: BoundTo(s, id, s.operations[id]))
    && SoleAuthority(s)
  }

  lemma ApprovalKeeps(s: State, installation: string, a: Approval)
    requires ProjectionOK(s) && RecordApproval(s, installation, a).Accepted?
    ensures ProjectionOK(RecordApproval(s, installation, a).state)
  {
    hide OperationOK, ValidSecrets, ValidID, ValidDigest, ValidAdapter, SortedUnique;
    var after := RecordApproval(s, installation, a).state;
    if a.id !in s.approvals {
      assert ComponentIDs(CloneApproval(a).components) == ComponentIDs(a.components);
      assert forall i | 0 <= i < |a.components| :: ValidApprovedComponent(a.components[i], i + 1);
      forall id | id in after.operations ensures BoundTo(after, id, after.operations[id]) {
        assert BoundTo(s, id, s.operations[id]);
        assert OperationComponents(after, s.operations[id]) == OperationComponents(s, s.operations[id]);
      }
    }
  }

  lemma OperationKeeps(s: State, installation: string, id: string, approvalID: string, plan: string, at: Time)
    requires ProjectionOK(s) && StartOperation(s, installation, id, approvalID, plan, at).Accepted?
    ensures ProjectionOK(StartOperation(s, installation, id, approvalID, plan, at).state)
  {
    hide ValidID, ValidDigest, HistoryOK;
    var after := StartOperation(s, installation, id, approvalID, plan, at).state;
    if id !in s.operations {
      var op := NewOperation(installation, id, approvalID, plan, at);
      NewOperationOK(op, OperationComponents(s, op));
      forall k | k in after.operations ensures BoundTo(after, k, after.operations[k]) {
        if k != id { assert BoundTo(s, k, s.operations[k]); }
      }
    }
  }

  lemma NewOperationOK(op: Operation, components: seq<string>)
    requires components != [] && op.steps == [] && op.state == Approved && op.finishedAt == UNSET
    requires Unfailed(op) && !op.mutationStarted
    ensures OperationOK(op, components)
  {
  }

  /** Replacing one operation by a later version of itself keeps the projection. */
  lemma PutKeeps(s: State, id: string, op: Operation)
    requires ProjectionOK(s) && id in s.operations && BoundTo(s, id, op)
    requires op.approvalID == s.operations[id].approvalID
    requires s.operations[id].finishedAt != UNSET ==> op.finishedAt != UNSET
    ensures ProjectionOK(Put(s, id, op))
  {
    hide OperationOK;
    var after := Put(s, id, op);
    forall k | k in after.operations ensures BoundTo(after, k, after.operations[k]) {
      if k != id { assert BoundTo(s, k, s.operations[k]); }
    }
  }

  lemma TransitionKeeps(s: State, installation: string, e: Event)
    requires ProjectionOK(s) && Accepts(s, installation, e)
    ensures ProjectionOK(After(s, installation, e))
  {
    hide ProjectionOK, OperationOK, RecordApproval, StartOperation, Decide, ValidID;
    match e.body {
      case ApprovalRecorded(a) => ApprovalKeeps(s, installation, a);
      case OperationStarted(id, approvalID, plan) => OperationKeeps(s, installation, id, approvalID, plan, e.observedAt);
      case _ =>
        var id := Target(e).value;
        Bound(s, id);
        var op := s.operations[id];
        DecideKeeps(op, OperationComponents(s, op), e);
        DecideFrames(op, OperationComponents(s, op), e);
        PutKeeps(s, id, Decide(op, OperationComponents(s, op), e).op);
    }
  }

  lemma Bound(s: State, id: string)
    requires ProjectionOK(s) && id in s.operations
    ensures BoundTo(s, id, s.operations[id])
  {
  }

  lemma MarkOperation(op: Operation, components: seq<string>)
    requires OperationOK(op, components)
    ensures OperationOK(Mark(op), components)
    ensures Mark(op) == if !Busy(op.steps) then op else
              op.(steps := Resolved(op.steps, Last(op.steps).(recovered := true)),
                  state := if Last(op.steps).mode == Mutation then NeedsRecovery else RetryRequired)
  {
    hide Extends, HasMutation, HasRollbackStep;
    OnlyLastRuns(op.steps, components);
    if Busy(op.steps) {
      var step := Last(op.steps).(recovered := true);
      MarkedFlags(op);
      assert Last(op.steps) in op.steps;
      ResolveKeeps(op.steps, components, step);
    }
  }

  lemma MarkedFlags(op: Operation)
    requires FlagsOK(op) && Busy(op.steps)
    ensures IsMutation(Last(op.steps)) ==> op.mutationStarted
    ensures Last(op.steps).phase == Rollback ==> op.rollbackStarted
  {
    assert Last(op.steps) in op.steps;
  }

  lemma MarkKeeps(s: State)
    requires ProjectionOK(s)
    ensures ProjectionOK(MarkAll(s))
  {
    hide OperationOK, InFlight;
    var after := MarkAll(s);
    forall id | id in after.operations ensures BoundTo(after, id, after.operations[id]) {
      assert BoundTo(s, id, s.operations[id]);
      MarkOperation(s.operations[id], OperationComponents(s, s.operations[id]));
    }
  }
}
