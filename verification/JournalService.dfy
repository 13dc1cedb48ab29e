/**
 The journal object through its whole life: public calls with faults, and restarts that open a new
 object on the disk the last one left. Every life is a run of the whole system.
*/
module JournalService {
  import opened Basics
  import opened Patterns
  import opened JournalModel
  import opened JournalMachine
  import opened JournalHistory
  import opened JournalRequests
  import opened JournalCalls
  import opened JournalRetries
  import opened JournalObject
  import opened LogFrames
  import opened LogRecovery
  import opened LogCrash
  import opened LogRuns

  /** Open a disk. An object whose opening failed is never handed out: here it counts as poisoned. */
  method OpenJournal(installation: string, codec: Codec, disk: Disk, trouble: Trouble)
    returns (journal: Journal, error: Option<Error>, truncated: nat, repaired: bool)
    ensures fresh(journal) && fresh(journal.operations.Values) && journal.Valid()
    ensures journal.installation == installation && journal.codec == codec
    ensures journal.poisoned <==> error.Some?
    ensures if trouble == Unreadable && ValidHead(disk.head) then error == Some(Storage) && journal.OnDisk() == disk
            else journal.Answered(Open(codec, installation, disk), disk, trouble, error, truncated, repaired)
  {
    hide Open, Journal.Projection, Journal.Valid;
    journal := new Journal(installation, codec, disk);
    error, truncated, repaired := journal.Replay(trouble);
    journal.poisoned := error.Some?;
  }

  /** The action of the whole system that an opening with this trouble is. */
  function OpeningAction(c: Codec, installation: string, disk: Disk, trouble: Trouble): Action {
    var opening := Open(c, installation, disk);
    if trouble == NoTrouble || opening.CannotOpen? then Action.Reopen
    else if trouble == Unreadable then ReopenStops(false)
    else if opening.truncated > 0 || opening.repaired then ReopenStops(trouble == Unsynced)
    else Action.Reopen
  }

  /** Disk and handle are those of the system; a handle that must not be used is none. */
  ghost predicate Embodies(journal: Journal, sys: System)
    reads journal, journal.operations.Values
  {
    && journal.OnDisk() == sys.disk
    && (journal.poisoned <==> sys.handle.None?)
    && (!journal.poisoned ==> journal.Held() == sys.handle.value)
  }

  /** Disk and handle after an action do not depend on the history variables. */
  lemma SameEffect(c: Codec, installation: string, a: System, b: System, action: Action)
    requires a.disk == b.disk && a.handle == b.handle
    ensures Act(c, installation, a, action).disk == Act(c, installation, b, action).disk
    ensures Act(c, installation, a, action).handle == Act(c, installation, b, action).handle
  {
    hide Open, Writes, After, Frame;
  }

  lemma OpeningActs(c: Codec, installation: string, sys: System, trouble: Trouble)
    ensures var opening := Open(c, installation, sys.disk);
            var after := Act(c, installation, sys, OpeningAction(c, installation, sys.disk, trouble));
      if opening.CannotOpen? || trouble == Unreadable then after.disk == sys.disk && after.handle.None?
      else if (opening.truncated > 0 || opening.repaired) && trouble != NoTrouble then
        after.disk == (if trouble == Unsynced then opening.disk else sys.disk) && after.handle.None?
      else after.disk == opening.disk && after.handle == Some(Handle(opening.state, opening.head, opening.count))
  {
    hide Open, Writes, After, Frame;
  }

  /** The invalid head is refused before the log is read. */
  lemma HeadFirst(c: Codec, installation: string, disk: Disk)
    requires !ValidHead(disk.head)
    ensures Open(c, installation, disk) == CannotOpen(Corrupt)
  {
    hide ScanFrom, Checkpoint;
  }

  lemma IssuedActsMore(c: Codec, installation: string, actions: seq<Action>, action: Action)
    ensures IssuedActs(c, installation, actions + [action])
      <==> IssuedActs(c, installation, actions) && IssuedAction(c, installation, Acts(c, installation, actions), action)
  {
    hide Acts, IssuedAction;
    assert (actions + [action])[..|actions|] == actions;
  }

  // ---------------------------------------------------------------- what a life comes to

  datatype Request = Serve(call: Call, now: Time, fault: Fault) | Restart(trouble: Trouble)

  /** The actions that a call amounts to: the one of its record, or none when it answers at once. */
  function CallActions(c: Codec, installation: string, sys: System, call: Call, now: Time, fault: Fault): seq<Action> {
    if sys.handle.None? then []
    else match ReplyTo(sys.handle.value.state, call, now)
      case Answer(_) => []
      case Submission(e) => [ActionTaken(c, installation, sys.disk, sys.handle.value, e, fault)]
  }

  function CallAnswer(c: Codec, installation: string, sys: System, call: Call, now: Time, fault: Fault): Option<Error> {
    if sys.handle.None? then Some(RecoveryRequired)
    else match ReplyTo(sys.handle.value.state, call, now)
      case Answer(error) => error
      case Submission(e) => SubmitAnswer(c, installation, sys.disk, sys.handle.value, e, fault)
  }

  function OpeningAnswer(c: Codec, installation: string, disk: Disk, trouble: Trouble): Option<Error> {
    var opening := Open(c, installation, disk);
    if trouble == Unreadable && ValidHead(disk.head) then Some(Storage)
    else if opening.CannotOpen? then Some(opening.error)
    else if (opening.truncated > 0 || opening.repaired) && trouble != NoTrouble then Some(Storage)
    else None
  }

  function ActionsOf(c: Codec, installation: string, sys: System, request: Request): seq<Action> {
    match request
    case Serve(call, now, fault) => CallActions(c, installation, sys, call, now, fault)
    case Restart(trouble) => [OpeningAction(c, installation, sys.disk, trouble)]
  }

  function AnswerTo(c: Codec, installation: string, sys: System, request: Request): Option<Error> {
    match request
    case Serve(call, now, fault) => CallAnswer(c, installation, sys, call, now, fault)
    case Restart(trouble) => OpeningAnswer(c, installation, sys.disk, trouble)
  }

  /** The run of the whole system that these requests are, from a new installation. */
  function LifeOf(c: Codec, installation: string, requests: seq<Request>): seq<Action> {
    if requests == [] then [] else
    var before := LifeOf(c, installation, requests[..|requests| - 1]);
    before + ActionsOf(c, installation, Acts(c, installation, before), requests[|requests| - 1])
  }

  /** The system after these requests. */
  function SystemAfter(c: Codec, installation: string, requests: seq<Request>): System {
    Acts(c, installation, LifeOf(c, installation, requests))
  }

  lemma LifeMore(c: Codec, installation: string, requests: seq<Request>, request: Request)
    ensures LifeOf(c, installation, requests + [request])
      == LifeOf(c, installation, requests) + ActionsOf(c, installation, SystemAfter(c, installation, requests), request)
  {
    hide Acts, ActionsOf;
    assert (requests + [request])[..|requests|] == requests;
  }

  lemma {:induction false} LifeGrows(c: Codec, installation: string, requests: seq<Request>, more: seq<Request>)
    ensures LifeOf(c, installation, requests) <= LifeOf(c, installation, requests + more)
    decreases |more|
  {
    hide LifeOf, SystemAfter, ActionsOf;
    if more == [] {
      assert requests + more == requests;
    } else {
      var front, last := more[..|more| - 1], more[|more| - 1];
      LifeGrows(c, installation, requests, front);
      assert requests + more == (requests + front) + [last];
      LifeMore(c, installation, requests + front, last);
    }
  }

  /** Every record of a life was issued. */
  lemma {:induction false} LifeIssued(c: Codec, installation: string, requests: seq<Request>)
    ensures IssuedActs(c, installation, LifeOf(c, installation, requests))
  {
    hide Acts, IssuedAction, OpeningAction, CallActions;
    if requests != [] {
      var front, request := requests[..|requests| - 1], requests[|requests| - 1];
      LifeIssued(c, installation, front);
      var before := LifeOf(c, installation, front);
      var sys := Acts(c, installation, before);
      match request {
        case Serve(call, now, fault) => CallIssued(c, installation, before, call, now, fault);
        case Restart(trouble) =>
          OpeningIssued(c, installation, sys, trouble);
          IssuedActsMore(c, installation, before, OpeningAction(c, installation, sys.disk, trouble));
      }
    }
  }

  lemma CallIssued(c: Codec, installation: string, before: seq<Action>, call: Call, now: Time, fault: Fault)
    requires IssuedActs(c, installation, before)
    ensures IssuedActs(c, installation, before + CallActions(c, installation, Acts(c, installation, before), call, now, fault))
  {
    hide Acts, IssuedAction, ReplyTo, ActionTaken, IssuedActs;
    var sys := Acts(c, installation, before);
    assert before + [] == before;
    if sys.handle.Some? && ReplyTo(sys.handle.value.state, call, now).Submission? {
      var e := ReplyTo(sys.handle.value.state, call, now).e;
      var action := ActionTaken(c, installation, sys.disk, sys.handle.value, e, fault);
      SubmittedIssued(c, installation, sys, call, now, e, action);
      IssuedActsMore(c, installation, before, action);
    }
  }

  /** What a call submits is issued if it gets as far as writing. */
  lemma SubmittedIssued(c: Codec, installation: string, sys: System, call: Call, now: Time, e: Event, action: Action)
    requires sys.handle.Some? && ReplyTo(sys.handle.value.state, call, now) == Submission(e)
    requires (action.Append? || action.AppendStops?) && action.e == e
    ensures IssuedAction(c, installation, sys, action)
  {
    hide ReplyTo, Issued, Accepts, Writes;
    SubmittedAt(sys.handle.value.state, call, now, e);
    if Writes(c, installation, sys.disk, sys.handle.value, e) {
      WritesAccepts(c, installation, sys, e);
      SubmissionIsIssued(sys.handle.value.state, installation, call, e);
    }
  }

  lemma SubmittedAt(s: State, call: Call, now: Time, e: Event)
    requires ReplyTo(s, call, now) == Submission(e)
    ensures e.observedAt == now
  {
    hide ValidID, ValidDigest, ValidStepInput, ValidResult, FindStep, InFlight, RetriesRecovered;
  }

  lemma OpeningIssued(c: Codec, installation: string, sys: System, trouble: Trouble)
    ensures IssuedAction(c, installation, sys, OpeningAction(c, installation, sys.disk, trouble))
  {
    hide Open, Writes, Issued;
  }

  // ---------------------------------------------------------------- success lasts

  /**
   End to end: when a call submits a record and answers success, then whatever is requested
   afterwards, with whatever faults and troubles, every opening that succeeds on the disk then left
   answers records that hold this one at its place.
  */
  lemma SuccessSurvives(c: Codec, installation: string, before: seq<Request>, call: Call, now: Time, fault: Fault,
                        e: Event, after: seq<Request>)
    requires ValidCodec(c) && SystemAfter(c, installation, before).handle.Some?
    requires ReplyTo(SystemAfter(c, installation, before).handle.value.state, call, now) == Submission(e)
    requires CallAnswer(c, installation, SystemAfter(c, installation, before), call, now, fault).None?
    ensures var sys := SystemAfter(c, installation, before);
            var end := SystemAfter(c, installation, before + [Serve(call, now, fault)] + after);
            var opening := Open(c, installation, end.disk);
      opening.Opened? ==>
        AnswersWith(c, installation, opening, |sys.durable|, NextRecord(installation, sys.handle.value, e))
  {
    hide Acts, ReplyTo, SubmitAnswer, ActionTaken, Open, AnswersWith, LifeOf, Writes;
    var sys := SystemAfter(c, installation, before);
    var actions := LifeOf(c, installation, before);
    var request := Serve(call, now, fault);
    SuccessAppends(c, installation, sys.disk, sys.handle.value, e, fault);
    LifeMore(c, installation, before, request);
    LifeGrows(c, installation, before + [request], after);
    var all := LifeOf(c, installation, before + [request] + after);
    var more := all[|actions| + 1..];
    assert all == actions + [Append(e)] + more;
    SuccessIsDurable(c, installation, actions, e, more);
  }

  // ---------------------------------------------------------------- the object

  /** One public call on a journal that embodies a system: its action, if it has one, and its answer. */
  method ServeOne(journal: Journal, call: Call, now: Time, fault: Fault, ghost actions: seq<Action>)
    returns (error: Option<Error>, ghost next: seq<Action>)
    requires journal.Valid() && ValidCodec(journal.codec)
    requires Embodies(journal, Acts(journal.codec, journal.installation, actions))
    modifies journal`approvals, journal`operations, journal.operations.Values, journal`log, journal`headFile,
             journal`head, journal`recordCount, journal`poisoned
    ensures journal.Valid() && fresh(journal.operations.Values - old(journal.operations.Values))
    ensures var sys := Acts(journal.codec, journal.installation, actions);
      && next == actions + CallActions(journal.codec, journal.installation, sys, call, now, fault)
      && error == CallAnswer(journal.codec, journal.installation, sys, call, now, fault)
    ensures Embodies(journal, Acts(journal.codec, journal.installation, next))
  {
    hide Act, Acts, ReplyTo, SubmitAnswer, ActionTaken;
    ghost var c, installation := journal.codec, journal.installation;
    ghost var sys := Acts(c, installation, actions);
    ghost var submitted: Option<Event>;
    next := actions + CallActions(c, installation, sys, call, now, fault);
    assert actions + [] == actions;
    error, submitted := journal.Perform(call, now, fault);
    if submitted.Some? {
      ghost var action := ActionTaken(c, installation, sys.disk, sys.handle.value, submitted.value, fault);
      SameEffect(c, installation, sys, System(sys.disk, sys.handle, [], None), action);
      LastAct(c, installation, actions, action);
    }
  }

  /** One restart: a new object on the disk of the old one. */
  method RestartOne(journal: Journal, trouble: Trouble, ghost actions: seq<Action>)
    returns (next: Journal, error: Option<Error>, ghost acts: seq<Action>)
    requires Embodies(journal, Acts(journal.codec, journal.installation, actions))
    ensures fresh(next) && fresh(next.operations.Values) && next.Valid()
    ensures next.codec == journal.codec && next.installation == journal.installation
    ensures acts == actions + [OpeningAction(next.codec, next.installation, old(journal.OnDisk()), trouble)]
    ensures error == OpeningAnswer(next.codec, next.installation, old(journal.OnDisk()), trouble)
    ensures Embodies(next, Acts(next.codec, next.installation, acts))
  {
    hide Act, Acts, Open, OpeningAction, Journal.Valid;
    ghost var c, installation := journal.codec, journal.installation;
    ghost var sys := Acts(c, installation, actions);
    ghost var action := OpeningAction(c, installation, sys.disk, trouble);
    var truncated, repaired;
    next, error, truncated, repaired := OpenJournal(journal.installation, journal.codec, Disk(journal.log, journal.headFile), trouble);
    OpeningActs(c, installation, sys, trouble);
    if !ValidHead(sys.disk.head) { HeadFirst(c, installation, sys.disk); }
    LastAct(c, installation, actions, action);
    acts := actions + [action];
  }

  /** The answers to a life, one for each request. */
  predicate AnswersLife(c: Codec, installation: string, requests: seq<Request>, answers: seq<Option<Error>>) {
    |answers| == |requests| &&
    forall i | 0 <= i < |requests| :: answers[i] == AnswerTo(c, installation, SystemAfter(c, installation, requests[..i]), requests[i])
  }

  /**
   A whole life, from a new installation: calls with any faults, restarts with any troubles. Disk,
   handle and answers are those of the run of the whole system that the requests are; what an open
   handle holds is reachable, attempts are uniform, and mutations have one.
  */
  method Lead(installation: string, codec: Codec, requests: seq<Request>)
    returns (journal: Journal, answers: seq<Option<Error>>)
    requires ValidCodec(codec)
    ensures fresh(journal) && journal.Valid() && journal.codec == codec && journal.installation == installation
    ensures Embodies(journal, SystemAfter(codec, installation, requests))
    ensures AnswersLife(codec, installation, requests, answers)
    ensures !journal.poisoned ==>
      && Reachable(installation, journal.Projection())
      && forall id | id in journal.Projection().operations ::
           Uniform(journal.Projection().operations[id].steps) && MutationsOnce(journal.Projection().operations[id].steps)
  {
    hide Act, Acts, LifeOf, AnswerTo, Embodies, Journal.Valid, Reachable, Uniform, MutationsOnce, CallActions, CallAnswer,
         OpeningAction, OpeningAnswer;
    journal := NewInstallation(installation, codec);
    answers := [];
    ghost var actions := LifeOf(codec, installation, requests[..0]);
    for i := 0 to |requests|
      invariant fresh(journal) && fresh(journal.operations.Values) && journal.Valid()
      invariant journal.codec == codec && journal.installation == installation
      invariant actions == LifeOf(codec, installation, requests[..i])
      invariant Embodies(journal, Acts(codec, installation, actions))
      invariant AnswersLife(codec, installation, requests[..i], answers)
    {
      var error: Option<Error>;
      ghost var sys := Acts(codec, installation, actions);
      assert requests[..i + 1] == requests[..i] + [requests[i]];
      LifeMore(codec, installation, requests[..i], requests[i]);
      match requests[i] {
        case Serve(call, now, fault) =>
          error, actions := ServeOne(journal, call, now, fault, actions);
          ServeIs(codec, installation, sys, requests[i]);
        case Restart(trouble) =>
          DiskOf(journal, sys);
          journal, error, actions := RestartOne(journal, trouble, actions);
          RestartIs(codec, installation, sys, requests[i]);
      }
      AnsweredMore(codec, installation, requests[..i], requests[i], answers, error);
      answers := answers + [error];
    }
    assert requests[..|requests|] == requests;
    if !journal.poisoned {
      HandleOf(journal, Acts(codec, installation, actions));
      LifeIssued(codec, installation, requests);
      HandleReachable(codec, installation, actions);
      HandleUniform(codec, installation, actions);
    }
  }

  lemma ServeIs(c: Codec, installation: string, sys: System, request: Request)
    requires request.Serve?
    ensures ActionsOf(c, installation, sys, request) == CallActions(c, installation, sys, request.call, request.now, request.fault)
    ensures AnswerTo(c, installation, sys, request) == CallAnswer(c, installation, sys, request.call, request.now, request.fault)
  {
    hide CallActions, CallAnswer;
  }

  lemma RestartIs(c: Codec, installation: string, sys: System, request: Request)
    requires request.Restart?
    ensures ActionsOf(c, installation, sys, request) == [OpeningAction(c, installation, sys.disk, request.trouble)]
    ensures AnswerTo(c, installation, sys, request) == OpeningAnswer(c, installation, sys.disk, request.trouble)
  {
    hide OpeningAction, OpeningAnswer;
  }

  lemma AnsweredMore(c: Codec, installation: string, requests: seq<Request>, request: Request,
                     answers: seq<Option<Error>>, error: Option<Error>)
    requires AnswersLife(c, installation, requests, answers)
    requires error == AnswerTo(c, installation, SystemAfter(c, installation, requests), request)
    ensures AnswersLife(c, installation, requests + [request], answers + [error])
  {
    hide AnswerTo, SystemAfter;
    var more := requests + [request];
    forall i | 0 <= i < |more|
      ensures (answers + [error])[i] == AnswerTo(c, installation, SystemAfter(c, installation, more[..i]), more[i])
    {
      if i < |requests| { assert more[..i] == requests[..i]; } else { assert more[..i] == requests; }
    }
  }

  lemma DiskOf(journal: Journal, sys: System)
    requires Embodies(journal, sys)
    ensures journal.OnDisk() == sys.disk
  {
  }

  lemma HandleOf(journal: Journal, sys: System)
    requires Embodies(journal, sys) && !journal.poisoned
    ensures sys.handle.Some? && sys.handle.value.state == journal.Projection()
  {
  }

  /** The files of a new installation; nothing is open yet. */
  method NewInstallation(installation: string, codec: Codec) returns (journal: Journal)
    ensures fresh(journal) && fresh(journal.operations.Values) && journal.Valid()
    ensures journal.codec == codec && journal.installation == installation
    ensures Embodies(journal, SystemAfter(codec, installation, []))
  {
    journal := new Journal(installation, codec, Disk([], EMPTY_HEAD));
    journal.poisoned := true;
  }
}
