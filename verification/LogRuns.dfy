/**
 The runs of the whole system, with crashes at every durability step, are runs of the journal: what
 is proved of every reachable projection holds of every handle, and what is proved of the public
 calls holds when every record was issued.
*/
module LogRuns {
  import opened JournalModel
  import opened JournalMachine
  import opened JournalRuns
  import opened JournalReplay
  import opened JournalHistory
  import opened JournalRequests
  import opened JournalRetries
  import opened LogFrames
  import opened LogRecovery
  import opened LogCrash

  // ---------------------------------------------------------------- the run behind a system

  /** The records on disk and the projection held are those of these moves. */
  predicate Mirrors(installation: string, sys: System, moves: seq<Move>) {
    && Run(installation, moves).Live?
    && Run(installation, moves).log == Events(sys.durable)
    && (sys.handle.Some? ==> Run(installation, moves).state == sys.handle.value.state)
    && (sys.pending.Some? ==> Accepts(Run(installation, moves).state, installation, sys.pending.value.event))
  }

  /** The moves request issued records only, and so does the append that stopped. */
  predicate IssuedBehind(installation: string, sys: System, moves: seq<Move>)
    requires Run(installation, moves).Live?
  {
    && IssuedRun(installation, moves)
    && (sys.pending.Some? ==> Issued(Run(installation, moves).state, sys.pending.value.event))
  }

  /** If the action gets as far as writing a record, the record is issued. */
  predicate IssuedAction(c: Codec, installation: string, sys: System, action: Action) {
    (action.Append? || action.AppendStops?) && sys.handle.Some? && Writes(c, installation, sys.disk, sys.handle.value, action.e)
    ==> Issued(sys.handle.value.state, action.e)
  }

  predicate IssuedActs(c: Codec, installation: string, actions: seq<Action>)
    decreases |actions|
  {
    actions == []
    || (var front := actions[..|actions| - 1];
        IssuedActs(c, installation, front) && IssuedAction(c, installation, Acts(c, installation, front), actions[|actions| - 1]))
  }

  /** One more move, seen from the run before it. */
  lemma RunMore(installation: string, moves: seq<Move>, move: Move)
    requires Run(installation, moves).Live?
    ensures var (before, after) := (Run(installation, moves), Run(installation, moves + [move]));
      && (move.Request? && Accepts(before.state, installation, move.e) ==>
            after == Live(After(before.state, installation, move.e), before.log + [move.e]))
      && (move.Reopen? && Replay(installation, before.log).Some? ==>
            after == Live(MarkAll(Replay(installation, before.log).value), before.log))
  {
    hide Accepts, After, MarkAll, Replay;
    assert (moves + [move])[..|moves|] == moves;
  }

  lemma IssuedMore(installation: string, moves: seq<Move>, move: Move)
    requires Run(installation, moves).Live? && IssuedRun(installation, moves)
    requires move.Request? ==> Issued(Run(installation, moves).state, move.e)
    ensures IssuedRun(installation, moves + [move])
  {
    hide Run, Accepts, Issued;
    assert (moves + [move])[..|moves|] == moves;
  }

  lemma Requested(installation: string, moves: seq<Move>, e: Event)
    requires Run(installation, moves).Live? && Accepts(Run(installation, moves).state, installation, e)
    ensures var (before, after) := (Run(installation, moves), Run(installation, moves + [Request(e)]));
      after == Live(After(before.state, installation, e), before.log + [e])
    ensures IssuedRun(installation, moves) && Issued(Run(installation, moves).state, e)
      ==> IssuedRun(installation, moves + [Request(e)])
  {
    hide Run, IssuedRun, Accepts, After, Issued;
    RunMore(installation, moves, Request(e));
    if IssuedRun(installation, moves) && Issued(Run(installation, moves).state, e) { IssuedMore(installation, moves, Request(e)); }
  }

  lemma Reopened(installation: string, moves: seq<Move>)
    requires Run(installation, moves).Live?
    ensures var log := Run(installation, moves).log;
      && Replay(installation, log).Some?
      && Run(installation, moves + [Move.Reopen]) == Live(MarkAll(Replay(installation, log).value), log)
    ensures IssuedRun(installation, moves) ==> IssuedRun(installation, moves + [Move.Reopen])
  {
    hide Run, Replay, IssuedRun, Issued, MarkAll, InStep;
    CrashReplay(installation, moves);
    RunMore(installation, moves, Move.Reopen);
    if IssuedRun(installation, moves) { IssuedMore(installation, moves, Move.Reopen); }
  }

  lemma EventsMore(records: seq<Record>, r: Record)
    ensures Events(records + [r]) == Events(records) + [r.event]
  {
  }

  lemma WritesAccepts(c: Codec, installation: string, sys: System, e: Event)
    requires sys.handle.Some? && Writes(c, installation, sys.disk, sys.handle.value, e)
    ensures Accepts(sys.handle.value.state, installation, e)
  {
    hide Accepts, ValidRecord, Frame;
  }

  lemma MirrorAppend(c: Codec, installation: string, sys: System, moves: seq<Move>, action: Action) returns (next: seq<Move>)
    requires Mirrors(installation, sys, moves) && (action.Append? || action.AppendStops?)
    ensures Mirrors(installation, Act(c, installation, sys, action), next)
    ensures IssuedBehind(installation, sys, moves) && IssuedAction(c, installation, sys, action)
      ==> IssuedBehind(installation, Act(c, installation, sys, action), next)
  {
    hide Accepts, After, Issued, IssuedRun, Writes, Run, Frame, Events;
    next := moves;
    if sys.handle.Some? && Writes(c, installation, sys.disk, sys.handle.value, action.e) {
      WritesAccepts(c, installation, sys, action.e);
      Requested(installation, moves, action.e);
      EventsMore(sys.durable, NextRecord(installation, sys.handle.value, action.e));
      if Act(c, installation, sys, action).durable != sys.durable { next := moves + [Request(action.e)]; }
    }
  }

  /** A record that stopped part-way is requested, once an opening has adopted it. */
  lemma MirrorAdopted(installation: string, sys: System, moves: seq<Move>, count: nat) returns (next: seq<Move>)
    requires Mirrors(installation, sys, moves)
    ensures Run(installation, next).Live? && Run(installation, next).log == Events(Adopted(sys, count))
    ensures IssuedBehind(installation, sys, moves) ==> IssuedRun(installation, next)
  {
    hide Accepts, After, Issued, IssuedRun, Run, Events;
    next := moves;
    if sys.pending.Some? && count > |sys.durable| {
      Requested(installation, moves, sys.pending.value.event);
      EventsMore(sys.durable, sys.pending.value);
      next := moves + [Request(sys.pending.value.event)];
    }
  }

  lemma MirrorReopen(c: Codec, installation: string, sys: System, moves: seq<Move>, action: Action) returns (next: seq<Move>)
    requires ValidCodec(c) && SystemOK(c, installation, sys)
    requires Mirrors(installation, sys, moves) && (action.Reopen? || action.ReopenStops?)
    ensures Mirrors(installation, Act(c, installation, sys, action), next)
    ensures IssuedBehind(installation, sys, moves) ==> IssuedBehind(installation, Act(c, installation, sys, action), next)
  {
    hide Accepts, Issued, IssuedRun, Run, Open, SystemOK, Events, MarkAll, Committed;
    next := moves;
    var opening := Open(c, installation, sys.disk);
    if opening.Opened? && (action.Reopen? || action.repaired) {
      OpenSystem(c, installation, sys);
      next := MirrorAdopted(installation, sys, moves, opening.count);
      if action.Reopen? {
        Reopened(installation, next);
        next := next + [Move.Reopen];
      }
    }
  }

  lemma NothingMirrored(installation: string)
    ensures Mirrors(installation, CREATED, []) && IssuedBehind(installation, CREATED, [])
  {
  }

  /** Behind every run of the system there is a run of the journal, of issued records if they were. */
  lemma {:induction false} RunBehind(c: Codec, installation: string, actions: seq<Action>) returns (moves: seq<Move>)
    requires ValidCodec(c)
    ensures Mirrors(installation, Acts(c, installation, actions), moves)
    ensures IssuedActs(c, installation, actions) ==> IssuedBehind(installation, Acts(c, installation, actions), moves)
    decreases |actions|
  {
    hide Act, Mirrors, IssuedBehind, IssuedAction, SystemOK, ValidCodec;
    if actions == [] {
      NothingMirrored(installation);
      moves := [];
    } else {
      var front, action := actions[..|actions| - 1], actions[|actions| - 1];
      moves := RunBehind(c, installation, front);
      var sys := Acts(c, installation, front);
      RunKeeps(c, installation, front);
      MirrorLive(installation, sys, moves);
      if action.Append? || action.AppendStops? {
        moves := MirrorAppend(c, installation, sys, moves, action);
      } else {
        moves := MirrorReopen(c, installation, sys, moves, action);
      }
      MirrorLive(installation, Act(c, installation, sys, action), moves);
    }
  }

  lemma MirrorLive(installation: string, sys: System, moves: seq<Move>)
    requires Mirrors(installation, sys, moves)
    ensures Run(installation, moves).Live?
  {
    hide Run, Accepts, Events;
  }

  // ---------------------------------------------------------------- what the handles hold

  /** Whatever crashed before, the projection of an open handle is a reachable one. */
  lemma HandleReachable(c: Codec, installation: string, actions: seq<Action>)
    requires ValidCodec(c) && Acts(c, installation, actions).handle.Some?
    ensures Reachable(installation, Acts(c, installation, actions).handle.value.state)
  {
    hide Run, Acts, Accepts, Events, IssuedActs, IssuedBehind;
    var moves := RunBehind(c, installation, actions);
    assert Run(installation, moves).state == Acts(c, installation, actions).handle.value.state;
  }

  /** When all records were issued, attempts are uniform and no mutation has a second one. */
  lemma HandleUniform(c: Codec, installation: string, actions: seq<Action>)
    requires ValidCodec(c) && IssuedActs(c, installation, actions) && Acts(c, installation, actions).handle.Some?
    ensures var s := Acts(c, installation, actions).handle.value.state;
      forall id | id in s.operations :: Uniform(s.operations[id].steps) && MutationsOnce(s.operations[id].steps)
  {
    hide Run, Acts, Accepts, Events, IssuedActs, IssuedRun, Uniform, MutationsOnce, Issued;
    var moves := RunBehind(c, installation, actions);
    var s := Acts(c, installation, actions).handle.value.state;
    assert Run(installation, moves).state == s;
    RetriesUniform(installation, moves);
    forall id | id in s.operations ensures Uniform(s.operations[id].steps) && MutationsOnce(s.operations[id].steps) {
      MutationsHaveOneAttempt(installation, moves, id);
    }
  }
}
