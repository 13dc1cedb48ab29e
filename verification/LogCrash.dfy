/**
 The whole journal on disk: appends that succeed, appends that stop at any durability step, opens,
 and opens that are themselves interrupted. Whatever happens, the next open recovers exactly the
 durable records, or those and the one interrupted record; it refuses only a frame torn exactly
 behind its header.
*/
module LogCrash {
  import opened Basics
  import opened Patterns
  import opened JournalModel
  import opened JournalMachine
  import opened JournalRuns
  import opened JournalReplay
  import opened LogFrames
  import opened LogRecovery

  // ---------------------------------------------------------------- one torn append

  /** What an append writes. */
  function FrameOf(c: Codec, r: Record): Bytes {
    Frame(c, c.encode(r))
  }

  /** `r` may be committed after `records`, within the limits of the log. */
  predicate Appendable(c: Codec, installation: string, records: seq<Record>, r: Record) {
    && Committed(c, installation, records) && ExtendsChain(c, installation, records, r)
    && Accepts(Projection(c, installation, records), installation, r.event)
    && |records| < MAX_RECORDS && |LogBytes(c, records)| + |FrameOf(c, r)| <= MAX_LOG
  }

  /** The disk with `k` bytes of the next frame, the checkpoint still naming `records`. */
  function TornDisk(c: Codec, records: seq<Record>, r: Record, k: nat): Disk
    requires k <= |FrameOf(c, r)|
  {
    Disk(LogBytes(c, records) + FrameOf(c, r)[..k], HeadOf(c, records))
  }

  function SettledDisk(c: Codec, records: seq<Record>): Disk {
    Disk(LogBytes(c, records), HeadOf(c, records))
  }

  /** The answer of a successful open: the relabelled replay of `records`. */
  function Recovered(c: Codec, installation: string, records: seq<Record>, truncated: nat, repaired: bool): Opening
    requires Committed(c, installation, records)
  {
    Opened(MarkAll(Projection(c, installation, records)), HeadOf(c, records), |records|,
           SettledDisk(c, records), truncated, repaired)
  }

  lemma SettledCheckpoint(c: Codec, records: seq<Record>)
    requires |records| <= MAX_RECORDS
    ensures Checkpointed(c, records, HeadOf(c, records))
  {
    assert records[..|records|] == records;
  }

  /** A settled log opens to exactly its records. */
  lemma OpenSettled(c: Codec, installation: string, records: seq<Record>)
    requires ValidCodec(c) && Committed(c, installation, records)
    requires |records| <= MAX_RECORDS && |LogBytes(c, records)| <= MAX_LOG
    ensures Open(c, installation, SettledDisk(c, records)) == Recovered(c, installation, records, 0, false)
  {
    hide Committed, MarkAll, LogBytes, Projection;
    SettledCheckpoint(c, records);
    ScanCommitted(c, installation, HeadOf(c, records), records, []);
    assert LogBytes(c, records) + [] == LogBytes(c, records);
  }

  /** A torn append opens to the records before it; the whole frame opens to one record more. */
  lemma OpenTorn(c: Codec, installation: string, records: seq<Record>, r: Record, k: nat)
    requires ValidCodec(c) && Appendable(c, installation, records, r) && 0 < k <= |FrameOf(c, r)|
    ensures Committed(c, installation, records + [r])
    ensures Open(c, installation, TornDisk(c, records, r, k)) ==
            if k == |FrameOf(c, r)| then Recovered(c, installation, records + [r], 0, true)
            else if k == HEADER_SIZE then CannotOpen(Corrupt)
            else Recovered(c, installation, records, k, false)
  {
    hide Committed, MarkAll, LogBytes, ExtendsChain, Accepts, Projection, Frame, Open;
    CommittedNext(c, installation, records, r);
    if k == |FrameOf(c, r)| { OpenWhole(c, installation, records, r); } else { OpenPart(c, installation, records, r, k); }
  }

  lemma OpenWhole(c: Codec, installation: string, records: seq<Record>, r: Record)
    requires ValidCodec(c) && Appendable(c, installation, records, r)
    requires Committed(c, installation, records + [r]) && 0 < |FrameOf(c, r)|
    ensures Open(c, installation, TornDisk(c, records, r, |FrameOf(c, r)|)) == Recovered(c, installation, records + [r], 0, true)
  {
    hide MarkAll, LogBytes, ReadPiece, ExtendsChain, Accepts, Chain, Replay, Frame;
    var head := HeadOf(c, records);
    var disk := TornDisk(c, records, r, |FrameOf(c, r)|);
    CommittedNext(c, installation, records, r);
    SettledCheckpoint(c, records);
    assert FrameOf(c, r)[..|FrameOf(c, r)|] == FrameOf(c, r);
    OneAhead(c, records, r);
    ScanCommitted(c, installation, head, records + [r], []);
    assert disk.log == LogBytes(c, records + [r]) + [];
    EndOfLog(c, disk.log);
  }

  lemma OpenPart(c: Codec, installation: string, records: seq<Record>, r: Record, k: nat)
    requires ValidCodec(c) && Appendable(c, installation, records, r) && 0 < k < |FrameOf(c, r)|
    ensures Open(c, installation, TornDisk(c, records, r, k)) ==
            if k == HEADER_SIZE then CannotOpen(Corrupt) else Recovered(c, installation, records, k, false)
  {
    hide MarkAll, LogBytes, ReadPiece, ExtendsChain, Accepts, Chain, Replay, Frame;
    var head := HeadOf(c, records);
    var disk := TornDisk(c, records, r, k);
    SettledCheckpoint(c, records);
    ScanCommitted(c, installation, head, records, FrameOf(c, r)[..k]);
    assert disk.log[|LogBytes(c, records)|..] == FrameOf(c, r)[..k];
    assert disk.log[..|LogBytes(c, records)|] == LogBytes(c, records);
    FitsNext(c, installation, records, r);
    ReadTorn(c, disk.log, |LogBytes(c, records)|, r, k);
  }

  lemma EndOfLog(c: Codec, log: Bytes)
    ensures ReadPiece(c, log, |log|) == End
  {
  }

  lemma FitsNext(c: Codec, installation: string, records: seq<Record>, r: Record)
    requires ExtendsChain(c, installation, records, r)
    ensures FitsFrame(c.encode(r))
  {
  }

  lemma OneAhead(c: Codec, records: seq<Record>, r: Record)
    requires |records| < MAX_RECORDS
    ensures Checkpointed(c, records + [r], HeadOf(c, records))
  {
    assert (records + [r])[..|records|] == records;
  }

  // ---------------------------------------------------------------- the whole system

  /** An open journal: the projection callers see, the checkpoint it holds, its record count. */
  datatype Handle = Handle(state: State, head: Head, count: nat)

  /**
   The disk and the open handle, with two history variables: the records that must survive, and
   the record whose append stopped part-way.
  */
  datatype System = System(disk: Disk, handle: Option<Handle>, durable: seq<Record>, pending: Option<Record>)

  datatype Action =
    | Append(e: Event)                                  // the call returns success
    | AppendStops(e: Event, written: nat, renamed: bool) // the call fails or the process dies
    | Reopen
    | ReopenStops(repaired: bool)                       // the process dies while opening

  const EMPTY_HEAD := Head(0, ZERO_DIGEST)
  const CREATED := System(Disk([], EMPTY_HEAD), None, [], None)

  function NextRecord(installation: string, h: Handle, e: Event): Record {
    Record(h.head.sequence + 1, h.head.digest, installation, e)
  }

  /** Does the append get as far as writing? Every earlier refusal changes nothing. */
  predicate Writes(c: Codec, installation: string, disk: Disk, h: Handle, e: Event) {
    var r := NextRecord(installation, h, e);
    && ValidRecord(r) && Accepts(h.state, installation, e)
    && h.count < MAX_RECORDS && FitsFrame(c.encode(r)) && |disk.log| + |FrameOf(c, r)| <= MAX_LOG
  }

  /** The durable records once an open has adopted a complete interrupted one. */
  function Adopted(sys: System, count: nat): seq<Record> {
    if sys.pending.Some? && count > |sys.durable| then sys.durable + [sys.pending.value] else sys.durable
  }

  function Act(c: Codec, installation: string, sys: System, action: Action): System {
    match action
    case Append(e) =>
      if sys.handle.None? || !Writes(c, installation, sys.disk, sys.handle.value, e) then sys else
      var h := sys.handle.value;
      var r := NextRecord(installation, h, e);
      var head := Head(r.sequence, c.sha(c.encode(r)));
      System(Disk(sys.disk.log + FrameOf(c, r), head),
             Some(Handle(After(h.state, installation, e), head, h.count + 1)),
             sys.durable + [r], None)
    case AppendStops(e, written, renamed) =>
      if sys.handle.None? || !Writes(c, installation, sys.disk, sys.handle.value, e) then sys.(handle := None) else
      var r := NextRecord(installation, sys.handle.value, e);
      var frame := FrameOf(c, r);
      if written == 0 then sys.(handle := None)
      else if written < |frame| then
        System(Disk(sys.disk.log + frame[..written], sys.disk.head), None, sys.durable, Some(r))
      else if !renamed then
        System(Disk(sys.disk.log + frame, sys.disk.head), None, sys.durable, Some(r))
      else
        System(Disk(sys.disk.log + frame, Head(r.sequence, c.sha(c.encode(r)))), None, sys.durable + [r], None)
    case Reopen =>
      (match Open(c, installation, sys.disk)
       case CannotOpen(_) => sys.(handle := None)
       case Opened(state, head, count, disk, _, _) =>
         System(disk, Some(Handle(state, head, count)), Adopted(sys, count), None))
    case ReopenStops(repaired) =>
      match Open(c, installation, sys.disk)
      case CannotOpen(_) => sys.(handle := None)
      case Opened(_, _, count, disk, _, _) =>
        if repaired then System(disk, None, Adopted(sys, count), None) else sys.(handle := None)
  }

  function Acts(c: Codec, installation: string, actions: seq<Action>): System {
    if actions == [] then CREATED
    else Act(c, installation, Acts(c, installation, actions[..|actions| - 1]), actions[|actions| - 1])
  }

  lemma LastAct(c: Codec, installation: string, actions: seq<Action>, action: Action)
    ensures Acts(c, installation, actions + [action]) == Act(c, installation, Acts(c, installation, actions), action)
  {
    hide Act;
    assert (actions + [action])[..|actions|] == actions;
  }

  // ---------------------------------------------------------------- what every run keeps

  /** The interrupted record and how much of its frame is on disk. */
  predicate TornAfter(c: Codec, installation: string, sys: System, k: nat) {
    && sys.pending.Some? && sys.handle.None?
    && Appendable(c, installation, sys.durable, sys.pending.value)
    && 0 < k <= |FrameOf(c, sys.pending.value)|
    && sys.disk == TornDisk(c, sys.durable, sys.pending.value, k)
  }

  predicate Settled(c: Codec, installation: string, sys: System) {
    && sys.pending.None? && sys.disk == SettledDisk(c, sys.durable)
    && |sys.durable| <= MAX_RECORDS && |LogBytes(c, sys.durable)| <= MAX_LOG
  }

  /** How many bytes of the interrupted frame are on disk. */
  function TornBytes(c: Codec, sys: System): int {
    |sys.disk.log| - |LogBytes(c, sys.durable)|
  }

  predicate HandleOK(c: Codec, installation: string, sys: System)
    requires Committed(c, installation, sys.durable)
  {
    sys.handle.Some? ==>
      && Settled(c, installation, sys)
      && sys.handle.value.head == HeadOf(c, sys.durable) && sys.handle.value.count == |sys.durable|
      && InStep(sys.handle.value.state, Projection(c, installation, sys.durable))
  }

  predicate SystemOK(c: Codec, installation: string, sys: System) {
    && Committed(c, installation, sys.durable)
    && (Settled(c, installation, sys)
        || (TornBytes(c, sys) >= 0 && TornAfter(c, installation, sys, TornBytes(c, sys))))
    && HandleOK(c, installation, sys)
  }

  lemma WritesAppendable(c: Codec, installation: string, sys: System, e: Event)
    requires ValidCodec(c) && SystemOK(c, installation, sys) && sys.handle.Some?
    requires Writes(c, installation, sys.disk, sys.handle.value, e)
    ensures var r := NextRecord(installation, sys.handle.value, e);
      && Appendable(c, installation, sys.durable, r)
      && InStep(After(sys.handle.value.state, installation, e),
                After(Projection(c, installation, sys.durable), installation, e))
  {
    hide Accepts, After, InStep, Committed, LogBytes, ValidRecord;
    RecordAgrees(sys.handle.value.state, Projection(c, installation, sys.durable), installation, e);
  }

  lemma AppendKeeps(c: Codec, installation: string, sys: System, e: Event)
    requires ValidCodec(c) && SystemOK(c, installation, sys)
    ensures SystemOK(c, installation, Act(c, installation, sys, Append(e)))
  {
    hide Accepts, InStep, LogBytes, ValidRecord, ExtendsChain, Chain, Replay, Writes, After, Frame;
    if sys.handle.Some? && Writes(c, installation, sys.disk, sys.handle.value, e) {
      var r := NextRecord(installation, sys.handle.value, e);
      WritesAppendable(c, installation, sys, e);
      CommittedNext(c, installation, sys.durable, r);
      assert (sys.durable + [r])[|sys.durable|] == r;
    }
  }

  lemma StopKeeps(c: Codec, installation: string, sys: System, e: Event, written: nat, renamed: bool)
    requires ValidCodec(c) && SystemOK(c, installation, sys)
    ensures SystemOK(c, installation, Act(c, installation, sys, AppendStops(e, written, renamed)))
  {
    hide Accepts, InStep, LogBytes, ValidRecord, ExtendsChain, Chain, Replay, Writes, After, Frame;
    if sys.handle.Some? && Writes(c, installation, sys.disk, sys.handle.value, e) {
      var r := NextRecord(installation, sys.handle.value, e);
      var frame := FrameOf(c, r);
      WritesAppendable(c, installation, sys, e);
      CommittedNext(c, installation, sys.durable, r);
      assert (sys.durable + [r])[|sys.durable|] == r;
      assert frame[..|frame|] == frame;
      var after := Act(c, installation, sys, AppendStops(e, written, renamed));
      if after.pending.Some? {
        var k := if written < |frame| then written else |frame|;
        assert after.disk == TornDisk(c, sys.durable, r, k);
        LongerThanHeader(c, r);
        assert TornBytes(c, after) == k;
      }
    }
  }

  /** The opening is the relabelled replay of exactly these records, on a settled disk. */
  predicate Answers(c: Codec, installation: string, opening: Opening, records: seq<Record>) {
    && opening.Opened? && Committed(c, installation, records)
    && opening.state == MarkAll(Projection(c, installation, records))
    && opening.head == HeadOf(c, records) && opening.count == |records|
    && opening.disk == SettledDisk(c, records)
  }

  /** An open answers what the durable records say, and leaves a settled disk. */
  lemma OpenSystem(c: Codec, installation: string, sys: System)
    requires ValidCodec(c) && SystemOK(c, installation, sys)
    ensures var opening := Open(c, installation, sys.disk);
      if sys.pending.Some? && TornBytes(c, sys) == HEADER_SIZE then opening == CannotOpen(Corrupt)
      else opening.Opened? && Answers(c, installation, opening, Adopted(sys, opening.count))
           && |Adopted(sys, opening.count)| <= MAX_RECORDS && |LogBytes(c, Adopted(sys, opening.count))| <= MAX_LOG
  {
    hide Open, LogBytes, MarkAll, Accepts, Replay, Chain, ExtendsChain, InStep;
    if Settled(c, installation, sys) {
      OpenSettled(c, installation, sys.durable);
    } else {
      OpenTorn(c, installation, sys.durable, sys.pending.value, TornBytes(c, sys));
      CommittedNext(c, installation, sys.durable, sys.pending.value);
      LongerThanHeader(c, sys.pending.value);
    }
  }

  lemma LongerThanHeader(c: Codec, r: Record)
    requires ValidCodec(c)
    ensures |FrameOf(c, r)| > HEADER_SIZE
  {
    assert 0 < |c.encode(r)|;
  }

  lemma ReopenKeeps(c: Codec, installation: string, sys: System, action: Action)
    requires ValidCodec(c) && SystemOK(c, installation, sys) && (action.Reopen? || action.ReopenStops?)
    ensures SystemOK(c, installation, Act(c, installation, sys, action))
  {
    hide Open, LogBytes, MarkAll, InStep, Committed;
    OpenSystem(c, installation, sys);
    var opening := Open(c, installation, sys.disk);
    if opening.Opened? { PlainProjection(c, installation, Adopted(sys, opening.count)); }
  }

  /** A replayed projection and its relabelling are in step. */
  lemma PlainProjection(c: Codec, installation: string, records: seq<Record>)
    requires Committed(c, installation, records)
    ensures InStep(MarkAll(Projection(c, installation, records)), Projection(c, installation, records))
  {
    hide InStep, MarkAll, ProjectionOK;
    ReplayPlain(installation, Events(records));
    MarkedInStep(Projection(c, installation, records));
  }

  lemma {:induction false} ReplayPlain(installation: string, log: seq<Event>)
    requires Replay(installation, log).Some?
    ensures ProjectionOK(Replay(installation, log).value) && PlainAll(Replay(installation, log).value)
    ensures InStep(Replay(installation, log).value, Replay(installation, log).value)
    decreases |log|
  {
    hide Accepts, After, ProjectionOK, PlainAll, Similar;
    if log == [] {
      EmptyInStep();
    } else {
      var front := Replay(installation, log[..|log| - 1]).value;
      ReplayPlain(installation, log[..|log| - 1]);
      RecordAgrees(front, front, installation, log[|log| - 1]);
    }
  }

  lemma {:induction false} RunKeeps(c: Codec, installation: string, actions: seq<Action>)
    requires ValidCodec(c)
    ensures SystemOK(c, installation, Acts(c, installation, actions))
    decreases |actions|
  {
    hide SystemOK, Act;
    if actions == [] {
      CreatedOK(c, installation);
    } else {
      var front, action := actions[..|actions| - 1], actions[|actions| - 1];
      RunKeeps(c, installation, front);
      var sys := Acts(c, installation, front);
      match action {
        case Append(e) => AppendKeeps(c, installation, sys, e);
        case AppendStops(e, written, renamed) => StopKeeps(c, installation, sys, e, written, renamed);
        case _ => ReopenKeeps(c, installation, sys, action);
      }
    }
  }

  lemma CreatedOK(c: Codec, installation: string)
    ensures SystemOK(c, installation, CREATED)
  {
    EmptyInStep();
  }

  // ---------------------------------------------------------------- the main results

  /**
   After any run, opening the disk recovers exactly the durable records, or those and the
   interrupted one; it answers an error if and only if the log was torn exactly behind a frame
   header. In particular the limits of the log never refuse what the journal itself wrote.
  */
  lemma CrashSafety(c: Codec, installation: string, actions: seq<Action>)
    requires ValidCodec(c)
    ensures var sys := Acts(c, installation, actions);
            var opening := Open(c, installation, sys.disk);
      if sys.pending.Some? && |sys.disk.log| == |LogBytes(c, sys.durable)| + HEADER_SIZE then
        opening == CannotOpen(Corrupt)
      else
        || Answers(c, installation, opening, sys.durable)
        || (sys.pending.Some? && Answers(c, installation, opening, sys.durable + [sys.pending.value]))
  {
    hide Open, SystemOK, Acts, LogBytes, Answers;
    RunKeeps(c, installation, actions);
    OpenSystem(c, installation, Acts(c, installation, actions));
  }

  /** The event may be appended: whole, lawful now, and within the limits on records, payload and log. */
  predicate MayAppend(c: Codec, installation: string, sys: System, state: State, e: Event) {
    var previous := if sys.durable == [] then ZERO_DIGEST else c.sha(c.encode(sys.durable[|sys.durable| - 1]));
    var size := |c.encode(Record(|sys.durable| + 1, previous, installation, e))|;
    && ValidID(installation) && Accepts(state, installation, e)
    && |sys.durable| < 262144 && size <= 4194304 && |sys.disk.log| + 44 + size <= 512 * 1024 * 1024
  }

  /** After any run, exactly the events that may be appended become durable; another changes nothing. */
  lemma AppendsExactly(c: Codec, installation: string, actions: seq<Action>, e: Event)
    requires ValidCodec(c) && Acts(c, installation, actions).handle.Some?
    ensures var sys := Acts(c, installation, actions);
            var after := Act(c, installation, sys, Append(e));
      if MayAppend(c, installation, sys, sys.handle.value.state, e)
      then && |after.durable| == |sys.durable| + 1 && sys.durable <= after.durable
           && after.durable[|sys.durable|].event == e && after.handle.Some?
           && after.handle.value.state == After(sys.handle.value.state, installation, e)
      else after == sys
  {
    hide Acts, Accepts, After, Frame, ValidID, InStep, Committed, LogBytes;
    RunKeeps(c, installation, actions);
    var sys := Acts(c, installation, actions);
    var r := NextRecord(installation, sys.handle.value, e);
    FrameSize(c, r);
    AcceptedShape(sys.handle.value.state, installation, e);
  }

  lemma FrameSize(c: Codec, r: Record)
    requires ValidCodec(c)
    ensures |FrameOf(c, r)| == 44 + |c.encode(r)| && |c.encode(r)| > 0
  {
    assert |c.sha(c.encode(r))| == 32;
  }

  lemma AcceptedShape(s: State, installation: string, e: Event)
    ensures Accepts(s, installation, e) ==> ValidShape(e)
  {
  }

  /** What is durable stays so, at its place, in every continuation. */
  lemma {:induction false} DurableStays(c: Codec, installation: string, actions: seq<Action>, more: seq<Action>)
    ensures Acts(c, installation, actions).durable <= Acts(c, installation, actions + more).durable
    decreases |more|
  {
    hide Act;
    if more == [] {
      assert actions + more == actions;
    } else {
      var front := more[..|more| - 1];
      DurableStays(c, installation, actions, front);
      assert (actions + more)[..|actions + more| - 1] == actions + front;
      DurableGrows(c, installation, Acts(c, installation, actions + front), more[|more| - 1]);
    }
  }

  lemma DurableGrows(c: Codec, installation: string, sys: System, action: Action)
    ensures sys.durable <= Act(c, installation, sys, action).durable
  {
    hide Open, Writes, After, Frame;
  }

  /** The opening answers these records, and this one among them at this place. */
  ghost predicate AnswersWith(c: Codec, installation: string, opening: Opening, place: nat, r: Record) {
    exists records :: Answers(c, installation, opening, records) && place < |records| && records[place] == r
  }

  /**
   An append that returned success is never lost: whatever crashes afterwards, every successful
   opening answers records that hold this one at its place.
  */
  lemma SuccessIsDurable(c: Codec, installation: string, actions: seq<Action>, e: Event, more: seq<Action>)
    requires ValidCodec(c)
    requires var sys := Acts(c, installation, actions);
      sys.handle.Some? && Writes(c, installation, sys.disk, sys.handle.value, e)
    ensures var sys := Acts(c, installation, actions);
            var opening := Open(c, installation, Acts(c, installation, actions + [Append(e)] + more).disk);
      opening.Opened? ==>
        AnswersWith(c, installation, opening, |sys.durable|, NextRecord(installation, sys.handle.value, e))
  {
    hide Open, Acts, LogBytes, Answers, Writes;
    var sys := Acts(c, installation, actions);
    var r := NextRecord(installation, sys.handle.value, e);
    var appended := actions + [Append(e)];
    AppendedDurable(c, installation, actions, e);
    DurableStays(c, installation, appended, more);
    CrashSafety(c, installation, appended + more);
    var end := Acts(c, installation, appended + more);
    assert end.durable[|sys.durable|] == r;
    var opening := Open(c, installation, end.disk);
    if opening.Opened? {
      if Answers(c, installation, opening, end.durable) {
        assert AnswersWith(c, installation, opening, |sys.durable|, r);
      } else {
        assert Answers(c, installation, opening, end.durable + [end.pending.value]);
        assert (end.durable + [end.pending.value])[|sys.durable|] == r;
      }
    }
  }

  lemma AppendedDurable(c: Codec, installation: string, actions: seq<Action>, e: Event)
    requires var sys := Acts(c, installation, actions);
      sys.handle.Some? && Writes(c, installation, sys.disk, sys.handle.value, e)
    ensures var sys := Acts(c, installation, actions);
      Acts(c, installation, actions + [Append(e)]).durable == sys.durable + [NextRecord(installation, sys.handle.value, e)]
  {
    hide Writes, After, Frame, Open, Acts;
    LastAct(c, installation, actions, Append(e));
  }

  // ---------------------------------------------------------------- the tear behind the header

  /** A system whose log cannot be opened, and that nobody holds open, never changes again. */
  lemma {:induction false} ClosedForever(c: Codec, installation: string, actions: seq<Action>, more: seq<Action>)
    requires Acts(c, installation, actions).handle.None?
    requires Open(c, installation, Acts(c, installation, actions).disk).CannotOpen?
    ensures Acts(c, installation, actions + more) == Acts(c, installation, actions)
    decreases |more|
  {
    hide Open, Act;
    if more == [] {
      assert actions + more == actions;
    } else {
      var front, last := more[..|more| - 1], more[|more| - 1];
      ClosedForever(c, installation, actions, front);
      assert (actions + more)[..|actions + more| - 1] == actions + front;
      ClosedStays(c, installation, Acts(c, installation, actions), last);
    }
  }

  lemma ClosedStays(c: Codec, installation: string, sys: System, action: Action)
    requires sys.handle.None? && Open(c, installation, sys.disk).CannotOpen?
    ensures Act(c, installation, sys, action) == sys
  {
    hide Open, Writes, After, Frame;
  }

  /**
   Any append that stops when exactly the header of its frame is on disk closes the journal for good:
   every later opening is refused as corrupt, and nothing changes any more.
  */
  lemma TornForever(c: Codec, installation: string, actions: seq<Action>, e: Event, renamed: bool, more: seq<Action>)
    requires ValidCodec(c)
    requires var sys := Acts(c, installation, actions);
      sys.handle.Some? && Writes(c, installation, sys.disk, sys.handle.value, e)
    ensures var torn := Acts(c, installation, actions + [AppendStops(e, HEADER_SIZE, renamed)]);
      && Acts(c, installation, actions + [AppendStops(e, HEADER_SIZE, renamed)] + more) == torn
      && torn.handle.None? && Open(c, installation, torn.disk) == CannotOpen(Corrupt)
  {
    hide Open, Acts, Writes, LogBytes, Answers;
    var sys := Acts(c, installation, actions);
    var stopped := actions + [AppendStops(e, HEADER_SIZE, renamed)];
    LastAct(c, installation, actions, AppendStops(e, HEADER_SIZE, renamed));
    RunKeeps(c, installation, actions);
    StopsAtHeader(c, installation, sys, e, renamed);
    CrashSafety(c, installation, stopped);
    ClosedForever(c, installation, stopped, more);
  }

  lemma StopsAtHeader(c: Codec, installation: string, sys: System, e: Event, renamed: bool)
    requires ValidCodec(c) && SystemOK(c, installation, sys) && sys.handle.Some?
    requires Writes(c, installation, sys.disk, sys.handle.value, e)
    ensures var torn := Act(c, installation, sys, AppendStops(e, HEADER_SIZE, renamed));
      && torn.handle.None? && torn.pending.Some? && torn.durable == sys.durable
      && |torn.disk.log| == |LogBytes(c, torn.durable)| + HEADER_SIZE
  {
    hide Writes, LogBytes, Committed, Frame, After, Open, InStep;
    LongerThanHeader(c, NextRecord(installation, sys.handle.value, e));
  }
}
