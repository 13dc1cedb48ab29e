/** Opening a log: the replay loop, the repair of a torn tail, the repair of a stale head. */
module LogRecovery {
  import opened Basics
  import opened JournalModel
  import opened JournalMachine
  import opened JournalRuns
  import opened LogFrames

  // ---------------------------------------------------------------- the replay loop

  /** How far the loop has come: bytes read, records read, digest of the newest, projection so far. */
  datatype Cursor = Cursor(offset: nat, sequence: nat, digest: Bytes, state: State)
  const START := Cursor(0, 0, ZERO_DIGEST, EMPTY)

  datatype Scan =
    | Rejects(error: Error)
    | Torn(at: Cursor)       // an incomplete frame directly after the checkpoint
    | Reached(at: Cursor)    // the end of the log

  predicate AtHead(at: Cursor, head: Head) {
    at.sequence == head.sequence && at.digest == head.digest
  }

  /** One turn of the loop, on a whole frame. */
  function Advance(c: Codec, installation: string, head: Head, at: Cursor, payload: Bytes, record: Record): Result<Cursor, Error> {
    if record.sequence != at.sequence + 1 || record.previous != at.digest || record.installation != installation then
      Err(Corrupt)
    else match Transition(at.state, installation, record.event)
      case Rejected(_, _) => Err(Corrupt)
      case Accepted(next) =>
        var digest := c.sha(payload);
        if record.sequence == head.sequence && digest != head.digest then Err(Corrupt)
        else if record.sequence > head.sequence + 1 then Err(Corrupt)
        else if record.sequence > MAX_RECORDS then Err(Limit)
        else Ok(Cursor(at.offset + HEADER_SIZE + |payload|, record.sequence, digest, next))
  }

  function ScanFrom(c: Codec, installation: string, head: Head, log: Bytes, at: Cursor): Scan
    requires at.offset <= |log|
    decreases |log| - at.offset
  {
    match ReadPiece(c, log, at.offset)
    case End => Reached(at)
    case Fragment => if AtHead(at, head) then Torn(at) else Rejects(Corrupt)
    case Broken(error) => Rejects(error)
    case Whole(payload, record) =>
      match Advance(c, installation, head, at, payload, record)
      case Err(error) => Rejects(error)
      case Ok(next) => ScanFrom(c, installation, head, log, next)
  }

  // ---------------------------------------------------------------- opening

  datatype Opening =
    | CannotOpen(error: Error)
    | Opened(state: State, head: Head, count: nat, disk: Disk, truncated: nat, repaired: bool)

  predicate ValidHead(head: Head) {
    head.sequence == 0 ==> head.digest == ZERO_DIGEST
  }

  /** What opening this disk answers, and the disk it leaves behind when nothing interrupts it. */
  function Open(c: Codec, installation: string, disk: Disk): Opening {
    if !ValidHead(disk.head) then CannotOpen(Corrupt)
    else if |disk.log| > MAX_LOG then CannotOpen(Limit)
    else match ScanFrom(c, installation, disk.head, disk.log, START)
      case Rejects(error) => CannotOpen(error)
      case Torn(at) =>
        Opened(MarkAll(at.state), disk.head, at.sequence, TruncatedTo(disk, at.offset),
               if at.offset <= |disk.log| then |disk.log| - at.offset else 0, false)
      case Reached(at) => Checkpoint(disk, at)
  }

  function TruncatedTo(disk: Disk, offset: nat): Disk {
    if offset <= |disk.log| then disk.(log := disk.log[..offset]) else disk
  }

  /** The checks and the repair after the last frame. */
  function Checkpoint(disk: Disk, at: Cursor): Opening {
    if at.sequence < disk.head.sequence || (at.sequence == disk.head.sequence && at.digest != disk.head.digest) then
      CannotOpen(Corrupt)
    else if at.sequence > disk.head.sequence then
      if at.sequence != disk.head.sequence + 1 then CannotOpen(Corrupt) else
      var repaired := Head(at.sequence, at.digest);
      Opened(MarkAll(at.state), repaired, at.sequence, disk.(head := repaired), 0, true)
    else
      Opened(MarkAll(at.state), disk.head, at.sequence, disk, 0, false)
  }

  // ---------------------------------------------------------------- committed records

  /** These records form a chain whose events the replay accepts. */
  predicate Committed(c: Codec, installation: string, records: seq<Record>) {
    Chain(c, installation, records) && Replay(installation, Events(records)).Some?
  }

  function Projection(c: Codec, installation: string, records: seq<Record>): State
    requires Committed(c, installation, records)
  {
    Replay(installation, Events(records)).value
  }

  function CursorAfter(c: Codec, installation: string, records: seq<Record>): Cursor
    requires Committed(c, installation, records)
  {
    Cursor(|LogBytes(c, records)|, |records|, DigestOf(c, records), Projection(c, installation, records))
  }

  /** Committed records seen from a checkpoint that is at most one record behind or ahead of none. */
  predicate Checkpointed(c: Codec, records: seq<Record>, head: Head) {
    && |records| <= head.sequence + 1 && |records| <= MAX_RECORDS
    && (head.sequence <= |records| ==> DigestOf(c, records[..head.sequence]) == head.digest)
  }

  lemma CommittedFront(c: Codec, installation: string, records: seq<Record>)
    requires Committed(c, installation, records) && records != []
    ensures var front, last := records[..|records| - 1], records[|records| - 1];
      && Committed(c, installation, front) && ExtendsChain(c, installation, front, last)
      && Accepts(Projection(c, installation, front), installation, last.event)
      && Projection(c, installation, records) == After(Projection(c, installation, front), installation, last.event)
      && LogBytes(c, records) == LogBytes(c, front) + Frame(c, c.encode(last))
  {
    hide Accepts, After, ValidRecord;
    assert Events(records)[..|records| - 1] == Events(records[..|records| - 1]);
  }

  lemma CommittedNext(c: Codec, installation: string, records: seq<Record>, r: Record)
    requires Committed(c, installation, records) && ExtendsChain(c, installation, records, r)
    requires Accepts(Projection(c, installation, records), installation, r.event)
    ensures Committed(c, installation, records + [r])
    ensures Projection(c, installation, records + [r]) == After(Projection(c, installation, records), installation, r.event)
    ensures LogBytes(c, records + [r]) == LogBytes(c, records) + Frame(c, c.encode(r))
  {
    hide Accepts, After, ValidRecord;
    assert (records + [r])[..|records|] == records;
    assert Events(records + [r])[..|records|] == Events(records);
  }

  /** One turn of the loop moves from a committed prefix to the next. */
  lemma AdvanceOne(c: Codec, installation: string, head: Head, records: seq<Record>, r: Record)
    requires ValidCodec(c) && Committed(c, installation, records) && ExtendsChain(c, installation, records, r)
    requires Accepts(Projection(c, installation, records), installation, r.event)
    requires Checkpointed(c, records + [r], head)
    ensures Committed(c, installation, records + [r])
    ensures Advance(c, installation, head, CursorAfter(c, installation, records), c.encode(r), r)
            == Ok(CursorAfter(c, installation, records + [r]))
  {
    hide After, Transition, ValidRecord, Chain, Replay;
    CommittedNext(c, installation, records, r);
    AcceptsMeans(Projection(c, installation, records), installation, r.event);
    if head.sequence == |records| + 1 { assert (records + [r])[..head.sequence] == records + [r]; }
  }

  lemma AcceptsMeans(s: State, installation: string, e: Event)
    requires Accepts(s, installation, e)
    ensures Transition(s, installation, e) == Accepted(After(s, installation, e))
  {
    hide Transition;
  }

  lemma CheckpointedFront(c: Codec, records: seq<Record>, head: Head)
    requires Checkpointed(c, records, head) && records != []
    ensures Checkpointed(c, records[..|records| - 1], head)
  {
    if head.sequence < |records| {
      assert records[..|records| - 1][..head.sequence] == records[..head.sequence];
    }
  }

  /** The replay loop reads any committed log back, whatever follows it. */
  lemma {:induction false} ScanCommitted(c: Codec, installation: string, head: Head, records: seq<Record>, tail: Bytes)
    requires ValidCodec(c) && Committed(c, installation, records) && Checkpointed(c, records, head)
    ensures ScanFrom(c, installation, head, LogBytes(c, records) + tail, START)
            == ScanFrom(c, installation, head, LogBytes(c, records) + tail, CursorAfter(c, installation, records))
    decreases |records|
  {
    hide Advance, ReadPiece, Accepts, After, Checkpointed, ExtendsChain, ValidCodec, Frame;
    if records == [] {
      assert CursorAfter(c, installation, records) == START;
    } else {
      var front, last := records[..|records| - 1], records[|records| - 1];
      var log := LogBytes(c, records) + tail;
      CommittedFront(c, installation, records);
      CheckpointedFront(c, records, head);
      var frame := Frame(c, c.encode(last));
      ScanCommitted(c, installation, head, front, frame + tail);
      assert log == LogBytes(c, front) + (frame + tail);
      assert front + [last] == records;
      AdvanceOne(c, installation, head, front, last);
      assert log[|LogBytes(c, front)|..] == frame + tail;
      ReadsLast(c, installation, log, front, last);
    }
  }

  lemma ReadsLast(c: Codec, installation: string, log: Bytes, front: seq<Record>, last: Record)
    requires ValidCodec(c) && ExtendsChain(c, installation, front, last)
    requires |LogBytes(c, front)| <= |log| && Frame(c, c.encode(last)) <= log[|LogBytes(c, front)|..]
    ensures ReadPiece(c, log, |LogBytes(c, front)|) == Whole(c.encode(last), last)
  {
    hide ReadPiece, LogBytes;
    ReadBack(c, log, |LogBytes(c, front)|, last);
  }
}
