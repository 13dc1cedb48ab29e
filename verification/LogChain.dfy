/**
 What an accepted log is: exactly the frames of a chain of records that the transitions accept.
 Because each record names the digest of the one before, the checkpoint pins down every committed
 byte.
*/
module LogChain {
  import opened Basics
  import opened JournalModel
  import opened JournalMachine
  import opened JournalRuns
  import opened LogFrames
  import opened LogRecovery

  /** The records the replay loop goes on to read from `at`, up to where it stops. */
  function RecordsFrom(c: Codec, installation: string, head: Head, log: Bytes, at: Cursor): seq<Record>
    requires at.offset <= |log|
    decreases |log| - at.offset
  {
    match ReadPiece(c, log, at.offset)
    case Whole(payload, record) =>
      (match Advance(c, installation, head, at, payload, record)
       case Err(_) => []
       case Ok(next) => [record] + RecordsFrom(c, installation, head, log, next))
    case _ => []
  }

  function RecordsOf(c: Codec, installation: string, disk: Disk): seq<Record> {
    RecordsFrom(c, installation, disk.head, disk.log, START)
  }

  /** The loop stands behind the committed records `done` of this log. */
  predicate StandsAfter(c: Codec, installation: string, head: Head, log: Bytes, at: Cursor, done: seq<Record>) {
    && Committed(c, installation, done) && at == CursorAfter(c, installation, done) && |done| <= MAX_RECORDS
    && at.offset <= |log| && log[..at.offset] == LogBytes(c, done)
    && (0 < head.sequence <= |done| ==> DigestOf(c, done[..head.sequence]) == head.digest)
  }

  lemma AdvanceExtends(c: Codec, installation: string, head: Head, log: Bytes, at: Cursor, done: seq<Record>)
    requires StandsAfter(c, installation, head, log, at, done)
    requires ReadPiece(c, log, at.offset).Whole?
    requires var piece := ReadPiece(c, log, at.offset);
             Advance(c, installation, head, at, piece.payload, piece.record).Ok?
    ensures var piece := ReadPiece(c, log, at.offset);
            StandsAfter(c, installation, head, log,
                        Advance(c, installation, head, at, piece.payload, piece.record).value, done + [piece.record])
    decreases |log| - at.offset
  {
    hide ReadPiece, Transition, LogBytes, Chain, Replay, ValidRecord;
    var piece := ReadPiece(c, log, at.offset);
    var next := Advance(c, installation, head, at, piece.payload, piece.record).value;
    var done' := done + [piece.record];
    StepAccepted(c, installation, at, done, piece.record);
    CommittedNext(c, installation, done, piece.record);
    FrameAt(c, log, at.offset);
    FrameSize(c, log, at.offset);
    assert log[..next.offset] == log[..at.offset] + log[at.offset..next.offset];
    if head.sequence <= |done| { assert done'[..head.sequence] == done[..head.sequence]; }
    if head.sequence == |done'| { assert done'[..head.sequence] == done'; }
  }

  lemma FrameSize(c: Codec, log: Bytes, offset: nat)
    requires offset <= |log| && ReadPiece(c, log, offset).Whole?
    ensures var payload := ReadPiece(c, log, offset).payload;
            |Frame(c, payload)| == HEADER_SIZE + |payload| && FitsFrame(payload)
  {
    FrameAt(c, log, offset);
  }

  lemma StepAccepted(c: Codec, installation: string, at: Cursor, done: seq<Record>, r: Record)
    requires Committed(c, installation, done) && at == CursorAfter(c, installation, done)
    requires ValidRecord(r) && FitsFrame(c.encode(r))
    requires r.sequence == at.sequence + 1 && r.previous == at.digest && r.installation == installation
    requires Transition(at.state, installation, r.event).Accepted?
    ensures ExtendsChain(c, installation, done, r)
    ensures Accepts(Projection(c, installation, done), installation, r.event)
  {
    hide Transition, LogBytes, Chain, Replay;
  }

  /** Whatever the loop read is a committed chain, and the log begins with exactly its frames. */
  lemma {:induction false} ScanSound(c: Codec, installation: string, head: Head, log: Bytes, at: Cursor, done: seq<Record>)
    requires at.offset <= |log| && StandsAfter(c, installation, head, log, at, done)
    ensures var end := ScanFrom(c, installation, head, log, at);
            !end.Rejects? ==>
              StandsAfter(c, installation, head, log, end.at, done + RecordsFrom(c, installation, head, log, at))
    decreases |log| - at.offset
  {
    hide StandsAfter, ReadPiece, Advance;
    var piece := ReadPiece(c, log, at.offset);
    if piece.Whole? && Advance(c, installation, head, at, piece.payload, piece.record).Ok? {
      var next := Advance(c, installation, head, at, piece.payload, piece.record).value;
      AdvanceExtends(c, installation, head, log, at, done);
      AdvanceMoves(c, installation, head, log, at);
      StandsInside(c, installation, head, log, next, done + [piece.record]);
      ScanSound(c, installation, head, log, next, done + [piece.record]);
      assert done + RecordsFrom(c, installation, head, log, at)
             == done + [piece.record] + RecordsFrom(c, installation, head, log, next);
    } else {
      assert done + [] == done;
    }
  }

  lemma AdvanceMoves(c: Codec, installation: string, head: Head, log: Bytes, at: Cursor)
    requires at.offset <= |log| && ReadPiece(c, log, at.offset).Whole?
    ensures var piece := ReadPiece(c, log, at.offset);
            var moved := Advance(c, installation, head, at, piece.payload, piece.record);
            moved.Ok? ==> at.offset < moved.value.offset <= |log|
  {
    hide ReadPiece, Transition;
  }

  lemma StandsInside(c: Codec, installation: string, head: Head, log: Bytes, at: Cursor, done: seq<Record>)
    requires StandsAfter(c, installation, head, log, at, done)
    ensures at.offset <= |log|
  {
    hide Committed, LogBytes;
  }

  /**
   An accepted log is the frames of a committed chain, followed by at most a torn frame, and the
   chain passes through the checkpoint.
  */
  lemma OpenSound(c: Codec, installation: string, disk: Disk)
    requires Open(c, installation, disk).Opened?
    ensures var records := RecordsOf(c, installation, disk);
      && Committed(c, installation, records)
      && LogBytes(c, records) <= disk.log && |disk.log| <= 512 * 1024 * 1024 && |records| <= 262144
      && disk.head.sequence <= |records| <= disk.head.sequence + 1
      && DigestOf(c, records[..disk.head.sequence]) == disk.head.digest
      && Open(c, installation, disk).disk.log == LogBytes(c, records)
      && Open(c, installation, disk).state == MarkAll(Projection(c, installation, records))
  {
    hide ReadPiece, MarkAll, Chain, Replay, LogBytes, ScanFrom, Advance;
    var records := RecordsOf(c, installation, disk);
    NothingRead(c, installation, disk);
    ScanSound(c, installation, disk.head, disk.log, START, []);
    assert [] + records == records;
    var end := ScanFrom(c, installation, disk.head, disk.log, START);
    assert StandsAfter(c, installation, disk.head, disk.log, end.at, records);
    assert |records| == end.at.sequence;
    ReachesEnd(c, installation, disk.head, disk.log, START);
    assert disk.log[..|disk.log|] == disk.log;
    assert records[..|records|] == records;
    assert records[..0] == [];
  }

  lemma NothingRead(c: Codec, installation: string, disk: Disk)
    ensures StandsAfter(c, installation, disk.head, disk.log, START, [])
  {
  }

  lemma {:induction false} ReachesEnd(c: Codec, installation: string, head: Head, log: Bytes, at: Cursor)
    requires at.offset <= |log| && !ScanFrom(c, installation, head, log, at).Rejects?
    ensures var end := ScanFrom(c, installation, head, log, at);
            if end.Torn? then AtHead(end.at, head) else end.at.offset == |log|
    decreases |log| - at.offset
  {
    hide Transition;
    var piece := ReadPiece(c, log, at.offset);
    if piece.Whole? {
      ReachesEnd(c, installation, head, log, Advance(c, installation, head, at, piece.payload, piece.record).value);
    }
  }

  // ---------------------------------------------------------------- the checkpoint pins the bytes

  /** No record of one log collides with a record of the other under the digest. */
  predicate NoCollision(c: Codec, left: seq<Record>, right: seq<Record>) {
    forall r, q | r in left && q in right :: c.sha(c.encode(r)) == c.sha(c.encode(q)) ==> c.encode(r) == c.encode(q)
  }

  lemma {:induction false} ChainAt(c: Codec, installation: string, records: seq<Record>, j: nat)
    requires Chain(c, installation, records) && j < |records|
    ensures ExtendsChain(c, installation, records[..j], records[j])
    decreases |records|
  {
    hide ExtendsChain;
    if j < |records| - 1 {
      ChainAt(c, installation, records[..|records| - 1], j);
      assert records[..|records| - 1][..j] == records[..j];
    }
  }

  /** Going back from equal digests, all earlier records are equal. */
  lemma {:induction false} ChainsAgree(c: Codec, installation: string, left: seq<Record>, right: seq<Record>, n: nat)
    requires ValidCodec(c) && Chain(c, installation, left) && Chain(c, installation, right)
    requires NoCollision(c, left, right) && n <= |left| && n <= |right|
    requires DigestOf(c, left[..n]) == DigestOf(c, right[..n])
    ensures left[..n] == right[..n]
    decreases n
  {
    hide Chain, ValidRecord, FitsFrame;
    if n > 0 {
      var (r, q) := (left[n - 1], right[n - 1]);
      assert left[..n][n - 1] == r && right[..n][n - 1] == q;
      assert r in left && q in right;
      assert c.decode(c.encode(r)) == Some(r) && c.decode(c.encode(q)) == Some(q);
      ChainAt(c, installation, left, n - 1);
      ChainAt(c, installation, right, n - 1);
      ChainsAgree(c, installation, left, right, n - 1);
      assert left[..n] == left[..n - 1] + [r] && right[..n] == right[..n - 1] + [q];
    }
  }

  lemma {:induction false} PrefixBytes(c: Codec, records: seq<Record>, n: nat)
    requires n <= |records|
    ensures LogBytes(c, records[..n]) <= LogBytes(c, records)
    decreases |records|
  {
    hide Frame;
    if n < |records| {
      PrefixBytes(c, records[..|records| - 1], n);
      assert records[..|records| - 1][..n] == records[..n];
    } else {
      assert records[..n] == records;
    }
  }

  /**
   Two logs that open against the same checkpoint, and whose records do not collide, begin with the
   same bytes up to the end of the last committed frame.
  */
  lemma CheckpointPinsLog(c: Codec, installation: string, left: Disk, right: Disk)
    requires ValidCodec(c) && left.head == right.head
    requires Open(c, installation, left).Opened? && Open(c, installation, right).Opened?
    requires NoCollision(c, RecordsOf(c, installation, left), RecordsOf(c, installation, right))
    ensures var n := left.head.sequence;
            var records := RecordsOf(c, installation, left);
      && n <= |records| && n <= |RecordsOf(c, installation, right)|
      && records[..n] == RecordsOf(c, installation, right)[..n]
      && LogBytes(c, records[..n]) <= left.log && LogBytes(c, records[..n]) <= right.log
  {
    hide Open, LogBytes, NoCollision, RecordsOf, MarkAll, Replay, Chain;
    OpenSound(c, installation, left);
    OpenSound(c, installation, right);
    var n, lr, rr := left.head.sequence, RecordsOf(c, installation, left), RecordsOf(c, installation, right);
    ChainsAgree(c, installation, lr, rr, n);
    PrefixBytes(c, lr, n);
    PrefixBytes(c, rr, n);
  }
}
