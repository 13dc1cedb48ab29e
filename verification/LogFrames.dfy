/** The bytes of the log: framed records, each naming the digest of the one before it. */
module LogFrames {
  import opened Basics
  import opened Patterns
  import opened JournalModel
  import opened JournalMachine

  const HEADER_SIZE := 44
  const DIGEST_SIZE := 32
  const MAX_PAYLOAD := 4194304
  const MAX_LOG := 536870912

  /** "GTSJRN01" */
  const MAGIC: Bytes := [71, 84, 83, 74, 82, 78, 48, 49]

  /** The digest that the first record names as its predecessor. */
  const ZERO_DIGEST: Bytes := [0, 0, 0, 0, 0, 0, 0, 0, 0, 0, 0, 0, 0, 0, 0, 0,
                               0, 0, 0, 0, 0, 0, 0, 0, 0, 0, 0, 0, 0, 0, 0, 0]

  /** A record as it is encoded: the chain envelope and the event. */
  datatype Record = Record(sequence: nat, previous: Bytes, installation: string, event: Event)

  /** The durable checkpoint: how many records are committed, and the digest of the newest. */
  datatype Head = Head(sequence: nat, digest: Bytes)

  datatype Disk = Disk(log: Bytes, head: Head)

  /** The library functions the log relies on: canonical encoding, strict decoding, SHA-256. */
  datatype Codec = Codec(encode: Record -> Bytes, decode: Bytes -> Option<Record>, sha: Bytes -> Bytes)

  ghost predicate ValidCodec(c: Codec) {
    && (forall r :: c.decode(c.encode(r)) == Some(r))
    && (forall r :: 0 < |c.encode(r)|)
    && (forall p :: |c.sha(p)| == DIGEST_SIZE)
  }

  // ---------------------------------------------------------------- frames

  function BigEndian(n: nat): (r: Bytes)
    requires n < 0x1_0000_0000
    ensures |r| == 4 && ReadBigEndian(r) == n
  {
    var n1 := n / 0x100;
    var n2 := n1 / 0x100;
    var n3 := n2 / 0x100;
    [n3, n2 % 0x100, n1 % 0x100, n % 0x100]
  }

  function ReadBigEndian(b: Bytes): nat
    requires |b| == 4
  {
    var (b0: int, b1: int, b2: int, b3: int) := (b[0], b[1], b[2], b[3]);
    ((b0 * 0x100 + b1) * 0x100 + b2) * 0x100 + b3
  }

  function Frame(c: Codec, payload: Bytes): Bytes {
    MAGIC + BigEndian(|payload| % 0x1_0000_0000) + c.sha(payload) + payload
  }

  predicate FitsFrame(payload: Bytes) {
    0 < |payload| <= MAX_PAYLOAD
  }

  // ---------------------------------------------------------------- chained records

  predicate ValidRecord(r: Record) {
    && r.sequence >= 1 && ValidID(r.installation) && ValidShape(r.event)
    && |r.previous| == DIGEST_SIZE && (r.sequence == 1 ==> r.previous == ZERO_DIGEST)
  }

  function DigestOf(c: Codec, records: seq<Record>): Bytes {
    if records == [] then ZERO_DIGEST else c.sha(c.encode(records[|records| - 1]))
  }

  function HeadOf(c: Codec, records: seq<Record>): Head {
    Head(|records|, DigestOf(c, records))
  }

  /** May `r` be the record after `records`? */
  predicate ExtendsChain(c: Codec, installation: string, records: seq<Record>, r: Record) {
    && ValidRecord(r)
    && r.sequence == |records| + 1 && r.previous == DigestOf(c, records) && r.installation == installation
    && FitsFrame(c.encode(r))
  }

  predicate Chain(c: Codec, installation: string, records: seq<Record>)
    decreases |records|
  {
    records == []
    || (ExtendsChain(c, installation, records[..|records| - 1], records[|records| - 1])
        && Chain(c, installation, records[..|records| - 1]))
  }

  function LogBytes(c: Codec, records: seq<Record>): Bytes
    decreases |records|
  {
    if records == [] then [] else
    LogBytes(c, records[..|records| - 1]) + Frame(c, c.encode(records[|records| - 1]))
  }

  function Events(records: seq<Record>): seq<Event> {
    seq(|records|, i requires 0 <= i < |records| => records[i].event)
  }

  // ---------------------------------------------------------------- reading one frame

  /** What the log holds at an offset. */
  datatype Piece =
    | End
    | Fragment                              // an unexpected end inside the frame
    | Broken(error: Error)
    | Whole(payload: Bytes, record: Record)

  /**
   The frame that starts at `offset`. A payload of which not a single byte is there reads as a plain
   end of file, which the source does not take for a torn frame.
  */
  function ReadPiece(c: Codec, log: Bytes, offset: nat): (p: Piece)
    requires offset <= |log|
    ensures p.Whole? ==> offset + HEADER_SIZE + |p.payload| <= |log| && FitsFrame(p.payload)
                         && c.encode(p.record) == p.payload && ValidRecord(p.record)
  {
    var rest := log[offset..];
    if rest == [] then End
    else if |rest| < HEADER_SIZE then Fragment
    else if rest[..8] != MAGIC then Broken(Corrupt)
    else
      var length := ReadBigEndian(rest[8..12]);
      if length <= 0 || length > MAX_PAYLOAD then Broken(Corrupt)
      else if |rest| == HEADER_SIZE then Broken(Corrupt)
      else if |rest| < HEADER_SIZE + length then Fragment
      else
        var payload := rest[HEADER_SIZE..HEADER_SIZE + length];
        if rest[12..HEADER_SIZE] != c.sha(payload) then Broken(Corrupt)
        else match c.decode(payload)
          case None => Broken(Corrupt)
          case Some(record) =>
            if c.encode(record) != payload || !ValidRecord(record) then Broken(Corrupt)
            else Whole(payload, record)
  }

  lemma BigEndianInverse(b: Bytes)
    requires |b| == 4
    ensures ReadBigEndian(b) < 0x1_0000_0000 && BigEndian(ReadBigEndian(b)) == b
  {
    var n := ReadBigEndian(b);
    var b0: int, b1: int, b2: int := b[0], b[1], b[2];
    assert n / 0x100 == (b0 * 0x100 + b1) * 0x100 + b2;
    assert n / 0x100 / 0x100 == b0 * 0x100 + b1;
    assert n / 0x100 / 0x100 / 0x100 == b0;
  }

  /** The checks of the reader pin down every byte of the frame. */
  lemma FrameAt(c: Codec, log: Bytes, offset: nat)
    requires offset <= |log| && ReadPiece(c, log, offset).Whole?
    ensures var payload := ReadPiece(c, log, offset).payload;
            log[offset..offset + HEADER_SIZE + |payload|] == Frame(c, payload)
  {
    hide BigEndian, ReadBigEndian, ValidRecord;
    var payload := ReadPiece(c, log, offset).payload;
    var rest := log[offset..];
    BigEndianInverse(rest[8..12]);
    assert log[offset..offset + HEADER_SIZE + |payload|] == rest[..HEADER_SIZE + |payload|];
    assert rest[..HEADER_SIZE + |payload|] == rest[..8] + rest[8..12] + rest[12..HEADER_SIZE]
                                             + rest[HEADER_SIZE..HEADER_SIZE + |payload|];
  }

  /** Reading where a frame starts gives back its record, whatever follows. */
  lemma ReadBack(c: Codec, log: Bytes, offset: nat, r: Record)
    requires ValidCodec(c) && ValidRecord(r) && FitsFrame(c.encode(r)) && offset <= |log|
    requires Frame(c, c.encode(r)) <= log[offset..]
    ensures ReadPiece(c, log, offset) == Whole(c.encode(r), r)
  {
    hide BigEndian, ReadBigEndian, ValidRecord;
    var payload := c.encode(r);
    var rest := log[offset..];
    var frame := Frame(c, payload);
    assert rest[..|frame|] == frame;
    assert rest[..8] == frame[..8] == MAGIC;
    assert rest[8..12] == frame[8..12] == BigEndian(|payload|);
    assert rest[12..HEADER_SIZE] == frame[12..HEADER_SIZE] == c.sha(payload);
    assert rest[HEADER_SIZE..HEADER_SIZE + |payload|] == frame[HEADER_SIZE..] == payload;
  }

  /** Reading a frame of which only the first `k` bytes are there. */
  lemma ReadTorn(c: Codec, log: Bytes, offset: nat, r: Record, k: nat)
    requires ValidCodec(c) && FitsFrame(c.encode(r)) && offset <= |log|
    requires k < |Frame(c, c.encode(r))| && log[offset..] == Frame(c, c.encode(r))[..k]
    ensures ReadPiece(c, log, offset) ==
            if k == 0 then End else if k == HEADER_SIZE then Broken(Corrupt) else Fragment
  {
    hide BigEndian, ReadBigEndian, ValidRecord;
    var payload := c.encode(r);
    var frame := Frame(c, payload);
    var rest := log[offset..];
    assert |rest| == k && |frame| == HEADER_SIZE + |payload|;
    if k >= HEADER_SIZE {
      assert rest[..8] == frame[..8] == MAGIC;
      assert rest[8..12] == frame[8..12] == BigEndian(|payload|);
    }
  }

  /** The bytes of a frame: the magic text, the length with its highest byte first, the digest, the payload. */
  lemma FrameBytes(c: Codec, payload: Bytes)
    requires FitsFrame(payload) && |c.sha(payload)| == 32
    ensures var frame := Frame(c, payload);
      && |frame| == 44 + |payload|
      && frame[..8] == [0x47, 0x54, 0x53, 0x4A, 0x52, 0x4E, 0x30, 0x31]
      && frame[8] == |payload| / 0x100_0000 % 0x100 && frame[9] == |payload| / 0x1_0000 % 0x100
      && frame[10] == |payload| / 0x100 % 0x100 && frame[11] == |payload| % 0x100
      && frame[12..44] == c.sha(payload) && frame[44..] == payload
  {
    hide BigEndian, ReadBigEndian;
    LengthBytes(|payload|);
    var frame := Frame(c, payload);
    assert frame[..8] == MAGIC;
    assert frame[8..12] == BigEndian(|payload|);
    assert frame[8] == frame[8..12][0] && frame[9] == frame[8..12][1] && frame[10] == frame[8..12][2] && frame[11] == frame[8..12][3];
    assert frame[12..44] == c.sha(payload);
    assert frame[44..] == payload;
  }

  lemma LengthBytes(n: nat)
    requires n < 0x1_0000_0000
    ensures BigEndian(n)[0] == n / 0x100_0000 % 0x100 && BigEndian(n)[1] == n / 0x1_0000 % 0x100
    ensures BigEndian(n)[2] == n / 0x100 % 0x100 && BigEndian(n)[3] == n % 0x100
  {
  }
}
