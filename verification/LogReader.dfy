/** The log reader (db/log_reader.cc), reading a whole file from its start. */
module LogReading {
  import opened ByteStrings
  import opened Keys
  import opened Coding
  import opened LogFormat

  datatype Piece = Fragment(kind: Byte, data: Bytes, next: nat) | EndOfFile | Bad(next: nat, reported: bool)

  /** Is the block around `p` completely in the file? */
  predicate FullBlock(file: Bytes, p: nat) {
    p - p % BLOCK_SIZE + BLOCK_SIZE <= |file|
  }

  /** Where the buffer that holds position `p` ends. */
  function BufferEnd(file: Bytes, p: nat): (e: nat)
    requires p <= |file|
    ensures p <= e <= |file| && (FullBlock(file, p) ==> p < e)
  {
    if FullBlock(file, p) then p - p % BLOCK_SIZE + BLOCK_SIZE else |file|
  }

  function HeaderLength(buffer: Bytes): nat
    requires |buffer| >= HEADER_SIZE
  {
    DecodeFixed(2, buffer[4..])
  }

  /** What a buffer with at least a header in it starts with.  `full` buffers end at a block boundary,
      others at the end of the file. */
  function ParseBuffer(crc: Checksum, buffer: Bytes, full: bool, p: nat): Piece
    requires |buffer| >= HEADER_SIZE
  {
    var length := HeaderLength(buffer);
    if HEADER_SIZE + length > |buffer| then
      if full then Bad(p + |buffer|, true) else EndOfFile
    else if buffer[6] == 0 && length == 0 then Bad(p + |buffer|, false)
    else if !crc.check(buffer[..4], buffer[6..HEADER_SIZE + length]) then
      Bad(p + |buffer|, true)
    else Fragment(buffer[6], buffer[HEADER_SIZE..HEADER_SIZE + length], p + HEADER_SIZE + length)
  }

  /** The physical record at position `p`; a remainder too short for a header is a trailer. */
  function ParsePhysical(crc: Checksum, file: Bytes, p: nat): (r: Piece)
    requires p <= |file|
    ensures !r.EndOfFile? ==> p < r.next <= |file|
    decreases |file| - p
  {
    var e := BufferEnd(file, p);
    if e - p < HEADER_SIZE then
      if FullBlock(file, p) then ParsePhysical(crc, file, e) else EndOfFile
    else ParseBuffer(crc, file[p..e], FullBlock(file, p), p)
  }

  /** The physical records from position `p` to the end of the file. */
  function Pieces(crc: Checksum, file: Bytes, p: nat): seq<Piece>
    requires p <= |file|
    decreases |file| - p
  {
    var r := ParsePhysical(crc, file, p);
    if r.EndOfFile? then [] else [r] + Pieces(crc, file, r.next)
  }

  function One(condition: bool): nat {
    if condition then 1 else 0
  }

  /** Record types that stand for what a reader finds; a stored type byte is taken for them all the same. */
  const END_OF_FILE: Byte := 5
  const BAD_RECORD: Byte := 6

  /** Does reading stop here? */
  predicate Ends(r: Piece) {
    r.EndOfFile? || (r.Fragment? && r.kind == END_OF_FILE)
  }

  /** What one physical record does to the fragments gathered so far: it completes a logical
      record or leaves more fragments, perhaps with a complaint. */
  datatype Outcome = Done(data: Bytes, complaints: nat) | More(scratch: Option<Bytes>, complaints: nat)

  function Gather(scratch: Option<Bytes>, r: Piece): Outcome
    requires !Ends(r)
  {
    var partial := One(scratch.Some? && |scratch.value| > 0);
    match r
    case Bad(_, reported) => More(None, One(reported) + One(scratch.Some?))
    case Fragment(kind, data, _) =>
      if kind == FULL then Done(data, partial)
      else if kind == FIRST then More(Some(data), partial)
      else if kind == MIDDLE then if scratch.None? then More(None, 1) else More(Some(scratch.value + data), 0)
      else if kind == LAST then if scratch.None? then More(None, 1) else Done(scratch.value + data, 0)
      else if kind == BAD_RECORD then More(None, One(scratch.Some?))
      else More(None, 1)
  }

  /** A logical record and the number of physical records used up, or the end of the file; and
      the corruptions reported on the way. */
  datatype Logical = Record(data: Bytes, used: nat, reports: nat) | NoMore(reports: nat)

  function After(k: nat, said: nat, r: Logical): Logical {
    match r
    case Record(data, used, reports) => Record(data, k + used, said + reports)
    case NoMore(reports) => NoMore(said + reports)
  }

  /** The logical record at the head of `ps`, with `scratch` the fragments gathered so far, if any. */
  function NextRecord(ps: seq<Piece>, scratch: Option<Bytes>): (r: Logical)
    ensures r.Record? ==> 0 < r.used <= |ps|
    decreases |ps|
  {
    if ps == [] || Ends(ps[0]) then NoMore(0)
    else
      match Gather(scratch, ps[0])
      case Done(data, said) => Record(data, 1, said)
      case More(gathered, said) => After(1, said, NextRecord(ps[1..], gathered))
  }

  /** Every record, with the number of reports. */
  function AllRecords(ps: seq<Piece>): (seq<Bytes>, nat)
    decreases |ps|
  {
    match NextRecord(ps, None)
    case NoMore(reports) => ([], reports)
    case Record(data, used, reports) =>
      var (records, more) := AllRecords(ps[used..]);
      ([data] + records, reports + more)
  }

  class Reader {
    const crc: Checksum
    const file: Bytes
    var readPos: nat
    var buffer: Bytes
    var eof: bool
    /** How many corruptions the reporter was told of. */
    var reports: nat

    ghost predicate Valid()
      reads `readPos, `buffer, `eof
    {
      && |buffer| <= readPos <= |file| && |buffer| <= BLOCK_SIZE
      && buffer == file[readPos - |buffer|..readPos]
      && (if eof then readPos == |file| && |buffer| <= |file| % BLOCK_SIZE else readPos % BLOCK_SIZE == 0)
    }

    /** The position the next physical record is read from. */
    ghost function Position(): (p: nat)
      requires Valid()
      reads `readPos, `buffer, `eof
      ensures p <= |file|
    {
      readPos - |buffer|
    }

    /** What there is still to read. */
    ghost function Rest(): seq<Piece>
      requires Valid()
      reads `readPos, `buffer, `eof
    {
      Pieces(crc, file, Position())
    }

    constructor (crc: Checksum, file: Bytes)
      ensures Valid() && Position() == 0 && reports == 0 && this.crc == crc && this.file == file
    {
      this.crc, this.file := crc, file;
      readPos, buffer, eof, reports := 0, [], false, 0;
    }

    method ReadPhysicalRecord() returns (r: Piece)
      requires Valid()
      modifies this
      ensures Valid()
      ensures if r.EndOfFile? then old(Rest()) == [] else old(Rest()) == [r] + Rest()
      ensures reports == old(reports) + One(r.Bad? && r.reported)
    {
      while |buffer| < HEADER_SIZE
        invariant Valid() && reports == old(reports)
        invariant Rest() == old(Rest())
        decreases !eof, |file| - readPos
      {
        BufferIsBlock();
        if eof {
          buffer := [];
          return EndOfFile;
        }
        FillBuffer();
      }
      r := TakePhysical();
    }

    /** Takes the first physical record off the buffer. */
    method TakePhysical() returns (r: Piece)
      requires Valid() && |buffer| >= HEADER_SIZE
      modifies this
      ensures Valid()
      ensures r == ParsePhysical(crc, file, old(Position()))
      ensures !r.EndOfFile? ==> Position() == r.next
      ensures reports == old(reports) + One(r.Bad? && r.reported)
    {
      BufferParses();
      r := ParseBuffer(crc, buffer, !eof, readPos - |buffer|);
      if r.Fragment? {
        Drop(file, readPos - |buffer|, readPos, HEADER_SIZE + HeaderLength(buffer));
        buffer := buffer[HEADER_SIZE + HeaderLength(buffer)..];
      } else {
        buffer := [];
      }
      if r.Bad? && r.reported {
        reports := reports + 1;
      }
    }

    lemma BufferParses()
      requires Valid() && |buffer| >= HEADER_SIZE
      ensures ParsePhysical(crc, file, Position()) == ParseBuffer(crc, buffer, !eof, Position())
    {
      BufferIsBlock();
    }

    /** The buffer is the rest of the block around the position, cut at the end of the file. */
    lemma BufferIsBlock()
      requires Valid()
      ensures eof || buffer != [] ==> BufferEnd(file, Position()) == readPos && FullBlock(file, Position()) == !eof
    {
      var p := Position();
      if eof {
        assert |file| - |file| % BLOCK_SIZE <= p <= |file|;
        ModOffset(|file| - |file| % BLOCK_SIZE, p - (|file| - |file| % BLOCK_SIZE));
      } else if buffer != [] {
        ModOffset(readPos - BLOCK_SIZE, BLOCK_SIZE - |buffer|);
      }
    }

    /** Drops a trailer and reads the next block, or what the file still has of it. */
    method FillBuffer()
      requires Valid() && !eof && |buffer| < HEADER_SIZE
      modifies this
      ensures Valid() && reports == old(reports)
      ensures Rest() == old(Rest())
      ensures (eof && readPos == |file|) || readPos > old(readPos)
    {
      BufferIsBlock();
      ghost var p := Position();
      assert buffer != [] ==> ParsePhysical(crc, file, p) == ParsePhysical(crc, file, readPos);
      var n := Least(BLOCK_SIZE, |file| - readPos);
      ShortRead(readPos, |file|);
      buffer := file[readPos..readPos + n];
      readPos := readPos + n;
      if |buffer| < BLOCK_SIZE {
        eof := true;
      }
    }

    /** Gathers the fragments of the next logical record. */
    method ReadRecord() returns (record: Option<Bytes>)
      requires Valid()
      modifies this
      ensures Valid()
      ensures match NextRecord(old(Rest()), None)
              case Record(data, used, n) => record == Some(data) && Rest() == old(Rest())[used..] && reports == old(reports) + n
              case NoMore(n) => record == None && reports == old(reports) + n
    {
      var scratch: Option<Bytes> := None;
      ghost var ps, k := Rest(), 0;
      while true
        invariant Valid() && k <= |ps| && Rest() == ps[k..] && reports >= old(reports)
        invariant NextRecord(ps, None) == After(k, reports - old(reports), NextRecord(Rest(), scratch))
        decreases |ps| - k
      {
        assert k < |ps| ==> ps[k..][1..] == ps[k + 1..];
        var finished;
        finished, record, scratch := Turn(scratch);
        k := k + 1;
        if finished {
          return;
        }
      }
    }

    /** One turn of that loop. */
    method Turn(scratch: Option<Bytes>) returns (finished: bool, record: Option<Bytes>, more: Option<Bytes>)
      requires Valid()
      modifies this
      ensures Valid() && reports >= old(reports)
      ensures !finished || record.Some? ==> old(Rest()) != [] && Rest() == old(Rest())[1..]
      ensures var r, said := NextRecord(old(Rest()), scratch), reports - old(reports);
              if !finished then r == After(1, said, NextRecord(Rest(), more))
              else if record.Some? then r == Record(record.value, 1, said)
              else r == NoMore(said)
    {
      var physical := ReadPhysicalRecord();
      if Ends(physical) {
        return true, None, None;
      }
      record, more := Append(scratch, physical);
      finished := record.Some?;
    }

    /** Adds one physical record to the fragments gathered so far. */
    method Append(gathered: Option<Bytes>, physical: Piece) returns (record: Option<Bytes>, scratch: Option<Bytes>)
      requires !Ends(physical)
      modifies this`reports
      ensures reports + One(physical.Bad? && physical.reported) == old(reports) + Gather(gathered, physical).complaints
      ensures match Gather(gathered, physical)
              case Done(data, _) => record == Some(data)
              case More(more, _) => record == None && scratch == more
    {
      record, scratch := None, gathered;
      match physical {
        case Bad(_, _) =>
          if gathered.Some? {
            reports := reports + 1;
            scratch := None;
          }
        case Fragment(kind, data, _) =>
          if kind == FULL {
            if gathered.Some? && |gathered.value| > 0 {
              reports := reports + 1;
            }
            record := Some(data);
          } else if kind == FIRST {
            if gathered.Some? && |gathered.value| > 0 {
              reports := reports + 1;
            }
            scratch := Some(data);
          } else if kind == MIDDLE {
            if gathered.None? {
              reports := reports + 1;
            } else {
              scratch := Some(gathered.value + data);
            }
          } else if kind == LAST {
            if gathered.None? {
              reports := reports + 1;
            } else {
              record := Some(gathered.value + data);
            }
          } else if kind == BAD_RECORD {
            if gathered.Some? {
              reports := reports + 1;
              scratch := None;
            }
          } else {
            reports := reports + 1;
            scratch := None;
          }
      }
    }

    /** Recovery's loop over a log. */
    method ReadAll() returns (records: seq<Bytes>)
      requires Valid()
      modifies this
      ensures Valid()
      ensures AllRecords(old(Rest())) == (records, reports - old(reports))
    {
      records := [];
      ghost var all := AllRecords(Rest());
      while true
        invariant Valid()
        invariant var (rest, more) := AllRecords(Rest());
                  all.0 == records + rest && all.1 == reports - old(reports) + more
        decreases |Rest()|
      {
        var record := ReadRecord();
        if record.None? {
          assert records + [] == records;
          return;
        }
        records := records + [record.value];
      }
    }
  }

  lemma Drop(file: Bytes, i: nat, j: nat, n: nat)
    requires i + n <= j <= |file|
    ensures file[i..j][n..] == file[i + n..j]
  {}

  lemma ModOffset(start: int, n: nat)
    requires start % BLOCK_SIZE == 0 && n < BLOCK_SIZE
    ensures (start + n) % BLOCK_SIZE == n
  {}

  lemma ShortRead(start: nat, length: nat)
    requires start % BLOCK_SIZE == 0 && start <= length
    ensures length - start < BLOCK_SIZE ==> length % BLOCK_SIZE == length - start
    ensures (start + BLOCK_SIZE) % BLOCK_SIZE == 0
  {}
}
