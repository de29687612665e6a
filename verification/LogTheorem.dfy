module LogTheorem {
  // What the reader makes of a file that the writer wrote, whole or cut off by a crash.

  import opened ByteStrings
  import opened Keys
  import opened Coding
  import opened LogFormat
  import opened LogReading

  /** From `p` on, the file holds `s`, or as much of `s` as it has room for. */
  ghost predicate Holds(file: Bytes, p: nat, s: Bytes) {
    p <= |file| && if p + |s| <= |file| then file[p..p + |s|] == s else file[p..] == s[..|file| - p]
  }

  lemma HoldsParts(file: Bytes, p: nat, a: Bytes, b: Bytes)
    requires Holds(file, p, a + b)
    ensures Holds(file, p, a)
    ensures p + |a| <= |file| ==> Holds(file, p + |a|, b)
  {
    var s := a + b;
    var n := if p + |s| <= |file| then |s| else |file| - p;
    assert file[p..p + n] == s[..n];
    if |a| <= n {
      assert file[p..p + |a|] == file[p..p + n][..|a|] == s[..|a|] == a;
      assert file[p + |a|..p + n] == file[p..p + n][|a|..] == s[..n][|a|..] == b[..n - |a|];
    } else {
      assert s[..n] == a[..n];
    }
  }

  lemma LengthBack(n: nat, rest: Bytes)
    requires n < 65536
    ensures DecodeFixed(2, EncodeFixed(2, n) + rest) == n
  {
    assert Pow256(2) == 256 * Pow256(1);
    FixedRoundTrip(2, n, rest);
  }

  /** A buffer that starts with a written physical record gives that record back. */
  lemma ParseWritten(crc: Checksum, buffer: Bytes, full: bool, p: nat, kind: Byte, data: Bytes, rest: Bytes)
    requires Sound(crc) && |data| < 65536 && kind != 0 && buffer == Physical(crc, kind, data) + rest
    ensures ParseBuffer(crc, buffer, full, p) == Fragment(kind, data, p + HEADER_SIZE + |data|)
  {
    assert buffer[..4] == crc.stamp([kind] + data);
    assert buffer[4..] == EncodeFixed(2, |data|) + ([kind] + data + rest);
    LengthBack(|data|, [kind] + data + rest);
    assert buffer[6] == kind;
    assert buffer[6..HEADER_SIZE + |data|] == [kind] + data;
    assert buffer[HEADER_SIZE..HEADER_SIZE + |data|] == data;
  }

  /** A buffer cut off inside a physical record ends the file. */
  lemma ParseCut(crc: Checksum, buffer: Bytes, p: nat, kind: Byte, data: Bytes)
    requires |data| < 65536 && HEADER_SIZE <= |buffer| < HEADER_SIZE + |data|
    requires buffer == Physical(crc, kind, data)[..|buffer|]
    ensures ParseBuffer(crc, buffer, false, p) == EndOfFile
  {
    var cut := ([kind] + data)[..|buffer| - 6];
    assert buffer[4..] == EncodeFixed(2, |data|) + cut;
    LengthBack(|data|, cut);
  }

  function Parsed(file: Bytes, q: nat, kind: Byte, data: Bytes): Piece {
    if q + HEADER_SIZE + |data| <= |file| then Fragment(kind, data, q + HEADER_SIZE + |data|) else EndOfFile
  }

  /** Reading at the start of a physical record. */
  lemma PhysicalBack(crc: Checksum, file: Bytes, q: nat, kind: Byte, data: Bytes)
    requires Sound(crc) && q % BLOCK_SIZE + HEADER_SIZE + |data| <= BLOCK_SIZE && kind != 0
    requires Holds(file, q, Physical(crc, kind, data))
    ensures ParsePhysical(crc, file, q) == Parsed(file, q, kind, data)
  {
    var e := BufferEnd(file, q);
    var s := Physical(crc, kind, data);
    if q + |s| <= |file| {
      assert e >= q + |s|;
      assert file[q..e] == s + file[q + |s|..e];
      ParseWritten(crc, file[q..e], FullBlock(file, q), q, kind, data, file[q + |s|..e]);
    } else {
      assert !FullBlock(file, q) && e == |file|;
      if e - q >= HEADER_SIZE {
        assert file[q..e] == s[..e - q];
        ParseCut(crc, file[q..e], q, kind, data);
      }
    }
  }

  /** Position `p` is at offset `off` in a block; the end of a block is also its offset. */
  predicate Aligned(p: nat, off: nat) {
    (p - off) % BLOCK_SIZE == 0
  }

  function AfterPiece(p: nat, off: nat, left: nat): nat
    requires off <= BLOCK_SIZE
  {
    p + Trailer(off) + HEADER_SIZE + FragmentLength(off, left)
  }

  /** The trailer before a physical record is skipped. */
  lemma TrailerSkipped(crc: Checksum, file: Bytes, p: nat, off: nat)
    requires p <= |file| && off <= BLOCK_SIZE && Aligned(p, off)
    ensures p + Trailer(off) <= |file| ==>
      ParsePhysical(crc, file, p) == ParsePhysical(crc, file, p + Trailer(off))
      && (p + Trailer(off)) % BLOCK_SIZE == StartOffset(off)
    ensures p + Trailer(off) > |file| ==> ParsePhysical(crc, file, p) == EndOfFile
  {
    AlignedOffset(p, off);
    OffsetAfter(p, off, 0);
    AlignedOffset(p + Trailer(off), StartOffset(off));
    if 0 < Trailer(off) {
      assert BufferEnd(file, p) == if p + Trailer(off) <= |file| then p + Trailer(off) else |file|;
    }
  }

  lemma AlignedOffset(p: nat, off: nat)
    requires off <= BLOCK_SIZE && Aligned(p, off)
    ensures Aligned(p - off + BLOCK_SIZE, 0)
    ensures p % BLOCK_SIZE == if off == BLOCK_SIZE then 0 else off
  {}

  lemma OffsetAfter(p: nat, off: nat, left: nat)
    requires off <= BLOCK_SIZE && Aligned(p, off)
    ensures Aligned(p + Trailer(off), StartOffset(off))
    ensures Aligned(AfterPiece(p, off, left), NextOffset(off, left))
  {
    AlignedOffset(p, off);
    var next, off' := AfterPiece(p, off, left), NextOffset(off, left);
    assert next - off' == p - off || next - off' == p - off + BLOCK_SIZE;
  }

  /** The reader finds the next fragment of a record, and what is behind it. */
  lemma PieceBack(crc: Checksum, file: Bytes, p: nat, off: nat, kind: Byte, chunk: Bytes, rest: Bytes)
    requires Sound(crc) && off <= BLOCK_SIZE && Aligned(p, off)
    requires kind != 0 && StartOffset(off) + HEADER_SIZE + |chunk| <= BLOCK_SIZE
    requires Holds(file, p, Zeros(Trailer(off)) + (Physical(crc, kind, chunk) + rest))
    ensures var next := p + Trailer(off) + HEADER_SIZE + |chunk|;
            && (next <= |file| ==> Holds(file, next, rest))
            && ParsePhysical(crc, file, p) == if next <= |file| then Fragment(kind, chunk, next) else EndOfFile
  {
    hide ParsePhysical, Physical;
    if p + Trailer(off) <= |file| {
      StartAfterTrailer(p, off);
      Behind(crc, file, p, Trailer(off), kind, chunk, rest);
    }
    var next := p + Trailer(off) + HEADER_SIZE + |chunk|;
    SkipTo(crc, file, p, off, if next <= |file| then Fragment(kind, chunk, next) else EndOfFile);
  }

  lemma StartAfterTrailer(p: nat, off: nat)
    requires off <= BLOCK_SIZE && Aligned(p, off)
    ensures (p + Trailer(off)) % BLOCK_SIZE == StartOffset(off)
  {
    OffsetAfter(p, off, 0);
    AlignedOffset(p + Trailer(off), StartOffset(off));
  }

  lemma SkipTo(crc: Checksum, file: Bytes, p: nat, off: nat, r: Piece)
    requires p <= |file| && off <= BLOCK_SIZE && Aligned(p, off)
    requires if p + Trailer(off) <= |file| then ParsePhysical(crc, file, p + Trailer(off)) == r else r == EndOfFile
    ensures ParsePhysical(crc, file, p) == r
  {
    TrailerSkipped(crc, file, p, off);
  }

  lemma Behind(crc: Checksum, file: Bytes, p: nat, pad: nat, kind: Byte, chunk: Bytes, rest: Bytes)
    requires Sound(crc) && (p + pad) % BLOCK_SIZE + HEADER_SIZE + |chunk| <= BLOCK_SIZE && kind != 0
    requires Holds(file, p, Zeros(pad) + (Physical(crc, kind, chunk) + rest)) && p + pad <= |file|
    ensures var next := p + pad + HEADER_SIZE + |chunk|;
            && (next <= |file| ==> Holds(file, next, rest))
            && ParsePhysical(crc, file, p + pad) == if next <= |file| then Fragment(kind, chunk, next) else EndOfFile
  {
    BehindTrailer(file, p, pad, Physical(crc, kind, chunk) + rest);
    HeadBack(crc, file, p + pad, kind, chunk, rest);
  }

  lemma BehindTrailer(file: Bytes, p: nat, n: nat, s: Bytes)
    requires Holds(file, p, Zeros(n) + s) && p + n <= |file|
    ensures Holds(file, p + n, s)
  {
    HoldsParts(file, p, Zeros(n), s);
  }

  lemma HeadBack(crc: Checksum, file: Bytes, q: nat, kind: Byte, chunk: Bytes, rest: Bytes)
    requires Sound(crc) && q % BLOCK_SIZE + HEADER_SIZE + |chunk| <= BLOCK_SIZE && kind != 0
    requires Holds(file, q, Physical(crc, kind, chunk) + rest)
    ensures var next := q + HEADER_SIZE + |chunk|;
            && (next <= |file| ==> Holds(file, next, rest))
            && ParsePhysical(crc, file, q) == if next <= |file| then Fragment(kind, chunk, next) else EndOfFile
  {
    HoldsParts(file, q, Physical(crc, kind, chunk), rest);
    PhysicalBack(crc, file, q, kind, chunk);
  }

  /** A physical record and the padding before it. */
  datatype Chunk = Chunk(pad: nat, kind: Byte, data: Bytes)

  function Size(c: Chunk): nat {
    c.pad + HEADER_SIZE + |c.data|
  }

  function Layout(crc: Checksum, cs: seq<Chunk>): Bytes {
    if cs == [] then []
    else Zeros(cs[0].pad) + (Physical(crc, cs[0].kind, cs[0].data) + Layout(crc, cs[1..]))
  }

  lemma {:induction false} LayoutJoin(crc: Checksum, a: seq<Chunk>, b: seq<Chunk>)
    ensures Layout(crc, a + b) == Layout(crc, a) + Layout(crc, b)
  {
    if a == [] {
      assert a + b == b;
    } else {
      LayoutJoin(crc, a[1..], b);
      assert (a + b)[1..] == a[1..] + b;
      var x, y := Zeros(a[0].pad), Physical(crc, a[0].kind, a[0].data);
      Associative(y, Layout(crc, a[1..]), Layout(crc, b));
      Associative(x, y + Layout(crc, a[1..]), Layout(crc, b));
    }
  }

  /** Every physical record stays within its block, and the padding is the block's trailer. */
  predicate Fits(off: nat, cs: seq<Chunk>)
    decreases |cs|
  {
    cs != [] ==>
      && off <= BLOCK_SIZE && cs[0].pad == Trailer(off) && cs[0].kind != 0
      && StartOffset(off) + HEADER_SIZE + |cs[0].data| <= BLOCK_SIZE
      && Fits(StartOffset(off) + HEADER_SIZE + |cs[0].data|, cs[1..])
  }

  /** The chunks from `p` on that are complete in a file of `size` bytes, as the reader sees them. */
  function Found(p: nat, cs: seq<Chunk>, size: nat): seq<Piece>
    decreases |cs|
  {
    if cs == [] || p + Size(cs[0]) > size then []
    else [Fragment(cs[0].kind, cs[0].data, p + Size(cs[0]))] + Found(p + Size(cs[0]), cs[1..], size)
  }

  lemma PiecesStep(crc: Checksum, file: Bytes, p: nat, r: Piece)
    requires p <= |file| && ParsePhysical(crc, file, p) == r
    ensures Pieces(crc, file, p) == if r.EndOfFile? then [] else [r] + Pieces(crc, file, r.next)
  {}

  lemma LayoutHead(crc: Checksum, file: Bytes, p: nat, off: nat, cs: seq<Chunk>)
    requires Sound(crc) && off <= BLOCK_SIZE && Aligned(p, off) && Fits(off, cs)
    requires cs != [] && Holds(file, p, Layout(crc, cs))
    ensures var next := p + Size(cs[0]);
            && Aligned(next, StartOffset(off) + HEADER_SIZE + |cs[0].data|)
            && (next <= |file| ==> Holds(file, next, Layout(crc, cs[1..])))
            && ParsePhysical(crc, file, p) == if next <= |file| then Fragment(cs[0].kind, cs[0].data, next) else EndOfFile
  {
    hide Holds, ParsePhysical, Physical, Aligned;
    PieceBack(crc, file, p, off, cs[0].kind, cs[0].data, Layout(crc, cs[1..]));
    OffsetAfter(p, off, |cs[0].data|);
  }

  /** What is laid out in blocks is found again. */
  lemma {:induction false} LayoutIsFound(crc: Checksum, file: Bytes, p: nat, off: nat, cs: seq<Chunk>)
    requires Sound(crc) && off <= BLOCK_SIZE && Aligned(p, off) && Fits(off, cs)
    requires Holds(file, p, Layout(crc, cs)) && |file| <= p + |Layout(crc, cs)|
    ensures Pieces(crc, file, p) == Found(p, cs, |file|)
    decreases |cs|
  {
    if cs == [] {
      NothingLeft(crc, file);
    } else {
      var c, next := cs[0], p + Size(cs[0]);
      LayoutHead(crc, file, p, off, cs);
      if next <= |file| {
        PiecesStep(crc, file, p, Fragment(c.kind, c.data, next));
        LayoutSize(crc, cs);
        LayoutIsFound(crc, file, next, StartOffset(off) + HEADER_SIZE + |c.data|, cs[1..]);
      } else {
        PiecesStep(crc, file, p, EndOfFile);
      }
    }
  }

  lemma LayoutSize(crc: Checksum, cs: seq<Chunk>)
    requires cs != []
    ensures |Layout(crc, cs)| == Size(cs[0]) + |Layout(crc, cs[1..])|
  {}

  lemma NothingLeft(crc: Checksum, file: Bytes)
    ensures Pieces(crc, file, |file|) == []
  {
    assert !FullBlock(file, |file|);
  }

  /** The physical records of a logical record. */
  function Plan(off: nat, data: Bytes, begin: bool): seq<Chunk>
    requires off <= BLOCK_SIZE
    decreases |data|, BLOCK_SIZE - off
  {
    var n := FragmentLength(off, |data|);
    [Chunk(Trailer(off), FragmentKind(begin, n == |data|), data[..n])]
      + if n == |data| then [] else Plan(NextOffset(off, |data|), data[n..], false)
  }

  function PlanAll(off: nat, records: seq<Bytes>): seq<Chunk>
    requires off <= BLOCK_SIZE
    decreases records
  {
    if records == [] then [] else Plan(off, records[0], true) + PlanAll(EmitOffset(off, |records[0]|), records[1..])
  }

  lemma {:induction false} EmitIsLayout(crc: Checksum, off: nat, data: Bytes, begin: bool)
    requires off <= BLOCK_SIZE
    ensures Emit(crc, off, data, begin) == Layout(crc, Plan(off, data, begin))
    decreases |data|, BLOCK_SIZE - off
  {
    var n := FragmentLength(off, |data|);
    var plan := Plan(off, data, begin);
    if n < |data| {
      EmitIsLayout(crc, NextOffset(off, |data|), data[n..], false);
      assert plan[1..] == Plan(NextOffset(off, |data|), data[n..], false);
    } else {
      assert plan[1..] == [] && Layout(crc, []) == [];
    }
  }

  lemma {:induction false} EmitAllIsLayout(crc: Checksum, off: nat, records: seq<Bytes>)
    requires off <= BLOCK_SIZE
    ensures EmitAll(crc, off, records) == Layout(crc, PlanAll(off, records))
    decreases records
  {
    if records != [] {
      var off' := EmitOffset(off, |records[0]|);
      EmitIsLayout(crc, off, records[0], true);
      EmitAllIsLayout(crc, off', records[1..]);
      LayoutJoin(crc, Plan(off, records[0], true), PlanAll(off', records[1..]));
    }
  }

  lemma ConsJoin(c: Chunk, tail: seq<Chunk>, more: seq<Chunk>)
    ensures [c] + tail + more == [c] + (tail + more) && ([c] + (tail + more))[1..] == tail + more
  {}

  lemma {:induction false} PlanFits(off: nat, data: Bytes, begin: bool, more: seq<Chunk>)
    requires off <= BLOCK_SIZE && Fits(EmitOffset(off, |data|), more)
    ensures Fits(off, Plan(off, data, begin) + more)
    decreases |data|, BLOCK_SIZE - off
  {
    var n := FragmentLength(off, |data|);
    var c := Chunk(Trailer(off), FragmentKind(begin, n == |data|), data[..n]);
    if n < |data| {
      PlanFits(NextOffset(off, |data|), data[n..], false, more);
      ConsJoin(c, Plan(NextOffset(off, |data|), data[n..], false), more);
    } else {
      ConsJoin(c, [], more);
      assert [] + more == more;
    }
  }

  lemma {:induction false} PlanAllFits(off: nat, records: seq<Bytes>)
    requires off <= BLOCK_SIZE
    ensures Fits(off, PlanAll(off, records))
    decreases records
  {
    if records != [] {
      PlanAllFits(EmitOffset(off, |records[0]|), records[1..]);
      PlanFits(off, records[0], true, PlanAll(EmitOffset(off, |records[0]|), records[1..]));
    }
  }

  /** How many bytes a record takes, with all its headers and padding. */
  function RecordSize(off: nat, left: nat): (n: nat)
    requires off <= BLOCK_SIZE
    ensures n > 0
    decreases left, BLOCK_SIZE - off
  {
    var n := FragmentLength(off, left);
    Trailer(off) + HEADER_SIZE + n + if n == left then 0 else RecordSize(NextOffset(off, left), left - n)
  }

  function AllSize(off: nat, records: seq<Bytes>): nat
    requires off <= BLOCK_SIZE
    decreases records
  {
    if records == [] then 0 else RecordSize(off, |records[0]|) + AllSize(EmitOffset(off, |records[0]|), records[1..])
  }

  lemma {:induction false} EmitSize(crc: Checksum, off: nat, data: Bytes, begin: bool)
    requires off <= BLOCK_SIZE
    ensures |Emit(crc, off, data, begin)| == RecordSize(off, |data|)
    decreases |data|, BLOCK_SIZE - off
  {
    var n := FragmentLength(off, |data|);
    if n < |data| {
      EmitSize(crc, NextOffset(off, |data|), data[n..], false);
    }
  }

  lemma {:induction false} EmitAllSize(crc: Checksum, off: nat, records: seq<Bytes>)
    requires off <= BLOCK_SIZE
    ensures |EmitAll(crc, off, records)| == AllSize(off, records)
    decreases records
  {
    if records != [] {
      EmitSize(crc, off, records[0], true);
      EmitAllSize(crc, EmitOffset(off, |records[0]|), records[1..]);
    }
  }

  function Whole(scratch: Option<Bytes>, data: Bytes): Bytes {
    if scratch.Some? then scratch.value + data else data
  }

  lemma FoundOne(p: nat, cs: seq<Chunk>, size: nat)
    requires cs != [] && p + Size(cs[0]) <= size
    ensures var ps, next := Found(p, cs, size), p + Size(cs[0]);
            ps != [] && ps[0] == Fragment(cs[0].kind, cs[0].data, next) && ps[1..] == Found(next, cs[1..], size)
  {}

  lemma LastPiece(ps: seq<Piece>, data: Bytes, next: nat, scratch: Option<Bytes>)
    requires ps != [] && ps[0] == Fragment(FragmentKind(scratch.None?, true), data, next)
    ensures NextRecord(ps, scratch) == Record(Whole(scratch, data), 1, 0)
  {}

  lemma MoreToCome(ps: seq<Piece>, chunk: Bytes, next: nat, scratch: Option<Bytes>)
    requires ps != [] && ps[0] == Fragment(FragmentKind(scratch.None?, false), chunk, next)
    ensures NextRecord(ps, scratch) == After(1, 0, NextRecord(ps[1..], Some(Whole(scratch, chunk))))
  {}

  lemma Joined(scratch: Option<Bytes>, data: Bytes, n: nat)
    requires n <= |data|
    ensures Whole(Some(Whole(scratch, data[..n])), data[n..]) == Whole(scratch, data)
  {
    assert data == data[..n] + data[n..];
  }

  /** `ps` starts with exactly this record, and `more` is behind it. */
  ghost predicate StartsWith(ps: seq<Piece>, scratch: Option<Bytes>, data: Bytes, more: seq<Piece>) {
    var r := NextRecord(ps, scratch);
    r.Record? && r.data == data && r.reports == 0 && ps[r.used..] == more
  }

  lemma StartsWithMore(ps: seq<Piece>, chunk: Bytes, next: nat, scratch: Option<Bytes>, data: Bytes, more: seq<Piece>)
    requires ps != [] && ps[0] == Fragment(FragmentKind(scratch.None?, false), chunk, next)
    requires StartsWith(ps[1..], Some(Whole(scratch, chunk)), data, more)
    ensures StartsWith(ps, scratch, data, more)
  {
    MoreToCome(ps, chunk, next, scratch);
  }

  lemma PlanHead(p: nat, off: nat, data: Bytes, begin: bool, more: seq<Chunk>, size: nat)
    requires off <= BLOCK_SIZE && AfterPiece(p, off, |data|) <= size
    ensures var n, next := FragmentLength(off, |data|), AfterPiece(p, off, |data|);
            var ps := Found(p, Plan(off, data, begin) + more, size);
            && ps != [] && ps[0] == Fragment(FragmentKind(begin, n == |data|), data[..n], next)
            && ps[1..] == Found(next, (if n == |data| then [] else Plan(NextOffset(off, |data|), data[n..], false)) + more, size)
  {
    var n := FragmentLength(off, |data|);
    var c := Chunk(Trailer(off), FragmentKind(begin, n == |data|), data[..n]);
    var tail := if n == |data| then [] else Plan(NextOffset(off, |data|), data[n..], false);
    ConsJoin(c, tail, more);
    FoundOne(p, [c] + (tail + more), size);
  }

  /** The reader undoes the fragmentation of one record. */
  lemma {:induction false} RecordBack(p: nat, off: nat, data: Bytes, scratch: Option<Bytes>, more: seq<Chunk>, size: nat)
    requires off <= BLOCK_SIZE && p + RecordSize(off, |data|) <= size
    ensures StartsWith(Found(p, Plan(off, data, scratch.None?) + more, size), scratch, Whole(scratch, data),
                       Found(p + RecordSize(off, |data|), more, size))
    decreases |data|, BLOCK_SIZE - off
  {
    hide Plan, Found, NextRecord;
    var n, next := FragmentLength(off, |data|), AfterPiece(p, off, |data|);
    var ps := Found(p, Plan(off, data, scratch.None?) + more, size);
    PlanHead(p, off, data, scratch.None?, more, size);
    if n == |data| {
      assert data[..n] == data && [] + more == more;
      LastPiece(ps, data, next, scratch);
    } else {
      RecordBack(next, NextOffset(off, |data|), data[n..], Some(Whole(scratch, data[..n])), more, size);
      Joined(scratch, data, n);
      StartsWithMore(ps, data[..n], next, scratch, Whole(scratch, data), Found(p + RecordSize(off, |data|), more, size));
    }
  }

  /** In a file cut off inside a record, the reader comes to the end without a record or a report. */
  lemma {:induction false} RecordCut(p: nat, off: nat, data: Bytes, scratch: Option<Bytes>, more: seq<Chunk>, size: nat)
    requires off <= BLOCK_SIZE && size < p + RecordSize(off, |data|)
    ensures NextRecord(Found(p, Plan(off, data, scratch.None?) + more, size), scratch) == NoMore(0)
    decreases |data|, BLOCK_SIZE - off
  {
    var n, next := FragmentLength(off, |data|), AfterPiece(p, off, |data|);
    if next <= size {
      PlanHead(p, off, data, scratch.None?, more, size);
      RecordCut(next, NextOffset(off, |data|), data[n..], Some(Whole(scratch, data[..n])), more, size);
      MoreToCome(Found(p, Plan(off, data, scratch.None?) + more, size), data[..n], next, scratch);
    }
  }

  /** The records of which the first `n` bytes of the log hold every byte. */
  function Complete(off: nat, records: seq<Bytes>, n: nat): (k: nat)
    requires off <= BLOCK_SIZE
    ensures k <= |records|
    decreases records
  {
    if records == [] || n < RecordSize(off, |records[0]|) then 0
    else 1 + Complete(EmitOffset(off, |records[0]|), records[1..], n - RecordSize(off, |records[0]|))
  }

  /** Of a log cut off at `size`, reading gives exactly the complete records, without any report. */
  lemma {:induction false} AllBack(p: nat, off: nat, records: seq<Bytes>, size: nat)
    requires off <= BLOCK_SIZE && p <= size
    ensures AllRecords(Found(p, PlanAll(off, records), size)) == (records[..Complete(off, records, size - p)], 0)
    decreases records
  {
    hide Plan, Found, NextRecord, AllRecords, RecordSize;
    if records != [] {
      var next, off' := p + RecordSize(off, |records[0]|), EmitOffset(off, |records[0]|);
      var more := PlanAll(off', records[1..]);
      assert PlanAll(off, records) == Plan(off, records[0], true) + more;
      if next <= size {
        RecordBack(p, off, records[0], None, more, size);
        AllBack(next, off', records[1..], size);
        OneMore(Found(p, PlanAll(off, records), size), records, Found(next, more, size), Complete(off', records[1..], size - next));
      } else {
        RecordCut(p, off, records[0], None, more, size);
        NoRecord(Found(p, PlanAll(off, records), size));
      }
    } else {
      NothingBack(p, size);
    }
  }

  lemma NothingBack(p: nat, size: nat)
    ensures AllRecords(Found(p, [], size)) == ([], 0)
  {}

  lemma NoRecord(ps: seq<Piece>)
    requires NextRecord(ps, None) == NoMore(0)
    ensures AllRecords(ps) == ([], 0)
  {}

  lemma OneMore(ps: seq<Piece>, records: seq<Bytes>, more: seq<Piece>, k: nat)
    requires k < |records| && StartsWith(ps, None, records[0], more)
    requires AllRecords(more) == (records[1..][..k], 0)
    ensures AllRecords(ps) == (records[..k + 1], 0)
  {
    assert [records[0]] + records[1..][..k] == records[..k + 1];
  }

  /** The first `k` records fit into `n` bytes, and one more would not. */
  lemma {:induction false} CompleteIsMost(off: nat, records: seq<Bytes>, n: nat)
    requires off <= BLOCK_SIZE
    ensures var k := Complete(off, records, n);
            && AllSize(off, records[..k]) <= n
            && (k < |records| ==> n < AllSize(off, records[..k + 1]))
    decreases records
  {
    if records != [] {
      var size, off' := RecordSize(off, |records[0]|), EmitOffset(off, |records[0]|);
      if n >= size {
        CompleteIsMost(off', records[1..], n - size);
        var k := Complete(off', records[1..], n - size);
        assert records[..k + 1][1..] == records[1..][..k];
        if k + 1 < |records| {
          assert records[..k + 2][1..] == records[1..][..k + 1];
        }
      }
    }
  }

  lemma {:induction false} PrefixIsShorter(off: nat, records: seq<Bytes>, k: nat)
    requires off <= BLOCK_SIZE && k <= |records|
    ensures AllSize(off, records[..k]) <= AllSize(off, records)
    decreases records
  {
    if k > 0 {
      PrefixIsShorter(EmitOffset(off, |records[0]|), records[1..], k - 1);
      assert records[..k][1..] == records[1..][..k - 1];
    }
  }

  /** After a crash that leaves any prefix of the log, recovery reads exactly the records that
      are complete in it, and reports no corruption. */
  lemma CrashPrefix(crc: Checksum, records: seq<Bytes>, n: nat) returns (k: nat)
    requires Sound(crc) && n <= |EmitAll(crc, 0, records)|
    ensures k <= |records| && |EmitAll(crc, 0, records[..k])| <= n
    ensures k < |records| ==> n < |EmitAll(crc, 0, records[..k + 1])|
    ensures AllRecords(Pieces(crc, EmitAll(crc, 0, records)[..n], 0)) == (records[..k], 0)
  {
    k := Complete(0, records, n);
    CutIsRead(crc, records, n);
    EmitAllSize(crc, 0, records[..k]);
    CompleteIsMost(0, records, n);
    if k < |records| {
      EmitAllSize(crc, 0, records[..k + 1]);
    }
  }

  lemma CutIsRead(crc: Checksum, records: seq<Bytes>, n: nat)
    requires Sound(crc) && n <= |EmitAll(crc, 0, records)|
    ensures AllRecords(Pieces(crc, EmitAll(crc, 0, records)[..n], 0)) == (records[..Complete(0, records, n)], 0)
  {
    var plan := PlanAll(0, records);
    EmitAllIsLayout(crc, 0, records);
    PlanAllFits(0, records);
    LayoutIsFound(crc, Layout(crc, plan)[..n], 0, 0, plan);
    AllBack(0, 0, records, n);
  }

  /** A whole log reads back as the records written to it. */
  lemma LogRoundTrip(crc: Checksum, records: seq<Bytes>)
    requires Sound(crc)
    ensures AllRecords(Pieces(crc, EmitAll(crc, 0, records), 0)) == (records, 0)
  {
    var file := EmitAll(crc, 0, records);
    assert file[..|file|] == file;
    var k := CrashPrefix(crc, records, |file|);
    if k < |records| {
      PrefixIsShorter(0, records, k + 1);
      EmitAllSize(crc, 0, records);
      EmitAllSize(crc, 0, records[..k + 1]);
    }
    assert records[..|records|] == records;
  }

  /** The block offset after a list of records. */
  function OffsetAfterAll(off: nat, records: seq<Bytes>): (o: nat)
    requires off <= BLOCK_SIZE
    ensures o <= BLOCK_SIZE
    decreases records
  {
    if records == [] then off else OffsetAfterAll(EmitOffset(off, |records[0]|), records[1..])
  }

  lemma {:induction false} PlanAllJoin(off: nat, before: seq<Bytes>, after: seq<Bytes>)
    requires off <= BLOCK_SIZE
    ensures PlanAll(off, before + after) == PlanAll(off, before) + PlanAll(OffsetAfterAll(off, before), after)
    decreases before
  {
    if before == [] {
      assert before + after == after;
    } else {
      var off' := EmitOffset(off, |before[0]|);
      PlanAllJoin(off', before[1..], after);
      assert (before + after)[1..] == before[1..] + after;
      Associative(Plan(off, before[0], true), PlanAll(off', before[1..]), PlanAll(OffsetAfterAll(off', before[1..]), after));
    }
  }

  lemma EmitAllJoin(crc: Checksum, before: seq<Bytes>, after: seq<Bytes>)
    ensures EmitAll(crc, 0, before + after) == EmitAll(crc, 0, before) + EmitAll(crc, OffsetAfterAll(0, before), after)
  {
    PlanAllJoin(0, before, after);
    EmitAllIsLayout(crc, 0, before);
    EmitAllIsLayout(crc, 0, before + after);
    EmitAllIsLayout(crc, OffsetAfterAll(0, before), after);
    LayoutJoin(crc, PlanAll(0, before), PlanAll(OffsetAfterAll(0, before), after));
  }

  lemma {:induction false} EndAligned(p: nat, off: nat, left: nat)
    requires off <= BLOCK_SIZE && Aligned(p, off)
    ensures Aligned(p + RecordSize(off, left), EmitOffset(off, left))
    decreases left, BLOCK_SIZE - off
  {
    var n := FragmentLength(off, left);
    OffsetAfter(p, off, left);
    if n < left {
      EndAligned(AfterPiece(p, off, left), NextOffset(off, left), left - n);
    }
  }

  lemma {:induction false} AllAligned(p: nat, off: nat, records: seq<Bytes>)
    requires off <= BLOCK_SIZE && Aligned(p, off)
    ensures Aligned(p + AllSize(off, records), OffsetAfterAll(off, records))
    decreases records
  {
    if records != [] {
      EndAligned(p, off, |records[0]|);
      AllAligned(p + RecordSize(off, |records[0]|), EmitOffset(off, |records[0]|), records[1..]);
    }
  }

  /** A writer opened on an existing log, at the offset its length gives, continues it. */
  lemma ReopenedContinues(crc: Checksum, before: seq<Bytes>, after: seq<Bytes>)
    ensures var file := EmitAll(crc, 0, before);
            EmitAll(crc, 0, before + after) == file + EmitAll(crc, |file| % BLOCK_SIZE, after)
  {
    var off := OffsetAfterAll(0, before);
    EmitAllJoin(crc, before, after);
    EmitAllSize(crc, 0, before);
    AllAligned(0, 0, before);
    AlignedOffset(AllSize(0, before), off);
    SameAtBlockEnd(crc, off, after);
  }

  lemma SameAtBlockEnd(crc: Checksum, off: nat, records: seq<Bytes>)
    requires off <= BLOCK_SIZE
    ensures EmitAll(crc, off, records) == EmitAll(crc, if off == BLOCK_SIZE then 0 else off, records)
  {
    if off == BLOCK_SIZE && records != [] {
      assert Emit(crc, BLOCK_SIZE, records[0], true) == Emit(crc, 0, records[0], true);
    }
  }
}
