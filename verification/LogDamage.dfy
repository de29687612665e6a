module LogDamage {
  // What is lost when a block of the log is damaged: the records that have a part in it, and no others.

  import opened ByteStrings
  import opened Coding
  import opened Keys
  import opened LogFormat
  import opened LogReading
  import opened LogTheorem
  import opened LogBreaks
  import opened LogCrashes

  // ---- One physical record -------------------------------------------------------------------------------------------

  /** What the bytes at `p` are taken for, in a block that ends at `end`: a length that does not fit, zeros, a wrong
      checksum, or a fragment.  After anything but a fragment the rest of the block is not looked at. */
  lemma PhysicalMeans(crc: Checksum, file: Bytes, p: nat, end: nat)
    requires p + 7 <= end <= |file| && end == if p - p % 32768 + 32768 <= |file| then p - p % 32768 + 32768 else |file|
    ensures var n, kind := LittleEndian(file[p + 4..p + 6]), file[p + 6];
            ParsePhysical(crc, file, p) ==
              if end < p + 7 + n then if end == p - p % 32768 + 32768 then Bad(end, true) else EndOfFile
              else if kind == 0 && n == 0 then Bad(end, false)
              else if !crc.check(file[p..p + 4], file[p + 6..p + 7 + n]) then Bad(end, true)
              else Fragment(kind, file[p + 7..p + 7 + n], p + 7 + n)
  {
    var buffer := file[p..end];
    DecodeFixedMeans(2, buffer[4..]);
    assert buffer[4..][..2] == file[p + 4..p + 6] && buffer[6] == file[p + 6];
    var n := LittleEndian(file[p + 4..p + 6]);
    hide LittleEndian, DecodeFixed;
    assert buffer[..4] == file[p..p + 4];
    if p + 7 + n <= end {
      assert buffer[6..7 + n] == file[p + 6..p + 7 + n] && buffer[7..7 + n] == file[p + 7..p + 7 + n];
    }
  }

  /** What a fragment does to the ones gathered before it depends on its type: 1 is a whole record, 2, 3 and 4 are the
      first, a middle and the last part of one, 5 is taken for the end of the file and 6 for a bad record. */
  lemma FragmentMeans(scratch: Option<Bytes>, kind: Byte, data: Bytes, next: nat)
    ensures LogReading.Ends(Fragment(kind, data, next)) <==> kind == 5
    ensures kind != 5 ==>
      var o := Gather(scratch, Fragment(kind, data, next));
      && Yield(o) == (if kind == 1 then [data] else if kind == 4 && scratch.Some? then [scratch.value + data] else [])
      && Left(o) == (if kind == 2 then Some(data) else if kind == 3 && scratch.Some? then Some(scratch.value + data) else None)
      && o.complaints ==
           if kind in {1, 2} then if scratch.Some? && scratch.value != [] then 1 else 0
           else if kind in {3, 4} then if scratch.None? then 1 else 0
           else if kind == 6 then if scratch.Some? then 1 else 0
           else 1
  {}

  // ---- Blocks are read on their own ----------------------------------------------------------------------------------

  /** Files of one length that are the same from `p` on are read alike from there. */
  lemma {:induction false} SameRest(crc: Checksum, a: Bytes, b: Bytes, p: nat)
    requires |a| == |b| && p <= |a| && a[p..] == b[p..]
    ensures Pieces(crc, a, p) == Pieces(crc, b, p)
    decreases |a| - p
  {
    SamePhysical(crc, a, b, p);
    var r := ParsePhysical(crc, a, p);
    if !r.EndOfFile? {
      assert a[r.next..] == a[p..][r.next - p..] && b[r.next..] == b[p..][r.next - p..];
      SameRest(crc, a, b, r.next);
    }
    hide ParsePhysical;
  }

  lemma {:induction false} SamePhysical(crc: Checksum, a: Bytes, b: Bytes, p: nat)
    requires |a| == |b| && p <= |a| && a[p..] == b[p..]
    ensures ParsePhysical(crc, a, p) == ParsePhysical(crc, b, p)
    decreases |a| - p
  {
    hide ParseBuffer;
    var e := BufferEnd(a, p);
    assert FullBlock(a, p) == FullBlock(b, p) && e == BufferEnd(b, p);
    if e - p >= HEADER_SIZE {
      assert a[p..e] == a[p..][..e - p] && b[p..e] == b[p..][..e - p];
    } else if FullBlock(a, p) {
      assert a[e..] == a[p..][e - p..] && b[e..] == b[p..][e - p..];
      SamePhysical(crc, a, b, e);
    }
  }

  /** Whole blocks have no break at their end. */
  lemma {:induction false} NoBreak(crc: Checksum, file: Bytes, p: nat)
    requires p <= |file| && |file| % BLOCK_SIZE == 0
    ensures Break(crc, file, p) == None
    decreases |file| - p
  {
    WholeBlocks(p, |file|);
    var e := BufferEnd(file, p);
    if p < |file| {
      if e - p < HEADER_SIZE {
        NoBreak(crc, file, e);
      } else {
        match ParseBuffer(crc, file[p..e], FullBlock(file, p), p)
        case Fragment(_, _, next) => NoBreak(crc, file, next);
        case Bad(_, _) => NoBreak(crc, file, e);
        case EndOfFile =>
      }
    }
  }

  lemma WholeBlocks(p: nat, n: nat)
    requires p <= n && n % BLOCK_SIZE == 0
    ensures p < n ==> p - p % BLOCK_SIZE + BLOCK_SIZE <= n
  {}

  /** The blocks before `a` are read as if there was nothing behind them. */
  lemma BlocksBefore(crc: Checksum, file: Bytes, a: nat)
    requires a <= |file| && a % BLOCK_SIZE == 0
    ensures Pieces(crc, file, 0) == Pieces(crc, file[..a], 0) + Pieces(crc, file, a)
  {
    var first := file[..a];
    assert first + file[a..] == file;
    NoBreak(crc, first, 0);
    Longer(crc, first, file[a..], 0);
    BreakEnds(crc, first, 0);
    NothingLeft(crc, first);
    hide Pieces;
    assert BeforeBreak(crc, first, 0) + [] == BeforeBreak(crc, first, 0);
  }

  // ---- What is left of a record ----------------------------------------------------------------------------------------

  /** The fragments of a record whose first ones are missing yield nothing. */
  lemma {:induction false} OrphansYieldNothing(p: nat, off: nat, data: Bytes, more: seq<Chunk>, size: nat)
    requires off <= BLOCK_SIZE && p + RecordSize(off, |data|) <= size
    ensures Fold(LogTheorem.Found(p, Plan(off, data, false) + more, size), None).0
         == Fold(LogTheorem.Found(p + RecordSize(off, |data|), more, size), None).0
    decreases |data|, BLOCK_SIZE - off
  {
    hide Plan, LogTheorem.Found;
    var n, next := FragmentLength(off, |data|), AfterPiece(p, off, |data|);
    PlanHead(p, off, data, false, more, size);
    if n == |data| {
      assert [] + more == more;
    } else {
      OrphansYieldNothing(next, NextOffset(off, |data|), data[n..], more, size);
    }
  }

  /** The log from `p` on is these records, to its end. */
  ghost predicate HoldsTo(crc: Checksum, log: Bytes, p: nat, off: nat, records: seq<Bytes>) {
    p <= |log| && off <= BLOCK_SIZE && Aligned(p, off) && log[p..] == EmitAll(crc, off, records)
  }

  lemma AllFound(crc: Checksum, log: Bytes, p: nat, off: nat, records: seq<Bytes>)
    requires Sound(crc) && HoldsTo(crc, log, p, off, records)
    ensures Pieces(crc, log, p) == LogTheorem.Found(p, PlanAll(off, records), |log|)
    ensures Fold(LogTheorem.Found(p, PlanAll(off, records), |log|), None).0 == records
  {
    hide Fold, Pieces, PlanAll, LogTheorem.Found;
    var plan := PlanAll(off, records);
    EmitAllIsLayout(crc, off, records);
    PlanAllFits(off, records);
    assert p + |Layout(crc, plan)| == |log|;
    LayoutIsFound(crc, log, p, off, plan);
    AllBack(p, off, records, |log|);
    AllComplete(crc, off, records);
    AllIsFold(LogTheorem.Found(p, plan, |log|));
  }

  lemma AllComplete(crc: Checksum, off: nat, records: seq<Bytes>)
    requires off <= BLOCK_SIZE
    ensures Complete(off, records, |EmitAll(crc, off, records)|) == |records|
  {
    EmitAllSize(crc, off, records);
    CompleteIsMost(off, records, AllSize(off, records));
    var k := Complete(off, records, AllSize(off, records));
    if k < |records| {
      PrefixIsShorter(off, records, k + 1);
    }
  }

  lemma NotInside(s: nat, n: nat, e: nat)
    requires s % BLOCK_SIZE + n <= BLOCK_SIZE && e % BLOCK_SIZE == 0 && s < e
    ensures s + n <= e
  {}

  /** A record that begins before the end `e` of a block and ends behind it: nothing comes of its fragments behind `e`. */
  lemma {:induction false} AcrossBlocks(crc: Checksum, log: Bytes, p: nat, off: nat, data: Bytes, begin: bool, more: seq<Bytes>, e: nat)
    requires Sound(crc) && off <= BLOCK_SIZE && Aligned(p, off) && p <= |log| && e <= |log|
    requires log[p..] == Emit(crc, off, data, begin) + EmitAll(crc, EmitOffset(off, |data|), more)
    requires e % BLOCK_SIZE == 0 && p + HEADER_SIZE <= e < p + RecordSize(off, |data|)
    ensures Fold(Pieces(crc, log, e), None).0 == more
    decreases |data|, BLOCK_SIZE - off
  {
    hide Fold, Pieces, EmitAll, Physical, Zeros;
    var n, next := FragmentLength(off, |data|), AfterPiece(p, off, |data|);
    StartAfterTrailer(p, off);
    NotInside(p + Trailer(off), HEADER_SIZE + n, e);
    assert n < |data| && NextOffset(off, |data|) == BLOCK_SIZE;
    OffsetAfter(p, off, |data|);
    FirstPart(crc, log, p, off, data, begin, more);
    if next == e {
      RestYieldsNothing(crc, log, e, BLOCK_SIZE, data[n..], more);
    } else {
      NotInside(next, BLOCK_SIZE, e);
      AcrossBlocks(crc, log, next, BLOCK_SIZE, data[n..], false, more, e);
    }
  }

  lemma FirstPart(crc: Checksum, log: Bytes, p: nat, off: nat, data: Bytes, begin: bool, more: seq<Bytes>)
    requires off <= BLOCK_SIZE && p <= |log| && FragmentLength(off, |data|) < |data|
    requires log[p..] == Emit(crc, off, data, begin) + EmitAll(crc, EmitOffset(off, |data|), more)
    ensures var n, next := FragmentLength(off, |data|), AfterPiece(p, off, |data|);
            var off' := NextOffset(off, |data|);
            next <= |log| && log[next..] == Emit(crc, off', data[n..], false) + EmitAll(crc, EmitOffset(off', |data| - n), more)
  {
    hide EmitAll, Physical, Zeros;
    var n, off' := FragmentLength(off, |data|), NextOffset(off, |data|);
    var a, b := Zeros(Trailer(off)), Physical(crc, FragmentKind(begin, n == |data|), data[..n]);
    var rest, tail := Emit(crc, off', data[n..], false), EmitAll(crc, EmitOffset(off, |data|), more);
    assert log[p..] == a + (b + rest) + tail;
    DropTwo(a, b, rest, tail);
    assert log[p + |a| + |b|..] == log[p..][|a| + |b|..];
  }

  lemma DropTwo(a: Bytes, b: Bytes, c: Bytes, d: Bytes)
    ensures (a + (b + c) + d)[|a| + |b|..] == c + d
  {}

  lemma HoldsAll(log: Bytes, p: nat, s: Bytes)
    requires p <= |log| && log[p..] == s
    ensures Holds(log, p, s) && |log| == p + |s|
  {}

  lemma RestYieldsNothing(crc: Checksum, log: Bytes, p: nat, off: nat, data: Bytes, more: seq<Bytes>)
    requires Sound(crc) && off <= BLOCK_SIZE && Aligned(p, off) && p <= |log|
    requires log[p..] == Emit(crc, off, data, false) + EmitAll(crc, EmitOffset(off, |data|), more)
    ensures Fold(Pieces(crc, log, p), None).0 == more
  {
    hide Fold, Pieces, PlanAll, Plan, LogTheorem.Found, Emit, EmitAll, Layout, Fits, Holds, RecordSize, Aligned;
    var off', size := EmitOffset(off, |data|), RecordSize(off, |data|);
    var plan := Plan(off, data, false) + PlanAll(off', more);
    EmitIsLayout(crc, off, data, false);
    EmitAllIsLayout(crc, off', more);
    LayoutJoin(crc, Plan(off, data, false), PlanAll(off', more));
    PlanAllFits(off', more);
    PlanFits(off, data, false, PlanAll(off', more));
    HoldsAll(log, p, Layout(crc, plan));
    LayoutIsFound(crc, log, p, off, plan);
    EmitSize(crc, off, data, false);
    OrphansYieldNothing(p, off, data, PlanAll(off', more), |log|);
    EndAligned(p, off, |data|);
    assert log[p + size..] == log[p..][size..];
    AllFound(crc, log, p + size, off', more);
  }

  /** What is read behind the end `e` of a block: the records that begin there. */
  lemma {:induction false} BehindBlock(crc: Checksum, log: Bytes, p: nat, off: nat, records: seq<Bytes>, e: nat) returns (j: nat)
    requires Sound(crc) && HoldsTo(crc, log, p, off, records) && e % BLOCK_SIZE == 0 && p <= e <= |log|
    ensures j <= |records| && Fold(Pieces(crc, log, e), None).0 == records[j..]
    ensures j < |records| ==> e < p + AllSize(off, records[..j]) + HEADER_SIZE
    ensures j > 0 ==> p + AllSize(off, records[..j - 1]) + HEADER_SIZE <= e
    decreases |records|
  {
    hide Fold, Pieces, Emit;
    if records == [] {
      NothingLeft(crc, log);
      NothingFolds();
      j := 0;
    } else if e < p + HEADER_SIZE {
      SkipTrailer(crc, log, p, e);
      AllFound(crc, log, p, off, records);
      j := 0;
      assert records[..0] == [];
    } else {
      var size, off' := RecordSize(off, |records[0]|), EmitOffset(off, |records[0]|);
      EmitSize(crc, off, records[0], true);
      if p + size <= e {
        EndAligned(p, off, |records[0]|);
        assert log[p + size..] == log[p..][size..];
        j := BehindBlock(crc, log, p + size, off', records[1..], e);
        OneMoreSize(off, records, j);
        if j > 0 {
          OneMoreSize(off, records, j - 1);
        } else {
          assert records[..0] == [];
        }
        assert records[1..][j..] == records[j + 1..];
        j := j + 1;
      } else {
        AcrossBlocks(crc, log, p, off, records[0], true, records[1..], e);
        OneMoreSize(off, records, 0);
        assert records[..0] == [] && records[1..][..0] == [];
        j := 1;
      }
    }
  }

  lemma NothingFolds()
    ensures Fold([], None).0 == []
  {}

  lemma OneMoreSize(off: nat, records: seq<Bytes>, k: nat)
    requires off <= BLOCK_SIZE && k < |records|
    ensures AllSize(off, records[..k + 1]) == RecordSize(off, |records[0]|) + AllSize(EmitOffset(off, |records[0]|), records[1..][..k])
  {
    hide RecordSize;
    assert records[..k + 1][1..] == records[1..][..k];
  }

  lemma SkipTrailer(crc: Checksum, log: Bytes, p: nat, e: nat)
    requires p <= e <= |log| && e % BLOCK_SIZE == 0 && e < p + HEADER_SIZE
    ensures Pieces(crc, log, p) == Pieces(crc, log, e)
  {
    if p < e {
      NextBlock(crc, log, p);
    }
  }

  // ---- The theorem -------------------------------------------------------------------------------------------------

  /** A block of the log is damaged, and the reader rejects what it finds at its beginning: the records that are complete
      before the block and those that begin behind it are read, and nothing else. */
  lemma BlockIsLost(crc: Checksum, records: seq<Bytes>, file: Bytes, a: nat) returns (i: nat, j: nat)
    requires Sound(crc) && a % 32768 == 0
    requires var log := EmitAll(crc, 0, records);
             |file| == |log| && a + 32768 <= |log| && file[..a] == log[..a] && file[a + 32768..] == log[a + 32768..]
    requires ParsePhysical(crc, file, a).Bad?
    ensures i <= |records| && |EmitAll(crc, 0, records[..i])| <= a && (i < |records| ==> a < |EmitAll(crc, 0, records[..i + 1])|)
    ensures j <= |records| && (j < |records| ==> a + 32768 < |EmitAll(crc, 0, records[..j])| + 7)
    ensures j > 0 ==> |EmitAll(crc, 0, records[..j - 1])| + 7 <= a + 32768
    ensures AllRecords(Pieces(crc, file, 0)).0 == records[..i] + records[j..]
  {
    hide EmitAll, Pieces, ParsePhysical, AllRecords;
    var log, e := EmitAll(crc, 0, records), a + 32768;
    i := CrashPrefix(crc, records, a);
    assert HoldsTo(crc, log, 0, 0, records) by {
      assert log[0..] == log;
    }
    j := BehindBlock(crc, log, 0, 0, records, e);
    EmitAllSize(crc, 0, records[..j]);
    if j > 0 {
      EmitAllSize(crc, 0, records[..j - 1]);
    }
    SameRest(crc, file, log, e);
    BlocksBefore(crc, file, a);
    RejectedBlock(crc, file, a);
    var before, bad := Pieces(crc, log[..a], 0), ParsePhysical(crc, file, a);
    WrittenGoesOn(crc, records, a);
    AllIsFold(before);
    AllIsFold(Pieces(crc, file, 0));
    FoldPast(before, bad, Pieces(crc, log, e));
  }

  lemma RejectedBlock(crc: Checksum, file: Bytes, a: nat)
    requires a % BLOCK_SIZE == 0 && a + BLOCK_SIZE <= |file| && ParsePhysical(crc, file, a).Bad?
    ensures Pieces(crc, file, a) == [ParsePhysical(crc, file, a)] + Pieces(crc, file, a + BLOCK_SIZE)
  {
    hide ParseBuffer;
    assert FullBlock(file, a) && BufferEnd(file, a) == a + BLOCK_SIZE;
    BadNext(crc, file, a);
  }

  lemma WrittenGoesOn(crc: Checksum, records: seq<Bytes>, n: nat)
    requires Sound(crc) && n <= |EmitAll(crc, 0, records)|
    ensures NoEnd(Pieces(crc, EmitAll(crc, 0, records)[..n], 0))
  {
    hide EmitAll, PlanAll, Layout, Fits, Holds, NoEnd, LogTheorem.Found;
    CutHolds(crc, records, n);
    LayoutIsFound(crc, EmitAll(crc, 0, records)[..n], 0, 0, PlanAll(0, records));
    PlanAllKinds(0, records);
    FoundGoesOn(0, PlanAll(0, records), n);
  }

  /** A rejected record ends what was gathered before it. */
  lemma FoldPast(before: seq<Piece>, bad: Piece, rest: seq<Piece>)
    requires NoEnd(before) && bad.Bad?
    ensures Fold(before + ([bad] + rest), None).0 == Fold(before, None).0 + Fold(rest, None).0
  {
    FoldJoin(before, [bad] + rest, None);
    FoldJoin(before, [], None);
    assert before + [] == before && ([bad] + rest)[1..] == rest;
    var pending := Pending(before, None);
    assert Fold([bad] + rest, pending).0 == [] + Fold(rest, None).0;
  }
}
