module LogCrashes {
  // Logs that a crash has cut: exactly when a writer may go on behind the cut, so that everything is read back, and so
  // that reading makes no report.

  import opened ByteStrings
  import opened Coding
  import opened Keys
  import opened LogBreaks
  import opened LogFormat
  import opened LogReading
  import opened LogReopening
  import opened LogTheorem

  // ---- A log that a crash has cut ------------------------------------------------------------------------------------

  /** The physical record that a file which ends at `n` ends strictly inside of, and where it starts, of those laid out from
      `p` on. */
  function TornAt(p: nat, cs: seq<Chunk>, n: nat): Option<(nat, Chunk)>
    decreases |cs|
  {
    if cs == [] then None
    else if p + cs[0].pad < n < p + Size(cs[0]) then Some((p + cs[0].pad, cs[0]))
    else TornAt(p + Size(cs[0]), cs[1..], n)
  }

  predicate Tears(p: nat, cs: seq<Chunk>, n: nat) {
    TornAt(p, cs, n).Some?
  }

  lemma {:induction false} TearsLater(p: nat, cs: seq<Chunk>, n: nat)
    requires n <= p
    ensures !Tears(p, cs, n)
    decreases |cs|
  {
    if cs != [] {
      TearsLater(p + Size(cs[0]), cs[1..], n);
    }
  }

  lemma {:induction false} BreakNext(crc: Checksum, file: Bytes, p: nat)
    requires p <= |file| && ParsePhysical(crc, file, p).Fragment?
    ensures Break(crc, file, p) == Break(crc, file, ParsePhysical(crc, file, p).next)
    decreases |file| - p
  {
    hide ParseBuffer;
    var e := BufferEnd(file, p);
    if e - p < HEADER_SIZE && FullBlock(file, p) {
      BreakNext(crc, file, e);
    }
  }

  lemma BreakAtEnd(crc: Checksum, file: Bytes)
    ensures Break(crc, file, |file|) == None
  {
    assert !FullBlock(file, |file|);
  }

  /** A file that ends behind a trailer, or in it. */
  lemma EndsInTrailer(crc: Checksum, file: Bytes, p: nat, off: nat)
    requires off <= BLOCK_SIZE && Aligned(p, off) && p <= |file| <= p + Trailer(off)
    ensures Break(crc, file, p) == None
  {
    hide ParseBuffer;
    BreakAtEnd(crc, file);
    AlignedOffset(p, off);
    if p < |file| {
      assert BlockIsFull(p);
    }
  }

  lemma BreakSkips(crc: Checksum, file: Bytes, p: nat, off: nat)
    requires off <= BLOCK_SIZE && Aligned(p, off) && p + Trailer(off) <= |file|
    ensures Break(crc, file, p) == Break(crc, file, p + Trailer(off))
  {
    hide ParseBuffer;
    if Trailer(off) > 0 {
      AlignedOffset(p, off);
      assert BufferEnd(file, p) == p + Trailer(off);
    }
  }

  /** A file that ends inside a physical record. */
  lemma EndsInside(crc: Checksum, file: Bytes, p: nat, off: nat)
    requires off <= BLOCK_SIZE && Aligned(p, off)
    requires p + Trailer(off) < |file| && ParsePhysical(crc, file, p).EndOfFile?
    ensures Break(crc, file, p) == Some(p + Trailer(off))
  {
    hide ParseBuffer;
    var s := p + Trailer(off);
    BreakSkips(crc, file, p, off);
    TrailerSkipped(crc, file, p, off);
    var e := BufferEnd(file, s);
    if e - s < HEADER_SIZE {
      assert !BlockIsFull(s) && !FullBlock(file, s);
    }
  }

  lemma {:induction false} TearsIffBreak(crc: Checksum, file: Bytes, p: nat, off: nat, cs: seq<Chunk>)
    requires Sound(crc) && off <= BLOCK_SIZE && Aligned(p, off) && Fits(off, cs)
    requires Holds(file, p, Layout(crc, cs)) && |file| <= p + |Layout(crc, cs)|
    ensures Break(crc, file, p).Some? <==> Tears(p, cs, |file|)
    ensures var torn := TornAt(p, cs, |file|);
            torn.Some? ==> Break(crc, file, p) == Some(torn.value.0) && IsTorn(crc, file, torn.value.0, torn.value.1)
    decreases |cs|
  {
    hide Break, ParsePhysical, Layout, Physical, LogTheorem.Found;
    if cs == [] {
      EmptyLayout(crc);
      BreakAtEnd(crc, file);
    } else {
      var next := p + Size(cs[0]);
      LayoutHead(crc, file, p, off, cs);
      if next <= |file| {
        BreakNext(crc, file, p);
        LayoutSize(crc, cs);
        TearsIffBreak(crc, file, next, StartOffset(off) + HEADER_SIZE + |cs[0].data|, cs[1..]);
      } else {
        TearsLater(next, cs[1..], |file|);
        if |file| <= p + cs[0].pad {
          EndsInTrailer(crc, file, p, off);
        } else {
          EndsInside(crc, file, p, off);
          HoldsTorn(crc, file, p, off, cs);
        }
      }
    }
  }

  /** The file ends strictly inside the physical record of `c` at `q`, which stays within its block. */
  ghost predicate IsTorn(crc: Checksum, file: Bytes, q: nat, c: Chunk) {
    && q < |file| < q + HEADER_SIZE + |c.data| && q % BLOCK_SIZE + HEADER_SIZE + |c.data| <= BLOCK_SIZE && c.kind != 0
    && Holds(file, q, Physical(crc, c.kind, c.data)) && ParsePhysical(crc, file, q).EndOfFile?
  }

  lemma HoldsTorn(crc: Checksum, file: Bytes, p: nat, off: nat, cs: seq<Chunk>)
    requires Sound(crc) && off <= BLOCK_SIZE && Aligned(p, off) && Fits(off, cs) && cs != []
    requires Holds(file, p, Layout(crc, cs)) && p + cs[0].pad < |file| < p + Size(cs[0])
    ensures IsTorn(crc, file, p + cs[0].pad, cs[0])
  {
    hide ParsePhysical;
    var q, c := p + cs[0].pad, cs[0];
    BehindTrailer(file, p, c.pad, Physical(crc, c.kind, c.data) + Layout(crc, cs[1..]));
    HoldsParts(file, q, Physical(crc, c.kind, c.data), Layout(crc, cs[1..]));
    StartAfterTrailer(p, off);
    PhysicalBack(crc, file, q, c.kind, c.data);
  }

  /** The bytes of a record that complete fragments hold in `n` bytes. */
  function FragmentBytes(off: nat, left: nat, n: nat): nat
    requires off <= BLOCK_SIZE
    decreases left, BLOCK_SIZE - off
  {
    var m := FragmentLength(off, left);
    if n < Trailer(off) + HEADER_SIZE + m then 0
    else m + if m == left then 0 else FragmentBytes(NextOffset(off, left), left - m, n - Trailer(off) - HEADER_SIZE - m)
  }

  /** The bytes in complete fragments of the record that the first `n` bytes of a log hold only a part of. */
  function LeftOver(off: nat, records: seq<Bytes>, n: nat): nat
    requires off <= BLOCK_SIZE
    decreases records
  {
    if records == [] then 0
    else if n < RecordSize(off, |records[0]|) then FragmentBytes(off, |records[0]|, n)
    else LeftOver(EmitOffset(off, |records[0]|), records[1..], n - RecordSize(off, |records[0]|))
  }

  function Length(scratch: Option<Bytes>): nat {
    if scratch.Some? then |scratch.value| else 0
  }

  lemma PendingStep(ps: seq<Piece>, r: Piece, more: seq<Piece>, scratch: Option<Bytes>)
    requires ps != [] && ps[0] == r && ps[1..] == more && r.Fragment?
    ensures r.kind == FragmentKind(scratch.None?, true) ==> Pending(ps, scratch) == Pending(more, None)
    ensures r.kind == FragmentKind(scratch.None?, false) ==> Pending(ps, scratch) == Pending(more, Some(LogTheorem.Whole(scratch, r.data)))
  {}

  lemma {:induction false} CompleteLeavesNothing(p: nat, off: nat, data: Bytes, scratch: Option<Bytes>, more: seq<Chunk>, size: nat)
    requires off <= BLOCK_SIZE && p + RecordSize(off, |data|) <= size
    ensures Pending(LogTheorem.Found(p, Plan(off, data, scratch.None?) + more, size), scratch)
         == Pending(LogTheorem.Found(p + RecordSize(off, |data|), more, size), None)
    decreases |data|, BLOCK_SIZE - off
  {
    hide Plan, LogTheorem.Found, Pending;
    var n, next := FragmentLength(off, |data|), AfterPiece(p, off, |data|);
    var ps := LogTheorem.Found(p, Plan(off, data, scratch.None?) + more, size);
    PlanHead(p, off, data, scratch.None?, more, size);
    if n == |data| {
      assert [] + more == more;
      PendingStep(ps, ps[0], LogTheorem.Found(next, more, size), scratch);
    } else {
      var rest := Plan(NextOffset(off, |data|), data[n..], false) + more;
      PendingStep(ps, ps[0], LogTheorem.Found(next, rest, size), scratch);
      CompleteLeavesNothing(next, NextOffset(off, |data|), data[n..], Some(LogTheorem.Whole(scratch, data[..n])), more, size);
    }
  }

  lemma {:induction false} CutLeavesBytes(p: nat, off: nat, data: Bytes, scratch: Option<Bytes>, more: seq<Chunk>, size: nat)
    requires off <= BLOCK_SIZE && p <= size < p + RecordSize(off, |data|)
    ensures Length(Pending(LogTheorem.Found(p, Plan(off, data, scratch.None?) + more, size), scratch))
         == Length(scratch) + FragmentBytes(off, |data|, size - p)
    decreases |data|, BLOCK_SIZE - off
  {
    hide LogTheorem.Found, Pending;
    var n, next := FragmentLength(off, |data|), AfterPiece(p, off, |data|);
    var ps := LogTheorem.Found(p, Plan(off, data, scratch.None?) + more, size);
    if next <= size {
      PlanHead(p, off, data, scratch.None?, more, size);
      var rest := Plan(NextOffset(off, |data|), data[n..], false) + more;
      PendingStep(ps, ps[0], LogTheorem.Found(next, rest, size), scratch);
      CutLeavesBytes(next, NextOffset(off, |data|), data[n..], Some(LogTheorem.Whole(scratch, data[..n])), more, size);
    } else {
      FoundNothing(p, Plan(off, data, scratch.None?) + more, size);
      PendingNothing(scratch);
    }
  }

  lemma FoundNothing(p: nat, cs: seq<Chunk>, size: nat)
    requires cs != [] && size < p + Size(cs[0])
    ensures LogTheorem.Found(p, cs, size) == []
  {}

  lemma PendingNothing(scratch: Option<Bytes>)
    ensures Pending([], scratch) == scratch
  {}

  lemma {:induction false} CutLeavesOver(p: nat, off: nat, records: seq<Bytes>, size: nat)
    requires off <= BLOCK_SIZE && p <= size
    ensures Length(Pending(LogTheorem.Found(p, PlanAll(off, records), size), None)) == LeftOver(off, records, size - p)
    decreases records
  {
    hide Plan, LogTheorem.Found, Pending, FragmentBytes;
    if records == [] {
      NothingFound(p, size);
      PendingNothing(None);
    } else {
      var next, off' := p + RecordSize(off, |records[0]|), EmitOffset(off, |records[0]|);
      var more := PlanAll(off', records[1..]);
      if next <= size {
        CompleteLeavesNothing(p, off, records[0], None, more, size);
        CutLeavesOver(next, off', records[1..], size);
      } else {
        CutLeavesBytes(p, off, records[0], None, more, size);
      }
    }
  }

  lemma NothingFound(p: nat, size: nat)
    ensures LogTheorem.Found(p, [], size) == []
  {}

  // ---- What is before the break of a cut log -------------------------------------------------------------------------

  ghost predicate WriterKinds(cs: seq<Chunk>) {
    forall i :: 0 <= i < |cs| ==> cs[i].kind <= LAST
  }

  lemma {:induction false} PlanKinds(off: nat, data: Bytes, begin: bool)
    requires off <= BLOCK_SIZE
    ensures WriterKinds(Plan(off, data, begin))
    decreases |data|, BLOCK_SIZE - off
  {
    var n := FragmentLength(off, |data|);
    if n < |data| {
      PlanKinds(NextOffset(off, |data|), data[n..], false);
    }
  }

  lemma {:induction false} PlanAllKinds(off: nat, records: seq<Bytes>)
    requires off <= BLOCK_SIZE
    ensures WriterKinds(PlanAll(off, records))
    decreases records
  {
    hide Plan;
    if records != [] {
      PlanKinds(off, records[0], true);
      PlanAllKinds(EmitOffset(off, |records[0]|), records[1..]);
    }
  }

  lemma {:induction false} FoundGoesOn(p: nat, cs: seq<Chunk>, size: nat)
    requires WriterKinds(cs)
    ensures NoEnd(LogTheorem.Found(p, cs, size))
    decreases |cs|
  {
    if cs != [] && p + Size(cs[0]) <= size {
      FoundGoesOn(p + Size(cs[0]), cs[1..], size);
    }
  }

  lemma CutHolds(crc: Checksum, records: seq<Bytes>, n: nat)
    requires n <= |EmitAll(crc, 0, records)|
    ensures var plan := PlanAll(0, records);
            Fits(0, plan) && Holds(EmitAll(crc, 0, records)[..n], 0, Layout(crc, plan)) && n <= |Layout(crc, plan)|
  {
    hide EmitAll, PlanAll, Layout, Fits;
    EmitAllIsLayout(crc, 0, records);
    PlanAllFits(0, records);
  }

  /** All complete physical records of a cut log are before its break. */
  lemma CutPieces(crc: Checksum, records: seq<Bytes>, n: nat)
    requires Sound(crc) && n <= |EmitAll(crc, 0, records)|
    ensures var cut := EmitAll(crc, 0, records)[..n];
      && BeforeBreak(crc, cut, 0) == LogTheorem.Found(0, PlanAll(0, records), n)
      && NoEnd(BeforeBreak(crc, cut, 0))
      && (Break(crc, cut, 0).Some? <==> Tears(0, PlanAll(0, records), n))
      && (var torn := TornAt(0, PlanAll(0, records), n);
          torn.Some? ==> Break(crc, cut, 0) == Some(torn.value.0) && IsTorn(crc, cut, torn.value.0, torn.value.1))
  {
    hide Break, BeforeBreak, ParsePhysical, Pieces, EmitAll, PlanAll, Layout, Fits, Holds, NoEnd, LogTheorem.Found, TornAt;
    var cut, plan := EmitAll(crc, 0, records)[..n], PlanAll(0, records);
    CutHolds(crc, records, n);
    TearsIffBreak(crc, cut, 0, 0, plan);
    LayoutIsFound(crc, cut, 0, 0, plan);
    BreakEnds(crc, cut, 0);
    if Break(crc, cut, 0).Some? {
      PiecesStep(crc, cut, Break(crc, cut, 0).value, EndOfFile);
    } else {
      NothingLeft(crc, cut);
    }
    assert BeforeBreak(crc, cut, 0) + [] == BeforeBreak(crc, cut, 0);
    PlanAllKinds(0, records);
    FoundGoesOn(0, plan, n);
  }

  // ---- Continuing behind a cut ---------------------------------------------------------------------------------------

  /** A log is cut by a crash, reopened and continued: what is written then is all read back, behind the records that
      the crash has left complete, if and only if the cut is not inside a physical record with room for a header in
      the block behind it.  Unless it is, a report is made exactly if fragments of an incomplete record are left. */
  lemma ReopenedAfterCrash(crc: Checksum, records: seq<Bytes>, n: nat, after: seq<Bytes>) returns (k: nat)
    requires Sound(crc) && n <= |EmitAll(crc, 0, records)| && after != []
    requires Rejects(crc, EmitAll(crc, 0, records)[..n], after)
    ensures k <= |records| && |EmitAll(crc, 0, records[..k])| <= n
    ensures k < |records| ==> n < |EmitAll(crc, 0, records[..k + 1])|
    ensures var torn := Tears(0, PlanAll(0, records), n);
            var now := AllRecords(Pieces(crc, Reopened(crc, EmitAll(crc, 0, records)[..n], after), 0));
            && (now.0 == records[..k] + after <==> !torn || BlockIsFull(n))
            && (!torn ==> now.1 == One(LeftOver(0, records, n) > 0))
  {
    hide Break, BeforeBreak, ParsePhysical, Fold, Pending, Pieces, EmitAll, AllRecords, Reopened, PlanAll, NoEnd, LogTheorem.Found, TornAt;
    var cut := EmitAll(crc, 0, records)[..n];
    k := CrashPrefix(crc, records, n);
    CutPieces(crc, records, n);
    ReopenedReadsIff(crc, cut, after);
    AsItIs(crc, cut);
    CutLeavesOver(0, 0, records, n);
  }

  // ---- Continuing without a report -----------------------------------------------------------------------------------

  /** Whether a log cut at `n` bytes ends cleanly: with nothing of an incomplete record but blank bytes of its header where
      no further header fits. */
  predicate CleanCut(records: seq<Bytes>, n: nat) {
    match TornAt(0, PlanAll(0, records), n)
    case None => LeftOver(0, records, n) == 0
    case Some(torn) =>
      && BlockIsFull(n) && StartsRecord(torn.1)
      && (n - torn.0 <= 4 || (n - torn.0 < HEADER_SIZE && torn.1.data == []))
  }

  lemma TornHeader(crc: Checksum, file: Bytes, q: nat, c: Chunk)
    requires IsTorn(crc, file, q, c) && BlockIsFull(|file|)
    ensures HeaderBlank(file, q) <==> |file| - q <= 4 || (|file| - q < HEADER_SIZE && c.data == [])
  {
    hide ParsePhysical;
    var s, n := Physical(crc, c.kind, c.data), |file| - q;
    assert file[q..] == s[..n];
    assert s[4..] == EncodeFixed(2, |c.data|) + ([c.kind] + c.data);
    RoomLeft(q, |file|, |c.data|);
    if n > 4 {
      assert file[q + 4] == s[4];
    }
    if n > 5 {
      assert file[q + 5] == s[5];
    }
    if n > 6 {
      assert file[q + 6] == s[6] == c.kind;
    } else {
      SmallLength(|c.data|);
    }
  }

  lemma SmallLength(n: nat)
    requires n < 256
    ensures EncodeFixed(2, n) == [n, 0]
  {
    assert EncodeFixed(2, n)[1..] == EncodeFixed(1, n / 256);
    assert EncodeFixed(1, n / 256)[1..] == EncodeFixed(0, n / 256 / 256);
  }

  /** A record that is torn in its header where no further header fits is short. */
  lemma RoomLeft(q: nat, n: nat, length: nat)
    requires q < n < q + HEADER_SIZE + length && q % BLOCK_SIZE + HEADER_SIZE + length <= BLOCK_SIZE && BlockIsFull(n)
    ensures n - q <= 6 ==> length < 256
  {
    SameBlock(q, n);
  }

  /** The first physical record of a record, and the others. */
  lemma PlanFirst(off: nat, data: Bytes, begin: bool, more: seq<Chunk>)
    requires off <= BLOCK_SIZE
    ensures var n, all := FragmentLength(off, |data|), Plan(off, data, begin) + more;
      && all != [] && all[0] == Chunk(Trailer(off), FragmentKind(begin, n == |data|), data[..n])
      && all[1..] == (if n == |data| then [] else Plan(NextOffset(off, |data|), data[n..], false)) + more
  {
    var n := FragmentLength(off, |data|);
    var rest := if n == |data| then [] else Plan(NextOffset(off, |data|), data[n..], false);
    ConsJoin(Chunk(Trailer(off), FragmentKind(begin, n == |data|), data[..n]), rest, more);
  }

  lemma TornBehind(p: nat, cs: seq<Chunk>, n: nat)
    requires cs != [] && p + Size(cs[0]) <= n
    ensures TornAt(p, cs, n) == TornAt(p + Size(cs[0]), cs[1..], n)
  {}

  lemma TornHere(p: nat, cs: seq<Chunk>, n: nat)
    requires cs != [] && n < p + Size(cs[0])
    ensures TornAt(p, cs, n) == if p + cs[0].pad < n then Some((p + cs[0].pad, cs[0])) else None
  {
    TearsLater(p + Size(cs[0]), cs[1..], n);
  }

  /** Fragments are pending before a torn one just if it does not begin its record. */
  lemma {:induction false} TornPending(p: nat, off: nat, data: Bytes, scratch: Option<Bytes>, more: seq<Chunk>, size: nat)
    requires off <= BLOCK_SIZE && p <= size < p + RecordSize(off, |data|)
    ensures var all := Plan(off, data, scratch.None?) + more;
      TornAt(p, all, size).Some? ==>
        (StartsRecord(TornAt(p, all, size).value.1) <==> Pending(LogTheorem.Found(p, all, size), scratch).None?)
    decreases |data|, BLOCK_SIZE - off
  {
    hide Plan, LogTheorem.Found, Pending, TornAt, LogTheorem.Whole;
    var n, next := FragmentLength(off, |data|), AfterPiece(p, off, |data|);
    var all := Plan(off, data, scratch.None?) + more;
    var ps := LogTheorem.Found(p, all, size);
    PlanFirst(off, data, scratch.None?, more);
    if next <= size {
      PlanHead(p, off, data, scratch.None?, more, size);
      TornBehind(p, all, size);
      PendingStep(ps, ps[0], LogTheorem.Found(next, all[1..], size), scratch);
      TornPending(next, NextOffset(off, |data|), data[n..], Some(LogTheorem.Whole(scratch, data[..n])), more, size);
    } else {
      FoundNothing(p, all, size);
      PendingNothing(scratch);
      TornHere(p, all, size);
    }
  }

  lemma {:induction false} TornNotComplete(p: nat, off: nat, data: Bytes, begin: bool, more: seq<Chunk>, size: nat)
    requires off <= BLOCK_SIZE && p + RecordSize(off, |data|) <= size
    ensures TornAt(p, Plan(off, data, begin) + more, size) == TornAt(p + RecordSize(off, |data|), more, size)
    decreases |data|, BLOCK_SIZE - off
  {
    hide Plan, TornAt;
    var n, next := FragmentLength(off, |data|), AfterPiece(p, off, |data|);
    PlanFirst(off, data, begin, more);
    TornBehind(p, Plan(off, data, begin) + more, size);
    if n == |data| {
      assert [] + more == more;
    } else {
      TornNotComplete(next, NextOffset(off, |data|), data[n..], false, more, size);
    }
  }

  lemma {:induction false} TornCutPending(p: nat, off: nat, records: seq<Bytes>, size: nat)
    requires off <= BLOCK_SIZE && p <= size
    ensures var all := PlanAll(off, records);
      TornAt(p, all, size).Some? ==>
        (StartsRecord(TornAt(p, all, size).value.1) <==> Pending(LogTheorem.Found(p, all, size), None).None?)
    decreases records
  {
    hide Plan, LogTheorem.Found, Pending;
    if records != [] {
      var next, off' := p + RecordSize(off, |records[0]|), EmitOffset(off, |records[0]|);
      var more := PlanAll(off', records[1..]);
      if next <= size {
        CompleteLeavesNothing(p, off, records[0], None, more, size);
        TornNotComplete(p, off, records[0], true, more, size);
        TornCutPending(next, off', records[1..], size);
      } else {
        TornPending(p, off, records[0], None, more, size);
      }
    }
  }

  lemma NothingToReport(scratch: Option<Bytes>)
    ensures LostPart(scratch) == 0 <==> Length(scratch) == 0
  {}

  lemma CleanCutIsClean(crc: Checksum, records: seq<Bytes>, n: nat)
    requires Sound(crc) && n <= |EmitAll(crc, 0, records)|
    ensures CleanEnd(crc, EmitAll(crc, 0, records)[..n]) <==> CleanCut(records, n)
  {
    hide Break, BeforeBreak, Pending, EmitAll, PlanAll, NoEnd, LogTheorem.Found, TornAt, IsTorn, HeaderBlank, StartsRecord, LostPart, LeftOver;
    var cut, plan := EmitAll(crc, 0, records)[..n], PlanAll(0, records);
    CutPieces(crc, records, n);
    CutLeavesOver(0, 0, records, n);
    NothingToReport(Pending(LogTheorem.Found(0, plan, n), None));
    TornCutPending(0, 0, records, n);
    match TornAt(0, plan, n) {
      case None =>
      case Some(torn) =>
        if BlockIsFull(n) {
          TornHeader(crc, cut, torn.0, torn.1);
        }
    }
  }

  /** A file that a crash has cut anywhere reads completely and without a report after it has been continued if and only
      if the cut is clean. */
  lemma ReopenedCleanAfterCrash(crc: Checksum, records: seq<Bytes>, n: nat, after: seq<Bytes>) returns (k: nat)
    requires Sound(crc) && n <= |EmitAll(crc, 0, records)| && after != []
    requires Rejects(crc, EmitAll(crc, 0, records)[..n], after)
    ensures k <= |records| && |EmitAll(crc, 0, records[..k])| <= n
    ensures k < |records| ==> n < |EmitAll(crc, 0, records[..k + 1])|
    ensures AllRecords(Pieces(crc, Reopened(crc, EmitAll(crc, 0, records)[..n], after), 0)) == (records[..k] + after, 0)
       <==> CleanCut(records, n)
  {
    hide Pieces, EmitAll, AllRecords, Reopened, CleanEnd, CleanCut, Rejects;
    k := CrashPrefix(crc, records, n);
    CleanCutIsClean(crc, records, n);
    ReopenedCleanIff(crc, EmitAll(crc, 0, records)[..n], after);
  }

  // ---- A report that refuses a manifest ------------------------------------------------------------------------------

  /** A record too long for a block, cut at the end of its first fragment, is not torn; what is appended is read, but with
      a report. */
  lemma LeftOverIsReported(crc: Checksum, data: Bytes, after: seq<Bytes>)
    requires Sound(crc) && |data| > BLOCK_SIZE - HEADER_SIZE && after != []
    ensures |EmitAll(crc, 0, [data])| > BLOCK_SIZE && !Tears(0, PlanAll(0, [data]), BLOCK_SIZE) && !CleanCut([data], BLOCK_SIZE)
    ensures AllRecords(Pieces(crc, Reopened(crc, EmitAll(crc, 0, [data])[..BLOCK_SIZE], after), 0)) == (after, 1)
  {
    hide Pieces, EmitAll, AllRecords, Reopened, Break;
    FirstBlock(data);
    EmitAllSize(crc, 0, [data]);
    CutPieces(crc, [data], BLOCK_SIZE);
    var k := ReopenedAfterCrash(crc, [data], BLOCK_SIZE, after);
    assert k == 0 by {
      assert [data][..1] == [data];
    }
    assert [data][..0] + after == after;
  }

  lemma FirstBlock(data: Bytes)
    requires |data| > BLOCK_SIZE - HEADER_SIZE
    ensures AllSize(0, [data]) > BLOCK_SIZE && TornAt(0, PlanAll(0, [data]), BLOCK_SIZE) == None
    ensures LeftOver(0, [data], BLOCK_SIZE) == BLOCK_SIZE - HEADER_SIZE
  {
    var n := BLOCK_SIZE - HEADER_SIZE;
    var plan := PlanAll(0, [data]);
    assert plan == Plan(0, data, true) by {
      assert PlanAll(EmitOffset(0, |data|), [data][1..]) == [];
    }
    assert FragmentLength(0, |data|) == n && NextOffset(0, |data|) == BLOCK_SIZE;
    assert plan[0] == Chunk(0, FIRST, data[..n]);
    TearsLater(BLOCK_SIZE, plan[1..], BLOCK_SIZE);
    assert AllSize(EmitOffset(0, |data|), [data][1..]) == 0;
    assert FragmentBytes(BLOCK_SIZE, |data| - n, 0) == 0;
  }

  // ---- A record that is lost -----------------------------------------------------------------------------------------

  /** The log of one record, without its last byte. */
  function TornLog(crc: Checksum): Bytes {
    Physical(crc, FULL, [9, 9, 9])[..9]
  }

  /** The payload of the torn record together with the first byte of the next one. */
  function Spliced(crc: Checksum): Bytes {
    [FULL, 9, 9, crc.stamp([FULL, 5])[0]]
  }

  lemma EmitSmall(crc: Checksum, off: nat, data: Bytes)
    requires off + HEADER_SIZE + |data| <= BLOCK_SIZE
    ensures EmitAll(crc, off, [data]) == Physical(crc, FULL, data)
  {
    assert data[..|data|] == data && FragmentLength(off, |data|) == |data|;
    assert Zeros(0) + (Physical(crc, FULL, data) + []) == Physical(crc, FULL, data);
    assert Emit(crc, off, data, true) == Physical(crc, FULL, data);
    assert EmitAll(crc, EmitOffset(off, |data|), [data][1..]) == [];
  }

  /** Where the reader stands at the torn record: its length takes in a byte of the next record. */
  lemma ParseTorn(crc: Checksum)
    requires !crc.check(crc.stamp([FULL, 9, 9, 9]), Spliced(crc))
    ensures var g := TornLog(crc) + Physical(crc, FULL, [5]);
            ParsePhysical(crc, g, 0) == Bad(|g|, true)
  {
    var g := TornLog(crc) + Physical(crc, FULL, [5]);
    var whole := Physical(crc, FULL, [9, 9, 9]);
    var kept := g[..9];
    assert whole[..4] == crc.stamp([FULL] + [9, 9, 9]) && [FULL] + [9, 9, 9] == [FULL, 9, 9, 9];
    assert g[..4] == whole[..4];
    assert g[4..] == EncodeFixed(2, 3) + g[6..];
    LengthBack(3, g[6..]);
    assert g[6..10] == [g[6], g[7], g[8], g[9]];
    assert [FULL] + [5] == [FULL, 5] && g[9] == crc.stamp([FULL, 5])[0];
    assert g[6..10] == Spliced(crc);
    assert g[0..|g|] == g && |g| == 17;
  }

  /** A synced record is lost: the log held a record that a crash cut, it is reopened, a record is appended, and
      reading then gives no record at all. */
  lemma AppendedIsLost(crc: Checksum)
    requires !crc.check(crc.stamp([FULL, 9, 9, 9]), Spliced(crc))
    ensures var cut := EmitAll(crc, 0, [[9, 9, 9]])[..9];
            && AllRecords(Pieces(crc, cut, 0)).0 == []
            && AllRecords(Pieces(crc, Reopened(crc, cut, [[5]]), 0)) == ([], 1)
  {
    hide Physical, ParsePhysical, EmitAll;
    EmitSmall(crc, 0, [9, 9, 9]);
    EmitSmall(crc, 9, [5]);
    var cut := TornLog(crc);
    var g := Reopened(crc, cut, [[5]]);
    assert |cut| == 9;
    ParseTorn(crc);
    PiecesStep(crc, g, 0, Bad(|g|, true));
    NothingLeft(crc, g);
    assert Pieces(crc, g, 0) == [Bad(|g|, true)];
    CutOff(crc);
    PiecesStep(crc, cut, 0, EndOfFile);
  }

  lemma CutOff(crc: Checksum)
    ensures ParsePhysical(crc, TornLog(crc), 0) == EndOfFile
  {
    var cut := TornLog(crc);
    assert cut[0..9] == cut;
    ParseCut(crc, cut, 0, FULL, [9, 9, 9]);
  }

  /** Looks at the fourth byte only. */
  function FourthByte(data: Bytes): Uint32 {
    if |data| == 4 then data[3] else 0
  }

  /** There are such checksums: one that looks at a single byte is enough. */
  lemma SomeChecksumLoses()
    ensures var crc := Masked(FourthByte);
            Sound(crc) && !crc.check(crc.stamp([FULL, 9, 9, 9]), Spliced(crc))
  {
    hide EncodeFixed, DecodeFixed, Unmask;
    var crc := Masked(FourthByte);
    var whole: Bytes := [FULL, 9, 9, 9];
    MaskedIsSound(FourthByte);
    FirstByte(Mask(0));
    assert Mask(0) == MASK_DELTA && Spliced(crc)[3] == 0xd8;
    assert crc.stamp(whole) + [] == crc.stamp(whole);
    Fixed32RoundTrip(Mask(9), []);
    UnmaskInvertsMask(9);
  }

  lemma FirstByte(x: Uint32)
    ensures EncodeFixed32(x)[0] == x % 256
  {
    assert EncodeFixed(4, x)[0] == x % 256;
  }
}
