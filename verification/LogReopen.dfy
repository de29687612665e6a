module LogReopening {
  // When a log that a crash may have cut can be continued: what the reader makes of a file to which a writer, opened
  // at the end of the file, has appended further records.

  import opened ByteStrings
  import opened Coding
  import opened Keys
  import opened LogBreaks
  import opened LogFormat
  import opened LogReading
  import opened LogTheorem

  // ---- What is appended ----------------------------------------------------------------------------------------------

  predicate StartsRecord(c: Chunk) {
    c.kind == FULL || c.kind == FIRST
  }

  function CountRecords(cs: seq<Chunk>): nat {
    if cs == [] then 0 else One(StartsRecord(cs[0])) + CountRecords(cs[1..])
  }

  lemma {:induction false} CountJoin(a: seq<Chunk>, b: seq<Chunk>)
    ensures CountRecords(a + b) == CountRecords(a) + CountRecords(b)
  {
    if a == [] {
      assert a + b == b;
    } else {
      CountJoin(a[1..], b);
      assert (a + b)[1..] == a[1..] + b;
    }
  }

  lemma {:induction false} PlanStarts(off: nat, data: Bytes, begin: bool)
    requires off <= BLOCK_SIZE
    ensures CountRecords(Plan(off, data, begin)) == One(begin)
    ensures Plan(off, data, begin) != [] && StartsRecord(Plan(off, data, begin)[0]) == begin
    decreases |data|, BLOCK_SIZE - off
  {
    var n := FragmentLength(off, |data|);
    var plan := Plan(off, data, begin);
    if n < |data| {
      PlanStarts(NextOffset(off, |data|), data[n..], false);
      assert plan[1..] == Plan(NextOffset(off, |data|), data[n..], false);
    } else {
      assert plan[1..] == [] && CountRecords([]) == 0;
    }
  }

  lemma {:induction false} PlanAllStarts(off: nat, records: seq<Bytes>)
    requires off <= BLOCK_SIZE
    ensures CountRecords(PlanAll(off, records)) == |records|
    ensures records != [] ==> PlanAll(off, records) != [] && StartsRecord(PlanAll(off, records)[0])
    decreases records
  {
    hide Plan;
    if records != [] {
      var off' := EmitOffset(off, |records[0]|);
      PlanStarts(off, records[0], true);
      PlanAllStarts(off', records[1..]);
      CountJoin(Plan(off, records[0], true), PlanAll(off', records[1..]));
    }
  }

  lemma {:induction false} FoundCount(p: nat, cs: seq<Chunk>, size: nat)
    ensures CountStarts(LogTheorem.Found(p, cs, size)) <= CountRecords(cs)
    decreases |cs|
  {
    if cs != [] && p + Size(cs[0]) <= size {
      var more := LogTheorem.Found(p + Size(cs[0]), cs[1..], size);
      assert LogTheorem.Found(p, cs, size)[1..] == more;
      FoundCount(p + Size(cs[0]), cs[1..], size);
    }
  }

  /** Reading at a block boundary `e` among the appended chunks sees no more records than begin behind it. */
  lemma {:induction false} FromBlock(crc: Checksum, file: Bytes, p: nat, off: nat, cs: seq<Chunk>, e: nat)
    requires Sound(crc) && off <= BLOCK_SIZE && Aligned(p, off) && Fits(off, cs)
    requires Holds(file, p, Layout(crc, cs)) && |file| == p + |Layout(crc, cs)|
    requires p <= e <= |file| && e % BLOCK_SIZE == 0
    ensures CountStarts(Pieces(crc, file, e)) <= CountRecords(cs)
    ensures cs != [] && p + cs[0].pad < e ==> CountStarts(Pieces(crc, file, e)) <= CountRecords(cs[1..])
    decreases |cs|
  {
    hide Layout, Pieces, CountStarts, CountRecords, LogTheorem.Found, Physical, ParsePhysical;
    if cs == [] || e <= p + cs[0].pad {
      LayoutIsFound(crc, file, p, off, cs);
      FoundCount(p, cs, |file|);
      if cs == [] {
        EmptyLayout(crc);
      } else {
        ToBlockEnd(crc, file, p, off, e);
      }
    } else {
      var c, next := cs[0], p + Size(cs[0]);
      LayoutHead(crc, file, p, off, cs);
      LayoutSize(crc, cs);
      StaysInBlock(p, off, HEADER_SIZE + |c.data|, e);
      FromBlock(crc, file, next, StartOffset(off) + HEADER_SIZE + |c.data|, cs[1..], e);
      FewerLeft(cs);
    }
  }

  lemma EmptyLayout(crc: Checksum)
    ensures Layout(crc, []) == []
  {}

  lemma FewerLeft(cs: seq<Chunk>)
    requires cs != []
    ensures CountRecords(cs[1..]) <= CountRecords(cs)
  {}

  lemma ToBlockEnd(crc: Checksum, file: Bytes, p: nat, off: nat, e: nat)
    requires off <= BLOCK_SIZE && Aligned(p, off) && e % BLOCK_SIZE == 0
    requires p <= e <= p + Trailer(off) && e <= |file|
    ensures Pieces(crc, file, p) == Pieces(crc, file, e)
  {
    hide ParseBuffer;
    if p < e {
      AlignedOffset(p, off);
      NextMultiple(p, e);
      NextBlock(crc, file, p);
    }
  }

  lemma NextMultiple(p: nat, e: nat)
    requires p < e < p + BLOCK_SIZE && e % BLOCK_SIZE == 0
    ensures e == p - p % BLOCK_SIZE + BLOCK_SIZE
  {}

  lemma StaysInBlock(p: nat, off: nat, n: nat, e: nat)
    requires off <= BLOCK_SIZE && Aligned(p, off) && e % BLOCK_SIZE == 0
    requires StartOffset(off) + n <= BLOCK_SIZE && p + Trailer(off) < e
    ensures p + Trailer(off) + n <= e
  {
    StartAfterTrailer(p, off);
    var s := p + Trailer(off);
    assert s - s % BLOCK_SIZE + BLOCK_SIZE <= e;
  }

  // ---- The reopened file ---------------------------------------------------------------------------------------------

  /** What a writer opened at the end of the file makes of it. */
  function Reopened(crc: Checksum, file: Bytes, after: seq<Bytes>): Bytes {
    file + EmitAll(crc, |file| % BLOCK_SIZE, after)
  }

  /** The reader does not take the broken physical record together with the bytes behind it for a physical record. */
  ghost predicate Rejects(crc: Checksum, file: Bytes, after: seq<Bytes>) {
    match Break(crc, file, 0)
    case None => true
    case Some(q) => !ParsePhysical(crc, Reopened(crc, file, after), q).Fragment?
  }

  lemma AllComplete(crc: Checksum, off: nat, records: seq<Bytes>)
    requires off <= BLOCK_SIZE
    ensures records[..Complete(off, records, |EmitAll(crc, off, records)|)] == records
  {
    var n := |EmitAll(crc, off, records)|;
    var k := Complete(off, records, n);
    EmitAllSize(crc, off, records);
    CompleteIsMost(off, records, n);
    if k < |records| {
      PrefixIsShorter(off, records, k + 1);
    }
  }

  /** What is appended is found behind the old end. */
  lemma Appended(crc: Checksum, file: Bytes, after: seq<Bytes>)
    requires Sound(crc)
    ensures var g, cs := Reopened(crc, file, after), PlanAll(|file| % BLOCK_SIZE, after);
            && Pieces(crc, g, |file|) == LogTheorem.Found(|file|, cs, |g|)
            && AllRecords(Pieces(crc, g, |file|)) == (after, 0)
            && Fits(|file| % BLOCK_SIZE, cs) && Aligned(|file|, |file| % BLOCK_SIZE)
            && Holds(g, |file|, Layout(crc, cs)) && |g| == |file| + |Layout(crc, cs)|
  {
    hide Layout, Fits, EmitAll, PlanAll, Pieces, LogTheorem.Found, AllRecords, Complete;
    var g, off := Reopened(crc, file, after), |file| % BLOCK_SIZE;
    var cs := PlanAll(off, after);
    EmitAllIsLayout(crc, off, after);
    PlanAllFits(off, after);
    assert g[|file|..|file| + |Layout(crc, cs)|] == Layout(crc, cs);
    LayoutIsFound(crc, g, |file|, off, cs);
    AllBack(|file|, off, after, |g|);
    AllComplete(crc, off, after);
  }

  /** The first appended physical record begins a record, and no more of them do than there are records. */
  lemma AppendedStarts(crc: Checksum, file: Bytes, after: seq<Bytes>)
    requires Sound(crc) && after != []
    ensures var ps := Pieces(crc, Reopened(crc, file, after), |file|);
            ps != [] && Starts(ps[0])
  {
    hide Layout, Fits, EmitAll, PlanAll, Pieces, AllRecords;
    var g, off := Reopened(crc, file, after), |file| % BLOCK_SIZE;
    var cs := PlanAll(off, after);
    Appended(crc, file, after);
    PlanAllStarts(off, after);
    LayoutSize(crc, cs);
  }

  /** The records of the file as it is, and the fragments before its break. */
  lemma AsItIs(crc: Checksum, file: Bytes)
    ensures AllRecords(Pieces(crc, file, 0)).0 == Fold(BeforeBreak(crc, file, 0), None).0
    ensures Break(crc, file, 0).None? ==> AllRecords(Pieces(crc, file, 0)) == Fold(BeforeBreak(crc, file, 0), None)
    ensures Fold(BeforeBreak(crc, file, 0), None).1 <= AllRecords(Pieces(crc, file, 0)).1
  {
    hide Break, BeforeBreak, ParsePhysical, Fold, NoEnd, Pending;
    var w, q := BeforeBreak(crc, file, 0), Resume(crc, file, 0);
    var rest := Pieces(crc, file, q);
    BreakEnds(crc, file, 0);
    AllIsFold(Pieces(crc, file, 0));
    if NoEnd(w) {
      FoldJoin(w, rest, None);
      AtMostBad(crc, file, q);
      NoRecords(rest, Pending(w, None));
      AddNothing(Fold(w, None).0);
      if Break(crc, file, 0).None? {
        NothingLeft(crc, file);
      }
    } else {
      FoldStops(w, rest, None);
    }
  }

  lemma AddNothing(a: seq<Bytes>)
    ensures a + [] == a
  {}

  lemma AtMostBad(crc: Checksum, file: Bytes, q: nat)
    requires q <= |file|
    requires var r := ParsePhysical(crc, file, q); !r.Fragment? && (r.Bad? ==> r.next == |file|)
    ensures var ps := Pieces(crc, file, q); ps == [] || (|ps| == 1 && ps[0].Bad?)
  {
    hide ParsePhysical;
    NothingLeft(crc, file);
    PiecesStep(crc, file, q, ParsePhysical(crc, file, q));
  }

  lemma NoRecords(ps: seq<Piece>, scratch: Option<Bytes>)
    requires ps == [] || (|ps| == 1 && ps[0].Bad?)
    ensures Fold(ps, scratch).0 == [] && (ps == [] ==> Fold(ps, scratch) == ([], 0))
  {
    if ps != [] {
      assert Fold(ps[1..], None) == ([], 0);
    }
  }

  /** The records of a longer file: those before the break, and what is gathered from there on. */
  lemma AsLonger(crc: Checksum, file: Bytes, more: Bytes)
    requires NoEnd(BeforeBreak(crc, file, 0))
    ensures var g, w := file + more, BeforeBreak(crc, file, 0);
            var a, b := Fold(w, None), Fold(Pieces(crc, g, Resume(crc, file, 0)), Pending(w, None));
            AllRecords(Pieces(crc, g, 0)) == (a.0 + b.0, a.1 + b.1)
  {
    hide Break, BeforeBreak, ParsePhysical, Fold, NoEnd, Pending, Pieces, AllRecords;
    var g, w := file + more, BeforeBreak(crc, file, 0);
    Longer(crc, file, more, 0);
    AllIsFold(Pieces(crc, g, 0));
    FoldJoin(w, Pieces(crc, g, Resume(crc, file, 0)), None);
  }

  /** Behind a stored end of file nothing is read. */
  lemma AsStopped(crc: Checksum, file: Bytes, more: Bytes)
    requires !NoEnd(BeforeBreak(crc, file, 0))
    ensures AllRecords(Pieces(crc, file + more, 0)) == Fold(BeforeBreak(crc, file, 0), None)
  {
    hide Break, BeforeBreak, ParsePhysical, Fold, NoEnd, Pending, Pieces, AllRecords;
    var g, w := file + more, BeforeBreak(crc, file, 0);
    Longer(crc, file, more, 0);
    AllIsFold(Pieces(crc, g, 0));
    FoldStops(w, Pieces(crc, g, Resume(crc, file, 0)), None);
  }

  /** Without a break, all appended records are gathered, and fragments left over before them are reported. */
  lemma GatheredAll(crc: Checksum, file: Bytes, after: seq<Bytes>, scratch: Option<Bytes>)
    requires Sound(crc) && after != []
    ensures Fold(Pieces(crc, Reopened(crc, file, after), |file|), scratch) == (after, LostPart(scratch))
  {
    hide Fold, Pieces, EmitAll, AllRecords, PlanAll, Layout;
    var ps := Pieces(crc, Reopened(crc, file, after), |file|);
    Appended(crc, file, after);
    AppendedStarts(crc, file, after);
    AllIsFold(ps);
    FoldAfresh(ps, scratch);
  }

  /** Where the break is in a file: in its last block, which is not complete, with room for a header. */
  lemma BreakPlace(crc: Checksum, file: Bytes)
    requires Break(crc, file, 0).Some?
    ensures var q := Break(crc, file, 0).value;
            && q <= |file| < q - q % BLOCK_SIZE + BLOCK_SIZE
            && q % BLOCK_SIZE + HEADER_SIZE <= BLOCK_SIZE
  {
    hide Break, ParsePhysical;
    BreakStops(crc, file, 0);
  }

  /** Reading at the break: the end of the file, or a complaint and the next block. */
  lemma AtBreak(crc: Checksum, file: Bytes, q: nat)
    requires q <= |file| && q % BLOCK_SIZE + HEADER_SIZE <= BLOCK_SIZE && !ParsePhysical(crc, file, q).Fragment?
    ensures var r := ParsePhysical(crc, file, q);
            && (r.Bad? ==> r.next == BufferEnd(file, q) && Pieces(crc, file, q) == [r] + Pieces(crc, file, r.next))
            && (!r.Bad? ==> Pieces(crc, file, q) == [] && !FullBlock(file, q))
  {
    hide ParseBuffer, Pieces;
    PiecesStep(crc, file, q, ParsePhysical(crc, file, q));
    var e := BufferEnd(file, q);
    if e - q < HEADER_SIZE {
      assert !FullBlock(file, q);
    } else {
      ParseHere(crc, file, q);
      if ParsePhysical(crc, file, q).Bad? {
        BadNext(crc, file, q);
      } else if FullBlock(file, q) {
        FullDoesNotEnd(crc, file[q..e], q);
      }
    }
  }

  /** The first of the appended records is lost when it is written right behind a break. */
  lemma GatheredLess(crc: Checksum, file: Bytes, after: seq<Bytes>, q: nat, scratch: Option<Bytes>)
    requires Sound(crc) && after != [] && !BlockIsFull(|file|)
    requires q <= |file| < q - q % BLOCK_SIZE + BLOCK_SIZE && q % BLOCK_SIZE + HEADER_SIZE <= BLOCK_SIZE
    requires !ParsePhysical(crc, Reopened(crc, file, after), q).Fragment?
    ensures |Fold(Pieces(crc, Reopened(crc, file, after), q), scratch).0| < |after|
  {
    hide Fold, Pieces, EmitAll, AllRecords, PlanAll, Layout, ParsePhysical, CountStarts, CountRecords, LogTheorem.Found;
    var g, off := Reopened(crc, file, after), |file| % BLOCK_SIZE;
    var r := ParsePhysical(crc, g, q);
    AtBreak(crc, g, q);
    if r.Bad? {
      var cs := PlanAll(off, after);
      Appended(crc, file, after);
      PlanAllStarts(off, after);
      FirstCounts(cs);
      FoldBad(r, Pieces(crc, g, r.next), scratch);
      FoldCount(Pieces(crc, g, r.next), None);
      if FullBlock(g, q) {
        NoPadding(crc, off, cs);
        FromBlock(crc, g, |file|, off, cs, r.next);
      } else {
        NothingLeft(crc, g);
        CountNothing();
      }
    } else {
      FoldNothing(scratch);
    }
  }

  lemma NoPadding(crc: Checksum, off: nat, cs: seq<Chunk>)
    requires off + HEADER_SIZE <= BLOCK_SIZE && cs != [] && Fits(off, cs)
    ensures cs[0].pad == 0
  {}

  lemma FirstCounts(cs: seq<Chunk>)
    requires cs != [] && StartsRecord(cs[0])
    ensures CountRecords(cs) == 1 + CountRecords(cs[1..])
  {}

  lemma CountNothing()
    ensures CountStarts([]) == 0
  {}

  lemma FoldNothing(scratch: Option<Bytes>)
    ensures Fold([], scratch) == ([], 0)
  {}

  lemma FoldBad(r: Piece, ps: seq<Piece>, scratch: Option<Bytes>)
    requires r.Bad?
    ensures Fold([r] + ps, scratch) == (Fold(ps, None).0, One(r.reported) + One(scratch.Some?) + Fold(ps, None).1)
  {
    assert ([r] + ps)[1..] == ps;
    assert [] + Fold(ps, None).0 == Fold(ps, None).0;
  }

  /** Behind a break in a block that has no room for a header, nothing is lost: the writer fills the block up. */
  lemma GatheredBehind(crc: Checksum, file: Bytes, after: seq<Bytes>, q: nat, scratch: Option<Bytes>)
    requires Sound(crc) && after != [] && BlockIsFull(|file|)
    requires q <= |file| < q - q % BLOCK_SIZE + BLOCK_SIZE && q % BLOCK_SIZE + HEADER_SIZE <= BLOCK_SIZE
    requires !ParsePhysical(crc, Reopened(crc, file, after), q).Fragment?
    ensures var g := Reopened(crc, file, after);
            var r := ParsePhysical(crc, g, q);
            r.Bad? && Fold(Pieces(crc, g, q), scratch) == (after, One(r.reported) + One(scratch.Some?))
  {
    hide Fold, Pieces, EmitAll, AllRecords, PlanAll, ParsePhysical, LogTheorem.Found, FullBlock, BufferEnd, BlockIsFull, Fits, Layout;
    var g, off := Reopened(crc, file, after), |file| % BLOCK_SIZE;
    var r := ParsePhysical(crc, g, q);
    AtBreak(crc, g, q);
    Appended(crc, file, after);
    PlanAllStarts(off, after);
    FullOffset(|file|);
    Filled(crc, off, PlanAll(off, after));
    FillsBlock(file, g, q);
    EndOfTrailer(|file|);
    ToBlockEnd(crc, g, |file|, off, r.next);
    FoldBad(r, Pieces(crc, g, r.next), scratch);
    AllIsFold(Pieces(crc, g, |file|));
  }

  lemma FullOffset(p: nat)
    ensures BlockIsFull(p) <==> BlockIsFull(p % BLOCK_SIZE)
  {}

  lemma EndOfTrailer(p: nat)
    requires BlockIsFull(p)
    ensures var e := p + (BLOCK_SIZE - p % BLOCK_SIZE); e % BLOCK_SIZE == 0 && e == p + Trailer(p % BLOCK_SIZE)
  {
    assert p + (BLOCK_SIZE - p % BLOCK_SIZE) == p / BLOCK_SIZE * BLOCK_SIZE + BLOCK_SIZE;
  }

  lemma FillsBlock(file: Bytes, g: Bytes, q: nat)
    requires q <= |file| < q - q % BLOCK_SIZE + BLOCK_SIZE && |g| >= |file| + (BLOCK_SIZE - |file| % BLOCK_SIZE)
    ensures FullBlock(g, q) && BufferEnd(g, q) == |file| + (BLOCK_SIZE - |file| % BLOCK_SIZE)
  {
    SameBlock(q, |file|);
  }

  lemma Filled(crc: Checksum, off: nat, cs: seq<Chunk>)
    requires off < BLOCK_SIZE && cs != [] && Fits(off, cs)
    ensures BlockIsFull(off) ==> |Layout(crc, cs)| >= BLOCK_SIZE - off
  {
    LayoutSize(crc, cs);
  }

  /** Whether a file can be continued: it ends with a physical record, inside a trailer, or where no header fits, and has
      no stored end of file in it. */
  ghost predicate Continues(crc: Checksum, file: Bytes) {
    NoEnd(BeforeBreak(crc, file, 0)) && (Break(crc, file, 0).None? || BlockIsFull(|file|))
  }

  /** The reports that reading a reopened file makes about the old part: a broken physical record, and fragments
      whose record is not complete. */
  function Reports(crc: Checksum, file: Bytes, after: seq<Bytes>): nat {
    var scratch := Pending(BeforeBreak(crc, file, 0), None);
    Fold(BeforeBreak(crc, file, 0), None).1
    + match Break(crc, file, 0)
      case None => LostPart(scratch)
      case Some(q) =>
        var r := ParsePhysical(crc, Reopened(crc, file, after), q);
        One(r.Bad? && r.reported) + One(scratch.Some?)
  }

  /** Records appended to any file, one that a crash has cut in particular, are all read back behind those that the
      file holds if and only if the file can be continued. */
  lemma ReopenedReadsIff(crc: Checksum, file: Bytes, after: seq<Bytes>)
    requires Sound(crc) && after != [] && Rejects(crc, file, after)
    ensures var now := AllRecords(Pieces(crc, Reopened(crc, file, after), 0));
            && (now.0 == AllRecords(Pieces(crc, file, 0)).0 + after <==> Continues(crc, file))
            && (Continues(crc, file) ==> now.1 == Reports(crc, file, after))
            && (!Continues(crc, file) ==> |now.0| < |AllRecords(Pieces(crc, file, 0)).0| + |after|)
  {
    hide Break, BeforeBreak, ParsePhysical, Fold, Pending, Pieces, EmitAll, AllRecords, NoEnd;
    var scratch := Pending(BeforeBreak(crc, file, 0), None);
    AsItIs(crc, file);
    if !NoEnd(BeforeBreak(crc, file, 0)) {
      AsStopped(crc, file, EmitAll(crc, |file| % BLOCK_SIZE, after));
      return;
    }
    AsLonger(crc, file, EmitAll(crc, |file| % BLOCK_SIZE, after));
    match Break(crc, file, 0) {
      case None => GatheredAll(crc, file, after, scratch);
      case Some(q) =>
        BreakPlace(crc, file);
        if BlockIsFull(|file|) {
          GatheredBehind(crc, file, after, q, scratch);
        } else {
          GatheredLess(crc, file, after, q, scratch);
        }
    }
  }

  /** The complete ones of the appended physical records are found behind the old end. */
  lemma PartFound(crc: Checksum, file: Bytes, after: seq<Bytes>, n: nat)
    requires Sound(crc) && n <= |EmitAll(crc, |file| % BLOCK_SIZE, after)|
    ensures var off := |file| % BLOCK_SIZE;
            var ps := Pieces(crc, file + EmitAll(crc, off, after)[..n], |file|);
            AllRecords(ps) == (after[..Complete(off, after, n)], 0) && (ps == [] || Starts(ps[0]))
  {
    hide Layout, Fits, EmitAll, PlanAll, Pieces, AllRecords, Complete;
    var off := |file| % BLOCK_SIZE;
    var cs := PlanAll(off, after);
    var g := file + EmitAll(crc, off, after)[..n];
    EmitAllIsLayout(crc, off, after);
    PlanAllFits(off, after);
    assert g[|file|..] == Layout(crc, cs)[..n];
    assert Holds(g, |file|, Layout(crc, cs));
    LayoutIsFound(crc, g, |file|, off, cs);
    AllBack(|file|, off, after, |g|);
    PlanAllStarts(off, after);
    if after == [] {
      NoPlan(off);
    }
    FoundStarts(|file|, cs, |g|);
  }

  lemma NoPlan(off: nat)
    requires off <= BLOCK_SIZE
    ensures PlanAll(off, []) == []
  {}

  lemma FoundStarts(p: nat, cs: seq<Chunk>, size: nat)
    requires cs == [] || StartsRecord(cs[0])
    ensures var ps := LogTheorem.Found(p, cs, size); ps == [] || Starts(ps[0])
  {}

  // ---- Without a report ----------------------------------------------------------------------------------------------

  /** Are the length and the type of the header at `q` zero, as far as the file holds them? */
  predicate HeaderBlank(file: Bytes, q: nat) {
    forall i :: q + 4 <= i < q + HEADER_SIZE && i < |file| ==> file[i] == 0
  }

  /** Whether a file can be continued so that reading it makes no report: nothing is left over of an unfinished record, and
      what is broken is only a blank part of a header where no further header fits. */
  ghost predicate CleanEnd(crc: Checksum, file: Bytes) {
    var scratch := Pending(BeforeBreak(crc, file, 0), None);
    && NoEnd(BeforeBreak(crc, file, 0))
    && match Break(crc, file, 0)
       case None => LostPart(scratch) == 0
       case Some(q) => BlockIsFull(|file|) && scratch.None? && HeaderBlank(file, q)
  }

  lemma HeaderLengthIs(buffer: Bytes)
    requires |buffer| >= HEADER_SIZE
    ensures var low: nat, high: nat := buffer[4], buffer[5]; HeaderLength(buffer) == low + 256 * high
  {
    var a := buffer[4..];
    assert DecodeFixed(2, a) == a[0] + 256 * DecodeFixed(1, a[1..]);
    assert DecodeFixed(1, a[1..]) == a[1..][0] + 256 * DecodeFixed(0, a[1..][1..]);
  }

  /** A blank header is skipped silently with the rest of its block, or ends the file. */
  lemma BlankIsSilent(crc: Checksum, file: Bytes, q: nat)
    requires q <= |file| && q % BLOCK_SIZE + HEADER_SIZE <= BLOCK_SIZE && HeaderBlank(file, q)
    ensures var r := ParsePhysical(crc, file, q); !r.Fragment? && (r.Bad? ==> !r.reported)
  {
    var e := BufferEnd(file, q);
    if e - q >= HEADER_SIZE {
      var buffer := file[q..e];
      HeaderLengthIs(buffer);
      assert buffer[4] == file[q + 4] && buffer[5] == file[q + 5] && buffer[6] == file[q + 6];
    }
  }

  /** Only a blank header is skipped silently. */
  lemma SilentIsBlank(crc: Checksum, file: Bytes, q: nat)
    requires q <= |file| && q % BLOCK_SIZE + HEADER_SIZE <= BLOCK_SIZE
    requires ParsePhysical(crc, file, q).Bad? && !ParsePhysical(crc, file, q).reported
    ensures HeaderBlank(file, q)
  {
    var e := BufferEnd(file, q);
    var buffer := file[q..e];
    if e - q >= HEADER_SIZE {
      HeaderLengthIs(buffer);
      assert buffer[4] == file[q + 4] && buffer[5] == file[q + 5] && buffer[6] == file[q + 6];
    }
  }

  /** The zeros that fill a block up, or the first of them, behind its break. */
  lemma {:induction false} ZerosAreZero(n: nat, i: nat)
    requires i < n
    ensures Zeros(n)[i] == 0
  {
    if i > 0 {
      ZerosAreZero(n - 1, i - 1);
    }
  }

  lemma {:induction false} ZerosPart(n: nat, k: nat)
    requires k <= n
    ensures Zeros(n)[..k] == Zeros(k)
  {
    if k > 0 {
      ZerosPart(n - 1, k - 1);
    }
  }

  lemma FilledHeader(file: Bytes, more: Bytes, q: nat)
    requires q <= |file| < q - q % BLOCK_SIZE + BLOCK_SIZE && q % BLOCK_SIZE + HEADER_SIZE <= BLOCK_SIZE
    requires var t := Least(|more|, BLOCK_SIZE - |file| % BLOCK_SIZE); more[..t] == Zeros(t)
    ensures HeaderBlank(file + more, q) <==> HeaderBlank(file, q)
  {
    var g, t := file + more, Least(|more|, BLOCK_SIZE - |file| % BLOCK_SIZE);
    SameBlock(q, |file|);
    forall i | |file| <= i < q + HEADER_SIZE && i < |g| ensures g[i] == 0 {
      ZerosAreZero(t, i - |file|);
      assert g[i] == more[..t][i - |file|];
    }
    assert forall i :: 0 <= i < |file| ==> g[i] == file[i];
  }

  /** What is appended where no header fits starts with the trailer of the block. */
  lemma StartsWithTrailer(crc: Checksum, off: nat, after: seq<Bytes>, n: nat)
    requires off < BLOCK_SIZE && BlockIsFull(off) && n <= |EmitAll(crc, off, after)|
    ensures var t := Least(n, BLOCK_SIZE - off); EmitAll(crc, off, after)[..n][..t] == Zeros(t)
  {
    var all, t := EmitAll(crc, off, after), Least(n, BLOCK_SIZE - off);
    if after == [] {
      assert t == 0;
    } else {
      var cs := PlanAll(off, after);
      EmitAllIsLayout(crc, off, after);
      PlanAllFits(off, after);
      PlanAllStarts(off, after);
      assert all == Zeros(cs[0].pad) + (Physical(crc, cs[0].kind, cs[0].data) + Layout(crc, cs[1..]));
      assert all[..n][..t] == all[..t] == Zeros(cs[0].pad)[..t];
      ZerosPart(cs[0].pad, t);
    }
  }

  /** A continued file reads completely and without a report if and only if it ended cleanly. */
  lemma ReopenedCleanIff(crc: Checksum, file: Bytes, after: seq<Bytes>)
    requires Sound(crc) && after != [] && Rejects(crc, file, after) && AllRecords(Pieces(crc, file, 0)).1 == 0
    ensures AllRecords(Pieces(crc, Reopened(crc, file, after), 0)) == (AllRecords(Pieces(crc, file, 0)).0 + after, 0)
       <==> CleanEnd(crc, file)
  {
    hide Break, BeforeBreak, ParsePhysical, Fold, Pending, Pieces, EmitAll, AllRecords, NoEnd, HeaderBlank, LostPart;
    ReopenedReadsIff(crc, file, after);
    AsItIs(crc, file);
    if NoEnd(BeforeBreak(crc, file, 0)) && Break(crc, file, 0).Some? && BlockIsFull(|file|) {
      BreakPlace(crc, file);
      BrokenHeader(crc, file, after, Break(crc, file, 0).value);
    }
  }

  lemma BrokenHeader(crc: Checksum, file: Bytes, after: seq<Bytes>, q: nat)
    requires Sound(crc) && after != [] && BlockIsFull(|file|)
    requires q <= |file| < q - q % BLOCK_SIZE + BLOCK_SIZE && q % BLOCK_SIZE + HEADER_SIZE <= BLOCK_SIZE
    requires !ParsePhysical(crc, Reopened(crc, file, after), q).Fragment?
    ensures var r := ParsePhysical(crc, Reopened(crc, file, after), q);
            r.Bad? && (!r.reported <==> HeaderBlank(file, q))
  {
    hide ParsePhysical, Fold, Pieces, EmitAll, HeaderBlank;
    var off := |file| % BLOCK_SIZE;
    var more := EmitAll(crc, off, after);
    GatheredBehind(crc, file, after, q, None);
    FullOffset(|file|);
    StartsWithTrailer(crc, off, after, |more|);
    assert more[..|more|] == more;
    FilledHeader(file, more, q);
    if HeaderBlank(file, q) {
      BlankIsSilent(crc, file + more, q);
    } else if !ParsePhysical(crc, file + more, q).reported {
      SilentIsBlank(crc, file + more, q);
    }
  }

  // ---- A continued file that is cut again ----------------------------------------------------------------------------

  /** The reader does not take the broken physical record for one together with the zeros that fill its block up. */
  ghost predicate Rejected(crc: Checksum, file: Bytes) {
    match Break(crc, file, 0)
    case None => true
    case Some(q) => forall t :: 0 <= t <= Trailer(|file| % BLOCK_SIZE) ==> !ParsePhysical(crc, file + Zeros(t), q).Fragment?
  }

  lemma CleanIsRejected(crc: Checksum, file: Bytes)
    requires CleanEnd(crc, file)
    ensures Rejected(crc, file) && Continues(crc, file)
  {
    hide Break, BeforeBreak, ParsePhysical, Pending, NoEnd, HeaderBlank, LostPart, Zeros;
    if Break(crc, file, 0).Some? {
      var q := Break(crc, file, 0).value;
      BreakPlace(crc, file);
      forall t | 0 <= t <= Trailer(|file| % BLOCK_SIZE) ensures !ParsePhysical(crc, file + Zeros(t), q).Fragment? {
        ZerosPart(t, Least(t, BLOCK_SIZE - |file| % BLOCK_SIZE));
        FilledHeader(file, Zeros(t), q);
        BlankIsSilent(crc, file + Zeros(t), q);
      }
    }
  }

  /** Without a break: the complete ones of the appended records, and a report about what was left over if there are any. */
  lemma PartBehindEnd(crc: Checksum, file: Bytes, after: seq<Bytes>, n: nat, scratch: Option<Bytes>)
    requires Sound(crc) && n <= |EmitAll(crc, |file| % BLOCK_SIZE, after)|
    ensures var off := |file| % BLOCK_SIZE;
            var r := Fold(Pieces(crc, file + EmitAll(crc, off, after)[..n], |file|), scratch);
            r.0 == after[..Complete(off, after, n)] && r.1 <= LostPart(scratch)
  {
    hide Fold, Pieces, EmitAll, AllRecords, Complete, LostPart, Starts;
    var ps := Pieces(crc, file + EmitAll(crc, |file| % BLOCK_SIZE, after)[..n], |file|);
    PartFound(crc, file, after, n);
    AllIsFold(ps);
    if ps == [] {
      FoldNothing(scratch);
      FoldNothing(None);
    } else {
      FoldAfresh(ps, scratch);
    }
  }

  /** Behind a break where no header fits: the same, with the reports about the break. */
  lemma PartBehindBreak(crc: Checksum, file: Bytes, after: seq<Bytes>, n: nat, q: nat, scratch: Option<Bytes>)
    requires Sound(crc) && n <= |EmitAll(crc, |file| % BLOCK_SIZE, after)| && BlockIsFull(|file|)
    requires q <= |file| < q - q % BLOCK_SIZE + BLOCK_SIZE && q % BLOCK_SIZE + HEADER_SIZE <= BLOCK_SIZE
    requires !ParsePhysical(crc, file + EmitAll(crc, |file| % BLOCK_SIZE, after)[..n], q).Fragment?
    ensures var off := |file| % BLOCK_SIZE;
            var r := Fold(Pieces(crc, file + EmitAll(crc, off, after)[..n], q), scratch);
            && r.0 == after[..Complete(off, after, n)]
            && (scratch.None? && HeaderBlank(file, q) ==> r.1 == 0)
  {
    hide Fold, Pieces, EmitAll, AllRecords, Complete, ParsePhysical, HeaderBlank, FullBlock, BufferEnd, BlockIsFull;
    var off := |file| % BLOCK_SIZE;
    var part := EmitAll(crc, off, after)[..n];
    var g := file + part;
    var r := ParsePhysical(crc, g, q);
    AtBreak(crc, g, q);
    FullOffset(|file|);
    StartsWithTrailer(crc, off, after, n);
    FilledHeader(file, part, q);
    if HeaderBlank(file, q) {
      BlankIsSilent(crc, g, q);
    }
    EndOfTrailer(|file|);
    if n < BLOCK_SIZE - off {
      NothingComplete(off, after, n);
      CutInTrailer(file, g, q);
      if r.Bad? {
        NothingLeft(crc, g);
        FoldBad(r, [], scratch);
      }
      FoldNothing(scratch);
      FoldNothing(None);
    } else {
      FillsBlock(file, g, q);
      ToBlockEnd(crc, g, |file|, off, r.next);
      FoldBad(r, Pieces(crc, g, r.next), scratch);
      PartFound(crc, file, after, n);
      AllIsFold(Pieces(crc, g, |file|));
    }
  }

  lemma NothingComplete(off: nat, after: seq<Bytes>, n: nat)
    requires off <= BLOCK_SIZE && n < Trailer(off)
    ensures after[..Complete(off, after, n)] == []
  {}

  lemma CutInTrailer(file: Bytes, g: Bytes, q: nat)
    requires q <= |file| < q - q % BLOCK_SIZE + BLOCK_SIZE && |file| <= |g| < |file| + (BLOCK_SIZE - |file| % BLOCK_SIZE)
    ensures !FullBlock(g, q) && BufferEnd(g, q) == |g|
  {
    SameBlock(q, |file|);
  }

  /** Zeros that do not complete the broken record do not do so with more behind them. */
  lemma StaysRejected(crc: Checksum, file: Bytes, after: seq<Bytes>, n: nat)
    requires Rejected(crc, file) && Break(crc, file, 0).Some? && BlockIsFull(|file|) && n <= |EmitAll(crc, |file| % BLOCK_SIZE, after)|
    ensures !ParsePhysical(crc, file + EmitAll(crc, |file| % BLOCK_SIZE, after)[..n], Break(crc, file, 0).value).Fragment?
  {
    hide Break, ParsePhysical, EmitAll, Zeros, FullBlock, BufferEnd;
    var off := |file| % BLOCK_SIZE;
    var q, part := Break(crc, file, 0).value, EmitAll(crc, off, after)[..n];
    var t := Least(n, BLOCK_SIZE - off);
    BreakPlace(crc, file);
    FullOffset(|file|);
    StartsWithTrailer(crc, off, after, n);
    EndOfTrailer(|file|);
    var padded := file + Zeros(t);
    if n <= BLOCK_SIZE - off {
      assert part[..t] == part;
    } else {
      assert part == Zeros(t) + part[t..] && file + part == padded + part[t..];
      FillsBlock(file, padded, q);
      ParseInFullBlock(crc, padded, part[t..], q);
      ParseHere(crc, padded, q);
    }
  }

  /** What a crash leaves of a log that has been continued: the records there were, and those appended records that are
      complete; without a report if the log ended cleanly. */
  lemma ContinuedPrefix(crc: Checksum, file: Bytes, after: seq<Bytes>, n: nat) returns (k: nat)
    requires Sound(crc) && Continues(crc, file) && Rejected(crc, file) && n <= |EmitAll(crc, |file| % BLOCK_SIZE, after)|
    ensures k == Complete(|file| % BLOCK_SIZE, after, n)
    ensures var off := |file| % BLOCK_SIZE;
      && |EmitAll(crc, off, after[..k])| <= n && (k < |after| ==> n < |EmitAll(crc, off, after[..k + 1])|)
    ensures var was, now := AllRecords(Pieces(crc, file, 0)), AllRecords(Pieces(crc, file + EmitAll(crc, |file| % BLOCK_SIZE, after)[..n], 0));
      now.0 == was.0 + after[..k] && (CleanEnd(crc, file) ==> now.1 <= was.1)
  {
    hide Break, BeforeBreak, ParsePhysical, Fold, NoEnd, Pending, Pieces, EmitAll, AllRecords, Complete, Rejected, HeaderBlank;
    var off := |file| % BLOCK_SIZE;
    var scratch := Pending(BeforeBreak(crc, file, 0), None);
    k := Complete(off, after, n);
    CompleteIsMost(off, after, n);
    EmitAllSize(crc, off, after[..k]);
    if k < |after| {
      EmitAllSize(crc, off, after[..k + 1]);
    }
    AsItIs(crc, file);
    AsLonger(crc, file, EmitAll(crc, off, after)[..n]);
    match Break(crc, file, 0) {
      case None => PartBehindEnd(crc, file, after, n, scratch);
      case Some(q) =>
        BreakPlace(crc, file);
        StaysRejected(crc, file, after, n);
        PartBehindBreak(crc, file, after, n, q, scratch);
    }
  }
}
