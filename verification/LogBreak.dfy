/** Where the reading of a log that ends in the middle of something stops, and why a longer file is read in the same way
    up to there. */
module LogBreaks {
  import opened ByteStrings
  import opened Coding
  import opened Keys
  import opened LogFormat
  import opened LogReading
  import opened LogTheorem

  // ---- Records gathered from physical records ----------------------------------------------------------------------

  /** The record that an outcome completes, if any. */
  function Yield(o: Outcome): seq<Bytes> {
    if o.Done? then [o.data] else []
  }

  /** What it leaves for the next physical record. */
  function Left(o: Outcome): Option<Bytes> {
    if o.Done? then None else o.scratch
  }

  /** Every record and the number of reports, with `scratch` gathered before. */
  function Fold(ps: seq<Piece>, scratch: Option<Bytes>): (seq<Bytes>, nat)
    decreases |ps|
  {
    if ps == [] || Ends(ps[0]) then ([], 0)
    else
      var o := Gather(scratch, ps[0]);
      var (records, more) := Fold(ps[1..], Left(o));
      (Yield(o) + records, o.complaints + more)
  }

  /** What is gathered at the end and belongs to no record yet. */
  function Pending(ps: seq<Piece>, scratch: Option<Bytes>): Option<Bytes>
    decreases |ps|
  {
    if ps == [] then scratch
    else if Ends(ps[0]) then None
    else Pending(ps[1..], Left(Gather(scratch, ps[0])))
  }

  ghost predicate NoEnd(ps: seq<Piece>) {
    forall i :: 0 <= i < |ps| ==> !Ends(ps[i])
  }

  lemma {:induction false} NextIsFold(ps: seq<Piece>, scratch: Option<Bytes>)
    ensures match NextRecord(ps, scratch)
      case NoMore(reports) => Fold(ps, scratch) == ([], reports)
      case Record(data, used, reports) =>
        Fold(ps, scratch) == ([data] + Fold(ps[used..], None).0, reports + Fold(ps[used..], None).1)
    decreases |ps|
  {
    hide Gather;
    if ps != [] && !Ends(ps[0]) {
      var o := Gather(scratch, ps[0]);
      if o.More? {
        NextIsFold(ps[1..], o.scratch);
        assert [] + Fold(ps[1..], o.scratch).0 == Fold(ps[1..], o.scratch).0;
        var r := NextRecord(ps[1..], o.scratch);
        if r.Record? {
          assert ps[1..][r.used..] == ps[1 + r.used..];
        }
      }
    }
  }

  lemma {:induction false} AllIsFold(ps: seq<Piece>)
    ensures AllRecords(ps) == Fold(ps, None)
    decreases |ps|
  {
    hide Fold, NextRecord;
    NextIsFold(ps, None);
    var r := NextRecord(ps, None);
    if r.Record? {
      AllIsFold(ps[r.used..]);
    }
  }

  lemma {:induction false} FoldJoin(ps: seq<Piece>, qs: seq<Piece>, scratch: Option<Bytes>)
    requires NoEnd(ps)
    ensures var a, b := Fold(ps, scratch), Fold(qs, Pending(ps, scratch));
            Fold(ps + qs, scratch) == (a.0 + b.0, a.1 + b.1)
    decreases |ps|
  {
    hide Gather;
    if ps == [] {
      assert ps + qs == qs && [] + Fold(qs, scratch).0 == Fold(qs, scratch).0;
    } else {
      assert (ps + qs)[1..] == ps[1..] + qs;
      var o := Gather(scratch, ps[0]);
      FoldJoin(ps[1..], qs, Left(o));
      Associative(Yield(o), Fold(ps[1..], Left(o)).0, Fold(qs, Pending(ps, scratch)).0);
    }
  }

  /** A fragment that begins a record. */
  predicate Starts(r: Piece) {
    r.Fragment? && (r.kind == FULL || r.kind == FIRST)
  }

  /** Fragments of an unfinished record that are followed by the beginning of another one. */
  function LostPart(scratch: Option<Bytes>): nat {
    One(scratch.Some? && |scratch.value| > 0)
  }

  lemma FoldAfresh(qs: seq<Piece>, scratch: Option<Bytes>)
    requires qs != [] && Starts(qs[0])
    ensures Fold(qs, scratch) == (Fold(qs, None).0, Fold(qs, None).1 + LostPart(scratch))
  {}

  function CountStarts(ps: seq<Piece>): nat {
    if ps == [] then 0 else One(Starts(ps[0])) + CountStarts(ps[1..])
  }

  /** No record without its beginning. */
  lemma {:induction false} FoldCount(ps: seq<Piece>, scratch: Option<Bytes>)
    ensures |Fold(ps, scratch).0| <= CountStarts(ps) + One(scratch.Some?)
    decreases |ps|
  {
    if ps != [] && !Ends(ps[0]) {
      FoldCount(ps[1..], Left(Gather(scratch, ps[0])));
    }
  }

  /** Behind a stop nothing is gathered. */
  lemma {:induction false} FoldStops(ps: seq<Piece>, qs: seq<Piece>, scratch: Option<Bytes>)
    requires !NoEnd(ps)
    ensures Fold(ps + qs, scratch) == Fold(ps, scratch)
    decreases |ps|
  {
    hide Gather;
    assert ps != [] && (ps + qs)[0] == ps[0] && (ps + qs)[1..] == ps[1..] + qs;
    if !Ends(ps[0]) {
      assert !NoEnd(ps[1..]) by {
        var i :| 0 <= i < |ps| && Ends(ps[i]);
        assert ps[1..][i - 1] == ps[i];
      }
      FoldStops(ps[1..], qs, Left(Gather(scratch, ps[0])));
    }
  }

  // ---- How a file ends -----------------------------------------------------------------------------------------------

  /** Does no header fit into the rest of the block? */
  predicate BlockIsFull(p: nat) {
    p % BLOCK_SIZE + HEADER_SIZE > BLOCK_SIZE
  }

  /** Where reading from `p` on meets a physical record that is cut off or broken in the last block, which is not
      complete.  There is none if that block ends with a physical record, or inside its trailer. */
  function Break(crc: Checksum, file: Bytes, p: nat): (q: Option<nat>)
    requires p <= |file|
    ensures q.Some? ==> p <= q.value <= |file|
    decreases |file| - p
  {
    var e := BufferEnd(file, p);
    if e - p < HEADER_SIZE then
      if FullBlock(file, p) then Break(crc, file, e)
      else if p == |file| || BlockIsFull(p) then None
      else Some(p)
    else
      match ParseBuffer(crc, file[p..e], FullBlock(file, p), p)
      case Fragment(_, _, next) => Break(crc, file, next)
      case Bad(_, _) => if FullBlock(file, p) then Break(crc, file, e) else Some(p)
      case EndOfFile => Some(p)
  }

  /** The physical records before the break; all of them if there is none. */
  function BeforeBreak(crc: Checksum, file: Bytes, p: nat): seq<Piece>
    requires p <= |file|
    decreases |file| - p
  {
    var e := BufferEnd(file, p);
    if e - p < HEADER_SIZE then
      if FullBlock(file, p) then BeforeBreak(crc, file, e) else []
    else
      match ParseBuffer(crc, file[p..e], FullBlock(file, p), p)
      case Fragment(kind, data, next) => [Fragment(kind, data, next)] + BeforeBreak(crc, file, next)
      case Bad(next, reported) => if FullBlock(file, p) then [Bad(next, reported)] + BeforeBreak(crc, file, e) else []
      case EndOfFile => []
  }

  /** Where reading goes on when the file has grown. */
  function Resume(crc: Checksum, file: Bytes, p: nat): (q: nat)
    requires p <= |file|
    ensures p <= q <= |file|
  {
    match Break(crc, file, p)
    case None => |file|
    case Some(q) => q
  }

  lemma ParseLonger(crc: Checksum, buffer: Bytes, more: Bytes, full: bool, full': bool, p: nat)
    requires |buffer| >= HEADER_SIZE && ParseBuffer(crc, buffer, full, p).Fragment?
    ensures ParseBuffer(crc, buffer + more, full', p) == ParseBuffer(crc, buffer, full, p)
  {
    var longer := buffer + more;
    HeaderStays(buffer, more);
    var length := HeaderLength(buffer);
    assert longer[..4] == buffer[..4];
    assert longer[6..HEADER_SIZE + length] == buffer[6..HEADER_SIZE + length];
    assert longer[HEADER_SIZE..HEADER_SIZE + length] == buffer[HEADER_SIZE..HEADER_SIZE + length];
  }

  lemma HeaderStays(buffer: Bytes, more: Bytes)
    requires |buffer| >= HEADER_SIZE
    ensures HeaderLength(buffer + more) == HeaderLength(buffer)
  {
    var a, b := buffer[4..], (buffer + more)[4..];
    assert a[0] == b[0] && a[1..][0] == b[1..][0];
    assert DecodeFixed(2, a) == a[0] + 256 * DecodeFixed(1, a[1..]);
    assert DecodeFixed(2, b) == b[0] + 256 * DecodeFixed(1, b[1..]);
    assert DecodeFixed(1, a[1..]) == a[1] + 256 * DecodeFixed(0, a[1..][1..]);
    assert DecodeFixed(1, b[1..]) == b[1] + 256 * DecodeFixed(0, b[1..][1..]);
  }

  lemma BufferGrows(file: Bytes, more: Bytes, p: nat)
    requires p <= |file|
    ensures var e, e' := BufferEnd(file, p), BufferEnd(file + more, p);
            && e <= e' && (FullBlock(file, p) ==> FullBlock(file + more, p) && e == e')
            && (file + more)[p..e'] == file[p..e] + (file + more)[e..e']
  {
    var e, e' := BufferEnd(file, p), BufferEnd(file + more, p);
    assert (file + more)[p..e'] == (file + more)[p..e] + (file + more)[e..e'];
    assert (file + more)[p..e] == file[p..e];
  }

  /** Bytes behind a block do not change what is read in it. */
  lemma ParseInFullBlock(crc: Checksum, file: Bytes, more: Bytes, p: nat)
    requires p <= |file| && FullBlock(file, p) && BufferEnd(file, p) - p >= HEADER_SIZE
    ensures ParsePhysical(crc, file + more, p) == ParseBuffer(crc, file[p..BufferEnd(file, p)], true, p)
  {
    hide ParseBuffer;
    BufferGrows(file, more, p);
    var e := BufferEnd(file, p);
    assert (file + more)[p..e] == file[p..e];
  }

  lemma ParseFragment(crc: Checksum, file: Bytes, more: Bytes, p: nat)
    requires p <= |file| && BufferEnd(file, p) - p >= HEADER_SIZE
    requires ParseBuffer(crc, file[p..BufferEnd(file, p)], FullBlock(file, p), p).Fragment?
    ensures ParsePhysical(crc, file + more, p) == ParseBuffer(crc, file[p..BufferEnd(file, p)], FullBlock(file, p), p)
  {
    hide ParseBuffer;
    BufferGrows(file, more, p);
    var e, e' := BufferEnd(file, p), BufferEnd(file + more, p);
    ParseLonger(crc, file[p..e], (file + more)[e..e'], FullBlock(file, p), FullBlock(file + more, p), p);
  }

  /** Positions in the trailer of a block are as good as one another. */
  lemma SameTrailer(crc: Checksum, file: Bytes, p: nat, q: nat)
    requires p <= q <= |file| && BlockIsFull(p) && q < p - p % BLOCK_SIZE + BLOCK_SIZE
    ensures Pieces(crc, file, p) == Pieces(crc, file, q)
  {
    hide ParseBuffer;
    SameBlock(p, q);
    assert ParsePhysical(crc, file, p) == ParsePhysical(crc, file, q);
    PiecesStep(crc, file, p, ParsePhysical(crc, file, p));
    PiecesStep(crc, file, q, ParsePhysical(crc, file, q));
  }

  lemma SameBlock(p: nat, q: nat)
    requires p <= q < p - p % BLOCK_SIZE + BLOCK_SIZE
    ensures p - p % BLOCK_SIZE == q - q % BLOCK_SIZE
  {}

  /** When a block is at its end, reading goes on with the next one. */
  lemma NextBlock(crc: Checksum, file: Bytes, p: nat)
    requires p <= |file| && FullBlock(file, p) && BufferEnd(file, p) - p < HEADER_SIZE
    ensures Pieces(crc, file, p) == Pieces(crc, file, BufferEnd(file, p))
  {
    hide ParseBuffer;
    var e := BufferEnd(file, p);
    assert ParsePhysical(crc, file, p) == ParsePhysical(crc, file, e);
    PiecesStep(crc, file, p, ParsePhysical(crc, file, p));
    PiecesStep(crc, file, e, ParsePhysical(crc, file, e));
  }

  /** In a longer file the same is read up to the break, or to the old end. */
  lemma {:induction false} Longer(crc: Checksum, file: Bytes, more: Bytes, p: nat)
    requires p <= |file|
    ensures Pieces(crc, file + more, p) == BeforeBreak(crc, file, p) + Pieces(crc, file + more, Resume(crc, file, p))
    decreases |file| - p
  {
    hide ParseBuffer, ParsePhysical, Pieces;
    var e, g := BufferEnd(file, p), file + more;
    if e - p < HEADER_SIZE {
      if FullBlock(file, p) {
        BufferGrows(file, more, p);
        NextBlock(crc, g, p);
        Longer(crc, file, more, e);
      } else if p < |file| && BlockIsFull(p) {
        SameTrailer(crc, g, p, |file|);
        assert [] + Pieces(crc, g, |file|) == Pieces(crc, g, |file|);
      } else {
        assert Resume(crc, file, p) == p && [] + Pieces(crc, g, p) == Pieces(crc, g, p);
      }
    } else {
      var r := ParseBuffer(crc, file[p..e], FullBlock(file, p), p);
      if r.Fragment? {
        ParseFragment(crc, file, more, p);
        FragmentNext(crc, file, p);
        PiecesStep(crc, g, p, r);
        Longer(crc, file, more, r.next);
        Associative([r], BeforeBreak(crc, file, r.next), Pieces(crc, g, Resume(crc, file, r.next)));
      } else if r.Bad? && FullBlock(file, p) {
        BadNext(crc, file, p);
        ParseInFullBlock(crc, file, more, p);
        PiecesStep(crc, g, p, r);
        Longer(crc, file, more, e);
        Associative([r], BeforeBreak(crc, file, e), Pieces(crc, g, Resume(crc, file, e)));
      } else {
        assert Resume(crc, file, p) == p && [] + Pieces(crc, g, p) == Pieces(crc, g, p);
      }
    }
  }

  lemma FragmentNext(crc: Checksum, file: Bytes, p: nat)
    requires p <= |file| && BufferEnd(file, p) - p >= HEADER_SIZE
    requires ParseBuffer(crc, file[p..BufferEnd(file, p)], FullBlock(file, p), p).Fragment?
    ensures p < ParseBuffer(crc, file[p..BufferEnd(file, p)], FullBlock(file, p), p).next <= |file|
  {}

  lemma BadNext(crc: Checksum, file: Bytes, p: nat)
    requires p <= |file| && BufferEnd(file, p) - p >= HEADER_SIZE
    requires ParseBuffer(crc, file[p..BufferEnd(file, p)], FullBlock(file, p), p).Bad?
    ensures ParseBuffer(crc, file[p..BufferEnd(file, p)], FullBlock(file, p), p).next == BufferEnd(file, p)
  {}

  /** What is read from the break on in the file as it is: nothing. */
  lemma {:induction false} BreakEnds(crc: Checksum, file: Bytes, p: nat)
    requires p <= |file|
    ensures Pieces(crc, file, p) == BeforeBreak(crc, file, p) + Pieces(crc, file, Resume(crc, file, p))
    ensures var q := Resume(crc, file, p);
            !ParsePhysical(crc, file, q).Fragment? && (ParsePhysical(crc, file, q).Bad? ==> ParsePhysical(crc, file, q).next == |file|)
    decreases |file| - p
  {
    assert file + [] == file;
    Longer(crc, file, [], p);
    BreakStops(crc, file, p);
  }

  lemma {:induction false} BreakStops(crc: Checksum, file: Bytes, p: nat)
    requires p <= |file|
    ensures var r := ParsePhysical(crc, file, Resume(crc, file, p));
            !r.Fragment? && (r.Bad? ==> r.next == |file|)
    ensures Break(crc, file, p).Some? ==> !FullBlock(file, Resume(crc, file, p)) && !BlockIsFull(Resume(crc, file, p))
    decreases |file| - p
  {
    hide ParseBuffer, ParsePhysical;
    var e := BufferEnd(file, p);
    if e - p < HEADER_SIZE {
      if FullBlock(file, p) {
        BreakStops(crc, file, e);
      } else {
        EndOfBlocks(crc, file, Resume(crc, file, p));
      }
    } else {
      var r := ParseBuffer(crc, file[p..e], FullBlock(file, p), p);
      ParseHere(crc, file, p);
      if r.Fragment? {
        FragmentNext(crc, file, p);
        BreakStops(crc, file, r.next);
      } else if FullBlock(file, p) {
        if r.Bad? {
          BreakStops(crc, file, e);
        } else {
          FullDoesNotEnd(crc, file[p..e], p);
        }
      } else if r.Bad? {
        BadNext(crc, file, p);
      }
    }
  }

  lemma EndOfBlocks(crc: Checksum, file: Bytes, p: nat)
    requires p <= |file| && !FullBlock(file, p) && |file| - p < HEADER_SIZE
    ensures ParsePhysical(crc, file, p) == EndOfFile
  {}

  lemma ParseHere(crc: Checksum, file: Bytes, p: nat)
    requires p <= |file| && BufferEnd(file, p) - p >= HEADER_SIZE
    ensures ParsePhysical(crc, file, p) == ParseBuffer(crc, file[p..BufferEnd(file, p)], FullBlock(file, p), p)
  {
    hide ParseBuffer;
  }

  lemma FullDoesNotEnd(crc: Checksum, buffer: Bytes, p: nat)
    requires |buffer| >= HEADER_SIZE
    ensures !ParseBuffer(crc, buffer, true, p).EndOfFile?
  {}

  // ---- The break of a longer file --------------------------------------------------------------------------------------

  lemma BreakInTrailer(crc: Checksum, file: Bytes, p: nat, q: nat)
    requires p <= q <= |file| && BlockIsFull(p) && q < p - p % BLOCK_SIZE + BLOCK_SIZE
    ensures Break(crc, file, p) == Break(crc, file, q) && BeforeBreak(crc, file, p) == BeforeBreak(crc, file, q)
  {
    hide ParseBuffer;
    SameBlock(p, q);
  }

  /** A longer file breaks off where it does from the old break, or the old end, on. */
  lemma {:induction false} LongerBreak(crc: Checksum, file: Bytes, more: Bytes, p: nat)
    requires p <= |file|
    ensures var g, q := file + more, Resume(crc, file, p);
      && Break(crc, g, p) == Break(crc, g, q)
      && BeforeBreak(crc, g, p) == BeforeBreak(crc, file, p) + BeforeBreak(crc, g, q)
    decreases |file| - p
  {
    hide ParseBuffer;
    var e, g := BufferEnd(file, p), file + more;
    BufferGrows(file, more, p);
    if e - p < HEADER_SIZE {
      if FullBlock(file, p) {
        LongerBreak(crc, file, more, e);
      } else if p < |file| && BlockIsFull(p) {
        BreakInTrailer(crc, g, p, |file|);
        assert [] + BeforeBreak(crc, g, |file|) == BeforeBreak(crc, g, |file|);
      } else {
        assert Resume(crc, file, p) == p && [] + BeforeBreak(crc, g, p) == BeforeBreak(crc, g, p);
      }
    } else {
      var r := ParseBuffer(crc, file[p..e], FullBlock(file, p), p);
      if r.Fragment? {
        ParseFragment(crc, file, more, p);
        FragmentNext(crc, file, p);
        StepOver(crc, g, p, r);
        LongerBreak(crc, file, more, r.next);
        Associative([r], BeforeBreak(crc, file, r.next), BeforeBreak(crc, g, Resume(crc, file, r.next)));
      } else if r.Bad? && FullBlock(file, p) {
        BadNext(crc, file, p);
        ParseInFullBlock(crc, file, more, p);
        StepOver(crc, g, p, r);
        LongerBreak(crc, file, more, e);
        Associative([r], BeforeBreak(crc, file, e), BeforeBreak(crc, g, Resume(crc, file, e)));
      } else {
        assert Resume(crc, file, p) == p && [] + BeforeBreak(crc, g, p) == BeforeBreak(crc, g, p);
      }
    }
  }

  /** One physical record, or a broken one in a complete block. */
  lemma StepOver(crc: Checksum, file: Bytes, p: nat, r: Piece)
    requires p <= |file| && BufferEnd(file, p) - p >= HEADER_SIZE && ParsePhysical(crc, file, p) == r
    requires r.Fragment? || (r.Bad? && FullBlock(file, p))
    ensures p < r.next <= |file|
    ensures Break(crc, file, p) == Break(crc, file, r.next) && BeforeBreak(crc, file, p) == [r] + BeforeBreak(crc, file, r.next)
  {
    if r.Bad? {
      BadNext(crc, file, p);
    }
  }
}
