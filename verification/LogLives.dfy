module LogLives {
  // The bytes of a log over all its lifetimes: records are appended, crashes cut off anything that was not synced, and
  // the log is continued where it ends.

  import opened ByteStrings
  import opened Keys
  import opened LogBreaks
  import opened LogCrashes
  import opened LogFormat
  import opened LogReading
  import opened LogReopening
  import opened LogTheorem

  /** What reading the whole file gives: the records, and the number of reports. */
  function ReadFile(crc: Checksum, file: Bytes): (seq<Bytes>, nat) {
    AllRecords(Pieces(crc, file, 0))
  }

  // ---- After complete records ----------------------------------------------------------------------------------------

  /** Behind complete appended records nothing is broken. */
  lemma AppendedBreak(crc: Checksum, file: Bytes, after: seq<Bytes>)
    requires Sound(crc)
    ensures var g := Reopened(crc, file, after);
      && Break(crc, g, |file|) == None
      && BeforeBreak(crc, g, |file|) == Pieces(crc, g, |file|)
  {
    hide Break, BeforeBreak, ParsePhysical, Pieces, EmitAll, PlanAll, Layout, Fits, Holds, LogTheorem.Found, TornAt, AllRecords, Aligned,
      IsTorn;
    var g, off := Reopened(crc, file, after), |file| % BLOCK_SIZE;
    Appended(crc, file, after);
    assert |g| <= |file| + |Layout(crc, PlanAll(off, after))|;
    TearsIffBreak(crc, g, |file|, off, PlanAll(off, after));
    NothingTorn(crc, |file|, PlanAll(off, after));
    BreakEndsFrom(crc, g, |file|);
  }

  lemma {:induction false} NothingTorn(crc: Checksum, p: nat, cs: seq<Chunk>)
    ensures TornAt(p, cs, p + |Layout(crc, cs)|) == None
    decreases |cs|
  {
    if cs != [] {
      LayoutSize(crc, cs);
      NothingTorn(crc, p + Size(cs[0]), cs[1..]);
    }
  }

  lemma BreakEndsFrom(crc: Checksum, file: Bytes, p: nat)
    requires p <= |file| && Break(crc, file, p) == None
    ensures BeforeBreak(crc, file, p) == Pieces(crc, file, p)
  {
    hide Break, BeforeBreak, ParsePhysical, Pieces;
    BreakEnds(crc, file, p);
    NothingLeft(crc, file);
    assert BeforeBreak(crc, file, p) + [] == BeforeBreak(crc, file, p);
  }

  /** From the old break on: perhaps a broken physical record that is skipped, then the appended ones. */
  lemma BreakAfter(crc: Checksum, file: Bytes, after: seq<Bytes>)
    requires Sound(crc) && after != [] && Continues(crc, file) && Rejected(crc, file)
    ensures var g, q := Reopened(crc, file, after), Resume(crc, file, 0);
      && Break(crc, g, q) == None
      && (BeforeBreak(crc, g, q) == Pieces(crc, g, |file|)
          || (ParsePhysical(crc, g, q).Bad? && BeforeBreak(crc, g, q) == [ParsePhysical(crc, g, q)] + Pieces(crc, g, |file|)))
  {
    hide Break, BeforeBreak, ParsePhysical, Pieces, EmitAll, PlanAll, NoEnd, Rejected;
    var g, off := Reopened(crc, file, after), |file| % BLOCK_SIZE;
    AppendedBreak(crc, file, after);
    if Break(crc, file, 0).Some? {
      var q := Break(crc, file, 0).value;
      var all := EmitAll(crc, off, after);
      BreakPlace(crc, file);
      assert all[..|all|] == all;
      StaysRejected(crc, file, after, |all|);
      GatheredBehind(crc, file, after, q, None);
      SkipsBroken(crc, file, after, q);
    }
  }

  lemma SkipsBroken(crc: Checksum, file: Bytes, after: seq<Bytes>, q: nat)
    requires Sound(crc) && after != [] && BlockIsFull(|file|)
    requires q <= |file| < q - q % BLOCK_SIZE + BLOCK_SIZE && q % BLOCK_SIZE + HEADER_SIZE <= BLOCK_SIZE
    requires ParsePhysical(crc, Reopened(crc, file, after), q).Bad?
    ensures var g := Reopened(crc, file, after);
      && Break(crc, g, q) == Break(crc, g, |file|)
      && BeforeBreak(crc, g, q) == [ParsePhysical(crc, g, q)] + BeforeBreak(crc, g, |file|)
  {
    hide Break, BeforeBreak, ParsePhysical, EmitAll, PlanAll, Layout, Fits, Holds, LogTheorem.Found, AllRecords, Pieces, FullBlock, BufferEnd;
    var g, off := Reopened(crc, file, after), |file| % BLOCK_SIZE;
    Appended(crc, file, after);
    PlanAllStarts(off, after);
    FullOffset(|file|);
    Filled(crc, off, PlanAll(off, after));
    FillsBlock(file, g, q);
    var e := BufferEnd(g, q);
    EndOfTrailer(|file|);
    SameBlock(q, |file|);
    AtBreak(crc, g, q);
    StepOver(crc, g, q, ParsePhysical(crc, g, q));
    NextBlockBreak(crc, g, |file|, e);
  }

  lemma NextBlockBreak(crc: Checksum, file: Bytes, p: nat, e: nat)
    requires p < e <= |file| && e < p + HEADER_SIZE && e % BLOCK_SIZE == 0
    ensures Break(crc, file, p) == Break(crc, file, e) && BeforeBreak(crc, file, p) == BeforeBreak(crc, file, e)
  {
    hide ParseBuffer;
    NextMultiple(p, e);
  }

  /** What complete appended records leave pending: nothing. */
  lemma NothingPending(crc: Checksum, file: Bytes, after: seq<Bytes>, scratch: Option<Bytes>)
    requires Sound(crc) && after != []
    ensures var ps := Pieces(crc, Reopened(crc, file, after), |file|); NoEnd(ps) && LostPart(Pending(ps, scratch)) == 0
  {
    hide Pieces, EmitAll, PlanAll, Layout, Fits, Holds, LogTheorem.Found, AllRecords, LostPart, Pending, NoEnd;
    var g, off := Reopened(crc, file, after), |file| % BLOCK_SIZE;
    Appended(crc, file, after);
    AppendedStarts(crc, file, after);
    PlanAllKinds(off, after);
    FoundGoesOn(|file|, PlanAll(off, after), |g|);
    CutLeavesOver(|file|, off, after, |g|);
    AllLeftOver(crc, off, after);
    var ps := Pieces(crc, g, |file|);
    PendingAfresh(ps, scratch);
    NothingToReport(Pending(ps, None));
  }

  lemma {:induction false} AllLeftOver(crc: Checksum, off: nat, records: seq<Bytes>)
    requires off <= BLOCK_SIZE
    ensures LeftOver(off, records, |EmitAll(crc, off, records)|) == 0
    decreases records
  {
    hide FragmentBytes;
    if records != [] {
      EmitSize(crc, off, records[0], true);
      AllLeftOver(crc, EmitOffset(off, |records[0]|), records[1..]);
    }
  }

  lemma PendingAfresh(ps: seq<Piece>, scratch: Option<Bytes>)
    requires ps != [] && Starts(ps[0])
    ensures Pending(ps, scratch) == Pending(ps, None)
  {}

  lemma {:induction false} PendingJoin(ps: seq<Piece>, qs: seq<Piece>, scratch: Option<Bytes>)
    requires NoEnd(ps)
    ensures Pending(ps + qs, scratch) == Pending(qs, Pending(ps, scratch))
    decreases |ps|
  {
    hide Gather;
    if ps == [] {
      assert ps + qs == qs;
    } else {
      assert (ps + qs)[1..] == ps[1..] + qs;
      PendingJoin(ps[1..], qs, Left(Gather(scratch, ps[0])));
    }
  }

  lemma NoEndJoin(ps: seq<Piece>, qs: seq<Piece>)
    requires NoEnd(ps) && NoEnd(qs)
    ensures NoEnd(ps + qs)
  {}

  /** A log that could be continued ends cleanly once it has been. */
  lemma EndsCleanly(crc: Checksum, file: Bytes, after: seq<Bytes>)
    requires Sound(crc) && after != [] && Continues(crc, file) && Rejected(crc, file)
    ensures CleanEnd(crc, Reopened(crc, file, after))
  {
    hide Break, BeforeBreak, ParsePhysical, Pieces, EmitAll, PlanAll, NoEnd, Rejected, Pending, LostPart, Gather, HeaderBlank;
    var g, w, q := Reopened(crc, file, after), BeforeBreak(crc, file, 0), Resume(crc, file, 0);
    LongerBreak(crc, file, EmitAll(crc, |file| % BLOCK_SIZE, after), 0);
    BreakAfter(crc, file, after);
    var ps := Pieces(crc, g, |file|);
    if BeforeBreak(crc, g, q) == ps {
      NothingPending(crc, file, after, Pending(w, None));
      PendingJoin(w, ps, None);
      NoEndJoin(w, ps);
    } else {
      var r := ParsePhysical(crc, g, q);
      NothingPending(crc, file, after, Pending([r], Pending(w, None)));
      OneBad(r);
      PendingJoin([r], ps, Pending(w, None));
      NoEndJoin([r], ps);
      PendingJoin(w, [r] + ps, None);
      NoEndJoin(w, [r] + ps);
    }
  }

  lemma OneBad(r: Piece)
    requires r.Bad?
    ensures NoEnd([r])
  {}

  // ---- Runs ----------------------------------------------------------------------------------------------------------

  /** The bytes of the log; how many of them are synced; whether a writer has it open; and history: the records that are
      in the log, and those of them that a client was promised. */
  datatype State = State(file: Bytes, synced: nat, open: bool, records: seq<Bytes>, promised: seq<Bytes>)

  datatype Step = Append(data: Bytes, sync: bool) | Crash(n: nat) | Continue

  /** May a writer go on?  If reports count, only behind a clean end. */
  ghost predicate Ready(crc: Checksum, strict: bool, file: Bytes) {
    Continues(crc, file) && Rejected(crc, file) && (strict ==> CleanEnd(crc, file))
  }

  ghost predicate Next(crc: Checksum, strict: bool, s: State, step: Step, s2: State) {
    match step
    case Append(data, sync) =>
      && s.open
      && var file, records := Reopened(crc, s.file, [data]), s.records + [data];
         s2 == State(file, if sync then |file| else s.synced, true, records, if sync then records else s.promised)
    case Crash(n) =>
      s.synced <= n <= |s.file| && s2 == State(s.file[..n], s.synced, false, ReadFile(crc, s.file[..n]).0, s.promised)
    case Continue => !s.open && Ready(crc, strict, s.file) && s2 == s.(open := true)
  }

  /** Whatever a crash leaves of the file holds what was promised, and if reports count, reading it makes none. */
  ghost predicate PrefixOk(crc: Checksum, strict: bool, s: State, n: nat)
    requires n <= |s.file|
  {
    && (s.synced <= n ==> s.promised <= ReadFile(crc, s.file[..n]).0)
    && (strict ==> ReadFile(crc, s.file[..n]).1 == 0)
  }

  /** A longer part of the file holds the records of a shorter one. */
  ghost predicate Grows(crc: Checksum, file: Bytes) {
    forall m, n :: 0 <= m <= n <= |file| ==> ReadFile(crc, file[..m]).0 <= ReadFile(crc, file[..n]).0
  }

  ghost predicate Inv(crc: Checksum, strict: bool, s: State) {
    && s.synced <= |s.file| && ReadFile(crc, s.file).0 == s.records && Grows(crc, s.file)
    && (forall n :: 0 <= n <= |s.file| ==> PrefixOk(crc, strict, s, n))
    && (s.open ==> Ready(crc, strict, s.file))
  }

  lemma PrefixOfAppended(crc: Checksum, file: Bytes, data: Bytes, n: nat)
    requires Sound(crc) && Continues(crc, file) && Rejected(crc, file) && |file| <= n <= |Reopened(crc, file, [data])|
    ensures var was, now := ReadFile(crc, file), ReadFile(crc, Reopened(crc, file, [data])[..n]);
      && was.0 <= now.0 && (CleanEnd(crc, file) ==> now.1 <= was.1)
      && now.0 == (if n == |Reopened(crc, file, [data])| then was.0 + [data] else was.0)
  {
    hide Continues, Rejected, CleanEnd, EmitAll, ReadFile, Complete, AllRecords, Pieces;
    var all := EmitAll(crc, |file| % BLOCK_SIZE, [data]);
    var k := ContinuedPrefix(crc, file, [data], n - |file|);
    PartOf(file, all, n);
    AllComplete(crc, |file| % BLOCK_SIZE, [data]);
    assert [data][..1] == [data] && [data][..0] == [];
    AddNothing(ReadFile(crc, file).0);
    ReadsAre(crc, file);
    ReadsAre(crc, file + all[..n - |file|]);
  }

  lemma PartOf(a: Bytes, b: Bytes, n: nat)
    requires |a| <= n <= |a| + |b|
    ensures (a + b)[..n] == a + b[..n - |a|]
  {}

  lemma ReadsAre(crc: Checksum, file: Bytes)
    ensures ReadFile(crc, file) == AllRecords(Pieces(crc, file, 0))
  {}

  lemma AppendGrows(crc: Checksum, file: Bytes, data: Bytes)
    requires Sound(crc) && Continues(crc, file) && Rejected(crc, file) && Grows(crc, file)
    ensures Grows(crc, Reopened(crc, file, [data]))
  {
    hide Continues, Rejected, ReadFile, EmitAll, CleanEnd;
    var g := Reopened(crc, file, [data]);
    assert file[..|file|] == file;
    forall m, n | 0 <= m <= n <= |g| ensures ReadFile(crc, g[..m]).0 <= ReadFile(crc, g[..n]).0 {
      if m <= |file| {
        assert g[..m] == file[..m];
        assert ReadFile(crc, file[..m]).0 <= ReadFile(crc, file[..|file|]).0;
      } else {
        PrefixOfAppended(crc, file, data, m);
      }
      if n <= |file| {
        assert g[..n] == file[..n];
      } else {
        PrefixOfAppended(crc, file, data, n);
      }
    }
  }

  lemma CutGrows(crc: Checksum, file: Bytes, n: nat)
    requires n <= |file| && Grows(crc, file)
    ensures Grows(crc, file[..n]) && ReadFile(crc, file[..n]).0 <= ReadFile(crc, file).0
  {
    hide ReadFile;
    var cut := file[..n];
    assert file[..|file|] == file;
    forall k, m | 0 <= k <= m <= |cut| ensures ReadFile(crc, cut[..k]).0 <= ReadFile(crc, cut[..m]).0 {
      assert cut[..k] == file[..k] && cut[..m] == file[..m];
    }
  }

  lemma AppendKeepsInv(crc: Checksum, strict: bool, s: State, data: Bytes, sync: bool, s2: State)
    requires Sound(crc) && Inv(crc, strict, s) && Next(crc, strict, s, Append(data, sync), s2)
    ensures Inv(crc, strict, s2)
  {
    hide Continues, Rejected, CleanEnd, ReadFile, EmitAll, Grows;
    var whole := |s2.file|;
    AppendGrows(crc, s.file, data);
    assert s.file[..|s.file|] == s.file && s2.file[..whole] == s2.file;
    assert PrefixOk(crc, strict, s, |s.file|);
    PrefixOfAppended(crc, s.file, data, whole);
    forall n | 0 <= n <= whole ensures PrefixOk(crc, strict, s2, n) {
      if n <= |s.file| {
        assert s2.file[..n] == s.file[..n];
        assert PrefixOk(crc, strict, s, n);
      } else {
        PrefixOfAppended(crc, s.file, data, n);
      }
    }
    EndsCleanly(crc, s.file, [data]);
    CleanIsRejected(crc, s2.file);
  }

  lemma CrashKeepsInv(crc: Checksum, strict: bool, s: State, n: nat, s2: State)
    requires Inv(crc, strict, s) && Next(crc, strict, s, Crash(n), s2)
    ensures Inv(crc, strict, s2)
  {
    hide Continues, Rejected, CleanEnd, ReadFile, Grows;
    CutGrows(crc, s.file, n);
    forall m | 0 <= m <= |s2.file| ensures PrefixOk(crc, strict, s2, m) {
      assert s2.file[..m] == s.file[..m];
      assert PrefixOk(crc, strict, s, m);
    }
  }

  ghost predicate IsRun(crc: Checksum, strict: bool, states: seq<State>, steps: seq<Step>) {
    && |states| == |steps| + 1 && states[0] == State([], 0, true, [], [])
    && forall i :: 0 <= i < |steps| ==> Next(crc, strict, states[i], steps[i], states[i + 1])
  }

  lemma EmptyIsClean(crc: Checksum)
    ensures CleanEnd(crc, []) && ReadFile(crc, []) == ([], 0) && Ready(crc, true, [])
  {
    BreakAtEnd(crc, []);
    NothingLeft(crc, []);
    assert BeforeBreak(crc, [], 0) == [];
    CleanIsRejected(crc, []);
  }

  lemma {:induction false} InvariantHolds(crc: Checksum, strict: bool, states: seq<State>, steps: seq<Step>, i: nat)
    requires Sound(crc) && IsRun(crc, strict, states, steps) && i < |states|
    ensures Inv(crc, strict, states[i])
  {
    hide Continues, Rejected, CleanEnd, ReadFile, Inv, Sound, Reopened;
    if i == 0 {
      NewFileIsOk(crc, strict);
    } else {
      InvariantHolds(crc, strict, states, steps, i - 1);
      assert Next(crc, strict, states[i - 1], steps[i - 1], states[i]);
      match steps[i - 1] {
        case Append(data, sync) => AppendKeepsInv(crc, strict, states[i - 1], data, sync, states[i]);
        case Crash(n) => CrashKeepsInv(crc, strict, states[i - 1], n, states[i]);
        case Continue => ContinueKeepsInv(crc, strict, states[i - 1], states[i]);
      }
    }
  }

  lemma NewFileIsOk(crc: Checksum, strict: bool)
    ensures Inv(crc, strict, State([], 0, true, [], []))
  {
    hide CleanEnd, ReadFile;
    EmptyIsClean(crc);
    var file: Bytes := [];
    assert file[..0] == file;
  }

  lemma ContinueKeepsInv(crc: Checksum, strict: bool, s: State, s2: State)
    requires Inv(crc, strict, s) && Next(crc, strict, s, Continue, s2)
    ensures Inv(crc, strict, s2)
  {
    hide Ready, ReadFile, Grows;
    forall n | 0 <= n <= |s2.file| ensures PrefixOk(crc, strict, s2, n) {
      assert PrefixOk(crc, strict, s, n);
    }
  }

  /** Over any number of lifetimes of a log that is continued only where that is in order: reading its bytes gives exactly
      the records in it, all promised ones first, and no report if it is only continued behind clean ends. */
  lemma PromisedIsRead(crc: Checksum, strict: bool, states: seq<State>, steps: seq<Step>, i: nat)
    requires Sound(crc) && IsRun(crc, strict, states, steps) && i < |states|
    ensures ReadFile(crc, states[i].file).0 == states[i].records && states[i].promised <= states[i].records
    ensures strict ==> ReadFile(crc, states[i].file).1 == 0
  {
    hide IsRun, ReadFile, Ready, Sound;
    InvariantHolds(crc, strict, states, steps, i);
    var s := states[i];
    assert PrefixOk(crc, strict, s, |s.file|) && s.file[..|s.file|] == s.file;
  }
}
