module ManifestFiles {
  // The manifest as bytes: edits are encoded and appended to its log, crashes cut the file anywhere behind what is synced,
  // and a process that opens the database reads it back, or refuses it (VersionSet::Recover and ReuseManifest in
  // db/version_set.cc).

  import opened ByteStrings
  import opened Keys
  import opened Files
  import opened LogFormat
  import opened LogLives
  import opened LogReading
  import opened LogReopening
  import opened Manifests
  import opened VersionBuilder
  import Encoded = VersionEdits
  import Sets = VersionSets

  // ---- Records as bytes ----------------------------------------------------------------------------------------------

  /** How internal keys are bytes, and the tables that file numbers name. */
  datatype Format = Format(encodeKey: InternalKey -> Bytes, decodeKey: Bytes -> InternalKey, tables: nat -> seq<Entry>)

  function ToEntry(fmt: Format, f: File): Encoded.FileEntry {
    Encoded.FileEntry(f.number, f.size, fmt.encodeKey(f.smallest), fmt.encodeKey(f.largest))
  }

  function FromEntry(fmt: Format, f: Encoded.FileEntry): File {
    File(f.number, f.size, fmt.decodeKey(f.smallest), fmt.decodeKey(f.largest), fmt.tables(f.number))
  }

  function ToEdit(fmt: Format, r: Record): Encoded.VersionEdit {
    Encoded.VersionEdit(r.comparator, r.logNumber, r.prevLog, r.nextFile, r.lastSequence,
                      seq(|r.pointers|, i requires 0 <= i < |r.pointers| => (r.pointers[i].0, fmt.encodeKey(r.pointers[i].1))),
                      r.edit.deleted,
                      seq(|r.edit.added|, i requires 0 <= i < |r.edit.added| => (r.edit.added[i].0, ToEntry(fmt, r.edit.added[i].1))))
  }

  function FromEdit(fmt: Format, e: Encoded.VersionEdit): Record {
    Manifests.Record.Record(e.comparator,
           Edit(e.deletedFiles, seq(|e.newFiles|, i requires 0 <= i < |e.newFiles| => (e.newFiles[i].0, FromEntry(fmt, e.newFiles[i].1)))),
           seq(|e.compactPointers|, i requires 0 <= i < |e.compactPointers| => (e.compactPointers[i].0, fmt.decodeKey(e.compactPointers[i].1))),
           e.logNumber, e.prevLogNumber, e.nextFile, e.lastSequence)
  }

  function Decode(fmt: Format, b: Bytes): Option<Record> {
    var (items, message) := Encoded.ParseItems(b);
    if message.Some? then None else Some(FromEdit(fmt, Encoded.PutAll(Encoded.FRESH, items)))
  }

  function DecodeAll(fmt: Format, bs: seq<Bytes>): Option<seq<Record>> {
    if bs == [] then Some([])
    else
      var before, last := DecodeAll(fmt, bs[..|bs| - 1]), Decode(fmt, bs[|bs| - 1]);
      if before.None? || last.None? then None else Some(before.value + [last.value])
  }

  /** The keys of the record are keys of the format, and its files name their tables. */
  ghost predicate RecordOk(fmt: Format, r: Record) {
    && (forall i :: 0 <= i < |r.pointers| ==> fmt.decodeKey(fmt.encodeKey(r.pointers[i].1)) == r.pointers[i].1)
    && (forall i :: 0 <= i < |r.edit.added| ==> EntryOk(fmt, r.edit.added[i].1))
  }

  ghost predicate EntryOk(fmt: Format, f: File) {
    && fmt.decodeKey(fmt.encodeKey(f.smallest)) == f.smallest && fmt.decodeKey(fmt.encodeKey(f.largest)) == f.largest
    && fmt.tables(f.number) == f.table
  }

  /** The bytes of a record decode to it. */
  lemma RecordBack(fmt: Format, r: Record, order: seq<(nat, nat)>)
    requires RecordOk(fmt, r) && r.edit.deleted == (set d | d in order) && Encoded.AllEncodable(Encoded.Items(ToEdit(fmt, r), order))
    ensures Decode(fmt, Encoded.EncodeItems(Encoded.Items(ToEdit(fmt, r), order))) == Some(r)
  {
    hide Encoded.ParseItems, Encoded.EncodeItems, Encoded.Items, Encoded.PutAll;
    Encoded.EditRoundTrip(ToEdit(fmt, r), order);
    EditBack(fmt, r);
  }

  lemma EditBack(fmt: Format, r: Record)
    requires RecordOk(fmt, r)
    ensures FromEdit(fmt, ToEdit(fmt, r)) == r
  {
    var back := FromEdit(fmt, ToEdit(fmt, r));
    forall i | 0 <= i < |r.edit.added| ensures back.edit.added[i] == r.edit.added[i] {
      assert EntryOk(fmt, r.edit.added[i].1);
    }
    assert back.edit.added == r.edit.added && back.pointers == r.pointers;
  }

  lemma DecodeOneMore(fmt: Format, bs: seq<Bytes>, b: Bytes)
    requires DecodeAll(fmt, bs).Some? && Decode(fmt, b).Some?
    ensures DecodeAll(fmt, bs + [b]) == Some(DecodeAll(fmt, bs).value + [Decode(fmt, b).value])
  {
    hide Decode;
    var all := bs + [b];
    assert all[..|all| - 1] == bs;
  }

  /** A record that cannot be decoded spoils the list. */
  lemma {:induction false} DecodePrefix(fmt: Format, bs: seq<Bytes>, n: nat)
    requires n <= |bs| && DecodeAll(fmt, bs[..n]).None?
    ensures DecodeAll(fmt, bs).None?
    decreases |bs|
  {
    hide Decode;
    if n < |bs| {
      assert bs[..|bs| - 1][..n] == bs[..n];
      DecodePrefix(fmt, bs[..|bs| - 1], n);
    } else {
      assert bs[..n] == bs;
    }
  }

  // ---- Reading the file ----------------------------------------------------------------------------------------------

  /** Opening fails on any report of the log reader and on any record that does not decode. */
  datatype Outcome = Unreadable | Outcome(result: Recovered)

  ghost predicate Reads(crc: Checksum, fmt: Format, file: Bytes, records: seq<Record>) {
    ReadFile(crc, file).1 == 0 && DecodeAll(fmt, ReadFile(crc, file).0) == Some(records)
  }

  ghost predicate FileRecovers(crc: Checksum, fmt: Format, name: Bytes, file: Bytes, o: Outcome) {
    match o
    case Unreadable => forall records :: !Reads(crc, fmt, file, records)
    case Outcome(result) => exists records :: Reads(crc, fmt, file, records) && RecoveredFrom(name, records, result)
  }

  /** Reads the records until there is none, or a report, or one that does not decode. */
  method RecoverFile(crc: Checksum, fmt: Format, name: Bytes, file: Bytes) returns (o: Outcome)
    requires forall records :: Reads(crc, fmt, file, records) ==> NumbersOnce(Edits(records))
    ensures FileRecovers(crc, fmt, name, file, o)
  {
    hide DecodeAll, Decode, AllRecords, Pieces, RecoveredFrom, NumbersOnce, NextRecord;
    var reader := new Reader(crc, file);
    var records: seq<Record> := [];
    ghost var read: seq<Bytes> := [];
    ghost var all := ReadFile(crc, file);
    NoneDecode(fmt);
    assert read + all.0 == all.0;
    while true
      invariant fresh(reader) && reader.Valid() && reader.crc == crc && reader.file == file
      invariant DecodeAll(fmt, read) == Some(records) && reader.reports == 0
      invariant all == (read + AllRecords(reader.Rest()).0, AllRecords(reader.Rest()).1)
      decreases |reader.Rest()|
    {
      OneRead(reader.Rest());
      var data := reader.ReadRecord();
      if reader.reports > 0 {
        return Unreadable;
      } else if data.None? {
        assert read + [] == read;
        break;
      }
      ghost var rest := AllRecords(reader.Rest()).0;
      assert all.0 == (read + [data.value]) + rest;
      var record := Decode(fmt, data.value);
      if record.None? {
        NotDecoded(fmt, read, data.value, rest);
        return Unreadable;
      }
      DecodeOneMore(fmt, read, data.value);
      records, read := records + [record.value], read + [data.value];
    }
    assert Reads(crc, fmt, file, records);
    var result := Manifests.Recover(name, records);
    o := Outcome(result);
  }

  lemma OneRead(ps: seq<Piece>)
    ensures var r := NextRecord(ps, None);
            if r.NoMore? then AllRecords(ps) == ([], r.reports)
            else AllRecords(ps) == ([r.data] + AllRecords(ps[r.used..]).0, r.reports + AllRecords(ps[r.used..]).1)
  {
    hide NextRecord;
  }

  lemma NoneDecode(fmt: Format)
    ensures DecodeAll(fmt, []) == Some([])
  {}

  lemma NotDecoded(fmt: Format, read: seq<Bytes>, data: Bytes, rest: seq<Bytes>)
    requires Decode(fmt, data).None?
    ensures DecodeAll(fmt, read + [data] + rest).None?
  {
    hide Decode;
    var some, all := read + [data], read + [data] + rest;
    assert some[|some| - 1] == data && all[..|some|] == some;
    DecodePrefix(fmt, all, |some|);
  }

  // ---- Lifetimes -----------------------------------------------------------------------------------------------------

  /** The version set, and the bytes of the file that CURRENT names. */
  datatype State = State(versions: Sets.State, file: Bytes)

  /** `Interrupt` is a crash in the middle of a LogAndApply, with `n` bytes of the file left, and the next recovery.  Without
      `reuse`, the next edit starts a new file. */
  datatype Step =
    | Count(step: Sets.Step)
    | LogAndApply(change: Sets.Change, data: seq<Bytes>)
    | Reopen(reuse: bool)
    | Interrupt(change: Sets.Change, last: Bytes, n: nat, reuse: bool)

  /** The bytes of the records that a change writes. */
  ghost predicate IsData(fmt: Format, name: Bytes, s: Sets.State, ch: Sets.Change, data: seq<Bytes>) {
    && |s.current| == NUM_LEVELS && |data| == (if s.attached then 1 else 2)
    && Decode(fmt, data[|data| - 1]) == Some(Sets.RecordFor(s, ch))
    && (s.attached || Decode(fmt, data[0]) == Some(SnapshotRecord(name, SetPointers(s.pointers, ch.pointers), s.current)))
  }

  /** An edit is appended, or a new file starts with a snapshot.  CURRENT names a new file when all of it is synced. */
  function Written(crc: Checksum, s: State, data: seq<Bytes>): Bytes
    requires |data| == if s.versions.attached then 1 else 2
  {
    if s.versions.attached then Reopened(crc, s.file, data) else Reopened(crc, Reopened(crc, [], [data[0]]), [data[1]])
  }

  ghost predicate Next(crc: Checksum, fmt: Format, name: Bytes, s: State, step: Step, s2: State) {
    match step
    case Count(count) => !count.LogAndApply? && !count.Reopen? && Sets.Next(name, s.versions, count, s2.versions) && s2.file == s.file
    case LogAndApply(ch, data) =>
      Sets.Logs(name, s.versions, ch, s2.versions) && IsData(fmt, name, s.versions, ch, data) && s2.file == Written(crc, s, data)
    case Reopen(reuse) => (reuse ==> CleanEnd(crc, s.file)) && Sets.Reopens(name, s.versions, reuse, s2.versions) && s2.file == s.file
    case Interrupt(ch, data, n, reuse) => Interrupts(crc, fmt, name, s, ch, data, n, reuse, s2)
  }

  /** The record counts if all of it is in the file. */
  ghost predicate Interrupts(crc: Checksum, fmt: Format, name: Bytes, s: State, ch: Sets.Change, data: Bytes, n: nat, reuse: bool, s2: State) {
    && s.versions.attached && IsData(fmt, name, s.versions, ch, [data])
    && |s.file| <= n <= |Reopened(crc, s.file, [data])| && s2.file == Reopened(crc, s.file, [data])[..n]
    && (reuse ==> CleanEnd(crc, s2.file))
    && if n < |Reopened(crc, s.file, [data])| then Sets.Reopens(name, s.versions, reuse, s2.versions)
       else exists mid :: Sets.Logs(name, s.versions, ch, mid) && Sets.Reopens(name, mid, reuse, s2.versions)
  }

  /** The file reads back as the records of the manifest; while a writer has it open, it ends cleanly. */
  ghost predicate FileOk(crc: Checksum, fmt: Format, s: State) {
    Reads(crc, fmt, s.file, s.versions.manifest) && (s.versions.attached ==> CleanEnd(crc, s.file))
  }

  ghost predicate Inv(crc: Checksum, fmt: Format, name: Bytes, s: State) {
    Sets.Inv(name, s.versions) && FileOk(crc, fmt, s)
  }

  // ---- Every step keeps the invariant --------------------------------------------------------------------------------

  /** A complete record appended to a file that ends cleanly. */
  lemma OneAppended(crc: Checksum, fmt: Format, file: Bytes, data: Bytes, records: seq<Record>)
    requires Sound(crc) && CleanEnd(crc, file) && Reads(crc, fmt, file, records) && Decode(fmt, data).Some?
    ensures var g := Reopened(crc, file, [data]); CleanEnd(crc, g) && Reads(crc, fmt, g, records + [Decode(fmt, data).value])
  {
    hide Sound, CleanEnd, Continues, Rejected, Reopened, ReadFile, DecodeAll, Decode;
    var g := Reopened(crc, file, [data]);
    CleanIsRejected(crc, file);
    OnlyLonger(crc, file, data);
    PrefixOfAppended(crc, file, data, |g|);
    assert g[..|g|] == g;
    DecodeOneMore(fmt, ReadFile(crc, file).0, data);
    EndsCleanly(crc, file, [data]);
  }

  lemma OnlyLonger(crc: Checksum, file: Bytes, data: Bytes)
    ensures |file| <= |Reopened(crc, file, [data])| && file <= Reopened(crc, file, [data])
  {
    hide EmitAll;
  }

  /** A part of a record is not there. */
  lemma PartAppended(crc: Checksum, fmt: Format, file: Bytes, data: Bytes, n: nat, records: seq<Record>)
    requires Sound(crc) && CleanEnd(crc, file) && Reads(crc, fmt, file, records)
    requires |file| <= n < |Reopened(crc, file, [data])|
    ensures Reads(crc, fmt, Reopened(crc, file, [data])[..n], records)
  {
    hide Sound, CleanEnd, Continues, Rejected, Reopened, DecodeAll, ReadFile;
    CleanIsRejected(crc, file);
    PrefixOfAppended(crc, file, data, n);
  }

  lemma EmptyReads(crc: Checksum, fmt: Format)
    ensures CleanEnd(crc, []) && Reads(crc, fmt, [], [])
  {
    hide CleanEnd, ReadFile;
    EmptyIsClean(crc);
  }

  /** The file holds the records that LogAndApply makes of the manifest. */
  lemma WrittenReads(crc: Checksum, fmt: Format, name: Bytes, s: State, ch: Sets.Change, data: seq<Bytes>)
    requires Sound(crc) && FileOk(crc, fmt, s) && IsData(fmt, name, s.versions, ch, data)
    ensures CleanEnd(crc, Written(crc, s, data)) && Reads(crc, fmt, Written(crc, s, data), Sets.Extended(name, s.versions, ch))
  {
    hide Sound, CleanEnd, Reopened, Decode, Reads, SnapshotRecord, Sets.RecordFor;
    if s.versions.attached {
      assert data == [data[0]];
      OneAppended(crc, fmt, s.file, data[0], s.versions.manifest);
    } else {
      var snapshot := SnapshotRecord(name, SetPointers(s.versions.pointers, ch.pointers), s.versions.current);
      EmptyReads(crc, fmt);
      OneAppended(crc, fmt, [], data[0], []);
      assert [] + [snapshot] == [snapshot];
      OneAppended(crc, fmt, Reopened(crc, [], [data[0]]), data[1], [snapshot]);
    }
  }

  lemma LogKeepsInv(crc: Checksum, fmt: Format, name: Bytes, s: State, ch: Sets.Change, data: seq<Bytes>, s2: State)
    requires Sound(crc) && Inv(crc, fmt, name, s) && Next(crc, fmt, name, s, LogAndApply(ch, data), s2)
    ensures Inv(crc, fmt, name, s2)
  {
    hide Sound, Sets.Inv, Written, CleanEnd, Reads;
    WrittenReads(crc, fmt, name, s, ch, data);
    Sets.LogsKeepsInv(name, s.versions, ch, s2.versions);
  }

  lemma InterruptKeepsInv(crc: Checksum, fmt: Format, name: Bytes, s: State, ch: Sets.Change, data: Bytes, n: nat, reuse: bool, s2: State)
    requires Sound(crc) && Inv(crc, fmt, name, s) && Interrupts(crc, fmt, name, s, ch, data, n, reuse, s2)
    ensures Inv(crc, fmt, name, s2)
  {
    hide Sound, Sets.Inv, CleanEnd, Reads, Reopened, IsData, Sets.Logs, Sets.Extended, RecoveredFrom;
    var full := Reopened(crc, s.file, [data]);
    if n < |full| {
      PartAppended(crc, fmt, s.file, data, n, s.versions.manifest);
      Sets.ReopensKeepsInv(name, s.versions, reuse, s2.versions);
    } else {
      var mid :| Sets.Logs(name, s.versions, ch, mid) && Sets.Reopens(name, mid, reuse, s2.versions);
      assert full[..n] == full;
      Logged(crc, name, s, ch, data, mid);
      WrittenReads(crc, fmt, name, s, ch, [data]);
      Sets.LogsKeepsInv(name, s.versions, ch, mid);
      Sets.ReopensKeepsInv(name, mid, reuse, s2.versions);
    }
  }

  lemma Logged(crc: Checksum, name: Bytes, s: State, ch: Sets.Change, data: Bytes, mid: Sets.State)
    requires s.versions.attached && Sets.Logs(name, s.versions, ch, mid)
    ensures mid.manifest == Sets.Extended(name, s.versions, ch) && Written(crc, s, [data]) == Reopened(crc, s.file, [data])
  {}

  lemma StepKeepsInv(crc: Checksum, fmt: Format, name: Bytes, s: State, step: Step, s2: State)
    requires Sound(crc) && Inv(crc, fmt, name, s) && Next(crc, fmt, name, s, step, s2)
    ensures Inv(crc, fmt, name, s2)
  {
    hide Sound, Sets.Inv, CleanEnd, Reads, Interrupts, Sets.Logs, RecoveredFrom;
    match step
    case LogAndApply(ch, data) => LogKeepsInv(crc, fmt, name, s, ch, data, s2);
    case Interrupt(ch, data, n, reuse) => InterruptKeepsInv(crc, fmt, name, s, ch, data, n, reuse, s2);
    case Reopen(reuse) => Sets.ReopensKeepsInv(name, s.versions, reuse, s2.versions);
    case Count(count) => Sets.StepKeepsInv(name, s.versions, count, s2.versions);
  }

  // ---- Runs ----------------------------------------------------------------------------------------------------------

  /** A new database has a manifest with one record, which is not open yet. */
  ghost predicate IsInitial(crc: Checksum, fmt: Format, name: Bytes, s: State) {
    exists data :: Decode(fmt, data) == Some(Sets.NewDB(name)) && s == State.State(Sets.Initial(name, false), Reopened(crc, [], [data]))
  }

  ghost predicate IsRun(crc: Checksum, fmt: Format, name: Bytes, states: seq<State>, steps: seq<Step>) {
    && |states| == |steps| + 1 && IsInitial(crc, fmt, name, states[0])
    && forall i :: 0 <= i < |steps| ==> Next(crc, fmt, name, states[i], steps[i], states[i + 1])
  }

  lemma InitialIsOk(crc: Checksum, fmt: Format, name: Bytes, s: State)
    requires Sound(crc) && IsInitial(crc, fmt, name, s)
    ensures Inv(crc, fmt, name, s)
  {
    hide Sound, Sets.Inv, CleanEnd, Reads, Reopened, Decode;
    var data :| Decode(fmt, data) == Some(Sets.NewDB(name)) && s == State.State(Sets.Initial(name, false), Reopened(crc, [], [data]));
    EmptyReads(crc, fmt);
    OneAppended(crc, fmt, [], data, []);
    assert [] + [Sets.NewDB(name)] == [Sets.NewDB(name)];
    Sets.InitialIsOk(name, false);
  }

  lemma {:induction false} InvariantHolds(crc: Checksum, fmt: Format, name: Bytes, states: seq<State>, steps: seq<Step>, i: nat)
    requires Sound(crc) && IsRun(crc, fmt, name, states, steps) && i < |states|
    ensures Inv(crc, fmt, name, states[i])
  {
    hide Sound, Inv, Next, IsInitial;
    if i == 0 {
      InitialIsOk(crc, fmt, name, states[0]);
    } else {
      InvariantHolds(crc, fmt, name, states, steps, i - 1);
      StepKeepsInv(crc, fmt, name, states[i - 1], steps[i - 1], states[i]);
    }
  }

  /** A file reads as one list of records. */
  lemma ReadsOnce(crc: Checksum, fmt: Format, file: Bytes, a: seq<Record>, b: seq<Record>)
    requires Reads(crc, fmt, file, a) && Reads(crc, fmt, file, b)
    ensures a == b
  {}

  /** Over any number of lifetimes with crashes in the middle of edits, opening the database reads the bytes of the manifest
      without an error and finds the current version; with a whole edit in the file, that edit is in it. */
  lemma ManifestIsReadable(crc: Checksum, fmt: Format, name: Bytes, states: seq<State>, steps: seq<Step>, i: nat, o: Outcome)
    requires Sound(crc) && IsRun(crc, fmt, name, states, steps) && i < |states|
    requires FileRecovers(crc, fmt, name, states[i].file, o)
    ensures var s := states[i].versions;
      && o.Outcome? && o.result.Recovered? && o.result.version == s.current && o.result.pointers == s.pointers
      && o.result.logNumber == s.logNumber && o.result.prevLog == s.prevLog
      && o.result.logNumber < o.result.nextFile <= s.nextFile + 1 && o.result.lastSequence <= s.lastSequence
      && NumberAbove(o.result.version, o.result.nextFile)
  {
    hide Sound, Sets.Inv, IsRun, Reads, RecoveredFrom, CleanEnd;
    InvariantHolds(crc, fmt, name, states, steps, i);
    var s := states[i];
    assert Reads(crc, fmt, s.file, s.versions.manifest);
    var records :| Reads(crc, fmt, s.file, records) && RecoveredFrom(name, records, o.result);
    ReadsOnce(crc, fmt, s.file, records, s.versions.manifest);
    Sets.RecoveredState(name, s.versions, o.result);
  }

  /** The guard of a reused manifest is exact: an edit appended to a readable file leaves it readable with that edit if and
      only if the file ended cleanly. */
  lemma ReuseReadsIff(crc: Checksum, fmt: Format, file: Bytes, data: Bytes, records: seq<Record>)
    requires Sound(crc) && Rejects(crc, file, [data]) && Reads(crc, fmt, file, records) && Decode(fmt, data).Some?
    ensures Reads(crc, fmt, Reopened(crc, file, [data]), records + [Decode(fmt, data).value]) <==> CleanEnd(crc, file)
  {
    hide Sound, Rejects, Reopened, CleanEnd, DecodeAll, Decode, AllRecords, Continues;
    ReopenedCleanIff(crc, file, [data]);
    ReopenedReadsIff(crc, file, [data]);
    DecodeOneMore(fmt, ReadFile(crc, file).0, data);
    SameCount(fmt, ReadFile(crc, file).0);
    SameCount(fmt, ReadFile(crc, Reopened(crc, file, [data])).0);
  }

  lemma {:induction false} SameCount(fmt: Format, bs: seq<Bytes>)
    ensures DecodeAll(fmt, bs).Some? ==> |DecodeAll(fmt, bs).value| == |bs|
    decreases |bs|
  {
    hide Decode;
    if bs != [] {
      SameCount(fmt, bs[..|bs| - 1]);
    }
  }
}
