module DurableBytes {
  // The runs of `Durability` down to bytes: logs and the manifest are files that are appended to, cut by crashes and
  // continued; whether a log is torn and the manifest frayed is read off their bytes.

  import opened ByteStrings
  import opened Coding
  import opened Keys
  import opened Disks
  import opened LogFormat
  import opened LogReopening
  import opened Varints
  import opened WriteBatches
  import Lives = LogLives
  import Steps = DurabilitySteps
  import Runs = Durability
  import Recovery

  // ---- Records of a log ----------------------------------------------------------------------------------------------

  /** The sequence numbers of a write batch are in its header: the first one, and how many. */
  function RecordOf(data: Bytes): Record {
    if |data| < HEADER then Record(1, 0)
    else
      var first, count := DecodeFixed(8, data[..8]), DecodeFixed32(data[8..HEADER]);
      Record(first, if first + count == 0 then 0 else first + count - 1)
  }

  function RecordsIn(datas: seq<Bytes>): (rs: seq<Record>)
    ensures |rs| == |datas|
  {
    seq(|datas|, i requires 0 <= i < |datas| => RecordOf(datas[i]))
  }

  /** The record of a batch is the interval of sequence numbers that its operations take. */
  lemma BatchRecord(rep: Bytes, sequence: nat, ops: seq<Op<Bytes>>)
    requires IsBatch(rep, sequence, ops) && 0 < sequence < TWO_64
    ensures RecordOf(rep) == Record(sequence, sequence + |ops| - 1)
  {
    FixedRoundTrip(8, sequence, []);
    assert EncodeFixed(8, sequence) + [] == rep[..8];
  }

  lemma OneMoreRecord(datas: seq<Bytes>, data: Bytes)
    ensures RecordsIn(datas + [data]) == RecordsIn(datas) + [RecordOf(data)]
  {}

  lemma FewerRecords(a: seq<Bytes>, b: seq<Bytes>)
    requires a <= b
    ensures RecordsIn(a) == RecordsIn(b)[..|a|]
  {}

  // ---- Disks of bytes ------------------------------------------------------------------------------------------------

  const NEW_LOG := Lives.State([], 0, true, [], [])

  /** What a log is to the runs of `Durability`. */
  ghost function AbsLog(crc: Checksum, l: Lives.State): Log {
    Log(RecordsIn(l.records), |l.promised|, !Lives.Ready(crc, false, l.file))
  }

  datatype State = State(
    logs: map<nat, Lives.State>, tables: map<nat, set<Record>>, manifest: Manifest, manifestFile: Bytes,
    memory: Option<Steps.Memory>, written: set<Record>, durable: set<Record>)

  ghost function AbsDisk(crc: Checksum, s: State): Disk {
    Disk(map n | n in s.logs :: AbsLog(crc, s.logs[n]), s.tables, s.manifest, !CleanEnd(crc, s.manifestFile))
  }

  ghost function Abs(crc: Checksum, s: State): Steps.State {
    Steps.State(AbsDisk(crc, s), s.memory, s.written, s.durable)
  }

  datatype Step =
    | Write(data: Bytes, sync: bool)
    | Crash(lengths: map<nat, nat>, edit: Bytes, n: nat)
    | Commit(commit: Steps.Step, edit: Bytes)
    | Recover(recover: Steps.Step, edits: seq<Bytes>)
    | Other(step: Steps.Step)

  /** Everything but logs and the file of the manifest is as in a state of `Durability`. */
  ghost predicate Follows(r: Steps.State, s: State) {
    && s.tables == r.disk.tables && s.manifest == r.disk.manifest && s.memory == r.memory
    && s.written == r.written && s.durable == r.durable && s.logs.Keys == r.disk.logs.Keys
  }

  /** A batch is appended to the log. */
  ghost predicate Writes(crc: Checksum, s: State, data: Bytes, sync: bool, s2: State) {
    && s.memory.Some?
    && var m, r := s.memory.value, RecordOf(data);
       && r.first == m.lastSequence + 1 <= r.last + 1 && m.logFile in s.logs && m.logFile in s2.logs
       && Lives.Next(crc, false, s.logs[m.logFile], Lives.Append(data, sync), s2.logs[m.logFile])
       && s2 == s.(logs := s.logs[m.logFile := s2.logs[m.logFile]], memory := Some(m.(mem := m.mem + {r}, lastSequence := r.last)),
                   written := s.written + {r}, durable := if sync then s.durable + {r} else s.durable)
  }

  /** Every log is cut behind what is synced, and the manifest in the middle of an edit, if one was being written. */
  ghost predicate Crashes(crc: Checksum, s: State, lengths: map<nat, nat>, edit: Bytes, n: nat, s2: State) {
    && s2.logs.Keys == s.logs.Keys == lengths.Keys
    && (forall k :: k in s.logs ==> Lives.Next(crc, false, s.logs[k], Lives.Crash(lengths[k]), s2.logs[k]))
    && |s.manifestFile| <= n < |Reopened(crc, s.manifestFile, [edit])| && (|s.manifestFile| < n ==> CleanEnd(crc, s.manifestFile))
    && s2 == s.(logs := s2.logs, manifestFile := Reopened(crc, s.manifestFile, [edit])[..n], memory := None,
                written := Recovered(AbsDisk(crc, s2)))
  }

  /** An edit is appended to the manifest. */
  ghost predicate Commits(crc: Checksum, s: State, step: Steps.Step, edit: Bytes, s2: State) {
    && (step.FlushCommit? || step.CompactionCommit?)
    && (exists r :: Steps.Next(Abs(crc, s), step, r) && Follows(r, s2))
    && s2.logs == s.logs && s2.manifestFile == Reopened(crc, s.manifestFile, [edit])
  }

  /** The manifest is continued, perhaps without anything new, or written anew, with a snapshot and an edit. */
  ghost predicate Recovers(crc: Checksum, s: State, step: Steps.Step, edits: seq<Bytes>, s2: State) {
    && step.Recover? && s2.memory.Some?
    && (exists r :: Steps.Next(Abs(crc, s), step, r) && Follows(r, s2))
    && (forall n :: n in s2.logs ==>
          s2.logs[n] == if n !in s.logs then NEW_LOG else if n == s2.memory.value.logFile then s.logs[n].(open := true) else s.logs[n])
    && (if step.reuseManifest then |edits| <= 1 && (edits == [] ==> s2.manifest == s.manifest) else |edits| == 2)
    && s2.manifestFile == ManifestAfter(crc, s.manifestFile, edits)
  }

  function ManifestAfter(crc: Checksum, file: Bytes, edits: seq<Bytes>): Bytes {
    if |edits| == 0 then file
    else if |edits| == 1 then Reopened(crc, file, edits)
    else Reopened(crc, Reopened(crc, [], [edits[0]]), [edits[1]])
  }

  ghost predicate Others(crc: Checksum, s: State, step: Steps.Step, s2: State) {
    && !step.Write? && !step.Crash? && !step.FlushCommit? && !step.CompactionCommit? && !step.Recover?
    && (exists r :: Steps.Next(Abs(crc, s), step, r) && Follows(r, s2))
    && (forall n :: n in s2.logs ==> s2.logs[n] == if n in s.logs then s.logs[n] else NEW_LOG)
    && s2.manifestFile == s.manifestFile
  }

  ghost predicate Next(crc: Checksum, s: State, step: Step, s2: State) {
    match step
    case Write(data, sync) => Writes(crc, s, data, sync, s2)
    case Crash(lengths, edit, n) => Crashes(crc, s, lengths, edit, n, s2)
    case Commit(commit, edit) => Commits(crc, s, commit, edit, s2)
    case Recover(recover, edits) => Recovers(crc, s, recover, edits, s2)
    case Other(other) => Others(crc, s, other, s2)
  }

  /** The files are in order: the logs as `LogLives` has them, and the manifest reads without a report. */
  ghost predicate FilesOk(crc: Checksum, s: State) {
    && (forall n :: n in s.logs ==> Lives.Inv(crc, false, s.logs[n]))
    && Lives.ReadFile(crc, s.manifestFile).1 == 0
    && (s.memory.Some? ==> s.memory.value.logFile in s.logs && s.logs[s.memory.value.logFile].open)
  }

  ghost predicate Inv(crc: Checksum, s: State) {
    FilesOk(crc, s) && Steps.Inv(Abs(crc, s))
  }

  // ---- Every step is one of `Durability` -----------------------------------------------------------------------------

  /** The step of the records that a step of the bytes is. */
  ghost function AbsStep(crc: Checksum, step: Step, s2: State): Steps.Step {
    match step
    case Write(data, sync) => Steps.Write(RecordOf(data), sync)
    case Crash(_, _, _) => Steps.Crash(AbsDisk(crc, s2).logs, AbsDisk(crc, s2).frayed)
    case Commit(commit, _) => commit
    case Recover(recover, _) => recover
    case Other(other) => other
  }

  lemma NewLogIs(crc: Checksum)
    ensures AbsLog(crc, NEW_LOG) == Log([], 0, false) && Lives.Inv(crc, false, NEW_LOG)
  {
    hide Lives.ReadFile, CleanEnd;
    Lives.EmptyIsClean(crc);
    CleanIsRejected(crc, []);
    Lives.NewFileIsOk(crc, false);
  }

  lemma WriteRefines(crc: Checksum, s: State, data: Bytes, sync: bool, s2: State)
    requires Sound(crc) && Inv(crc, s) && Writes(crc, s, data, sync, s2)
    ensures Steps.Writes(AbsDisk(crc, s), s.memory.value, RecordOf(data), sync, Abs(crc, s), Abs(crc, s2)) && FilesOk(crc, s2)
  {
    hide Sound, Lives.Inv, Lives.ReadFile, RecordOf, Lives.Ready, CleanEnd, Reopened;
    var n := s.memory.value.logFile;
    var l, l2 := s.logs[n], s2.logs[n];
    Lives.AppendKeepsInv(crc, false, l, data, sync, l2);
    OneMoreRecord(l.records, data);
    StaysReady(crc, l);
    StaysReady(crc, l2);
    assert AbsDisk(crc, s2).logs == AbsDisk(crc, s).logs[n := AbsLog(crc, l2)];
  }

  lemma StaysReady(crc: Checksum, l: Lives.State)
    requires Lives.Inv(crc, false, l) && l.open
    ensures !AbsLog(crc, l).torn
  {
    hide Lives.Ready;
  }

  lemma CrashRefines(crc: Checksum, s: State, lengths: map<nat, nat>, edit: Bytes, n: nat, s2: State)
    requires Sound(crc) && Inv(crc, s) && Crashes(crc, s, lengths, edit, n, s2)
    ensures Steps.Crashes(Abs(crc, s), AbsDisk(crc, s2).logs, AbsDisk(crc, s2).frayed, Abs(crc, s2)) && FilesOk(crc, s2)
  {
    hide Sound, Lives.Inv, Lives.Next, Lives.ReadFile, RecordOf, Lives.Ready, CleanEnd, Reopened, Recovered, Steps.Inv, Steps.CutFrom, AbsLog;
    var d, d2 := AbsDisk(crc, s), AbsDisk(crc, s2);
    forall k | k in s.logs ensures Lives.Inv(crc, false, s2.logs[k]) && Steps.CutFrom(d.logs[k], d2.logs[k]) {
      LogCut(crc, s.logs[k], lengths[k], s2.logs[k]);
    }
    ManifestCut(crc, s.manifestFile, edit, n);
  }

  lemma LogCut(crc: Checksum, l: Lives.State, n: nat, l2: Lives.State)
    requires Lives.Inv(crc, false, l) && Lives.Next(crc, false, l, Lives.Crash(n), l2)
    ensures Lives.Inv(crc, false, l2) && Steps.CutFrom(AbsLog(crc, l), AbsLog(crc, l2))
  {
    hide Lives.ReadFile, RecordOf, Lives.Ready, RecordsIn, Lives.Grows;
    Lives.CrashKeepsInv(crc, false, l, n, l2);
    Lives.CutGrows(crc, l.file, n);
    assert Lives.PrefixOk(crc, false, l, n);
    FewerRecords(l2.records, l.records);
  }

  lemma ManifestCut(crc: Checksum, file: Bytes, edit: Bytes, n: nat)
    requires Sound(crc) && |file| <= n < |Reopened(crc, file, [edit])| && (|file| < n ==> CleanEnd(crc, file))
    requires Lives.ReadFile(crc, file).1 == 0
    ensures Lives.ReadFile(crc, Reopened(crc, file, [edit])[..n]).1 == 0
  {
    hide Sound, Lives.ReadFile, CleanEnd, EmitAll, Continues, Rejected;
    if n == |file| {
      assert Reopened(crc, file, [edit])[..n] == file;
    } else {
      CleanIsRejected(crc, file);
      Lives.PrefixOfAppended(crc, file, edit, n);
    }
  }

  /** An edit appended to a manifest that is not frayed. */
  lemma ManifestGrows(crc: Checksum, file: Bytes, edit: Bytes)
    requires Sound(crc) && CleanEnd(crc, file) && Lives.ReadFile(crc, file).1 == 0
    ensures var g := Reopened(crc, file, [edit]); CleanEnd(crc, g) && Lives.ReadFile(crc, g).1 == 0
  {
    hide Sound, Lives.ReadFile, CleanEnd, EmitAll, Continues, Rejected;
    var g := Reopened(crc, file, [edit]);
    CleanIsRejected(crc, file);
    Lives.PrefixOfAppended(crc, file, edit, |g|);
    assert g[..|g|] == g;
    Lives.EndsCleanly(crc, file, [edit]);
  }

  lemma CommitRefines(crc: Checksum, s: State, step: Steps.Step, edit: Bytes, s2: State)
    requires Sound(crc) && Inv(crc, s) && Commits(crc, s, step, edit, s2)
    ensures Steps.Next(Abs(crc, s), step, Abs(crc, s2)) && FilesOk(crc, s2)
  {
    hide Sound, Lives.Inv, Lives.ReadFile, CleanEnd, Reopened, AbsLog, DiskOk, Promised, Recovered, InTables, NoEntries;
    var r :| Steps.Next(Abs(crc, s), step, r) && Follows(r, s2);
    ManifestGrows(crc, s.manifestFile, edit);
    assert r == Abs(crc, s2);
  }

  /** What a recovery does to logs and to the flag of the manifest. */
  lemma OpenedFiles(s: Steps.State, full: (nat, nat) -> bool, reuse: bool, reuseManifest: bool, r: Steps.State)
    requires DiskOk(s.disk) && Steps.Recovers(s, full, reuse, reuseManifest, r)
    ensures !r.disk.frayed && (reuseManifest ==> !s.disk.frayed)
    ensures r.memory.Some? && r.memory.value.logFile in r.disk.logs && s.disk.logs.Keys <= r.disk.logs.Keys
    ensures forall n :: n in r.disk.logs ==> r.disk.logs[n] == if n in s.disk.logs then s.disk.logs[n] else Log([], 0, false)
    ensures r.memory.value.logFile in s.disk.logs ==> !s.disk.logs[r.memory.value.logFile].torn
  {
    hide DiskOk, Recovery.Opened, Recovered, InTables, InLogs, Recovery.Covered;
    var ns :| Recovery.IsLogList(s.disk, ns)
      && Steps.OpensAs(s, Recovery.Opened(s.disk, ns, full, reuse, reuseManifest), reuseManifest, r);
    var st, used := Recovery.OpenedCounts(s.disk, ns, full, reuse, reuseManifest);
  }

  /** A log that is not torn may be opened again. */
  lemma OpenAgain(crc: Checksum, l: Lives.State)
    requires Lives.Inv(crc, false, l) && !AbsLog(crc, l).torn
    ensures Lives.Inv(crc, false, l.(open := true)) && AbsLog(crc, l.(open := true)) == AbsLog(crc, l)
  {
    hide Lives.Ready, Lives.ReadFile, Lives.Grows;
    var l2 := l.(open := true);
    forall n | 0 <= n <= |l2.file| ensures Lives.PrefixOk(crc, false, l2, n) {
      assert Lives.PrefixOk(crc, false, l, n);
    }
  }

  lemma ManifestRecovered(crc: Checksum, file: Bytes, edits: seq<Bytes>)
    requires Sound(crc) && |edits| <= 2 && (|edits| < 2 ==> CleanEnd(crc, file) && Lives.ReadFile(crc, file).1 == 0)
    ensures var g := ManifestAfter(crc, file, edits); CleanEnd(crc, g) && Lives.ReadFile(crc, g).1 == 0
  {
    hide Sound, Lives.ReadFile, CleanEnd, Reopened;
    if |edits| == 1 {
      assert edits == [edits[0]];
      ManifestGrows(crc, file, edits[0]);
    } else if |edits| == 2 {
      Lives.EmptyIsClean(crc);
      ManifestGrows(crc, [], edits[0]);
      ManifestGrows(crc, Reopened(crc, [], [edits[0]]), edits[1]);
    }
  }

  lemma RecoverRefines(crc: Checksum, s: State, step: Steps.Step, edits: seq<Bytes>, s2: State)
    requires Sound(crc) && Inv(crc, s) && Recovers(crc, s, step, edits, s2)
    ensures Steps.Next(Abs(crc, s), step, Abs(crc, s2)) && FilesOk(crc, s2)
  {
    hide Sound, Lives.Inv, Lives.ReadFile, CleanEnd, Reopened, AbsLog, DiskOk, ManifestAfter, Steps.Recovers;
    var r :| Steps.Next(Abs(crc, s), step, r) && Follows(r, s2);
    OpenedFiles(Abs(crc, s), step.full, step.reuse, step.reuseManifest, r);
    ManifestRecovered(crc, s.manifestFile, edits);
    NewLogIs(crc);
    forall n | n in s2.logs ensures Lives.Inv(crc, false, s2.logs[n]) && AbsLog(crc, s2.logs[n]) == r.disk.logs[n] {
      if n in s.logs && n == s2.memory.value.logFile {
        OpenAgain(crc, s.logs[n]);
      }
    }
    assert AbsDisk(crc, s2).logs == r.disk.logs;
    assert r == Abs(crc, s2);
  }

  /** What the other steps do to logs and to the flag of the manifest. */
  lemma OtherFiles(s: Steps.State, step: Steps.Step, r: Steps.State)
    requires Steps.Next(s, step, r) && Steps.Inv(s)
    requires !step.Write? && !step.Crash? && !step.FlushCommit? && !step.CompactionCommit? && !step.Recover?
    ensures r.disk.frayed == s.disk.frayed
    ensures forall n :: n in r.disk.logs ==> r.disk.logs[n] == if n in s.disk.logs then s.disk.logs[n] else Log([], 0, false)
    ensures r.memory.Some? ==>
      s.memory.Some? && (r.memory.value.logFile == s.memory.value.logFile || r.memory.value.logFile !in s.disk.logs)
  {
    hide DiskOk, Promised, Recovered, InTables, InLogs, NoEntries, Steps.FilesOk, Steps.Live;
  }

  lemma OtherRefines(crc: Checksum, s: State, step: Steps.Step, s2: State)
    requires Inv(crc, s) && Others(crc, s, step, s2)
    ensures Steps.Next(Abs(crc, s), step, Abs(crc, s2)) && FilesOk(crc, s2)
  {
    hide Lives.Inv, Lives.ReadFile, CleanEnd, AbsLog, Steps.Next, Steps.Inv;
    var r :| Steps.Next(Abs(crc, s), step, r) && Follows(r, s2);
    OtherFiles(Abs(crc, s), step, r);
    Runs.StepKeepsInv(Abs(crc, s), step, r);
    NewLogIs(crc);
    LogIsThere(r);
    forall n | n in s2.logs ensures Lives.Inv(crc, false, s2.logs[n]) && AbsLog(crc, s2.logs[n]) == r.disk.logs[n] {}
    assert AbsDisk(crc, s2).logs == r.disk.logs;
    assert r == Abs(crc, s2);
  }

  lemma LogIsThere(s: Steps.State)
    requires Steps.Inv(s)
    ensures s.memory.Some? ==> s.memory.value.logFile in s.disk.logs
  {}

  /** The bytes refine the records: every step of files is a step of `Durability`, and keeps the invariant. */
  lemma StepRefines(crc: Checksum, s: State, step: Step, s2: State)
    requires Sound(crc) && Inv(crc, s) && Next(crc, s, step, s2)
    ensures Steps.Next(Abs(crc, s), AbsStep(crc, step, s2), Abs(crc, s2)) && Inv(crc, s2)
  {
    hide Sound, FilesOk, Abs, AbsDisk, Steps.Inv, Steps.Writes, Steps.Crashes, Writes, Crashes, Commits, Recovers, Others;
    match step {
      case Write(data, sync) => WriteIsStep(crc, s, data, sync, s2);
      case Crash(lengths, edit, n) => CrashIsStep(crc, s, lengths, edit, n, s2);
      case Commit(commit, edit) => CommitRefines(crc, s, commit, edit, s2);
      case Recover(recover, edits) => RecoverRefines(crc, s, recover, edits, s2);
      case Other(other) => OtherRefines(crc, s, other, s2);
    }
    Runs.StepKeepsInv(Abs(crc, s), AbsStep(crc, step, s2), Abs(crc, s2));
  }

  lemma WriteIsStep(crc: Checksum, s: State, data: Bytes, sync: bool, s2: State)
    requires Sound(crc) && Inv(crc, s) && Writes(crc, s, data, sync, s2)
    ensures Steps.Next(Abs(crc, s), Steps.Write(RecordOf(data), sync), Abs(crc, s2)) && FilesOk(crc, s2)
  {
    hide Sound, FilesOk, Steps.Inv, Steps.Writes;
    WriteRefines(crc, s, data, sync, s2);
  }

  lemma CrashIsStep(crc: Checksum, s: State, lengths: map<nat, nat>, edit: Bytes, n: nat, s2: State)
    requires Sound(crc) && Inv(crc, s) && Crashes(crc, s, lengths, edit, n, s2)
    ensures Steps.Next(Abs(crc, s), AbsStep(crc, Crash(lengths, edit, n), s2), Abs(crc, s2)) && FilesOk(crc, s2)
  {
    hide Sound, FilesOk, Steps.Inv, Steps.Crashes;
    CrashRefines(crc, s, lengths, edit, n, s2);
  }

  // ---- Runs ----------------------------------------------------------------------------------------------------------

  /** A new database: the manifest has one record, and there is no log yet. */
  ghost predicate IsInitial(crc: Checksum, s: State) {
    exists edit :: s == State(map[], map[], Manifest({}, 0, 2, 0, {}), Reopened(crc, [], [edit]), None, {}, {})
  }

  ghost predicate IsRun(crc: Checksum, states: seq<State>, steps: seq<Step>) {
    && |states| == |steps| + 1 && IsInitial(crc, states[0])
    && forall i :: 0 <= i < |steps| ==> Next(crc, states[i], steps[i], states[i + 1])
  }

  lemma InitialIsOk(crc: Checksum, s: State)
    requires Sound(crc) && IsInitial(crc, s)
    ensures Inv(crc, s) && Abs(crc, s) == Steps.State(Disk(map[], map[], Manifest({}, 0, 2, 0, {}), false), None, {}, {})
  {
    hide Sound, Lives.ReadFile, CleanEnd, Reopened;
    var edit :| s == State(map[], map[], Manifest({}, 0, 2, 0, {}), Reopened(crc, [], [edit]), None, {}, {});
    Lives.EmptyIsClean(crc);
    ManifestGrows(crc, [], edit);
    assert AbsDisk(crc, s).logs == map[];
    Runs.InvariantHolds([Abs(crc, s)], [], 0);
  }

  lemma {:induction false} InvariantHolds(crc: Checksum, states: seq<State>, steps: seq<Step>, i: nat)
    requires Sound(crc) && IsRun(crc, states, steps) && i < |states|
    ensures Inv(crc, states[i])
  {
    hide Sound, Inv, Next, IsInitial;
    if i == 0 {
      InitialIsOk(crc, states[0]);
    } else {
      InvariantHolds(crc, states, steps, i - 1);
      StepRefines(crc, states[i - 1], steps[i - 1], states[i]);
    }
  }

  ghost function AbsStates(crc: Checksum, states: seq<State>): (ss: seq<Steps.State>)
    ensures |ss| == |states|
  {
    seq(|states|, i requires 0 <= i < |states| => Abs(crc, states[i]))
  }

  ghost function AbsSteps(crc: Checksum, states: seq<State>, steps: seq<Step>): (ss: seq<Steps.Step>)
    requires |states| == |steps| + 1
    ensures |ss| == |steps|
  {
    seq(|steps|, i requires 0 <= i < |steps| => AbsStep(crc, steps[i], states[i + 1]))
  }

  /** Every run of files is a run of `Durability`, so that all that is proved about those holds of it. */
  lemma RunRefines(crc: Checksum, states: seq<State>, steps: seq<Step>)
    requires Sound(crc) && IsRun(crc, states, steps)
    ensures Runs.IsRun(AbsStates(crc, states), AbsSteps(crc, states, steps))
  {
    hide Sound, Inv, Next, IsInitial, Abs, AbsStep, Steps.Next;
    InitialIsOk(crc, states[0]);
    var ss, ts := AbsStates(crc, states), AbsSteps(crc, states, steps);
    forall i | 0 <= i < |steps| ensures Steps.Next(ss[i], ts[i], ss[i + 1]) {
      InvariantHolds(crc, states, steps, i);
      StepRefines(crc, states[i], steps[i], states[i + 1]);
    }
  }

  /** In every state of every run: reading the bytes of the logs from the log number on gives back every promised write that
      the version does not account for, and reading the manifest makes no report. */
  lemma PromisedIsInBytes(crc: Checksum, states: seq<State>, steps: seq<Step>, i: nat, r: Record)
    requires Sound(crc) && IsRun(crc, states, steps) && i < |states| && r in states[i].durable
    ensures Lives.ReadFile(crc, states[i].manifestFile).1 == 0
    ensures || r in Settled(AbsDisk(crc, states[i]))
            || exists n :: InLogBytes(crc, states[i], n, r)
    ensures states[i].memory.Some? ==> CleanEnd(crc, states[i].manifestFile)
  {
    hide Sound, IsRun, Lives.ReadFile, CleanEnd, Lives.Grows, Lives.Ready, RecordsIn;
    InvariantHolds(crc, states, steps, i);
    var s := states[i];
    var d := AbsDisk(crc, s);
    if r !in Settled(d) {
      assert Promised(d, r);
      var n, k :| n in d.logs && d.manifest.logNumber <= n && 0 <= k < d.logs[n].synced && k < |d.logs[n].records| && d.logs[n].records[k] == r;
      assert Lives.Inv(crc, false, s.logs[n]);
      assert RecordsIn(Lives.ReadFile(crc, s.logs[n].file).0)[k] == r;
      assert InLogBytes(crc, s, n, r);
    }
  }

  /** Reading the bytes of the log gives this record. */
  ghost predicate InLogBytes(crc: Checksum, s: State, n: nat, r: Record) {
    n in s.logs && s.manifest.logNumber <= n && r in RecordsIn(Lives.ReadFile(crc, s.logs[n].file).0)
  }
}
