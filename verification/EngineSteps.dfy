/** The storage engine as a state machine: client writes, memtable switches, flushes, snapshots, trivial moves, and
    compactions that other steps may interleave with.  A state holds the memtables, the version, the live snapshots and
    at most one running compaction.  Each kind of step is shown to keep the invariant, and what each does to the entries
    that a reader can see is stated beside it. */
module EngineSteps {
  import opened Keys
  import opened Files
  import opened Versions
  import opened CompactionInputs
  import opened CompactionWork
  import opened CompactionTheorem
  import opened VersionBuilder
  import opened Install

  /** A running compaction: its inputs, the version they were chosen from, and the oldest snapshot
      that was live when it started. */
  datatype Job = Job(compaction: Compaction, inputVersion: Version, smallestSnapshot: nat)

  datatype State = State(
    mem: seq<Entry>, imm: Option<seq<Entry>>, version: Version,
    lastSequence: nat, snapshots: seq<nat>, nextFile: nat, job: Option<Job>)

  datatype Step =
    | Write(entries: seq<Entry>)
    | SwitchMemTable
    | Flush(level: nat)
    | TakeSnapshot
    | ReleaseSnapshot(index: nat)
    | StartCompaction(compaction: Compaction)
    | FinishCompaction(outputs: seq<File>)
    | TrivialMove(move: Compaction)

  ghost function ImmEntries(s: State): set<Entry> {
    if s.imm.Some? then Elements(s.imm.value) else {}
  }

  ghost function All(s: State): set<Entry> {
    Elements(s.mem) + ImmEntries(s) + AllEntries(s.version)
  }

  /** What a reader of user key `u` at snapshot `q` is entitled to see. */
  ghost function ReadAt(s: State, u: UserKey, q: nat): Answer {
    Read(All(s), u, q)
  }

  ghost predicate Ascending(q: seq<nat>) {
    forall i, j :: 0 <= i < j < |q| ==> q[i] <= q[j]
  }

  ghost predicate JobOk(s: State, j: Job) {
    && VersionOk(j.inputVersion) && SoundInputs(j.inputVersion, j.compaction)
    && Distinct(AllEntries(j.inputVersion))
    && Grown(j.inputVersion, s.version)
    && j.smallestSnapshot <= s.lastSequence
    && forall i :: 0 <= i < |s.snapshots| ==> j.smallestSnapshot <= s.snapshots[i]
  }

  ghost predicate MemoryNewer(s: State) {
    && Newer(Elements(s.mem), ImmEntries(s)) && Newer(Elements(s.mem), AllEntries(s.version))
    && Newer(ImmEntries(s), AllEntries(s.version))
  }

  ghost predicate EntriesOk(s: State) {
    && Sorted(s.mem) && (s.imm.Some? ==> Sorted(s.imm.value))
    && Distinct(All(s))
    && (forall e :: e in All(s) ==> e.key.sequence <= s.lastSequence) && s.lastSequence < MAX_SEQUENCE
  }

  ghost predicate SnapshotsOk(s: State) {
    Ascending(s.snapshots) && (forall i :: 0 <= i < |s.snapshots| ==> s.snapshots[i] <= s.lastSequence)
  }

  ghost predicate NumbersOk(s: State) {
    NumberAbove(s.version, s.nextFile) && NumbersDistinct(s.version)
  }

  /** The invariant of the engine. */
  ghost predicate Inv(s: State) {
    && VersionOk(s.version) && MemoryNewer(s) && EntriesOk(s) && SnapshotsOk(s) && NumbersOk(s)
    && (s.job.Some? ==> JobOk(s, s.job.value))
  }

  function SmallestSnapshot(s: State): nat {
    if s.snapshots == [] then s.lastSequence else s.snapshots[0]
  }

  function FlushedFile(s: State, size: nat): File
    requires s.imm.Some? && s.imm.value != []
  {
    var t := s.imm.value;
    File(s.nextFile, size, t[0].key, t[|t| - 1].key, t)
  }

  ghost predicate Writes(s: State, entries: seq<Entry>, s2: State) {
    && (forall i :: 0 <= i < |entries| ==> entries[i].key.sequence == s.lastSequence + 1 + i)
    && s.lastSequence + |entries| < MAX_SEQUENCE
    && s2 == s.(mem := s2.mem, lastSequence := s.lastSequence + |entries|)
    && Sorted(s2.mem) && Elements(s2.mem) == Elements(s.mem) + Elements(entries)
  }

  ghost predicate FlushesTo(s: State, level: nat, f: File, s2: State) {
    && s2 == s.(imm := None, nextFile := s.nextFile + 1, version := s2.version)
    && FileAdded(s.version, s2.version, level, f)
    && (level > 0 ==> forall k :: 0 <= k <= level && k < |s.version| ==> NoOverlap(s.version[k], f.smallest.user, f.largest.user))
  }

  ghost predicate Flushes(s: State, level: nat, s2: State) {
    && s.imm.Some?
    && if s.imm.value == [] then s2 == s.(imm := None, nextFile := s.nextFile + 1)
       else exists size :: FlushesTo(s, level, FlushedFile(s, size), s2)
  }

  ghost predicate Finishes(s: State, outputs: seq<File>, s2: State) {
    && s.job.Some?
    && var j := s.job.value;
       && FilesOk(outputs) && DisjointSorted(outputs)
       && EntriesOf(outputs) == Survivors(j.inputVersion, j.compaction.level, InputEntries(j.compaction), j.smallestSnapshot)
       && (forall i :: 0 <= i < |outputs| ==> outputs[i].number == s.nextFile + i)
       && Installed(s.version, s2.version, j.compaction, outputs)
       && s2 == s.(version := s2.version, nextFile := s.nextFile + |outputs|, job := None)
  }

  ghost predicate Moves(s: State, c: Compaction, s2: State) {
    && s.job.None? && SoundInputs(s.version, c)
    && |c.inputs0| == 1 && c.inputs1 == []
    && Installed(s.version, s2.version, c, c.inputs0)
    && s2 == s.(version := s2.version)
  }

  ghost predicate Next(s: State, step: Step, s2: State) {
    match step
    case Write(entries) => Writes(s, entries, s2)
    case SwitchMemTable => s.imm.None? && s2 == s.(mem := [], imm := Some(s.mem), nextFile := s.nextFile + 1)
    case Flush(level) => Flushes(s, level, s2)
    case TakeSnapshot => s2 == s.(snapshots := s.snapshots + [s.lastSequence])
    case ReleaseSnapshot(i) => i < |s.snapshots| && s2 == s.(snapshots := s.snapshots[..i] + s.snapshots[i + 1..])
    case StartCompaction(c) =>
      s.job.None? && SoundInputs(s.version, c) && s2 == s.(job := Some(Job(c, s.version, SmallestSnapshot(s))))
    case FinishCompaction(outputs) => Finishes(s, outputs, s2)
    case TrivialMove(c) => Moves(s, c, s2)
  }

  // ---- Writes ----------------------------------------------------------------------------------

  lemma WriteKeepsInv(s: State, entries: seq<Entry>, s2: State)
    requires Inv(s) && Writes(s, entries, s2)
    ensures Inv(s2)
  {
    var W := Elements(entries);
    assert All(s2) == All(s) + W;
    forall w | w in W ensures s.lastSequence < w.key.sequence <= s2.lastSequence {}
    forall x, y | x in W && y in W && x.key.sequence == y.key.sequence ensures x == y {
      var i :| 0 <= i < |entries| && entries[i] == x;
      var j :| 0 <= j < |entries| && entries[j] == y;
      assert i == j;
    }
    assert MemoryNewer(s2) by {
      assert Elements(s.mem) <= All(s) && ImmEntries(s) <= All(s) && AllEntries(s.version) <= All(s);
    }
    if s.job.Some? {
      assert JobOk(s2, s.job.value);
    }
  }

  lemma WriteKeepsReads(s: State, entries: seq<Entry>, s2: State, u: UserKey, q: nat)
    requires Inv(s) && Writes(s, entries, s2) && q <= s.lastSequence
    ensures ReadAt(s2, u, q) == ReadAt(s, u, q)
  {
    WriteKeepsInv(s, entries, s2);
    assert All(s2) == All(s) + Elements(entries);
    ReadSameVisible(All(s), All(s2), u, q, q);
  }

  // ---- Memtables and snapshots -------------------------------------------------------------------

  lemma SwitchKeepsInv(s: State, s2: State)
    requires Inv(s) && Next(s, SwitchMemTable, s2)
    ensures Inv(s2) && All(s2) == All(s)
  {
    assert All(s2) == All(s);
    if s.job.Some? {
      assert JobOk(s2, s.job.value);
    }
  }

  lemma SnapshotKeepsInv(s: State, s2: State)
    requires Inv(s) && Next(s, TakeSnapshot, s2)
    ensures Inv(s2) && All(s2) == All(s)
  {
    assert All(s2) == All(s);
    if s.job.Some? {
      assert JobOk(s2, s.job.value);
    }
  }

  lemma ReleaseKeepsInv(s: State, i: nat, s2: State)
    requires Inv(s) && Next(s, ReleaseSnapshot(i), s2)
    ensures Inv(s2) && All(s2) == All(s)
  {
    assert All(s2) == All(s);
    assert forall k :: 0 <= k < |s2.snapshots| ==> s2.snapshots[k] == s.snapshots[if k < i then k else k + 1];
    if s.job.Some? {
      assert JobOk(s2, s.job.value);
    }
  }

  lemma FlushedFileOk(s: State, size: nat)
    requires Inv(s) && s.imm.Some? && s.imm.value != []
    ensures FileOk(FlushedFile(s, size)) && TableOf(FlushedFile(s, size)) == ImmEntries(s)
  {
    forall e | e in s.imm.value ensures e.key.sequence <= MAX_SEQUENCE {
      assert e in All(s);
    }
  }

  lemma AddedFileEntries(v: Version, v2: Version, level: nat, f: File)
    requires FileAdded(v, v2, level, f)
    ensures AllEntries(v2) == AllEntries(v) + TableOf(f)
  {
    forall l | 0 <= l < NUM_LEVELS ensures EntriesOf(v2[l]) == EntriesOf(v[l]) + if l == level then TableOf(f) else {} {
      FileAddedEntries(v, v2, level, f, l);
    }
    assert TableOf(f) <= EntriesOf(v2[level]);
  }

  lemma AddedFileNumbers(v: Version, v2: Version, level: nat, f: File)
    requires FileAdded(v, v2, level, f) && NumberAbove(v, f.number) && NumbersDistinct(v)
    ensures NumberAbove(v2, f.number + 1) && NumbersDistinct(v2)
  {
    forall l, g | 0 <= l < NUM_LEVELS && g in v2[l] ensures g in v[l] || (l == level && g == f) {
      assert g in FileSet(v2[l]);
    }
  }

  lemma FlushGrows(v0: Version, v: Version, v2: Version, level: nat, f: File)
    requires Grown(v0, v) && FileAdded(v, v2, level, f) && Newer(TableOf(f), AllEntries(v0))
    ensures Grown(v0, v2)
  {
    forall l, g | 0 <= l < NUM_LEVELS && g in v2[l] && g !in v0[l] ensures Newer(TableOf(g), AllEntries(v0)) {
      assert g in FileSet(v2[l]);
    }
  }

  lemma GrownEntries(v0: Version, v: Version)
    requires Grown(v0, v)
    ensures AllEntries(v0) <= AllEntries(v)
  {
    forall l | 0 <= l < NUM_LEVELS ensures EntriesOf(v0[l]) <= EntriesOf(v[l]) {
      EntriesOfSubset(v0[l], v[l]);
    }
  }

  lemma FlushEmptyKeepsInv(s: State, s2: State)
    requires Inv(s) && s.imm == Some([]) && s2 == s.(imm := None, nextFile := s.nextFile + 1)
    ensures Inv(s2) && All(s2) == All(s)
  {
    assert All(s2) == All(s);
    if s.job.Some? {
      assert JobOk(s2, s.job.value);
    }
  }

  lemma FlushFileKeepsInv(s: State, level: nat, f: File, s2: State)
    requires Inv(s) && s.imm.Some?
    requires FileOk(f) && TableOf(f) == ImmEntries(s) && f.number == s.nextFile
    requires s2 == s.(imm := None, nextFile := s.nextFile + 1, version := s2.version)
    requires FileAdded(s.version, s2.version, level, f)
    requires level > 0 ==> forall k :: 0 <= k <= level ==> NoOverlap(s.version[k], f.smallest.user, f.largest.user)
    ensures Inv(s2) && All(s2) == All(s)
  {
    FlushKeepsInvariant(s.version, s2.version, level, f);
    AddedFileEntries(s.version, s2.version, level, f);
    AddedFileNumbers(s.version, s2.version, level, f);
    MemoryAfterFlush(s, s2, f);
    if s.job.Some? {
      FlushKeepsJob(s, level, f, s2);
    }
  }

  lemma MemoryAfterFlush(s: State, s2: State, f: File)
    requires MemoryNewer(s) && EntriesOk(s) && SnapshotsOk(s) && s.imm.Some?
    requires TableOf(f) == ImmEntries(s) && AllEntries(s2.version) == AllEntries(s.version) + TableOf(f)
    requires s2 == s.(imm := None, nextFile := s2.nextFile, version := s2.version)
    ensures MemoryNewer(s2) && EntriesOk(s2) && SnapshotsOk(s2) && All(s2) == All(s)
  {
    assert All(s2) == All(s);
  }

  lemma FlushKeepsJob(s: State, level: nat, f: File, s2: State)
    requires MemoryNewer(s) && s.job.Some? && JobOk(s, s.job.value) && s.imm.Some? && TableOf(f) == ImmEntries(s)
    requires s2 == s.(imm := None, nextFile := s2.nextFile, version := s2.version)
    requires FileAdded(s.version, s2.version, level, f)
    ensures JobOk(s2, s.job.value)
  {
    var v0 := s.job.value.inputVersion;
    GrownEntries(v0, s.version);
    NewerSubset(TableOf(f), AllEntries(s.version), TableOf(f), AllEntries(v0));
    FlushGrows(v0, s.version, s2.version, level, f);
  }

  lemma FlushKeepsInv(s: State, level: nat, s2: State)
    requires Inv(s) && Flushes(s, level, s2)
    ensures Inv(s2) && All(s2) == All(s)
  {
    if s.imm.value == [] {
      FlushEmptyKeepsInv(s, s2);
    } else {
      var size :| FlushesTo(s, level, FlushedFile(s, size), s2);
      FlushedFileOk(s, size);
      FlushFileKeepsInv(s, level, FlushedFile(s, size), s2);
    }
  }

  // ---- Compactions -------------------------------------------------------------------------------

  lemma StartKeepsInv(s: State, c: Compaction, s2: State)
    requires Inv(s) && Next(s, StartCompaction(c), s2)
    ensures Inv(s2) && All(s2) == All(s)
  {
    assert AllEntries(s.version) <= All(s);
    assert JobOk(s2, s2.job.value);
  }

  /** The entries of the files that a compaction leaves alone. */
  ghost function LeftEntries(v: Version, c: Compaction): set<Entry> {
    set l, f, e | 0 <= l < |v| && f in v[l] && !(l == c.level && f in c.inputs0) && !(l == c.level + 1 && f in c.inputs1)
      && e in f.table :: e
  }

  lemma BeforeInstall(v: Version, c: Compaction)
    requires |v| == NUM_LEVELS && c.level + 1 < NUM_LEVELS
    requires Includes(v[c.level], c.inputs0) && Includes(v[c.level + 1], c.inputs1)
    ensures AllEntries(v) == InputEntries(c) + LeftEntries(v, c)
  {
    EntriesOfSubset(c.inputs0, v[c.level]);
    EntriesOfSubset(c.inputs1, v[c.level + 1]);
    forall e | e in AllEntries(v) ensures e in InputEntries(c) || e in LeftEntries(v, c) {
      var l :| 0 <= l < |v| && e in EntriesOf(v[l]);
      var f :| f in v[l] && e in f.table;
    }
    forall e | e in LeftEntries(v, c) ensures e in AllEntries(v) {
      var l, f :| 0 <= l < |v| && f in v[l] && e in f.table;
      assert e in EntriesOf(v[l]);
    }
  }

  lemma AfterInstall(v: Version, v2: Version, c: Compaction, outputs: seq<File>)
    requires Installed(v, v2, c, outputs)
    ensures AllEntries(v2) == EntriesOf(outputs) + LeftEntries(v, c)
  {
    forall e | e in AllEntries(v2) ensures e in EntriesOf(outputs) || e in LeftEntries(v, c) {
      var l :| 0 <= l < |v2| && e in EntriesOf(v2[l]);
      var f :| f in v2[l] && e in f.table;
      assert f in FileSet(v2[l]);
    }
    forall e | e in LeftEntries(v, c) ensures e in AllEntries(v2) {
      var l, f :| 0 <= l < |v| && f in v[l] && !(l == c.level && f in c.inputs0) && !(l == c.level + 1 && f in c.inputs1)
        && e in f.table;
      assert f in FileSet(v2[l]);
      assert e in EntriesOf(v2[l]);
    }
    forall e | e in EntriesOf(outputs) ensures e in AllEntries(v2) {
      var f :| f in outputs && e in f.table;
      assert f in FileSet(v2[c.level + 1]);
      assert e in EntriesOf(v2[c.level + 1]);
    }
  }

  /** Everything a running compaction does not touch, as the reader sees it. */
  ghost function Others(s: State, c: Compaction): set<Entry> {
    Elements(s.mem) + ImmEntries(s) + LeftEntries(s.version, c)
  }

  lemma OutputsAreOk(v: Version, c: Compaction, outputs: seq<File>, n: nat)
    requires c.level + 1 < |v| && NumberAbove(v, n)
    requires FilesOk(outputs) && DisjointSorted(outputs) && EntriesOf(outputs) <= InputEntries(c)
    requires forall i :: 0 <= i < |outputs| ==> outputs[i].number == n + i
    ensures OutputsOk(v, c, outputs)
  {}

  /** The readable entries before and after a compaction is installed. */
  lemma FinishEntries(s: State, outputs: seq<File>, s2: State)
    requires s.job.Some? && JobOk(s, s.job.value) && Finishes(s, outputs, s2)
    ensures var j := s.job.value;
      && All(s) == InputEntries(j.compaction) + Others(s, j.compaction)
      && All(s2) == Survivors(j.inputVersion, j.compaction.level, InputEntries(j.compaction), j.smallestSnapshot) + Others(s, j.compaction)
      && AllEntries(s2.version) <= AllEntries(s.version)
  {
    var j := s.job.value;
    GrownInputsIncluded(j.inputVersion, s.version, j.compaction);
    InstallEntries(s, s2, j.compaction, outputs);
  }

  lemma InstallEntries(s: State, s2: State, c: Compaction, outputs: seq<File>)
    requires Installed(s.version, s2.version, c, outputs) && s2.mem == s.mem && s2.imm == s.imm
    requires Includes(s.version[c.level], c.inputs0) && Includes(s.version[c.level + 1], c.inputs1)
    ensures All(s) == InputEntries(c) + Others(s, c)
    ensures All(s2) == EntriesOf(outputs) + Others(s, c)
    ensures EntriesOf(outputs) <= InputEntries(c) ==> AllEntries(s2.version) <= AllEntries(s.version)
  {
    BeforeInstall(s.version, c);
    AfterInstall(s.version, s2.version, c, outputs);
  }

  lemma OutputNumbers(outputs: seq<File>, n: nat)
    requires forall i :: 0 <= i < |outputs| ==> outputs[i].number == n + i
    ensures forall f :: f in outputs ==> n <= f.number < n + |outputs|
    ensures DistinctNumbers(outputs)
  {}

  lemma InstalledNumbers(v: Version, v2: Version, c: Compaction, outputs: seq<File>, n: nat)
    requires Installed(v, v2, c, outputs) && NumberAbove(v, n) && NumbersDistinct(v)
    requires forall i :: 0 <= i < |outputs| ==> outputs[i].number == n + i
    ensures NumberAbove(v2, n + |outputs|) && NumbersDistinct(v2)
  {
    hide Installed;
    OutputNumbers(outputs, n);
    InstalledFiles(v, v2, c, outputs);
    forall l, m, f, g | 0 <= l < NUM_LEVELS && 0 <= m < NUM_LEVELS && f in v2[l] && g in v2[m] && f.number == g.number
      ensures l == m && f == g
    {
      SameNumberInstalled(v, c, outputs, n, l, m, f, g);
    }
  }

  lemma InstalledFiles(v: Version, v2: Version, c: Compaction, outputs: seq<File>)
    requires Installed(v, v2, c, outputs)
    ensures |v| == |v2| == NUM_LEVELS
    ensures forall l, g :: 0 <= l < NUM_LEVELS && g in v2[l] ==> FromInstall(v, c, outputs, l, g)
  {
    forall l, g | 0 <= l < NUM_LEVELS && g in v2[l] ensures FromInstall(v, c, outputs, l, g) {
      assert g in FileSet(v2[l]);
    }
  }

  lemma SameNumberInstalled(v: Version, c: Compaction, outputs: seq<File>, n: nat, l: nat, m: nat, f: File, g: File)
    requires l < |v| && m < |v| && NumberAbove(v, n) && NumbersDistinct(v)
    requires forall f :: f in outputs ==> n <= f.number
    requires DistinctNumbers(outputs)
    requires FromInstall(v, c, outputs, l, f) && FromInstall(v, c, outputs, m, g) && f.number == g.number
    ensures l == m && f == g
  {}

  ghost predicate FromInstall(v: Version, c: Compaction, outputs: seq<File>, l: nat, g: File)
    requires l < |v|
  {
    g in v[l] || (l == c.level + 1 && g in outputs)
  }

  /** Losing entries of the version keeps what holds of the rest. */
  lemma ShrinkKeeps(s: State, s2: State)
    requires MemoryNewer(s) && EntriesOk(s) && SnapshotsOk(s)
    requires s2 == s.(version := s2.version, nextFile := s2.nextFile, job := s2.job)
    requires AllEntries(s2.version) <= AllEntries(s.version)
    ensures MemoryNewer(s2) && EntriesOk(s2) && SnapshotsOk(s2)
  {
    assert All(s2) <= All(s);
  }

  /** No memtable was flushed into the range of an output while the compaction ran. */
  ghost predicate HasRoom(s: State, outputs: seq<File>) {
    && s.job.Some?
    && var j := s.job.value;
       j.compaction.level + 1 < |s.version| && |j.inputVersion| == |s.version|
       && OutputsFit(j.inputVersion, s.version, j.compaction, outputs)
  }

  lemma FinishKeepsVersion(s: State, outputs: seq<File>, s2: State)
    requires Inv(s) && Finishes(s, outputs, s2)
    ensures VersionOk(s2.version) <==> HasRoom(s, outputs)
  {
    var j := s.job.value;
    OutputsAreOk(s.version, j.compaction, outputs, s.nextFile);
    LevelEntries(j.inputVersion, j.compaction.level);
    CompactionKeepsInvariantIff(j.inputVersion, s.version, s2.version, j.compaction, outputs);
  }

  /** Finishing a compaction keeps the invariant if and only if its outputs fit. */
  lemma FinishKeepsInvIff(s: State, outputs: seq<File>, s2: State)
    requires Inv(s) && Finishes(s, outputs, s2)
    ensures Inv(s2) <==> HasRoom(s, outputs)
  {
    FinishKeepsVersion(s, outputs, s2);
    FinishEntries(s, outputs, s2);
    InstalledNumbers(s.version, s2.version, s.job.value.compaction, outputs, s.nextFile);
    ShrinkKeeps(s, s2);
  }

  // ---- Trivial moves -----------------------------------------------------------------------------

  lemma MovedNumbers(v: Version, v2: Version, c: Compaction, n: nat)
    requires Installed(v, v2, c, c.inputs0) && NumberAbove(v, n) && NumbersDistinct(v) && Includes(v[c.level], c.inputs0)
    ensures NumberAbove(v2, n) && NumbersDistinct(v2)
  {
    hide Installed;
    MovedFiles(v, v2, c);
    forall l, m, f, g | 0 <= l < NUM_LEVELS && 0 <= m < NUM_LEVELS && f in v2[l] && g in v2[m] && f.number == g.number
      ensures l == m && f == g
    {
      var l', m' := if l == c.level + 1 && f in c.inputs0 then c.level else l, if m == c.level + 1 && g in c.inputs0 then c.level else m;
      assert f in v[l'] && g in v[m'];
    }
  }

  lemma MovedFiles(v: Version, v2: Version, c: Compaction)
    requires Installed(v, v2, c, c.inputs0) && Includes(v[c.level], c.inputs0)
    ensures |v| == |v2| == NUM_LEVELS && c.level < NUM_LEVELS
    ensures forall l, g :: 0 <= l < NUM_LEVELS && g in v2[l] ==> FromMove(v, c, l, g)
  {
    forall l, g | 0 <= l < NUM_LEVELS && g in v2[l] ensures FromMove(v, c, l, g) {
      assert g in FileSet(v2[l]);
    }
  }

  ghost predicate FromMove(v: Version, c: Compaction, l: nat, g: File)
    requires l < |v| && c.level < |v|
  {
    if l == c.level + 1 && g in c.inputs0 then g in v[c.level] else g in v[l] && !(l == c.level && g in c.inputs0)
  }

  lemma MoveOutputsOk(v: Version, c: Compaction)
    requires VersionOk(v) && SoundInputs(v, c) && |c.inputs0| == 1 && NumbersDistinct(v)
    ensures OutputsOk(v, c, c.inputs0)
  {
    assert LevelOk(v, c.level);
    assert c.inputs0[0] in c.inputs0;
    RangeOfOne(v[c.level], c.inputs0);
  }

  lemma RangeOfOne(files: seq<File>, inputs: seq<File>)
    requires FilesOk(files) && Includes(files, inputs)
    ensures FilesOk(inputs)
  {
    forall i | 0 <= i < |inputs| ensures FileOk(inputs[i]) {
      assert inputs[i] in files;
    }
  }

  lemma MoveKeepsInv(s: State, c: Compaction, s2: State)
    requires Inv(s) && Moves(s, c, s2)
    ensures Inv(s2) && All(s2) == All(s)
  {
    hide VersionOk, NumberAbove, NumbersDistinct, MemoryNewer, SnapshotsOk, Sorted, OutputsOk;
    var v := s.version;
    LevelEntries(v, c.level);
    assert Distinct(EntriesOf(v[c.level])) by {
      assert AllEntries(v) <= All(s);
    }
    MoveOutputsOk(v, c);
    assert OutputsFit(v, v, c, c.inputs0);
    CompactionKeepsInvariant(v, v, s2.version, c, c.inputs0);
    InputsIncluded(v, c);
    MovedNumbers(v, s2.version, c, s.nextFile);
    InstallEntries(s, s2, c, c.inputs0);
    assert EntriesOf(c.inputs1) == {};
    ShrinkKeeps(s, s2);
  }
}
