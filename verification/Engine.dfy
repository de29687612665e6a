module Engine {
  // Runs of the storage engine: over every run the level invariant holds, and what a live snapshot reads never
  // changes.

  import opened Keys
  import opened Files
  import opened Versions
  import opened CompactionInputs
  import opened CompactionWork
  import opened CompactionTheorem
  import opened VersionBuilder
  import opened Install
  import opened EngineSteps

  // ---- Compactions and reads ---------------------------------------------------------------------

  /** Is this step's compaction clean: does no value resurface below a dropped marker?  Other steps are. */
  ghost predicate Clean(s: State, step: Step) {
    step.FinishCompaction? && s.job.Some? ==>
      var j := s.job.value;
      NothingResurfaces(j.inputVersion, j.compaction.level, InputEntries(j.compaction), Others(s, j.compaction), j.smallestSnapshot)
  }

  /** A finished compaction preserves every read at every snapshot a client can hold if and only if it
      is clean. */
  lemma FinishPreservesReadsIff(s: State, outputs: seq<File>, s2: State)
    requires Inv(s) && Finishes(s, outputs, s2)
    ensures ReadsPreserved(All(s), All(s2), s.job.value.smallestSnapshot) <==> Clean(s, FinishCompaction(outputs))
  {
    var j := s.job.value;
    FinishEntries(s, outputs, s2);
    CompactionPreservesReadsIff(j.inputVersion, j.compaction.level, InputEntries(j.compaction), Others(s, j.compaction), j.smallestSnapshot);
  }

  // ---- Runs --------------------------------------------------------------------------------------

  /** Do the outputs of this step's compaction fit?  Other steps have none. */
  ghost predicate Orderly(s: State, step: Step) {
    step.FinishCompaction? ==> HasRoom(s, step.outputs)
  }

  /** Every step keeps the invariant if and only if it is orderly. */
  lemma StepKeepsInvIff(s: State, step: Step, s2: State)
    requires Inv(s) && Next(s, step, s2)
    ensures Inv(s2) <==> Orderly(s, step)
  {
    match step
    case Write(entries) => WriteKeepsInv(s, entries, s2);
    case SwitchMemTable => SwitchKeepsInv(s, s2);
    case Flush(level) => FlushKeepsInv(s, level, s2);
    case TakeSnapshot => SnapshotKeepsInv(s, s2);
    case ReleaseSnapshot(i) => ReleaseKeepsInv(s, i, s2);
    case StartCompaction(c) => StartKeepsInv(s, c, s2);
    case FinishCompaction(outputs) => FinishKeepsInvIff(s, outputs, s2);
    case TrivialMove(c) => MoveKeepsInv(s, c, s2);
  }

  /** A snapshot that a client may read at: a live one, or the latest sequence number. */
  ghost predicate Readable(s: State, q: nat) {
    q == s.lastSequence || q in s.snapshots
  }

  /** What a compaction respects is the oldest snapshot that can be read. */
  lemma SmallestSnapshotIs(s: State)
    requires SnapshotsOk(s)
    ensures Readable(s, SmallestSnapshot(s)) && forall q :: Readable(s, q) ==> SmallestSnapshot(s) <= q
  {
    if s.snapshots != [] {
      assert forall q :: q in s.snapshots ==> s.snapshots[0] <= q;
    }
  }

  lemma StepKeepsReads(s: State, step: Step, s2: State, u: UserKey, q: nat)
    requires Inv(s) && Next(s, step, s2) && Readable(s, q) && Clean(s, step)
    ensures ReadAt(s2, u, q) == ReadAt(s, u, q)
  {
    match step
    case Write(entries) => WriteKeepsReads(s, entries, s2, u, q);
    case SwitchMemTable => SwitchKeepsInv(s, s2);
    case Flush(level) => FlushKeepsInv(s, level, s2);
    case TakeSnapshot => SnapshotKeepsInv(s, s2);
    case ReleaseSnapshot(i) => ReleaseKeepsInv(s, i, s2);
    case StartCompaction(c) => StartKeepsInv(s, c, s2);
    case FinishCompaction(outputs) => FinishKeepsReads(s, outputs, s2, u, q);
    case TrivialMove(c) => MoveKeepsInv(s, c, s2);
  }

  lemma FinishKeepsReads(s: State, outputs: seq<File>, s2: State, u: UserKey, q: nat)
    requires Inv(s) && Finishes(s, outputs, s2) && Readable(s, q) && Clean(s, FinishCompaction(outputs))
    ensures ReadAt(s2, u, q) == ReadAt(s, u, q)
  {
    FinishPreservesReadsIff(s, outputs, s2);
    ReadableIsRecent(s, q);
  }

  /** No readable snapshot is older than the one a running compaction respects. */
  lemma ReadableIsRecent(s: State, q: nat)
    requires s.job.Some? && JobOk(s, s.job.value) && Readable(s, q)
    ensures q >= s.job.value.smallestSnapshot
  {}

  ghost predicate IsExecution(states: seq<State>, steps: seq<Step>) {
    && |states| == |steps| + 1 && Inv(states[0])
    && forall i :: 0 <= i < |steps| ==> Next(states[i], steps[i], states[i + 1])
  }

  ghost predicate OrderlyThrough(states: seq<State>, steps: seq<Step>, i: nat)
    requires |states| == |steps| + 1 && i < |states|
  {
    forall k :: 0 <= k < i ==> Orderly(states[k], steps[k])
  }

  /** The invariant holds in every state of every run in which the outputs of compactions fit. */
  lemma {:induction false} InvariantHolds(states: seq<State>, steps: seq<Step>, i: nat)
    requires IsExecution(states, steps) && i < |states| && OrderlyThrough(states, steps, i)
    ensures Inv(states[i])
  {
    hide Inv, Next, Orderly;
    if i > 0 {
      InvariantHolds(states, steps, i - 1);
      StepKeepsInvIff(states[i - 1], steps[i - 1], states[i]);
    }
  }

  /** A file that lies on one side of all inputs of a compaction. */
  ghost predicate Beside(c: Compaction, g: File) {
    || (forall x :: x in InputEntries(c) ==> Less(g.largest, x.key))
    || (forall x :: x in InputEntries(c) ==> Less(x.key, g.smallest))
  }

  /** What was flushed to the output level of the running compaction is beside its inputs. */
  ghost predicate FlushedBeside(s: State) {
    s.job.Some? ==>
      var j := s.job.value;
      var l := j.compaction.level + 1;
      l < |s.version| && |j.inputVersion| == |s.version|
      && forall g :: g in s.version[l] && g !in j.inputVersion[l] ==> Beside(j.compaction, g)
  }

  /** A flush to the output level of a running compaction goes beside its inputs: what a caller can see to. */
  ghost predicate Guarded(s: State, step: Step) {
    step.Flush? && s.job.Some? && step.level == s.job.value.compaction.level + 1 && s.imm.Some? && s.imm.value != [] ==>
      Beside(s.job.value.compaction, FlushedFile(s, 0))
  }

  lemma BesideFits(s: State, outputs: seq<File>, s2: State)
    requires Inv(s) && FlushedBeside(s) && Finishes(s, outputs, s2)
    ensures HasRoom(s, outputs)
  {
    hide Inv, Beside, Apart, InputEntries, EntriesOf, Survivors, Installed, FileOk;
    var j := s.job.value;
    var c := j.compaction;
    OnlySurvivors(j.inputVersion, c.level, InputEntries(c), j.smallestSnapshot);
    forall g, o | g in s.version[c.level + 1] && g !in j.inputVersion[c.level + 1] && o in outputs ensures Apart(g, o) {
      BesideIsApart(c, g, o, outputs);
    }
  }

  lemma OnlySurvivors(v: Version, level: nat, inputs: set<Entry>, snapshot: nat)
    ensures Survivors(v, level, inputs, snapshot) <= inputs
  {}

  lemma BesideIsApart(c: Compaction, g: File, o: File, outputs: seq<File>)
    requires Beside(c, g) && o in outputs && FilesOk(outputs) && EntriesOf(outputs) <= InputEntries(c)
    ensures Apart(g, o)
  {
    OutsideIsApart(InputEntries(c), g, o, outputs);
  }

  lemma GuardedKeepsBeside(s: State, step: Step, s2: State)
    requires Inv(s) && FlushedBeside(s) && Next(s, step, s2) && Guarded(s, step)
    ensures FlushedBeside(s2)
  {
    hide Inv, FlushedBeside, Beside, FileAdded;
    if step.Flush? && s.job.Some? && s.imm.value != [] {
      var size :| FlushesTo(s, step.level, FlushedFile(s, size), s2);
      SameRange(s.job.value.compaction, FlushedFile(s, 0), FlushedFile(s, size));
      FlushedBesideGrows(s, step.level, FlushedFile(s, size), s2);
    } else if step.StartCompaction? {
      NothingFlushedYet(s2);
    } else if s2.job.None? {
      NothingRuns(s2);
    } else {
      StillBeside(s, s2);
    }
  }

  lemma SameRange(c: Compaction, f: File, g: File)
    requires f.smallest == g.smallest && f.largest == g.largest
    ensures Beside(c, f) == Beside(c, g)
  {}

  lemma NothingFlushedYet(s: State)
    requires s.job.Some? && s.version == s.job.value.inputVersion && s.job.value.compaction.level + 1 < |s.version|
    ensures FlushedBeside(s)
  {}

  lemma StillBeside(s: State, s2: State)
    requires s2.job == s.job && s2.version == s.version && FlushedBeside(s)
    ensures FlushedBeside(s2)
  {}

  lemma FlushedBesideGrows(s: State, level: nat, f: File, s2: State)
    requires s.job.Some? && s2.job == s.job && FlushedBeside(s) && FileAdded(s.version, s2.version, level, f)
    requires level == s.job.value.compaction.level + 1 ==> Beside(s.job.value.compaction, f)
    ensures FlushedBeside(s2)
  {
    var l := s.job.value.compaction.level + 1;
    forall g | g in s2.version[l] && g !in s.job.value.inputVersion[l] ensures Beside(s.job.value.compaction, g) {
      assert g in FileSet(s2.version[l]);
    }
  }

  ghost predicate GuardedThrough(states: seq<State>, steps: seq<Step>, i: nat)
    requires |states| == |steps| + 1 && i < |states|
  {
    forall k :: 0 <= k < i ==> Guarded(states[k], steps[k])
  }

  /** With that guard, every run is orderly. */
  lemma {:induction false} GuardedIsOrderly(states: seq<State>, steps: seq<Step>, i: nat)
    requires IsExecution(states, steps) && i < |states| && states[0].job.None? && GuardedThrough(states, steps, i)
    ensures OrderlyThrough(states, steps, i) && Inv(states[i]) && FlushedBeside(states[i])
  {
    hide Inv, Next, Guarded, FlushedBeside;
    if i == 0 {
      assert FlushedBeside(states[0]) by { NothingRuns(states[0]); }
    } else {
      GuardedIsOrderly(states, steps, i - 1);
      var s, step, s2 := states[i - 1], steps[i - 1], states[i];
      assert Next(s, step, s2) && Guarded(s, step);
      BesideIsOrderly(s, step, s2);
      StepKeepsInvIff(s, step, s2);
      GuardedKeepsBeside(s, step, s2);
    }
  }

  lemma NothingRuns(s: State)
    requires s.job.None?
    ensures FlushedBeside(s)
  {}

  lemma BesideIsOrderly(s: State, step: Step, s2: State)
    requires Inv(s) && FlushedBeside(s) && Next(s, step, s2)
    ensures Orderly(s, step)
  {
    hide Inv, FlushedBeside, HasRoom;
    if step.FinishCompaction? {
      BesideFits(s, step.outputs, s2);
    }
  }

  /** The snapshot stays readable, and the compactions that finish are clean. */
  ghost predicate ReadableThrough(states: seq<State>, steps: seq<Step>, i: nat, j: nat, q: nat)
    requires |states| == |steps| + 1 && i <= j < |states|
  {
    forall k :: i <= k < j ==> Readable(states[k], q) && Clean(states[k], steps[k])
  }

  lemma RunStepKeepsReads(states: seq<State>, steps: seq<Step>, k: nat, u: UserKey, q: nat)
    requires IsExecution(states, steps) && k < |steps| && OrderlyThrough(states, steps, k)
    requires Readable(states[k], q) && Clean(states[k], steps[k])
    ensures ReadAt(states[k + 1], u, q) == ReadAt(states[k], u, q)
  {
    InvariantHolds(states, steps, k);
    StepKeepsReads(states[k], steps[k], states[k + 1], u, q);
  }

  /** While a snapshot stays readable, what it reads never changes, whatever clients and background
      work do meanwhile. */
  lemma SnapshotReadsAreStable(states: seq<State>, steps: seq<Step>, i: nat, j: nat, u: UserKey, q: nat)
    requires IsExecution(states, steps) && i <= j < |states| && OrderlyThrough(states, steps, j)
    requires ReadableThrough(states, steps, i, j, q)
    ensures ReadAt(states[j], u, q) == ReadAt(states[i], u, q)
  {
    hide Inv, Next, Readable, Clean, Orderly, ReadAt;
    var answers := seq(|states|, k requires 0 <= k < |states| => ReadAt(states[k], u, q));
    forall k | i <= k < j ensures answers[k + 1] == answers[k] {
      RunStepKeepsReads(states, steps, k, u, q);
    }
    ConstantChain(answers, i, j);
  }

  lemma {:induction false} ConstantChain(answers: seq<Answer>, i: nat, j: nat)
    requires i <= j < |answers|
    requires forall k :: i <= k < j ==> answers[k + 1] == answers[k]
    ensures answers[j] == answers[i]
    decreases j
  {
    if i < j {
      ConstantChain(answers, i, j - 1);
    }
  }

  // ---- Runs from a new database --------------------------------------------------------------------

  /** A new database; the manifest and the log have taken the first file numbers. */
  const NEW_DATABASE := State([], None, NO_FILES, 0, [], 4, None)

  /** A run of a new database comes to this state. */
  ghost predicate Reachable(s: State) {
    exists states, steps :: IsExecution(states, steps) && states[0] == NEW_DATABASE && states[|steps|] == s
  }

  lemma NewIsReachable()
    ensures Reachable(NEW_DATABASE) && Inv(NEW_DATABASE)
  {
    EmptyIsOk(NO_FILES);
    var states, steps: seq<Step> := [NEW_DATABASE], [];
    assert IsExecution(states, steps) && states[|steps|] == NEW_DATABASE;
  }

  lemma EmptyIsOk(v: Version)
    requires |v| == NUM_LEVELS && forall l :: 0 <= l < |v| ==> v[l] == []
    ensures VersionOk(v) && AllEntries(v) == {} && NumberAbove(v, 2) && NumbersDistinct(v)
  {
    forall l | 0 <= l < NUM_LEVELS ensures LevelOk(v, l) {}
  }

  lemma ReachNext(s: State, step: Step, s2: State)
    requires Reachable(s) && Inv(s) && Next(s, step, s2)
    ensures Reachable(s2) && (Orderly(s, step) ==> Inv(s2))
  {
    hide Inv, Next, Orderly;
    StepKeepsInvIff(s, step, s2);
    var states, steps :| IsExecution(states, steps) && states[0] == NEW_DATABASE && states[|steps|] == s;
    var states2, steps2 := states + [s2], steps + [step];
    assert forall i :: 0 <= i < |steps| ==> steps2[i] == steps[i] && states2[i + 1] == states[i + 1];
    assert IsExecution(states2, steps2) && states2[|steps2|] == s2;
  }

  /** With no memtable left: a write, the switch to a new memtable, and the flush of the old one to a table `t`. */
  lemma ReachFlush(s: State, entries: seq<Entry>, t: seq<Entry>, level: nat, f: File, v2: Version)
    requires Reachable(s) && Inv(s) && s.mem == [] && s.imm == None
    requires forall i :: 0 <= i < |entries| ==> entries[i].key.sequence == s.lastSequence + 1 + i
    requires s.lastSequence + |entries| < MAX_SEQUENCE && t != [] && Sorted(t) && Elements(t) == Elements(entries)
    requires f == File(s.nextFile + 1, f.size, t[0].key, t[|t| - 1].key, t) && FileAdded(s.version, v2, level, f)
    requires level > 0 ==> forall k :: 0 <= k <= level ==> NoOverlap(s.version[k], f.smallest.user, f.largest.user)
    ensures var s2 := s.(version := v2, lastSequence := s.lastSequence + |entries|, nextFile := s.nextFile + 2);
            Reachable(s2) && Inv(s2)
  {
    hide Inv, Reachable, FileAdded, Sorted;
    var s1 := s.(mem := t, lastSequence := s.lastSequence + |entries|);
    assert Elements(s.mem) + Elements(entries) == Elements(t);
    ReachNext(s, Write(entries), s1);
    var s2 := s1.(mem := [], imm := Some(t), nextFile := s.nextFile + 1);
    ReachNext(s1, SwitchMemTable, s2);
    var s3 := s2.(imm := None, nextFile := s.nextFile + 2, version := v2);
    assert FlushedFile(s2, f.size) == f;
    assert FlushesTo(s2, level, FlushedFile(s2, f.size), s3);
    ReachNext(s2, Flush(level), s3);
  }
}
