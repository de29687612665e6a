module Resurrection {
  // When a finished compaction can bring back an overwritten value.
  //
  // Input selection adds boundary files on the compacted level only, never to the inputs of the next
  // level.  So a dropped marker may have an older entry of its user key in a file of the next level
  // that stays behind.  Nothing else can resurface.

  import opened Keys
  import opened Files
  import opened Versions
  import opened CompactionInputs
  import opened CompactionWork
  import opened CompactionTheorem
  import opened VersionBuilder
  import opened Install
  import opened EngineSteps
  import opened Engine

  /** The entries of the next level's files that are not inputs. */
  ghost function LeftBelow(v: Version, c: Compaction): set<Entry> {
    set f, e | c.level + 1 < |v| && f in v[c.level + 1] && f !in c.inputs1 && e in f.table :: e
  }

  ghost predicate Exposed(s: State, d: Entry) {
    s.job.Some? &&
    var j := s.job.value;
    ExposedMarker(j.inputVersion, j.compaction.level, InputEntries(j.compaction), Others(s, j.compaction), j.smallestSnapshot, d)
  }

  /** No exposed marker covers a value in a file left on the next level. */
  ghost predicate NoStrandedValue(s: State)
    requires s.job.Some?
  {
    forall d :: Exposed(s, d) ==>
      Read(LeftBelow(s.version, s.job.value.compaction), d.key.user, d.key.sequence) == NotFound
  }

  lemma InputsAreStored(s: State, d: Entry)
    requires s.job.Some? && JobOk(s, s.job.value) && d in InputEntries(s.job.value.compaction)
    ensures d in AllEntries(s.job.value.inputVersion) && d in AllEntries(s.version)
  {
    var j := s.job.value;
    var c := j.compaction;
    InputsIncluded(j.inputVersion, c);
    EntriesOfSubset(c.inputs0, j.inputVersion[c.level]);
    EntriesOfSubset(c.inputs1, j.inputVersion[c.level + 1]);
    GrownEntries(j.inputVersion, s.version);
  }

  /** An older entry of a marker's user key is not deeper than the next level. */
  lemma NotDeeper(v0: Version, v: Version, level: nat, d: Entry, l: nat, f: File, e: Entry)
    requires VersionOk(v0) && Grown(v0, v) && IsBaseLevel(v0, level, d.key.user) && d in AllEntries(v0)
    requires level + 2 <= l < |v| && f in v[l] && e in f.table && e.key.user == d.key.user
    ensures e.key.sequence > d.key.sequence
  {
    assert LevelOk(v0, l);
    if f in v0[l] {
      NotContained(v0, level, d.key.user, l, f);
      FileRange(f, e);
      assert false;
    }
    assert e in TableOf(f);
  }

  lemma NotContained(v: Version, level: nat, u: UserKey, l: nat, f: File)
    requires IsBaseLevel(v, level, u) && level + 2 <= l < |v| && f in v[l]
    ensures !ContainsUser(f, u)
  {}

  lemma ShallowerIsNewer(v: Version, l: nat, m: nat, e: Entry, d: Entry)
    requires VersionOk(v) && l < m < |v| && e in EntriesOf(v[l]) && d in EntriesOf(v[m]) && e.key.user == d.key.user
    ensures e.key.sequence > d.key.sequence
  {
    assert Newer(EntriesOf(v[l]), EntriesOf(v[m]));
  }

  lemma InputLevel(v: Version, c: Compaction, d: Entry) returns (m: nat)
    requires c.level + 1 < |v| && Includes(v[c.level], c.inputs0) && Includes(v[c.level + 1], c.inputs1)
    requires d in InputEntries(c)
    ensures m < |v| && d in EntriesOf(v[m])
    ensures if d in EntriesOf(c.inputs0) then m == c.level else m == c.level + 1
  {
    EntriesOfSubset(c.inputs0, v[c.level]);
    EntriesOfSubset(c.inputs1, v[c.level + 1]);
    m := if d in EntriesOf(c.inputs0) then c.level else c.level + 1;
  }

  /** Nor is it on a shallower level, or left behind on the compacted one. */
  lemma NotShallower(s: State, d: Entry, l: nat, f: File, e: Entry)
    requires Inv(s) && s.job.Some? && d in InputEntries(s.job.value.compaction)
    requires var c := s.job.value.compaction;
      l <= c.level && l < |s.version| && f in s.version[l] && e in f.table && !(l == c.level && f in c.inputs0)
    requires e.key.user == d.key.user
    ensures e.key.sequence > d.key.sequence
  {
    var c := s.job.value.compaction;
    GrownInputsIncluded(s.job.value.inputVersion, s.version, c);
    var m := InputLevel(s.version, c, d);
    if l < m {
      assert e in EntriesOf(s.version[l]);
      ShallowerIsNewer(s.version, l, m, e, d);
    } else {
      LeftOnLevelIsNewer(s, f, e, d);
    }
  }

  lemma LeftOnLevelIsNewer(s: State, f: File, e: Entry, d: Entry)
    requires Inv(s) && s.job.Some? && d in EntriesOf(s.job.value.compaction.inputs0)
    requires var c := s.job.value.compaction; c.level < |s.version| && f in s.version[c.level] && f !in c.inputs0 && e in f.table
    requires e.key.user == d.key.user
    ensures e.key.sequence > d.key.sequence
  {
    var j := s.job.value;
    var c, v0 := j.compaction, j.inputVersion;
    InputsAreStored(s, d);
    assert e in TableOf(f);
    if f in v0[c.level] {
      LevelEntries(v0, c.level);
      SoundPartIsClosed(v0, c.level, c.inputs0);
      var g :| g in c.inputs0 && d in g.table;
      assert Newer(TableOf(f), TableOf(g));
    } else {
      assert f in FileSet(s.version[c.level]);
    }
  }

  lemma NotInMemory(s: State, d: Entry, e: Entry)
    requires MemoryNewer(s) && d in AllEntries(s.version) && e.key.user == d.key.user && e.key.sequence <= d.key.sequence
    ensures e !in Elements(s.mem) && e !in ImmEntries(s)
  {}

  lemma LeftEntry(v: Version, c: Compaction, e: Entry) returns (l: nat, f: File)
    requires e in LeftEntries(v, c)
    ensures l < |v| && f in v[l] && !(l == c.level && f in c.inputs0) && !(l == c.level + 1 && f in c.inputs1) && e in f.table
  {
    l, f :| 0 <= l < |v| && f in v[l] && !(l == c.level && f in c.inputs0)
      && !(l == c.level + 1 && f in c.inputs1) && e in f.table;
  }

  /** Everything outside the compaction that is older than an input at its base level is stranded on the next level. */
  lemma OlderIsLeftBelow(s: State, d: Entry, e: Entry)
    requires Inv(s) && s.job.Some? && d in InputEntries(s.job.value.compaction)
    requires IsBaseLevel(s.job.value.inputVersion, s.job.value.compaction.level, d.key.user)
    requires e in Others(s, s.job.value.compaction) && Visible(e, d.key.user, d.key.sequence)
    ensures e in LeftBelow(s.version, s.job.value.compaction)
  {
    var j := s.job.value;
    var c := j.compaction;
    InputsAreStored(s, d);
    NotInMemory(s, d, e);
    var l, f := LeftEntry(s.version, c, e);
    if l > c.level + 1 {
      NotDeeper(j.inputVersion, s.version, c.level, d, l, f, e);
    } else if l <= c.level {
      NotShallower(s, d, l, f, e);
    } else {
      InLeftBelow(s.version, c, f, e);
    }
  }

  lemma InLeftBelow(v: Version, c: Compaction, f: File, e: Entry)
    requires c.level + 1 < |v| && f in v[c.level + 1] && f !in c.inputs1 && e in f.table
    ensures e in LeftBelow(v, c)
  {}

  lemma LeftBelowIsOther(s: State)
    requires Inv(s) && s.job.Some?
    ensures LeftBelow(s.version, s.job.value.compaction) <= Others(s, s.job.value.compaction) <= All(s)
  {
    var j := s.job.value;
    GrownInputsIncluded(j.inputVersion, s.version, j.compaction);
    BeforeInstall(s.version, j.compaction);
  }

  /** What resurfaces below an exposed marker is what the next level keeps of its user key. */
  lemma ReadBelowMarker(s: State, d: Entry)
    requires Inv(s) && Exposed(s, d)
    ensures Read(Others(s, s.job.value.compaction), d.key.user, d.key.sequence)
         == Read(LeftBelow(s.version, s.job.value.compaction), d.key.user, d.key.sequence)
  {
    var c := s.job.value.compaction;
    var u, q := d.key.user, d.key.sequence;
    LeftBelowIsOther(s);
    forall e ensures (e in Others(s, c) && Visible(e, u, q)) <==> (e in LeftBelow(s.version, c) && Visible(e, u, q)) {
      if e in Others(s, c) && Visible(e, u, q) {
        OlderIsLeftBelow(s, d, e);
      }
    }
    ReadSameVisible(Others(s, c), LeftBelow(s.version, c), u, q, q);
  }

  /** A compaction is clean exactly when it strands no value on the next level. */
  lemma CleanIffNothingStranded(s: State, outputs: seq<File>)
    requires Inv(s) && s.job.Some?
    ensures Clean(s, FinishCompaction(outputs)) <==> NoStrandedValue(s)
  {
    forall d | Exposed(s, d)
      ensures Read(Others(s, s.job.value.compaction), d.key.user, d.key.sequence)
           == Read(LeftBelow(s.version, s.job.value.compaction), d.key.user, d.key.sequence)
    {
      ReadBelowMarker(s, d);
    }
    if NoStrandedValue(s) {
      assert Clean(s, FinishCompaction(outputs));
    }
  }

  /** The exact effect of a finished compaction on the readable snapshots. */
  lemma FinishPreservesReadsIffNothingStranded(s: State, outputs: seq<File>, s2: State)
    requires Inv(s) && Finishes(s, outputs, s2)
    ensures ReadsPreserved(All(s), All(s2), s.job.value.smallestSnapshot) <==> NoStrandedValue(s)
  {
    FinishPreservesReadsIff(s, outputs, s2);
    CleanIffNothingStranded(s, outputs);
  }

  // ---- A guard that suffices ---------------------------------------------------------------------

  /** A file that stays on the next level shares no user key with the inputs of the compacted level. */
  lemma LeftBelowMissesInputs0(v: Version, c: Compaction, g: File, e: Entry, d: Entry)
    requires VersionOk(v) && SoundInputs(v, c) && g in v[c.level + 1] && g !in c.inputs1
    requires e in g.table && d in EntriesOf(c.inputs0)
    ensures e.key.user != d.key.user
  {
    var files := v[c.level + 1];
    var lo, hi :| IsRange(c.inputs0, lo, hi) && c.inputs1 == Overlapping(files, Some(lo.user), Some(hi.user));
    assert LevelOk(v, c.level) && LevelOk(v, c.level + 1);
    OverlappingMembers(files, Some(lo.user), Some(hi.user));
    RangeNotEmpty(v[c.level], c.inputs0, lo, hi);
    var f :| f in c.inputs0 && d in f.table;
    OutsideRangeDiffers(c.inputs0, lo, hi, f, g, e, d);
  }

  lemma OutsideRangeDiffers(inputs: seq<File>, lo: InternalKey, hi: InternalKey, f: File, g: File, e: Entry, d: Entry)
    requires IsRange(inputs, lo, hi) && f in inputs && FileOk(f) && FileOk(g) && d in f.table && e in g.table
    requires !Overlaps(g, Some(lo.user), Some(hi.user))
    ensures e.key.user != d.key.user
  {
    FileRange(g, e);
    FileRange(f, d);
  }

  /** The inputs of the next level are a run. */
  lemma Inputs1IsRun(v: Version, c: Compaction)
    requires VersionOk(v) && SoundInputs(v, c) && c.inputs1 != []
    ensures IsRun(v[c.level + 1], c.inputs1)
  {
    var files := v[c.level + 1];
    var lo, hi :| IsRange(c.inputs0, lo, hi) && c.inputs1 == Overlapping(files, Some(lo.user), Some(hi.user));
    assert LevelOk(v, c.level + 1);
    SortedByUser(files);
    var a, b := OverlappingIsRun(files, Some(lo.user), Some(hi.user));
  }

  /** Behind boundary-closed inputs nothing older is stranded. */
  lemma NothingOlderStranded(s: State, d: Entry, e: Entry)
    requires Inv(s) && s.job.Some? && d in InputEntries(s.job.value.compaction)
    requires var j := s.job.value; BoundaryClosed(j.inputVersion[j.compaction.level + 1], j.compaction.inputs1)
    requires e in LeftBelow(s.version, s.job.value.compaction) && e.key.user == d.key.user
    ensures e.key.sequence > d.key.sequence
  {
    hide VersionOk, SoundInputs, BoundaryClosed, NumbersOk, MemoryNewer, EntriesOk, AllEntries, EntriesOf, FileSet;
    var j := s.job.value;
    var c, v0 := j.compaction, j.inputVersion;
    var l := c.level + 1;
    InputsAreStored(s, d);
    assert Grown(v0, s.version);
    var g :| g in s.version[l] && g !in c.inputs1 && e in g.table;
    if g !in v0[l] {
      assert e in TableOf(g);
    } else if d in EntriesOf(c.inputs0) {
      LeftBelowMissesInputs0(v0, c, g, e, d);
      assert false;
    } else {
      LeftOfRunIsNewer(v0, c, g, e, d);
    }
  }

  lemma LeftOfRunIsNewer(v: Version, c: Compaction, g: File, e: Entry, d: Entry)
    requires VersionOk(v) && SoundInputs(v, c) && Distinct(AllEntries(v))
    requires BoundaryClosed(v[c.level + 1], c.inputs1)
    requires g in v[c.level + 1] && g !in c.inputs1 && e in g.table && d in EntriesOf(c.inputs1) && e.key.user == d.key.user
    ensures e.key.sequence > d.key.sequence
  {
    var l := c.level + 1;
    var f :| f in c.inputs1 && d in f.table;
    Inputs1IsRun(v, c);
    assert LevelOk(v, l);
    LevelEntries(v, l);
    RunNewer(v[l], c.inputs1, g, f);
    assert e in TableOf(g) && d in TableOf(f);
  }

  /** Had the inputs of the next level been extended to their boundary too, no compaction could
      bring anything back. */
  lemma BoundaryClosedIsClean(s: State, outputs: seq<File>)
    requires Inv(s)
    requires s.job.Some? ==> var j := s.job.value; BoundaryClosed(j.inputVersion[j.compaction.level + 1], j.compaction.inputs1)
    ensures Clean(s, FinishCompaction(outputs))
  {
    if s.job.Some? {
      forall d | Exposed(s, d)
        ensures Read(LeftBelow(s.version, s.job.value.compaction), d.key.user, d.key.sequence) == NotFound
      {
        forall e | e in LeftBelow(s.version, s.job.value.compaction) ensures !Visible(e, d.key.user, d.key.sequence) {
          if e.key.user == d.key.user {
            NothingOlderStranded(s, d, e);
          }
        }
        ReadNone(LeftBelow(s.version, s.job.value.compaction), d.key.user, d.key.sequence);
      }
      CleanIffNothingStranded(s, outputs);
    }
  }

  /** The finished compactions of a run had inputs that no file of the next level continues. */
  ghost predicate BoundedThrough(states: seq<State>, steps: seq<Step>, i: nat, k: nat, q: nat)
    requires |states| == |steps| + 1 && i <= k < |states|
  {
    forall n :: i <= n < k ==> Readable(states[n], q) && BoundedStep(states[n], steps[n])
  }

  ghost predicate BoundedStep(s: State, step: Step) {
    step.FinishCompaction? && s.job.Some? ==>
      var j := s.job.value;
      j.compaction.level + 1 < |j.inputVersion| && BoundaryClosed(j.inputVersion[j.compaction.level + 1], j.compaction.inputs1)
  }

  /** With that guard, snapshot reads are stable over every run without further conditions. */
  lemma ReadsAreStableWithBoundaries(states: seq<State>, steps: seq<Step>, i: nat, k: nat, u: UserKey, q: nat)
    requires IsExecution(states, steps) && i <= k < |states| && OrderlyThrough(states, steps, k)
    requires BoundedThrough(states, steps, i, k, q)
    ensures ReadAt(states[k], u, q) == ReadAt(states[i], u, q)
  {
    hide Inv, Next, Readable, Orderly, ReadAt, NothingResurfaces, BoundaryClosed;
    forall n | i <= n < k ensures Clean(states[n], steps[n]) {
      InvariantHolds(states, steps, n);
      if steps[n].FinishCompaction? {
        assert BoundedStep(states[n], steps[n]);
        BoundaryClosedIsClean(states[n], steps[n].outputs);
      }
    }
    SnapshotReadsAreStable(states, steps, i, k, u, q);
  }
}
