module ResurrectionExample {
  // A compaction that brings a deleted value back: a run of the engine from a new database, and the step of it that
  // breaks a live read.

  import opened Keys
  import opened Files
  import opened Versions
  import opened CompactionInputs
  import opened CompactionWork
  import opened VersionBuilder
  import opened Install
  import opened EngineSteps
  import opened Engine

  const DELETED := Entry(InternalKey(20.0, 1, Value), [3])
  const OLD_VALUE := Entry(InternalKey(10.0, 2, Value), [2])
  const MARKER := Entry(InternalKey(20.0, 3, Deletion), [])
  const NEW_VALUE := Entry(InternalKey(10.0, 4, Value), [1])

  function FileOf(number: nat, t: seq<Entry>): File
    requires t != []
  {
    File(number, 1, t[0].key, t[|t| - 1].key, t)
  }

  const BOTTOM := FileOf(5, [DELETED])
  const MIDDLE := FileOf(7, [OLD_VALUE, MARKER])
  const LOWER := FileOf(8, [OLD_VALUE, MARKER])
  const LEFT := FileOf(9, [DELETED])
  const UPPER := FileOf(11, [NEW_VALUE])
  const OUTPUT := FileOf(12, [NEW_VALUE])

  function TwoLevels(upper: seq<File>, lower: seq<File>): Version {
    [[], upper, lower, [], [], [], []]
  }

  const FIRST := TwoLevels([], [BOTTOM])
  const SECOND := TwoLevels([MIDDLE], [BOTTOM])
  const SPLIT := TwoLevels([], [LOWER, LEFT])
  const BEFORE := TwoLevels([UPPER], [LOWER, LEFT])
  const AFTER := TwoLevels([], [OUTPUT, LEFT])

  const SPLITTING := Compaction(1, [MIDDLE], [BOTTOM], [])
  const COMPACTION := Compaction(1, [UPPER], [LOWER], [])

  const RUNNING := State([], None, BEFORE, 4, [], 12, Some(Job(COMPACTION, BEFORE, 4)))
  const FINISHED := State([], None, AFTER, 4, [], 13, None)

  lemma FilesAreOk()
    ensures FileOk(BOTTOM) && FileOk(MIDDLE) && FileOk(LOWER) && FileOk(LEFT) && FileOk(UPPER) && FileOk(OUTPUT)
    ensures Less(LOWER.largest, LEFT.smallest) && Less(OUTPUT.largest, LEFT.smallest)
  {}

  /** A table that holds one entry, or two in order. */
  lemma TableOfTwo(a: Entry, b: Entry)
    ensures Sorted([a]) && Elements([a]) == {a} && Elements([a, b]) == Elements([b, a]) == {a, b}
    ensures Less(a.key, b.key) ==> Sorted([a, b])
  {
    assert forall e :: e in [a] <==> e == a;
    assert forall e :: e in [a, b] <==> e == a || e == b;
    assert forall e :: e in [b, a] <==> e == a || e == b;
  }

  /** Writing a table to a level that is empty in a version with two levels in use. */
  lemma AddToUpper(lower: seq<File>, f: File)
    requires SortedBySmallest(lower)
    ensures FileAdded(TwoLevels([], lower), TwoLevels([f], lower), 1, f)
  {
    var v, v2 := TwoLevels([], lower), TwoLevels([f], lower);
    forall l | 0 <= l < NUM_LEVELS ensures SortedBySmallest(v2[l]) && FileSet(v2[l]) == FileSet(v[l]) + if l == 1 then {f} else {} {
      assert l == 0 || l == 1 || l == 2 || v2[l] == v[l] == [];
    }
  }

  lemma AddToLower(f: File)
    ensures FileAdded(NO_FILES, TwoLevels([], [f]), 2, f)
  {
    var v, v2 := NO_FILES, TwoLevels([], [f]);
    forall l | 0 <= l < NUM_LEVELS ensures SortedBySmallest(v2[l]) && FileSet(v2[l]) == FileSet(v[l]) + if l == 2 then {f} else {} {
      assert l == 2 || v2[l] == v[l] == [];
    }
  }

  /** The whole of the upper level, with what it overlaps at the head of the lower one. */
  lemma HeadIsSound(f: File, lower: seq<File>, n: nat)
    requires n <= |lower| && !Less(f.largest, f.smallest) && UserSorted(lower)
    requires forall i :: 0 <= i < |lower| ==> (Overlaps(lower[i], Some(f.smallest.user), Some(f.largest.user)) <==> i < n)
    ensures SoundInputs(TwoLevels([f], lower), Compaction(1, [f], lower[..n], []))
  {
    var v := TwoLevels([f], lower);
    assert v[1] == [f] && [f][0..1] == [f] && f in [f];
    assert IsRun(v[1], [f]);
    assert IsRange([f], f.smallest, f.largest);
    OverlappingSlice(v[2], Some(f.smallest.user), Some(f.largest.user), 0, n);
    assert BoundaryClosed([f], [f]);
  }

  /** Installing outputs in place of the head of the lower level. */
  lemma HeadInstalled(f: File, lower: seq<File>, n: nat, outputs: seq<File>)
    requires n <= |lower| && SortedBySmallest(outputs + lower[n..]) && f !in lower
    requires forall i, j :: 0 <= i < j < |lower| ==> lower[i] != lower[j]
    ensures Installed(TwoLevels([f], lower), TwoLevels([], outputs + lower[n..]), Compaction(1, [f], lower[..n], []), outputs)
  {
    var v, v2 := TwoLevels([f], lower), TwoLevels([], outputs + lower[n..]);
    assert forall g :: g in FileSet(v2[2]) <==> g in outputs || g in lower[n..];
    assert lower == lower[..n] + lower[n..];
    assert FileSet(v2[2]) == FileSet(v[2]) - FileSet(lower[..n]) + FileSet(outputs);
    forall l | 0 <= l < NUM_LEVELS ensures SortedBySmallest(v2[l]) && (l != 1 && l != 2 ==> FileSet(v2[l]) == FileSet(v[l])) {
      assert l == 1 || l == 2 || v2[l] == v[l] == [];
    }
  }

  // ---- The run -------------------------------------------------------------------------------------

  const FLUSHED := State([], None, FIRST, 1, [1], 6, None)
  const STACKED := State([], None, SECOND, 3, [1], 8, None)
  const SPLIT_UP := State([], None, SPLIT, 3, [], 10, None)

  /** Key 20 is written and flushed to level 2, and a snapshot is taken. */
  lemma ReachFlushed()
    ensures Reachable(FLUSHED) && Inv(FLUSHED)
  {
    hide Inv, Reachable, FileAdded, Sorted;
    NewIsReachable();
    TableOfTwo(DELETED, DELETED);
    AddToLower(BOTTOM);
    ReachFlush(NEW_DATABASE, [DELETED], [DELETED], 2, BOTTOM, FIRST);
    ReachNext(FLUSHED.(snapshots := []), TakeSnapshot, FLUSHED);
  }

  /** Key 10 is written and key 20 deleted; the table overlaps level 2 and goes to level 1. */
  lemma ReachStacked()
    ensures Reachable(STACKED) && Inv(STACKED)
  {
    hide Inv, Reachable, FileAdded, Sorted, SortedBySmallest;
    ReachFlushed();
    TableOfTwo(OLD_VALUE, MARKER);
    OneFile(BOTTOM);
    AddToUpper([BOTTOM], MIDDLE);
    ReachFlush(FLUSHED, [OLD_VALUE, MARKER], [OLD_VALUE, MARKER], 1, MIDDLE, SECOND);
  }

  lemma OneFile(f: File)
    ensures SortedBySmallest([f])
  {}

  lemma TwoFiles(f: File, g: File)
    requires BySmallestKey(f, g)
    ensures SortedBySmallest([f, g])
  {}

  lemma ContentsOf(f: File)
    ensures EntriesOf([f]) == TableOf(f)
  {
    assert f in [f];
  }

  lemma ContentsOfTwo(f: File, g: File)
    ensures EntriesOf([f, g]) == TableOf(f) + TableOf(g)
  {
    assert f in [f, g] && g in [f, g];
  }

  lemma Tables()
    ensures TableOf(BOTTOM) == TableOf(LEFT) == {DELETED} && TableOf(MIDDLE) == TableOf(LOWER) == {OLD_VALUE, MARKER}
    ensures TableOf(UPPER) == TableOf(OUTPUT) == {NEW_VALUE}
  {
    TableOfTwo(DELETED, DELETED);
    TableOfTwo(OLD_VALUE, MARKER);
    TableOfTwo(NEW_VALUE, NEW_VALUE);
    assert forall t :: Elements(t) == set e | e in t;
  }

  /** A compaction of level 1 keeps everything, for the sake of the snapshot, in two tables; then the snapshot goes. */
  lemma ReachSplitUp()
    ensures Reachable(SPLIT_UP) && Inv(SPLIT_UP)
  {
    hide Inv, Reachable, SoundInputs, Installed, Survivors, Finishes, OutputsFit, EntriesOf;
    var c := SPLITTING;
    var s := STACKED.(job := Some(Job(c, SECOND, 1)));
    var s2 := SPLIT_UP.(snapshots := [1]);
    ReachStacked();
    FilesAreOk();
    assert [BOTTOM][..1] == [BOTTOM];
    HeadIsSound(MIDDLE, [BOTTOM], 1);
    ReachNext(STACKED, StartCompaction(c), s);
    assert [LOWER, LEFT] + [BOTTOM][1..] == [LOWER, LEFT];
    TwoFiles(LOWER, LEFT);
    HeadInstalled(MIDDLE, [BOTTOM], 1, [LOWER, LEFT]);
    AllSurvive();
    SplitFinishes(s, s2);
    SameVersionFits(SECOND, c, [LOWER, LEFT]);
    ReachNext(s, FinishCompaction([LOWER, LEFT]), s2);
    assert s2.snapshots[..0] + s2.snapshots[1..] == [];
    ReachNext(s2, ReleaseSnapshot(0), SPLIT_UP);
  }

  lemma SplitFinishes(s: State, s2: State)
    requires s == STACKED.(job := Some(Job(SPLITTING, SECOND, 1))) && s2 == SPLIT_UP.(snapshots := [1])
    requires Installed(SECOND, SPLIT, SPLITTING, [LOWER, LEFT])
    requires EntriesOf([LOWER, LEFT]) == Survivors(SECOND, 1, InputEntries(SPLITTING), 1)
    ensures Finishes(s, [LOWER, LEFT], s2)
  {
    hide Installed, Survivors, EntriesOf, InputEntries;
    FilesAreOk();
  }

  lemma SameVersionFits(v: Version, c: Compaction, outputs: seq<File>)
    requires c.level + 1 < |v|
    ensures OutputsFit(v, v, c, outputs)
  {}

  lemma AllSurvive()
    ensures InputEntries(SPLITTING) == {OLD_VALUE, MARKER, DELETED}
    ensures Survivors(SECOND, 1, InputEntries(SPLITTING), 1) == InputEntries(SPLITTING) == EntriesOf([LOWER, LEFT])
  {
    hide EntriesOf;
    Tables();
    ContentsOf(MIDDLE);
    ContentsOf(BOTTOM);
    ContentsOfTwo(LOWER, LEFT);
    var inputs := InputEntries(SPLITTING);
    forall e | e in inputs ensures !Hidden(inputs, 1, e) && !Obsolete(SECOND, 1, 1, e) {}
  }

  /** A newer value of key 10 is flushed, and a compaction of its table starts. */
  lemma ReachRunning()
    ensures Reachable(RUNNING) && Inv(RUNNING)
  {
    hide Inv, Reachable, FileAdded, Sorted, SortedBySmallest, SoundInputs;
    var s := RUNNING.(job := None);
    ReachSplitUp();
    FilesAreOk();
    TableOfTwo(NEW_VALUE, NEW_VALUE);
    TwoFiles(LOWER, LEFT);
    AddToUpper([LOWER, LEFT], UPPER);
    ReachFlush(SPLIT_UP, [NEW_VALUE], [NEW_VALUE], 1, UPPER, BEFORE);
    assert [LOWER, LEFT][..1] == [LOWER];
    HeadIsSound(UPPER, [LOWER, LEFT], 1);
    ReachNext(s, StartCompaction(COMPACTION), RUNNING);
  }

  lemma KeptEntries()
    ensures InputEntries(COMPACTION) == {NEW_VALUE, OLD_VALUE, MARKER}
    ensures Survivors(BEFORE, 1, InputEntries(COMPACTION), 4) == {NEW_VALUE} == EntriesOf([OUTPUT])
  {
    hide EntriesOf;
    Tables();
    ContentsOf(UPPER);
    ContentsOf(LOWER);
    ContentsOf(OUTPUT);
    var inputs := InputEntries(COMPACTION);
    assert Hidden(inputs, 4, OLD_VALUE);
    assert IsBaseLevel(BEFORE, 1, 20.0) by {
      assert forall l :: 3 <= l < 7 ==> BEFORE[l] == [];
    }
    assert Obsolete(BEFORE, 1, 4, MARKER);
    assert !Hidden(inputs, 4, NEW_VALUE);
  }

  lemma CompactionFinishes()
    ensures Next(RUNNING, FinishCompaction([OUTPUT]), FINISHED)
  {
    hide Installed, Survivors, EntriesOf, InputEntries;
    FilesAreOk();
    KeptEntries();
    assert [LOWER, LEFT][..1] == [LOWER] && [OUTPUT] + [LOWER, LEFT][1..] == [OUTPUT, LEFT];
    TwoFiles(OUTPUT, LEFT);
    HeadInstalled(UPPER, [LOWER, LEFT], 1, [OUTPUT]);
  }

  /** The user deleted key 20 at sequence 3; before the compaction finishes it reads as deleted, and
      afterwards the value of sequence 1 is back. */
  lemma DroppedMarkerResurrects()
    ensures Reachable(RUNNING) && Next(RUNNING, FinishCompaction([OUTPUT]), FINISHED) && Reachable(FINISHED)
    ensures Inv(RUNNING) && Inv(FINISHED) && Readable(RUNNING, 4) && Readable(FINISHED, 4)
    ensures ReadAt(RUNNING, 20.0, 4) == NotFound
    ensures ReadAt(FINISHED, 20.0, 4) == Found([3])
  {
    hide Inv, Reachable, Next, ReadAt, OutputsFit;
    ReachRunning();
    CompactionFinishes();
    SameVersionFits(BEFORE, COMPACTION, [OUTPUT]);
    ReachNext(RUNNING, FinishCompaction([OUTPUT]), FINISHED);
    ReadsDiffer();
  }

  lemma LevelContents(upper: seq<File>, lower: seq<File>)
    ensures AllEntries(TwoLevels(upper, lower)) == EntriesOf(upper) + EntriesOf(lower)
  {
    var v := TwoLevels(upper, lower);
    forall l | 0 <= l < 7 && l != 1 && l != 2 ensures EntriesOf(v[l]) == {} {
      assert v[l] == [];
    }
    assert EntriesOf(v[1]) <= AllEntries(v) && EntriesOf(v[2]) <= AllEntries(v);
  }

  lemma ReadsDiffer()
    ensures ReadAt(RUNNING, 20.0, 4) == NotFound && ReadAt(FINISHED, 20.0, 4) == Found([3])
  {
    hide AllEntries, EntriesOf;
    Tables();
    LevelContents([UPPER], [LOWER, LEFT]);
    LevelContents([], [OUTPUT, LEFT]);
    ContentsOf(UPPER);
    ContentsOfTwo(LOWER, LEFT);
    ContentsOfTwo(OUTPUT, LEFT);
    NoContents();
    var before, after := {NEW_VALUE, OLD_VALUE, MARKER, DELETED}, {NEW_VALUE, DELETED};
    assert All(RUNNING) == before && All(FINISHED) == after;
    assert IsNewest(before, 20.0, 4, MARKER);
    ReadIs(before, 20.0, 4, MARKER);
    assert IsNewest(after, 20.0, 4, DELETED);
    ReadIs(after, 20.0, 4, DELETED);
  }

  lemma NoContents()
    ensures EntriesOf([]) == {} && Elements([]) == {}
  {}
}
