module FlushExample {
  // A memtable that is flushed into the range of an output while a compaction runs: a run of the engine from a new
  // database that ends with two overlapping files on one level, and a key that the search of the level misses.

  import opened Keys
  import opened Files
  import opened Versions
  import opened CompactionInputs
  import opened CompactionWork
  import opened VersionBuilder
  import opened Install
  import opened EngineSteps
  import opened Engine
  import opened ResurrectionExample

  const FIRST_10 := Entry(InternalKey(10.0, 1, Value), [1])
  const FIRST_30 := Entry(InternalKey(30.0, 2, Value), [2])
  const SECOND_10 := Entry(InternalKey(10.0, 3, Value), [3])
  const SECOND_30 := Entry(InternalKey(30.0, 4, Value), [4])
  const ONLY_20 := Entry(InternalKey(20.0, 5, Value), [5])

  const LOWER_10 := FileOf(5, [FIRST_10])
  const LOWER_30 := FileOf(7, [FIRST_30])
  const UPPER_10 := FileOf(9, [SECOND_10])
  const UPPER_30 := FileOf(11, [SECOND_30])
  const BETWEEN := FileOf(13, [ONLY_20])
  const JOINED := FileOf(14, [SECOND_10, SECOND_30])

  const JOINING := Compaction(1, [UPPER_10, UPPER_30], [LOWER_10, LOWER_30], [])
  const CHOSEN := TwoLevels([UPPER_10, UPPER_30], [LOWER_10, LOWER_30])
  const GROWN := TwoLevels([UPPER_10, UPPER_30], [LOWER_10, BETWEEN, LOWER_30])
  const OVERLAPPING := TwoLevels([], [JOINED, BETWEEN])

  const COMPACTING := State([], None, GROWN, 5, [], 14, Some(Job(JOINING, CHOSEN, 4)))
  const OVERLAPPED := State([], None, OVERLAPPING, 5, [], 15, None)

  /** The state after `n` flushes. */
  function Loaded(upper: seq<File>, lower: seq<File>, n: nat): State {
    State([], None, TwoLevels(upper, lower), n, [], 4 + 2 * n, None)
  }

  /** Adding a file to a level and leaving the other alone. */
  lemma AddFile(upper: seq<File>, lower: seq<File>, upper2: seq<File>, lower2: seq<File>, level: nat, f: File)
    requires SortedBySmallest(upper2) && SortedBySmallest(lower2) && (level == 1 || level == 2)
    requires FileSet(upper2) == FileSet(upper) + if level == 1 then {f} else {}
    requires FileSet(lower2) == FileSet(lower) + if level == 2 then {f} else {}
    ensures FileAdded(TwoLevels(upper, lower), TwoLevels(upper2, lower2), level, f)
  {
    var v, v2 := TwoLevels(upper, lower), TwoLevels(upper2, lower2);
    forall l | 0 <= l < NUM_LEVELS ensures SortedBySmallest(v2[l]) && FileSet(v2[l]) == FileSet(v[l]) + if l == level then {f} else {} {
      assert l == 1 || l == 2 || v2[l] == v[l] == [];
    }
  }

  lemma FewFiles(f: File, g: File, h: File)
    ensures FileSet([f]) == {f} && FileSet([f, g]) == {f, g} && FileSet([f, g, h]) == {f, g, h} && FileSet([]) == {}
    ensures SortedBySmallest([f])
    ensures BySmallestKey(f, g) ==> SortedBySmallest([f, g])
    ensures BySmallestKey(f, g) && BySmallestKey(g, h) && BySmallestKey(f, h) ==> SortedBySmallest([f, g, h])
  {
    assert forall x :: x in [f, g] <==> x == f || x == g;
    assert forall x :: x in [f, g, h] <==> x == f || x == g || x == h;
  }

  /** One entry is written and flushed to where nothing overlaps it. */
  lemma Flushed(s: State, e: Entry, level: nat, f: File, v2: Version)
    requires Reachable(s) && Inv(s) && s.mem == [] && s.imm == None && e.key.sequence == s.lastSequence + 1 < MAX_SEQUENCE
    requires f == FileOf(s.nextFile + 1, [e]) && FileAdded(s.version, v2, level, f) && level <= 2
    requires |s.version| == 7 && s.version[0] == []
    requires level >= 1 ==> NoOverlap(s.version[1], e.key.user, e.key.user)
    requires level >= 2 ==> NoOverlap(s.version[2], e.key.user, e.key.user)
    ensures var s2 := s.(version := v2, lastSequence := e.key.sequence, nextFile := s.nextFile + 2); Reachable(s2) && Inv(s2)
  {
    hide Inv, Reachable, FileAdded, Sorted;
    TableOfTwo(e, e);
    ReachFlush(s, [e], [e], level, f, v2);
  }

  /** Keys 10 and 30 come to level 2, each in its table, and then once more to level 1. */
  lemma ReachLoaded()
    ensures var s := Loaded([UPPER_10, UPPER_30], [LOWER_10, LOWER_30], 4); Reachable(s) && Inv(s)
  {
    hide Inv, Reachable, FileAdded, Sorted, SortedBySmallest, FileSet;
    NewIsReachable();
    FewFiles(LOWER_10, LOWER_30, LOWER_30);
    FewFiles(UPPER_10, UPPER_30, UPPER_30);
    FewFiles(LOWER_30, LOWER_30, LOWER_30);
    assert NEW_DATABASE == Loaded([], [], 0);
    AddFile([], [], [], [LOWER_10], 2, LOWER_10);
    Flushed(Loaded([], [], 0), FIRST_10, 2, LOWER_10, TwoLevels([], [LOWER_10]));
    AddFile([], [LOWER_10], [], [LOWER_10, LOWER_30], 2, LOWER_30);
    Flushed(Loaded([], [LOWER_10], 1), FIRST_30, 2, LOWER_30, TwoLevels([], [LOWER_10, LOWER_30]));
    AddFile([], [LOWER_10, LOWER_30], [UPPER_10], [LOWER_10, LOWER_30], 1, UPPER_10);
    Flushed(Loaded([], [LOWER_10, LOWER_30], 2), SECOND_10, 1, UPPER_10, TwoLevels([UPPER_10], [LOWER_10, LOWER_30]));
    AddFile([UPPER_10], [LOWER_10, LOWER_30], [UPPER_10, UPPER_30], [LOWER_10, LOWER_30], 1, UPPER_30);
    Flushed(Loaded([UPPER_10], [LOWER_10, LOWER_30], 3), SECOND_30, 1, UPPER_30, CHOSEN);
  }

  lemma InputsAreSound()
    ensures SoundInputs(CHOSEN, JOINING)
  {
    var files := [UPPER_10, UPPER_30];
    assert files[0..2] == files && IsRun(CHOSEN[1], files);
    assert UPPER_10 in files && UPPER_30 in files;
    assert IsRange(files, UPPER_10.smallest, UPPER_30.largest);
    var lower := [LOWER_10, LOWER_30];
    assert lower[0..2] == lower;
    OverlappingSlice(lower, Some(10.0), Some(30.0), 0, 2);
    assert BoundaryClosed(files, files);
  }

  /** The compaction of all four tables starts, and key 20 is written and flushed past it to level 2. */
  lemma ReachCompacting()
    ensures Reachable(COMPACTING) && Inv(COMPACTING)
  {
    hide Inv, Reachable, FileAdded, Sorted, SortedBySmallest, FileSet, SoundInputs;
    ReachLoaded();
    InputsAreSound();
    var s := Loaded([UPPER_10, UPPER_30], [LOWER_10, LOWER_30], 4);
    var s2 := s.(job := Some(Job(JOINING, CHOSEN, 4)));
    ReachNext(s, StartCompaction(JOINING), s2);
    FewFiles(UPPER_10, UPPER_30, UPPER_30);
    FewFiles(LOWER_10, BETWEEN, LOWER_30);
    FewFiles(LOWER_10, LOWER_30, LOWER_30);
    AddFile([UPPER_10, UPPER_30], [LOWER_10, LOWER_30], [UPPER_10, UPPER_30], [LOWER_10, BETWEEN, LOWER_30], 2, BETWEEN);
    Flushed(s2, ONLY_20, 2, BETWEEN, GROWN);
  }

  lemma Inputs()
    ensures InputEntries(JOINING) == {FIRST_10, FIRST_30, SECOND_10, SECOND_30}
    ensures EntriesOf([JOINED]) == {SECOND_10, SECOND_30}
  {
    hide EntriesOf;
    ContentsOfTwo(UPPER_10, UPPER_30);
    ContentsOfTwo(LOWER_10, LOWER_30);
    ContentsOf(JOINED);
    TableOfTwo(FIRST_10, FIRST_30);
    TableOfTwo(FIRST_30, FIRST_30);
    TableOfTwo(SECOND_10, SECOND_30);
    TableOfTwo(SECOND_30, SECOND_30);
    assert forall t :: Elements(t) == set e | e in t;
  }

  lemma CompactionFinishes()
    ensures Next(COMPACTING, FinishCompaction([JOINED]), OVERLAPPED)
  {
    hide EntriesOf, InputEntries;
    Inputs();
    var inputs := InputEntries(JOINING);
    assert Hidden(inputs, 4, FIRST_10) by { assert SECOND_10 in inputs; }
    assert Hidden(inputs, 4, FIRST_30) by { assert SECOND_30 in inputs; }
    assert Survivors(CHOSEN, 1, inputs, 4) == {SECOND_10, SECOND_30};
    assert FileOk(JOINED) && FilesOk([JOINED]);
    JoinedInstalled();
  }

  lemma JoinedInstalled()
    ensures Installed(GROWN, OVERLAPPING, JOINING, [JOINED])
  {
    hide SortedBySmallest, FileSet;
    FewFiles(LOWER_10, BETWEEN, LOWER_30);
    FewFiles(LOWER_10, LOWER_30, LOWER_30);
    FewFiles(UPPER_10, UPPER_30, UPPER_30);
    FewFiles(JOINED, BETWEEN, BETWEEN);
    assert SortedBySmallest([]) by { NoFilesSorted(); }
    forall l | 0 <= l < NUM_LEVELS
      ensures SortedBySmallest(OVERLAPPING[l]) && (l != 1 && l != 2 ==> FileSet(OVERLAPPING[l]) == FileSet(GROWN[l]))
    {
      assert l == 1 || l == 2 || OVERLAPPING[l] == GROWN[l] == [];
    }
  }

  lemma NoFilesSorted()
    ensures SortedBySmallest([])
  {}

  /** Level 2 is no longer sorted, and the search for key 20 ends at the output, which does not hold it, although the
      version does. */
  lemma FlushedKeyIsMissed()
    ensures Reachable(COMPACTING) && Inv(COMPACTING) && Next(COMPACTING, FinishCompaction([JOINED]), OVERLAPPED)
    ensures Reachable(OVERLAPPED) && !HasRoom(COMPACTING, [JOINED]) && !Inv(OVERLAPPED)
    ensures ReadAt(OVERLAPPED, 20.0, 5) == Found([5])
    ensures var files := OVERLAPPED.version[2];
            Search(files, LookupKey(20.0, 5), 0, |files|) == 0 && forall e :: e in files[0].table ==> e.key.user != 20.0
    ensures forall l :: 0 <= l < NUM_LEVELS && l != 2 ==> OVERLAPPED.version[l] == []
  {
    hide Inv, Reachable, Next, ReadAt;
    ReachCompacting();
    CompactionFinishes();
    NoRoom();
    ReachNext(COMPACTING, FinishCompaction([JOINED]), OVERLAPPED);
    StepKeepsInvIff(COMPACTING, FinishCompaction([JOINED]), OVERLAPPED);
    StillStored();
    SearchMisses();
  }

  lemma NoRoom()
    ensures !HasRoom(COMPACTING, [JOINED])
  {
    assert BETWEEN in GROWN[2] && BETWEEN !in CHOSEN[2] && JOINED in [JOINED];
    assert !Apart(BETWEEN, JOINED);
  }

  lemma SearchMisses()
    ensures var files := [JOINED, BETWEEN];
            Search(files, LookupKey(20.0, 5), 0, |files|) == 0 && forall e :: e in JOINED.table ==> e.key.user != 20.0
  {
    var files, key := [JOINED, BETWEEN], LookupKey(20.0, 5);
    assert Search(files, key, 0, 2) == Search(files, key, 0, 1) == Search(files, key, 0, 0);
  }

  lemma StillStored()
    ensures ReadAt(OVERLAPPED, 20.0, 5) == Found([5])
  {
    hide AllEntries, EntriesOf;
    LevelContents([], [JOINED, BETWEEN]);
    ContentsOfTwo(JOINED, BETWEEN);
    NoContents();
    TableOfTwo(SECOND_10, SECOND_30);
    TableOfTwo(ONLY_20, ONLY_20);
    var all := {SECOND_10, SECOND_30, ONLY_20};
    assert All(OVERLAPPED) == all by {
      assert forall t :: Elements(t) == set e | e in t;
    }
    assert IsNewest(all, 20.0, 5, ONLY_20);
    ReadIs(all, 20.0, 5, ONLY_20);
  }
}
