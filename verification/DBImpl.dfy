/** The database object (db/db_impl.cc): its methods are the steps of the engine. */
module DBImpl {
  import opened Keys
  import opened Files
  import opened Versions
  import opened CompactionInputs
  import opened CompactionWork
  import opened VersionBuilder
  import opened Install
  import opened MemTable
  import opened InputIterator
  import opened EngineSteps
  import opened Engine
  import opened WriteBatches
  import DBIterator
  import EngineIterators
  import Lookup
  import WriteReads

  lemma ElementsSnoc(entries: seq<Entry>, i: nat)
    requires i < |entries|
    ensures Elements(entries[..i + 1]) == Elements(entries[..i]) + {entries[i]}
  {
    assert entries[..i + 1] == entries[..i] + [entries[i]];
  }

  /** The batch goes into the memtable entry by entry. */
  method InsertInto(mem: seq<Entry>, batch: seq<Operation>, first: nat) returns (t: seq<Entry>)
    requires Sorted(mem) && forall e :: e in Elements(mem) ==> e.key.sequence < first
    ensures Sorted(t) && Elements(t) == Elements(mem) + Elements(EntriesFor(batch, first))
  {
    hide MemTable.Insert, Sorted;
    ghost var entries := EntriesFor(batch, first);
    t := mem;
    for i := 0 to |batch|
      invariant Sorted(t) && Elements(t) == Elements(mem) + Elements(entries[..i])
      invariant forall e :: e in Elements(t) ==> e.key.sequence < first + i
    {
      var e := EntryFor(batch[i], first + i);
      forall x | x in t ensures x.key != e.key {
        assert x in Elements(t);
      }
      InsertKeepsSorted(t, e);
      ElementsSnoc(entries, i);
      t := MemTable.Insert(t, e);
    }
    assert entries[..|batch|] == entries;
  }

  lemma LevelsSorted(v: Version)
    requires VersionOk(v)
    ensures forall l :: 0 <= l < NUM_LEVELS ==> SortedBySmallest(v[l])
  {
    forall l | 0 <= l < NUM_LEVELS ensures SortedBySmallest(v[l]) {
      assert LevelOk(v, l);
    }
  }

  // ---- Edits -------------------------------------------------------------------------------------

  method AddInputDeletions(c: Compaction) returns (deleted: set<(nat, nat)>)
    ensures forall l: nat, n: nat :: (l, n) in deleted <==> IsInputNumber(c, l, n)
  {
    var a := FileNumbers(c.level, c.inputs0);
    var b := FileNumbers(c.level + 1, c.inputs1);
    deleted := a + b;
  }

  ghost predicate IsInputNumber(c: Compaction, l: nat, n: nat) {
    || (l == c.level && exists f :: f in c.inputs0 && f.number == n)
    || (l == c.level + 1 && exists f :: f in c.inputs1 && f.number == n)
  }

  method FileNumbers(level: nat, files: seq<File>) returns (r: set<(nat, nat)>)
    ensures forall l: nat, n: nat :: (l, n) in r <==> l == level && exists f :: f in files && f.number == n
  {
    r := {};
    for i := 0 to |files|
      invariant forall l: nat, n: nat :: (l, n) in r <==> l == level && exists j :: 0 <= j < i && files[j].number == n
    {
      r := r + {(level, files[i].number)};
    }
  }

  function AddedTo(level: nat, files: seq<File>): (added: seq<(nat, File)>)
    ensures |added| == |files|
  {
    seq(|files|, i requires 0 <= i < |files| => (level, files[i]))
  }

  /** Deleting the inputs and adding the outputs installs a compaction. */
  lemma EditInstalls(v: Version, c: Compaction, deleted: set<(nat, nat)>, outputs: seq<File>, v2: Version)
    requires NumbersDistinct(v) && |v| == |v2| == NUM_LEVELS && c.level + 1 < NUM_LEVELS
    requires Includes(v[c.level], c.inputs0) && Includes(v[c.level + 1], c.inputs1)
    requires forall l: nat, n: nat :: (l, n) in deleted <==> IsInputNumber(c, l, n)
    requires forall l :: 0 <= l < NUM_LEVELS ==> SortedBySmallest(v2[l])
    requires forall l :: 0 <= l < NUM_LEVELS ==>
      FileSet(v2[l]) == ApplyToLevel(FileSet(v[l]), Edit(deleted, AddedTo(c.level + 1, outputs)), l)
    ensures Installed(v, v2, c, outputs)
  {
    forall l | 0 <= l < NUM_LEVELS
      ensures FileSet(v2[l]) == FileSet(v[l]) - (if l == c.level then FileSet(c.inputs0) else if l == c.level + 1 then FileSet(c.inputs1) else {})
        + (if l == c.level + 1 then FileSet(outputs) else {})
    {
      AddedAtLevel(c.level + 1, outputs, l);
      RemainingFiles(v, c, deleted, l);
    }
  }

  lemma AddedAtLevel(level: nat, files: seq<File>, l: nat)
    ensures AddedAt(AddedTo(level, files), l) == if l == level then FileSet(files) else {}
  {
    forall f | f in files ensures (level, f) in AddedTo(level, files) {
      var i :| 0 <= i < |files| && files[i] == f;
      assert AddedTo(level, files)[i] == (level, f);
    }
  }

  lemma RemainingFiles(v: Version, c: Compaction, deleted: set<(nat, nat)>, l: nat)
    requires NumbersDistinct(v) && |v| == NUM_LEVELS && c.level + 1 < NUM_LEVELS && l < NUM_LEVELS
    requires Includes(v[c.level], c.inputs0) && Includes(v[c.level + 1], c.inputs1)
    requires forall l: nat, n: nat :: (l, n) in deleted <==> IsInputNumber(c, l, n)
    ensures Without(FileSet(v[l]), deleted, l)
         == FileSet(v[l]) - if l == c.level then FileSet(c.inputs0) else if l == c.level + 1 then FileSet(c.inputs1) else {}
  {
    var inputs := if l == c.level then c.inputs0 else if l == c.level + 1 then c.inputs1 else [];
    forall f | f in v[l] ensures (l, f.number) in deleted <==> f in inputs {
      if (l, f.number) in deleted {
        var g :| g in inputs && g.number == f.number;
        assert g in v[l];
      }
    }
  }

  /** A file number of the edit that is new to the version is new to every level. */
  lemma NewNumbersOk(v: Version, edit: Edit, level: nat, files: seq<File>)
    requires |v| == NUM_LEVELS && level < NUM_LEVELS && edit.added == AddedTo(level, files)
    requires forall i, j :: 0 <= i < j < |files| ==> files[i].number != files[j].number
    requires forall i, f :: 0 <= i < |files| && f in v[level] ==> f.number != files[i].number
    ensures EditOk(v, edit)
  {}

  method BuildTable(t: seq<Entry>, number: nat, size: nat) returns (f: File)
    requires t != []
    ensures f == File(number, size, t[0].key, t[|t| - 1].key, t)
  {
    f := File(number, size, t[0].key, t[|t| - 1].key, t);
  }

  class DB {
    const maxFileSize: nat
    const fileSize: seq<Entry> -> nat
    const versions: VersionSet
    var mem: seq<Entry>
    var imm: Option<seq<Entry>>
    var lastSequence: nat
    var snapshots: seq<nat>
    var nextFile: nat
    var job: Option<Job>

    ghost function Abs(): State
      reads this, versions
    {
      State(mem, imm, versions.current, lastSequence, snapshots, nextFile, job)
    }

    ghost predicate Valid()
      reads this, versions
    {
      versions.Valid() && Inv(Abs())
    }

    /** A new database; the manifest and the log have taken the first file numbers. */
    constructor (maxFileSize: nat, fileSize: seq<Entry> -> nat)
      ensures Valid() && All(Abs()) == {} && fresh(versions)
    {
      var empty: Version := seq(NUM_LEVELS, _ => []);
      EmptyIsOk(empty);
      this.maxFileSize, this.fileSize := maxFileSize, fileSize;
      versions := new VersionSet(empty, maxFileSize);
      mem, imm, lastSequence, snapshots, nextFile, job := [], None, 0, [], 4, None;
    }

    /** A client's write, once it is its turn. */
    method Write(batch: seq<Operation>)
      requires Valid() && lastSequence + |batch| < MAX_SEQUENCE
      modifies this
      ensures Valid() && Next(old(Abs()), Step.Write(EntriesFor(batch, old(lastSequence) + 1)), Abs())
      ensures lastSequence == old(lastSequence) + |batch|
      ensures forall u, i :: WriteReads.IsLastOn(batch, u, i) ==>
        ReadAt(Abs(), u, lastSequence) == if batch[i].Put? then Found(batch[i].value) else NotFound
      ensures forall u :: (forall i :: 0 <= i < |batch| ==> batch[i].key != u) ==>
        ReadAt(Abs(), u, lastSequence) == old(ReadAt(Abs(), u, lastSequence))
    {
      ghost var before := Abs();
      MemTableBounded(before);
      mem := InsertInto(mem, batch, lastSequence + 1);
      lastSequence := lastSequence + |batch|;
      WriteIsStep(before, batch, Abs());
      WriteReads.BatchIsRead(before, batch, Abs());
    }

    /** A full memtable makes room for the next, and a new log takes a file number. */
    method SwitchMemTable()
      requires Valid() && imm.None?
      modifies this
      ensures Valid() && Next(old(Abs()), Step.SwitchMemTable, Abs())
    {
      ghost var before := Abs();
      mem, imm, nextFile := [], Some(mem), nextFile + 1;
      StepKeepsInvIff(before, Step.SwitchMemTable, Abs());
    }

    method GetSnapshot() returns (q: nat)
      requires Valid()
      modifies this
      ensures Valid() && Next(old(Abs()), TakeSnapshot, Abs()) && q == lastSequence
    {
      ghost var before := Abs();
      q := lastSequence;
      snapshots := snapshots + [q];
      StepKeepsInvIff(before, TakeSnapshot, Abs());
    }

    method ReleaseSnapshot(i: nat)
      requires Valid() && i < |snapshots|
      modifies this
      ensures Valid() && Next(old(Abs()), Step.ReleaseSnapshot(i), Abs())
    {
      ghost var before := Abs();
      snapshots := snapshots[..i] + snapshots[i + 1..];
      StepKeepsInvIff(before, Step.ReleaseSnapshot(i), Abs());
    }

    /** A read at a snapshot, or at the latest sequence number. */
    method Get(u: UserKey, snapshot: Option<nat>) returns (answer: Answer)
      requires Valid()
      ensures answer == ReadAt(Abs(), u, if snapshot.Some? then snapshot.value else lastSequence)
    {
      var q := if snapshot.Some? then snapshot.value else lastSequence;
      answer := Lookup.Get(mem, imm, versions.current, u, q);
    }

    /** An iterator at a snapshot, or at the latest sequence number: with whatever calls, it shows the user keys that
        reads there find, in order, and their values. */
    method NewIterator(snapshot: Option<nat>) returns (it: DBIterator.DBIter)
      requires Valid()
      ensures fresh(it) && fresh(it.iter) && fresh(it.iter.children) && it.Inv() && !it.Abs().Valid()
      ensures it.sequence == if snapshot.Some? then snapshot.value else lastSequence
      ensures EngineIterators.Shows(Abs(), it.Abs().entries, it.sequence)
    {
      var internal := EngineIterators.NewInternalIterator(State(mem, imm, versions.current, lastSequence, snapshots, nextFile, job));
      it := new DBIterator.DBIter(internal, if snapshot.Some? then snapshot.value else lastSequence);
      EngineIterators.InternalShows(Abs(), internal, it.sequence);
    }

    /** Writes the immutable memtable to a table, as deep as nothing overlaps it. */
    method CompactMemTable() returns (level: nat)
      requires Valid() && imm.Some?
      modifies this, versions
      ensures Valid() && Next(old(Abs()), Flush(level), Abs()) && imm.None?
      ensures old(imm.value != []) ==>
        var t := old(imm.value); SinksTo(old(versions.current), t[0].key.user, t[|t| - 1].key.user, maxFileSize, level)
    {
      hide JobOk, MemoryNewer, EntriesOk, SnapshotsOk, NumbersOk, SinksTo;
      ghost var before := Abs();
      level := 0;
      if imm.value == [] {
        imm, nextFile := None, nextFile + 1;
      } else {
        var f := BuildTable(imm.value, nextFile, fileSize(imm.value));
        level := LevelForFlush(f);
        var v := AddFile(f, level);
        imm, nextFile, versions.current := None, nextFile + 1, v;
        assert FlushesTo(before, level, FlushedFile(before, f.size), Abs());
      }
      StepKeepsInvIff(before, Flush(level), Abs());
    }

    /** Background work with nothing to flush: picks a compaction, and moves a single file that has
        nothing to merge with. */
    method BackgroundCompaction(sizeLevel: Option<nat>, seekFile: Option<(nat, File)>) returns (c: Option<Compaction>)
      requires Valid() && job.None?
      requires sizeLevel.Some? ==> sizeLevel.value + 1 < NUM_LEVELS && versions.current[sizeLevel.value] != []
      requires seekFile.Some? ==> seekFile.value.0 + 1 < NUM_LEVELS && seekFile.value.1 in versions.current[seekFile.value.0]
      modifies this, versions
      ensures Valid()
      ensures c.None? <==> sizeLevel.None? && seekFile.None?
      ensures c.None? ==> Abs() == old(Abs())
      ensures c.Some? ==> Next(old(Abs()),
        if |c.value.inputs0| == 1 && c.value.inputs1 == [] && TotalFileSize(c.value.grandparents) <= 10 * maxFileSize
        then TrivialMove(c.value) else StartCompaction(c.value), Abs())
    {
      c := versions.PickCompaction(sizeLevel, seekFile);
      if c.None? {
        return;
      }
      if IsTrivialMove(c.value, maxFileSize) {
        MoveFile(c.value);
      } else {
        Start(c.value);
      }
    }

    /** A manual compaction never moves a file as it is. */
    method ManualCompaction(level: nat, begin: Option<InternalKey>, end: Option<InternalKey>) returns (c: Option<Compaction>)
      requires Valid() && job.None? && level + 1 < NUM_LEVELS
      modifies this, versions
      ensures Valid()
      ensures c.None? ==> Abs() == old(Abs())
      ensures c.Some? ==> Next(old(Abs()), StartCompaction(c.value), Abs())
    {
      c := versions.CompactRange(level, begin, end);
      if c.Some? {
        Start(c.value);
      }
    }

    method Start(c: Compaction)
      requires Valid() && job.None? && SoundInputs(versions.current, c)
      modifies this
      ensures Valid() && Next(old(Abs()), StartCompaction(c), Abs())
    {
      ghost var before := Abs();
      var smallest := if snapshots == [] then lastSequence else snapshots[0];
      job := Some(Job(c, versions.current, smallest));
      StepKeepsInvIff(before, StartCompaction(c), Abs());
    }

    method MoveFile(c: Compaction)
      requires Valid() && job.None? && SoundInputs(versions.current, c) && IsTrivialMove(c, maxFileSize)
      modifies versions
      ensures Valid() && Next(old(Abs()), TrivialMove(c), Abs())
    {
      ghost var before := Abs();
      MoveEditOk(versions.current, c);
      var v := Install(c, c.inputs0);
      versions.current := v;
      StepKeepsInvIff(before, TrivialMove(c), Abs());
    }

    /** The edit of a compaction: its inputs go, its outputs come. */
    method Install(c: Compaction, outputs: seq<File>) returns (v: Version)
      requires Valid() && c.level + 1 < NUM_LEVELS
      requires Includes(versions.current[c.level], c.inputs0) && Includes(versions.current[c.level + 1], c.inputs1)
      requires EditOk(versions.current, Edit({}, AddedTo(c.level + 1, outputs)))
      ensures Installed(versions.current, v, c, outputs)
    {
      var deleted := AddInputDeletions(c);
      LevelsSorted(versions.current);
      v := ApplyEdit(versions.current, Edit(deleted, AddedTo(c.level + 1, outputs)));
      EditInstalls(versions.current, c, deleted, outputs, v);
    }

    /** The work of a compaction and its installation, whatever was written and flushed since it
        started.  The database is in order afterwards if and only if nothing was flushed into the range of an output. */
    method FinishCompaction() returns (outputs: seq<File>)
      requires Valid() && job.Some?
      modifies this, versions
      ensures Next(old(Abs()), Step.FinishCompaction(outputs), Abs())
      ensures Inv(Abs()) <==> HasRoom(old(Abs()), outputs)
      ensures HasRoom(old(Abs()), outputs) ==> Valid()
    {
      hide Inv, Next, Finishes, HasRoom, Survivors, EditOk, Includes, Installed;
      ghost var before := Abs();
      var c := job.value.compaction;
      outputs := DoCompaction();
      OutputEditOk(before, outputs);
      var v := Install(c, outputs);
      nextFile, job, versions.current := nextFile + |outputs|, None, v;
      FinishIsStep(before, outputs, Abs());
      VersionInOrder(Abs());
    }

    /** Merges the inputs and writes what survives. */
    method DoCompaction() returns (outputs: seq<File>)
      requires Valid() && job.Some?
      ensures FilesOk(outputs) && DisjointSorted(outputs)
      ensures EntriesOf(outputs) == Survivors(job.value.inputVersion, job.value.compaction.level,
                                              InputEntries(job.value.compaction), job.value.smallestSnapshot)
      ensures forall i :: 0 <= i < |outputs| ==> outputs[i].number == nextFile + i
      ensures exists input, stops ::
        && Elements(input) == InputEntries(job.value.compaction) && Sorted(input)
        && AreStops(job.value.compaction.grandparents, input, 10 * maxFileSize, |input|, stops)
        && TablesWellCut(outputs, input, stops, fileSize, maxFileSize)
    {
      hide Inv, VersionOk, SoundInputs, Sorted, Survivors, FilesOk, DisjointSorted, AreStops, TablesWellCut;
      var j := job.value;
      var c := j.compaction;
      InputIsOk(Abs());
      var input := ReadInputs(j.inputVersion, c);
      var state := new CompactionState(j.inputVersion, c.level, input, j.smallestSnapshot, nextFile, maxFileSize, fileSize);
      state.DoCompactionWork(c.grandparents);
      outputs := state.outputs;
      assert AreStops(c.grandparents, input, 10 * maxFileSize, |input|, state.stops);
    }

    method LevelForFlush(f: File) returns (level: nat)
      requires Valid()
      ensures SinksTo(versions.current, f.smallest.user, f.largest.user, maxFileSize, level)
    {
      level := PickLevelForMemTableOutput(versions.current, f.smallest.user, f.largest.user, maxFileSize);
    }

    method AddFile(f: File, level: nat) returns (v: Version)
      requires Valid() && level < NUM_LEVELS && f.number == nextFile
      ensures FileAdded(versions.current, v, level, f)
    {
      var edit := Edit({}, AddedTo(level, [f]));
      NewNumbersOk(versions.current, edit, level, [f]);
      LevelsSorted(versions.current);
      v := ApplyEdit(versions.current, edit);
      forall l | 0 <= l < NUM_LEVELS
        ensures FileSet(v[l]) == FileSet(versions.current[l]) + if l == level then {f} else {}
      {
        AddedAtLevel(level, [f], l);
        assert Without(FileSet(versions.current[l]), {}, l) == FileSet(versions.current[l]);
      }
    }
  }

  predicate IsTrivialMove(c: Compaction, maxFileSize: nat) {
    |c.inputs0| == 1 && c.inputs1 == [] && TotalFileSize(c.grandparents) <= 10 * maxFileSize
  }

  lemma WriteIsStep(s: State, batch: seq<Operation>, s2: State)
    requires Inv(s) && s.lastSequence + |batch| < MAX_SEQUENCE
    requires s2 == s.(mem := s2.mem, lastSequence := s.lastSequence + |batch|)
    requires Sorted(s2.mem) && Elements(s2.mem) == Elements(s.mem) + Elements(EntriesFor(batch, s.lastSequence + 1))
    ensures Inv(s2) && Next(s, Step.Write(EntriesFor(batch, s.lastSequence + 1)), s2)
  {
    StepKeepsInvIff(s, Step.Write(EntriesFor(batch, s.lastSequence + 1)), s2);
  }

  lemma VersionInOrder(s: State)
    ensures Inv(s) ==> VersionOk(s.version)
  {}

  lemma FinishIsStep(s: State, outputs: seq<File>, s2: State)
    requires Inv(s) && s.job.Some?
    requires var j := s.job.value;
      && FilesOk(outputs) && DisjointSorted(outputs)
      && EntriesOf(outputs) == Survivors(j.inputVersion, j.compaction.level, InputEntries(j.compaction), j.smallestSnapshot)
      && (forall i :: 0 <= i < |outputs| ==> outputs[i].number == s.nextFile + i)
      && Installed(s.version, s2.version, j.compaction, outputs)
    requires s2 == s.(version := s2.version, nextFile := s.nextFile + |outputs|, job := None)
    ensures Next(s, Step.FinishCompaction(outputs), s2) && (Inv(s2) <==> HasRoom(s, outputs))
  {
    StepKeepsInvIff(s, Step.FinishCompaction(outputs), s2);
  }

  lemma InputIsOk(s: State)
    requires Inv(s) && s.job.Some?
    ensures var j := s.job.value;
            && VersionOk(j.inputVersion) && SoundInputs(j.inputVersion, j.compaction) && Distinct(AllEntries(j.inputVersion))
            && InputEntries(j.compaction) <= AllEntries(j.inputVersion)
            && (forall e :: e in AllEntries(j.inputVersion) ==> e.key.sequence <= MAX_SEQUENCE)
            && j.smallestSnapshot < MAX_SEQUENCE
  {
    var j := s.job.value;
    InputsNewer(j.inputVersion, j.compaction);
    GrownEntries(j.inputVersion, s.version);
    assert AllEntries(s.version) <= All(s);
  }

  lemma OutputEditOk(s: State, outputs: seq<File>)
    requires Inv(s) && s.job.Some?
    requires forall i :: 0 <= i < |outputs| ==> outputs[i].number == s.nextFile + i
    ensures var c := s.job.value.compaction;
            && c.level + 1 < NUM_LEVELS
            && Includes(s.version[c.level], c.inputs0) && Includes(s.version[c.level + 1], c.inputs1)
            && EditOk(s.version, Edit({}, AddedTo(c.level + 1, outputs)))
  {
    var c := s.job.value.compaction;
    GrownInputsIncluded(s.job.value.inputVersion, s.version, c);
    NewNumbersOk(s.version, Edit({}, AddedTo(c.level + 1, outputs)), c.level + 1, outputs);
  }

  lemma MoveEditOk(v: Version, c: Compaction)
    requires |v| == NUM_LEVELS && NumbersDistinct(v) && c.level + 1 < NUM_LEVELS && |c.inputs0| == 1
    requires Includes(v[c.level], c.inputs0)
    ensures EditOk(v, Edit({}, AddedTo(c.level + 1, c.inputs0)))
  {
    assert c.inputs0[0] in v[c.level];
    NewNumbersOk(v, Edit({}, AddedTo(c.level + 1, c.inputs0)), c.level + 1, c.inputs0);
  }

  lemma MemTableBounded(s: State)
    requires Inv(s)
    ensures Sorted(s.mem) && forall e :: e in Elements(s.mem) ==> e.key.sequence <= s.lastSequence
  {
    assert Elements(s.mem) <= All(s);
  }
}
