module RecoveredReads {
  // What a database reads after crashes and recoveries: the tables of `Durability` with the entries that they really
  // hold, some of which compactions have dropped.

  import opened Keys
  import opened Files
  import opened CompactionWork
  import opened CompactionTheorem
  import opened Disks
  import opened Recovery
  import Steps = DurabilitySteps
  import Runs = Durability

  /** The entries of the write groups. */
  type Groups = Record -> set<Entry>

  /** A group's entries have its sequence numbers, each once. */
  ghost predicate GroupsOk(groups: Groups) {
    forall r: Record :: (forall e :: e in groups(r) ==> r.first <= e.key.sequence <= r.last) && Distinct(groups(r))
  }

  ghost function EntriesIn(groups: Groups, records: set<Record>): set<Entry> {
    set r, e | r in records && e in groups(r) :: e
  }

  /** What the tables of a version hold. */
  ghost function Stored(contents: map<nat, set<Entry>>, version: set<nat>): set<Entry> {
    set t, e | t in version && t in contents && e in contents[t] :: e
  }

  /** What a reader sees of tables and logs after a recovery. */
  ghost function Readable(groups: Groups, d: Disk, contents: map<nat, set<Entry>>): set<Entry> {
    Stored(contents, d.manifest.version) + EntriesIn(groups, InLogsFrom(d, d.manifest.logNumber))
  }

  /** Reads of the latest value agree. */
  ghost predicate SameLatest(a: set<Entry>, b: set<Entry>) {
    forall u :: Read(a, u, MAX_SEQUENCE) == Read(b, u, MAX_SEQUENCE)
  }

  // ---- Reads over collections ----------------------------------------------------------------------------------------

  lemma ReadOver(a: set<Entry>, x: set<Entry>, u: UserKey, s: nat)
    requires Distinct(a + x) && Newer(x, a)
    ensures Read(a + x, u, s) == if exists e :: e in x && Visible(e, u, s) then Read(x, u, s) else Read(a, u, s)
  {
    if exists e :: e in x && Visible(e, u, s) {
      NewestExists(x, u, s);
      var n :| IsNewest(x, u, s, n);
      assert IsNewest(x, u, s, n) && IsNewest(a + x, u, s, n);
      ReadIs(x, u, s, n);
      ReadIs(a + x, u, s, n);
    } else {
      ReadSameVisible(a + x, a, u, s, s);
    }
  }

  /** Newer entries on top of collections that read alike. */
  lemma SameLatestBelow(a: set<Entry>, b: set<Entry>, x: set<Entry>)
    requires SameLatest(a, b) && a <= b && Distinct(b + x) && Newer(x, b)
    ensures SameLatest(a + x, b + x)
  {
    forall u ensures Read(a + x, u, MAX_SEQUENCE) == Read(b + x, u, MAX_SEQUENCE) {
      ReadOver(a, x, u, MAX_SEQUENCE);
      ReadOver(b, x, u, MAX_SEQUENCE);
    }
  }

  // ---- Groups in order -----------------------------------------------------------------------------------------------

  /** No sequence number is in two records. */
  ghost predicate RecordsApart(records: set<Record>) {
    forall r, q :: r in records && q in records ==> r == q || r.last < q.first || q.last < r.first
  }

  ghost predicate Before(a: set<Record>, b: set<Record>) {
    forall r, q :: r in a && q in b ==> r.last < q.first
  }

  lemma GroupsDistinct(groups: Groups, records: set<Record>)
    requires GroupsOk(groups) && RecordsApart(records)
    ensures Distinct(EntriesIn(groups, records))
  {
    forall x, y | x in EntriesIn(groups, records) && y in EntriesIn(groups, records)
      && x.key.user == y.key.user && x.key.sequence == y.key.sequence ensures x == y
    {
      var r :| r in records && x in groups(r);
      var q :| q in records && y in groups(q);
      assert r == q;
    }
  }

  lemma GroupsNewer(groups: Groups, a: set<Record>, b: set<Record>)
    requires GroupsOk(groups) && Before(a, b)
    ensures Newer(EntriesIn(groups, b), EntriesIn(groups, a))
  {}

  lemma EntriesJoin(groups: Groups, a: set<Record>, b: set<Record>)
    ensures EntriesIn(groups, a + b) == EntriesIn(groups, a) + EntriesIn(groups, b)
  {}

  // ---- The invariant -------------------------------------------------------------------------------------------------

  /** What the version accounts for comes before the records of the logs, and no two records share a sequence number. */
  ghost predicate InOrder(d: Disk) {
    && Before(Settled(d), InLogsFrom(d, d.manifest.logNumber))
    && RecordsApart(Recovered(d))
  }

  /** What the tables hold reads like everything that the version accounts for. */
  ghost predicate ContentsOk(groups: Groups, d: Disk, contents: map<nat, set<Entry>>) {
    var all := EntriesIn(groups, Settled(d));
    Stored(contents, d.manifest.version) <= all && SameLatest(Stored(contents, d.manifest.version), all)
  }

  /** A table that a flush has built holds the whole memtable. */
  ghost predicate BuiltHolds(groups: Groups, s: Steps.State, contents: map<nat, set<Entry>>) {
    s.memory.Some? && s.memory.value.flush.Built? && s.memory.value.imm.Some? && !NoEntries(s.memory.value.imm.value) ==>
      var t := s.memory.value.flush.table;
      t in contents && contents[t] == EntriesIn(groups, s.memory.value.imm.value)
  }

  ghost predicate Inv(groups: Groups, s: Steps.State, contents: map<nat, set<Entry>>) {
    Steps.Inv(s) && InOrder(s.disk) && ContentsOk(groups, s.disk, contents) && BuiltHolds(groups, s, contents)
  }

  /** With the invariant, recovery reads what all existing writes together say. */
  lemma ReadsAgree(groups: Groups, s: Steps.State, contents: map<nat, set<Entry>>)
    requires GroupsOk(groups) && Inv(groups, s, contents)
    ensures SameLatest(Readable(groups, s.disk, contents), EntriesIn(groups, s.written))
  {
    hide InTables, InLogsFrom, Read;
    var tables, logs := Settled(s.disk), InLogsFrom(s.disk, s.disk.manifest.logNumber);
    EntriesJoin(groups, tables, logs);
    GroupsDistinct(groups, tables + logs);
    GroupsNewer(groups, tables, logs);
    SameLatestBelow(Stored(contents, s.disk.manifest.version), EntriesIn(groups, tables), EntriesIn(groups, logs));
  }

  // ---- Steps ---------------------------------------------------------------------------------------------------------

  /** The tables that a compaction leaves in place of its inputs hold what its loop keeps, and no value resurfaces, whatever
      a crash may leave of the logs. */
  ghost predicate Merges(contents: map<nat, set<Entry>>, version: set<nat>, c: Steps.Compaction) {
    exists v, level, snapshot ::
      MergesAs(v, level, snapshot, Stored(contents, c.inputs), Stored(contents, version - c.inputs), Stored(contents, c.outputs))
  }

  ghost predicate MergesAs(v: Version, level: nat, snapshot: nat, inputs: set<Entry>, others: set<Entry>, outputs: set<Entry>) {
    && snapshot <= MAX_SEQUENCE && outputs == Survivors(v, level, inputs, snapshot)
    && NothingResurfaces(v, level, inputs, others, snapshot)
  }

  ghost predicate AgreeOutside(files: set<nat>, contents: map<nat, set<Entry>>, contents2: map<nat, set<Entry>>) {
    forall t :: t !in files ==> (t in contents <==> t in contents2) && (t in contents ==> contents2[t] == contents[t])
  }

  /** What a step does to the contents of tables. */
  ghost predicate Changes(groups: Groups, s: Steps.State, contents: map<nat, set<Entry>>, step: Steps.Step, s2: Steps.State,
                          contents2: map<nat, set<Entry>>) {
    match step
    case FlushBuilt =>
      && s.memory.Some? && s.memory.value.flush.Building? && s.memory.value.imm.Some?
      && contents2 == if NoEntries(s.memory.value.imm.value) then contents
                      else contents[s.memory.value.flush.table := EntriesIn(groups, s.memory.value.imm.value)]
    case CompactionOutput(_) => s.memory.Some? && AgreeOutside({s.memory.value.nextFile}, contents, contents2)
    case CompactionCommit =>
      && s.memory.Some? && s.memory.value.compaction.Some?
      && Merges(contents, s.disk.manifest.version, s.memory.value.compaction.value) && contents2 == contents
    case DeleteObsoleteFiles => contents2 == map t | t in contents && t in s2.disk.tables :: contents[t]
    case Recover(_, _, _) =>
      contents2 == contents + map t | t in s2.disk.tables && t in s2.disk.manifest.version - s.disk.manifest.version
                                :: EntriesIn(groups, s2.disk.tables[t])
    case Interrupt(tables, _) => AgreeOutside(tables.Keys, contents, contents2)
    case _ => contents2 == contents
  }

  // ---- The order of records ------------------------------------------------------------------------------------------

  lemma SameOrder(d: Disk, d2: Disk)
    requires InOrder(d)
    requires Settled(d2) <= Settled(d)
    requires InLogsFrom(d2, d2.manifest.logNumber) <= InLogsFrom(d, d.manifest.logNumber)
    ensures InOrder(d2)
  {
    hide InTables, InLogsFrom;
  }

  lemma WriteKeepsOrder(d: Disk, m: Steps.Memory, r: Record, d2: Disk)
    requires InOrder(d) && Steps.NumbersOk(d, m) && r.first == m.lastSequence + 1
    requires Settled(d2) == Settled(d)
    requires InLogsFrom(d2, d2.manifest.logNumber) == InLogsFrom(d, d.manifest.logNumber) + {r}
    ensures InOrder(d2)
  {
    hide InTables, InLogsFrom;
    assert forall q :: q in Recovered(d) ==> q.last < r.first;
    assert Recovered(d2) == Recovered(d) + {r};
  }

  /** Records move from the first of the logs into tables. */
  lemma MoveKeepsOrder(d: Disk, moved: set<Record>, d2: Disk)
    requires InOrder(d) && moved <= InLogsFrom(d, d.manifest.logNumber)
    requires Settled(d2) == Settled(d) + moved
    requires InLogsFrom(d2, d2.manifest.logNumber) <= InLogsFrom(d, d.manifest.logNumber)
    requires Before(moved, InLogsFrom(d2, d2.manifest.logNumber))
    ensures InOrder(d2)
  {
    hide InTables, InLogsFrom;
    assert Recovered(d2) <= Recovered(d);
  }

  /** The logs before one of them, and that log. */
  lemma EarlierLogs(d: Disk, n: nat)
    requires LogsOrdered(d) && d.manifest.logNumber <= n && forall k :: k in d.logs ==> k <= n
    ensures Before(InLogs(d, d.manifest.logNumber, n), InLogsFrom(d, n))
    ensures InLogs(d, d.manifest.logNumber, n) <= InLogsFrom(d, d.manifest.logNumber)
    ensures InLogsFrom(d, n) <= InLogsFrom(d, d.manifest.logNumber)
  {
    forall r, q | r in InLogs(d, d.manifest.logNumber, n) && q in InLogsFrom(d, n) ensures r.last < q.first {
      var k :| k in d.logs && d.manifest.logNumber <= k < n && r in d.logs[k].records;
      var j :| j in d.logs && n <= j && q in d.logs[j].records;
      assert AllBefore(d.logs[k].records, d.logs[j].records);
    }
    forall q | q in InLogsFrom(d, n) ensures q in InLogsFrom(d, d.manifest.logNumber) {
      var j :| j in d.logs && n <= j && q in d.logs[j].records;
      InLogsMember(d, d.manifest.logNumber, j, q);
    }
  }

  // ---- Contents ------------------------------------------------------------------------------------------------------

  lemma SameContents(groups: Groups, d: Disk, contents: map<nat, set<Entry>>, d2: Disk, contents2: map<nat, set<Entry>>)
    requires ContentsOk(groups, d, contents) && d2.manifest.version == d.manifest.version && Settled(d2) == Settled(d)
    requires Stored(contents2, d.manifest.version) == Stored(contents, d.manifest.version)
    ensures ContentsOk(groups, d2, contents2)
  {
    hide InTables, Stored, SameLatest;
  }

  lemma SameStored(contents: map<nat, set<Entry>>, contents2: map<nat, set<Entry>>, version: set<nat>)
    requires forall t :: t in version ==> (t in contents <==> t in contents2) && (t in contents ==> contents2[t] == contents[t])
    ensures Stored(contents2, version) == Stored(contents, version)
  {
    forall e | e in Stored(contents, version) ensures e in Stored(contents2, version) {
      var t :| t in version && t in contents && e in contents[t];
      assert t in contents2 && e in contents2[t];
    }
    forall e | e in Stored(contents2, version) ensures e in Stored(contents, version) {
      var t :| t in version && t in contents2 && e in contents2[t];
      assert t in contents && e in contents[t];
    }
  }

  lemma StoredJoin(contents: map<nat, set<Entry>>, a: set<nat>, b: set<nat>)
    ensures Stored(contents, a + b) == Stored(contents, a) + Stored(contents, b)
  {}

  lemma StoredOne(contents: map<nat, set<Entry>>, t: nat)
    requires t in contents
    ensures Stored(contents, {t}) == contents[t]
  {}

  /** Whole groups join the tables. */
  lemma ContentsGrow(groups: Groups, d: Disk, contents: map<nat, set<Entry>>, moved: set<Record>, d2: Disk, contents2: map<nat, set<Entry>>)
    requires GroupsOk(groups) && ContentsOk(groups, d, contents) && InOrder(d) && moved <= InLogsFrom(d, d.manifest.logNumber)
    requires Settled(d2) == Settled(d) + moved
    requires Stored(contents2, d2.manifest.version) == Stored(contents, d.manifest.version) + EntriesIn(groups, moved)
    ensures ContentsOk(groups, d2, contents2)
  {
    hide InTables, Stored, InLogsFrom, SameLatest, EntriesIn, Distinct, Newer;
    var tables := Settled(d);
    EntriesJoin(groups, tables, moved);
    assert RecordsApart(tables + moved) && Before(tables, moved);
    GroupsDistinct(groups, tables + moved);
    GroupsNewer(groups, tables, moved);
    SameLatestBelow(Stored(contents, d.manifest.version), EntriesIn(groups, tables), EntriesIn(groups, moved));
  }

  /** A clean compaction takes the place of its inputs. */
  lemma MergeKeepsContents(groups: Groups, d: Disk, contents: map<nat, set<Entry>>, c: Steps.Compaction, d2: Disk)
    requires GroupsOk(groups) && ContentsOk(groups, d, contents) && InOrder(d) && c.inputs <= d.manifest.version
    requires Merges(contents, d.manifest.version, c) && d2.manifest.version == d.manifest.version - c.inputs + c.outputs
    requires Settled(d2) == Settled(d)
    ensures ContentsOk(groups, d2, contents)
  {
    hide InTables, Stored, InLogsFrom, EntriesIn, Distinct, Read, NothingResurfaces, Survivors;
    var v, level, snapshot :|
      MergesAs(v, level, snapshot, Stored(contents, c.inputs), Stored(contents, d.manifest.version - c.inputs), Stored(contents, c.outputs));
    var inputs, others := Stored(contents, c.inputs), Stored(contents, d.manifest.version - c.inputs);
    var all := EntriesIn(groups, Settled(d));
    StoredJoin(contents, d.manifest.version - c.inputs, c.inputs);
    StoredJoin(contents, d.manifest.version - c.inputs, c.outputs);
    assert d.manifest.version - c.inputs + c.inputs == d.manifest.version;
    assert RecordsApart(Settled(d));
    GroupsDistinct(groups, Settled(d));
    assert inputs + others == Stored(contents, d.manifest.version);
    PartDistinct(all, inputs + others);
    CompactionPreservesReadsIff(v, level, inputs, others, snapshot);
    SurvivorsAreInputs(v, level, inputs, snapshot);
    LatestPreserved(inputs + others, Survivors(v, level, inputs, snapshot) + others, snapshot);
    assert Stored(contents, d2.manifest.version) == Survivors(v, level, inputs, snapshot) + others;
  }

  lemma PartDistinct(a: set<Entry>, b: set<Entry>)
    requires Distinct(a) && b <= a
    ensures Distinct(b)
  {}

  lemma SurvivorsAreInputs(v: Version, level: nat, inputs: set<Entry>, snapshot: nat)
    ensures Survivors(v, level, inputs, snapshot) <= inputs
  {}

  lemma LatestPreserved(a: set<Entry>, b: set<Entry>, snapshot: nat)
    requires ReadsPreserved(a, b, snapshot) && snapshot <= MAX_SEQUENCE
    ensures SameLatest(a, b)
  {}

  // ---- Every step keeps the invariant --------------------------------------------------------------------------------

  lemma WriteKeeps(groups: Groups, s: Steps.State, contents: map<nat, set<Entry>>, r: Record, sync: bool, s2: Steps.State)
    requires Inv(groups, s, contents) && s.memory.Some? && Steps.Writes(s.disk, s.memory.value, r, sync, s, s2)
    ensures InOrder(s2.disk) && ContentsOk(groups, s2.disk, contents) && BuiltHolds(groups, s2, contents)
  {
    hide InOrder, ContentsOk, DiskOk, InTables, InLogsFrom, InLogs;
    var d, m := s.disk, s.memory.value;
    Steps.AppendedSets(d, m.logFile, r, s2.disk.logs[m.logFile].synced);
    Steps.SameTables(d, s2.disk, d.manifest.version);
    WriteKeepsOrder(d, m, r, s2.disk);
    SameContents(groups, d, contents, s2.disk, contents);
  }

  lemma SwitchKeeps(groups: Groups, s: Steps.State, contents: map<nat, set<Entry>>, s2: Steps.State)
    requires Inv(groups, s, contents) && s.memory.Some? && Steps.Switches(s.disk, s.memory.value, s, s2)
    ensures InOrder(s2.disk) && ContentsOk(groups, s2.disk, contents) && BuiltHolds(groups, s2, contents)
  {
    hide InOrder, ContentsOk, InTables, InLogsFrom, InLogs, LogsOrdered, Recovered;
    var d, m := s.disk, s.memory.value;
    Steps.NewLog(d, m.nextFile);
    Steps.SameTables(d, s2.disk, d.manifest.version);
    SameOrder(d, s2.disk);
    SameContents(groups, d, contents, s2.disk, contents);
  }

  /** Tables outside the version. */
  lemma TableKeeps(groups: Groups, d: Disk, contents: map<nat, set<Entry>>, files: set<nat>, d2: Disk, contents2: map<nat, set<Entry>>)
    requires InOrder(d) && ContentsOk(groups, d, contents) && LogsOrdered(d)
    requires d2.logs == d.logs && d2.manifest == d.manifest && files !! d.manifest.version
    requires forall t :: t !in files ==> (t in d.tables <==> t in d2.tables) && (t in d.tables ==> d2.tables[t] == d.tables[t])
    requires AgreeOutside(files, contents, contents2)
    ensures InOrder(d2) && ContentsOk(groups, d2, contents2)
  {
    hide InOrder, ContentsOk, InTables, InLogsFrom, LogsOrdered, Stored;
    Steps.SameLogs(d, d2);
    Steps.SameTables(d, d2, d.manifest.version);
    SameOrder(d, d2);
    SameStored(contents, contents2, d.manifest.version);
    SameContents(groups, d, contents, d2, contents2);
  }

  lemma BuiltKeeps(groups: Groups, s: Steps.State, contents: map<nat, set<Entry>>, s2: Steps.State, contents2: map<nat, set<Entry>>)
    requires Inv(groups, s, contents) && s.memory.Some? && Steps.FlushBuilds(s.disk, s.memory.value, s, s2)
    requires Changes(groups, s, contents, Steps.FlushBuilt, s2, contents2)
    ensures InOrder(s2.disk) && ContentsOk(groups, s2.disk, contents2) && BuiltHolds(groups, s2, contents2)
  {
    hide InOrder, ContentsOk, InTables, InLogsFrom, LogsOrdered, EntriesIn, Recovered;
    TableKeeps(groups, s.disk, contents, {s.memory.value.flush.table}, s2.disk, contents2);
  }

  lemma OutputKeeps(groups: Groups, s: Steps.State, contents: map<nat, set<Entry>>, covers: set<Record>, s2: Steps.State,
                    contents2: map<nat, set<Entry>>)
    requires Inv(groups, s, contents) && s.memory.Some? && Steps.CompactionOutputs(s.disk, s.memory.value, covers, s, s2)
    requires Changes(groups, s, contents, Steps.CompactionOutput(covers), s2, contents2)
    ensures InOrder(s2.disk) && ContentsOk(groups, s2.disk, contents2) && BuiltHolds(groups, s2, contents2)
  {
    hide InOrder, ContentsOk, InTables, InLogsFrom, LogsOrdered, EntriesIn, Recovered;
    TableKeeps(groups, s.disk, contents, {s.memory.value.nextFile}, s2.disk, contents2);
  }

  lemma CommitKeeps(groups: Groups, s: Steps.State, contents: map<nat, set<Entry>>, s2: Steps.State)
    requires GroupsOk(groups) && Inv(groups, s, contents) && s.memory.Some? && Steps.FlushCommits(s.disk, s.memory.value, s, s2)
    ensures InOrder(s2.disk) && ContentsOk(groups, s2.disk, contents) && BuiltHolds(groups, s2, contents)
  {
    hide InOrder, ContentsOk, InTables, InLogsFrom, InLogs, LogsOrdered, EntriesIn, Recovered, Stored, GroupsOk, Promised;
    var d, m, d2 := s.disk, s.memory.value, s2.disk;
    Steps.FlushKeepsRecords(d, m, d2);
    EarlierLogs(d, m.logFile);
    Steps.SameLogs(d, d2);
    MoveKeepsOrder(d, m.imm.value, d2);
    if NoEntries(m.imm.value) {
      NothingIn(groups, m.imm.value);
    } else {
      StoredJoin(contents, d.manifest.version, {m.flush.table});
      StoredOne(contents, m.flush.table);
    }
    ContentsGrow(groups, d, contents, m.imm.value, d2, contents);
  }

  lemma NothingIn(groups: Groups, records: set<Record>)
    requires GroupsOk(groups) && NoEntries(records)
    ensures EntriesIn(groups, records) == {}
  {
  }

  lemma MergeKeeps(groups: Groups, s: Steps.State, contents: map<nat, set<Entry>>, s2: Steps.State)
    requires GroupsOk(groups) && Inv(groups, s, contents) && s.memory.Some? && Steps.CompactionCommits(s.disk, s.memory.value, s, s2)
    requires Changes(groups, s, contents, Steps.CompactionCommit, s2, contents)
    ensures InOrder(s2.disk) && ContentsOk(groups, s2.disk, contents) && BuiltHolds(groups, s2, contents)
  {
    hide InOrder, ContentsOk, InTables, InLogsFrom, LogsOrdered, EntriesIn, Recovered, Stored, GroupsOk, Merges, Promised;
    var d, c, d2 := s.disk, s.memory.value.compaction.value, s2.disk;
    Steps.VersionReplaced(d, s.memory.value, c, d2);
    Steps.SameLogs(d, d2);
    SameOrder(d, d2);
    MergeKeepsContents(groups, d, contents, c, d2);
  }

  lemma CollectionKeeps(groups: Groups, s: Steps.State, contents: map<nat, set<Entry>>, s2: Steps.State, contents2: map<nat, set<Entry>>)
    requires Inv(groups, s, contents) && s.memory.Some? && Steps.DeletesObsolete(s.disk, s.memory.value, s, s2)
    requires Changes(groups, s, contents, Steps.DeleteObsoleteFiles, s2, contents2)
    ensures InOrder(s2.disk) && ContentsOk(groups, s2.disk, contents2) && BuiltHolds(groups, s2, contents2)
  {
    hide InOrder, ContentsOk, InTables, InLogsFrom, LogsOrdered, EntriesIn, Recovered, Stored, Promised;
    var d, d2 := s.disk, s2.disk;
    Steps.SameTables(d, d2, d.manifest.version);
    Steps.CollectedLogs(d, d2);
    SameOrder(d, d2);
    VersionIsLive(d, s.memory.value, d2);
    SameStored(contents, contents2, d.manifest.version);
    SameContents(groups, d, contents, d2, contents2);
  }

  lemma VersionIsLive(d: Disk, m: Steps.Memory, d2: Disk)
    requires d.manifest.version <= d.tables.Keys
    requires d2.tables == map t | t in d.tables && t in Steps.Live(d, m) :: d.tables[t]
    ensures d.manifest.version <= d2.tables.Keys
  {
    forall t | t in d.manifest.version ensures t in d2.tables {
      assert t in d.tables.Keys && t in Steps.Live(d, m);
    }
  }

  lemma CrashKeeps(groups: Groups, s: Steps.State, contents: map<nat, set<Entry>>, logs: map<nat, Log>, frayed: bool, s2: Steps.State)
    requires Inv(groups, s, contents) && Steps.Crashes(s, logs, frayed, s2)
    ensures InOrder(s2.disk) && ContentsOk(groups, s2.disk, contents) && BuiltHolds(groups, s2, contents)
  {
    hide InOrder, ContentsOk, InTables, InLogsFrom, LogsOrdered, EntriesIn, Recovered, Stored, Promised;
    var d, d2 := s.disk, s2.disk;
    Steps.SameTables(d, d2, d.manifest.version);
    Steps.CutLogs(d, d2);
    SameOrder(d, d2);
    SameContents(groups, d, contents, d2, contents);
  }

  lemma InterruptKeeps(groups: Groups, s: Steps.State, contents: map<nat, set<Entry>>, tables: map<nat, set<Record>>, created: Option<nat>,
                       s2: Steps.State, contents2: map<nat, set<Entry>>)
    requires Inv(groups, s, contents) && Steps.Interrupts(s, tables, created, s2)
    requires Changes(groups, s, contents, Steps.Interrupt(tables, created), s2, contents2)
    ensures InOrder(s2.disk) && ContentsOk(groups, s2.disk, contents2) && BuiltHolds(groups, s2, contents2)
  {
    hide InOrder, ContentsOk, InTables, InLogsFrom, LogsOrdered, EntriesIn, Recovered, Stored, Promised;
    var d, d2 := s.disk, s2.disk;
    Steps.FreshTables(d, tables);
    var between := d.(logs := d2.logs);
    if created.Some? {
      Steps.NewLog(d, created.value);
      assert between == Steps.SetLog(d, created.value, Log([], 0, false));
    }
    Steps.SameTables(d, between, d.manifest.version);
    SameOrder(d, between);
    SameContents(groups, d, contents, between, contents);
    TableKeeps(groups, between, contents, tables.Keys, d2, contents2);
  }

  /** New tables that hold whole groups. */
  lemma StoredGroups(groups: Groups, contents: map<nat, set<Entry>>, tables: map<nat, set<Record>>)
    requires forall t :: t in tables ==> t in contents && contents[t] == EntriesIn(groups, tables[t])
    ensures Stored(contents, tables.Keys) == EntriesIn(groups, Covered(tables))
  {
    forall e | e in Stored(contents, tables.Keys) ensures e in EntriesIn(groups, Covered(tables)) {
      var t :| t in tables.Keys && t in contents && e in contents[t];
      var r :| r in tables[t] && e in groups(r);
      assert r in Covered(tables);
    }
    forall e | e in EntriesIn(groups, Covered(tables)) ensures e in Stored(contents, tables.Keys) {
      var r :| r in Covered(tables) && e in groups(r);
      var t :| t in tables && r in tables[t];
      assert e in contents[t] && t in tables.Keys;
    }
  }

  lemma RecoveredOrder(d: Disk, tables: map<nat, set<Record>>, gone: set<Record>, reuse: bool, save: bool, logFile: nat,
                       nextFile: nat, lastSequence: nat, d2: Disk)
    requires DiskOk(d) && InOrder(d) && Steps.Results(d, tables, gone, reuse, save, logFile, nextFile, lastSequence, d2)
    requires Settled(d2) == Settled(d) + InLogs(d, d.manifest.logNumber, logFile)
    ensures InOrder(d2) && InLogs(d, d.manifest.logNumber, logFile) <= InLogsFrom(d, d.manifest.logNumber)
  {
    hide InOrder, InTables, InLogs, InLogsFrom, LogsOrdered, Recovered;
    var moved := InLogs(d, d.manifest.logNumber, logFile);
    EarlierLogs(d, logFile);
    Steps.LogOpened(d, logFile, d2.logs[logFile]);
    var between := Steps.SetLog(d, logFile, d2.logs[logFile]);
    assert d2.logs == between.logs;
    Steps.SameLogs(between, d2);
    if !save {
      assert Covered(tables) == {};
      NothingBefore(moved, InLogsFrom(d2, d2.manifest.logNumber));
    }
    MoveKeepsOrder(d, moved, d2);
  }

  lemma NothingBefore(a: set<Record>, b: set<Record>)
    requires a == {}
    ensures Before(a, b)
  {}

  lemma RecoveredContents(groups: Groups, d: Disk, contents: map<nat, set<Entry>>, tables: map<nat, set<Record>>, save: bool, d2: Disk,
                          contents2: map<nat, set<Entry>>)
    requires d2.manifest.version == (if save then d.manifest.version + tables.Keys else d.manifest.version)
    requires (!save ==> tables == map[]) && (forall t :: t in tables ==> t !in d.manifest.version) && d2.tables == d.tables + tables
    requires contents2 == contents + map t | t in d2.tables && t in d2.manifest.version - d.manifest.version
                                         :: EntriesIn(groups, d2.tables[t])
    ensures Stored(contents2, d2.manifest.version) == Stored(contents, d.manifest.version) + EntriesIn(groups, Covered(tables))
  {
    hide Stored, EntriesIn, Covered;
    assert d2.manifest.version == d.manifest.version + tables.Keys by {
      if !save {
        assert tables.Keys == {};
      }
    }
    StoredJoin(contents2, d.manifest.version, tables.Keys);
    SameStored(contents, contents2, d.manifest.version);
    forall t | t in tables ensures t in contents2 && contents2[t] == EntriesIn(groups, tables[t]) {
      assert t in tables.Keys && t in d2.manifest.version - d.manifest.version;
    }
    StoredGroups(groups, contents2, tables);
  }

  lemma RecoverKeeps(groups: Groups, s: Steps.State, contents: map<nat, set<Entry>>, full: (nat, nat) -> bool, reuse: bool,
                     reuseManifest: bool, s2: Steps.State, contents2: map<nat, set<Entry>>)
    requires GroupsOk(groups) && Inv(groups, s, contents) && Steps.Recovers(s, full, reuse, reuseManifest, s2)
    requires Changes(groups, s, contents, Steps.Recover(full, reuse, reuseManifest), s2, contents2)
    ensures InOrder(s2.disk) && ContentsOk(groups, s2.disk, contents2) && BuiltHolds(groups, s2, contents2)
  {
    hide GroupsOk, DiskOk, Opened, InOrder, ContentsOk, Recovered, LogsOrdered, InTables, InLogs, InLogsFrom, EntriesIn, Stored, Promised;
    var d, d2 := s.disk, s2.disk;
    var ns :| IsLogList(d, ns) && Steps.OpensAs(s, Opened(d, ns, full, reuse, reuseManifest), reuseManifest, s2);
    var st, used := OpenedCounts(d, ns, full, reuse, reuseManifest);
    var o := Opened(d, ns, full, reuse, reuseManifest);
    assert Steps.Results(d, st.tables, st.gone, used.Some?, st.save, o.logFile, o.nextFile, o.lastSequence, d2);
    Steps.RecoveredLogs(d, st.tables, st.gone, used.Some?, st.save, o.logFile, o.nextFile, o.lastSequence, d2);
    RecoveredOrder(d, st.tables, st.gone, used.Some?, st.save, o.logFile, o.nextFile, o.lastSequence, d2);
    Steps.FreshTables(d, st.tables);
    RecoveredContents(groups, d, contents, st.tables, st.save, d2, contents2);
    EntriesJoin(groups, Covered(st.tables), st.gone);
    NothingIn(groups, st.gone);
    ContentsGrow(groups, d, contents, InLogs(d, d.manifest.logNumber, o.logFile), d2, contents2);
  }

  /** Steps that leave the disk alone. */
  lemma QuietKeeps(groups: Groups, s: Steps.State, contents: map<nat, set<Entry>>, step: Steps.Step, s2: Steps.State)
    requires Inv(groups, s, contents) && Steps.Next(s, step, s2)
    requires step.FlushBegin? || step.HoldVersion? || step.ReleaseVersion? || step.CompactionBegin?
    ensures InOrder(s2.disk) && ContentsOk(groups, s2.disk, contents) && BuiltHolds(groups, s2, contents)
  {
    hide InOrder, ContentsOk, Steps.Inv;
  }

  lemma StepKeepsInv(groups: Groups, s: Steps.State, contents: map<nat, set<Entry>>, step: Steps.Step, s2: Steps.State,
                     contents2: map<nat, set<Entry>>)
    requires GroupsOk(groups) && Inv(groups, s, contents) && Steps.Next(s, step, s2) && Changes(groups, s, contents, step, s2, contents2)
    ensures Inv(groups, s2, contents2)
  {
    hide GroupsOk, InOrder, ContentsOk, BuiltHolds, Steps.Inv;
    Runs.StepKeepsInv(s, step, s2);
    match step
    case Write(r, sync) => WriteKeeps(groups, s, contents, r, sync, s2);
    case SwitchMemTable => SwitchKeeps(groups, s, contents, s2);
    case FlushBuilt => BuiltKeeps(groups, s, contents, s2, contents2);
    case FlushCommit => CommitKeeps(groups, s, contents, s2);
    case CompactionOutput(covers) => OutputKeeps(groups, s, contents, covers, s2, contents2);
    case CompactionCommit => MergeKeeps(groups, s, contents, s2);
    case DeleteObsoleteFiles => CollectionKeeps(groups, s, contents, s2, contents2);
    case Crash(logs, frayed) => CrashKeeps(groups, s, contents, logs, frayed, s2);
    case Recover(full, reuse, reuseManifest) => RecoverKeeps(groups, s, contents, full, reuse, reuseManifest, s2, contents2);
    case Interrupt(tables, created) => InterruptKeeps(groups, s, contents, tables, created, s2, contents2);
    case _ => QuietKeeps(groups, s, contents, step, s2);
  }

  // ---- Runs ----------------------------------------------------------------------------------------------------------

  /** A run of `Durability` in which compactions really merge the contents of tables. */
  ghost predicate IsRun(groups: Groups, states: seq<Steps.State>, steps: seq<Steps.Step>, contents: seq<map<nat, set<Entry>>>) {
    && Runs.IsRun(states, steps) && |contents| == |states| && contents[0] == map[]
    && forall i :: 0 <= i < |steps| ==> Changes(groups, states[i], contents[i], steps[i], states[i + 1], contents[i + 1])
  }

  lemma {:induction false} InvariantHolds(groups: Groups, states: seq<Steps.State>, steps: seq<Steps.Step>, contents: seq<map<nat, set<Entry>>>, i: nat)
    requires GroupsOk(groups) && IsRun(groups, states, steps, contents) && i < |states|
    ensures Inv(groups, states[i], contents[i])
  {
    hide GroupsOk, Inv, Changes;
    if i == 0 {
      Runs.InvariantHolds(states, steps, 0);
      NothingStored(groups, states[0]);
    } else {
      InvariantHolds(groups, states, steps, contents, i - 1);
      StepKeepsInv(groups, states[i - 1], contents[i - 1], steps[i - 1], states[i], contents[i]);
    }
  }

  lemma NothingStored(groups: Groups, s: Steps.State)
    requires Steps.Inv(s) && s == Steps.State(Disk(map[], map[], Manifest({}, 0, 2, 0, {}), false), None, {}, {})
    ensures Inv(groups, s, map[])
  {
    assert InTables(s.disk, {}) == {} && InLogsFrom(s.disk, 0) == {};
    assert Stored(map[], {}) == {} && EntriesIn(groups, {}) == {};
  }

  /** In every state of every run, right after a crash and a recovery in particular, the tables and logs that are there
      read at the latest sequence number like all the writes that exist, whatever compactions have dropped. */
  lemma RecoveredReadsAreRight(groups: Groups, states: seq<Steps.State>, steps: seq<Steps.Step>, contents: seq<map<nat, set<Entry>>>, i: nat,
                               u: UserKey)
    requires GroupsOk(groups) && IsRun(groups, states, steps, contents) && i < |states|
    ensures Read(Readable(groups, states[i].disk, contents[i]), u, MAX_SEQUENCE) == Read(EntriesIn(groups, states[i].written), u, MAX_SEQUENCE)
    ensures states[i].durable <= states[i].written
  {
    hide GroupsOk, IsRun, Read, Readable, EntriesIn;
    PartOfRun(groups, states, steps, contents);
    InvariantHolds(groups, states, steps, contents, i);
    ReadsAgree(groups, states[i], contents[i]);
    Runs.NothingPromisedIsLost(states, steps, i);
  }

  lemma PartOfRun(groups: Groups, states: seq<Steps.State>, steps: seq<Steps.Step>, contents: seq<map<nat, set<Entry>>>)
    requires IsRun(groups, states, steps, contents)
    ensures Runs.IsRun(states, steps) && |contents| == |states|
  {}
}
