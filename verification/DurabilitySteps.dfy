/** Logs, tables and the manifest over whole lifetimes of a database (db/db_impl.cc, db/version_set.cc).  A state is
    what is on disk, what is in memory while the database is open, and the history of its writes.  The steps are writes,
    memtable switches, flushes and compactions in the parts between which a crash may come, garbage collection, readers
    that hold versions, crashes and recoveries.  Each step is shown to keep the invariant. */
module DurabilitySteps {
  import opened Disks
  import opened Keys
  import opened Recovery

  /** A flush builds its table under the protection of `pending`; then only the background thread itself,
      which collects garbage, knows of it until the manifest does.  A memtable without entries makes no table. */
  datatype Flush = Idle | Building(table: nat) | Built(table: nat)

  datatype Compaction = Compaction(inputs: set<nat>, outputs: set<nat>)

  datatype Memory = Memory(
    mem: set<Record>, imm: Option<set<Record>>, logFile: nat, nextFile: nat, lastSequence: nat,
    pending: set<nat>, held: seq<set<nat>>, flush: Flush, compaction: Option<Compaction>)

  /** `memory` is absent while the database is closed; `written` and `durable` are history: the writes
      that exist, and those that a client was promised. */
  datatype State = State(disk: Disk, memory: Option<Memory>, written: set<Record>, durable: set<Record>)

  // ---- The invariant -----------------------------------------------------------------------------------

  /** The logs that recovery would read hold the memtables. */
  ghost predicate LogsHoldMemory(d: Disk, m: Memory) {
    && m.logFile in d.logs && d.manifest.logNumber <= m.logFile
    && m.mem == RecordsOf(d.logs[m.logFile])
    && InLogs(d, d.manifest.logNumber, m.logFile) == (if m.imm.Some? then m.imm.value else {})
    && (forall n :: n in d.logs ==> n <= m.logFile)
  }

  /** What is appended to the log and to the manifest will be read. */
  ghost predicate CanAppend(d: Disk, m: Memory) {
    m.logFile in d.logs && !d.logs[m.logFile].torn && !d.frayed
  }

  ghost predicate NumbersOk(d: Disk, m: Memory) {
    && m.logFile < m.nextFile && d.manifest.nextFile <= m.nextFile
    && (forall t :: t in m.pending ==> t < m.nextFile && t !in d.manifest.version)
    && (forall r :: r in Recovered(d) ==> r.last <= m.lastSequence)
  }

  /** The tables that readers and background work rely on exist. */
  ghost predicate FilesOk(d: Disk, m: Memory) {
    && (forall i :: 0 <= i < |m.held| ==> m.held[i] <= d.tables.Keys)
    && (m.flush.Building? ==> m.imm.Some? && m.flush.table in m.pending)
    && (m.flush.Built? ==> BuiltOk(d, m, m.flush.table))
    && (m.compaction.Some? ==> CompactionOk(d, m, m.compaction.value))
  }

  ghost predicate BuiltOk(d: Disk, m: Memory, t: nat) {
    && m.imm.Some? && t < m.nextFile && t !in d.manifest.version && t !in m.pending
    && (NoEntries(m.imm.value) || (t in d.tables && d.tables[t] == m.imm.value))
  }

  ghost predicate CompactionOk(d: Disk, m: Memory, c: Compaction) {
    && c.inputs <= d.manifest.version && c.outputs <= m.pending && c.outputs <= d.tables.Keys
    && InTables(d, c.outputs) <= InTables(d, c.inputs)
    && (m.flush.Idle? || m.flush.table !in c.outputs)
  }

  ghost predicate Inv(s: State) {
    && DiskOk(s.disk) && s.written == Recovered(s.disk)
    && (forall r :: r in s.durable ==> Promised(s.disk, r))
    && (s.memory.Some? ==>
          && LogsHoldMemory(s.disk, s.memory.value) && CanAppend(s.disk, s.memory.value)
          && NumbersOk(s.disk, s.memory.value) && FilesOk(s.disk, s.memory.value))
  }

  // ---- Steps ---------------------------------------------------------------------------------------------

  datatype Step =
    | Write(r: Record, sync: bool)
    | SwitchMemTable
    | FlushBegin
    | FlushBuilt
    | FlushCommit
    | HoldVersion
    | ReleaseVersion(i: nat)
    | CompactionBegin(inputs: set<nat>)
    | CompactionOutput(covers: set<Record>)
    | CompactionCommit
    | DeleteObsoleteFiles
    | Crash(logs: map<nat, Log>, frayed: bool)
    | Recover(full: (nat, nat) -> bool, reuse: bool, reuseManifest: bool)
    | Interrupt(tables: map<nat, set<Record>>, created: Option<nat>)

  function SetLog(d: Disk, n: nat, log: Log): Disk {
    d.(logs := d.logs[n := log])
  }

  /** The live tables: those of every version still referenced, and those being written. */
  ghost function Live(d: Disk, m: Memory): set<nat> {
    m.pending + d.manifest.version + set i, t | 0 <= i < |m.held| && t in m.held[i] :: t
  }

  ghost predicate Writes(d: Disk, m: Memory, r: Record, sync: bool, s: State, s2: State) {
    && r.first == m.lastSequence + 1 <= r.last + 1 && m.logFile in d.logs
    && var records := d.logs[m.logFile].records + [r];
       var log := d.logs[m.logFile].(records := records, synced := if sync then |records| else d.logs[m.logFile].synced);
       s2 == State(SetLog(d, m.logFile, log), Some(m.(mem := m.mem + {r}, lastSequence := r.last)),
                   s.written + {r}, if sync then s.durable + {r} else s.durable)
  }

  ghost predicate Switches(d: Disk, m: Memory, s: State, s2: State) {
    && m.imm.None?
    && s2 == s.(disk := SetLog(d, m.nextFile, Log([], 0, false)),
                memory := Some(m.(mem := {}, imm := Some(m.mem), logFile := m.nextFile, nextFile := m.nextFile + 1)))
  }

  /** The table is complete and no longer pending; the manifest does not know it yet. */
  ghost predicate FlushBuilds(d: Disk, m: Memory, s: State, s2: State) {
    && m.flush.Building? && m.imm.Some?
    && var t := m.flush.table;
       var tables := if NoEntries(m.imm.value) then d.tables else d.tables[t := m.imm.value];
       s2 == s.(disk := d.(tables := tables), memory := Some(m.(flush := Built(t), pending := m.pending - {t})))
  }

  /** The manifest takes the table, if there is one, and gives up the logs before the current one. */
  ghost function Flushed(d: Disk, m: Memory, imm: set<Record>, t: nat): Manifest {
    if NoEntries(imm) then Manifest(d.manifest.version, m.logFile, m.nextFile, m.lastSequence, d.manifest.dropped + imm)
    else Manifest(d.manifest.version + {t}, m.logFile, m.nextFile, m.lastSequence, d.manifest.dropped)
  }

  ghost predicate FlushCommits(d: Disk, m: Memory, s: State, s2: State) {
    && m.flush.Built? && m.imm.Some?
    && s2 == s.(disk := d.(manifest := Flushed(d, m, m.imm.value, m.flush.table)), memory := Some(m.(imm := None, flush := Idle)))
  }

  ghost predicate CompactionOutputs(d: Disk, m: Memory, covers: set<Record>, s: State, s2: State) {
    && m.compaction.Some? && covers <= InTables(d, m.compaction.value.inputs)
    && var c := m.compaction.value;
       s2 == s.(disk := d.(tables := d.tables[m.nextFile := covers]),
                memory := Some(m.(pending := m.pending + {m.nextFile}, nextFile := m.nextFile + 1,
                                  compaction := Some(c.(outputs := c.outputs + {m.nextFile})))))
  }

  /** The outputs take the place of the inputs.  Records of which no output has anything left, all of them if there is no
      output, are dropped. */
  ghost function Compacted(d: Disk, m: Memory, c: Compaction): Manifest {
    Manifest(d.manifest.version - c.inputs + c.outputs, d.manifest.logNumber, m.nextFile, m.lastSequence,
             d.manifest.dropped + (InTables(d, c.inputs) - InTables(d, c.outputs)))
  }

  ghost predicate CompactionCommits(d: Disk, m: Memory, s: State, s2: State) {
    && m.compaction.Some? && m.flush.Idle?
    && var c := m.compaction.value;
       s2 == s.(disk := d.(manifest := Compacted(d, m, c)), memory := Some(m.(compaction := None, pending := m.pending - c.outputs)))
  }

  /** Logs before the manifest's log number and tables that are not live are removed. */
  ghost predicate DeletesObsolete(d: Disk, m: Memory, s: State, s2: State) {
    && m.flush.Idle?
    && s2 == s.(disk := d.(logs := map n | n in d.logs && n >= d.manifest.logNumber :: d.logs[n],
                           tables := map t | t in d.tables && t in Live(d, m) :: d.tables[t]))
  }

  /** Every log keeps at least what was synced; it may end with a part of a physical record, and the manifest with a part of
      an edit. */
  ghost predicate Crashes(s: State, logs: map<nat, Log>, frayed: bool, s2: State) {
    && logs.Keys == s.disk.logs.Keys
    && (forall n :: n in logs ==> CutFrom(s.disk.logs[n], logs[n]))
    && s2.disk == s.disk.(logs := logs, frayed := frayed) && s2.memory == None && s2.durable == s.durable && s2.written == Recovered(s2.disk)
  }

  /** The database is opened.  A log that is continued is not torn, and a manifest not frayed. */
  ghost predicate Recovers(s: State, full: (nat, nat) -> bool, reuse: bool, reuseManifest: bool, s2: State) {
    && s.memory == None
    && exists ns :: IsLogList(s.disk, ns) && OpensAs(s, Opened(s.disk, ns, full, reuse, reuseManifest), reuseManifest, s2)
  }

  ghost predicate OpensAs(s: State, o: Opening, reuseManifest: bool, s2: State) {
    && (reuseManifest ==> !s.disk.frayed) && (o.logFile in s.disk.logs ==> !s.disk.logs[o.logFile].torn)
    && s2 == State(o.disk, Some(Memory(o.mem, None, o.logFile, o.nextFile, o.lastSequence, {}, [], Idle, None)), s.written, s.durable)
  }

  /** A recovery that comes to a crash before the manifest is written leaves tables behind, and perhaps an empty log. */
  ghost predicate Interrupts(s: State, tables: map<nat, set<Record>>, created: Option<nat>, s2: State) {
    && s.memory == None && (forall t :: t in tables ==> s.disk.manifest.nextFile < t)
    && (created.Some? ==> s.disk.manifest.nextFile < created.value && forall n :: n in s.disk.logs ==> n < created.value)
    && var logs := if created.Some? then s.disk.logs[created.value := Log([], 0, false)] else s.disk.logs;
       s2 == s.(disk := s.disk.(logs := logs, tables := s.disk.tables + tables))
  }

  ghost predicate Next(s: State, step: Step, s2: State) {
    if step.Crash? then Crashes(s, step.logs, step.frayed, s2)
    else if step.Recover? then Recovers(s, step.full, step.reuse, step.reuseManifest, s2)
    else if step.Interrupt? then Interrupts(s, step.tables, step.created, s2)
    else s.memory.Some? && NextUp(s, s.disk, s.memory.value, step, s2)
  }

  ghost predicate NextUp(s: State, d: Disk, m: Memory, step: Step, s2: State)
    requires !step.Crash? && !step.Recover? && !step.Interrupt?
  {
    match step
    case Write(r, sync) => Writes(d, m, r, sync, s, s2)
    case SwitchMemTable => Switches(d, m, s, s2)
    case FlushBegin =>
      m.imm.Some? && m.flush.Idle?
      && s2 == s.(memory := Some(m.(flush := Building(m.nextFile), pending := m.pending + {m.nextFile}, nextFile := m.nextFile + 1)))
    case FlushBuilt => FlushBuilds(d, m, s, s2)
    case FlushCommit => FlushCommits(d, m, s, s2)
    case HoldVersion => s2 == s.(memory := Some(m.(held := m.held + [d.manifest.version])))
    case ReleaseVersion(i) => i < |m.held| && s2 == s.(memory := Some(m.(held := m.held[..i] + m.held[i + 1..])))
    case CompactionBegin(inputs) =>
      m.compaction.None? && inputs <= d.manifest.version && s2 == s.(memory := Some(m.(compaction := Some(Compaction(inputs, {})))))
    case CompactionOutput(covers) => CompactionOutputs(d, m, covers, s, s2)
    case CompactionCommit => CompactionCommits(d, m, s, s2)
    case DeleteObsoleteFiles => DeletesObsolete(d, m, s, s2)
  }

  // ---- Every step keeps the invariant ------------------------------------------------------------------------

  lemma AppendedLog(d: Disk, n: nat, r: Record, synced: nat)
    requires n in d.logs && d.manifest.logNumber <= n && LogsOrdered(d)
    requires forall q :: q in InLogsFrom(d, d.manifest.logNumber) ==> q.last < r.first
    requires forall k :: k in d.logs ==> k <= n
    ensures var d2 := SetLog(d, n, d.logs[n].(records := d.logs[n].records + [r], synced := synced));
      && LogsOrdered(d2) && InLogsFrom(d2, d.manifest.logNumber) == InLogsFrom(d, d.manifest.logNumber) + {r}
      && InLogs(d2, d.manifest.logNumber, n) == InLogs(d, d.manifest.logNumber, n)
      && RecordsOf(d2.logs[n]) == RecordsOf(d.logs[n]) + {r}
  {
    var d2 := SetLog(d, n, d.logs[n].(records := d.logs[n].records + [r], synced := synced));
    var from, records := d.manifest.logNumber, d.logs[n].records + [r];
    forall q | q in d.logs[n].records ensures q.last < r.first {
      InLogsMember(d, from, n, q);
    }
    AppendedRecords(d.logs[n].records, r);
    forall k | k in d.logs && from <= k < n ensures AllBefore(d.logs[k].records, records) {
      forall q | q in d.logs[k].records ensures q.last < r.first {
        InLogsMember(d, from, k, q);
      }
      assert AllBefore(d.logs[k].records, d.logs[n].records);
    }
    AppendedSets(d, n, r, synced);
  }

  lemma AppendedRecords(records: seq<Record>, r: Record)
    requires Increasing(records) && forall q :: q in records ==> q.last < r.first
    ensures Increasing(records + [r])
  {
    assert forall i :: 0 <= i < |records| ==> records[i] in records;
  }

  lemma AppendedSets(d: Disk, n: nat, r: Record, synced: nat)
    requires n in d.logs && d.manifest.logNumber <= n
    ensures var d2, from := SetLog(d, n, d.logs[n].(records := d.logs[n].records + [r], synced := synced)), d.manifest.logNumber;
      && InLogsFrom(d2, from) == InLogsFrom(d, from) + {r} && InLogs(d2, from, n) == InLogs(d, from, n)
      && RecordsOf(d2.logs[n]) == RecordsOf(d.logs[n]) + {r}
  {
    var d2, from := SetLog(d, n, d.logs[n].(records := d.logs[n].records + [r], synced := synced)), d.manifest.logNumber;
    assert r in d2.logs[n].records;
    InLogsMember(d2, from, n, r);
    forall q | q in InLogsFrom(d, from) ensures q in InLogsFrom(d2, from) {
      var k :| k in d.logs && from <= k && q in d.logs[k].records;
      InLogsMember(d2, from, k, q);
    }
    forall q | q in InLogsFrom(d2, from) ensures q in InLogsFrom(d, from) || q == r {
      var k :| k in d2.logs && from <= k && q in d2.logs[k].records;
      assert q in d.logs[k].records || q == r;
    }
    SameLogsBetween(d, d2, from, n);
  }

  lemma SameLogsBetween(d: Disk, d2: Disk, from: nat, to: nat)
    requires forall n :: from <= n < to ==> (n in d.logs <==> n in d2.logs) && (n in d.logs ==> d.logs[n].records == d2.logs[n].records)
    ensures InLogs(d2, from, to) == InLogs(d, from, to)
  {
    forall q | q in InLogs(d, from, to) ensures q in InLogs(d2, from, to) {
      var k :| k in d.logs && from <= k < to && q in d.logs[k].records;
      InLogsBetween(d2, from, to, k, q);
    }
    forall q | q in InLogs(d2, from, to) ensures q in InLogs(d, from, to) {
      var k :| k in d2.logs && from <= k < to && q in d2.logs[k].records;
      InLogsBetween(d, from, to, k, q);
    }
  }

  lemma PromisesGrow(d: Disk, d2: Disk, durable: set<Record>)
    requires forall r :: r in durable ==> Promised(d, r)
    requires d2.manifest == d.manifest && d2.tables == d.tables && d.logs.Keys <= d2.logs.Keys
    requires forall n :: n in d.logs && d.manifest.logNumber <= n ==>
      d.logs[n].synced <= d2.logs[n].synced && d.logs[n].records <= d2.logs[n].records
    ensures forall r :: r in durable ==> Promised(d2, r)
  {
    forall r | r in durable && r !in Settled(d) ensures Promised(d2, r) {
      var n, i :| n in d.logs && d.manifest.logNumber <= n && 0 <= i < d.logs[n].synced && i < |d.logs[n].records| && d.logs[n].records[i] == r;
      assert d2.logs[n].records[i] == r;
    }
  }

  lemma WrittenDisk(d: Disk, m: Memory, r: Record, log: Log)
    requires DiskOk(d) && LogsHoldMemory(d, m) && NumbersOk(d, m) && r.first == m.lastSequence + 1 <= r.last + 1
    requires log == d.logs[m.logFile].(records := d.logs[m.logFile].records + [r], synced := log.synced)
    requires d.logs[m.logFile].synced <= log.synced <= |log.records|
    ensures DiskOk(SetLog(d, m.logFile, log)) && Recovered(SetLog(d, m.logFile, log)) == Recovered(d) + {r}
  {
    forall q | q in InLogsFrom(d, d.manifest.logNumber) ensures q.last < r.first {
      assert q in Recovered(d);
    }
    AppendedLog(d, m.logFile, r, log.synced);
    SameTables(d, SetLog(d, m.logFile, log), d.manifest.version);
  }

  lemma WrittenMemory(d: Disk, m: Memory, r: Record, log: Log)
    requires LogsHoldMemory(d, m) && NumbersOk(d, m) && r.first == m.lastSequence + 1 <= r.last + 1
    requires log == d.logs[m.logFile].(records := d.logs[m.logFile].records + [r], synced := log.synced)
    requires Recovered(SetLog(d, m.logFile, log)) == Recovered(d) + {r}
    ensures LogsHoldMemory(SetLog(d, m.logFile, log), m.(mem := m.mem + {r}, lastSequence := r.last))
    ensures NumbersOk(SetLog(d, m.logFile, log), m.(mem := m.mem + {r}, lastSequence := r.last))
  {
    AppendedSets(d, m.logFile, r, log.synced);
  }

  lemma WriteKeepsInv(s: State, r: Record, sync: bool, s2: State)
    requires Inv(s) && s.memory.Some? && Writes(s.disk, s.memory.value, r, sync, s, s2)
    ensures Inv(s2)
  {
    var d, m := s.disk, s.memory.value;
    var log := s2.disk.logs[m.logFile];
    WrittenDisk(d, m, r, log);
    WrittenMemory(d, m, r, log);
    WriteKeepsFiles(s, r, s2);
    WriteKeepsPromises(d, m.logFile, s.durable, r, log);
  }

  lemma WriteKeepsPromises(d: Disk, n: nat, durable: set<Record>, r: Record, log: Log)
    requires n in d.logs && d.manifest.logNumber <= n && log.records == d.logs[n].records + [r] && d.logs[n].synced <= log.synced
    requires forall q :: q in durable ==> Promised(d, q)
    ensures forall q :: q in durable ==> Promised(SetLog(d, n, log), q)
    ensures log.synced == |log.records| ==> Promised(SetLog(d, n, log), r)
  {
    var d2 := SetLog(d, n, log);
    PromisesGrow(d, d2, durable);
    assert d2.logs[n].records[|d.logs[n].records|] == r;
  }

  lemma WriteKeepsFiles(s: State, r: Record, s2: State)
    requires s.memory.Some? && s2.memory.Some? && FilesOk(s.disk, s.memory.value)
    requires s2.disk.tables == s.disk.tables && s2.disk.manifest == s.disk.manifest
    requires s2.memory.value == s.memory.value.(mem := s2.memory.value.mem, lastSequence := s2.memory.value.lastSequence)
    ensures FilesOk(s2.disk, s2.memory.value)
  {}

  lemma NewLog(d: Disk, n: nat)
    requires LogsOrdered(d) && forall k :: k in d.logs ==> k < n
    ensures var d2 := SetLog(d, n, Log([], 0, false));
      && LogsOrdered(d2) && (forall from :: InLogsFrom(d2, from) == InLogsFrom(d, from))
      && (forall from :: InLogs(d2, from, n) == InLogsFrom(d, from)) && RecordsOf(d2.logs[n]) == {}
  {
    var d2 := SetLog(d, n, Log([], 0, false));
    forall from ensures InLogsFrom(d2, from) == InLogsFrom(d, from) && InLogs(d2, from, n) == InLogsFrom(d, from) {
      forall r | r in InLogsFrom(d, from) ensures r in InLogsFrom(d2, from) && r in InLogs(d2, from, n) {
        var k :| k in d.logs && from <= k && r in d.logs[k].records;
        assert k in d2.logs && d2.logs[k] == d.logs[k];
      }
    }
  }

  lemma LastLogSplit(d: Disk, from: nat, n: nat)
    requires n in d.logs && from <= n && forall k :: k in d.logs ==> k <= n
    ensures InLogsFrom(d, from) == InLogs(d, from, n) + RecordsOf(d.logs[n])
    ensures InLogsFrom(d, n) == RecordsOf(d.logs[n])
  {}

  lemma SwitchKeepsInv(s: State, s2: State)
    requires Inv(s) && s.memory.Some? && Switches(s.disk, s.memory.value, s, s2)
    ensures Inv(s2)
  {
    hide LogsOrdered, Promised, InTables, InLogs, InLogsFrom;
    var d, m := s.disk, s.memory.value;
    if m.compaction.Some? {
      SameTables(d, s2.disk, m.compaction.value.inputs);
      SameTables(d, s2.disk, m.compaction.value.outputs);
    }
    SwitchedMemory(d, m);
    NewLog(d, m.nextFile);
    SameTables(d, s2.disk, d.manifest.version);
    PromisesGrow(d, s2.disk, s.durable);
  }

  lemma SwitchedMemory(d: Disk, m: Memory)
    requires LogsHoldMemory(d, m) && m.imm.None? && LogsOrdered(d) && m.logFile < m.nextFile
    ensures LogsHoldMemory(SetLog(d, m.nextFile, Log([], 0, false)), m.(mem := {}, imm := Some(m.mem), logFile := m.nextFile, nextFile := m.nextFile + 1))
  {
    LastLogSplit(d, d.manifest.logNumber, m.logFile);
    NewLog(d, m.nextFile);
  }

  /** The numbers of the files change nothing that was promised. */
  lemma CounterStep(s: State, s2: State)
    requires Inv(s) && s.memory.Some? && s2.memory.Some? && s2 == s.(memory := s2.memory)
    requires LogsHoldMemory(s.disk, s2.memory.value) && NumbersOk(s.disk, s2.memory.value) && FilesOk(s.disk, s2.memory.value)
    ensures Inv(s2)
  {}

  lemma FlushBuiltKeepsInv(s: State, s2: State)
    requires Inv(s) && s.memory.Some? && FlushBuilds(s.disk, s.memory.value, s, s2)
    ensures Inv(s2)
  {
    var d, m, d2 := s.disk, s.memory.value, s2.disk;
    TableWritten(d, m.flush.table, m.imm.value);
    assert forall r :: r in s.durable ==> Promised(d2, r);
    if m.compaction.Some? {
      OutsideTable(d, m.flush.table, m.imm.value, m.compaction.value.inputs);
      OutsideTable(d, m.flush.table, m.imm.value, m.compaction.value.outputs);
    }
  }

  /** Writing a table outside a version changes nothing of it. */
  lemma OutsideTable(d: Disk, t: nat, records: set<Record>, files: set<nat>)
    requires t !in files
    ensures InTables(d.(tables := d.tables[t := records]), files) == InTables(d, files)
  {
    SameTables(d, d.(tables := d.tables[t := records]), files);
  }

  lemma SameTables(d: Disk, d2: Disk, files: set<nat>)
    requires forall t :: t in files ==> (t in d.tables <==> t in d2.tables) && (t in d.tables ==> d.tables[t] == d2.tables[t])
    ensures InTables(d2, files) == InTables(d, files)
  {
    forall r | r in InTables(d, files) ensures r in InTables(d2, files) {
      var t :| t in files && t in d.tables && r in d.tables[t];
      assert t in d2.tables && r in d2.tables[t];
    }
    forall r | r in InTables(d2, files) ensures r in InTables(d, files) {
      var t :| t in files && t in d2.tables && r in d2.tables[t];
      assert t in d.tables && r in d.tables[t];
    }
  }

  lemma TableWritten(d: Disk, t: nat, records: set<Record>)
    requires DiskOk(d) && t !in d.manifest.version
    ensures var d2 := d.(tables := d.tables[t := records]); DiskOk(d2) && Recovered(d2) == Recovered(d)
    ensures var d2 := d.(tables := d.tables[t := records]); InTables(d2, d.manifest.version) == InTables(d, d.manifest.version)
  {
    OutsideTable(d, t, records, d.manifest.version);
  }

  lemma ManifestMoves(d: Disk, logFile: nat, manifest: Manifest)
    requires DiskOk(d) && logFile in d.logs && d.manifest.logNumber <= logFile && (forall n :: n in d.logs ==> n <= logFile)
    requires manifest.logNumber == logFile || manifest.logNumber == d.manifest.logNumber
    ensures LogsOrdered(d.(manifest := manifest))
    ensures forall r :: r in InLogsFrom(d, manifest.logNumber) ==> r in InLogsFrom(d, d.manifest.logNumber)
  {
    forall r | r in InLogsFrom(d, manifest.logNumber) ensures r in InLogsFrom(d, d.manifest.logNumber) {
      var n :| n in d.logs && manifest.logNumber <= n && r in d.logs[n].records;
      InLogsMember(d, d.manifest.logNumber, n, r);
    }
  }

  lemma InTablesJoin(d: Disk, a: set<nat>, b: set<nat>)
    ensures InTables(d, a + b) == InTables(d, a) + InTables(d, b)
  {}

  lemma OneTable(d: Disk, t: nat)
    requires t in d.tables
    ensures InTables(d, {t}) == d.tables[t]
  {}

  /** The logs given up held nothing but the flushed memtable. */
  lemma FlushCommitKeepsInv(s: State, s2: State)
    requires Inv(s) && s.memory.Some? && FlushCommits(s.disk, s.memory.value, s, s2)
    ensures Inv(s2)
  {
    hide Promised, LogsOrdered, InTables;
    var d, m, d2 := s.disk, s.memory.value, s2.disk;
    FlushKeepsRecords(d, m, d2);
    FlushKeepsPromises(d, m, d2, s.durable);
    FlushKeepsFiles(d, m, d2);
    assert DiskOk(d2) by {
      ManifestMoves(d, m.logFile, d2.manifest);
      assert forall r :: r in Settled(d2) ==> r in Recovered(d);
    }
  }

  lemma FlushKeepsRecords(d: Disk, m: Memory, d2: Disk)
    requires DiskOk(d) && LogsHoldMemory(d, m) && FilesOk(d, m) && m.flush.Built?
    requires d2 == d.(manifest := Flushed(d, m, m.imm.value, m.flush.table))
    ensures Settled(d2) == Settled(d) + m.imm.value
    ensures Recovered(d2) == Recovered(d)
    ensures LogsHoldMemory(d2, m.(imm := None, flush := Idle))
  {
    var t := m.flush.table;
    if !NoEntries(m.imm.value) {
      InTablesJoin(d, d.manifest.version, {t});
      OneTable(d, t);
    }
    SameTables(d, d2, d2.manifest.version);
    LastLogSplit(d, d.manifest.logNumber, m.logFile);
    LastLogSplit(d2, m.logFile, m.logFile);
    assert InLogs(d2, m.logFile, m.logFile) == {};
  }

  lemma FlushKeepsPromises(d: Disk, m: Memory, d2: Disk, durable: set<Record>)
    requires LogsHoldMemory(d, m) && m.imm.Some? && d2 == d.(manifest := d2.manifest)
    requires d2.manifest.logNumber == m.logFile && Settled(d2) == Settled(d) + m.imm.value
    requires forall r :: r in durable ==> Promised(d, r)
    ensures forall r :: r in durable ==> Promised(d2, r)
  {
    forall r | r in durable && r !in Settled(d) ensures Promised(d2, r) {
      var n, i :| n in d.logs && d.manifest.logNumber <= n && 0 <= i < d.logs[n].synced && i < |d.logs[n].records| && d.logs[n].records[i] == r;
      if n < m.logFile {
        InLogsBetween(d, d.manifest.logNumber, m.logFile, n, r);
      }
    }
  }

  lemma FlushKeepsFiles(d: Disk, m: Memory, d2: Disk)
    requires FilesOk(d, m) && m.flush.Built? && d2 == d.(manifest := d2.manifest)
    requires d.manifest.version <= d2.manifest.version <= d.manifest.version + {m.flush.table}
    ensures FilesOk(d2, m.(imm := None, flush := Idle))
  {
    if m.compaction.Some? {
      SameTables(d, d2, m.compaction.value.inputs);
      SameTables(d, d2, m.compaction.value.outputs);
    }
  }

  lemma CompactionOutputKeepsInv(s: State, covers: set<Record>, s2: State)
    requires Inv(s) && s.memory.Some? && CompactionOutputs(s.disk, s.memory.value, covers, s, s2)
    ensures Inv(s2)
  {
    var d, m, t := s.disk, s.memory.value, s.memory.value.nextFile;
    var c := m.compaction.value;
    TableWritten(d, t, covers);
    assert forall r :: r in s.durable ==> Promised(s2.disk, r);
    OutsideTable(d, t, covers, c.inputs);
    OutsideTable(d, t, covers, c.outputs);
    InTablesJoin(s2.disk, c.outputs, {t});
    OneTable(s2.disk, t);
  }

  lemma VersionReplaced(d: Disk, m: Memory, c: Compaction, d2: Disk)
    requires c.inputs <= d.manifest.version && InTables(d, c.outputs) <= InTables(d, c.inputs)
    requires d2 == d.(manifest := Compacted(d, m, c))
    ensures Settled(d2) == Settled(d)
  {
    hide InTables;
    InTablesJoin(d, d.manifest.version - c.inputs, c.outputs);
    InTablesJoin(d, d.manifest.version - c.inputs, c.inputs);
    assert d.manifest.version - c.inputs + c.inputs == d.manifest.version;
    SameTables(d, d2, d2.manifest.version);
  }

  lemma CompactionCommitKeepsInv(s: State, s2: State)
    requires Inv(s) && s.memory.Some? && CompactionCommits(s.disk, s.memory.value, s, s2)
    ensures Inv(s2)
  {
    var d, m, d2 := s.disk, s.memory.value, s2.disk;
    var c := m.compaction.value;
    VersionReplaced(d, m, c, d2);
    ManifestMoves(d, m.logFile, d2.manifest);
    SameLogsBetween(d, d2, d.manifest.logNumber, m.logFile);
    assert InLogsFrom(d2, d2.manifest.logNumber) == InLogsFrom(d, d.manifest.logNumber);
    assert forall r :: r in s.durable ==> Promised(d2, r);
  }

  /** Garbage collection removes nothing that recovery, a reader or background work needs. */
  lemma CollectionKeepsInv(s: State, s2: State)
    requires Inv(s) && s.memory.Some? && DeletesObsolete(s.disk, s.memory.value, s, s2)
    ensures Inv(s2)
    ensures Live(s.disk, s.memory.value) * s.disk.tables.Keys <= s2.disk.tables.Keys
    ensures Recovered(s2.disk) == Recovered(s.disk)
  {
    var d, m, d2 := s.disk, s.memory.value, s2.disk;
    SameTables(d, d2, d.manifest.version);
    CollectedLogs(d, d2);
    SameLogsBetween(d, d2, d.manifest.logNumber, m.logFile);
    if m.compaction.Some? {
      SameTables(d, d2, m.compaction.value.inputs);
      SameTables(d, d2, m.compaction.value.outputs);
    }
    forall i | 0 <= i < |m.held| ensures m.held[i] <= d2.tables.Keys {
      HeldIsKept(d, m, i, d2);
    }
    forall r | r in s.durable ensures Promised(d2, r) {
      CollectedPromise(d, d2, r);
    }
  }

  lemma CollectedPromise(d: Disk, d2: Disk, r: Record)
    requires Promised(d, r) && d2.manifest == d.manifest && InTables(d2, d.manifest.version) == InTables(d, d.manifest.version)
    requires d2.logs == map n | n in d.logs && n >= d.manifest.logNumber :: d.logs[n]
    ensures Promised(d2, r)
  {
    if r !in Settled(d) {
      var n, i :| n in d.logs && d.manifest.logNumber <= n && 0 <= i < d.logs[n].synced && i < |d.logs[n].records| && d.logs[n].records[i] == r;
      assert n in d2.logs && d2.logs[n].records[i] == r;
    }
  }

  lemma HeldIsKept(d: Disk, m: Memory, i: nat, d2: Disk)
    requires i < |m.held| && m.held[i] <= d.tables.Keys
    requires d2.tables == map t | t in d.tables && t in Live(d, m) :: d.tables[t]
    ensures m.held[i] <= d2.tables.Keys
  {
    forall t | t in m.held[i] ensures t in d2.tables {
      assert t in d.tables.Keys && t in Live(d, m);
    }
  }

  lemma CollectedLogs(d: Disk, d2: Disk)
    requires LogsOrdered(d) && d2.manifest == d.manifest
    requires d2.logs == map n | n in d.logs && n >= d.manifest.logNumber :: d.logs[n]
    ensures LogsOrdered(d2) && InLogsFrom(d2, d.manifest.logNumber) == InLogsFrom(d, d.manifest.logNumber)
  {
    forall r | r in InLogsFrom(d, d.manifest.logNumber) ensures r in InLogsFrom(d2, d.manifest.logNumber) {
      var n :| n in d.logs && d.manifest.logNumber <= n && r in d.logs[n].records;
      InLogsMember(d2, d.manifest.logNumber, n, r);
    }
  }

  /** A crash loses no promise. */
  lemma CrashKeepsInv(s: State, logs: map<nat, Log>, frayed: bool, s2: State)
    requires Inv(s) && Crashes(s, logs, frayed, s2)
    ensures Inv(s2) && s2.durable <= Recovered(s2.disk) <= Recovered(s.disk)
  {
    var d, d2 := s.disk, s2.disk;
    SameTables(d, d2, d.manifest.version);
    CutLogs(d, d2);
    forall r | r in s.durable ensures Promised(d2, r) && r in Recovered(d2) {
      PromiseSurvives(d, d2, r);
    }
  }

  ghost predicate CutFrom(log: Log, cut: Log) {
    log.synced <= cut.synced <= |cut.records| <= |log.records| && cut.records == log.records[..|cut.records|]
  }

  lemma CutLogs(d: Disk, d2: Disk)
    requires LogsOrdered(d) && d2 == d.(logs := d2.logs, frayed := d2.frayed) && d2.logs.Keys == d.logs.Keys
    requires forall n :: n in d2.logs ==> CutFrom(d.logs[n], d2.logs[n])
    ensures LogsOrdered(d2) && InLogsFrom(d2, d.manifest.logNumber) <= InLogsFrom(d, d.manifest.logNumber)
  {
    forall n, r | n in d2.logs && r in d2.logs[n].records ensures r in d.logs[n].records {}
    forall n | n in d2.logs && d.manifest.logNumber <= n ensures Increasing(d2.logs[n].records) {
      assert Increasing(d.logs[n].records);
    }
    forall n, m | n in d2.logs && m in d2.logs && d.manifest.logNumber <= n < m ensures AllBefore(d2.logs[n].records, d2.logs[m].records) {
      assert AllBefore(d.logs[n].records, d.logs[m].records);
    }
    forall r | r in InLogsFrom(d2, d.manifest.logNumber) ensures r in InLogsFrom(d, d.manifest.logNumber) {
      var n :| n in d2.logs && d.manifest.logNumber <= n && r in d2.logs[n].records;
      InLogsMember(d, d.manifest.logNumber, n, r);
    }
  }

  lemma PromiseSurvives(d: Disk, d2: Disk, r: Record)
    requires Promised(d, r) && d2 == d.(logs := d2.logs, frayed := d2.frayed) && d2.logs.Keys == d.logs.Keys
    requires forall n :: n in d2.logs ==> CutFrom(d.logs[n], d2.logs[n])
    ensures Promised(d2, r) && r in Recovered(d2)
  {
    SameTables(d, d2, d.manifest.version);
    if r !in Settled(d) {
      var n, i :| n in d.logs && d.manifest.logNumber <= n && 0 <= i < d.logs[n].synced && i < |d.logs[n].records| && d.logs[n].records[i] == r;
      assert CutFrom(d.logs[n], d2.logs[n]);
      assert d2.logs[n].records[i] == r;
      InLogsMember(d2, d.manifest.logNumber, n, r);
    }
  }

  // ---- Recovery ----------------------------------------------------------------------------------------------

  /** The logs before the one that stays in use are in the new tables. */
  lemma LogsSplit(d: Disk, reuse: bool, logFile: nat)
    requires d.manifest.logNumber <= logFile
    requires if reuse then IsLast(d, logFile) else logFile !in d.logs && forall n :: n in d.logs ==> n < logFile
    ensures InLogsFrom(d, d.manifest.logNumber)
         == InLogs(d, d.manifest.logNumber, logFile) + if reuse then RecordsOf(d.logs[logFile]) else {}
  {
    if reuse {
      LastLogSplit(d, d.manifest.logNumber, logFile);
    } else {
      forall r | r in InLogsFrom(d, d.manifest.logNumber) ensures r in InLogs(d, d.manifest.logNumber, logFile) {
        var n :| n in d.logs && d.manifest.logNumber <= n && r in d.logs[n].records;
        InLogsBetween(d, d.manifest.logNumber, logFile, n, r);
      }
    }
  }

  lemma LogOpened(d: Disk, logFile: nat, log: Log)
    requires LogsOrdered(d) && forall n :: n in d.logs ==> n <= logFile
    requires if logFile in d.logs then log == d.logs[logFile] else log.records == []
    ensures LogsOrdered(SetLog(d, logFile, log))
    ensures forall from :: InLogsFrom(SetLog(d, logFile, log), from) == InLogsFrom(d, from)
    ensures forall from :: InLogs(SetLog(d, logFile, log), from, logFile) == InLogs(d, from, logFile)
  {
    var d2 := SetLog(d, logFile, log);
    forall from ensures InLogsFrom(d2, from) == InLogsFrom(d, from) {
      forall r | r in InLogsFrom(d, from) ensures r in InLogsFrom(d2, from) {
        var n :| n in d.logs && from <= n && r in d.logs[n].records;
        InLogsMember(d2, from, n, r);
      }
    }
    forall from ensures InLogs(d2, from, logFile) == InLogs(d, from, logFile) {
      SameLogsBetween(d, d2, from, logFile);
    }
  }

  lemma TablesRecovered(d: Disk, d2: Disk, tables: map<nat, set<Record>>)
    requires d2.tables == d.tables + tables && forall t :: t in tables ==> t !in d.manifest.version
    ensures InTables(d2, d.manifest.version) == InTables(d, d.manifest.version)
    ensures InTables(d2, tables.Keys) == Covered(tables)
  {
    SameTables(d, d2, d.manifest.version);
  }

  /** The disk after a recovery, by its parts. */
  ghost predicate Results(d: Disk, tables: map<nat, set<Record>>, gone: set<Record>, reuse: bool, save: bool, logFile: nat, nextFile: nat, lastSequence: nat, d2: Disk) {
    && CountersOk(d, tables, gone, reuse, logFile, nextFile, lastSequence) && (!save ==> tables == map[] && gone == {})
    && d2.logs == (if reuse then d.logs else d.logs[logFile := Log([], 0, false)]) && d2.tables == d.tables + tables
    && d2.manifest == if save then Manifest(d.manifest.version + tables.Keys, logFile, nextFile, lastSequence, d.manifest.dropped + gone)
                      else d.manifest
  }

  lemma FreshTables(d: Disk, tables: map<nat, set<Record>>)
    requires DiskOk(d) && forall t :: t in tables ==> d.manifest.nextFile < t
    ensures forall t :: t in tables ==> t !in d.manifest.version
  {}

  /** Opening the database brings back exactly what there was; the manifest and the log that is continued hold it. */
  lemma RecoveredLogs(d: Disk, tables: map<nat, set<Record>>, gone: set<Record>, reuse: bool, save: bool, logFile: nat, nextFile: nat,
                      lastSequence: nat, d2: Disk)
    requires DiskOk(d) && Results(d, tables, gone, reuse, save, logFile, nextFile, lastSequence, d2)
    ensures LogsOrdered(d2) && Recovered(d2) == Recovered(d) && logFile in d2.logs
    ensures RecordsOf(d2.logs[logFile]) == if reuse then RecordsOf(d.logs[logFile]) else {}
    ensures Settled(d2) == Settled(d) + InLogs(d, d.manifest.logNumber, logFile)
    ensures InLogs(d2, d2.manifest.logNumber, logFile) == {} && d2.manifest.logNumber <= logFile
  {
    hide InTables, Recovered, LogsOrdered, InLogs, InLogsFrom;
    FreshTables(d, tables);
    LogsSplit(d, reuse, logFile);
    LogOpened(d, logFile, d2.logs[logFile]);
    TablesRecovered(d, d2, tables);
    InTablesJoin(d2, d.manifest.version, tables.Keys);
    assert d2.logs == SetLog(d, logFile, d2.logs[logFile]).logs;
    SameLogs(SetLog(d, logFile, d2.logs[logFile]), d2);
    LastLogSplit(d2, d2.manifest.logNumber, logFile);
    if !save {
      assert Covered(tables) == {};
      assert d.manifest.version + tables.Keys == d.manifest.version;
    } else {
      NoLogBetween(d2, logFile);
    }
    RecoveredSame(d, d2, logFile);
  }

  lemma NoLogBetween(d: Disk, n: nat)
    ensures InLogs(d, n, n) == {}
  {}

  lemma RecoveredSame(d: Disk, d2: Disk, logFile: nat)
    requires Settled(d2) == Settled(d) + InLogs(d, d.manifest.logNumber, logFile)
    requires InLogsFrom(d2, d2.manifest.logNumber) + InLogs(d, d.manifest.logNumber, logFile) == InLogsFrom(d, d.manifest.logNumber)
    ensures Recovered(d2) == Recovered(d)
  {}

  lemma SameLogs(d: Disk, d2: Disk)
    requires d2.logs == d.logs && LogsOrdered(d) && d.manifest.logNumber <= d2.manifest.logNumber
    ensures LogsOrdered(d2)
    ensures forall from :: InLogsFrom(d2, from) == InLogsFrom(d, from)
    ensures forall from, to :: InLogs(d2, from, to) == InLogs(d, from, to)
  {}

  lemma RecoverKeepsPromises(d: Disk, d2: Disk, logFile: nat, durable: set<Record>)
    requires forall r :: r in durable ==> Promised(d, r)
    requires Settled(d2) == Settled(d) + InLogs(d, d.manifest.logNumber, logFile)
    requires d2.manifest.logNumber <= logFile && logFile in d2.logs
    requires forall n :: n in d.logs ==> n <= logFile && (n == logFile ==> d2.logs[n] == d.logs[n])
    ensures forall r :: r in durable ==> Promised(d2, r)
  {
    forall r | r in durable && r !in Settled(d) ensures Promised(d2, r) {
      var n, i :| n in d.logs && d.manifest.logNumber <= n && 0 <= i < d.logs[n].synced && i < |d.logs[n].records| && d.logs[n].records[i] == r;
      if n < logFile {
        InLogsBetween(d, d.manifest.logNumber, logFile, n, r);
      }
    }
  }

  lemma RecoveredDisk(d: Disk, tables: map<nat, set<Record>>, gone: set<Record>, reuse: bool, save: bool, logFile: nat, nextFile: nat,
                      lastSequence: nat, d2: Disk)
    requires DiskOk(d) && Results(d, tables, gone, reuse, save, logFile, nextFile, lastSequence, d2)
    requires LogsOrdered(d2) && Recovered(d2) == Recovered(d)
    requires Settled(d2) == Settled(d) + InLogs(d, d.manifest.logNumber, logFile)
    ensures DiskOk(d2)
  {
    hide LogsOrdered, InTables;
    forall r | r in Settled(d2) ensures r.last <= d2.manifest.lastSequence {
      assert r in Recovered(d2);
      if !save {
        assert Covered(tables) == {};
      }
    }
    forall r | r in InLogsFrom(d2, d2.manifest.logNumber) ensures r.first <= r.last + 1 {
      var n :| n in d2.logs && d2.manifest.logNumber <= n && r in d2.logs[n].records;
      InLogsMember(d, d.manifest.logNumber, n, r);
    }
  }

  /** Recovery brings back what there was and continues at the greatest sequence number of it. */
  lemma RecoverKeepsInv(s: State, full: (nat, nat) -> bool, reuse: bool, reuseManifest: bool, s2: State)
    requires Inv(s) && Recovers(s, full, reuse, reuseManifest, s2)
    ensures Inv(s2) && Recovered(s2.disk) == Recovered(s.disk) && s2.memory.Some?
    ensures var last := s2.memory.value.lastSequence;
      && (forall r :: r in Recovered(s2.disk) ==> r.last <= last)
      && (last == s.disk.manifest.lastSequence || exists r :: r in Recovered(s2.disk) && r.last == last)
  {
    hide DiskOk, Opened, Recovered, LogsOrdered, InTables, InLogs, Promised;
    var ns :| IsLogList(s.disk, ns) && OpensAs(s, Opened(s.disk, ns, full, reuse, reuseManifest), reuseManifest, s2);
    var st, used := OpenedCounts(s.disk, ns, full, reuse, reuseManifest);
    var o := Opened(s.disk, ns, full, reuse, reuseManifest);
    assert Results(s.disk, st.tables, st.gone, used.Some?, st.save, o.logFile, o.nextFile, o.lastSequence, s2.disk);
    RecoveredLogs(s.disk, st.tables, st.gone, used.Some?, st.save, o.logFile, o.nextFile, o.lastSequence, s2.disk);
    RecoveredDisk(s.disk, st.tables, st.gone, used.Some?, st.save, o.logFile, o.nextFile, o.lastSequence, s2.disk);
    RecoverKeepsPromises(s.disk, s2.disk, o.logFile, s.durable);
    assert FilesOk(s2.disk, s2.memory.value);
  }

  lemma InterruptKeepsInv(s: State, tables: map<nat, set<Record>>, created: Option<nat>, s2: State)
    requires Inv(s) && Interrupts(s, tables, created, s2)
    ensures Inv(s2)
  {
    hide LogsOrdered, InTables, InLogsFrom;
    var d, d2 := s.disk, s2.disk;
    FreshTables(d, tables);
    TablesRecovered(d, d2, tables);
    if created.Some? {
      NewLog(d, created.value);
    }
    var between := d.(logs := d2.logs);
    SameLogs(between, d2);
    if created.Some? {
      assert between == SetLog(d, created.value, Log([], 0, false));
    } else {
      assert between == d;
    }
    assert InLogsFrom(d2, d.manifest.logNumber) == InLogsFrom(d, d.manifest.logNumber);
    PromisesHold(d, d2, s.durable);
  }

  lemma PromisesHold(d: Disk, d2: Disk, durable: set<Record>)
    requires forall r :: r in durable ==> Promised(d, r)
    requires d2.manifest == d.manifest && InTables(d2, d.manifest.version) == InTables(d, d.manifest.version)
    requires forall n :: n in d.logs ==> n in d2.logs && d2.logs[n] == d.logs[n]
    ensures forall r :: r in durable ==> Promised(d2, r)
  {
    forall r | r in durable && r !in Settled(d) ensures Promised(d2, r) {
      var n, i :| n in d.logs && d.manifest.logNumber <= n && 0 <= i < d.logs[n].synced && i < |d.logs[n].records| && d.logs[n].records[i] == r;
      assert d2.logs[n].records[i] == r;
    }
  }
}
