module Durability {
  // Runs of a database with crashes and recoveries: no write that exists is ever without a place from which recovery
  // reads it, unless a compaction has dropped all of it; and garbage collection over a directory.

  import opened Disks
  import opened Keys
  import opened Recovery
  import opened DurabilitySteps

  // ---- Runs ----------------------------------------------------------------------------------------------------

  lemma QuietStepKeepsInv(s: State, step: Step, s2: State)
    requires Inv(s) && Next(s, step, s2)
    requires step.FlushBegin? || step.HoldVersion? || step.ReleaseVersion? || step.CompactionBegin?
    ensures Inv(s2)
  {
    hide LogsOrdered, Promised, Recovered, InLogs, InLogsFrom;
    var d := s.disk;
    if step.CompactionBegin? {
      assert InTables(d, {}) == {};
    }
    CounterStep(s, s2);
  }

  /** Every step keeps the invariant. */
  lemma StepKeepsInv(s: State, step: Step, s2: State)
    requires Inv(s) && Next(s, step, s2)
    ensures Inv(s2)
  {
    match step
    case Write(r, sync) => WriteKeepsInv(s, r, sync, s2);
    case SwitchMemTable => SwitchKeepsInv(s, s2);
    case FlushBuilt => FlushBuiltKeepsInv(s, s2);
    case FlushCommit => FlushCommitKeepsInv(s, s2);
    case CompactionOutput(covers) => CompactionOutputKeepsInv(s, covers, s2);
    case CompactionCommit => CompactionCommitKeepsInv(s, s2);
    case DeleteObsoleteFiles => CollectionKeepsInv(s, s2);
    case Crash(logs, frayed) => CrashKeepsInv(s, logs, frayed, s2);
    case Recover(full, reuse, reuseManifest) => RecoverKeepsInv(s, full, reuse, reuseManifest, s2);
    case Interrupt(tables, created) => InterruptKeepsInv(s, tables, created, s2);
    case _ => QuietStepKeepsInv(s, step, s2);
  }

  ghost predicate IsRun(states: seq<State>, steps: seq<Step>) {
    && |states| == |steps| + 1
    && states[0] == State(Disk(map[], map[], Manifest({}, 0, 2, 0, {}), false), None, {}, {})
    && forall i :: 0 <= i < |steps| ==> Next(states[i], steps[i], states[i + 1])
  }

  lemma {:induction false} InvariantHolds(states: seq<State>, steps: seq<Step>, i: nat)
    requires IsRun(states, steps) && i < |states|
    ensures Inv(states[i])
  {
    if i > 0 {
      InvariantHolds(states, steps, i - 1);
      StepKeepsInv(states[i - 1], steps[i - 1], states[i]);
    }
  }

  /** A compaction left nothing of the record. */
  ghost predicate Drops(s: State, step: Step, r: Record) {
    && step.CompactionCommit? && s.memory.Some? && s.memory.value.compaction.Some?
    && r in InTables(s.disk, s.memory.value.compaction.value.inputs) && r !in InTables(s.disk, s.memory.value.compaction.value.outputs)
  }

  ghost predicate DropsAt(states: seq<State>, steps: seq<Step>, j: nat, i: nat, r: Record) {
    j < i <= |steps| && j < |states| && Drops(states[j], steps[j], r)
  }

  lemma NewlyDropped(s: State, step: Step, s2: State, r: Record)
    requires Inv(s) && Next(s, step, s2) && r in s2.disk.manifest.dropped && r !in s.disk.manifest.dropped
    ensures IsEmpty(r) || Drops(s, step, r)
  {
    hide Inv, Opened, DiskOk, InTables;
    if step.Recover? {
      RecoveryDrops(s, step.full, step.reuse, step.reuseManifest, s2, r);
    }
  }

  lemma RecoveryDrops(s: State, full: (nat, nat) -> bool, reuse: bool, reuseManifest: bool, s2: State, r: Record)
    requires Inv(s) && Recovers(s, full, reuse, reuseManifest, s2)
    requires r in s2.disk.manifest.dropped && r !in s.disk.manifest.dropped
    ensures IsEmpty(r)
  {
    hide DiskOk, Opened, Recovered, InLogs;
    var ns :| IsLogList(s.disk, ns) && OpensAs(s, Opened(s.disk, ns, full, reuse, reuseManifest), reuseManifest, s2);
    var st, used := OpenedCounts(s.disk, ns, full, reuse, reuseManifest);
    assert r in st.gone;
  }

  lemma {:induction false} DroppedOnlyByCompactions(states: seq<State>, steps: seq<Step>, i: nat)
    requires IsRun(states, steps) && i < |states|
    ensures forall r :: r in states[i].disk.manifest.dropped ==> IsEmpty(r) || exists j :: DropsAt(states, steps, j, i, r)
  {
    hide Next, Inv, Drops;
    if i > 0 {
      DroppedOnlyByCompactions(states, steps, i - 1);
      InvariantHolds(states, steps, i - 1);
      forall r | r in states[i].disk.manifest.dropped && !IsEmpty(r) ensures exists j :: DropsAt(states, steps, j, i, r) {
        if r in states[i - 1].disk.manifest.dropped {
          var j :| DropsAt(states, steps, j, i - 1, r);
          assert DropsAt(states, steps, j, i, r);
        } else {
          NewlyDropped(states[i - 1], steps[i - 1], states[i], r);
          assert DropsAt(states, steps, i - 1, i, r);
        }
      }
    }
  }

  /** In every state of every run: each existing write is accounted for by the version or is in a log that recovery
      reads, so that opening the database after a crash at this moment brings back all promised writes; what the version
      accounts for without a table is what compactions have dropped completely, and batches without entries; what is
      appended to the log and the manifest will be read; and the files of all live versions exist. */
  lemma NothingPromisedIsLost(states: seq<State>, steps: seq<Step>, i: nat)
    requires IsRun(states, steps) && i < |states|
    ensures states[i].written == Recovered(states[i].disk) && states[i].durable <= states[i].written
    ensures forall r :: r in states[i].disk.manifest.dropped ==> IsEmpty(r) || exists j :: DropsAt(states, steps, j, i, r)
    ensures states[i].disk.manifest.version <= states[i].disk.tables.Keys
    ensures states[i].memory.Some? ==>
      && CanAppend(states[i].disk, states[i].memory.value)
      && forall k :: 0 <= k < |states[i].memory.value.held| ==> states[i].memory.value.held[k] <= states[i].disk.tables.Keys
  {
    InvariantHolds(states, steps, i);
    DroppedOnlyByCompactions(states, steps, i);
    var d := states[i].disk;
    forall r | r in states[i].durable ensures r in Recovered(d) {
      if r !in Settled(d) {
        var n, j :| n in d.logs && d.manifest.logNumber <= n && 0 <= j < d.logs[n].synced && j < |d.logs[n].records| && d.logs[n].records[j] == r;
        InLogsMember(d, d.manifest.logNumber, n, r);
      }
    }
  }

  /** The records of the logs, in the order in which recovery replays them. */
  function Concatenated(d: Disk, ns: seq<nat>): seq<Record>
    requires forall n :: n in ns ==> n in d.logs
    decreases |ns|
  {
    if ns == [] then [] else Concatenated(d, ns[..|ns| - 1]) + d.logs[ns[|ns| - 1]].records
  }

  lemma {:induction false} ConcatenatedMember(d: Disk, ns: seq<nat>, r: Record)
    requires (forall n :: n in ns ==> n in d.logs) && r in Concatenated(d, ns)
    ensures exists n :: n in ns && r in d.logs[n].records
    decreases |ns|
  {
    var k := |ns| - 1;
    if r !in d.logs[ns[k]].records {
      ConcatenatedMember(d, ns[..k], r);
    }
  }

  lemma IncreasingJoin(a: seq<Record>, b: seq<Record>)
    requires Increasing(a) && Increasing(b) && AllBefore(a, b)
    ensures Increasing(a + b)
  {
    assert forall i :: 0 <= i < |a| ==> a[i] in a;
    assert forall j :: 0 <= j < |b| ==> b[j] in b;
  }

  lemma {:induction false} ConcatenatedIncreases(d: Disk, ns: seq<nat>)
    requires LogsOrdered(d) && (forall i, j :: 0 <= i < j < |ns| ==> ns[i] < ns[j])
    requires forall n :: n in ns ==> n in d.logs && d.manifest.logNumber <= n
    ensures Increasing(Concatenated(d, ns))
    decreases |ns|
  {
    hide Increasing;
    if ns == [] {
      NoneIncreases();
    } else {
      var k := |ns| - 1;
      ConcatenatedIncreases(d, ns[..k]);
      forall r, q | r in Concatenated(d, ns[..k]) && q in d.logs[ns[k]].records ensures r.last < q.first {
        ConcatenatedMember(d, ns[..k], r);
        var n :| n in ns[..k] && r in d.logs[n].records;
        assert AllBefore(d.logs[n].records, d.logs[ns[k]].records);
      }
      IncreasingJoin(Concatenated(d, ns[..k]), d.logs[ns[k]].records);
    }
  }

  lemma NoneIncreases()
    ensures Increasing([])
  {}

  /** Recovery replays the logs in the order of their numbers: the sequence numbers of all the records it inserts
      increase. */
  lemma ReplayIsInOrder(states: seq<State>, steps: seq<Step>, i: nat, ns: seq<nat>)
    requires IsRun(states, steps) && i < |states| && IsLogList(states[i].disk, ns)
    ensures Increasing(Concatenated(states[i].disk, ns))
  {
    InvariantHolds(states, steps, i);
    ConcatenatedIncreases(states[i].disk, ns);
  }

  /** Opening the database is the step of a recovery, if the manifest that it continues is not frayed and the log not
      torn. */
  method Open(d: Disk, names: seq<FileName>, full: (nat, nat) -> bool, reuse: bool, reuseManifest: bool, ghost s: State)
      returns (o: Opening)
    requires Inv(s) && s.memory == None && s.disk == d && Lists(d, names)
    ensures (reuseManifest ==> !d.frayed) && (o.logFile in d.logs ==> !d.logs[o.logFile].torn) ==>
      Next(s, Recover(full, reuse, reuseManifest),
           State(o.disk, Some(Memory(o.mem, None, o.logFile, o.nextFile, o.lastSequence, {}, [], Idle, None)), s.written, s.durable))
    ensures exists ns :: IsLogList(d, ns) && o == Opened(d, ns, full, reuse, reuseManifest)
  {
    hide Opened, IsLogList, DiskOk, Start;
    var recoverer := new Recoverer(d, full, reuse, reuseManifest);
    var r := recoverer.Open(names, reuseManifest);
    NothingIsMissing(d, names);
    o := r.value;
  }

  /** The tables that a recovery has written at any point may be left behind. */
  lemma MayBeInterrupted(s: State, ns: seq<nat>, k: nat, full: (nat, nat) -> bool, reuse: bool, reuseManifest: bool)
    requires s.memory == None && IsLogList(s.disk, ns) && k <= |ns|
    ensures var tables := ReplayLogs(full, reuse, s.disk, ns, k, Start(s.disk, reuseManifest)).0.tables;
            Next(s, Interrupt(tables, None), s.(disk := s.disk.(tables := s.disk.tables + tables)))
  {
    hide ReplayLogs;
    LogsReplayed(full, reuse, s.disk, ns, k, reuseManifest);
  }

  predicate Keep(name: FileName, logNumber: nat, live: set<nat>) {
    match name
    case LogFile(n) => n >= logNumber
    case TableFile(t) => t in live
  }

  function Collected(names: seq<FileName>, logNumber: nat, live: set<nat>): set<FileName> {
    if names == [] then {}
    else
      var name := names[|names| - 1];
      Collected(names[..|names| - 1], logNumber, live) + if Keep(name, logNumber, live) then {} else {name}
  }

  lemma {:induction false} CollectedIs(names: seq<FileName>, logNumber: nat, live: set<nat>)
    ensures forall name :: name in Collected(names, logNumber, live) <==> name in names && !Keep(name, logNumber, live)
  {
    if names != [] {
      CollectedIs(names[..|names| - 1], logNumber, live);
    }
  }

  /** The loop over the directory. */
  method DeleteObsoleteFiles(d: Disk, names: seq<FileName>, live: set<nat>) returns (d2: Disk)
    requires Lists(d, names)
    ensures d2.manifest == d.manifest
    ensures d2.logs == map n | n in d.logs && n >= d.manifest.logNumber :: d.logs[n]
    ensures d2.tables == map t | t in d.tables && t in live :: d.tables[t]
  {
    var deleted: set<FileName> := {};
    for i := 0 to |names|
      invariant deleted == Collected(names[..i], d.manifest.logNumber, live)
    {
      assert names[..i + 1][..i] == names[..i];
      if !Keep(names[i], d.manifest.logNumber, live) {
        deleted := deleted + {names[i]};
      }
    }
    assert names[..|names|] == names;
    CollectedIs(names, d.manifest.logNumber, live);
    hide Collected;
    d2 := d.(logs := map n | n in d.logs && LogFile(n) !in deleted :: d.logs[n],
             tables := map t | t in d.tables && TableFile(t) !in deleted :: d.tables[t]);
  }
}
