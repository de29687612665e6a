/** What a database keeps on disk: logs, tables and the manifest (db/db_impl.cc, db/version_set.cc). */
module Disks {

  /** A write group in a log: the sequence numbers it took, from `first` to `last`.  An empty batch takes none. */
  datatype Record = Record(first: nat, last: nat)

  predicate IsEmpty(r: Record) {
    r.last < r.first
  }

  /** Records that leave a memtable without an entry. */
  predicate NoEntries(records: set<Record>) {
    forall r :: r in records ==> IsEmpty(r)
  }

  /** The records that a log gives back, of which a crash spares at least the synced ones.  A log is torn if it cannot be
      continued (`LogReopening.Continues`): its file ends inside a physical record with room for another one behind it, and
      what is appended to it may not be read. */
  datatype Log = Log(records: seq<Record>, synced: nat, torn: bool)

  /** `dropped` is history: records that the version accounts for without a table, because nothing was left of them. */
  datatype Manifest = Manifest(version: set<nat>, logNumber: nat, nextFile: nat, lastSequence: nat, dropped: set<Record>)

  /** A table is known by the records whose entries went into it, directly or by compaction.  The file of the manifest is
      frayed if it does not end cleanly (`LogReopening.CleanEnd`): a record appended to it would make it unreadable, since
      opening a database fails on any report of the log reader about the manifest.  A file that is not torn like a log may
      still be frayed, by fragments of an unfinished record. */
  datatype Disk = Disk(logs: map<nat, Log>, tables: map<nat, set<Record>>, manifest: Manifest, frayed: bool)

  /** The files of the directory. */
  datatype FileName = LogFile(number: nat) | TableFile(number: nat)

  ghost predicate Lists(d: Disk, names: seq<FileName>) {
    && (forall n :: n in d.logs <==> LogFile(n) in names)
    && (forall t :: t in d.tables <==> TableFile(t) in names)
    && (forall i, j :: 0 <= i < j < |names| ==> names[i] != names[j])
  }

  // ---- Where records are -------------------------------------------------------------------------------------------

  ghost function RecordsOf(log: Log): set<Record> {
    set r | r in log.records
  }

  lemma InLogsMember(d: Disk, from: nat, n: nat, r: Record)
    requires n in d.logs && from <= n && r in d.logs[n].records
    ensures r in InLogsFrom(d, from)
  {}

  lemma InLogsBetween(d: Disk, from: nat, to: nat, n: nat, r: Record)
    requires n in d.logs && from <= n < to && r in d.logs[n].records
    ensures r in InLogs(d, from, to)
  {}

  ghost function InTables(d: Disk, files: set<nat>): set<Record> {
    set t, r | t in files && t in d.tables && r in d.tables[t] :: r
  }

  ghost function InLogs(d: Disk, from: nat, to: nat): set<Record> {
    set n, r | n in d.logs && from <= n < to && r in d.logs[n].records :: r
  }

  ghost function InLogsFrom(d: Disk, from: nat): set<Record> {
    set n, r | n in d.logs && from <= n && r in d.logs[n].records :: r
  }

  /** What the version accounts for. */
  ghost function Settled(d: Disk): set<Record> {
    InTables(d, d.manifest.version) + d.manifest.dropped
  }

  /** What opening the database brings back: what the version accounts for, and the logs from its log number on. */
  ghost function Recovered(d: Disk): set<Record> {
    Settled(d) + InLogsFrom(d, d.manifest.logNumber)
  }

  // ---- What a disk keeps to --------------------------------------------------------------------------------------

  /** Within a log, and from one log to the next, sequence numbers increase. */
  ghost predicate LogsOrdered(d: Disk) {
    && (forall n :: n in d.logs && d.manifest.logNumber <= n ==> Increasing(d.logs[n].records))
    && (forall n, m :: n in d.logs && m in d.logs && d.manifest.logNumber <= n < m ==> AllBefore(d.logs[n].records, d.logs[m].records))
  }

  ghost predicate Increasing(records: seq<Record>) {
    forall i, j :: 0 <= i < j < |records| ==> records[i].last < records[j].first
  }

  ghost predicate AllBefore(a: seq<Record>, b: seq<Record>) {
    forall r, q :: r in a && q in b ==> r.last < q.first
  }

  ghost predicate DiskOk(d: Disk) {
    && d.manifest.version <= d.tables.Keys
    && (forall t :: t in d.manifest.version ==> t < d.manifest.nextFile) && d.manifest.logNumber < d.manifest.nextFile
    && (forall r :: r in Settled(d) ==> r.last <= d.manifest.lastSequence)
    && (forall r :: r in InLogsFrom(d, d.manifest.logNumber) ==> r.first <= r.last + 1)
    && (forall n :: n in d.logs ==> d.logs[n].synced <= |d.logs[n].records|)
    && LogsOrdered(d)
  }

  /** What is promised is accounted for by the version, or in the synced part of a log that recovery reads. */
  ghost predicate Promised(d: Disk, r: Record) {
    || r in Settled(d)
    || exists n, i :: n in d.logs && d.manifest.logNumber <= n && 0 <= i < d.logs[n].synced && i < |d.logs[n].records| && d.logs[n].records[i] == r
  }
}
