module Recovery {
  // Opening a database (db/db_impl.cc): the logs that are still needed are replayed in order into new tables, the last
  // one may be continued, and the counters are brought up to date.

  import opened Disks
  import opened Keys

  // ---- What is replayed ----------------------------------------------------------------------------------------------

  /** The state of a recovery: the memtable, the tables written so far, the records that left nothing to write, and the
      counters.  `compactions` counts the tables that the log at hand has filled; `save` says that the manifest has to be
      written. */
  datatype Replay = Replay(
    mem: Option<set<Record>>, tables: map<nat, set<Record>>, gone: set<Record>, nextFile: nat, maxSequence: nat, compactions: nat,
    save: bool)

  function Contents(mem: Option<set<Record>>): set<Record> {
    if mem.Some? then mem.value else {}
  }

  function Greater(a: nat, b: nat): nat {
    if a < b then b else a
  }

  /** A memtable without entries makes no table. */
  function WriteTable(st: Replay): Replay {
    var next := st.(mem := None, nextFile := st.nextFile + 1, save := true);
    if NoEntries(Contents(st.mem)) then next.(gone := st.gone + Contents(st.mem))
    else next.(tables := st.tables[st.nextFile := Contents(st.mem)])
  }

  /** A record enters the memtable; if that is `full` then, it becomes a table. */
  function Insert(st: Replay, r: Record, full: bool): Replay {
    var grown := st.(mem := Some(Contents(st.mem) + {r}), maxSequence := Greater(st.maxSequence, r.last));
    if full then WriteTable(grown.(compactions := grown.compactions + 1)) else grown
  }

  /** `full(n, i)` says whether the memtable is full after record `i` of log `n`. */
  function ReplayRecords(full: (nat, nat) -> bool, n: nat, records: seq<Record>, st: Replay): Replay
    decreases |records|
  {
    if records == [] then st
    else
      var i := |records| - 1;
      Insert(ReplayRecords(full, n, records[..i], st), records[i], full(n, i))
  }

  /** Does the last log stay in use? */
  predicate Reused(reuse: bool, last: bool, st: Replay) {
    reuse && last && st.compactions == 0
  }

  /** A memtable that is not reused becomes a table. */
  function EndLog(reused: bool, st: Replay): Replay {
    if reused then st.(mem := Some(Contents(st.mem))) else if st.mem.Some? then WriteTable(st) else st
  }

  function MarkUsed(nextFile: nat, n: nat): nat {
    if nextFile <= n then n + 1 else nextFile
  }

  /** One log; the second result is the number of a log that stays in use. */
  function ReplayLog(full: (nat, nat) -> bool, reuse: bool, n: nat, log: Log, last: bool, st: Replay): (Replay, Option<nat>) {
    var read := ReplayRecords(full, n, log.records, st.(mem := None, compactions := 0));
    var reused := Reused(reuse, last, read);
    var end := EndLog(reused, read);
    (end.(nextFile := MarkUsed(end.nextFile, n), compactions := 0), if reused then Some(n) else None)
  }

  function Start(d: Disk, reuseManifest: bool): Replay {
    Replay(None, map[], {}, d.manifest.nextFile + 1, 0, 0, !reuseManifest)
  }

  /** The first `k` of the logs. */
  function ReplayLogs(full: (nat, nat) -> bool, reuse: bool, d: Disk, ns: seq<nat>, k: nat, st: Replay): (Replay, Option<nat>)
    requires k <= |ns| && forall n :: n in ns ==> n in d.logs
    decreases k
  {
    if k == 0 then (st, None)
    else
      var n := ns[k - 1];
      ReplayLog(full, reuse, n, d.logs[n], k == |ns|, ReplayLogs(full, reuse, d, ns, k - 1, st).0)
  }

  /** The database as it is opened: the disk, and the memory that belongs to it. */
  datatype Opening = Opening(disk: Disk, mem: set<Record>, logFile: nat, nextFile: nat, lastSequence: nat)

  /** Without a log to continue, a new one is created; the manifest is written if there is something new. */
  function Finish(d: Disk, reuseManifest: bool, st: Replay, used: Option<nat>): Opening {
    var lastSequence := Greater(d.manifest.lastSequence, st.maxSequence);
    var logFile := if used.Some? then used.value else st.nextFile;
    var nextFile := if used.Some? then st.nextFile else st.nextFile + 1;
    var logs := if used.Some? then d.logs else d.logs[logFile := Log([], 0, false)];
    var manifest :=
      if st.save then Manifest(d.manifest.version + st.tables.Keys, logFile, nextFile, lastSequence, d.manifest.dropped + st.gone)
      else d.manifest;
    Opening(Disk(logs, d.tables + st.tables, manifest, reuseManifest && d.frayed), Contents(st.mem), logFile, nextFile, lastSequence)
  }

  function Opened(d: Disk, ns: seq<nat>, full: (nat, nat) -> bool, reuse: bool, reuseManifest: bool): Opening
    requires forall n :: n in ns ==> n in d.logs
  {
    var (st, used) := ReplayLogs(full, reuse, d, ns, |ns|, Start(d, reuseManifest));
    Finish(d, reuseManifest, st, used)
  }

  /** The logs to replay, in the order of their numbers. */
  ghost predicate IsLogList(d: Disk, ns: seq<nat>) {
    && (forall i, j :: 0 <= i < j < |ns| ==> ns[i] < ns[j])
    && (forall n :: n in ns <==> n in d.logs && d.manifest.logNumber <= n)
  }

  // ---- What a recovery has -------------------------------------------------------------------------------------------

  ghost function Covered(tables: map<nat, set<Record>>): set<Record> {
    set t, r | t in tables && r in tables[t] :: r
  }

  /** What the tables account for, and what left nothing. */
  ghost function Flushed(st: Replay): set<Record> {
    Covered(st.tables) + st.gone
  }

  ghost function Gathered(st: Replay): set<Record> {
    Flushed(st) + Contents(st.mem)
  }

  ghost predicate Fresh(from: nat, st: Replay) {
    from <= st.nextFile && forall t :: t in st.tables ==> from <= t < st.nextFile
  }

  /** `b` comes after `a`, with `records` replayed between them. */
  ghost predicate Extends(a: Replay, records: set<Record>, b: Replay) {
    && Gathered(b) == Gathered(a) + records && a.nextFile <= b.nextFile
    && a.maxSequence <= b.maxSequence && (forall r :: r in records ==> r.last <= b.maxSequence)
    && (b.maxSequence == a.maxSequence || exists r :: r in records && r.last == b.maxSequence)
    && (a.save ==> b.save) && (!b.save ==> b.tables == a.tables && b.gone == a.gone)
    && (NoEntries(a.gone) ==> NoEntries(b.gone))
    && a.compactions <= b.compactions
    && (b.compactions == a.compactions ==> b.tables == a.tables && b.gone == a.gone && b.save == a.save && Contents(b.mem) == Contents(a.mem) + records)
  }

  lemma CoverGrows(tables: map<nat, set<Record>>, t: nat, contents: set<Record>)
    requires t !in tables
    ensures Covered(tables[t := contents]) == Covered(tables) + contents
  {
    var grown := tables[t := contents];
    forall r | r in Covered(tables) + contents ensures r in Covered(grown) {
      if r in contents {
        assert t in grown && r in grown[t];
      } else {
        var u :| u in tables && r in tables[u];
        assert u in grown && r in grown[u];
      }
    }
  }

  lemma WriteTableKeeps(from: nat, st: Replay)
    requires Fresh(from, st)
    ensures Fresh(from, WriteTable(st)) && Gathered(WriteTable(st)) == Gathered(st) == Flushed(WriteTable(st))
    ensures NoEntries(st.gone) ==> NoEntries(WriteTable(st).gone)
  {
    CoverGrows(st.tables, st.nextFile, Contents(st.mem));
  }

  lemma InsertExtends(from: nat, st: Replay, r: Record, full: bool)
    requires Fresh(from, st)
    ensures Fresh(from, Insert(st, r, full)) && Extends(st, {r}, Insert(st, r, full))
  {
    var grown := st.(mem := Some(Contents(st.mem) + {r}), maxSequence := Greater(st.maxSequence, r.last));
    assert Gathered(grown) == Gathered(st) + {r};
    if full {
      WriteTableKeeps(from, grown.(compactions := grown.compactions + 1));
    }
    assert r in {r};
  }

  lemma ExtendsTwice(a: Replay, p: set<Record>, b: Replay, q: set<Record>, c: Replay)
    requires Extends(a, p, b) && Extends(b, q, c)
    ensures Extends(a, p + q, c)
  {
    hide Gathered;
    if c.maxSequence != a.maxSequence {
      if c.maxSequence != b.maxSequence {
        var r :| r in q && r.last == c.maxSequence;
        assert r in p + q;
      } else {
        var r :| r in p && r.last == b.maxSequence;
        assert r in p + q;
      }
    }
  }

  ghost function AsSet(records: seq<Record>): set<Record> {
    set r | r in records
  }

  lemma {:induction false} ReplayExtends(full: (nat, nat) -> bool, n: nat, records: seq<Record>, from: nat, st: Replay)
    requires Fresh(from, st)
    ensures Fresh(from, ReplayRecords(full, n, records, st)) && Extends(st, AsSet(records), ReplayRecords(full, n, records, st))
    decreases |records|
  {
    hide Fresh, Extends, Insert;
    if records == [] {
      ExtendsNothing(st, AsSet(records));
    } else {
      var i := |records| - 1;
      var before := ReplayRecords(full, n, records[..i], st);
      ReplayExtends(full, n, records[..i], from, st);
      InsertExtends(from, before, records[i], full(n, i));
      ExtendsTwice(st, AsSet(records[..i]), before, {records[i]}, ReplayRecords(full, n, records, st));
      assert records == records[..i] + [records[i]];
      assert AsSet(records) == AsSet(records[..i]) + {records[i]};
    }
  }

  lemma ExtendsNothing(st: Replay, none: set<Record>)
    requires none == {}
    ensures Extends(st, none, st)
  {}

  ghost function LogRecords(d: Disk, ns: seq<nat>): set<Record> {
    set n, r | n in ns && n in d.logs && r in d.logs[n].records :: r
  }

  /** What `k` replayed logs have come to: their records are in new tables, but those of a log that stays in use are in
      the memtable. */
  ghost predicate Replayed(d: Disk, ns: seq<nat>, k: nat, st: Replay, used: Option<nat>)
    requires k <= |ns|
  {
    && Fresh(d.manifest.nextFile + 1, st) && (forall i :: 0 <= i < k ==> ns[i] < st.nextFile)
    && (!st.save ==> st.tables == map[] && st.gone == {}) && NoEntries(st.gone)
    && (forall r :: r in LogRecords(d, ns[..k]) ==> r.last <= st.maxSequence)
    && (st.maxSequence == 0 || exists r :: r in LogRecords(d, ns[..k]) && r.last == st.maxSequence)
    && (match used
        case None => st.mem.None? && Flushed(st) == LogRecords(d, ns[..k])
        case Some(n) =>
          0 < k == |ns| && n == ns[k - 1] && n in d.logs && st.mem == Some(RecordsOf(d.logs[n]))
          && Flushed(st) == LogRecords(d, ns[..k - 1]))
  }

  lemma OneMoreLog(d: Disk, ns: seq<nat>, n: nat)
    requires n in d.logs
    ensures LogRecords(d, ns + [n]) == LogRecords(d, ns) + RecordsOf(d.logs[n])
  {
    var all := LogRecords(d, ns + [n]);
    forall r | r in LogRecords(d, ns) ensures r in all {
      var m :| m in ns && m in d.logs && r in d.logs[m].records;
      assert m in ns + [n];
    }
    forall r | r in RecordsOf(d.logs[n]) ensures r in all {
      assert n in ns + [n];
    }
  }

  /** What one log adds. */
  ghost predicate Adds(before: set<Record>, records: set<Record>, n: nat, last: bool, from: nat, st: Replay, end: Replay, used: Option<nat>) {
    && Fresh(from, end) && n < end.nextFile && st.nextFile <= end.nextFile && st.maxSequence <= end.maxSequence
    && (st.save ==> end.save) && (!end.save ==> end.tables == st.tables && end.gone == st.gone)
    && (NoEntries(st.gone) ==> NoEntries(end.gone))
    && (forall r :: r in records ==> r.last <= end.maxSequence)
    && (end.maxSequence == st.maxSequence || exists r :: r in records && r.last == end.maxSequence)
    && (used.None? ==> end.mem.None? && Flushed(end) == before + records)
    && (used.Some? ==> last && used == Some(n) && end.mem == Some(records) && end.tables == st.tables && end.gone == st.gone)
  }

  lemma LogReplayed(d: Disk, before: set<Record>, full: (nat, nat) -> bool, reuse: bool, n: nat, last: bool, from: nat, st: Replay)
    requires n in d.logs && Fresh(from, st) && st.mem.None? && Flushed(st) == before
    ensures var (end, used) := ReplayLog(full, reuse, n, d.logs[n], last, st);
            Adds(before, RecordsOf(d.logs[n]), n, last, from, st, end, used)
  {
    hide ReplayRecords, Covered;
    var a := st.(mem := None, compactions := 0);
    var read := ReplayRecords(full, n, d.logs[n].records, a);
    ReplayExtends(full, n, d.logs[n].records, from, a);
    var records := RecordsOf(d.logs[n]);
    assert AsSet(d.logs[n].records) == records && {} + records == records;
    if !Reused(reuse, last, read) && read.mem.Some? {
      WriteTableKeeps(from, read);
    }
  }

  lemma {:induction false} LogsReplayed(full: (nat, nat) -> bool, reuse: bool, d: Disk, ns: seq<nat>, k: nat, reuseManifest: bool)
    requires k <= |ns| && forall n :: n in ns ==> n in d.logs
    ensures var (st, used) := ReplayLogs(full, reuse, d, ns, k, Start(d, reuseManifest)); Replayed(d, ns, k, st, used)
    ensures ReplayLogs(full, reuse, d, ns, k, Start(d, reuseManifest)).1.Some? ==> k == |ns|
    decreases k
  {
    hide ReplayLog, Fresh, RecordsOf;
    if k == 0 {
      NothingReplayed(d, ns, reuseManifest);
    } else {
      var n := ns[k - 1];
      var (st, used) := ReplayLogs(full, reuse, d, ns, k - 1, Start(d, reuseManifest));
      LogsReplayed(full, reuse, d, ns, k - 1, reuseManifest);
      LogReplayed(d, LogRecords(d, ns[..k - 1]), full, reuse, n, k == |ns|, d.manifest.nextFile + 1, st);
      OneMoreLog(d, ns[..k - 1], n);
      assert ns[..k] == ns[..k - 1] + [n];
      var (end, used') := ReplayLog(full, reuse, n, d.logs[n], k == |ns|, st);
      AddedIsReplayed(d, ns, k, st, end, used');
    }
  }

  lemma AddedIsReplayed(d: Disk, ns: seq<nat>, k: nat, st: Replay, end: Replay, used: Option<nat>)
    requires 0 < k <= |ns| && ns[k - 1] in d.logs && Replayed(d, ns, k - 1, st, None)
    requires LogRecords(d, ns[..k]) == LogRecords(d, ns[..k - 1]) + RecordsOf(d.logs[ns[k - 1]])
    requires Adds(LogRecords(d, ns[..k - 1]), RecordsOf(d.logs[ns[k - 1]]), ns[k - 1], k == |ns|, d.manifest.nextFile + 1, st, end, used)
    ensures Replayed(d, ns, k, end, used)
  {
    hide RecordsOf, LogRecords, Covered;
  }

  lemma NothingReplayed(d: Disk, ns: seq<nat>, reuseManifest: bool)
    ensures Replayed(d, ns, 0, Start(d, reuseManifest), None)
  {
    assert LogRecords(d, ns[..0]) == {};
  }

  lemma ListedRecords(d: Disk, ns: seq<nat>)
    requires IsLogList(d, ns)
    ensures LogRecords(d, ns) == InLogsFrom(d, d.manifest.logNumber)
  {}

  /** The logs before the last one. */
  lemma ListedBefore(d: Disk, ns: seq<nat>)
    requires IsLogList(d, ns) && ns != []
    ensures var n := ns[|ns| - 1];
      && LogRecords(d, ns[..|ns| - 1]) == InLogs(d, d.manifest.logNumber, n) && IsLast(d, n)
  {
    var k := |ns| - 1;
    forall m | m in d.logs ensures m <= ns[k] {
      if m in ns {
        var i :| 0 <= i < |ns| && ns[i] == m;
      } else {
        assert ns[k] in ns;
      }
    }
    forall r | r in InLogs(d, d.manifest.logNumber, ns[k]) ensures r in LogRecords(d, ns[..k]) {
      var m :| m in d.logs && d.manifest.logNumber <= m < ns[k] && r in d.logs[m].records;
      var i :| 0 <= i < |ns| && ns[i] == m;
      assert ns[..k][i] == m;
    }
    forall r | r in LogRecords(d, ns[..k]) ensures r in InLogs(d, d.manifest.logNumber, ns[k]) {
      var m :| m in ns[..k] && m in d.logs && r in d.logs[m].records;
      var i :| 0 <= i < k && ns[..k][i] == m;
      assert ns[i] < ns[k] && m in ns;
      InLogsBetween(d, d.manifest.logNumber, ns[k], m, r);
    }
  }

  ghost predicate IsLast(d: Disk, n: nat) {
    n in d.logs && n >= d.manifest.logNumber && forall k :: k in d.logs ==> k <= n
  }

  /** All logs are below a new file number. */
  lemma LogsBelow(d: Disk, ns: seq<nat>, nextFile: nat)
    requires DiskOk(d) && IsLogList(d, ns) && d.manifest.nextFile <= nextFile && forall i :: 0 <= i < |ns| ==> ns[i] < nextFile
    ensures forall n :: n in d.logs ==> n < nextFile
    ensures InLogsFrom(d, d.manifest.logNumber) == InLogs(d, d.manifest.logNumber, nextFile)
  {
    forall n | n in d.logs ensures n < nextFile {
      if d.manifest.logNumber <= n {
        assert n in ns;
      }
    }
    forall r | r in InLogsFrom(d, d.manifest.logNumber) ensures r in InLogs(d, d.manifest.logNumber, nextFile) {
      var n :| n in d.logs && d.manifest.logNumber <= n && r in d.logs[n].records;
      InLogsBetween(d, d.manifest.logNumber, nextFile, n, r);
    }
  }

  /** The numbers that a recovery hands out are fresh; the new tables hold the records of all logs but the one that
      stays in use, which is the last; and the sequence number it continues from is the greatest there is. */
  ghost predicate CountersOk(d: Disk, tables: map<nat, set<Record>>, gone: set<Record>, reuse: bool, logFile: nat, nextFile: nat, lastSequence: nat) {
    && (forall n :: n in d.logs ==> n < nextFile) && (forall t :: t in tables ==> d.manifest.nextFile < t < nextFile)
    && logFile < nextFile && d.manifest.nextFile <= nextFile && d.manifest.logNumber <= logFile
    && (if reuse then IsLast(d, logFile) else logFile !in d.logs && forall n :: n in d.logs ==> n < logFile)
    && Covered(tables) + gone == InLogs(d, d.manifest.logNumber, logFile) && NoEntries(gone)
    && d.manifest.lastSequence <= lastSequence && (forall r :: r in Recovered(d) ==> r.last <= lastSequence)
    && (lastSequence == d.manifest.lastSequence || exists r :: r in Recovered(d) && r.last == lastSequence)
  }

  lemma ReplayedCounts(d: Disk, ns: seq<nat>, reuseManifest: bool, st: Replay, used: Option<nat>)
    requires DiskOk(d) && IsLogList(d, ns) && Replayed(d, ns, |ns|, st, used)
    ensures var o := Finish(d, reuseManifest, st, used);
      && CountersOk(d, st.tables, st.gone, used.Some?, o.logFile, o.nextFile, o.lastSequence)
      && o.mem == if used.Some? then RecordsOf(d.logs[o.logFile]) else {}
  {
    hide Covered, InLogs, LogRecords, RecordsOf;
    assert ns[..|ns|] == ns;
    ListedRecords(d, ns);
    LogsBelow(d, ns, st.nextFile);
    if used.Some? {
      ListedBefore(d, ns);
    }
  }

  /** What a recovery comes to. */
  lemma OpenedCounts(d: Disk, ns: seq<nat>, full: (nat, nat) -> bool, reuse: bool, reuseManifest: bool)
      returns (st: Replay, used: Option<nat>)
    requires DiskOk(d) && IsLogList(d, ns)
    ensures var o := Opened(d, ns, full, reuse, reuseManifest);
      && o == Finish(d, reuseManifest, st, used)
      && CountersOk(d, st.tables, st.gone, used.Some?, o.logFile, o.nextFile, o.lastSequence)
      && o.mem == (if used.Some? then RecordsOf(d.logs[o.logFile]) else {})
      && (!st.save ==> st.tables == map[] && st.gone == {})
  {
    hide ReplayLogs, CountersOk;
    var r := ReplayLogs(full, reuse, d, ns, |ns|, Start(d, reuseManifest));
    st, used := r.0, r.1;
    LogsReplayed(full, reuse, d, ns, |ns|, reuseManifest);
    ReplayedCounts(d, ns, reuseManifest, st, used);
  }

  // ---- When a log stays in use, and when the manifest is written -----------------------------------------------------

  /** The memtable gets full in none of the records of log `n`. */
  ghost predicate NeverFull(full: (nat, nat) -> bool, n: nat, count: nat) {
    forall i :: 0 <= i < count ==> !full(n, i)
  }

  /** Log `j` of the list is the last one, and its records stay in the memtable. */
  ghost predicate StaysInUse(full: (nat, nat) -> bool, reuse: bool, d: Disk, ns: seq<nat>, j: nat)
    requires j < |ns| && ns[j] in d.logs
  {
    reuse && j == |ns| - 1 && NeverFull(full, ns[j], |d.logs[ns[j]].records|)
  }

  lemma {:induction false} RecordsAre(full: (nat, nat) -> bool, n: nat, records: seq<Record>, st: Replay)
    ensures var r := ReplayRecords(full, n, records, st);
            && st.compactions <= r.compactions && (r.compactions == st.compactions <==> NeverFull(full, n, |records|))
            && (r.save <==> st.save || !NeverFull(full, n, |records|))
            && (r.mem.Some? <==> if records == [] then st.mem.Some? else !full(n, |records| - 1))
    decreases |records|
  {
    if records != [] {
      RecordsAre(full, n, records[..|records| - 1], st);
    }
  }

  lemma LogIs(full: (nat, nat) -> bool, reuse: bool, n: nat, log: Log, last: bool, st: Replay)
    ensures var (end, used) := ReplayLog(full, reuse, n, log, last, st);
            var stays := reuse && last && NeverFull(full, n, |log.records|);
            used == (if stays then Some(n) else None) && (end.save <==> st.save || (log.records != [] && !stays))
  {
    RecordsAre(full, n, log.records, st.(mem := None, compactions := 0));
    hide ReplayRecords, NoEntries;
  }

  /** Something of the first `k` logs went into tables. */
  ghost predicate Writes(full: (nat, nat) -> bool, reuse: bool, d: Disk, ns: seq<nat>, k: nat)
    requires k <= |ns| && forall n :: n in ns ==> n in d.logs
  {
    exists j :: 0 <= j < k && d.logs[ns[j]].records != [] && !StaysInUse(full, reuse, d, ns, j)
  }

  lemma {:induction false} LogsAre(full: (nat, nat) -> bool, reuse: bool, d: Disk, ns: seq<nat>, k: nat, st: Replay)
    requires k <= |ns| && forall n :: n in ns ==> n in d.logs
    ensures var (end, used) := ReplayLogs(full, reuse, d, ns, k, st);
            && used == (if k > 0 && StaysInUse(full, reuse, d, ns, k - 1) then Some(ns[k - 1]) else None)
            && (end.save <==> st.save || Writes(full, reuse, d, ns, k))
    decreases k
  {
    if k > 0 {
      var n := ns[k - 1];
      LogsAre(full, reuse, d, ns, k - 1, st);
      LogIs(full, reuse, n, d.logs[n], k == |ns|, ReplayLogs(full, reuse, d, ns, k - 1, st).0);
      hide ReplayLog, NeverFull;
      assert Writes(full, reuse, d, ns, k) <==> Writes(full, reuse, d, ns, k - 1) || (d.logs[n].records != [] && !StaysInUse(full, reuse, d, ns, k - 1));
    }
  }

  /** The last log stays in use exactly if logs may be reused and all of it fits into the memtable, and otherwise there
      is a new one.  The manifest is written exactly if its file is a new one or a record went into a table. */
  lemma OpenedIs(d: Disk, ns: seq<nat>, full: (nat, nat) -> bool, reuse: bool, reuseManifest: bool)
    requires forall n :: n in ns ==> n in d.logs
    ensures var o := Opened(d, ns, full, reuse, reuseManifest);
            && (if ns != [] && StaysInUse(full, reuse, d, ns, |ns| - 1) then o.logFile == ns[|ns| - 1] && o.disk.logs == d.logs
                else o.disk.logs == d.logs[o.logFile := Log([], 0, false)])
            && (if reuseManifest && !Writes(full, reuse, d, ns, |ns|) then o.disk.manifest == d.manifest
                else o.disk.manifest.logNumber == o.logFile && o.disk.manifest.nextFile == o.nextFile && o.disk.manifest.lastSequence == o.lastSequence)
  {
    LogsAre(full, reuse, d, ns, |ns|, Start(d, reuseManifest));
    hide ReplayLogs, Writes, StaysInUse;
  }

  // ---- The recovery itself -------------------------------------------------------------------------------------------

  lemma NothingRead(full: (nat, nat) -> bool, n: nat, records: seq<Record>, st: Replay)
    ensures ReplayRecords(full, n, records[..0], st) == st
  {}

  lemma OneMoreRead(full: (nat, nat) -> bool, n: nat, records: seq<Record>, i: nat, st: Replay)
    requires i < |records|
    ensures ReplayRecords(full, n, records[..i + 1], st) == Insert(ReplayRecords(full, n, records[..i], st), records[i], full(n, i))
  {
    assert records[..i + 1][..i] == records[..i];
  }

  /** The numbers of the files listed. */
  function Numbers(names: seq<FileName>): set<nat> {
    set name | name in names :: name.number
  }

  predicate Rising(ns: seq<nat>) {
    forall i, j :: 0 <= i < j < |ns| ==> ns[i] < ns[j]
  }

  /** Puts a number in its place. */
  method InsertSorted(ns: seq<nat>, n: nat) returns (more: seq<nat>)
    requires Rising(ns) && n !in ns
    ensures Rising(more) && forall m :: m in more <==> m in ns || m == n
  {
    var i := |ns|;
    while 0 < i && n < ns[i - 1]
      invariant 0 <= i <= |ns| && forall j :: i <= j < |ns| ==> n < ns[j]
    {
      i := i - 1;
    }
    more := ns[..i] + [n] + ns[i..];
    Inserted(ns, i, n);
  }

  lemma Inserted(ns: seq<nat>, i: nat, n: nat)
    requires Rising(ns) && n !in ns && i <= |ns|
    requires (0 < i ==> n >= ns[i - 1]) && forall j :: i <= j < |ns| ==> n < ns[j]
    ensures var more := ns[..i] + [n] + ns[i..]; Rising(more) && forall m :: m in more <==> m in ns || m == n
  {
    var more := ns[..i] + [n] + ns[i..];
    forall j | 0 <= j < i ensures ns[j] < n {
      assert ns[i - 1] in ns;
    }
    forall j, k | 0 <= j < k < |more| ensures more[j] < more[k] {
      assert more[j] == (if j < i then ns[j] else if j == i then n else ns[j - 1]);
      assert more[k] == (if k < i then ns[k] else if k == i then n else ns[k - 1]);
    }
    forall m ensures m in more <==> m in ns || m == n {
      InsertedMember(ns, i, n, m);
    }
  }

  lemma InsertedMember(ns: seq<nat>, i: nat, n: nat, m: nat)
    requires i <= |ns|
    ensures m in ns[..i] + [n] + ns[i..] <==> m in ns || m == n
  {
    assert ns == ns[..i] + ns[i..];
  }

  class Recoverer {
    const disk: Disk
    const full: (nat, nat) -> bool
    const reuseLogs: bool

    var mem: Option<set<Record>>
    var tables: map<nat, set<Record>>
    var gone: set<Record>
    var nextFile: nat
    var lastSequence: nat
    var maxSequence: nat
    var save: bool
    /** The log that stays in use. */
    var used: Option<nat>

    function State(compactions: nat): Replay
      reads this
    {
      Replay(mem, tables, gone, nextFile, maxSequence, compactions, save)
    }

    /** The manifest is read; it is written anew unless its file is continued. */
    constructor (disk: Disk, full: (nat, nat) -> bool, reuseLogs: bool, reuseManifest: bool)
      ensures this.disk == disk && this.full == full && this.reuseLogs == reuseLogs
      ensures State(0) == Start(disk, reuseManifest) && used == None && lastSequence == disk.manifest.lastSequence
    {
      this.disk, this.full, this.reuseLogs := disk, full, reuseLogs;
      mem, tables, gone, nextFile, maxSequence := None, map[], {}, disk.manifest.nextFile + 1, 0;
      lastSequence, save, used := disk.manifest.lastSequence, !reuseManifest, None;
    }

    method WriteLevel0Table(ghost compactions: nat)
      requires mem.Some?
      modifies `mem, `tables, `gone, `nextFile, `save
      ensures State(compactions) == WriteTable(old(State(compactions)))
    {
      if NoEntries(mem.value) {
        gone := gone + mem.value;
      } else {
        tables := tables[nextFile := mem.value];
      }
      nextFile := nextFile + 1;
      save := true;
      mem := None;
    }

    /** Reads the log into memtables; the last log is kept in use if it has not filled one. */
    method RecoverLogFile(n: nat, log: Log, lastLog: bool)
      requires used.None?
      modifies this
      ensures (State(0).(nextFile := MarkUsed(nextFile, n)), used) == ReplayLog(full, reuseLogs, n, log, lastLog, old(State(0)))
      ensures lastSequence == old(lastSequence)
    {
      hide NoEntries, WriteTable, ReplayRecords, MarkUsed;
      var compactions := 0;
      mem := None;
      ghost var start := State(0);
      NothingRead(full, n, log.records, start);
      for i := 0 to |log.records|
        invariant State(compactions) == ReplayRecords(full, n, log.records[..i], start)
        invariant used == None && lastSequence == old(lastSequence)
      {
        var record := log.records[i];
        OneMoreRead(full, n, log.records, i, start);
        if mem.None? {
          mem := Some({});
        }
        mem := Some(mem.value + {record});
        if record.last > maxSequence {
          maxSequence := record.last;
        }
        if full(n, i) {
          compactions := compactions + 1;
          WriteLevel0Table(compactions);
        }
      }
      assert log.records[..|log.records|] == log.records;
      if reuseLogs && lastLog && compactions == 0 {
        used := Some(n);
        if mem.None? {
          mem := Some({});
        }
      } else if mem.Some? {
        WriteLevel0Table(compactions);
      }
    }

    /** Are all tables of the version in the directory?  Any file with the number of a table stands for it. */
    method CheckFiles(names: seq<FileName>) returns (complete: bool)
      ensures complete <==> disk.manifest.version <= Numbers(names)
    {
      var expected := disk.manifest.version;
      for i := 0 to |names|
        invariant expected == disk.manifest.version - Numbers(names[..i])
      {
        assert names[..i + 1] == names[..i] + [names[i]];
        expected := expected - {names[i].number};
      }
      assert names[..|names|] == names;
      complete := expected == {};
      NothingLeft(disk.manifest.version, Numbers(names));
    }

    /** The logs from the log number of the manifest on, sorted. */
    method CollectLogs(names: seq<FileName>) returns (logs: seq<nat>)
      requires Lists(disk, names)
      ensures IsLogList(disk, logs)
    {
      logs := [];
      for i := 0 to |names|
        invariant Rising(logs)
        invariant forall n :: n in logs <==> LogFile(n) in names[..i] && disk.manifest.logNumber <= n
      {
        assert names[..i + 1] == names[..i] + [names[i]];
        match names[i] {
          case LogFile(n) =>
            if n >= disk.manifest.logNumber {
              NotBefore(names, i);
              logs := InsertSorted(logs, n);
            }
          case TableFile(_) =>
        }
      }
      assert names[..|names|] == names;
    }

    /** Replays the logs in order, unless a table is missing. */
    method Recover(names: seq<FileName>) returns (complete: bool, ghost ns: seq<nat>)
      requires Lists(disk, names) && used == None && lastSequence == disk.manifest.lastSequence
      modifies this
      ensures complete <==> disk.manifest.version <= Numbers(names)
      ensures complete ==>
        && IsLogList(disk, ns) && (State(0), used) == ReplayLogs(full, reuseLogs, disk, ns, |ns|, old(State(0)))
        && lastSequence == Greater(disk.manifest.lastSequence, maxSequence)
    {
      ns := [];
      complete := CheckFiles(names);
      if complete {
        var logs := CollectLogs(names);
        ns := logs;
        ghost var start := State(0);
        var i := 0;
        while i < |logs|
          invariant i <= |logs| && (i < |logs| ==> used == None) && lastSequence == disk.manifest.lastSequence
          invariant (State(0), used) == ReplayLogs(full, reuseLogs, disk, logs, i, start)
        {
          RecoverLogFile(logs[i], disk.logs[logs[i]], i == |logs| - 1);
          nextFile := MarkUsed(nextFile, logs[i]);
          i := i + 1;
        }
        if lastSequence < maxSequence {
          lastSequence := maxSequence;
        }
      }
    }

    /** Opens the database: a new log if none is continued, and a record in the manifest if there is anything new. */
    method Open(names: seq<FileName>, reuseManifest: bool) returns (r: Option<Opening>)
      requires Lists(disk, names)
      requires State(0) == Start(disk, reuseManifest) && used == None && lastSequence == disk.manifest.lastSequence
      modifies this
      ensures r.Some? <==> disk.manifest.version <= Numbers(names)
      ensures r.Some? ==> exists ns :: IsLogList(disk, ns) && r.value == Opened(disk, ns, full, reuseLogs, reuseManifest)
    {
      var complete, ns := Recover(names);
      if !complete {
        return None;
      }
      var logs, logFile := disk.logs, nextFile;
      if used.Some? {
        logFile := used.value;
      } else {
        nextFile := nextFile + 1;
        logs := logs[logFile := Log([], 0, false)];
      }
      var manifest := disk.manifest;
      if save {
        manifest := Manifest(manifest.version + tables.Keys, logFile, nextFile, lastSequence, manifest.dropped + gone);
      }
      var disk2 := Disk(logs, disk.tables + tables, manifest, reuseManifest && disk.frayed);
      r := Some(Opening(disk2, Contents(mem), logFile, nextFile, lastSequence));
      assert r.value == Opened(disk, ns, full, reuseLogs, reuseManifest);
    }
  }

  lemma NothingLeft(a: set<nat>, b: set<nat>)
    ensures a - b == {} <==> a <= b
  {
    if a - b == {} {
      forall t | t in a ensures t in b {
        assert t !in a - b;
      }
    }
  }

  lemma NotBefore(names: seq<FileName>, i: nat)
    requires i < |names| && forall j, k :: 0 <= j < k < |names| ==> names[j] != names[k]
    ensures names[i] !in names[..i]
  {}

  /** On a disk in order no table is missing. */
  lemma NothingIsMissing(d: Disk, names: seq<FileName>)
    requires DiskOk(d) && Lists(d, names)
    ensures d.manifest.version <= Numbers(names)
  {
    forall t | t in d.manifest.version ensures t in Numbers(names) {
      assert t in d.tables.Keys;
      assert TableFile(t) in names && TableFile(t).number == t;
    }
  }
}
