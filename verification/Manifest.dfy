/** Rebuilding the version from the records of the manifest (VersionSet::Recover and WriteSnapshot in
    db/version_set.cc). */
module Manifests {
  import opened ByteStrings
  import opened Keys
  import opened Files
  import opened VersionBuilder

  /** A record: the name of the comparator, file changes, compaction pointers and counters. */
  datatype Record = Record(
    comparator: Option<Bytes>, edit: Edit, pointers: seq<(nat, InternalKey)>,
    logNumber: Option<nat>, prevLog: Option<nat>, nextFile: Option<nat>, lastSequence: Option<nat>)

  datatype Counters = Counters(logNumber: Option<nat>, prevLog: Option<nat>, nextFile: Option<nat>, lastSequence: Option<nat>)

  /** Where the next compaction of each level starts. */
  type Pointers = p: seq<Option<InternalKey>> | |p| == NUM_LEVELS witness [None, None, None, None, None, None, None]

  datatype Recovered =
    | Recovered(version: Version, pointers: Pointers, logNumber: nat, prevLog: nat, nextFile: nat, lastSequence: nat)
    | BadComparator | NoNextFile | NoLogNumber | NoLastSequence

  function Newest(a: Option<nat>, b: Option<nat>): Option<nat> {
    if b.Some? then b else a
  }

  function CountersAfter(c: Counters, r: Record): Counters {
    Counters(Newest(c.logNumber, r.logNumber), Newest(c.prevLog, r.prevLog), Newest(c.nextFile, r.nextFile),
             Newest(c.lastSequence, r.lastSequence))
  }

  function CountersOf(records: seq<Record>): Counters {
    if records == [] then Counters(None, None, None, None)
    else CountersAfter(CountersOf(records[..|records| - 1]), records[|records| - 1])
  }

  /** `n` is what the last one that is set says, and nothing if none is. */
  ghost predicate IsLastSet(values: seq<Option<nat>>, n: Option<nat>) {
    if n.None? then forall i :: 0 <= i < |values| ==> values[i] == None
    else exists i :: 0 <= i < |values| && values[i] == n && forall j :: i < j < |values| ==> values[j] == None
  }

  lemma LastSetSnoc(values: seq<Option<nat>>, n: Option<nat>, next: Option<nat>)
    requires IsLastSet(values, n)
    ensures IsLastSet(values + [next], Newest(n, next))
  {
    var all := values + [next];
    if next.Some? {
      assert all[|values|] == next;
    } else if n.Some? {
      var i :| 0 <= i < |values| && values[i] == n && forall j :: i < j < |values| ==> values[j] == None;
      assert all[i] == n;
    }
  }

  function LogNumbers(records: seq<Record>): seq<Option<nat>> {
    seq(|records|, i requires 0 <= i < |records| => records[i].logNumber)
  }

  function PrevLogs(records: seq<Record>): seq<Option<nat>> {
    seq(|records|, i requires 0 <= i < |records| => records[i].prevLog)
  }

  function NextFiles(records: seq<Record>): seq<Option<nat>> {
    seq(|records|, i requires 0 <= i < |records| => records[i].nextFile)
  }

  function LastSequences(records: seq<Record>): seq<Option<nat>> {
    seq(|records|, i requires 0 <= i < |records| => records[i].lastSequence)
  }

  /** Every counter is the one that was written last. */
  lemma {:induction false} CountersAreLast(records: seq<Record>)
    ensures var c := CountersOf(records);
            && IsLastSet(LogNumbers(records), c.logNumber) && IsLastSet(PrevLogs(records), c.prevLog)
            && IsLastSet(NextFiles(records), c.nextFile) && IsLastSet(LastSequences(records), c.lastSequence)
  {
    if records != [] {
      var before, last := records[..|records| - 1], records[|records| - 1];
      CountersAreLast(before);
      hide IsLastSet;
      var c := CountersOf(before);
      LastSetSnoc(LogNumbers(before), c.logNumber, last.logNumber);
      LastSetSnoc(PrevLogs(before), c.prevLog, last.prevLog);
      LastSetSnoc(NextFiles(before), c.nextFile, last.nextFile);
      LastSetSnoc(LastSequences(before), c.lastSequence, last.lastSequence);
      assert LogNumbers(records) == LogNumbers(before) + [last.logNumber] && PrevLogs(records) == PrevLogs(before) + [last.prevLog];
      assert NextFiles(records) == NextFiles(before) + [last.nextFile] && LastSequences(records) == LastSequences(before) + [last.lastSequence];
    }
  }

  function SetPointer(p: Pointers, change: (nat, InternalKey)): Pointers {
    if change.0 < NUM_LEVELS then p[change.0 := Some(change.1)] else p
  }

  function SetPointers(p: Pointers, changes: seq<(nat, InternalKey)>): Pointers {
    if changes == [] then p else SetPointer(SetPointers(p, changes[..|changes| - 1]), changes[|changes| - 1])
  }

  const NO_POINTERS: Pointers := [None, None, None, None, None, None, None]

  function PointersOf(records: seq<Record>): Pointers {
    if records == [] then NO_POINTERS else SetPointers(PointersOf(records[..|records| - 1]), records[|records| - 1].pointers)
  }

  /** Does every record that names a comparator name this one? */
  predicate SameComparator(name: Bytes, records: seq<Record>) {
    forall i :: 0 <= i < |records| ==> records[i].comparator == None || records[i].comparator == Some(name)
  }

  function Edits(records: seq<Record>): (es: seq<Edit>)
    ensures |es| == |records|
  {
    seq(|records|, i requires 0 <= i < |records| => records[i].edit)
  }

  /** A level gets each file number at most once. */
  ghost predicate NumbersOnce(edits: seq<Edit>) {
    && (forall i :: 0 <= i < |edits| ==> LevelsInRange(edits[i].added) && AddedOnce(edits[i].added))
    && forall i, j, a, b :: 0 <= i < j < |edits| && a in edits[i].added && b in edits[j].added && a.0 == b.0 ==> a.1.number != b.1.number
  }

  ghost function AddedBy(edits: seq<Edit>, l: nat): set<File> {
    set i, a | 0 <= i < |edits| && a in edits[i].added && a.0 == l :: a.1
  }

  lemma AddedBySnoc(edits: seq<Edit>, n: nat, l: nat)
    requires n < |edits|
    ensures AddedBy(edits[..n + 1], l) == AddedBy(edits[..n], l) + AddedAt(edits[n].added, l)
  {
    var longer := edits[..n + 1];
    forall f | f in AddedBy(edits[..n], l) ensures f in AddedBy(longer, l) {
      var i, a :| 0 <= i < n && a in edits[..n][i].added && a.0 == l && a.1 == f;
      assert longer[i] == edits[..n][i];
    }
    forall f | f in AddedAt(edits[n].added, l) ensures f in AddedBy(longer, l) {
      var a :| a in edits[n].added && a.0 == l && a.1 == f;
      assert a in longer[n].added;
    }
    forall f | f in AddedBy(longer, l) ensures f in AddedBy(edits[..n], l) || f in AddedAt(edits[n].added, l) {
      var i, a :| 0 <= i < n + 1 && a in longer[i].added && a.0 == l && a.1 == f;
      if i < n {
        assert a in edits[..n][i].added;
      }
    }
  }

  /** The builder over all edits ends with what the edits make one by one. */
  method Replay(edits: seq<Edit>) returns (v: Version)
    requires NumbersOnce(edits)
    ensures |v| == NUM_LEVELS
    ensures forall l :: 0 <= l < NUM_LEVELS ==> SortedBySmallest(v[l]) && FileSet(v[l]) == ApplyAll({}, edits, l)
  {
    var builder := new Builder(seq(NUM_LEVELS, _ => []));
    for n := 0 to |edits|
      invariant fresh(builder) && builder.Valid() && builder.base == seq(NUM_LEVELS, _ => [])
      invariant forall l :: 0 <= l < NUM_LEVELS ==> builder.LevelFiles(l) == ApplyAll({}, edits[..n], l)
      invariant forall l :: 0 <= l < NUM_LEVELS ==> FileSet(builder.addedFiles[l]) == AddedBy(edits[..n], l)
    {
      NumbersFresh(builder, edits, n);
      builder.Apply(edits[n]);
      forall l | 0 <= l < NUM_LEVELS
        ensures builder.LevelFiles(l) == ApplyAll({}, edits[..n + 1], l) && FileSet(builder.addedFiles[l]) == AddedBy(edits[..n + 1], l)
      {
        assert edits[..n + 1][..n] == edits[..n];
        AddedBySnoc(edits, n, l);
      }
    }
    assert edits[..|edits|] == edits;
    v := builder.SaveTo();
  }

  lemma NumbersFresh(builder: Builder, edits: seq<Edit>, n: nat)
    requires builder.Valid() && n < |edits| && NumbersOnce(edits) && builder.base == seq(NUM_LEVELS, _ => [])
    requires forall l :: 0 <= l < NUM_LEVELS ==> FileSet(builder.addedFiles[l]) == AddedBy(edits[..n], l)
    ensures LevelsInRange(edits[n].added) && builder.FreshNumbers(edits[n].added, 0)
  {
    var added := edits[n].added;
    forall j | 0 <= j < |added| ensures builder.NumberUnused(added[j].0, added[j].1.number) {
      var l := added[j].0;
      forall f | f in builder.addedFiles[l] ensures f.number != added[j].1.number {
        assert f in AddedBy(edits[..n], l);
        var i, a :| 0 <= i < n && a in edits[..n][i].added && a.0 == l && a.1 == f;
        assert a in edits[i].added && added[j] in edits[n].added;
      }
    }
  }

  /** The files are those the edits make, the pointers and counters those written last; a manifest of another comparator
      or without one of the counters is refused. */
  ghost predicate RecoveredFrom(name: Bytes, records: seq<Record>, r: Recovered) {
    var c := CountersOf(records);
    match r
    case BadComparator => !SameComparator(name, records)
    case NoNextFile => SameComparator(name, records) && c.nextFile.None?
    case NoLogNumber => SameComparator(name, records) && c.nextFile.Some? && c.logNumber.None?
    case NoLastSequence => SameComparator(name, records) && c.nextFile.Some? && c.logNumber.Some? && c.lastSequence.None?
    case Recovered(version, pointers, logNumber, prevLog, nextFile, lastSequence) =>
      && SameComparator(name, records)
      && c.logNumber == Some(logNumber) && c.nextFile.Some? && nextFile == c.nextFile.value + 1 && c.lastSequence == Some(lastSequence)
      && prevLog == (if c.prevLog.Some? then c.prevLog.value else 0) && pointers == PointersOf(records)
      && |version| == NUM_LEVELS
      && forall l :: 0 <= l < NUM_LEVELS ==> SortedBySmallest(version[l]) && FileSet(version[l]) == ApplyAll({}, Edits(records), l)
  }

  /** Reads the records in order; the last value of every counter and pointer counts. */
  method Recover(name: Bytes, records: seq<Record>) returns (r: Recovered)
    requires NumbersOnce(Edits(records))
    ensures RecoveredFrom(name, records, r)
  {
    var c, pointers := Counters(None, None, None, None), NO_POINTERS;
    for i := 0 to |records|
      invariant c == CountersOf(records[..i]) && pointers == PointersOf(records[..i])
      invariant SameComparator(name, records[..i])
    {
      assert records[..i + 1][..i] == records[..i];
      if records[i].comparator.Some? && records[i].comparator.value != name {
        return BadComparator;
      }
      pointers := ApplyPointers(pointers, records[i].pointers);
      c := CountersAfter(c, records[i]);
    }
    assert records[..|records|] == records;
    if c.nextFile.None? {
      return NoNextFile;
    } else if c.logNumber.None? {
      return NoLogNumber;
    } else if c.lastSequence.None? {
      return NoLastSequence;
    }
    var v := Replay(Edits(records));
    var prevLog := if c.prevLog.Some? then c.prevLog.value else 0;
    r := Recovered(v, pointers, c.logNumber.value, prevLog, c.nextFile.value + 1, c.lastSequence.value);
  }

  method ApplyPointers(p: Pointers, changes: seq<(nat, InternalKey)>) returns (r: Pointers)
    ensures r == SetPointers(p, changes)
  {
    r := p;
    for i := 0 to |changes|
      invariant r == SetPointers(p, changes[..i])
    {
      assert changes[..i + 1][..i] == changes[..i];
      r := SetPointer(r, changes[i]);
    }
    assert changes[..|changes|] == changes;
  }

  // ---- Snapshots -----------------------------------------------------------------------------------------

  function LevelAdditions(l: nat, files: seq<File>): (added: seq<(nat, File)>)
    ensures |added| == |files|
  {
    seq(|files|, i requires 0 <= i < |files| => (l, files[i]))
  }

  function FirstLevels(v: Version, n: nat): seq<(nat, File)>
    requires n <= |v|
  {
    if n == 0 then [] else FirstLevels(v, n - 1) + LevelAdditions(n - 1, v[n - 1])
  }

  /** The pointers that are set. */
  function FirstPointers(p: Pointers, n: nat): seq<(nat, InternalKey)>
    requires n <= NUM_LEVELS
  {
    if n == 0 then []
    else FirstPointers(p, n - 1) + if p[n - 1].Some? then [(n - 1, p[n - 1].value)] else []
  }

  function SnapshotRecord(name: Bytes, p: Pointers, v: Version): Record
    requires |v| == NUM_LEVELS
  {
    Record(Some(name), Edit({}, FirstLevels(v, NUM_LEVELS)), FirstPointers(p, NUM_LEVELS), None, None, None, None)
  }

  /** The record that starts a new manifest: the comparator, the compaction pointers and every file of the current
      version. */
  method WriteSnapshot(name: Bytes, p: Pointers, v: Version) returns (r: Record)
    requires |v| == NUM_LEVELS
    ensures r == SnapshotRecord(name, p, v)
  {
    var pointers := [];
    for l := 0 to NUM_LEVELS
      invariant pointers == FirstPointers(p, l)
    {
      if p[l].Some? {
        pointers := pointers + [(l, p[l].value)];
      }
    }
    var added := [];
    for l := 0 to NUM_LEVELS
      invariant added == FirstLevels(v, l)
    {
      var i := 0;
      while i < |v[l]|
        invariant i <= |v[l]| && added == FirstLevels(v, l) + LevelAdditions(l, v[l])[..i]
      {
        added := added + [(l, v[l][i])];
        i := i + 1;
      }
    }
    r := Record(Some(name), Edit({}, added), pointers, None, None, None, None);
  }

  lemma {:induction false} FirstPointersSet(p: Pointers, n: nat)
    requires n <= NUM_LEVELS
    ensures var q := SetPointers(NO_POINTERS, FirstPointers(p, n));
            forall l :: 0 <= l < NUM_LEVELS ==> q[l] == if l < n then p[l] else None
  {
    if n > 0 {
      FirstPointersSet(p, n - 1);
      var before := FirstPointers(p, n - 1);
      if p[n - 1].Some? {
        var all := before + [(n - 1, p[n - 1].value)];
        assert all[..|all| - 1] == before;
      } else {
        assert FirstPointers(p, n) == before;
      }
    }
  }

  /** The pointers of a snapshot read back. */
  lemma SnapshotPointers(p: Pointers)
    ensures SetPointers(NO_POINTERS, FirstPointers(p, NUM_LEVELS)) == p
  {
    FirstPointersSet(p, NUM_LEVELS);
  }

  lemma AdditionsHold(k: nat, files: seq<File>, l: nat)
    ensures AddedAt(LevelAdditions(k, files), l) == if l == k then FileSet(files) else {}
  {
    if l == k {
      forall f | f in FileSet(files) ensures f in AddedAt(LevelAdditions(k, files), l) {
        var i :| 0 <= i < |files| && files[i] == f;
        assert LevelAdditions(k, files)[i] == (k, f);
      }
    }
  }

  lemma {:induction false} SnapshotHolds(v: Version, n: nat, l: nat)
    requires n <= |v| && l < |v|
    ensures AddedAt(FirstLevels(v, n), l) == if l < n then FileSet(v[l]) else {}
  {
    if n > 0 {
      SnapshotHolds(v, n - 1, l);
      var a, b := FirstLevels(v, n - 1), LevelAdditions(n - 1, v[n - 1]);
      AdditionsHold(n - 1, v[n - 1], l);
      assert AddedAt(a + b, l) == AddedAt(a, l) + AddedAt(b, l);
    }
  }

  lemma SnapshotEdit(v: Version, l: nat)
    requires |v| == NUM_LEVELS && l < NUM_LEVELS
    ensures ApplyToLevel({}, Edit({}, FirstLevels(v, NUM_LEVELS)), l) == FileSet(v[l])
  {
    SnapshotHolds(v, NUM_LEVELS, l);
  }
}
