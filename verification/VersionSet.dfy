module VersionSets {
  // The version set over its lifetimes (db/version_set.cc): file numbers, LogAndApply, and the manifest from which the
  // same state is recovered at any moment.

  import opened ByteStrings
  import opened Keys
  import opened Files
  import opened Manifests
  import opened VersionBuilder

  /** What the version set holds.  `pending` are numbers given out for tables that no edit has added yet, `manifest` the
      records of the file that CURRENT names, and `attached` says whether that file is open for more. */
  datatype State = State(
    current: Version, pointers: Pointers, logNumber: nat, prevLog: nat, nextFile: nat, lastSequence: nat,
    pending: set<nat>, manifest: seq<Record>, attached: bool)

  /** What LogAndApply is called with. */
  datatype Change = Change(edit: Edit, pointers: seq<(nat, InternalKey)>, logNumber: Option<nat>, prevLog: Option<nat>)

  datatype Step =
    | NewFileNumber
    | MarkFileNumberUsed(n: nat)
    | SetLastSequence(n: nat)
    | LogAndApply(change: Change)
    | Reopen(reuse: bool)

  function Or(a: Option<nat>, b: nat): nat {
    if a.Some? then a.value else b
  }

  /** The record of a change: the counters that the caller left open are filled in. */
  function RecordFor(s: State, ch: Change): Record {
    Record(None, ch.edit, ch.pointers, Some(Or(ch.logNumber, s.logNumber)), Some(Or(ch.prevLog, s.prevLog)),
           Some(s.nextFile), Some(s.lastSequence))
  }

  /** The records before the new one: a new manifest starts with a snapshot of the version before the change, but with
      the pointers that the change has set already. */
  function Base(name: Bytes, s: State, ch: Change): seq<Record>
    requires |s.current| == NUM_LEVELS
  {
    if s.attached then s.manifest else [SnapshotRecord(name, SetPointers(s.pointers, ch.pointers), s.current)]
  }

  /** The manifest with a change. */
  function Extended(name: Bytes, s: State, ch: Change): seq<Record>
    requires |s.current| == NUM_LEVELS
  {
    Base(name, s, ch) + [RecordFor(s, ch)]
  }

  function AddedNumbers(added: seq<(nat, File)>): set<nat> {
    set a | a in added :: a.1.number
  }

  /** A table under a new number, or one that moves down a level. */
  ghost predicate MayAdd(s: State, edit: Edit, a: (nat, File)) {
    || a.1.number in s.pending
    || (0 < a.0 <= |s.current| && a.1 in s.current[a.0 - 1] && (a.0 - 1, a.1.number) in edit.deleted)
  }

  ghost predicate ChangeOk(s: State, ch: Change) {
    && LevelsInRange(ch.edit.added)
    && (forall i, j :: 0 <= i < j < |ch.edit.added| ==> ch.edit.added[i].1.number != ch.edit.added[j].1.number)
    && (forall a :: a in ch.edit.added ==> MayAdd(s, ch.edit, a))
    && s.logNumber <= Or(ch.logNumber, s.logNumber) < s.nextFile
  }

  /** `v2` is `v` after an edit. */
  ghost predicate Edited(v: Version, edit: Edit, v2: Version) {
    && |v| == |v2| == NUM_LEVELS
    && forall l :: 0 <= l < NUM_LEVELS ==> SortedBySmallest(v2[l]) && FileSet(v2[l]) == ApplyToLevel(FileSet(v[l]), edit, l)
  }

  ghost predicate Logs(name: Bytes, s: State, ch: Change, s2: State) {
    && ChangeOk(s, ch) && Edited(s.current, ch.edit, s2.current)
    && s2 == State(s2.current, SetPointers(s.pointers, ch.pointers), Or(ch.logNumber, s.logNumber), Or(ch.prevLog, s.prevLog),
                   s.nextFile, s.lastSequence, s.pending - AddedNumbers(ch.edit.added), Extended(name, s, ch), true)
  }

  /** The process ends, perhaps by a crash, and another one recovers from the manifest. */
  ghost predicate Reopens(name: Bytes, s: State, reuse: bool, s2: State) {
    exists r: Recovered :: RecoveredFrom(name, s.manifest, r) && r.Recovered?
      && s2 == State(r.version, r.pointers, r.logNumber, r.prevLog, r.nextFile, r.lastSequence, {}, s.manifest, reuse)
  }

  ghost predicate Next(name: Bytes, s: State, step: Step, s2: State) {
    match step
    case NewFileNumber => s2 == s.(nextFile := s.nextFile + 1, pending := s.pending + {s.nextFile})
    case MarkFileNumberUsed(n) => s2 == s.(nextFile := if s.nextFile <= n then n + 1 else s.nextFile)
    case SetLastSequence(n) => s.lastSequence <= n && s2 == s.(lastSequence := n)
    case LogAndApply(ch) => Logs(name, s, ch, s2)
    case Reopen(reuse) => Reopens(name, s, reuse, s2)
  }

  /** The manifest of a new database, and the state that is recovered from it. */
  function NewDB(name: Bytes): Record {
    Record(Some(name), Edit({}, []), [], Some(0), None, Some(2), Some(0))
  }

  function Initial(name: Bytes, attached: bool): State {
    State(NO_FILES, NO_POINTERS, 0, 0, 3, 0, {}, [NewDB(name)], attached)
  }

  // ---- The invariant -------------------------------------------------------------------------------------------------

  /** The version, and the numbers in use. */
  ghost predicate VersionInOrder(s: State) {
    && |s.current| == NUM_LEVELS && (forall l :: 0 <= l < NUM_LEVELS ==> SortedBySmallest(s.current[l]))
    && NumbersDistinct(s.current)
    && (forall n :: n in s.pending ==> n < s.nextFile)
    && (forall l, f :: 0 <= l < NUM_LEVELS && f in s.current[l] ==> f.number !in s.pending)
  }

  /** What the counters of the manifest are to those of the state. */
  ghost predicate CountersSaved(s: State, c: Counters) {
    && c.logNumber == Some(s.logNumber) && Or(c.prevLog, 0) == s.prevLog
    && c.nextFile.Some? && c.nextFile.value <= s.nextFile && s.logNumber < c.nextFile.value
    && c.lastSequence.Some? && c.lastSequence.value <= s.lastSequence
    && NumberAbove(s.current, c.nextFile.value)
  }

  /** File numbers in the manifest are used up, and a live file is not above any level that has had its number. */
  ghost predicate HistoryOk(s: State, edits: seq<Edit>, n: nat) {
    && (forall i, a :: 0 <= i < |edits| && a in edits[i].added ==> a.1.number < n && a.1.number !in s.pending)
    && (forall i, a, m, g :: 0 <= i < |edits| && a in edits[i].added && 0 <= m < |s.current| && g in s.current[m] && g.number == a.1.number ==>
          a.0 <= m)
  }

  ghost predicate ManifestOk(name: Bytes, s: State) {
    && SameComparator(name, s.manifest) && NumbersOnce(Edits(s.manifest))
    && CountersSaved(s, CountersOf(s.manifest)) && PointersOf(s.manifest) == s.pointers
    && HistoryOk(s, Edits(s.manifest), CountersOf(s.manifest).nextFile.value)
    && |s.current| == NUM_LEVELS && forall l :: 0 <= l < NUM_LEVELS ==> ApplyAll({}, Edits(s.manifest), l) == FileSet(s.current[l])
  }

  ghost predicate Inv(name: Bytes, s: State) {
    VersionInOrder(s) && ManifestOk(name, s)
  }

  // ---- One more record -----------------------------------------------------------------------------------------------

  lemma EditsJoin(a: seq<Record>, r: Record)
    ensures Edits(a + [r]) == Edits(a) + [r.edit]
  {}

  lemma LastRecord(a: seq<Record>, r: Record)
    ensures CountersOf(a + [r]) == CountersAfter(CountersOf(a), r)
    ensures PointersOf(a + [r]) == SetPointers(PointersOf(a), r.pointers)
    ensures forall l :: ApplyAll({}, Edits(a + [r]), l) == ApplyToLevel(ApplyAll({}, Edits(a), l), r.edit, l)
  {
    var all := a + [r];
    assert all[..|all| - 1] == a;
    EditsJoin(a, r);
    var edits := Edits(all);
    assert edits[..|edits| - 1] == Edits(a);
  }

  lemma SameComparatorJoin(name: Bytes, a: seq<Record>, r: Record)
    requires SameComparator(name, a) && (r.comparator == None || r.comparator == Some(name))
    ensures SameComparator(name, a + [r])
  {}

  /** The additions of a change are new to their levels, now and in the manifest. */
  lemma AddsAreNew(s: State, ch: Change, edits: seq<Edit>, n: nat)
    requires VersionInOrder(s) && ChangeOk(s, ch) && HistoryOk(s, edits, n)
    ensures EditOk(s.current, ch.edit)
    ensures forall i, a, b :: 0 <= i < |edits| && a in edits[i].added && b in ch.edit.added && a.0 == b.0 ==> a.1.number != b.1.number
  {
    var added := ch.edit.added;
    forall i, f | 0 <= i < |added| && f in s.current[added[i].0] ensures f.number != added[i].1.number {
      assert added[i] in added && MayAdd(s, ch.edit, added[i]);
    }
    forall i, a, b | 0 <= i < |edits| && a in edits[i].added && b in added && a.0 == b.0 ensures a.1.number != b.1.number {
      assert MayAdd(s, ch.edit, b);
    }
  }

  lemma NumbersOnceJoin(edits: seq<Edit>, e: Edit)
    requires NumbersOnce(edits) && LevelsInRange(e.added) && AddedOnce(e.added)
    requires forall i, a, b :: 0 <= i < |edits| && a in edits[i].added && b in e.added && a.0 == b.0 ==> a.1.number != b.1.number
    ensures NumbersOnce(edits + [e])
  {
    var all := edits + [e];
    forall i, j, a, b | 0 <= i < j < |all| && a in all[i].added && b in all[j].added && a.0 == b.0 ensures a.1.number != b.1.number {
      assert all[i] == edits[i];
    }
  }

  // ---- LogAndApply ---------------------------------------------------------------------------------------------------

  ghost predicate BaseOk(name: Bytes, s: State, ch: Change, base: seq<Record>) {
    && SameComparator(name, base) && NumbersOnce(Edits(base))
    && SetPointers(PointersOf(base), ch.pointers) == SetPointers(s.pointers, ch.pointers)
    && HistoryOk(s, Edits(base), s.nextFile)
    && |s.current| == NUM_LEVELS && forall l :: 0 <= l < NUM_LEVELS ==> ApplyAll({}, Edits(base), l) == FileSet(s.current[l])
  }

  lemma {:induction false} SnapshotOnce(v: Version, n: nat)
    requires n <= |v| == NUM_LEVELS && NumbersDistinct(v) && forall l :: 0 <= l < NUM_LEVELS ==> SortedBySmallest(v[l])
    ensures AddedOnce(FirstLevels(v, n))
    ensures forall a :: a in FirstLevels(v, n) ==> a.0 < n && a.1 in v[a.0]
  {
    if n > 0 {
      SnapshotOnce(v, n - 1);
      var a, b := FirstLevels(v, n - 1), LevelAdditions(n - 1, v[n - 1]);
      LevelOnce(v[n - 1], n - 1);
      OnceJoin(a, b, n - 1);
    }
  }

  lemma LevelOnce(files: seq<File>, l: nat)
    requires SortedBySmallest(files) && forall f, g :: f in files && g in files && f.number == g.number ==> f == g
    ensures AddedOnce(LevelAdditions(l, files))
    ensures forall a :: a in LevelAdditions(l, files) ==> a.0 == l && a.1 in files
  {
    forall i, j | 0 <= i < j < |files| ensures files[i].number != files[j].number {
      assert BySmallestKey(files[i], files[j]);
      assert files[i] in files && files[j] in files;
    }
  }

  lemma OnceJoin(a: seq<(nat, File)>, b: seq<(nat, File)>, l: nat)
    requires AddedOnce(a) && AddedOnce(b)
    requires (forall x :: x in a ==> x.0 < l) && (forall x :: x in b ==> x.0 == l)
    ensures AddedOnce(a + b)
  {
    var all := a + b;
    forall i, j | 0 <= i < j < |all| && all[i].0 == all[j].0 ensures all[i].1.number != all[j].1.number {
      if i < |a| {
        assert a[i] in a;
        assert j < |a|;
      } else {
        assert all[i] == b[i - |a|] && all[j] == b[j - |a|];
      }
    }
  }

  /** The key that the changes set last for a level. */
  function LastFor(changes: seq<(nat, InternalKey)>, l: nat): Option<InternalKey> {
    if changes == [] then None
    else if changes[|changes| - 1].0 == l then Some(changes[|changes| - 1].1)
    else LastFor(changes[..|changes| - 1], l)
  }

  lemma {:induction false} PointerIs(p: Pointers, changes: seq<(nat, InternalKey)>, l: nat)
    requires l < NUM_LEVELS
    ensures SetPointers(p, changes)[l] == if LastFor(changes, l).Some? then LastFor(changes, l) else p[l]
  {
    if changes != [] {
      PointerIs(p, changes[..|changes| - 1], l);
    }
  }

  /** The last change of a level counts, and a level without one keeps its pointer. */
  ghost predicate SetByLast(p: Pointers, changes: seq<(nat, InternalKey)>, q: Pointers) {
    && (forall l :: 0 <= l < NUM_LEVELS && (forall i :: 0 <= i < |changes| ==> changes[i].0 != l) ==> q[l] == p[l])
    && (forall i :: 0 <= i < |changes| && changes[i].0 < NUM_LEVELS && (forall j :: i < j < |changes| ==> changes[j].0 != changes[i].0) ==>
          q[changes[i].0] == Some(changes[i].1))
  }

  lemma {:induction false} LastCounts(p: Pointers, changes: seq<(nat, InternalKey)>)
    ensures SetByLast(p, changes, SetPointers(p, changes))
    decreases |changes|
  {
    if changes != [] {
      var n := |changes| - 1;
      LastCounts(p, changes[..n]);
      var q, r := SetPointers(p, changes[..n]), SetPointers(p, changes);
      forall l | 0 <= l < NUM_LEVELS && (forall i :: 0 <= i < |changes| ==> changes[i].0 != l) ensures r[l] == p[l] {
        assert changes[n].0 != l;
        assert forall i :: 0 <= i < n ==> changes[..n][i] == changes[i];
      }
      forall i | 0 <= i < |changes| && changes[i].0 < NUM_LEVELS && (forall j :: i < j < |changes| ==> changes[j].0 != changes[i].0)
        ensures r[changes[i].0] == Some(changes[i].1)
      {
        if i < n {
          assert changes[n].0 != changes[i].0;
          assert changes[..n][i] == changes[i];
        }
      }
    }
  }

  /** Setting pointers once more changes nothing. */
  lemma SetTwice(p: Pointers, changes: seq<(nat, InternalKey)>)
    ensures SetPointers(SetPointers(p, changes), changes) == SetPointers(p, changes)
  {
    forall l | 0 <= l < NUM_LEVELS ensures SetPointers(SetPointers(p, changes), changes)[l] == SetPointers(p, changes)[l] {
      PointerIs(p, changes, l);
      PointerIs(SetPointers(p, changes), changes, l);
    }
  }

  /** A manifest that starts with a snapshot stands for all that was before it. */
  lemma SnapshotIsBase(name: Bytes, s: State, ch: Change)
    requires Inv(name, s)
    ensures BaseOk(name, s, ch, [SnapshotRecord(name, SetPointers(s.pointers, ch.pointers), s.current)])
  {
    hide SetPointers, SetPointer;
    var pointers := SetPointers(s.pointers, ch.pointers);
    var r := SnapshotRecord(name, pointers, s.current);
    var none: seq<Record> := [];
    assert none + [r] == [r];
    LastRecord(none, r);
    EditsJoin(none, r);
    SnapshotPointers(pointers);
    SetTwice(s.pointers, ch.pointers);
    SnapshotOnce(s.current, NUM_LEVELS);
    forall l | 0 <= l < NUM_LEVELS ensures ApplyAll({}, Edits([r]), l) == FileSet(s.current[l]) {
      SnapshotEdit(s.current, l);
    }
  }

  lemma BaseIsOk(name: Bytes, s: State, ch: Change)
    requires Inv(name, s)
    ensures BaseOk(name, s, ch, Base(name, s, ch))
  {
    hide VersionInOrder;
    if s.attached {
      assert HistoryOk(s, Edits(s.manifest), s.nextFile);
    } else {
      SnapshotIsBase(name, s, ch);
    }
  }

  /** A file of the version after a change: an old one that was not deleted, or an addition. */
  lemma FileAfter(s: State, ch: Change, v2: Version, l: nat, f: File)
    requires Edited(s.current, ch.edit, v2) && l < NUM_LEVELS && f in v2[l]
    ensures (f in s.current[l] && (l, f.number) !in ch.edit.deleted) || (l, f) in ch.edit.added
  {
    assert f in FileSet(v2[l]);
    if f !in Without(FileSet(s.current[l]), ch.edit.deleted, l) {
      assert f in AddedAt(ch.edit.added, l);
      var a :| a in ch.edit.added && a.0 == l && a.1 == f;
      assert a == (l, f);
    }
  }

  lemma AddedIsThere(s: State, ch: Change, v2: Version, a: (nat, File))
    requires Edited(s.current, ch.edit, v2) && a in ch.edit.added && a.0 < NUM_LEVELS
    ensures a.1 in v2[a.0]
  {
    assert a.1 in AddedAt(ch.edit.added, a.0);
    assert a.1 in FileSet(v2[a.0]);
  }

  /** One number, one place. */
  lemma OnePlace(s: State, ch: Change, l: nat, f: File, m: nat, g: File)
    requires VersionInOrder(s) && ChangeOk(s, ch) && l < NUM_LEVELS && m < NUM_LEVELS && f.number == g.number
    requires (f in s.current[l] && (l, f.number) !in ch.edit.deleted) || (l, f) in ch.edit.added
    requires (g in s.current[m] && (m, g.number) !in ch.edit.deleted) || (m, g) in ch.edit.added
    ensures l == m && f == g
  {
    if (l, f) in ch.edit.added && (m, g) in ch.edit.added {
      var i :| 0 <= i < |ch.edit.added| && ch.edit.added[i] == (l, f);
      var j :| 0 <= j < |ch.edit.added| && ch.edit.added[j] == (m, g);
      assert i == j;
    }
  }

  lemma LogsKeepsVersion(name: Bytes, s: State, ch: Change, s2: State)
    requires VersionInOrder(s) && Logs(name, s, ch, s2)
    ensures VersionInOrder(s2) && (NumberAbove(s.current, s.nextFile) ==> NumberAbove(s2.current, s.nextFile))
  {
    hide Edited, SortedBySmallest;
    EditedLevels(s.current, ch.edit, s2.current);
    forall l, m, f, g | 0 <= l < NUM_LEVELS && 0 <= m < NUM_LEVELS && f in s2.current[l] && g in s2.current[m] && f.number == g.number
      ensures l == m && f == g
    {
      FileAfter(s, ch, s2.current, l, f);
      FileAfter(s, ch, s2.current, m, g);
      OnePlace(s, ch, l, f, m, g);
    }
    forall l, f | 0 <= l < NUM_LEVELS && f in s2.current[l]
      ensures f.number !in s2.pending && (NumberAbove(s.current, s.nextFile) ==> f.number < s.nextFile)
    {
      FileAfter(s, ch, s2.current, l, f);
      if (l, f) in ch.edit.added {
        assert MayAdd(s, ch.edit, (l, f)) && f.number in AddedNumbers(ch.edit.added);
      }
    }
  }

  lemma EditedLevels(v: Version, edit: Edit, v2: Version)
    requires Edited(v, edit, v2)
    ensures |v| == |v2| == NUM_LEVELS && forall l :: 0 <= l < NUM_LEVELS ==> SortedBySmallest(v2[l])
  {}

  lemma LogsKeepsHistory(name: Bytes, s: State, ch: Change, s2: State, edits: seq<Edit>)
    requires VersionInOrder(s) && VersionInOrder(s2) && Logs(name, s, ch, s2) && HistoryOk(s, edits, s.nextFile)
    requires NumberAbove(s2.current, s.nextFile)
    ensures HistoryOk(s2, edits + [ch.edit], s.nextFile)
  {
    hide Edited, SortedBySmallest;
    var all := edits + [ch.edit];
    forall i, a | 0 <= i < |all| && a in all[i].added ensures a.1.number < s.nextFile && a.1.number !in s2.pending {
      if i == |edits| {
        AddedIsThere(s, ch, s2.current, a);
      }
    }
    forall i, a, m, g | 0 <= i < |all| && a in all[i].added && 0 <= m < |s2.current| && g in s2.current[m] && g.number == a.1.number
      ensures a.0 <= m
    {
      if i == |edits| {
        AddedIsThere(s, ch, s2.current, a);
      } else {
        assert a in edits[i].added;
        FileAfter(s, ch, s2.current, m, g);
        if (m, g) in ch.edit.added {
          assert MayAdd(s, ch.edit, (m, g));
        }
      }
    }
  }

  lemma LogsKeepsInv(name: Bytes, s: State, ch: Change, s2: State)
    requires Inv(name, s) && Logs(name, s, ch, s2)
    ensures Inv(name, s2)
    ensures CountersOf(s2.manifest).nextFile == Some(s2.nextFile) && CountersOf(s2.manifest).lastSequence == Some(s2.lastSequence)
  {
    hide VersionInOrder, Edited, HistoryOk, NumbersOnce, NumberAbove, ApplyAll, ApplyToLevel, ChangeOk, SameComparator;
    var base, r := Base(name, s, ch), RecordFor(s, ch);
    BaseIsOk(name, s, ch);
    NumbersGrow(s.current, CountersOf(s.manifest).nextFile.value, s.nextFile);
    LogsKeepsVersion(name, s, ch, s2);
    LogsKeepsHistory(name, s, ch, s2, Edits(base));
    AddsAreNew(s, ch, Edits(base), s.nextFile);
    EditsJoin(base, r);
    NumbersOnceJoin(Edits(base), ch.edit);
    LastRecord(base, r);
    SameComparatorJoin(name, base, r);
    FilesAfter(s, ch, s2.current, base, s2.manifest);
    LogNumberBelow(s, ch);
  }

  lemma NumbersGrow(v: Version, n: nat, m: nat)
    requires NumberAbove(v, n) && n <= m
    ensures NumberAbove(v, m)
  {}

  lemma LogNumberBelow(s: State, ch: Change)
    requires ChangeOk(s, ch)
    ensures Or(ch.logNumber, s.logNumber) < s.nextFile
  {}

  lemma FilesAfter(s: State, ch: Change, v2: Version, base: seq<Record>, manifest: seq<Record>)
    requires Edited(s.current, ch.edit, v2)
    requires forall l :: 0 <= l < NUM_LEVELS ==> ApplyAll({}, Edits(base), l) == FileSet(s.current[l])
    requires forall l :: ApplyAll({}, Edits(manifest), l) == ApplyToLevel(ApplyAll({}, Edits(base), l), ch.edit, l)
    ensures |v2| == NUM_LEVELS && forall l :: 0 <= l < NUM_LEVELS ==> ApplyAll({}, Edits(manifest), l) == FileSet(v2[l])
  {
    hide ApplyAll, ApplyToLevel;
  }

  // ---- Recovery ------------------------------------------------------------------------------------------------------

  /** Two lists of the same files in the order of a level are the same list. */
  lemma {:induction false} SameList(a: seq<File>, b: seq<File>)
    requires SortedBySmallest(a) && SortedBySmallest(b) && FileSet(a) == FileSet(b)
    ensures a == b
    decreases |a|
  {
    NoFileIn(a);
    NoFileIn(b);
    if a != [] {
      assert a[0] in FileSet(b) && b[0] in FileSet(a);
      var i :| 0 <= i < |b| && b[i] == a[0];
      var j :| 0 <= j < |a| && a[j] == b[0];
      SameHead(a, b, i, j);
      TailSet(a);
      TailSet(b);
      SameList(a[1..], b[1..]);
    }
  }

  lemma NoFileIn(a: seq<File>)
    ensures FileSet(a) == {} <==> a == []
  {
    if a != [] {
      assert a[0] in FileSet(a);
    }
  }

  lemma SameHead(a: seq<File>, b: seq<File>, i: nat, j: nat)
    requires SortedBySmallest(a) && SortedBySmallest(b) && i < |b| && j < |a| && b[i] == a[0] && a[j] == b[0]
    ensures a[0] == b[0]
  {
    if i > 0 && j > 0 {
      assert false;
    }
  }

  lemma TailSet(a: seq<File>)
    requires SortedBySmallest(a) && a != []
    ensures FileSet(a[1..]) == FileSet(a) - {a[0]} && SortedBySmallest(a[1..])
  {
    assert a == [a[0]] + a[1..];
    forall f | f in a[1..] ensures f != a[0] {
      var i :| 0 <= i < |a[1..]| && a[1..][i] == f;
      assert BySmallestKey(a[0], a[i + 1]);
    }
  }

  lemma SameVersion(v: Version, v2: Version)
    requires |v| == |v2| == NUM_LEVELS
    requires forall l :: 0 <= l < NUM_LEVELS ==> SortedBySmallest(v[l]) && SortedBySmallest(v2[l]) && FileSet(v[l]) == FileSet(v2[l])
    ensures v == v2
  {
    forall l | 0 <= l < NUM_LEVELS ensures v[l] == v2[l] {
      SameList(v[l], v2[l]);
    }
  }

  /** What is recovered is the state itself, with the counters that were saved last. */
  lemma RecoveredState(name: Bytes, s: State, r: Recovered)
    requires Inv(name, s) && RecoveredFrom(name, s.manifest, r)
    ensures r.Recovered? && r.version == s.current && r.pointers == s.pointers && r.logNumber == s.logNumber && r.prevLog == s.prevLog
    ensures r.nextFile <= s.nextFile + 1 && r.lastSequence <= s.lastSequence && r.logNumber < r.nextFile
    ensures CountersOf(s.manifest).nextFile == Some(r.nextFile - 1) && CountersOf(s.manifest).lastSequence == Some(r.lastSequence)
    ensures NumberAbove(r.version, r.nextFile)
  {
    hide SortedBySmallest, FileSet, ApplyAll, NumbersOnce, HistoryOk, SameComparator, NumbersDistinct;
    SameVersion(r.version, s.current);
  }

  lemma ReopensKeepsInv(name: Bytes, s: State, reuse: bool, s2: State)
    requires Inv(name, s) && Reopens(name, s, reuse, s2)
    ensures Inv(name, s2)
  {
    hide RecoveredFrom, SortedBySmallest, FileSet, ApplyAll, NumbersOnce, SameComparator, NumbersDistinct;
    var r: Recovered :| RecoveredFrom(name, s.manifest, r) && r.Recovered?
      && s2 == State(r.version, r.pointers, r.logNumber, r.prevLog, r.nextFile, r.lastSequence, {}, s.manifest, reuse);
    RecoveredState(name, s, r);
  }

  lemma CountKeepsInv(name: Bytes, s: State, step: Step, s2: State)
    requires Inv(name, s) && Next(name, s, step, s2) && !step.LogAndApply? && !step.Reopen?
    ensures Inv(name, s2)
  {
    hide SortedBySmallest, ApplyAll, NumbersOnce, SameComparator, NumbersDistinct;
  }

  lemma StepKeepsInv(name: Bytes, s: State, step: Step, s2: State)
    requires Inv(name, s) && Next(name, s, step, s2)
    ensures Inv(name, s2)
  {
    hide Inv;
    match step
    case LogAndApply(ch) => LogsKeepsInv(name, s, ch, s2);
    case Reopen(reuse) => ReopensKeepsInv(name, s, reuse, s2);
    case _ => CountKeepsInv(name, s, step, s2);
  }

  lemma InitialIsOk(name: Bytes, attached: bool)
    ensures Inv(name, Initial(name, attached))
  {
    hide VersionInOrder, HistoryOk, NumbersOnce, SameComparator;
    var s, none: seq<Record> := Initial(name, attached), [];
    assert none + [NewDB(name)] == [NewDB(name)];
    LastRecord(none, NewDB(name));
    EditsJoin(none, NewDB(name));
    assert Edits([NewDB(name)]) == [Edit({}, [])];
    NothingYet(name, attached);
    forall l | 0 <= l < NUM_LEVELS ensures ApplyAll({}, Edits([NewDB(name)]), l) == FileSet(NO_FILES[l]) {
      assert ApplyToLevel({}, Edit({}, []), l) == {};
    }
  }

  lemma NothingYet(name: Bytes, attached: bool)
    ensures var s := Initial(name, attached);
      && VersionInOrder(s) && HistoryOk(s, [Edit({}, [])], 2) && NumbersOnce([Edit({}, [])]) && SameComparator(name, s.manifest)
      && NumberAbove(NO_FILES, 2)
  {
    hide SortedBySmallest;
    forall l | 0 <= l < NUM_LEVELS ensures NO_FILES[l] == [] && SortedBySmallest(NO_FILES[l]) {
      NoneSorted();
    }
  }

  lemma NoneSorted()
    ensures SortedBySmallest([])
  {}

  // ---- Runs ----------------------------------------------------------------------------------------------------------

  ghost predicate IsRun(name: Bytes, states: seq<State>, steps: seq<Step>) {
    && |states| == |steps| + 1 && (exists attached :: states[0] == Initial(name, attached))
    && forall i :: 0 <= i < |steps| ==> Next(name, states[i], steps[i], states[i + 1])
  }

  lemma {:induction false} InvariantHolds(name: Bytes, states: seq<State>, steps: seq<Step>, i: nat)
    requires IsRun(name, states, steps) && i < |states|
    ensures Inv(name, states[i])
  {
    hide Inv, Next;
    if i == 0 {
      var attached :| states[0] == Initial(name, attached);
      InitialIsOk(name, attached);
    } else {
      InvariantHolds(name, states, steps, i - 1);
      StepKeepsInv(name, states[i - 1], steps[i - 1], states[i]);
    }
  }

  /** At every moment of every run, over all lifetimes of the database, reading the manifest gives the current version,
      its compaction pointers and log numbers; the next file number and the last sequence are those of the last
      LogAndApply, above all files of the version and above the log number. */
  lemma RecoveredIsCurrent(name: Bytes, states: seq<State>, steps: seq<Step>, i: nat, r: Recovered)
    requires IsRun(name, states, steps) && i < |states| && RecoveredFrom(name, states[i].manifest, r)
    ensures NumbersOnce(Edits(states[i].manifest))
    ensures r.Recovered? && r.version == states[i].current && r.pointers == states[i].pointers
    ensures r.logNumber == states[i].logNumber && r.prevLog == states[i].prevLog
    ensures r.nextFile <= states[i].nextFile + 1 && r.lastSequence <= states[i].lastSequence
    ensures i > 0 && steps[i - 1].LogAndApply? ==> r.nextFile == states[i].nextFile + 1 && r.lastSequence == states[i].lastSequence
    ensures NumberAbove(r.version, r.nextFile) && r.logNumber < r.nextFile
  {
    hide Next, VersionInOrder, RecoveredFrom, CountersSaved, HistoryOk;
    InvariantHolds(name, states, steps, i);
    RecoveredState(name, states[i], r);
    if i > 0 && steps[i - 1].LogAndApply? {
      InvariantHolds(name, states, steps, i - 1);
      assert Next(name, states[i - 1], steps[i - 1], states[i]);
      LoggedCounters(name, states[i - 1], steps[i - 1], states[i]);
    }
  }

  lemma LoggedCounters(name: Bytes, s: State, step: Step, s2: State)
    requires Inv(name, s) && Next(name, s, step, s2) && step.LogAndApply?
    ensures CountersOf(s2.manifest).nextFile == Some(s2.nextFile) && CountersOf(s2.manifest).lastSequence == Some(s2.lastSequence)
  {
    hide Inv, Logs;
    LogsKeepsInv(name, s, step.change, s2);
  }

  // ---- The class -----------------------------------------------------------------------------------------------------

  class VersionSet {
    const name: Bytes
    var current: Version
    var pointers: Pointers
    var logNumber: nat
    var prevLog: nat
    var nextFile: nat
    var lastSequence: nat
    var pending: set<nat>
    var manifest: seq<Record>
    var attached: bool

    ghost function Abs(): State
      reads this
    {
      State(current, pointers, logNumber, prevLog, nextFile, lastSequence, pending, manifest, attached)
    }

    ghost predicate Valid()
      reads this
    {
      Inv(name, Abs())
    }

    /** A new database. */
    constructor (name: Bytes)
      ensures Valid() && this.name == name && Abs() == Initial(name, false)
      ensures current == NO_FILES && pointers == NO_POINTERS && logNumber == 0 && prevLog == 0 && nextFile == 3 && lastSequence == 0
      ensures manifest == [Record(Some(name), Edit({}, []), [], Some(0), None, Some(2), Some(0))]
    {
      this.name, current, pointers := name, NO_FILES, NO_POINTERS;
      logNumber, prevLog, nextFile, lastSequence, pending := 0, 0, 3, 0, {};
      manifest, attached := [NewDB(name)], false;
      InitialIsOk(name, false);
    }

    method NewFileNumber() returns (n: nat)
      requires Valid()
      modifies this
      ensures Valid() && n == old(nextFile) && Next(name, old(Abs()), Step.NewFileNumber, Abs())
    {
      ghost var before := Abs();
      n := nextFile;
      nextFile, pending := nextFile + 1, pending + {n};
      StepKeepsInv(name, before, Step.NewFileNumber, Abs());
    }

    method MarkFileNumberUsed(n: nat)
      requires Valid()
      modifies this
      ensures Valid() && Next(name, old(Abs()), Step.MarkFileNumberUsed(n), Abs())
    {
      ghost var before := Abs();
      if nextFile <= n {
        nextFile := n + 1;
      }
      StepKeepsInv(name, before, Step.MarkFileNumberUsed(n), Abs());
    }

    /** Fills the counters of the change in, makes the new version, and writes the record, after a snapshot if the
        manifest is a new one. */
    method LogAndApply(change: Change)
      requires Valid() && ChangeOk(Abs(), change)
      modifies this
      ensures Valid() && Next(name, old(Abs()), Step.LogAndApply(change), Abs())
      ensures logNumber == (if change.logNumber.Some? then change.logNumber.value else old(logNumber))
      ensures prevLog == (if change.prevLog.Some? then change.prevLog.value else old(prevLog))
      ensures nextFile == old(nextFile) && lastSequence == old(lastSequence) && attached
      ensures SetByLast(old(pointers), change.pointers, pointers)
      ensures |manifest| == (if old(attached) then |old(manifest)| + 1 else 2) && (old(attached) ==> old(manifest) <= manifest)
      ensures manifest[|manifest| - 1] ==
        Record(None, change.edit, change.pointers, Some(logNumber), Some(prevLog), Some(nextFile), Some(lastSequence))
    {
      hide Inv, Logs, ChangeOk, ApplyToLevel, SetPointers, SortedBySmallest, EditOk, SetByLast, SnapshotRecord;
      ghost var before := Abs();
      ChangeFits(name, before, change);
      var log := if change.logNumber.Some? then change.logNumber.value else logNumber;
      var prev := if change.prevLog.Some? then change.prevLog.value else prevLog;
      var record := Record(None, change.edit, change.pointers, Some(log), Some(prev), Some(nextFile), Some(lastSequence));
      var v := ApplyEdit(current, change.edit);
      pointers := ApplyPointers(pointers, change.pointers);
      if !attached {
        var snapshot := WriteSnapshot(name, pointers, current);
        manifest, attached := [snapshot], true;
      }
      manifest := manifest + [record];
      current, logNumber, prevLog := v, log, prev;
      pending := pending - AddedNumbers(change.edit.added);
      IsLogged(name, before, change, Abs());
      StepKeepsInv(name, before, Step.LogAndApply(change), Abs());
      LastCounts(before.pointers, change.pointers);
    }

    /** Another process reads the manifest. */
    method Recover(reuse: bool)
      requires Valid()
      modifies this
      ensures Valid() && Next(name, old(Abs()), Reopen(reuse), Abs())
    {
      hide Inv, RecoveredFrom;
      ghost var before := Abs();
      ManifestReads(name, before);
      var r := Manifests.Recover(name, manifest);
      RecoveredState(name, before, r);
      current, pointers, logNumber, prevLog := r.version, r.pointers, r.logNumber, r.prevLog;
      nextFile, lastSequence, pending, attached := r.nextFile, r.lastSequence, {}, reuse;
      StepKeepsInv(name, before, Reopen(reuse), Abs());
    }
  }

  lemma ChangeFits(name: Bytes, s: State, ch: Change)
    requires Inv(name, s) && ChangeOk(s, ch)
    ensures |s.current| == NUM_LEVELS && (forall l :: 0 <= l < NUM_LEVELS ==> SortedBySmallest(s.current[l])) && EditOk(s.current, ch.edit)
  {
    AddsAreNew(s, ch, Edits(s.manifest), CountersOf(s.manifest).nextFile.value);
  }

  lemma IsLogged(name: Bytes, s: State, ch: Change, s2: State)
    requires ChangeOk(s, ch) && Edited(s.current, ch.edit, s2.current)
    requires s2 == State(s2.current, SetPointers(s.pointers, ch.pointers), Or(ch.logNumber, s.logNumber), Or(ch.prevLog, s.prevLog),
                         s.nextFile, s.lastSequence, s.pending - AddedNumbers(ch.edit.added), Extended(name, s, ch), true)
    ensures Logs(name, s, ch, s2)
  {}

  lemma ManifestReads(name: Bytes, s: State)
    requires Inv(name, s)
    ensures NumbersOnce(Edits(s.manifest))
  {}
}
