/** Installing a compaction or a flushed memtable keeps the level invariant: levels 1 and up stay sorted and
    disjoint, and for one user key every entry of a shallower level stays newer than every entry of a deeper one.
    For a compaction this rests on how its inputs were chosen, and on no memtable having been flushed into the range of
    an output while it ran; for a flush it rests on the level having been chosen so that nothing overlaps on the way. */
module Install {
  import opened Keys
  import opened Files
  import opened Versions
  import opened CompactionInputs
  import opened VersionBuilder

  /** A file separated from another: one ends before the other starts. */
  predicate Apart(f: File, g: File) {
    Less(f.largest, g.smallest) || Less(g.largest, f.smallest)
  }

  lemma ApartIsSorted(files: seq<File>)
    requires FilesOk(files) && SortedBySmallest(files)
    requires forall f, g :: f in files && g in files && f != g ==> Apart(f, g)
    ensures DisjointSorted(files)
  {
    forall i, j | 0 <= i < j < |files| ensures Less(files[i].largest, files[j].smallest) {
      FileSpan(files[i]);
      FileSpan(files[j]);
      assert BySmallestKey(files[i], files[j]);
      assert files[i] in files && files[j] in files;
      assert files[i] != files[j];
    }
  }

  lemma SortedIsApart(files: seq<File>, f: File, g: File)
    requires DisjointSorted(files) && f in files && g in files && f != g
    ensures Apart(f, g)
  {
    var i :| 0 <= i < |files| && files[i] == f;
    var j :| 0 <= j < |files| && files[j] == g;
    assert i < j || j < i;
  }

  // ---- What the input choice guarantees ------------------------------------------------------

  ghost predicate ClosedUnderOlder(files: seq<File>, part: seq<File>) {
    forall g, f :: g in files && g !in part && f in part ==> Newer(TableOf(g), TableOf(f))
  }

  /** A file left behind holds only newer entries of the user keys it shares with the part taken. */
  lemma SoundPartIsClosed(v: Version, level: nat, part: seq<File>)
    requires VersionOk(v) && level < |v| && SoundPart(v, level, part)
    requires Distinct(EntriesOf(v[level]))
    ensures ClosedUnderOlder(v[level], part)
  {
    assert LevelOk(v, level);
    forall g, f | g in v[level] && g !in part && f in part ensures Newer(TableOf(g), TableOf(f)) {
      if level == 0 {
        ClosedPartNewer(v[0], part, g, f);
      } else {
        RunNewer(v[level], part, g, f);
      }
    }
  }

  lemma ClosedPartNewer(files: seq<File>, part: seq<File>, g: File, f: File)
    requires FilesOk(files) && ClosedPart(files, part) && g in files && g !in part && f in part
    ensures Newer(TableOf(g), TableOf(f))
  {
    var lo, hi :| ClosedRange(files, lo, hi) && part == Overlapping(files, lo, hi);
    OverlappingMembers(files, lo, hi);
    forall a, b | a in TableOf(g) && b in TableOf(f) ensures a.key.user != b.key.user {
      FileRange(g, a);
      FileRange(f, b);
    }
  }

  lemma RunNewer(files: seq<File>, part: seq<File>, g: File, f: File)
    requires FilesOk(files) && DisjointSorted(files) && IsRun(files, part) && BoundaryClosed(files, part)
    requires Distinct(EntriesOf(files)) && g in files && g !in part && f in part
    ensures Newer(TableOf(g), TableOf(f))
  {
    var a, b :| 0 <= a < b <= |files| && part == files[a..b];
    var i :| 0 <= i < |files| && files[i] == g;
    var j := SlicePosition(files, a, b, f);
    if i < a {
      EarlierIsNewer(files, i, j);
    } else if i < b {
      InSlice(files, a, b, i);
    } else {
      AfterRunIsDisjoint(files, a, b, i, j);
      LaterUsersDiffer(f, g);
    }
  }

  lemma EarlierIsNewer(files: seq<File>, i: nat, j: nat)
    requires FilesOk(files) && DisjointSorted(files) && Distinct(EntriesOf(files)) && i < j < |files|
    ensures Newer(TableOf(files[i]), TableOf(files[j]))
  {
    var g, f := files[i], files[j];
    assert Less(g.largest, f.smallest);
    forall x, y | x in TableOf(g) && y in TableOf(f) && x.key.user == y.key.user ensures x.key.sequence > y.key.sequence {
      FileRange(g, x);
      FileRange(f, y);
      assert x in EntriesOf(files) && y in EntriesOf(files);
    }
  }

  lemma LaterUsersDiffer(f: File, g: File)
    requires FileOk(f) && FileOk(g) && f.largest.user < g.smallest.user
    ensures Newer(TableOf(g), TableOf(f))
  {
    forall x, y | x in TableOf(g) && y in TableOf(f) ensures x.key.user != y.key.user {
      FileRange(g, x);
      FileRange(f, y);
    }
  }

  /** The user keys of a boundary-closed run end before those of every later file. */
  lemma AfterRunIsDisjoint(files: seq<File>, a: nat, b: nat, i: nat, j: nat)
    requires FilesOk(files) && DisjointSorted(files) && a < b <= i < |files| && a <= j < b
    requires BoundaryClosed(files, files[a..b])
    ensures files[j].largest.user < files[i].smallest.user
  {
    RunEndsAtLast(files, a, b);
    assert files[b] in files;
    assert Less(files[b - 1].largest, files[b].smallest);
    assert !IsBoundaryFile(files[b], files[b - 1].largest);
    SortedByUser(files);
    assert files[b].smallest.user <= files[i].smallest.user;
    assert files[j].largest.user <= files[b - 1].largest.user;
  }

  lemma RunEndsAtLast(files: seq<File>, a: nat, b: nat)
    requires FilesOk(files) && DisjointSorted(files) && a < b <= |files|
    ensures IsLargest(files[a..b], files[b - 1].largest)
  {
    LargestIncreases(files);
    InSlice(files, a, b, b - 1);
    forall f | f in files[a..b] ensures !Less(files[b - 1].largest, f.largest) {
      var j := SlicePosition(files, a, b, f);
    }
  }

  /** A file of the next level that is not taken lies wholly before or wholly after all inputs. */
  lemma LeftBelowIsOutside(v: Version, c: Compaction, g: File)
    requires VersionOk(v) && SoundInputs(v, c) && g in v[c.level + 1] && g !in c.inputs1
    ensures (forall x :: x in EntriesOf(c.inputs0) + EntriesOf(c.inputs1) ==> Less(g.largest, x.key))
         || (forall x :: x in EntriesOf(c.inputs0) + EntriesOf(c.inputs1) ==> Less(x.key, g.smallest))
  {
    var files := v[c.level + 1];
    var lo, hi :| IsRange(c.inputs0, lo, hi) && c.inputs1 == Overlapping(files, Some(lo.user), Some(hi.user));
    assert LevelOk(v, c.level) && LevelOk(v, c.level + 1);
    RangeNotEmpty(v[c.level], c.inputs0, lo, hi);
    OverlappingMembers(files, Some(lo.user), Some(hi.user));
    NotOverlappingIsOutside(files, c.inputs0, c.inputs1, lo, hi, g);
  }

  lemma NotOverlappingIsOutside(files: seq<File>, inputs0: seq<File>, inputs1: seq<File>, lo: InternalKey, hi: InternalKey, g: File)
    requires FilesOk(files) && DisjointSorted(files) && g in files && !Overlaps(g, Some(lo.user), Some(hi.user))
    requires FilesOk(inputs0) && IsRange(inputs0, lo, hi) && lo.user <= hi.user
    requires forall f :: f in inputs1 ==> f in files && Overlaps(f, Some(lo.user), Some(hi.user))
    ensures (forall x :: x in EntriesOf(inputs0) + EntriesOf(inputs1) ==> Less(g.largest, x.key))
         || (forall x :: x in EntriesOf(inputs0) + EntriesOf(inputs1) ==> Less(x.key, g.smallest))
  {
    forall x | x in EntriesOf(inputs0) + EntriesOf(inputs1)
      ensures if g.largest.user < lo.user then Less(g.largest, x.key) else Less(x.key, g.smallest)
    {
      if x in EntriesOf(inputs0) {
        var f :| f in inputs0 && x in f.table;
        SideOfInput0(inputs0, lo, hi, g, f, x);
      } else {
        var f :| f in inputs1 && x in f.table;
        SideOfInput1(files, lo.user, hi.user, g, f, x);
      }
    }
  }

  lemma RangeNotEmpty(files: seq<File>, inputs: seq<File>, lo: InternalKey, hi: InternalKey)
    requires FilesOk(files) && Includes(files, inputs) && IsRange(inputs, lo, hi)
    ensures lo.user <= hi.user
    ensures FilesOk(inputs)
  {
    forall i | 0 <= i < |inputs| ensures FileOk(inputs[i]) {
      assert inputs[i] in files;
    }
    var f :| f in inputs && f.smallest == lo;
    FileSpan(f);
  }

  lemma SideOfInput0(inputs: seq<File>, lo: InternalKey, hi: InternalKey, g: File, f: File, x: Entry)
    requires IsRange(inputs, lo, hi) && f in inputs && FileOk(f) && x in f.table
    requires !Overlaps(g, Some(lo.user), Some(hi.user))
    ensures if g.largest.user < lo.user then Less(g.largest, x.key) else Less(x.key, g.smallest)
  {
    FileRange(f, x);
  }

  lemma SideOfInput1(files: seq<File>, lo: UserKey, hi: UserKey, g: File, f: File, x: Entry)
    requires FilesOk(files) && DisjointSorted(files) && f in files && g in files
    requires Overlaps(f, Some(lo), Some(hi)) && !Overlaps(g, Some(lo), Some(hi)) && x in f.table && lo <= hi
    ensures if g.largest.user < lo then Less(g.largest, x.key) else Less(x.key, g.smallest)
  {
    FileRange(f, x);
    FileSpan(g);
    SortedIsApart(files, f, g);
  }

  ghost function InputEntries(c: Compaction): set<Entry> {
    EntriesOf(c.inputs0) + EntriesOf(c.inputs1)
  }

  /** `v2` is `v` after the compaction's inputs were replaced by its outputs. */
  ghost predicate Installed(v: Version, v2: Version, c: Compaction, outputs: seq<File>) {
    && |v| == |v2| == NUM_LEVELS && c.level + 1 < NUM_LEVELS
    && (forall l :: 0 <= l < NUM_LEVELS ==> SortedBySmallest(v2[l]))
    && FileSet(v2[c.level]) == FileSet(v[c.level]) - FileSet(c.inputs0)
    && FileSet(v2[c.level + 1]) == FileSet(v[c.level + 1]) - FileSet(c.inputs1) + FileSet(outputs)
    && (forall l :: 0 <= l < NUM_LEVELS && l != c.level && l != c.level + 1 ==> FileSet(v2[l]) == FileSet(v[l]))
  }

  /** What compaction work may hand to the installation. */
  ghost predicate OutputsOk(v: Version, c: Compaction, outputs: seq<File>) {
    && c.level + 1 < |v|
    && FilesOk(outputs) && DisjointSorted(outputs) && DistinctNumbers(outputs)
    && EntriesOf(outputs) <= InputEntries(c)
    && forall o, g :: o in outputs && g in v[c.level + 1] && g !in c.inputs1 ==> o.number != g.number
  }

  lemma OutputApart(v: Version, c: Compaction, outputs: seq<File>, g: File, o: File)
    requires VersionOk(v) && SoundInputs(v, c) && g in v[c.level + 1] && g !in c.inputs1
    requires FilesOk(outputs) && EntriesOf(outputs) <= InputEntries(c) && o in outputs
    ensures Apart(g, o)
  {
    LeftBelowIsOutside(v, c, g);
    OutsideIsApart(InputEntries(c), g, o, outputs);
  }

  lemma OutsideIsApart(inputs: set<Entry>, g: File, o: File, outputs: seq<File>)
    requires (forall x :: x in inputs ==> Less(g.largest, x.key)) || (forall x :: x in inputs ==> Less(x.key, g.smallest))
    requires o in outputs && FileOk(o) && EntriesOf(outputs) <= inputs
    ensures Apart(g, o)
  {
    var first, last := o.table[0], o.table[|o.table| - 1];
    assert first in o.table && last in o.table;
    assert first in EntriesOf(outputs) && last in EntriesOf(outputs);
  }

  lemma FilesOkFromSet(files: seq<File>)
    requires forall f :: f in FileSet(files) ==> FileOk(f)
    ensures FilesOk(files)
  {
    forall i | 0 <= i < |files| ensures FileOk(files[i]) {
      assert files[i] in FileSet(files);
    }
  }

  /** A sub-list of a level that is still ordered by smallest key is a level. */
  lemma SubLevelOk(v: Version, v2: Version, l: nat)
    requires |v| == |v2| == NUM_LEVELS && l < NUM_LEVELS && LevelOk(v, l)
    requires SortedBySmallest(v2[l]) && FileSet(v2[l]) <= FileSet(v[l])
    ensures LevelOk(v2, l)
  {
    FilesOkFromSet(v2[l]);
    assert forall f :: f in v2[l] ==> f in FileSet(v[l]);
    if l > 0 {
      forall f, g | f in v2[l] && g in v2[l] && f != g ensures Apart(f, g) {
        SortedIsApart(v[l], f, g);
      }
      ApartIsSorted(v2[l]);
    }
  }

  /** `v` has grown from `v0` by flushes alone: every further file is newer than all of `v0`. */
  ghost predicate Grown(v0: Version, v: Version) {
    && |v0| == |v| == NUM_LEVELS
    && (forall l :: 0 <= l < NUM_LEVELS ==> FileSet(v0[l]) <= FileSet(v[l]))
    && (forall l, g :: 0 <= l < NUM_LEVELS && g in v[l] && g !in v0[l] ==> Newer(TableOf(g), AllEntries(v0)))
  }

  /** No file flushed to the output level meanwhile lies in the range of an output. */
  ghost predicate OutputsFit(v0: Version, v: Version, c: Compaction, outputs: seq<File>)
    requires c.level + 1 < |v0| && c.level + 1 < |v|
  {
    forall g, o :: g in v[c.level + 1] && g !in v0[c.level + 1] && o in outputs ==> Apart(g, o)
  }

  lemma OutputLevelOk(v0: Version, v: Version, v2: Version, c: Compaction, outputs: seq<File>)
    requires VersionOk(v0) && VersionOk(v) && SoundInputs(v0, c) && OutputsOk(v, c, outputs) && |v2| == NUM_LEVELS
    requires OutputsFit(v0, v, c, outputs)
    requires SortedBySmallest(v2[c.level + 1])
    requires FileSet(v2[c.level + 1]) == FileSet(v[c.level + 1]) - FileSet(c.inputs1) + FileSet(outputs)
    ensures LevelOk(v2, c.level + 1)
  {
    assert |v| == NUM_LEVELS && c.level + 1 < NUM_LEVELS;
    hide VersionOk, SoundInputs, OutputsFit, OutputsOk, FilesOk, FileSet, DisjointSorted, SortedBySmallest, DistinctNumbers;
    var l := c.level + 1;
    LevelOfVersion(v, l);
    AfterReplacing(v[l], v2[l], c.inputs1, outputs);
    FilesAfter(v, v2[l], c, outputs);
    AllApart(v0, v, v2[l], c, outputs);
    NumbersAfter(v, v2[l], c, outputs);
  }

  lemma AllApart(v0: Version, v: Version, after: seq<File>, c: Compaction, outputs: seq<File>)
    requires VersionOk(v0) && SoundInputs(v0, c) && OutputsOk(v, c, outputs) && |v| == NUM_LEVELS
    requires OutputsFit(v0, v, c, outputs) && DisjointSorted(v[c.level + 1])
    requires forall f :: f in after ==> f in outputs || (f in v[c.level + 1] && f !in c.inputs1)
    requires FilesOk(after) && SortedBySmallest(after)
    ensures DisjointSorted(after)
  {
    hide VersionOk, SoundInputs, OutputsFit, OutputsOk, Apart, FilesOk, DisjointSorted, SortedBySmallest;
    forall f, g | f in after && g in after && f != g ensures Apart(f, g) {
      BothApart(v0, v, c, outputs, f, g);
    }
    ApartIsSorted(after);
  }

  lemma AfterReplacing(before: seq<File>, after: seq<File>, removed: seq<File>, added: seq<File>)
    requires FileSet(after) == FileSet(before) - FileSet(removed) + FileSet(added)
    ensures forall f :: f in after ==> f in added || (f in before && f !in removed)
  {
    forall f | f in after ensures f in added || (f in before && f !in removed) {
      assert f in FileSet(after);
    }
  }

  lemma FilesAfter(v: Version, after: seq<File>, c: Compaction, outputs: seq<File>)
    requires OutputsOk(v, c, outputs) && FilesOk(v[c.level + 1])
    requires forall f :: f in after ==> f in outputs || (f in v[c.level + 1] && f !in c.inputs1)
    ensures FilesOk(after)
  {
    forall f | f in FileSet(after) ensures FileOk(f) {}
    FilesOkFromSet(after);
  }

  lemma NumbersAfter(v: Version, after: seq<File>, c: Compaction, outputs: seq<File>)
    requires OutputsOk(v, c, outputs) && DistinctNumbers(v[c.level + 1])
    requires forall f :: f in after ==> f in outputs || (f in v[c.level + 1] && f !in c.inputs1)
    ensures DistinctNumbers(after)
  {}

  lemma BothApart(v0: Version, v: Version, c: Compaction, outputs: seq<File>, f: File, g: File)
    requires VersionOk(v0) && SoundInputs(v0, c) && OutputsOk(v, c, outputs) && |v| == NUM_LEVELS
    requires OutputsFit(v0, v, c, outputs) && DisjointSorted(v[c.level + 1]) && f != g
    requires f in outputs || (f in v[c.level + 1] && f !in c.inputs1)
    requires g in outputs || (g in v[c.level + 1] && g !in c.inputs1)
    ensures Apart(f, g)
  {
    hide VersionOk, SoundInputs, OutputsFit, DisjointSorted;
    if f in outputs && g in outputs {
      SortedIsApart(outputs, f, g);
    } else if f in outputs {
      OutputBesides(v0, v, c, outputs, g, f);
    } else if g in outputs {
      OutputBesides(v0, v, c, outputs, f, g);
    } else {
      SortedIsApart(v[c.level + 1], f, g);
    }
  }

  lemma LevelOfVersion(v: Version, l: nat)
    requires VersionOk(v) && l < NUM_LEVELS
    ensures LevelOk(v, l)
  {}

  lemma OutputBesides(v0: Version, v: Version, c: Compaction, outputs: seq<File>, g: File, o: File)
    requires VersionOk(v0) && SoundInputs(v0, c) && OutputsOk(v, c, outputs) && |v| == NUM_LEVELS
    requires OutputsFit(v0, v, c, outputs) && g in v[c.level + 1] && g !in c.inputs1 && o in outputs
    ensures Apart(g, o)
  {
    if g in v0[c.level + 1] {
      OutputApart(v0, c, outputs, g, o);
    }
  }

  lemma EntriesOfSubset(a: seq<File>, b: seq<File>)
    requires FileSet(a) <= FileSet(b)
    ensures EntriesOf(a) <= EntriesOf(b)
  {
    forall e | e in EntriesOf(a) ensures e in EntriesOf(b) {
      var f :| f in a && e in f.table;
      assert f in FileSet(a);
    }
  }

  lemma LevelEntries(v: Version, l: nat)
    requires l < |v|
    ensures EntriesOf(v[l]) <= AllEntries(v)
  {}

  /** What stays on the compacted level is newer than what leaves it. */
  lemma RemainderIsNewer(v0: Version, v: Version, c: Compaction, rest: seq<File>)
    requires VersionOk(v0) && SoundInputs(v0, c) && Grown(v0, v) && Distinct(EntriesOf(v0[c.level]))
    requires FileSet(rest) == FileSet(v[c.level]) - FileSet(c.inputs0)
    ensures Newer(EntriesOf(rest), EntriesOf(c.inputs0))
  {
    SoundPartIsClosed(v0, c.level, c.inputs0);
    forall x, y | x in EntriesOf(rest) && y in EntriesOf(c.inputs0) && x.key.user == y.key.user
      ensures x.key.sequence > y.key.sequence
    {
      var g :| g in rest && x in g.table;
      var f :| f in c.inputs0 && y in f.table;
      assert g in FileSet(rest) && f in v0[c.level];
      assert x in TableOf(g) && y in TableOf(f);
      if g in v0[c.level] {
        assert Newer(TableOf(g), TableOf(f));
      } else {
        assert y in EntriesOf(v0[c.level]);
        assert y in AllEntries(v0);
      }
    }
  }

  lemma NewerSubset(A: set<Entry>, B: set<Entry>, A2: set<Entry>, B2: set<Entry>)
    requires Newer(A, B) && A2 <= A && B2 <= B
    ensures Newer(A2, B2)
  {}

  lemma InstalledEntries(v: Version, v2: Version, c: Compaction, outputs: seq<File>)
    requires Installed(v, v2, c, outputs) && EntriesOf(outputs) <= InputEntries(c)
    requires Includes(v[c.level], c.inputs0) && Includes(v[c.level + 1], c.inputs1)
    ensures EntriesOf(c.inputs0) <= EntriesOf(v[c.level])
    ensures EntriesOf(v2[c.level]) <= EntriesOf(v[c.level])
    ensures EntriesOf(v2[c.level + 1]) <= EntriesOf(v[c.level + 1]) + EntriesOf(c.inputs0)
    ensures forall l :: 0 <= l < NUM_LEVELS && l != c.level && l != c.level + 1 ==> EntriesOf(v2[l]) <= EntriesOf(v[l])
  {
    EntriesOfSubset(c.inputs0, v[c.level]);
    EntriesOfSubset(c.inputs1, v[c.level + 1]);
    EntriesOfSubset(v2[c.level], v[c.level]);
    var before, after := EntriesOf(v[c.level + 1]) + EntriesOf(c.inputs0), EntriesOf(v2[c.level + 1]);
    forall e | e in after ensures e in before {
      var f :| f in v2[c.level + 1] && e in f.table;
      assert f in FileSet(v2[c.level + 1]);
      assert f in outputs ==> e in EntriesOf(outputs);
    }
    forall l | 0 <= l < NUM_LEVELS && l != c.level && l != c.level + 1 ensures EntriesOf(v2[l]) <= EntriesOf(v[l]) {
      EntriesOfSubset(v2[l], v[l]);
    }
  }

  lemma InstalledNewer(v: Version, v2: Version, c: Compaction, outputs: seq<File>, l: nat, m: nat)
    requires VersionOk(v) && Installed(v, v2, c, outputs) && EntriesOf(outputs) <= InputEntries(c)
    requires Includes(v[c.level], c.inputs0) && Includes(v[c.level + 1], c.inputs1)
    requires Newer(EntriesOf(v2[c.level]), EntriesOf(c.inputs0))
    requires l < m < NUM_LEVELS
    ensures Newer(EntriesOf(v2[l]), EntriesOf(v2[m]))
  {
    InstalledEntries(v, v2, c, outputs);
    assert Newer(EntriesOf(v[l]), EntriesOf(v[m]));
    if l == c.level + 1 {
      assert Newer(EntriesOf(v[c.level]), EntriesOf(v[m]));
    } else if m == c.level + 1 && l < c.level {
      assert Newer(EntriesOf(v[l]), EntriesOf(v[c.level]));
    }
  }

  /** A compaction keeps the level invariant if and only if no memtable was flushed into the range of an output while
      it ran. */
  lemma CompactionKeepsInvariantIff(v0: Version, v: Version, v2: Version, c: Compaction, outputs: seq<File>)
    requires VersionOk(v0) && VersionOk(v) && Grown(v0, v) && SoundInputs(v0, c) && Distinct(EntriesOf(v0[c.level]))
    requires OutputsOk(v, c, outputs) && Installed(v, v2, c, outputs)
    ensures VersionOk(v2) <==> OutputsFit(v0, v, c, outputs)
  {
    if OutputsFit(v0, v, c, outputs) {
      CompactionKeepsInvariant(v0, v, v2, c, outputs);
    }
    if VersionOk(v2) {
      InvariantNeedsFit(v0, v, v2, c, outputs);
    }
  }

  lemma InvariantNeedsFit(v0: Version, v: Version, v2: Version, c: Compaction, outputs: seq<File>)
    requires SoundInputs(v0, c) && OutputsOk(v, c, outputs) && Installed(v, v2, c, outputs) && VersionOk(v2)
    requires |v0| == |v| == NUM_LEVELS
    ensures OutputsFit(v0, v, c, outputs)
  {
    hide VersionOk, SoundInputs, LevelsNewer;
    var l := c.level + 1;
    LevelOfVersion(v2, l);
    InputsIncluded(v0, c);
    forall g, o | g in v[l] && g !in v0[l] && o in outputs ensures Apart(g, o) {
      assert g in FileSet(v2[l]) && o in FileSet(v2[l]);
      assert g.number != o.number;
      SortedIsApart(v2[l], g, o);
    }
  }

  /** A compaction keeps the level invariant, whatever was flushed outside the ranges of its outputs while it ran. */
  lemma CompactionKeepsInvariant(v0: Version, v: Version, v2: Version, c: Compaction, outputs: seq<File>)
    requires VersionOk(v0) && VersionOk(v) && Grown(v0, v) && SoundInputs(v0, c) && Distinct(EntriesOf(v0[c.level]))
    requires OutputsOk(v, c, outputs) && OutputsFit(v0, v, c, outputs) && Installed(v, v2, c, outputs)
    ensures VersionOk(v2)
  {
    CompactionKeepsOrder(v0, v, v2, c, outputs);
    forall l | 0 <= l < NUM_LEVELS ensures LevelOk(v2, l) {
      if l == c.level + 1 {
        OutputLevelOk(v0, v, v2, c, outputs);
      } else {
        assert LevelOk(v, l);
        SubLevelOk(v, v2, l);
      }
    }
  }

  lemma CompactionKeepsOrder(v0: Version, v: Version, v2: Version, c: Compaction, outputs: seq<File>)
    requires VersionOk(v0) && VersionOk(v) && Grown(v0, v) && SoundInputs(v0, c) && Distinct(EntriesOf(v0[c.level]))
    requires OutputsOk(v, c, outputs) && Installed(v, v2, c, outputs)
    ensures LevelsNewer(v2)
  {
    GrownInputsIncluded(v0, v, c);
    RemainderIsNewer(v0, v, c, v2[c.level]);
    forall l, m | 0 <= l < m < NUM_LEVELS ensures Newer(EntriesOf(v2[l]), EntriesOf(v2[m])) {
      InstalledNewer(v, v2, c, outputs, l, m);
    }
  }

  lemma GrownInputsIncluded(v0: Version, v: Version, c: Compaction)
    requires SoundInputs(v0, c) && Grown(v0, v)
    ensures Includes(v[c.level], c.inputs0) && Includes(v[c.level + 1], c.inputs1)
  {
    InputsIncluded(v0, c);
    forall f | f in c.inputs0 ensures f in v[c.level] {
      assert f in FileSet(v0[c.level]) && f in FileSet(v[c.level]);
    }
    forall f | f in c.inputs1 ensures f in v[c.level + 1] {
      assert f in FileSet(v0[c.level + 1]) && f in FileSet(v[c.level + 1]);
    }
  }

  lemma InputsIncluded(v: Version, c: Compaction)
    requires SoundInputs(v, c)
    ensures Includes(v[c.level], c.inputs0) && Includes(v[c.level + 1], c.inputs1)
  {
    var lo, hi :| IsRange(c.inputs0, lo, hi) && c.inputs1 == Overlapping(v[c.level + 1], Some(lo.user), Some(hi.user));
    OverlappingMembers(v[c.level + 1], Some(lo.user), Some(hi.user));
  }

  // ---- Flushed memtables -----------------------------------------------------------------------

  /** `v2` is `v` with one more file. */
  ghost predicate FileAdded(v: Version, v2: Version, level: nat, f: File) {
    && |v| == |v2| == NUM_LEVELS && level < NUM_LEVELS
    && (forall l :: 0 <= l < NUM_LEVELS ==> SortedBySmallest(v2[l]))
    && (forall l :: 0 <= l < NUM_LEVELS ==> FileSet(v2[l]) == FileSet(v[l]) + if l == level then {f} else {})
  }

  lemma FileAddedEntries(v: Version, v2: Version, level: nat, f: File, l: nat)
    requires FileAdded(v, v2, level, f) && l < NUM_LEVELS
    ensures EntriesOf(v2[l]) == EntriesOf(v[l]) + if l == level then TableOf(f) else {}
  {
    var before, after := EntriesOf(v[l]) + (if l == level then TableOf(f) else {}), EntriesOf(v2[l]);
    forall e | e in after ensures e in before {
      var g :| g in v2[l] && e in g.table;
      assert g in FileSet(v2[l]);
    }
    forall e | e in before ensures e in after {
      if e in EntriesOf(v[l]) {
        var g :| g in v[l] && e in g.table;
        assert g in FileSet(v2[l]);
      } else {
        assert f in FileSet(v2[l]);
      }
    }
  }

  /** Without overlap there is no shared user key. */
  lemma NoOverlapNoShare(files: seq<File>, f: File)
    requires FilesOk(files) && FileOk(f) && NoOverlap(files, f.smallest.user, f.largest.user)
    ensures Newer(EntriesOf(files), TableOf(f))
    ensures forall g :: g in files ==> Apart(f, g)
  {
    forall x, y | x in EntriesOf(files) && y in TableOf(f) ensures x.key.user != y.key.user {
      var g :| g in files && x in g.table;
      FileRange(g, x);
      FileRange(f, y);
    }
    forall g | g in files ensures Apart(f, g) {
      FileSpan(g);
      FileSpan(f);
    }
  }

  lemma FlushLevelOk(v: Version, v2: Version, level: nat, f: File)
    requires VersionOk(v) && FileAdded(v, v2, level, f) && FileOk(f) && NumberAbove(v, f.number)
    requires Newer(TableOf(f), AllEntries(v))
    requires level > 0 ==> NoOverlap(v[level], f.smallest.user, f.largest.user)
    ensures LevelOk(v2, level)
  {
    assert LevelOk(v, level);
    assert forall g :: g in FileSet(v2[level]) <==> g in v[level] || g == f;
    FilesOkFromSet(v2[level]);
    assert forall g :: g in v2[level] ==> g in FileSet(v2[level]);
    if level == 0 {
      forall g | g in v[0] ensures Newer(TableOf(f), TableOf(g)) {
        forall e | e in TableOf(g) ensures e in AllEntries(v) {
          assert e in EntriesOf(v[0]);
        }
      }
    } else {
      NoOverlapNoShare(v[level], f);
      forall g, h | g in v2[level] && h in v2[level] && g != h ensures Apart(g, h) {
        if g != f && h != f {
          SortedIsApart(v[level], g, h);
        }
      }
      ApartIsSorted(v2[level]);
    }
  }

  lemma FlushNewer(v: Version, v2: Version, level: nat, f: File, l: nat, m: nat)
    requires VersionOk(v) && FileAdded(v, v2, level, f) && FileOk(f) && l < m < NUM_LEVELS
    requires Newer(TableOf(f), AllEntries(v))
    requires level > 0 ==> forall k :: 0 <= k <= level ==> NoOverlap(v[k], f.smallest.user, f.largest.user)
    ensures Newer(EntriesOf(v2[l]), EntriesOf(v2[m]))
  {
    FileAddedEntries(v, v2, level, f, l);
    FileAddedEntries(v, v2, level, f, m);
    assert Newer(EntriesOf(v[l]), EntriesOf(v[m]));
    if l == level {
      LevelEntries(v, m);
    } else if m == level {
      assert LevelOk(v, l);
      NoOverlapNoShare(v[l], f);
    }
  }

  /** A flushed memtable keeps the level invariant at every level it may sink to. */
  lemma FlushKeepsInvariant(v: Version, v2: Version, level: nat, f: File)
    requires VersionOk(v) && FileAdded(v, v2, level, f) && FileOk(f) && NumberAbove(v, f.number)
    requires Newer(TableOf(f), AllEntries(v))
    requires level > 0 ==> forall k :: 0 <= k <= level ==> NoOverlap(v[k], f.smallest.user, f.largest.user)
    ensures VersionOk(v2)
  {
    forall l, m | 0 <= l < m < NUM_LEVELS ensures Newer(EntriesOf(v2[l]), EntriesOf(v2[m])) {
      FlushNewer(v, v2, level, f, l, m);
    }
    forall l | 0 <= l < NUM_LEVELS ensures LevelOk(v2, l) {
      if l == level {
        FlushLevelOk(v, v2, level, f);
      } else {
        assert LevelOk(v, l);
        SubLevelOk(v, v2, l);
      }
    }
  }
}
