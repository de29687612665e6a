/** Table files and versions: seven lists of files and the properties they keep. */
module Files {
  import opened Keys

  const NUM_LEVELS := 7

  /** File metadata, with the immutable table that the file number names. */
  datatype File = File(number: nat, size: nat, smallest: InternalKey, largest: InternalKey, table: seq<Entry>)

  type Version = seq<seq<File>>

  const NO_FILES: Version := [[], [], [], [], [], [], []]

  ghost predicate FileOk(f: File) {
    && f.table != [] && Sorted(f.table)
    && f.smallest == f.table[0].key && f.largest == f.table[|f.table| - 1].key
    && forall e :: e in f.table ==> e.key.sequence <= MAX_SEQUENCE
  }

  ghost predicate FilesOk(files: seq<File>) {
    forall i :: 0 <= i < |files| ==> FileOk(files[i])
  }

  lemma FileRange(f: File, e: Entry)
    requires FileOk(f) && e in f.table
    ensures !Less(e.key, f.smallest) && !Less(f.largest, e.key)
    ensures f.smallest.user <= e.key.user <= f.largest.user
  {
    var i :| 0 <= i < |f.table| && f.table[i] == e;
    assert i == 0 || Less(f.table[0].key, e.key);
    assert i == |f.table| - 1 || Less(e.key, f.table[|f.table| - 1].key);
  }

  lemma FileSpan(f: File)
    requires FileOk(f)
    ensures !Less(f.largest, f.smallest) && f.smallest.user <= f.largest.user
  {
    FileRange(f, f.table[0]);
  }

  /** The order of a level: every file ends before the next one starts. */
  ghost predicate DisjointSorted(files: seq<File>) {
    forall i, j :: 0 <= i < j < |files| ==> Less(files[i].largest, files[j].smallest)
  }

  /** The order of the set that a version builder keeps: smallest key, then file number. */
  predicate BySmallestKey(f: File, g: File) {
    Less(f.smallest, g.smallest) || (f.smallest == g.smallest && f.number < g.number)
  }

  ghost predicate SortedBySmallest(files: seq<File>) {
    forall i, j :: 0 <= i < j < |files| ==> BySmallestKey(files[i], files[j])
  }

  ghost function TableOf(f: File): set<Entry> {
    set e | e in f.table
  }

  ghost function EntriesOf(files: seq<File>): set<Entry> {
    set f, e | f in files && e in f.table :: e
  }

  ghost function AllEntries(v: Version): set<Entry> {
    set l, e | 0 <= l < |v| && e in EntriesOf(v[l]) :: e
  }

  /** Level 0 files may overlap, but a higher file number is newer for every shared user key. */
  ghost predicate NewestByNumber(files: seq<File>) {
    forall f, g :: f in files && g in files && f.number > g.number ==> Newer(TableOf(f), TableOf(g))
  }

  ghost predicate DistinctNumbers(files: seq<File>) {
    forall f, g :: f in files && g in files && f.number == g.number ==> f == g
  }

  /** File numbers name one file of one level. */
  ghost predicate NumbersDistinct(v: Version) {
    forall l, m, f, g :: 0 <= l < |v| && 0 <= m < |v| && f in v[l] && g in v[m] && f.number == g.number ==> l == m && f == g
  }

  /** All file numbers are below `n`. */
  ghost predicate NumberAbove(v: Version, n: nat) {
    forall l, f :: 0 <= l < |v| && f in v[l] ==> f.number < n
  }

  /** A shallower level is newer than a deeper one, user key by user key. */
  ghost predicate LevelsNewer(v: Version) {
    forall l, m :: 0 <= l < m < |v| ==> Newer(EntriesOf(v[l]), EntriesOf(v[m]))
  }

  ghost predicate LevelOk(v: Version, l: nat)
    requires l < |v|
  {
    && FilesOk(v[l]) && DistinctNumbers(v[l]) && SortedBySmallest(v[l])
    && (if l == 0 then NewestByNumber(v[0]) else DisjointSorted(v[l]))
  }

  /** The level invariant. */
  ghost predicate VersionOk(v: Version) {
    && |v| == NUM_LEVELS
    && (forall l :: 0 <= l < |v| ==> LevelOk(v, l))
    && LevelsNewer(v)
  }

  // ---- User key ranges; `None` is unbounded ---------------------------------------------

  type Bound = Option<UserKey>

  predicate AfterFile(u: Bound, f: File) {
    u.Some? && u.value > f.largest.user
  }

  predicate BeforeFile(u: Bound, f: File) {
    u.Some? && u.value < f.smallest.user
  }

  predicate Overlaps(f: File, lo: Bound, hi: Bound) {
    !AfterFile(lo, f) && !BeforeFile(hi, f)
  }

  /** The files of a list that overlap a range, in list order. */
  function Overlapping(files: seq<File>, lo: Bound, hi: Bound): seq<File> {
    if files == [] then []
    else
      var r := Overlapping(files[..|files| - 1], lo, hi);
      if Overlaps(files[|files| - 1], lo, hi) then r + [files[|files| - 1]] else r
  }

  lemma {:induction false} OverlappingMembers(files: seq<File>, lo: Bound, hi: Bound)
    ensures forall f :: f in Overlapping(files, lo, hi) <==> f in files && Overlaps(f, lo, hi)
  {
    if files != [] {
      var n := |files| - 1;
      OverlappingMembers(files[..n], lo, hi);
      assert files == files[..n] + [files[n]];
    }
  }

  predicate StartsBefore(f: File, lo: Bound) {
    lo.Some? && f.smallest.user < lo.value
  }

  predicate EndsAfter(f: File, hi: Bound) {
    hi.Some? && f.largest.user > hi.value
  }

  /** Closed under expansion: an overlapping file lies within the range. */
  ghost predicate ClosedRange(files: seq<File>, lo: Bound, hi: Bound) {
    forall f :: f in files && Overlaps(f, lo, hi) ==> !StartsBefore(f, lo) && !EndsAfter(f, hi)
  }

  /** Range inclusion. */
  predicate Within(lo: Bound, hi: Bound, lo': Bound, hi': Bound) {
    && (lo'.Some? ==> lo.Some? && lo'.value <= lo.value)
    && (hi'.Some? ==> hi.Some? && hi.value <= hi'.value)
  }

  function UserBound(k: Option<InternalKey>): Bound {
    if k.None? then None else Some(k.value.user)
  }

  /** Sum of file sizes. */
  function TotalFileSize(files: seq<File>): nat {
    if files == [] then 0 else files[0].size + TotalFileSize(files[1..])
  }

  lemma {:induction false} TotalFileSizeSnoc(files: seq<File>, f: File)
    ensures TotalFileSize(files + [f]) == TotalFileSize(files) + f.size
  {
    if files != [] {
      TotalFileSizeSnoc(files[1..], f);
      assert (files + [f])[1..] == files[1..] + [f];
    }
  }

  // ---- Runs of a sorted level --------------------------------------------------------------

  /** A non-empty contiguous part of a level. */
  ghost predicate IsRun(files: seq<File>, part: seq<File>) {
    exists a, b :: 0 <= a < b <= |files| && part == files[a..b]
  }

  lemma SliceExtend<T>(s: seq<T>, a: nat, b: nat)
    requires a <= b < |s|
    ensures s[a..b] + [s[b]] == s[a..b + 1]
  {}

  lemma InSlice<T>(s: seq<T>, a: nat, b: nat, i: nat)
    requires a <= i < b <= |s|
    ensures s[i] in s[a..b]
  {
    assert s[a..b][i - a] == s[i];
  }

  lemma SlicePosition<T>(s: seq<T>, a: nat, b: nat, x: T) returns (j: nat)
    requires a <= b <= |s| && x in s[a..b]
    ensures a <= j < b && s[j] == x
  {
    var k :| 0 <= k < |s[a..b]| && s[a..b][k] == x;
    j := a + k;
  }

  lemma SlicePrefix<T>(s: seq<T>, n: nat, a: nat, b: nat)
    requires a <= b <= n <= |s|
    ensures s[..n][a..b] == s[a..b]
  {}

  /** What a sorted level says about user keys alone: adjacent files may share one user key. */
  ghost predicate UserSorted(files: seq<File>) {
    && (forall i :: 0 <= i < |files| ==> files[i].smallest.user <= files[i].largest.user)
    && (forall i, j :: 0 <= i < j < |files| ==> files[i].largest.user <= files[j].smallest.user)
  }

  lemma SortedByUser(files: seq<File>)
    requires FilesOk(files) && DisjointSorted(files)
    ensures UserSorted(files)
  {
    forall i | 0 <= i < |files| ensures files[i].smallest.user <= files[i].largest.user {
      FileSpan(files[i]);
    }
  }

  lemma {:induction false} OverlappingSlice(files: seq<File>, lo: Bound, hi: Bound, a: nat, b: nat)
    requires a <= b <= |files|
    requires forall i :: 0 <= i < |files| ==> (Overlaps(files[i], lo, hi) <==> a <= i < b)
    ensures Overlapping(files, lo, hi) == files[a..b]
  {
    if files != [] {
      var n := |files| - 1;
      if b <= n {
        OverlappingSlice(files[..n], lo, hi, a, b);
        SlicePrefix(files, n, a, b);
      } else if a <= n {
        OverlappingSlice(files[..n], lo, hi, a, n);
        SlicePrefix(files, n, a, n);
        SliceExtend(files, a, n);
      } else {
        OverlappingSlice(files[..n], lo, hi, n, n);
      }
    }
  }

  /** On a sorted level the files that overlap a range are contiguous. */
  lemma OverlappingIsRun(files: seq<File>, lo: Bound, hi: Bound) returns (a: nat, b: nat)
    requires UserSorted(files)
    ensures a <= b <= |files| && Overlapping(files, lo, hi) == files[a..b]
    ensures a < b < |files| ==> BeforeFile(hi, files[b])
  {
    a := 0;
    while a < |files| && AfterFile(lo, files[a])
      invariant a <= |files|
      invariant forall i :: 0 <= i < a ==> AfterFile(lo, files[i])
    {
      a := a + 1;
    }
    b := a;
    while b < |files| && !BeforeFile(hi, files[b])
      invariant a <= b <= |files|
      invariant forall i :: a <= i < b ==> !BeforeFile(hi, files[i])
    {
      b := b + 1;
    }
    OverlappingSlice(files, lo, hi, a, b);
  }
}
