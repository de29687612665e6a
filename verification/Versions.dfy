/** Searching a version and choosing the files of a compaction (db/version_set.cc). */
module Versions {
  import opened Keys
  import opened Files

  const MAX_MEM_COMPACT_LEVEL := 2

  /** Where a binary search between two places of a list ends. */
  function Search(files: seq<File>, key: InternalKey, left: nat, right: nat): nat
    requires left <= right <= |files|
    decreases right - left
  {
    if left == right then right
    else
      var mid := (left + right) / 2;
      if Less(files[mid].largest, key) then Search(files, key, mid + 1, right) else Search(files, key, left, mid)
  }

  /** Binary search; on a sorted level, for the first file that ends at or after `key`. */
  method FindFile(files: seq<File>, key: InternalKey) returns (right: nat)
    ensures right <= |files| && right == Search(files, key, 0, |files|)
    ensures FilesOk(files) && DisjointSorted(files) ==>
      && (forall i :: 0 <= i < right ==> Less(files[i].largest, key))
      && (forall i :: right <= i < |files| ==> !Less(files[i].largest, key))
  {
    hide FilesOk, DisjointSorted;
    ghost var sorted := FilesOk(files) && DisjointSorted(files);
    var left := 0;
    right := |files|;
    while left < right
      invariant left <= right <= |files| && Search(files, key, left, right) == Search(files, key, 0, |files|)
      invariant sorted ==> forall i :: 0 <= i < left ==> Less(files[i].largest, key)
      invariant sorted ==> forall i :: right <= i < |files| ==> !Less(files[i].largest, key)
    {
      var mid := (left + right) / 2;
      if sorted {
        SplitAt(files, key, mid);
      }
      if Compare(files[mid].largest, key) < 0 {
        left := mid + 1;
      } else {
        right := mid;
      }
    }
  }

  /** On a sorted level the files on one side of a file are on its side of the key. */
  lemma SplitAt(files: seq<File>, key: InternalKey, mid: nat)
    requires FilesOk(files) && DisjointSorted(files) && mid < |files|
    ensures Less(files[mid].largest, key) ==> forall i :: 0 <= i <= mid ==> Less(files[i].largest, key)
    ensures !Less(files[mid].largest, key) ==> forall i :: mid <= i < |files| ==> !Less(files[i].largest, key)
  {
    LargestIncreases(files);
  }

  lemma LargestIncreases(files: seq<File>)
    requires FilesOk(files) && DisjointSorted(files)
    ensures forall i, j :: 0 <= i < j < |files| ==> Less(files[i].largest, files[j].largest)
  {
    forall i, j | 0 <= i < j < |files| ensures Less(files[i].largest, files[j].largest) {
      FileRange(files[j], files[j].table[0]);
    }
  }

  /** Does any file overlap the user key range?  On a sorted level the binary search answers
      exactly what the scan over all files would. */
  method SomeFileOverlapsRange(disjointSorted: bool, files: seq<File>, lo: Bound, hi: Bound) returns (overlap: bool)
    requires FilesOk(files)
    requires disjointSorted ==> DisjointSorted(files)
    ensures overlap <==> exists f :: f in files && Overlaps(f, lo, hi)
  {
    if !disjointSorted {
      for i := 0 to |files|
        invariant forall j :: 0 <= j < i ==> !Overlaps(files[j], lo, hi)
      {
        if AfterFile(lo, files[i]) || BeforeFile(hi, files[i]) {
        } else {
          assert Overlaps(files[i], lo, hi);
          return true;
        }
      }
      return false;
    }
    var index := 0;
    SortedByUser(files);
    if lo.Some? {
      var smallKey := InternalKey(lo.value, MAX_SEQUENCE, Value);
      index := FindFile(files, smallKey);
      forall i | 0 <= i < |files| ensures AfterFile(lo, files[i]) <==> i < index {
        assert files[i].table[|files[i].table| - 1] in files[i].table;
      }
    }
    if index >= |files| {
      return false;
    }
    assert forall i :: 0 <= i < |files| ==> (AfterFile(lo, files[i]) <==> i < index);
    overlap := !BeforeFile(hi, files[index]);
    if overlap {
      assert Overlaps(files[index], lo, hi);
    }
  }

  /** The least range around `[begin, end]` of which no overlapping file sticks out. */
  ghost predicate IsLeastRange(files: seq<File>, begin: Bound, end: Bound, lo: Bound, hi: Bound) {
    && ClosedRange(files, lo, hi) && Within(begin, end, lo, hi)
    && forall lo', hi' :: ClosedRange(files, lo', hi') && Within(begin, end, lo', hi') ==> Within(lo, hi, lo', hi')
  }

  /** All files of a level that overlap `[begin, end]`.  Level-0 files may overlap each other, so
      a file that sticks out of the range widens it and restarts the scan: the answer is what
      overlaps the least closed range around the request.  Ghost results give that range. */
  method GetOverlappingInputs(level: nat, files: seq<File>, begin: Option<InternalKey>, end: Option<InternalKey>)
    returns (inputs: seq<File>, ghost lo: Bound, ghost hi: Bound)
    requires forall i :: 0 <= i < |files| ==> files[i].smallest.user <= files[i].largest.user
    ensures inputs == Overlapping(files, lo, hi)
    ensures level > 0 ==> inputs == Overlapping(files, UserBound(begin), UserBound(end))
    ensures forall f :: f in files && Overlaps(f, UserBound(begin), UserBound(end)) ==> f in inputs
    ensures level > 0 ==> lo == UserBound(begin) && hi == UserBound(end)
    ensures level == 0 ==> IsLeastRange(files, UserBound(begin), UserBound(end), lo, hi)
  {
    var userBegin, userEnd := UserBound(begin), UserBound(end);
    inputs := [];
    var i := 0;
    while i < |files|
      invariant i <= |files|
      invariant inputs == Overlapping(files[..i], userBegin, userEnd)
      invariant level > 0 ==> userBegin == UserBound(begin) && userEnd == UserBound(end)
      invariant userBegin.Some? <==> begin.Some?
      invariant userEnd.Some? <==> end.Some?
      invariant level == 0 ==> Within(UserBound(begin), UserBound(end), userBegin, userEnd)
      invariant level == 0 ==> ClosedRange(files[..i], userBegin, userEnd)
      invariant level == 0 ==> forall lo', hi' ::
        ClosedRange(files, lo', hi') && Within(UserBound(begin), UserBound(end), lo', hi') ==> Within(userBegin, userEnd, lo', hi')
      decreases Starts(files, userBegin), Ends(files, userEnd), |files| - i
    {
      var f := files[i];
      ghost var before := files[..i];
      i := i + 1;
      assert files[..i][..|files[..i]| - 1] == before;
      if AfterFile(userBegin, f) {
      } else if BeforeFile(userEnd, f) {
      } else {
        inputs := inputs + [f];
        if level == 0 {
          if StartsBefore(f, userBegin) {
            StartsShrink(files, userBegin, f);
            userBegin := Some(f.smallest.user);
            inputs := [];
            i := 0;
          } else if EndsAfter(f, userEnd) {
            EndsShrink(files, userEnd, f);
            userEnd := Some(f.largest.user);
            inputs := [];
            i := 0;
          }
        }
      }
    }
    assert files[..i] == files;
    lo, hi := userBegin, userEnd;
    OverlappingMembers(files, lo, hi);
  }

  ghost function Starts(files: seq<File>, lo: Bound): set<File> {
    set f | f in files && StartsBefore(f, lo)
  }

  ghost function Ends(files: seq<File>, hi: Bound): set<File> {
    set f | f in files && EndsAfter(f, hi)
  }

  /** Widening the range to the start of `f` leaves fewer files that stick out below. */
  lemma StartsShrink(files: seq<File>, lo: Bound, f: File)
    requires f in files && StartsBefore(f, lo)
    ensures Starts(files, Some(f.smallest.user)) < Starts(files, lo)
  {
    assert f in Starts(files, lo) && f !in Starts(files, Some(f.smallest.user));
  }

  lemma EndsShrink(files: seq<File>, hi: Bound, f: File)
    requires f in files && EndsAfter(f, hi)
    ensures Ends(files, Some(f.largest.user)) < Ends(files, hi)
  {
    assert f in Ends(files, hi) && f !in Ends(files, Some(f.largest.user));
  }

  // ---- Boundary files -------------------------------------------------------------------

  /** `f` continues, in the same level, the user key at which `k` stops. */
  predicate IsBoundaryFile(f: File, k: InternalKey) {
    Less(k, f.smallest) && f.smallest.user == k.user
  }

  ghost predicate IsLargest(files: seq<File>, k: InternalKey) {
    && (exists f :: f in files && f.largest == k)
    && (forall f :: f in files ==> !Less(k, f.largest))
  }

  method FindLargestKey(files: seq<File>) returns (k: Option<InternalKey>)
    ensures files == [] ==> k.None?
    ensures files != [] ==> k.Some? && IsLargest(files, k.value)
  {
    if files == [] {
      return None;
    }
    var largest := files[0].largest;
    for i := 1 to |files|
      invariant exists j :: 0 <= j < i && files[j].largest == largest
      invariant forall j :: 0 <= j < i ==> !Less(largest, files[j].largest)
    {
      if Compare(files[i].largest, largest) > 0 {
        largest := files[i].largest;
      }
    }
    return Some(largest);
  }

  method FindSmallestBoundaryFile(levelFiles: seq<File>, largestKey: InternalKey) returns (r: Option<File>)
    ensures r.None? ==> forall f :: f in levelFiles ==> !IsBoundaryFile(f, largestKey)
    ensures r.Some? ==> r.value in levelFiles && IsBoundaryFile(r.value, largestKey)
    ensures r.Some? ==> forall f :: f in levelFiles && IsBoundaryFile(f, largestKey) ==> !Less(f.smallest, r.value.smallest)
  {
    r := None;
    for i := 0 to |levelFiles|
      invariant r.None? ==> forall j :: 0 <= j < i ==> !IsBoundaryFile(levelFiles[j], largestKey)
      invariant r.Some? ==> r.value in levelFiles && IsBoundaryFile(r.value, largestKey)
      invariant r.Some? ==> forall j :: 0 <= j < i && IsBoundaryFile(levelFiles[j], largestKey) ==> !Less(levelFiles[j].smallest, r.value.smallest)
    {
      var f := levelFiles[i];
      if Compare(f.smallest, largestKey) > 0 && f.smallest.user == largestKey.user {
        if r.None? || Compare(f.smallest, r.value.smallest) < 0 {
          r := Some(f);
        }
      }
    }
  }

  /** No file of the level continues the user key at which `part` stops. */
  ghost predicate BoundaryClosed(levelFiles: seq<File>, part: seq<File>) {
    forall k, f :: IsLargest(part, k) && f in levelFiles ==> !IsBoundaryFile(f, k)
  }

  /** The level files that start after `k`. */
  ghost function StartingAfter(files: seq<File>, k: InternalKey): set<File> {
    set f | f in files && Less(k, f.smallest)
  }

  /** `f` is the first file of the level that continues the user key at which `part` stops. */
  ghost predicate IsNextBoundary(levelFiles: seq<File>, part: seq<File>, f: File) {
    && f in levelFiles
    && exists k ::
         && IsLargest(part, k) && IsBoundaryFile(f, k)
         && forall g :: g in levelFiles && IsBoundaryFile(g, k) ==> !Less(g.smallest, f.smallest)
  }

  /** What follows `inputs` in `r` are the next boundary files, one after the other. */
  ghost predicate Chained(levelFiles: seq<File>, inputs: seq<File>, r: seq<File>) {
    forall n :: |inputs| <= n < |r| ==> IsNextBoundary(levelFiles, r[..n], r[n])
  }

  /** `r` extends `inputs` by files of the level, and is a run if `inputs` is one of a sorted level. */
  ghost predicate Extends(levelFiles: seq<File>, inputs: seq<File>, r: seq<File>) {
    && inputs <= r
    && (forall f :: f in r ==> f in inputs || f in levelFiles)
    && (DisjointSorted(levelFiles) && IsRun(levelFiles, inputs) ==> IsRun(levelFiles, r))
    && (r != inputs ==> !BoundaryClosed(levelFiles, inputs))
  }

  /** Extends the inputs until no file continues their last user key.  A run of a sorted level
      stays a run. */
  method AddBoundaryInputs(levelFiles: seq<File>, inputs: seq<File>) returns (r: seq<File>)
    requires FilesOk(levelFiles)
    ensures Extends(levelFiles, inputs, r) && (inputs == [] ==> r == [])
    ensures BoundaryClosed(levelFiles, r) && Chained(levelFiles, inputs, r)
  {
    r := inputs;
    var largest := FindLargestKey(inputs);
    if largest.None? {
      return;
    }
    var largestKey := largest.value;
    var continueSearching := true;
    while continueSearching
      invariant Extends(levelFiles, inputs, r) && IsLargest(r, largestKey) && Chained(levelFiles, inputs, r)
      invariant !continueSearching ==> forall f :: f in levelFiles ==> !IsBoundaryFile(f, largestKey)
      decreases continueSearching, StartingAfter(levelFiles, largestKey)
    {
      var next := FindSmallestBoundaryFile(levelFiles, largestKey);
      if next.Some? {
        BoundaryStep(levelFiles, inputs, r, largestKey, next.value);
        ChainStep(levelFiles, inputs, r, largestKey, next.value);
        r := r + [next.value];
        largestKey := next.value.largest;
      } else {
        continueSearching := false;
      }
    }
    LargestIsUnique(r, largestKey);
  }

  lemma LargestIsUnique(files: seq<File>, k: InternalKey)
    requires IsLargest(files, k)
    ensures forall k' :: IsLargest(files, k') ==> k' == k
  {
    forall k' | IsLargest(files, k') ensures k' == k {
      assert !Less(k', k) && !Less(k, k');
    }
  }

  lemma BoundaryStep(levelFiles: seq<File>, inputs: seq<File>, r: seq<File>, k: InternalKey, f: File)
    requires FilesOk(levelFiles) && Extends(levelFiles, inputs, r) && IsLargest(r, k)
    requires f in levelFiles && IsBoundaryFile(f, k)
    requires forall g :: g in levelFiles && IsBoundaryFile(g, k) ==> !Less(g.smallest, f.smallest)
    ensures Extends(levelFiles, inputs, r + [f]) && IsLargest(r + [f], f.largest)
    ensures StartingAfter(levelFiles, f.largest) < StartingAfter(levelFiles, k)
  {
    hide FileOk, StartingAfter;
    FileSpan(f);
    StartingAfterShrinks(levelFiles, k, f);
    LargestSnoc(r, k, f);
    if DisjointSorted(levelFiles) && IsRun(levelFiles, inputs) {
      ExtendRun(levelFiles, r, k, f);
    }
    assert r == inputs ==> !BoundaryClosed(levelFiles, inputs);
  }

  lemma ChainStep(levelFiles: seq<File>, inputs: seq<File>, r: seq<File>, k: InternalKey, f: File)
    requires inputs <= r && Chained(levelFiles, inputs, r) && IsLargest(r, k) && f in levelFiles && IsBoundaryFile(f, k)
    requires forall g :: g in levelFiles && IsBoundaryFile(g, k) ==> !Less(g.smallest, f.smallest)
    ensures Chained(levelFiles, inputs, r + [f])
  {
    var r' := r + [f];
    assert IsNextBoundary(levelFiles, r, f);
    forall n | |inputs| <= n < |r'| ensures IsNextBoundary(levelFiles, r'[..n], r'[n]) {
      assert r'[..n] == r[..n];
    }
    assert r[..|r|] == r;
  }

  lemma StartingAfterShrinks(files: seq<File>, k: InternalKey, f: File)
    requires f in files && Less(k, f.smallest) && !Less(f.largest, f.smallest)
    ensures StartingAfter(files, f.largest) < StartingAfter(files, k)
  {
    assert f in StartingAfter(files, k) && f !in StartingAfter(files, f.largest);
  }

  lemma LargestSnoc(files: seq<File>, k: InternalKey, f: File)
    requires IsLargest(files, k) && Less(k, f.largest)
    ensures IsLargest(files + [f], f.largest)
  {
    assert (files + [f])[|files|] == f;
  }

  /** The smallest boundary file of a run is the file right after it. */
  lemma BoundaryFileIsNext(files: seq<File>, b: nat, f: File)
    requires FilesOk(files) && DisjointSorted(files) && 0 < b <= |files|
    requires f in files && IsBoundaryFile(f, files[b - 1].largest)
    requires forall g :: g in files && IsBoundaryFile(g, files[b - 1].largest) ==> !Less(g.smallest, f.smallest)
    ensures b < |files| && f == files[b]
  {
    var j :| 0 <= j < |files| && files[j] == f;
    FileSpan(f);
    if j < b {
      LargestIncreases(files);
    } else if b < j {
      FileSpan(files[b]);
    }
  }

  lemma ExtendRun(files: seq<File>, part: seq<File>, k: InternalKey, f: File)
    requires FilesOk(files) && DisjointSorted(files) && IsRun(files, part) && IsLargest(part, k)
    requires f in files && IsBoundaryFile(f, k)
    requires forall g :: g in files && IsBoundaryFile(g, k) ==> !Less(g.smallest, f.smallest)
    ensures IsRun(files, part + [f])
  {
    var a, b :| 0 <= a < b <= |files| && part == files[a..b];
    RunLargest(files, a, b, k);
    BoundaryFileIsNext(files, b, f);
    SliceExtend(files, a, b);
  }

  lemma RunLargest(files: seq<File>, a: nat, b: nat, k: InternalKey)
    requires FilesOk(files) && DisjointSorted(files) && a < b <= |files| && IsLargest(files[a..b], k)
    ensures k == files[b - 1].largest
  {
    LargestIncreases(files);
    var f :| f in files[a..b] && f.largest == k;
    var j := SlicePosition(files, a, b, f);
    InSlice(files, a, b, b - 1);
  }

  // ---- Where a flushed memtable goes --------------------------------------------------------

  ghost predicate NoOverlap(files: seq<File>, lo: UserKey, hi: UserKey) {
    forall f :: f in files ==> !Overlaps(f, Some(lo), Some(hi))
  }

  /** May a flushed file sink from `level` to the next?  Nothing overlaps there, and not too much below. */
  ghost predicate MaySink(v: Version, level: nat, lo: UserKey, hi: UserKey, maxFileSize: nat)
    requires level + 2 < |v|
  {
    && NoOverlap(v[level + 1], lo, hi)
    && TotalFileSize(Overlapping(v[level + 2], Some(lo), Some(hi))) <= 10 * maxFileSize
  }

  /** The level that a flushed file goes to: one that overlaps nothing on level 0 sinks as far as it may. */
  ghost predicate SinksTo(v: Version, lo: UserKey, hi: UserKey, maxFileSize: nat, level: nat)
    requires |v| == NUM_LEVELS
  {
    && level <= 2
    && (forall l :: 0 <= l < level ==> MaySink(v, l, lo, hi, maxFileSize))
    && (level > 0 ==> forall l :: 0 <= l <= level ==> NoOverlap(v[l], lo, hi))
    && (NoOverlap(v[0], lo, hi) && level < 2 ==> !MaySink(v, level, lo, hi, maxFileSize))
  }

  method PickLevelForMemTableOutput(v: Version, lo: UserKey, hi: UserKey, maxFileSize: nat) returns (level: nat)
    requires VersionOk(v)
    ensures SinksTo(v, lo, hi, maxFileSize, level)
  {
    level := 0;
    var overlap0 := OverlapInLevel(v, 0, lo, hi);
    if !overlap0 {
      while level < MAX_MEM_COMPACT_LEVEL
        invariant level <= MAX_MEM_COMPACT_LEVEL
        invariant forall l :: 0 <= l <= level ==> NoOverlap(v[l], lo, hi)
        invariant forall l :: 0 <= l < level ==> MaySink(v, l, lo, hi, maxFileSize)
      {
        var overlap := OverlapInLevel(v, level + 1, lo, hi);
        if overlap {
          break;
        }
        var sum := OverlappingBytes(v, level + 2, lo, hi);
        if sum > 10 * maxFileSize {
          break;
        }
        level := level + 1;
      }
    }
  }

  method OverlapInLevel(v: Version, level: nat, lo: UserKey, hi: UserKey) returns (overlap: bool)
    requires VersionOk(v) && level < |v|
    ensures overlap <==> !NoOverlap(v[level], lo, hi)
  {
    assert LevelOk(v, level);
    overlap := SomeFileOverlapsRange(level > 0, v[level], Some(lo), Some(hi));
  }

  method OverlappingBytes(v: Version, level: nat, lo: UserKey, hi: UserKey) returns (sum: nat)
    requires VersionOk(v) && 0 < level < |v|
    ensures sum == TotalFileSize(Overlapping(v[level], Some(lo), Some(hi)))
  {
    assert LevelOk(v, level);
    SortedByUser(v[level]);
    var start, limit := InternalKey(lo, MAX_SEQUENCE, Value), InternalKey(hi, 0, Deletion);
    var overlaps, _, _ := GetOverlappingInputs(level, v[level], Some(start), Some(limit));
    sum := TotalFileSize(overlaps);
  }
}
