module CompactionInputs {
  // Choosing the input files of a compaction (db/version_set.cc).

  import opened Keys
  import opened Files
  import opened Versions

  datatype Compaction = Compaction(level: nat, inputs0: seq<File>, inputs1: seq<File>, grandparents: seq<File>)

  /** `[smallest, largest]` is the least internal key range that covers the files. */
  ghost predicate IsRange(files: seq<File>, smallest: InternalKey, largest: InternalKey) {
    && (exists f :: f in files && f.smallest == smallest)
    && (forall f :: f in files ==> !Less(f.smallest, smallest))
    && IsLargest(files, largest)
  }

  method GetRange(inputs: seq<File>) returns (smallest: InternalKey, largest: InternalKey)
    requires inputs != []
    ensures IsRange(inputs, smallest, largest)
  {
    smallest, largest := inputs[0].smallest, inputs[0].largest;
    for i := 1 to |inputs|
      invariant exists j :: 0 <= j < i && inputs[j].smallest == smallest
      invariant exists j :: 0 <= j < i && inputs[j].largest == largest
      invariant forall j :: 0 <= j < i ==> !Less(inputs[j].smallest, smallest) && !Less(largest, inputs[j].largest)
    {
      if Compare(inputs[i].smallest, smallest) < 0 {
        smallest := inputs[i].smallest;
      }
      if Compare(inputs[i].largest, largest) > 0 {
        largest := inputs[i].largest;
      }
    }
  }

  // The range of a level-0 part is closed; `part` is what overlaps it.
  ghost predicate ClosedPart(files: seq<File>, part: seq<File>) {
    exists lo, hi :: ClosedRange(files, lo, hi) && part == Overlapping(files, lo, hi)
  }

  /** The part of a level that may be compacted: on level 0 everything that overlaps a closed range,
      deeper a run that no file continues. */
  ghost predicate SoundPart(v: Version, level: nat, part: seq<File>)
    requires level < |v|
  {
    && part != []
    && Includes(v[level], part)
    && (level == 0 ==> ClosedPart(v[0], part))
    && (level > 0 ==> IsRun(v[level], part) && BoundaryClosed(v[level], part))
  }

  /** The same without the boundary condition: what the pickers start from. */
  ghost predicate InitialPart(v: Version, level: nat, part: seq<File>)
    requires level < |v|
  {
    && part != []
    && (level == 0 ==> ClosedPart(v[0], part))
    && (level > 0 ==> IsRun(v[level], part))
  }

  /** `overlap` is what overlaps, in another level, the user key range of `part`. */
  ghost predicate IsOverlapOf(files: seq<File>, part: seq<File>, overlap: seq<File>) {
    exists lo, hi :: IsRange(part, lo, hi) && overlap == Overlapping(files, Some(lo.user), Some(hi.user))
  }

  ghost predicate SoundInputs(v: Version, c: Compaction) {
    && c.level + 1 < |v|
    && SoundPart(v, c.level, c.inputs0)
    && IsOverlapOf(v[c.level + 1], c.inputs0, c.inputs1)
  }


  /** On level 0 the closed part already holds every boundary file. */
  lemma ClosedPartHasBoundaries(files: seq<File>, lo: Bound, hi: Bound, part: seq<File>, k: InternalKey, f: File)
    requires FilesOk(files) && ClosedRange(files, lo, hi) && part == Overlapping(files, lo, hi)
    requires IsLargest(part, k) && f in files
    ensures !IsBoundaryFile(f, k)
  {
    OverlappingMembers(files, lo, hi);
    var g :| g in part && g.largest == k;
    FileSpan(f);
    FileSpan(g);
    assert IsBoundaryFile(f, k) ==> f in part;
  }

  /** A part with its boundary files. */
  ghost predicate WithBoundaries(files: seq<File>, part: seq<File>, r: seq<File>) {
    part <= r && Chained(files, part, r) && BoundaryClosed(files, r)
  }

  method BoundedPart(v: Version, level: nat, part: seq<File>) returns (r: seq<File>)
    requires VersionOk(v) && level < |v| && InitialPart(v, level, part)
    ensures SoundPart(v, level, r) && Includes(r, part) && WithBoundaries(v[level], part, r)
  {
    assert LevelOk(v, level);
    InitialPartMembers(v, level, part);
    r := AddBoundaryInputs(v[level], part);
    if level == 0 {
      InitialPartIsClosed(v, part);
    }
  }

  lemma InitialPartIsClosed(v: Version, part: seq<File>)
    requires VersionOk(v) && InitialPart(v, 0, part)
    ensures BoundaryClosed(v[0], part)
  {
    var lo, hi :| ClosedRange(v[0], lo, hi) && part == Overlapping(v[0], lo, hi);
    assert LevelOk(v, 0);
    forall k, f | IsLargest(part, k) && f in v[0] ensures !IsBoundaryFile(f, k) {
      ClosedPartHasBoundaries(v[0], lo, hi, part, k, f);
    }
  }

  lemma InitialPartMembers(v: Version, level: nat, part: seq<File>)
    requires level < |v| && InitialPart(v, level, part)
    ensures Includes(v[level], part)
  {
    if level == 0 {
      var lo, hi :| ClosedRange(v[0], lo, hi) && part == Overlapping(v[0], lo, hi);
      OverlappingMembers(v[0], lo, hi);
    }
  }

  /** The files of a level that overlap a range, on level 0 the least closed one. */
  ghost predicate AllOverlapping(level: nat, files: seq<File>, begin: Bound, end: Bound, part: seq<File>) {
    if level > 0 then part == Overlapping(files, begin, end)
    else exists lo, hi :: IsLeastRange(files, begin, end, lo, hi) && part == Overlapping(files, lo, hi)
  }

  /** The files of `level` that overlap `[smallest, largest]` are a part to start from. */
  method OverlappingPart(v: Version, level: nat, begin: Option<InternalKey>, end: Option<InternalKey>) returns (part: seq<File>)
    requires VersionOk(v) && level < |v|
    ensures part == [] || InitialPart(v, level, part)
    ensures AllOverlapping(level, v[level], UserBound(begin), UserBound(end), part)
    ensures forall f :: f in v[level] && Overlaps(f, UserBound(begin), UserBound(end)) ==> f in part
    ensures level > 0 ==> part == Overlapping(v[level], UserBound(begin), UserBound(end))
    ensures (forall f :: f in v[level] ==> !Overlaps(f, UserBound(begin), UserBound(end))) ==> part == []
  {
    assert LevelOk(v, level);
    LevelSpans(v[level]);
    ghost var lo, hi;
    part, lo, hi := GetOverlappingInputs(level, v[level], begin, end);
    OverlappingMembers(v[level], lo, hi);
    NothingOverlaps(v[level], UserBound(begin), UserBound(end), lo, hi, part);
    if level > 0 {
      SortedByUser(v[level]);
      ghost var a, b := OverlappingIsRun(v[level], lo, hi);
    }
  }

  lemma NothingOverlaps(files: seq<File>, begin: Bound, end: Bound, lo: Bound, hi: Bound, part: seq<File>)
    requires forall f :: f in part ==> f in files && Overlaps(f, lo, hi)
    requires ClosedRange(files, begin, end) ==> Within(lo, hi, begin, end)
    ensures (forall f :: f in files ==> !Overlaps(f, begin, end)) ==> part == []
  {
    if part != [] {
      var f := part[0];
      assert f in files && Overlaps(f, lo, hi);
    }
  }

  lemma LevelSpans(files: seq<File>)
    requires FilesOk(files)
    ensures forall i :: 0 <= i < |files| ==> files[i].smallest.user <= files[i].largest.user
  {
    forall i | 0 <= i < |files| ensures files[i].smallest.user <= files[i].largest.user {
      FileSpan(files[i]);
    }
  }

  method OverlappingBelow(v: Version, level: nat, smallest: InternalKey, largest: InternalKey) returns (files: seq<File>)
    requires VersionOk(v) && 0 < level < |v|
    ensures files == Overlapping(v[level], Some(smallest.user), Some(largest.user))
  {
    assert LevelOk(v, level);
    LevelSpans(v[level]);
    ghost var lo, hi;
    files, lo, hi := GetOverlappingInputs(level, v[level], Some(smallest), Some(largest));
  }

  ghost predicate Includes(files: seq<File>, part: seq<File>) {
    forall f :: f in part ==> f in files
  }

  lemma InputsOverlapRange(files: seq<File>, inputs0: seq<File>, inputs1: seq<File>, lo: InternalKey, hi: InternalKey)
    requires FilesOk(files) && Includes(files, inputs0) && IsRange(inputs0 + inputs1, lo, hi)
    ensures forall f :: f in inputs0 ==> Overlaps(f, Some(lo.user), Some(hi.user))
  {
    forall f | f in inputs0 ensures Overlaps(f, Some(lo.user), Some(hi.user)) {
      FileSpan(f);
      assert f in inputs0 + inputs1;
    }
  }

  /** The files of `level` within the whole range of the compaction, with their boundary files. */
  ghost predicate Widened(v: Version, level: nat, inputs0: seq<File>, inputs1: seq<File>, wide: seq<File>)
    requires level < |v|
  {
    exists lo, hi, part ::
      IsRange(inputs0 + inputs1, lo, hi) && AllOverlapping(level, v[level], Some(lo.user), Some(hi.user), part)
      && WithBoundaries(v[level], part, wide)
  }

  /** They are more, stay under the size limit, and pick up no further file of the next level. */
  ghost predicate Pays(v: Version, level: nat, inputs0: seq<File>, inputs1: seq<File>, wide: seq<File>, maxFileSize: nat)
    requires level + 1 < |v|
  {
    && |wide| > |inputs0| && TotalFileSize(inputs1) + TotalFileSize(wide) < 25 * maxFileSize
    && exists below :: IsOverlapOf(v[level + 1], wide, below) && |below| == |inputs1|
  }

  /** The inputs of `level` in the end: widened just when that pays. */
  ghost predicate WidenedIfItPays(v: Version, level: nat, inputs0: seq<File>, inputs1: seq<File>, maxFileSize: nat, r0: seq<File>)
    requires level + 1 < |v|
  {
    exists wide :: Widened(v, level, inputs0, inputs1, wide)
      && r0 == if Pays(v, level, inputs0, inputs1, wide, maxFileSize) then wide else inputs0
  }

  lemma OneOverlap(files: seq<File>, part: seq<File>, a: seq<File>, b: seq<File>)
    requires IsOverlapOf(files, part, a) && IsOverlapOf(files, part, b)
    ensures a == b
  {
    var lo, hi :| IsRange(part, lo, hi) && a == Overlapping(files, Some(lo.user), Some(hi.user));
    var lo', hi' :| IsRange(part, lo', hi') && b == Overlapping(files, Some(lo'.user), Some(hi'.user));
    OneRange(part, lo, hi, lo', hi');
  }

  lemma OneRange(part: seq<File>, lo: InternalKey, hi: InternalKey, lo': InternalKey, hi': InternalKey)
    requires IsRange(part, lo, hi) && IsRange(part, lo', hi')
    ensures lo == lo' && hi == hi'
  {
    assert !Less(lo, lo') && !Less(lo', lo) && !Less(hi, hi') && !Less(hi', hi);
  }

  /** Takes more files of `level` when they lie within the whole range of the compaction, if that
      picks up no further file of the next level and stays under the size limit. */
  method ExpandInputs(v: Version, level: nat, inputs0: seq<File>, inputs1: seq<File>,
                      smallest: InternalKey, largest: InternalKey, maxFileSize: nat)
    returns (r0: seq<File>, r1: seq<File>, rs: InternalKey, rl: InternalKey)
    requires VersionOk(v) && level + 1 < |v|
    requires SoundPart(v, level, inputs0) && IsRange(inputs0, smallest, largest)
    requires inputs1 == Overlapping(v[level + 1], Some(smallest.user), Some(largest.user))
    ensures SoundPart(v, level, r0) && IsRange(r0, rs, rl)
    ensures IsOverlapOf(v[level + 1], r0, r1) && |r1| == |inputs1|
    ensures WidenedIfItPays(v, level, inputs0, inputs1, maxFileSize, r0)
    ensures Includes(r0, inputs0)
  {
    hide VersionOk, SoundPart, Widened, Pays, Overlapping;
    assert IsOverlapOf(v[level + 1], inputs0, inputs1);
    r0, r1, rs, rl := inputs0, inputs1, smallest, largest;
    var expanded0 := Expansion(v, level, inputs0, inputs1);
    if |expanded0| > |inputs0| && TotalFileSize(inputs1) + TotalFileSize(expanded0) < 25 * maxFileSize {
      var newStart, newLimit := GetRange(expanded0);
      var expanded1 := OverlappingBelow(v, level + 1, newStart, newLimit);
      assert IsOverlapOf(v[level + 1], expanded0, expanded1);
      OverlapDecides(v, level, inputs0, inputs1, expanded0, expanded1, maxFileSize);
      if |expanded1| == |inputs1| {
        r0, r1, rs, rl := expanded0, expanded1, newStart, newLimit;
      }
    } else {
      PaysOnly(v, level, inputs0, inputs1, expanded0, maxFileSize);
    }
    assert Widened(v, level, inputs0, inputs1, expanded0);
  }

  lemma PaysOnly(v: Version, level: nat, inputs0: seq<File>, inputs1: seq<File>, wide: seq<File>, maxFileSize: nat)
    requires level + 1 < |v| && !(|wide| > |inputs0| && TotalFileSize(inputs1) + TotalFileSize(wide) < 25 * maxFileSize)
    ensures !Pays(v, level, inputs0, inputs1, wide, maxFileSize)
  {}

  lemma OverlapDecides(v: Version, level: nat, inputs0: seq<File>, inputs1: seq<File>, wide: seq<File>, below: seq<File>, maxFileSize: nat)
    requires level + 1 < |v| && |wide| > |inputs0| && TotalFileSize(inputs1) + TotalFileSize(wide) < 25 * maxFileSize
    requires IsOverlapOf(v[level + 1], wide, below)
    ensures Pays(v, level, inputs0, inputs1, wide, maxFileSize) <==> |below| == |inputs1|
  {
    if other :| IsOverlapOf(v[level + 1], wide, other) && |other| == |inputs1| {
      OneOverlap(v[level + 1], wide, below, other);
    }
  }

  method Expansion(v: Version, level: nat, inputs0: seq<File>, inputs1: seq<File>) returns (expanded0: seq<File>)
    requires VersionOk(v) && level + 1 < |v| && SoundPart(v, level, inputs0)
    ensures Widened(v, level, inputs0, inputs1, expanded0) && SoundPart(v, level, expanded0) && Includes(expanded0, inputs0)
  {
    var allStart, allLimit := GetRange(inputs0 + inputs1);
    var part := OverlappingPart(v, level, Some(allStart), Some(allLimit));
    assert LevelOk(v, level);
    InputsOverlapRange(v[level], inputs0, inputs1, allStart, allLimit);
    assert Includes(part, inputs0) && inputs0[0] in part;
    expanded0 := BoundedPart(v, level, part);
  }

  method Grandparents(v: Version, level: nat, inputs: seq<File>) returns (grandparents: seq<File>)
    requires VersionOk(v) && level + 2 < |v| && inputs != []
    ensures IsOverlapOf(v[level + 2], inputs, grandparents)
  {
    var allStart, allLimit := GetRange(inputs);
    grandparents := OverlappingBelow(v, level + 2, allStart, allLimit);
  }

  /** The inputs of the level: the part with its boundary files, and more if it overlaps anything below and that pays. */
  ghost predicate Grows(v: Version, level: nat, part: seq<File>, maxFileSize: nat, r0: seq<File>)
    requires level + 1 < |v|
  {
    exists bounded, below :: GrowsFrom(v, level, part, maxFileSize, bounded, below, r0)
  }

  ghost predicate GrowsFrom(v: Version, level: nat, part: seq<File>, maxFileSize: nat, bounded: seq<File>, below: seq<File>, r0: seq<File>)
    requires level + 1 < |v|
  {
    && WithBoundaries(v[level], part, bounded) && IsOverlapOf(v[level + 1], bounded, below)
    && if below == [] then r0 == bounded else WidenedIfItPays(v, level, bounded, below, maxFileSize, r0)
  }

  ghost predicate ChoiceOk(v: Version, level: nat, part: seq<File>, maxFileSize: nat, c: Compaction) {
    && c.level == level && SoundInputs(v, c) && Includes(c.inputs0, part) && Grows(v, level, part, maxFileSize, c.inputs0)
    && (level + 2 < |v| ==> IsOverlapOf(v[level + 2], c.inputs0 + c.inputs1, c.grandparents))
  }

  /** The inputs from both levels: the part with its boundary files, everything it overlaps one level down, and more of the
      level when that costs no further files below and stays under the size limit. */
  method BothInputs(v: Version, level: nat, part: seq<File>, maxFileSize: nat)
    returns (inputs0: seq<File>, inputs1: seq<File>, largest: InternalKey)
    requires VersionOk(v) && level + 1 < |v| && InitialPart(v, level, part)
    ensures SoundPart(v, level, inputs0) && IsOverlapOf(v[level + 1], inputs0, inputs1) && IsLargest(inputs0, largest)
    ensures Includes(inputs0, part) && Grows(v, level, part, maxFileSize, inputs0)
  {
    hide VersionOk, SoundPart, Overlapping, WithBoundaries, WidenedIfItPays, InitialPart, IsLargest;
    inputs0 := BoundedPart(v, level, part);
    SomeInputs(v, level, inputs0);
    var smallest;
    smallest, largest := GetRange(inputs0);
    inputs1 := OverlappingBelow(v, level + 1, smallest, largest);
    assert IsOverlapOf(v[level + 1], inputs0, inputs1);
    ghost var bounded, below := inputs0, inputs1;
    if inputs1 != [] {
      inputs0, inputs1, smallest, largest := ExpandInputs(v, level, inputs0, inputs1, smallest, largest, maxFileSize);
    }
    assert GrowsFrom(v, level, part, maxFileSize, bounded, below, inputs0);
  }

  lemma SomeInputs(v: Version, level: nat, part: seq<File>)
    requires level < |v| && SoundPart(v, level, part)
    ensures part != []
  {}

  /** From the first part of a level, all inputs of the compaction, and what they overlap two levels down. */
  method ChooseInputs(v: Version, level: nat, part: seq<File>, maxFileSize: nat) returns (c: Compaction, largest: InternalKey)
    requires VersionOk(v) && level + 1 < |v| && InitialPart(v, level, part)
    ensures ChoiceOk(v, level, part, maxFileSize, c) && IsLargest(c.inputs0, largest)
  {
    hide VersionOk, SoundPart, Overlapping, Grows, InitialPart, IsLargest, IsOverlapOf;
    var inputs0, inputs1;
    inputs0, inputs1, largest := BothInputs(v, level, part, maxFileSize);
    SomeInputs(v, level, inputs0);
    var grandparents := [];
    if level + 2 < |v| {
      grandparents := Grandparents(v, level, inputs0 + inputs1);
    }
    c := Compaction(level, inputs0, inputs1, grandparents);
  }

  /** Where a picked file leads to: on level 0 everything in its closed range. */
  ghost predicate PartFrom(v: Version, level: nat, file: File, part: seq<File>)
    requires level < |v|
  {
    if level > 0 then part == [file]
    else AllOverlapping(0, v[0], Some(file.smallest.user), Some(file.largest.user), part)
  }

  method PartOf(v: Version, level: nat, file: File) returns (part: seq<File>)
    requires VersionOk(v) && level < |v| && file in v[level]
    ensures InitialPart(v, level, part) && file in part && PartFrom(v, level, file, part)
  {
    assert LevelOk(v, level);
    part := [file];
    if level == 0 {
      var smallest, largest := GetRange(part);
      FileSpan(file);
      part := OverlappingPart(v, 0, Some(smallest), Some(largest));
    } else {
      ghost var i :| 0 <= i < |v[level]| && v[level][i] == file;
      assert part == v[level][i..i + 1];
    }
  }

  class VersionSet {
    const maxFileSize: nat
    var current: Version
    var compactPointer: seq<Option<InternalKey>>

    constructor (v: Version, maxFileSize: nat)
      requires VersionOk(v)
      ensures current == v && this.maxFileSize == maxFileSize
      ensures compactPointer == seq(NUM_LEVELS, _ => None)
    {
      this.maxFileSize := maxFileSize;
      current := v;
      compactPointer := seq(NUM_LEVELS, _ => None);
    }

    ghost predicate Valid()
      reads this
    {
      VersionOk(current) && |compactPointer| == NUM_LEVELS
    }

    /** Chooses the inputs and moves the level's compaction pointer to their last key. */
    method SetupOtherInputs(level: nat, part: seq<File>) returns (c: Compaction)
      requires Valid() && level + 1 < NUM_LEVELS && InitialPart(current, level, part)
      modifies `compactPointer
      ensures Valid() && ChoiceOk(current, level, part, maxFileSize, c)
      ensures exists k :: IsLargest(c.inputs0, k) && compactPointer == old(compactPointer)[level := Some(k)]
    {
      var largest;
      c, largest := ChooseInputs(current, level, part, maxFileSize);
      compactPointer := compactPointer[level := Some(largest)];
    }

    /** A compaction chosen by level size or by seeks; the choice of level and of the sought file is
        the caller's.  A size compaction starts from the first file that ends after the compaction pointer. */
    method PickCompaction(sizeLevel: Option<nat>, seekFile: Option<(nat, File)>) returns (c: Option<Compaction>)
      requires Valid()
      requires sizeLevel.Some? ==> sizeLevel.value + 1 < NUM_LEVELS && current[sizeLevel.value] != []
      requires seekFile.Some? ==> seekFile.value.0 + 1 < NUM_LEVELS && seekFile.value.1 in current[seekFile.value.0]
      modifies `compactPointer
      ensures Valid()
      ensures c.Some? <==> sizeLevel.Some? || seekFile.Some?
      ensures c.Some? ==> SoundInputs(current, c.value)
      ensures sizeLevel.Some? ==> exists i ::
        IsNext(current[sizeLevel.value], old(compactPointer[sizeLevel.value]), i)
        && StartsFrom(current, sizeLevel.value, current[sizeLevel.value][i], maxFileSize, c.value)
      ensures sizeLevel.None? && seekFile.Some? ==> StartsFrom(current, seekFile.value.0, seekFile.value.1, maxFileSize, c.value)
    {
      var level;
      var file;
      if sizeLevel.Some? {
        level := sizeLevel.value;
        file := current[level][0];
        ghost var pointer := compactPointer[level];
        ghost var next := 0;
        var i := 0;
        while i < |current[level]|
          invariant i <= |current[level]| && file == current[level][0] && next == 0
          invariant pointer.Some? ==> forall k :: 0 <= k < i ==> !Less(pointer.value, current[level][k].largest)
          invariant pointer.None? ==> i == 0
        {
          var f := current[level][i];
          if compactPointer[level].None? || Compare(f.largest, compactPointer[level].value) > 0 {
            file, next := f, i;
            break;
          }
          i := i + 1;
        }
        assert IsNext(current[level], pointer, next) && file == current[level][next];
      } else if seekFile.Some? {
        level, file := seekFile.value.0, seekFile.value.1;
      } else {
        return None;
      }
      var part := PartOf(current, level, file);
      var r := SetupOtherInputs(level, part);
      assert StartsFrom(current, level, file, maxFileSize, r);
      c := Some(r);
    }

    /** A manual compaction of part of a level: deeper levels are cut off at the file size limit. */
    method CompactRange(level: nat, begin: Option<InternalKey>, end: Option<InternalKey>) returns (c: Option<Compaction>)
      requires Valid() && level + 1 < NUM_LEVELS
      modifies `compactPointer
      ensures Valid()
      ensures c.None? <==> forall f :: f in current[level] ==> !Overlaps(f, UserBound(begin), UserBound(end))
      ensures c.None? ==> compactPointer == old(compactPointer)
      ensures c.Some? ==> c.value.level == level && SoundInputs(current, c.value)
      ensures c.Some? && level == 0 ==> exists part ::
        AllOverlapping(0, current[0], UserBound(begin), UserBound(end), part) && ChoiceOk(current, 0, part, maxFileSize, c.value)
      ensures c.Some? && level > 0 ==> exists n ::
        var all := Overlapping(current[level], UserBound(begin), UserBound(end));
        ReachesLimit(all, maxFileSize, n) && ChoiceOk(current, level, all[..n], maxFileSize, c.value)
    {
      var inputs := OverlappingPart(current, level, begin, end);
      hide VersionOk, SoundInputs, SoundPart, IsOverlapOf;
      if inputs == [] {
        return None;
      }
      if level > 0 {
        var cut := CutAtLimit(inputs, maxFileSize);
        RunPrefix(current[level], inputs, |cut|);
        inputs := cut;
      }
      var r := SetupOtherInputs(level, inputs);
      c := Some(r);
    }
  }

  /** File `i` is where the next size compaction of the level starts: the first one that ends after the compaction pointer,
      or the first of the level. */
  ghost predicate IsNext(files: seq<File>, pointer: Option<InternalKey>, i: int) {
    && 0 <= i < |files| && (pointer.None? ==> i == 0)
    && (pointer.Some? ==>
          if exists k :: 0 <= k < |files| && Less(pointer.value, files[k].largest) then
            Less(pointer.value, files[i].largest) && forall k :: 0 <= k < i ==> !Less(pointer.value, files[k].largest)
          else i == 0)
  }

  /** The compaction that starts from this file. */
  ghost predicate StartsFrom(v: Version, level: nat, file: File, maxFileSize: nat, c: Compaction)
    requires level < |v|
  {
    file in c.inputs0 && exists part :: PartFrom(v, level, file, part) && ChoiceOk(v, level, part, maxFileSize, c)
  }

  /** The first `n` files are the fewest that reach the limit, or all. */
  ghost predicate ReachesLimit(files: seq<File>, limit: nat, n: int) {
    && 0 < n <= |files| && (n < |files| ==> TotalFileSize(files[..n]) >= limit)
    && forall k :: 0 < k < n ==> TotalFileSize(files[..k]) < limit
  }

  method CutAtLimit(files: seq<File>, limit: nat) returns (r: seq<File>)
    requires files != []
    ensures 0 < |r| <= |files| && r == files[..|r|] && ReachesLimit(files, limit, |r|)
  {
    var total := 0;
    for i := 0 to |files|
      invariant total == TotalFileSize(files[..i])
      invariant forall k :: 0 < k <= i ==> TotalFileSize(files[..k]) < limit
    {
      assert files[..i + 1] == files[..i] + [files[i]];
      TotalFileSizeSnoc(files[..i], files[i]);
      total := total + files[i].size;
      if total >= limit {
        return files[..i + 1];
      }
    }
    r := files;
  }

  lemma RunPrefix(files: seq<File>, part: seq<File>, n: nat)
    requires IsRun(files, part) && 0 < n <= |part|
    ensures IsRun(files, part[..n])
  {
    var a, b :| 0 <= a < b <= |files| && part == files[a..b];
    assert part[..n] == files[a..a + n];
  }
}
