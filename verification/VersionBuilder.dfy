/** Applying version edits to a version (VersionSet::Builder in db/version_set.cc). */
module VersionBuilder {
  import opened Files

  /** The file part of a version edit: (level, number) pairs to delete, (level, file) pairs to add. */
  datatype Edit = Edit(deleted: set<(nat, nat)>, added: seq<(nat, File)>)

  ghost function AddedAt(added: seq<(nat, File)>, l: nat): set<File> {
    set a | a in added && a.0 == l :: a.1
  }

  function NumbersAt(deleted: set<(nat, nat)>, l: nat): set<nat> {
    set d | d in deleted && d.0 == l :: d.1
  }

  ghost function Without(files: set<File>, deleted: set<(nat, nat)>, l: nat): set<File> {
    set f | f in files && (l, f.number) !in deleted
  }

  /** What one edit does to the files of one level. */
  ghost function ApplyToLevel(files: set<File>, edit: Edit, l: nat): set<File> {
    Without(files, edit.deleted, l) + AddedAt(edit.added, l)
  }

  /** The edits one by one. */
  ghost function ApplyAll(files: set<File>, edits: seq<Edit>, l: nat): set<File> {
    if edits == [] then files
    else ApplyToLevel(ApplyAll(files, edits[..|edits| - 1], l), edits[|edits| - 1], l)
  }

  ghost function FileSet(files: seq<File>): set<File> {
    set f | f in files
  }

  /** Insertion into a set ordered by smallest key and number. */
  function Insert(files: seq<File>, f: File): (r: seq<File>)
  {
    if files == [] then [f]
    else if BySmallestKey(f, files[0]) then [f] + files
    else if BySmallestKey(files[0], f) then [files[0]] + Insert(files[1..], f)
    else files
  }

  lemma {:induction false} InsertIsSorted(files: seq<File>, f: File)
    requires SortedBySmallest(files) && forall g :: g in files ==> g.number != f.number
    ensures SortedBySmallest(Insert(files, f))
    ensures forall g :: g in Insert(files, f) <==> g in files || g == f
  {
    if files != [] {
      if BySmallestKey(f, files[0]) {
        assert forall i :: 0 < i < |files| ==> BySmallestKey(files[0], files[i]);
      } else {
        var rest := files[1..];
        InsertIsSorted(rest, f);
        var r := Insert(rest, f);
        assert files[0] in files;
        assert Insert(files, f) == [files[0]] + r;
        forall g | g in r ensures BySmallestKey(files[0], g) {
          assert g in rest || g == f;
        }
        forall g ensures g in [files[0]] + r <==> g in files || g == f {
          assert files == [files[0]] + rest;
        }
      }
    }
  }

  function MaybeAddFile(files: seq<File>, f: File, deleted: set<nat>): seq<File> {
    if f.number in deleted then files else files + [f]
  }

  ghost predicate NumbersApart(a: seq<File>, b: seq<File>) {
    forall f, g :: f in a && g in b ==> f.number != g.number
  }

  /** `merged` holds the live files among the first `i` of `a` and the first `j` of `b`, in order,
      and none of the rest comes before them. */
  ghost predicate MergedUpTo(merged: seq<File>, a: seq<File>, i: nat, b: seq<File>, j: nat, deleted: set<nat>) {
    && i <= |a| && j <= |b|
    && SortedBySmallest(merged)
    && (forall f :: f in merged <==> (f in a[..i] || f in b[..j]) && f.number !in deleted)
    && (forall f, k :: f in merged && i <= k < |a| ==> BySmallestKey(f, a[k]))
    && (forall f, k :: f in merged && j <= k < |b| ==> BySmallestKey(f, b[k]))
  }

  lemma MergeStep(merged: seq<File>, a: seq<File>, i: nat, b: seq<File>, j: nat, deleted: set<nat>)
    requires SortedBySmallest(a) && SortedBySmallest(b) && MergedUpTo(merged, a, i, b, j, deleted)
    requires i < |a| && (j < |b| ==> BySmallestKey(a[i], b[j]))
    ensures MergedUpTo(MaybeAddFile(merged, a[i], deleted), a, i + 1, b, j, deleted)
  {
    var r := MaybeAddFile(merged, a[i], deleted);
    assert a[..i + 1] == a[..i] + [a[i]];
    forall k | j <= k < |b| ensures BySmallestKey(a[i], b[k]) {
      assert j == k || BySmallestKey(b[j], b[k]);
    }
    assert forall f :: f in r <==> f in merged || (f == a[i] && f.number !in deleted);
  }

  lemma MergeStepRight(merged: seq<File>, a: seq<File>, i: nat, b: seq<File>, j: nat, deleted: set<nat>)
    requires SortedBySmallest(a) && SortedBySmallest(b) && MergedUpTo(merged, a, i, b, j, deleted)
    requires j < |b| && (i < |a| ==> BySmallestKey(b[j], a[i]))
    ensures MergedUpTo(MaybeAddFile(merged, b[j], deleted), a, i, b, j + 1, deleted)
  {
    MergeStep(merged, b, j, a, i, deleted);
  }

  /** Merges the added files of a level into its base files, without the deleted ones. */
  method SaveLevel(baseFiles: seq<File>, added: seq<File>, deleted: set<nat>) returns (files: seq<File>)
    requires SortedBySmallest(baseFiles) && SortedBySmallest(added) && NumbersApart(baseFiles, added)
    ensures SortedBySmallest(files)
    ensures FileSet(files) == set f | f in FileSet(baseFiles) + FileSet(added) && f.number !in deleted
  {
    files := [];
    var b := 0;
    for a := 0 to |added|
      invariant MergedUpTo(files, baseFiles, b, added, a, deleted)
    {
      while b < |baseFiles| && !BySmallestKey(added[a], baseFiles[b])
        invariant MergedUpTo(files, baseFiles, b, added, a, deleted)
      {
        assert baseFiles[b] in baseFiles && added[a] in added;
        MergeStep(files, baseFiles, b, added, a, deleted);
        files := MaybeAddFile(files, baseFiles[b], deleted);
        b := b + 1;
      }
      MergeStepRight(files, baseFiles, b, added, a, deleted);
      files := MaybeAddFile(files, added[a], deleted);
    }
    while b < |baseFiles|
      invariant MergedUpTo(files, baseFiles, b, added, |added|, deleted)
    {
      MergeStep(files, baseFiles, b, added, |added|, deleted);
      files := MaybeAddFile(files, baseFiles[b], deleted);
      b := b + 1;
    }
    assert baseFiles[..b] == baseFiles && added[..|added|] == added;
  }

  class Builder {
    const base: Version
    var deletedFiles: seq<set<nat>>
    var addedFiles: seq<seq<File>>

    ghost predicate Valid()
      reads this
    {
      && |base| == NUM_LEVELS && |deletedFiles| == NUM_LEVELS && |addedFiles| == NUM_LEVELS
      && (forall l :: 0 <= l < NUM_LEVELS ==> SortedBySmallest(base[l]) && SortedBySmallest(addedFiles[l]))
      && (forall l :: 0 <= l < NUM_LEVELS ==> NumbersApart(base[l], addedFiles[l]))
    }

    /** The files a level will have. */
    ghost function LevelFiles(l: nat): set<File>
      requires Valid() && l < NUM_LEVELS
      reads this
    {
      set f | f in FileSet(base[l]) + FileSet(addedFiles[l]) && f.number !in deletedFiles[l]
    }

    constructor (base: Version)
      requires |base| == NUM_LEVELS && forall l :: 0 <= l < NUM_LEVELS ==> SortedBySmallest(base[l])
      ensures Valid() && this.base == base
      ensures forall l :: 0 <= l < NUM_LEVELS ==> LevelFiles(l) == FileSet(base[l]) && addedFiles[l] == []
    {
      this.base := base;
      deletedFiles := seq(NUM_LEVELS, _ => {});
      addedFiles := seq(NUM_LEVELS, _ => []);
    }

    ghost predicate NumberUnused(level: nat, number: nat)
      requires Valid() && level < NUM_LEVELS
      reads this
    {
      forall f :: f in base[level] || f in addedFiles[level] ==> f.number != number
    }

    /** The file numbers an edit adds to a level from position `i` on are new to that level. */
    ghost predicate FreshNumbers(added: seq<(nat, File)>, i: nat)
      requires Valid() && LevelsInRange(added)
      reads this
    {
      forall j :: i <= j < |added| ==> NumberUnused(added[j].0, added[j].1.number)
    }

    method Apply(edit: Edit)
      requires Valid() && LevelsInRange(edit.added) && AddedOnce(edit.added) && FreshNumbers(edit.added, 0)
      modifies this
      ensures Valid()
      ensures forall l :: 0 <= l < NUM_LEVELS ==> LevelFiles(l) == ApplyToLevel(old(LevelFiles(l)), edit, l)
      ensures forall l :: 0 <= l < NUM_LEVELS ==> FileSet(addedFiles[l]) == old(FileSet(addedFiles[l])) + AddedAt(edit.added, l)
    {
      ghost var files := seq(NUM_LEVELS, l requires 0 <= l < NUM_LEVELS && Valid() reads this => Without(LevelFiles(l), edit.deleted, l));
      ghost var wasAdded := seq(NUM_LEVELS, l requires 0 <= l < NUM_LEVELS && Valid() reads this => FileSet(addedFiles[l]));
      DeleteAll(edit.deleted);
      for i := 0 to |edit.added|
        invariant Valid() && FreshNumbers(edit.added, i)
        invariant AddedUpTo(edit.added, i, files, wasAdded)
      {
        AddNth(edit.added, i, files, wasAdded);
      }
      assert edit.added[..|edit.added|] == edit.added;
    }

    /** The version after all applied edits. */
    method SaveTo() returns (v: Version)
      requires Valid()
      ensures |v| == NUM_LEVELS
      ensures forall l :: 0 <= l < NUM_LEVELS ==> SortedBySmallest(v[l]) && FileSet(v[l]) == LevelFiles(l)
    {
      v := [];
      while |v| < NUM_LEVELS
        invariant |v| <= NUM_LEVELS
        invariant forall l :: 0 <= l < |v| ==> SortedBySmallest(v[l]) && FileSet(v[l]) == LevelFiles(l)
      {
        var l := |v|;
        var files := SaveLevel(base[l], addedFiles[l], deletedFiles[l]);
        v := v + [files];
      }
    }

    /** The first `i` additions are made, on top of the given files and earlier additions. */
    ghost predicate AddedUpTo(added: seq<(nat, File)>, i: nat, files: seq<set<File>>, wasAdded: seq<set<File>>)
      requires Valid() && i <= |added| && |files| == |wasAdded| == NUM_LEVELS
      reads this
    {
      && (forall l :: 0 <= l < NUM_LEVELS ==> FileSet(addedFiles[l]) == wasAdded[l] + AddedAt(added[..i], l))
      && (forall l :: 0 <= l < NUM_LEVELS ==> LevelFiles(l) == files[l] + AddedAt(added[..i], l))
    }

    method AddNth(added: seq<(nat, File)>, i: nat, ghost files: seq<set<File>>, ghost wasAdded: seq<set<File>>)
      requires Valid() && i < |added| && LevelsInRange(added) && AddedOnce(added) && FreshNumbers(added, i)
      requires |files| == |wasAdded| == NUM_LEVELS && AddedUpTo(added, i, files, wasAdded)
      modifies this
      ensures Valid() && FreshNumbers(added, i + 1)
      ensures AddedUpTo(added, i + 1, files, wasAdded)
    {
      var level := added[i].0;
      AddOne(level, added[i].1);
      forall l | 0 <= l < NUM_LEVELS
        ensures FileSet(addedFiles[l]) == wasAdded[l] + AddedAt(added[..i + 1], l)
        ensures LevelFiles(l) == files[l] + AddedAt(added[..i + 1], l)
      {
        AddedSnoc(added, i, l);
        assert FileSet(addedFiles[l]) == old(FileSet(addedFiles[l])) + if l == level then {added[i].1} else {};
        assert LevelFiles(l) == old(LevelFiles(l)) + if l == level then {added[i].1} else {};
      }
    }

    method DeleteAll(deleted: set<(nat, nat)>)
      requires Valid()
      modifies `deletedFiles
      ensures Valid()
      ensures forall l :: 0 <= l < NUM_LEVELS ==> LevelFiles(l) == Without(old(LevelFiles(l)), deleted, l)
    {
      ghost var was := deletedFiles;
      var l := 0;
      while l < NUM_LEVELS
        invariant l <= NUM_LEVELS && |deletedFiles| == NUM_LEVELS
        invariant forall m :: 0 <= m < l ==> deletedFiles[m] == was[m] + NumbersAt(deleted, m)
        invariant forall m :: l <= m < NUM_LEVELS ==> deletedFiles[m] == was[m]
      {
        deletedFiles := deletedFiles[l := deletedFiles[l] + NumbersAt(deleted, l)];
        l := l + 1;
      }
    }

    method AddOne(level: nat, f: File)
      requires Valid() && level < NUM_LEVELS
      requires NumberUnused(level, f.number)
      modifies this
      ensures Valid()
      ensures forall l :: 0 <= l < NUM_LEVELS && l != level ==> addedFiles[l] == old(addedFiles)[l] && LevelFiles(l) == old(LevelFiles(l))
      ensures forall g :: g in addedFiles[level] <==> g in old(addedFiles)[level] || g == f
      ensures LevelFiles(level) == old(LevelFiles(level)) + {f}
    {
      InsertIsSorted(addedFiles[level], f);
      deletedFiles := deletedFiles[level := deletedFiles[level] - {f.number}];
      addedFiles := addedFiles[level := Insert(addedFiles[level], f)];
    }
  }

  ghost predicate LevelsInRange(added: seq<(nat, File)>) {
    forall i :: 0 <= i < |added| ==> added[i].0 < NUM_LEVELS
  }

  ghost predicate AddedOnce(added: seq<(nat, File)>) {
    forall i, j :: 0 <= i < j < |added| && added[i].0 == added[j].0 ==> added[i].1.number != added[j].1.number
  }

  lemma AddedSnoc(added: seq<(nat, File)>, i: nat, l: nat)
    requires i < |added|
    ensures AddedAt(added[..i + 1], l) == AddedAt(added[..i], l) + if added[i].0 == l then {added[i].1} else {}
  {
    assert added[..i + 1] == added[..i] + [added[i]];
  }

  /** The numbers that an edit adds are new to their levels. */
  ghost predicate EditOk(v: Version, edit: Edit) {
    && |v| == NUM_LEVELS && LevelsInRange(edit.added) && AddedOnce(edit.added)
    && forall i, f :: 0 <= i < |edit.added| && f in v[edit.added[i].0] ==> f.number != edit.added[i].1.number
  }

  /** The version after an edit. */
  method ApplyEdit(v: Version, edit: Edit) returns (v2: Version)
    requires |v| == NUM_LEVELS && (forall l :: 0 <= l < NUM_LEVELS ==> SortedBySmallest(v[l])) && EditOk(v, edit)
    ensures |v2| == NUM_LEVELS
    ensures forall l :: 0 <= l < NUM_LEVELS ==> SortedBySmallest(v2[l]) && FileSet(v2[l]) == ApplyToLevel(FileSet(v[l]), edit, l)
  {
    var builder := new Builder(v);
    builder.Apply(edit);
    v2 := builder.SaveTo();
  }
}
