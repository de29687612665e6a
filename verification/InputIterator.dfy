/** The merged input of a compaction (VersionSet::MakeInputIterator in db/version_set.cc). */
module InputIterator {
  import opened Keys
  import opened Files
  import opened CompactionInputs
  import opened Install
  import opened Merging
  import opened MemTable

  function Concat(files: seq<File>): seq<Entry> {
    if files == [] then [] else files[0].table + Concat(files[1..])
  }

  function Tables(files: seq<File>): seq<seq<Entry>> {
    seq(|files|, i requires 0 <= i < |files| => files[i].table)
  }

  /** One list per level-0 file, one per deeper level. */
  function LevelLists(level: nat, files: seq<File>): seq<seq<Entry>> {
    if files == [] then [] else if level == 0 then Tables(files) else [Concat(files)]
  }

  function InputLists(c: Compaction): seq<seq<Entry>> {
    LevelLists(c.level, c.inputs0) + LevelLists(c.level + 1, c.inputs1)
  }

  lemma {:induction false} ConcatSorted(files: seq<File>)
    requires FilesOk(files) && DisjointSorted(files)
    ensures Sorted(Concat(files)) && Elements(Concat(files)) == EntriesOf(files)
  {
    if files != [] {
      var f, rest := files[0], files[1..];
      ConcatSorted(rest);
      assert files == [f] + rest;
      forall i, j | 0 <= i < |f.table| && 0 <= j < |Concat(rest)| ensures Less(f.table[i].key, Concat(rest)[j].key) {
        assert Concat(rest)[j] in Elements(Concat(rest));
        var g :| g in rest && Concat(rest)[j] in g.table;
        BeforeLaterFile(files, g, f.table[i], Concat(rest)[j]);
      }
      SortedJoin(f.table, Concat(rest));
      assert EntriesOf(files) == TableOf(f) + EntriesOf(rest);
    }
  }

  lemma BeforeLaterFile(files: seq<File>, g: File, x: Entry, y: Entry)
    requires FilesOk(files) && DisjointSorted(files) && files != []
    requires g in files[1..] && x in files[0].table && y in g.table
    ensures Less(x.key, y.key)
  {
    FileRange(files[0], x);
    FileRange(g, y);
  }

  lemma LevelListsAre(level: nat, files: seq<File>)
    requires FilesOk(files) && DistinctNumbers(files)
    requires level == 0 ==> NewestByNumber(files) && SortedBySmallest(files)
    requires level > 0 ==> DisjointSorted(files)
    ensures Union(LevelLists(level, files)) == EntriesOf(files)
    ensures AllSorted(LevelLists(level, files))
    ensures KeysApart(LevelLists(level, files))
  {
    var lists := LevelLists(level, files);
    if files == [] {
    } else if level == 0 {
      TablesAre(files);
    } else {
      ConcatSorted(files);
      assert lists == [Concat(files)];
      assert Union(lists) == Elements(lists[0]);
    }
  }

  lemma TablesAre(files: seq<File>)
    requires FilesOk(files) && NewestByNumber(files) && SortedBySmallest(files) && DistinctNumbers(files)
    ensures Union(Tables(files)) == EntriesOf(files) && KeysApart(Tables(files))
  {
    var lists := Tables(files);
    forall e ensures e in Union(lists) <==> e in EntriesOf(files) {
      if e in EntriesOf(files) {
        var f :| f in files && e in f.table;
        var i :| 0 <= i < |files| && files[i] == f;
        assert e in lists[i];
      }
    }
    forall i, j, x: Entry, y: Entry | 0 <= i < j < |lists| && x in lists[i] && y in lists[j] ensures x.key != y.key {
      assert BySmallestKey(files[i], files[j]);
      assert files[i] != files[j] && files[i] in files && files[j] in files;
      assert x in TableOf(files[i]) && y in TableOf(files[j]);
    }
  }

  lemma ListsJoin(a: seq<seq<Entry>>, b: seq<seq<Entry>>)
    requires KeysApart(a) && KeysApart(b) && Newer(Union(a), Union(b))
    ensures KeysApart(a + b) && Union(a + b) == Union(a) + Union(b)
  {
    var c := a + b;
    forall e ensures e in Union(c) <==> e in Union(a) || e in Union(b) {
      if e in Union(a) {
        var i :| 0 <= i < |a| && e in a[i];
        assert e in c[i];
      }
      if e in Union(b) {
        var i :| 0 <= i < |b| && e in b[i];
        assert e in c[|a| + i];
      }
    }
    forall i, j, x: Entry, y: Entry | 0 <= i < j < |c| && x in c[i] && y in c[j] ensures x.key != y.key {
      if i < |a| <= j {
        assert x in a[i] && y in b[j - |a|];
        assert x in Union(a) && y in Union(b);
      } else if j < |a| {
        assert x in a[i] && y in a[j];
      } else {
        assert x in b[i - |a|] && y in b[j - |a|];
      }
    }
  }

  // ---- The inputs of a sound compaction ---------------------------------------------------------

  lemma {:induction false} OverlappingSorted(files: seq<File>, lo: Bound, hi: Bound)
    requires SortedBySmallest(files)
    ensures SortedBySmallest(Overlapping(files, lo, hi))
  {
    if files != [] {
      var n := |files| - 1;
      OverlappingSorted(files[..n], lo, hi);
      OverlappingMembers(files[..n], lo, hi);
      var r := Overlapping(files[..n], lo, hi);
      forall i | 0 <= i < |r| ensures BySmallestKey(r[i], files[n]) {
        assert r[i] in files[..n];
      }
    }
  }

  lemma RunSorted(files: seq<File>, part: seq<File>)
    requires FilesOk(files) && DisjointSorted(files) && IsRun(files, part)
    ensures FilesOk(part) && DisjointSorted(part)
  {
    var a, b :| 0 <= a < b <= |files| && part == files[a..b];
  }

  lemma PartOk(files: seq<File>, part: seq<File>)
    requires FilesOk(files) && DistinctNumbers(files) && Includes(files, part)
    ensures FilesOk(part) && DistinctNumbers(part) && (NewestByNumber(files) ==> NewestByNumber(part))
  {
    forall i | 0 <= i < |part| ensures FileOk(part[i]) {
      assert part[i] in files;
    }
  }

  lemma Inputs0Lists(v: Version, c: Compaction)
    requires VersionOk(v) && SoundInputs(v, c)
    ensures var lists := LevelLists(c.level, c.inputs0);
            Union(lists) == EntriesOf(c.inputs0) && KeysApart(lists) && AllSorted(lists)
  {
    var files := v[c.level];
    assert LevelOk(v, c.level);
    PartOk(files, c.inputs0);
    if c.level == 0 {
      var lo, hi :| ClosedRange(files, lo, hi) && c.inputs0 == Overlapping(files, lo, hi);
      OverlappingSorted(files, lo, hi);
    } else {
      RunSorted(files, c.inputs0);
    }
    LevelListsAre(c.level, c.inputs0);
  }

  lemma Inputs1Ok(v: Version, c: Compaction)
    requires VersionOk(v) && SoundInputs(v, c)
    ensures FilesOk(c.inputs1) && DisjointSorted(c.inputs1)
  {
    var files := v[c.level + 1];
    assert LevelOk(v, c.level + 1);
    var lo, hi :| IsRange(c.inputs0, lo, hi) && c.inputs1 == Overlapping(files, Some(lo.user), Some(hi.user));
    SortedByUser(files);
    var a, b := OverlappingIsRun(files, Some(lo.user), Some(hi.user));
    if a < b {
      RunSorted(files, c.inputs1);
    }
  }

  lemma Inputs1Lists(v: Version, c: Compaction)
    requires VersionOk(v) && SoundInputs(v, c)
    ensures var lists := LevelLists(c.level + 1, c.inputs1);
            Union(lists) == EntriesOf(c.inputs1) && KeysApart(lists) && AllSorted(lists)
  {
    Inputs1Ok(v, c);
    InputsIncluded(v, c);
    assert LevelOk(v, c.level + 1);
    PartOk(v[c.level + 1], c.inputs1);
    LevelListsAre(c.level + 1, c.inputs1);
  }

  lemma InputsNewer(v: Version, c: Compaction)
    requires VersionOk(v) && SoundInputs(v, c)
    ensures Newer(EntriesOf(c.inputs0), EntriesOf(c.inputs1)) && InputEntries(c) <= AllEntries(v)
  {
    InputsIncluded(v, c);
    EntriesOfSubset(c.inputs0, v[c.level]);
    EntriesOfSubset(c.inputs1, v[c.level + 1]);
    NewerSubset(EntriesOf(v[c.level]), EntriesOf(v[c.level + 1]), EntriesOf(c.inputs0), EntriesOf(c.inputs1));
    LevelEntries(v, c.level);
    LevelEntries(v, c.level + 1);
  }

  /** The children of the input iterator have a merge, and it holds the entries of all inputs. */
  lemma InputsHaveMerge(v: Version, c: Compaction) returns (merged: seq<Entry>)
    requires VersionOk(v) && SoundInputs(v, c) && Distinct(AllEntries(v))
    ensures IsMerge(InputLists(c), merged) && Elements(merged) == InputEntries(c)
  {
    Inputs0Lists(v, c);
    Inputs1Lists(v, c);
    InputsNewer(v, c);
    merged := MergeExists(LevelLists(c.level, c.inputs0), LevelLists(c.level + 1, c.inputs1));
  }

  ghost predicate AllSorted(lists: seq<seq<Entry>>) {
    forall i :: 0 <= i < |lists| ==> Sorted(lists[i])
  }

  lemma MergeExists(a: seq<seq<Entry>>, b: seq<seq<Entry>>) returns (merged: seq<Entry>)
    requires KeysApart(a) && KeysApart(b) && AllSorted(a) && AllSorted(b)
    requires Newer(Union(a), Union(b)) && Distinct(Union(a) + Union(b))
    ensures IsMerge(a + b, merged) && Elements(merged) == Union(a) + Union(b)
  {
    ListsJoin(a, b);
    merged := SortedListOf(Union(a) + Union(b));
  }

  /** Draining the merging iterator gives the inputs in order. */
  method ReadInputs(v: Version, c: Compaction) returns (input: seq<Entry>)
    requires VersionOk(v) && SoundInputs(v, c) && Distinct(AllEntries(v))
    ensures Sorted(input) && Elements(input) == InputEntries(c)
  {
    ghost var merged := InputsHaveMerge(v, c);
    var it := new MergingIterator(InputLists(c), merged);
    input := Drain(it);
  }

  method Drain(it: MergingIterator) returns (input: seq<Entry>)
    requires it.Inv()
    modifies it, it.children
    ensures input == it.merged
  {
    hide MergingIterator.Inv;
    it.SeekToFirst();
    input := [];
    ghost var merged := it.merged;
    var e := Take(it);
    while e.Some?
      invariant it.Inv() && it.at <= |merged|
      invariant if e.Some? then |input| < it.at && e.value == merged[it.at - 1] && input == merged[..it.at - 1]
                else it.at == |merged| && input == merged[..it.at]
      decreases |merged| - it.at, e.Some?
    {
      input := input + [e.value];
      e := Take(it);
    }
  }

  /** The entry under the iterator, which moves on. */
  method Take(it: MergingIterator) returns (e: Option<Entry>)
    requires it.Inv()
    modifies it, it.children
    ensures it.Inv()
    ensures if old(it.at) == |it.merged| then e == None && it.at == old(it.at)
            else old(it.at) < |it.merged| && e == Some(it.merged[old(it.at)]) && it.at == old(it.at) + 1
  {
    var valid := it.Valid();
    if !valid {
      return None;
    }
    var current := it.Current();
    it.Next();
    return Some(current);
  }
}
