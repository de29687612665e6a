module EngineIterators {
  // Iterators over the whole database (DBImpl::NewIterator in db/db_impl.cc, Version::AddIterators in db/version_set.cc):
  // memtables and tables are merged, and the client sees what reads at the snapshot see.

  import opened ByteStrings
  import opened Keys
  import opened Files
  import opened Merging
  import opened TwoLevel
  import opened InputIterator
  import opened MemTable
  import opened DBIterator
  import opened EngineSteps
  import opened Engine

  // ---- The children --------------------------------------------------------------------------------------------------

  /** One list per level-0 file, one per deeper level that is not empty, up to level `n`. */
  function FirstLists(v: Version, n: nat): seq<seq<Entry>>
    requires n <= |v|
  {
    if n == 0 then [] else FirstLists(v, n - 1) + LevelLists(n - 1, v[n - 1])
  }

  function MemoryLists(s: State): seq<seq<Entry>> {
    [s.mem] + if s.imm.Some? then [s.imm.value] else []
  }

  function ChildLists(s: State): seq<seq<Entry>>
    requires |s.version| == NUM_LEVELS
  {
    MemoryLists(s) + FirstLists(s.version, NUM_LEVELS)
  }

  ghost function EntriesBefore(v: Version, n: nat): set<Entry>
    requires n <= |v|
  {
    set l, e | 0 <= l < n && e in EntriesOf(v[l]) :: e
  }

  lemma {:induction false} FirstListsAre(v: Version, n: nat)
    requires VersionOk(v) && n <= |v|
    ensures var lists := FirstLists(v, n); Union(lists) == EntriesBefore(v, n) && AllSorted(lists) && KeysApart(lists)
  {
    hide KeysApart, EntriesOf, LevelLists;
    if n == 0 {
      NoLists();
    } else {
      FirstListsAre(v, n - 1);
      assert LevelOk(v, n - 1);
      LevelListsAre(n - 1, v[n - 1]);
      LevelsBefore(v, n - 1);
      ListsJoin(FirstLists(v, n - 1), LevelLists(n - 1, v[n - 1]));
      SortedJoined(FirstLists(v, n - 1), LevelLists(n - 1, v[n - 1]));
    }
  }

  lemma NoLists()
    ensures KeysApart([]) && Union([]) == {} && AllSorted([])
  {}

  lemma LevelsBefore(v: Version, n: nat)
    requires VersionOk(v) && n < |v|
    ensures Newer(EntriesBefore(v, n), EntriesOf(v[n])) && EntriesBefore(v, n + 1) == EntriesBefore(v, n) + EntriesOf(v[n])
  {
    hide EntriesOf;
    forall x, y | x in EntriesBefore(v, n) && y in EntriesOf(v[n]) && x.key.user == y.key.user ensures x.key.sequence > y.key.sequence {
      var l :| 0 <= l < n && x in EntriesOf(v[l]);
      assert Newer(EntriesOf(v[l]), EntriesOf(v[n]));
    }
  }

  lemma SortedJoined(a: seq<seq<Entry>>, b: seq<seq<Entry>>)
    requires AllSorted(a) && AllSorted(b)
    ensures AllSorted(a + b)
  {}

  lemma MemoryListsAre(s: State)
    requires Sorted(s.mem) && (s.imm.Some? ==> Sorted(s.imm.value)) && Newer(Elements(s.mem), ImmEntries(s))
    ensures var lists := MemoryLists(s); Union(lists) == Elements(s.mem) + ImmEntries(s) && AllSorted(lists) && KeysApart(lists)
  {
    OneList(s.mem);
    if s.imm.Some? {
      OneList(s.imm.value);
      ListsJoin([s.mem], [s.imm.value]);
    } else {
      assert MemoryLists(s) == [s.mem];
    }
  }

  lemma OneList(t: seq<Entry>)
    ensures Union([t]) == Elements(t) && KeysApart([t])
  {
    assert forall e :: e in t ==> e in [t][0];
  }

  /** The children of the internal iterator have a merge; it holds all entries of the database. */
  lemma ChildrenHaveMerge(s: State) returns (merged: seq<Entry>)
    requires Inv(s)
    ensures IsMerge(ChildLists(s), merged)
  {
    hide KeysApart, EntriesOf, Sorted, LevelLists, FirstLists, Union, EntriesBefore, AllEntries, MemoryLists;
    var a, b := MemoryLists(s), FirstLists(s.version, NUM_LEVELS);
    MemoryListsAre(s);
    FirstListsAre(s.version, NUM_LEVELS);
    AllBefore(s.version);
    ListsJoin(a, b);
    SortedJoined(a, b);
    merged := SortedListOf(Union(a) + Union(b));
  }

  lemma AllBefore(v: Version)
    requires |v| == NUM_LEVELS
    ensures EntriesBefore(v, NUM_LEVELS) == AllEntries(v)
  {}

  lemma MergeHoldsAll(s: State, merged: seq<Entry>)
    requires Inv(s) && IsMerge(ChildLists(s), merged)
    ensures Sorted(merged) && Elements(merged) == All(s) && Distinct(Elements(merged))
  {
    hide KeysApart, EntriesOf, Sorted, LevelLists, FirstLists, Union, EntriesBefore, AllEntries, MemoryLists;
    var a, b := MemoryLists(s), FirstLists(s.version, NUM_LEVELS);
    MemoryListsAre(s);
    FirstListsAre(s.version, NUM_LEVELS);
    AllBefore(s.version);
    ListsJoin(a, b);
  }

  // ---- A level as one list -------------------------------------------------------------------------------------------

  /** The index of a level: the largest key of each file. */
  function LevelIndex(files: seq<File>): seq<Entry> {
    seq(|files|, i requires 0 <= i < |files| => Entry(files[i].largest, []))
  }

  lemma {:induction false} ConcatSnoc(files: seq<File>, f: File)
    ensures Concat(files + [f]) == Concat(files) + f.table
  {
    if files != [] {
      ConcatSnoc(files[1..], f);
      assert (files + [f])[1..] == files[1..] + [f];
    } else {
      assert [] + [f] == [f] && [f][1..] == [];
    }
  }

  lemma {:induction false} LevelFlattens(files: seq<File>)
    ensures Flatten(Tables(files)) == Concat(files)
  {
    if files != [] {
      var n := |files| - 1;
      LevelFlattens(files[..n]);
      assert Tables(files)[..n] == Tables(files[..n]) && files == files[..n] + [files[n]];
      ConcatSnoc(files[..n], files[n]);
    }
  }

  /** The two-level iterator over a level's files reads them as one list. */
  lemma LevelIsIndexed(files: seq<File>)
    requires FilesOk(files) && DisjointSorted(files)
    ensures IndexOk(LevelIndex(files), Tables(files)) && Flatten(Tables(files)) == Concat(files)
  {
    LevelFlattens(files);
    var index, blocks := LevelIndex(files), Tables(files);
    forall i | 0 <= i < |files| ensures Sorted(blocks[i]) {
      assert FileOk(files[i]);
    }
    forall i, b | 0 <= i < |files| && 0 <= b < |blocks[i]| ensures !Less(index[i].key, blocks[i][b].key) {
      FileRange(files[i], blocks[i][b]);
    }
    forall i, j | 0 <= i < j < |files| ensures Less(files[i].largest, files[j].largest) {
      FileSpan(files[j]);
    }
    forall i, j, b | 0 <= i < j < |files| && 0 <= b < |blocks[j]| ensures Less(index[i].key, blocks[j][b].key) {
      FileRange(files[j], blocks[j][b]);
    }
  }

  // ---- What a client sees --------------------------------------------------------------------------------------------

  /** An iterator at a snapshot holds a user key and a value just when a read of that key at that snapshot finds it. */
  lemma ShowsReads(s: State, merged: seq<Entry>, q: nat, u: UserKey, value: Bytes)
    requires Inv(s) && IsMerge(ChildLists(s), merged)
    ensures (exists e :: e in View(merged, q) && e.key.user == u && e.value == value) <==> ReadAt(s, u, q) == Found(value)
  {
    hide Inv, IsMerge, View, Read;
    MergeHoldsAll(s, merged);
    ViewIsReads(merged, q, u, value);
  }

  ghost predicate UsersRise(a: seq<Entry>) {
    forall i, j :: 0 <= i < j < |a| ==> a[i].key.user < a[j].key.user
  }

  ghost predicate SameView(x: Entry, y: Entry) {
    x.key.user == y.key.user && x.value == y.value
  }

  /** What a client sees in `a`, it sees in `b`. */
  ghost predicate SeenIn(a: seq<Entry>, b: seq<Entry>) {
    forall i :: 0 <= i < |a| ==> SeenAt(a[i], b)
  }

  ghost predicate SeenAt(x: Entry, b: seq<Entry>) {
    exists j :: 0 <= j < |b| && SameView(x, b[j])
  }

  /** The entries are, by rising user key, what reads at `q` find. */
  ghost predicate Shows(s: State, entries: seq<Entry>, q: nat) {
    && UsersRise(entries)
    && forall u, value :: (exists e :: e in entries && e.key.user == u && e.value == value) <==> ReadAt(s, u, q) == Found(value)
  }

  lemma InternalShows(s: State, it: MergingIterator, q: nat)
    requires Inv(s) && it.Inv() && it.lists == ChildLists(s)
    ensures Shows(s, View(it.merged, q), q)
  {
    hide Inv, IsMerge, View, Read, ReadAt, ChildLists;
    MergeHoldsAll(s, it.merged);
    ViewsIncrease(it.merged, q);
    forall u, value
      ensures (exists e :: e in View(it.merged, q) && e.key.user == u && e.value == value) <==> ReadAt(s, u, q) == Found(value)
    {
      ShowsReads(s, it.merged, q, u, value);
    }
  }

  /** Two views that show the same are the same list for a client. */
  lemma {:induction false} SameForClient(a: seq<Entry>, b: seq<Entry>)
    requires UsersRise(a) && UsersRise(b) && SeenIn(a, b) && SeenIn(b, a)
    ensures |a| == |b| && forall i :: 0 <= i < |a| ==> SameView(a[i], b[i])
    decreases |a|
  {
    hide SameView, SeenIn, UsersRise;
    if a == [] {
      if b != [] {
        SomethingSeen(b, a);
      }
    } else {
      SomethingSeen(a, b);
      HeadsAgree(a, b);
      TailSeen(a, b);
      TailSeen(b, a);
      SameForClient(a[1..], b[1..]);
      assert forall i :: 0 < i < |a| ==> a[i] == a[1..][i - 1] && b[i] == b[1..][i - 1];
    }
  }

  lemma SomethingSeen(a: seq<Entry>, b: seq<Entry>)
    requires SeenIn(a, b) && a != []
    ensures b != []
  {
    assert SeenAt(a[0], b);
  }

  lemma HeadIsLater(a: seq<Entry>, b: seq<Entry>)
    requires a != [] && b != [] && UsersRise(b) && SeenIn(a, b)
    ensures b[0].key.user <= a[0].key.user
    ensures b[0].key.user == a[0].key.user ==> SameView(a[0], b[0])
  {
    assert SeenAt(a[0], b);
    var j :| 0 <= j < |b| && SameView(a[0], b[j]);
    assert j == 0 || b[0].key.user < b[j].key.user;
  }

  lemma HeadsAgree(a: seq<Entry>, b: seq<Entry>)
    requires a != [] && b != [] && UsersRise(a) && UsersRise(b) && SeenIn(a, b) && SeenIn(b, a)
    ensures SameView(a[0], b[0]) && SameView(b[0], a[0])
  {
    hide SeenIn, UsersRise;
    HeadIsLater(a, b);
    HeadIsLater(b, a);
  }

  lemma TailSeen(a: seq<Entry>, b: seq<Entry>)
    requires a != [] && b != [] && SameView(a[0], b[0]) && UsersRise(a) && SeenIn(a, b)
    ensures UsersRise(a[1..]) && SeenIn(a[1..], b[1..])
  {
    forall i | 0 <= i < |a[1..]| ensures SeenAt(a[1..][i], b[1..]) {
      assert SeenAt(a[i + 1], b) && a[0].key.user < a[i + 1].key.user;
      var j :| 0 <= j < |b| && SameView(a[i + 1], b[j]);
      assert SameView(a[1..][i], b[1..][j - 1]);
    }
  }

  /** What one view shows, the other shows if the reads agree. */
  lemma ViewSeen(s: State, a: seq<Entry>, s2: State, b: seq<Entry>, q: nat)
    requires Inv(s) && IsMerge(ChildLists(s), a) && Inv(s2) && IsMerge(ChildLists(s2), b)
    requires forall u :: ReadAt(s, u, q) == ReadAt(s2, u, q)
    ensures SeenIn(View(a, q), View(b, q))
  {
    hide Inv, IsMerge, View, Read, ChildLists;
    var x, y := View(a, q), View(b, q);
    forall i | 0 <= i < |x| ensures SeenAt(x[i], y) {
      var u, value := x[i].key.user, x[i].value;
      ShowsReads(s, a, q, u, value);
      ShowsReads(s2, b, q, u, value);
      assert x[i] in x && ReadAt(s, u, q) == ReadAt(s2, u, q);
      var f :| f in y && f.key.user == u && f.value == value;
      var j :| 0 <= j < |y| && y[j] == f;
      assert SameView(x[i], y[j]);
    }
  }

  /** If all reads at `q` agree, iterators at `q` show a client the same keys and values in the same order. */
  lemma SameReadsSameViews(s: State, a: seq<Entry>, s2: State, b: seq<Entry>, q: nat)
    requires Inv(s) && IsMerge(ChildLists(s), a) && Inv(s2) && IsMerge(ChildLists(s2), b)
    requires forall u :: ReadAt(s, u, q) == ReadAt(s2, u, q)
    ensures var x, y := View(a, q), View(b, q); |x| == |y| && forall i :: 0 <= i < |x| ==> SameView(x[i], y[i])
  {
    hide Inv, IsMerge, View, Read, ChildLists;
    MergeHoldsAll(s, a);
    MergeHoldsAll(s2, b);
    ViewsIncrease(a, q);
    ViewsIncrease(b, q);
    ViewSeen(s, a, s2, b, q);
    ViewSeen(s2, b, s, a, q);
    SameForClient(View(a, q), View(b, q));
  }

  lemma ViewsIncrease(t: seq<Entry>, q: nat)
    requires Sorted(t)
    ensures UsersRise(View(t, q))
  {
    hide View;
    forall i, j | 0 <= i < j < |View(t, q)| ensures View(t, q)[i].key.user < View(t, q)[j].key.user {
      ViewIncreases(t, q, i, j);
    }
  }

  /** Iterators opened at a snapshot at any two moments of a run while it can be read show the same keys and values in the
      same order. */
  lemma SnapshotIteratorsAgree(states: seq<State>, steps: seq<Step>, i: nat, j: nat, q: nat, a: seq<Entry>, b: seq<Entry>)
    requires IsExecution(states, steps) && i <= j < |states| && OrderlyThrough(states, steps, j)
    requires ReadableThrough(states, steps, i, j, q)
    requires |states[i].version| == |states[j].version| == NUM_LEVELS
    requires IsMerge(ChildLists(states[i]), a) && IsMerge(ChildLists(states[j]), b)
    ensures var x, y := View(a, q), View(b, q); |x| == |y| && forall k :: 0 <= k < |x| ==> SameView(x[k], y[k])
  {
    hide Inv, IsMerge, View, Read, ReadAt, ChildLists, IsExecution, ReadableThrough;
    InvariantHolds(states, steps, i);
    InvariantHolds(states, steps, j);
    forall u ensures ReadAt(states[i], u, q) == ReadAt(states[j], u, q) {
      SnapshotReadsAreStable(states, steps, i, j, u, q);
    }
    SameReadsSameViews(states[i], a, states[j], b, q);
  }

  // ---- Opening one ---------------------------------------------------------------------------------------------------

  /** Level-0 files one by one, deeper levels that are not empty as one list each. */
  method AddIterators(v: Version, list: seq<seq<Entry>>) returns (more: seq<seq<Entry>>)
    requires |v| == NUM_LEVELS
    ensures more == list + FirstLists(v, NUM_LEVELS)
  {
    hide LevelLists, Concat;
    more := list;
    for i := 0 to |v[0]|
      invariant more == list + Tables(v[0])[..i]
    {
      more := more + [v[0][i].table];
    }
    ZeroLevel(v);
    for level := 1 to NUM_LEVELS
      invariant more == list + FirstLists(v, level)
    {
      DeeperLevel(level, v[level]);
      if v[level] != [] {
        more := more + [Concat(v[level])];
      }
    }
  }

  method NewInternalIterator(s: State) returns (it: MergingIterator)
    requires Inv(s)
    ensures fresh(it) && fresh(it.children) && it.Inv() && !it.Abs().Valid() && it.lists == ChildLists(s)
  {
    assert |s.version| == NUM_LEVELS;
    hide Inv, IsMerge, FirstLists;
    ghost var merged := ChildrenHaveMerge(s);
    var list := [s.mem];
    if s.imm.Some? {
      list := list + [s.imm.value];
    }
    assert list == MemoryLists(s);
    list := AddIterators(s.version, list);
    assert list == ChildLists(s);
    it := new MergingIterator(list, merged);
  }

  lemma ZeroLevel(v: Version)
    requires |v| == NUM_LEVELS
    ensures Tables(v[0])[..|v[0]|] == FirstLists(v, 1)
  {
    assert FirstLists(v, 1) == FirstLists(v, 0) + LevelLists(0, v[0]);
    assert [] + LevelLists(0, v[0]) == LevelLists(0, v[0]);
  }

  lemma DeeperLevel(level: nat, files: seq<File>)
    requires level > 0
    ensures LevelLists(level, files) == if files == [] then [] else [Concat(files)]
  {}
}
