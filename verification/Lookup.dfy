module Lookup {
  // Point reads: `MemTable::Get`, `Version::Get` and `DBImpl::Get` find exactly the newest visible entry.

  import opened Keys
  import opened Files
  import opened Versions

  /** `r` is the newest visible entry of `E`, or nothing of `E` is visible. */
  ghost predicate IsNewestOrNone(E: set<Entry>, u: UserKey, s: nat, r: Option<Entry>) {
    match r
    case Some(e) => IsNewest(E, u, s, e)
    case None => forall e :: e in E ==> !Visible(e, u, s)
  }

  lemma TableGetIsNewest(t: seq<Entry>, u: UserKey, s: nat)
    requires Sorted(t)
    ensures IsNewestOrNone(Elements(t), u, s, TableGet(t, u, s))
  {
    SeekFindsNewest(t, u, s);
  }

  /** A newer collection that has an answer hides an older one. */
  lemma NewerAnswers(A: set<Entry>, B: set<Entry>, u: UserKey, s: nat, a: Option<Entry>, b: Option<Entry>)
    requires Newer(A, B) && IsNewestOrNone(A, u, s, a) && (a.None? ==> IsNewestOrNone(B, u, s, b))
    ensures IsNewestOrNone(A + B, u, s, if a.Some? then a else b)
  {}

  // ---- Level 0 ---------------------------------------------------------------------------------

  predicate NewestFirst(f: File, g: File) {
    f.number > g.number
  }

  ghost predicate SortedNewestFirst(files: seq<File>) {
    forall i, j :: 0 <= i < j < |files| ==> files[i].number >= files[j].number
  }

  function InsertNewestFirst(files: seq<File>, f: File): (r: seq<File>)
    requires SortedNewestFirst(files)
    ensures SortedNewestFirst(r) && forall g :: g in r <==> g in files || g == f
  {
    if files == [] || NewestFirst(f, files[0]) then [f] + files
    else
      var rest := InsertNewestFirst(files[1..], f);
      InsertedAfter(files, f, rest);
      [files[0]] + rest
  }

  lemma InsertedAfter(files: seq<File>, f: File, rest: seq<File>)
    requires files != [] && SortedNewestFirst(files) && f.number <= files[0].number
    requires SortedNewestFirst(rest) && forall g :: g in rest <==> g in files[1..] || g == f
    ensures SortedNewestFirst([files[0]] + rest) && forall g :: g in [files[0]] + rest <==> g in files || g == f
  {
    assert files == [files[0]] + files[1..];
    forall i | 0 <= i < |rest| ensures rest[i].number <= files[0].number {
      assert rest[i] in rest;
      if rest[i] != f {
        var j :| 0 <= j < |files| - 1 && files[1..][j] == rest[i];
      }
    }
  }

  /** `tmp` is a search order for level 0. */
  ghost predicate SearchOrder(files: seq<File>, u: UserKey, tmp: seq<File>) {
    && SortedNewestFirst(tmp)
    && forall f :: f in tmp <==> f in files && f.smallest.user <= u <= f.largest.user
  }

  /** The level-0 files whose range holds the user key, newest first. */
  method CandidatesNewestFirst(files: seq<File>, u: UserKey) returns (tmp: seq<File>)
    ensures SearchOrder(files, u, tmp)
  {
    tmp := [];
    for i := 0 to |files|
      invariant SortedNewestFirst(tmp)
      invariant forall f :: f in tmp <==> f in files[..i] && f.smallest.user <= u <= f.largest.user
    {
      assert files[..i + 1] == files[..i] + [files[i]];
      if u >= files[i].smallest.user && u <= files[i].largest.user {
        tmp := InsertNewestFirst(tmp, files[i]);
      }
    }
    assert files[..|files|] == files;
  }

  /** The first `n` files of the search order hold nothing visible. */
  ghost predicate NothingIn(tmp: seq<File>, n: nat, u: UserKey, s: nat)
    requires n <= |tmp|
  {
    forall j, e :: 0 <= j < n && e in tmp[j].table ==> !Visible(e, u, s)
  }

  /** Every visible entry of level 0 sits at some position of the search order. */
  lemma VisibleIsCandidate(files: seq<File>, u: UserKey, s: nat, tmp: seq<File>, e: Entry) returns (k: nat)
    requires FilesOk(files) && SearchOrder(files, u, tmp) && e in EntriesOf(files) && Visible(e, u, s)
    ensures k < |tmp| && e in tmp[k].table
  {
    var g :| g in files && e in g.table;
    FileRange(g, e);
    assert g in tmp;
    k :| 0 <= k < |tmp| && tmp[k] == g;
  }

  lemma FirstHitIsNewest(files: seq<File>, u: UserKey, s: nat, tmp: seq<File>, i: nat, r: Entry)
    requires FilesOk(files) && NewestByNumber(files) && DistinctNumbers(files)
    requires SearchOrder(files, u, tmp) && i < |tmp| && NothingIn(tmp, i, u, s)
    requires IsNewest(Elements(tmp[i].table), u, s, r)
    ensures IsNewest(EntriesOf(files), u, s, r)
  {
    assert tmp[i] in files;
    forall e | e in EntriesOf(files) && Visible(e, u, s) ensures e.key.sequence <= r.key.sequence {
      var k := VisibleIsCandidate(files, u, s, tmp, e);
      if k == i {
        assert e in Elements(tmp[i].table);
      } else if k > i {
        assert tmp[k] in files;
        assert tmp[k] == tmp[i] || Newer(TableOf(tmp[i]), TableOf(tmp[k]));
      }
    }
  }

  method GetLevel0(files: seq<File>, u: UserKey, s: nat) returns (r: Option<Entry>)
    requires FilesOk(files) && NewestByNumber(files) && DistinctNumbers(files)
    ensures IsNewestOrNone(EntriesOf(files), u, s, r)
  {
    var tmp := CandidatesNewestFirst(files, u);
    for i := 0 to |tmp|
      invariant NothingIn(tmp, i, u, s)
    {
      assert tmp[i] in files;
      TableGetIsNewest(tmp[i].table, u, s);
      r := TableGet(tmp[i].table, u, s);
      if r.Some? {
        FirstHitIsNewest(files, u, s, tmp, i, r.value);
        return;
      }
      assert forall e :: e in tmp[i].table ==> e in Elements(tmp[i].table);
    }
    NoHitIsNone(files, u, s, tmp);
    r := None;
  }

  lemma NoHitIsNone(files: seq<File>, u: UserKey, s: nat, tmp: seq<File>)
    requires FilesOk(files) && SearchOrder(files, u, tmp) && NothingIn(tmp, |tmp|, u, s)
    ensures forall e :: e in EntriesOf(files) ==> !Visible(e, u, s)
  {
    forall e | e in EntriesOf(files) && Visible(e, u, s) ensures false {
      var k := VisibleIsCandidate(files, u, s, tmp, e);
    }
  }

  // ---- Deeper levels -----------------------------------------------------------------------------

  /** On a sorted level one file decides: the first that ends at or after the lookup key. */
  lemma OneProbeSuffices(files: seq<File>, u: UserKey, s: nat, index: nat)
    requires FilesOk(files) && DisjointSorted(files) && index < |files|
    requires forall i :: 0 <= i < index ==> Less(files[i].largest, LookupKey(u, s))
    requires !Less(files[index].largest, LookupKey(u, s))
    ensures IsNewestOrNone(EntriesOf(files), u, s, TableGet(files[index].table, u, s))
  {
    hide TableGet, Sorted;
    var f, r := files[index], TableGet(files[index].table, u, s);
    assert FileOk(f);
    TableGetIsNewest(f.table, u, s);
    forall e | e in EntriesOf(files) && Visible(e, u, s)
      ensures r.Some? && e.key.sequence <= r.value.key.sequence
    {
      var g :| g in files && e in g.table;
      var j :| 0 <= j < |files| && files[j] == g;
      FileRange(g, e);
      if j > index {
        assert Less(f.largest, g.smallest);
        assert f.table[|f.table| - 1] in Elements(f.table);
        assert Visible(f.table[|f.table| - 1], u, s);
      } else {
        assert j == index;
        assert e in Elements(f.table);
      }
    }
    if r.Some? {
      assert r.value in EntriesOf(files);
    }
  }

  method GetDeeper(files: seq<File>, u: UserKey, s: nat) returns (r: Option<Entry>)
    requires FilesOk(files) && DisjointSorted(files)
    ensures IsNewestOrNone(EntriesOf(files), u, s, r)
  {
    var index := FindFile(files, LookupKey(u, s));
    if index >= |files| {
      forall e | e in EntriesOf(files) ensures !Visible(e, u, s) {
        var g :| g in files && e in g.table;
        FileRange(g, e);
      }
      return None;
    }
    OneProbeSuffices(files, u, s, index);
    var f := files[index];
    if u < f.smallest.user {
      TableGetIsNewest(f.table, u, s);
      assert TableGet(f.table, u, s).None? by {
        BeforeTable(f, u, s);
      }
      return None;
    }
    r := TableGet(f.table, u, s);
  }

  lemma BeforeTable(f: File, u: UserKey, s: nat)
    requires FileOk(f) && u < f.smallest.user
    ensures TableGet(f.table, u, s).None?
  {
    var i := LowerBound(f.table, LookupKey(u, s));
    if i < |f.table| {
      FileRange(f, f.table[i]);
    }
  }

  /** The entries of the first `n` levels. */
  ghost function UpTo(v: Version, n: nat): set<Entry>
    requires n <= |v|
  {
    AllEntries(v[..n])
  }

  lemma UpToSnoc(v: Version, n: nat)
    requires n < |v|
    ensures UpTo(v, n + 1) == UpTo(v, n) + EntriesOf(v[n])
    ensures LevelsNewer(v) ==> Newer(UpTo(v, n), EntriesOf(v[n]))
  {
    forall e ensures e in UpTo(v, n + 1) <==> e in UpTo(v, n) || e in EntriesOf(v[n]) {
      if e in UpTo(v, n + 1) {
        var l :| 0 <= l < n + 1 && e in EntriesOf(v[..n + 1][l]);
        assert l < n ==> e in EntriesOf(v[..n][l]);
      }
      if e in UpTo(v, n) {
        var l :| 0 <= l < n && e in EntriesOf(v[..n][l]);
        assert e in EntriesOf(v[..n + 1][l]);
      }
      if e in EntriesOf(v[n]) {
        assert e in EntriesOf(v[..n + 1][n]);
      }
    }
    if LevelsNewer(v) {
      forall a, b | a in UpTo(v, n) && b in EntriesOf(v[n]) && a.key.user == b.key.user ensures a.key.sequence > b.key.sequence {
        var l :| 0 <= l < n && a in EntriesOf(v[..n][l]);
        assert Newer(EntriesOf(v[l]), EntriesOf(v[n]));
      }
    }
  }

  /** Level by level, newest files of level 0 first, one probe per deeper level; the search stops at the
      first entry of the user key. */
  method VersionGet(v: Version, u: UserKey, s: nat) returns (r: Option<Entry>)
    requires VersionOk(v)
    ensures IsNewestOrNone(AllEntries(v), u, s, r)
  {
    var level := 0;
    r := None;
    while level < |v| && r.None?
      invariant level <= |v|
      invariant IsNewestOrNone(UpTo(v, level), u, s, r)
    {
      assert LevelOk(v, level);
      if level == 0 {
        r := GetLevel0(v[0], u, s);
      } else {
        r := GetDeeper(v[level], u, s);
      }
      UpToSnoc(v, level);
      level := level + 1;
    }
    DeeperIsOlder(v, level, u, s, r);
  }

  lemma {:induction false} DeeperIsOlder(v: Version, n: nat, u: UserKey, s: nat, r: Option<Entry>)
    requires LevelsNewer(v) && n <= |v| && IsNewestOrNone(UpTo(v, n), u, s, r) && (r.None? ==> n == |v|)
    ensures IsNewestOrNone(AllEntries(v), u, s, r)
    decreases |v| - n
  {
    if n == |v| {
      assert v[..n] == v;
    } else {
      UpToSnoc(v, n);
      DeeperIsOlder(v, n + 1, u, s, r);
    }
  }

  /** The whole read path: memtable, then immutable memtable, then the version. */
  method Get(mem: seq<Entry>, imm: Option<seq<Entry>>, v: Version, u: UserKey, s: nat) returns (answer: Answer)
    requires VersionOk(v) && Sorted(mem) && (imm.Some? ==> Sorted(imm.value))
    requires var I := if imm.Some? then Elements(imm.value) else {};
      && Newer(Elements(mem), I) && Newer(Elements(mem), AllEntries(v)) && Newer(I, AllEntries(v))
      && Distinct(Elements(mem) + I + AllEntries(v))
    ensures answer == Read(Elements(mem) + (if imm.Some? then Elements(imm.value) else {}) + AllEntries(v), u, s)
  {
    ghost var M := Elements(mem);
    ghost var I := if imm.Some? then Elements(imm.value) else {};
    var a := TableGet(mem, u, s);
    TableGetIsNewest(mem, u, s);
    var b := None;
    if a.None? && imm.Some? {
      b := TableGet(imm.value, u, s);
      TableGetIsNewest(imm.value, u, s);
    }
    var c := None;
    if a.None? && b.None? {
      c := VersionGet(v, u, s);
    }
    NewerAnswers(M, I, u, s, a, b);
    var ab := if a.Some? then a else b;
    NewerAnswers(M + I, AllEntries(v), u, s, ab, c);
    var r := if ab.Some? then ab else c;
    if r.Some? {
      ReadIs(M + I + AllEntries(v), u, s, r.value);
      return AnswerOf(r.value);
    }
    ReadNone(M + I + AllEntries(v), u, s);
    return NotFound;
  }
}
