/** The compaction loop: which entries reach the output tables (db/db_impl.cc), with the stateful
    scans over the deeper levels that it relies on (db/version_set.cc). */
module CompactionWork {
  import opened Keys
  import opened Files

  predicate ContainsUser(f: File, u: UserKey) {
    f.smallest.user <= u <= f.largest.user
  }

  /** No file more than one level below `level` has the user key in its range. */
  ghost predicate IsBaseLevel(v: Version, level: nat, u: UserKey) {
    forall l, f :: level + 2 <= l < |v| && f in v[l] ==> !ContainsUser(f, u)
  }

  /** A newer entry of the same user key is visible at every live snapshot. */
  ghost predicate Hidden(inputs: set<Entry>, snapshot: nat, e: Entry) {
    exists x :: x in inputs && x.key.user == e.key.user && e.key.sequence < x.key.sequence <= snapshot
  }

  /** A deletion marker that no live snapshot needs and that covers nothing deeper. */
  ghost predicate Obsolete(v: Version, level: nat, snapshot: nat, e: Entry) {
    e.key.kind == Deletion && e.key.sequence <= snapshot && IsBaseLevel(v, level, e.key.user)
  }

  /** The entries that a compaction keeps. */
  ghost function Survivors(v: Version, level: nat, inputs: set<Entry>, snapshot: nat): set<Entry> {
    set e | e in inputs && !Hidden(inputs, snapshot, e) && !Obsolete(v, level, snapshot, e)
  }

  /** The moving parts of a compaction: one cursor per deeper level, and one over the grandparents. */
  class CompactionScan {
    const inputVersion: Version
    const level: nat
    const grandparents: seq<File>
    const maxGrandparentOverlap: nat
    const levelPtrs: array<nat>
    var grandparentIndex: nat
    var overlappedBytes: nat
    var seenKey: bool

    ghost predicate Valid()
      reads this, levelPtrs
    {
      ValidPtrs() && grandparentIndex <= |grandparents|
    }

    ghost predicate ValidPtrs()
      reads levelPtrs
    {
      && VersionOk(inputVersion)
      && levelPtrs.Length == NUM_LEVELS
      && (forall l :: 0 <= l < NUM_LEVELS ==> levelPtrs[l] <= |inputVersion[l]|)
    }

    /** Every file a level cursor has passed ends before `u`. */
    ghost predicate PassedBelow(u: UserKey)
      requires ValidPtrs()
      reads levelPtrs
    {
      forall l, j :: 0 <= l < NUM_LEVELS && 0 <= j < levelPtrs[l] ==> inputVersion[l][j].largest.user < u
    }

    constructor (v: Version, level: nat, grandparents: seq<File>, maxGrandparentOverlap: nat)
      requires VersionOk(v)
      ensures Valid() && fresh(levelPtrs)
      ensures inputVersion == v && this.level == level && this.grandparents == grandparents
      ensures this.maxGrandparentOverlap == maxGrandparentOverlap && grandparentIndex == 0 && overlappedBytes == 0 && !seenKey
      ensures forall u :: PassedBelow(u)
    {
      inputVersion, this.level, this.grandparents, this.maxGrandparentOverlap := v, level, grandparents, maxGrandparentOverlap;
      levelPtrs := new nat[NUM_LEVELS](_ => 0);
      grandparentIndex, overlappedBytes, seenKey := 0, 0, false;
    }

    /** Exact for keys asked in non-decreasing order, although each level is scanned only once. */
    method IsBaseLevelForKey(u: UserKey) returns (base: bool)
      requires Valid() && PassedBelow(u)
      modifies levelPtrs
      ensures Valid() && forall w :: w >= u ==> PassedBelow(w)
      ensures base <==> IsBaseLevel(inputVersion, level, u)
    {
      var lvl := level + 2;
      while lvl < NUM_LEVELS
        invariant Valid() && PassedBelow(u)
        invariant forall l, f :: level + 2 <= l < lvl && l < |inputVersion| && f in inputVersion[l] ==> !ContainsUser(f, u)
      {
        var files := inputVersion[lvl];
        assert LevelOk(inputVersion, lvl);
        while levelPtrs[lvl] < |files|
          invariant Valid() && PassedBelow(u)
          decreases |files| - levelPtrs[lvl]
        {
          var f := files[levelPtrs[lvl]];
          if u <= f.largest.user {
            if u >= f.smallest.user {
              assert ContainsUser(f, u);
              return false;
            }
            break;
          }
          levelPtrs[lvl] := levelPtrs[lvl] + 1;
        }
        NoneFrom(files, levelPtrs[lvl], u);
        lvl := lvl + 1;
      }
      return true;
    }

    /** The drop rules.  `last` is the sequence of the entry before `e` when that entry has the same
        user key, and the maximum otherwise. */
    method ShouldDrop(input: seq<Entry>, i: nat, last: nat, snapshot: nat) returns (drop: bool)
      requires Valid() && Sorted(input) && Distinct(Elements(input)) && i < |input|
      requires snapshot < MAX_SEQUENCE
      requires last == if i > 0 && input[i - 1].key.user == input[i].key.user then input[i - 1].key.sequence else MAX_SEQUENCE
      requires PassedBelow(input[i].key.user)
      modifies levelPtrs
      ensures Valid() && forall w :: w >= input[i].key.user ==> PassedBelow(w)
      ensures drop <==> input[i] !in Survivors(inputVersion, level, Elements(input), snapshot)
    {
      var e := input[i];
      HiddenByPredecessor(input, i, snapshot);
      drop := false;
      if last <= snapshot {
        drop := true;
      } else if e.key.kind == Deletion && e.key.sequence <= snapshot {
        drop := IsBaseLevelForKey(e.key.user);
      }
    }

    /** Should the current output file end before `key`?  Yes once the grandparent files passed
        since the last answer of yes hold too many bytes. */
    method ShouldStopBefore(key: InternalKey) returns (stop: bool)
      requires Valid()
      modifies `grandparentIndex, `overlappedBytes, `seenKey
      ensures Valid() && seenKey && old(grandparentIndex) <= grandparentIndex
      ensures forall i :: old(grandparentIndex) <= i < grandparentIndex ==> Less(grandparents[i].largest, key)
      ensures grandparentIndex < |grandparents| ==> !Less(grandparents[grandparentIndex].largest, key)
      ensures var passed := old(overlappedBytes)
                + if old(seenKey) then TotalFileSize(grandparents[old(grandparentIndex)..grandparentIndex]) else 0;
              && stop == (passed > maxGrandparentOverlap)
              && overlappedBytes == if stop then 0 else passed
    {
      var first := grandparentIndex;
      while grandparentIndex < |grandparents| && Compare(key, grandparents[grandparentIndex].largest) > 0
        invariant first <= grandparentIndex <= |grandparents|
        invariant forall i :: first <= i < grandparentIndex ==> Less(grandparents[i].largest, key)
        invariant overlappedBytes == old(overlappedBytes)
                    + if old(seenKey) then TotalFileSize(grandparents[first..grandparentIndex]) else 0
        invariant seenKey == old(seenKey)
      {
        if seenKey {
          overlappedBytes := overlappedBytes + grandparents[grandparentIndex].size;
        }
        SliceExtend(grandparents, first, grandparentIndex);
        TotalFileSizeSnoc(grandparents[first..grandparentIndex], grandparents[grandparentIndex]);
        grandparentIndex := grandparentIndex + 1;
      }
      seenKey := true;
      stop := overlappedBytes > maxGrandparentOverlap;
      if stop {
        overlappedBytes := 0;
      }
    }
  }

  lemma NoneFrom(files: seq<File>, p: nat, u: UserKey)
    requires FilesOk(files) && p <= |files|
    requires DisjointSorted(files)
    requires forall j :: 0 <= j < p ==> files[j].largest.user < u
    requires p < |files| ==> u < files[p].smallest.user
    ensures forall f :: f in files ==> !ContainsUser(f, u)
  {
    SortedByUser(files);
  }

  /** In a sorted input an entry is hidden just when its predecessor hides it. */
  lemma HiddenByPredecessor(input: seq<Entry>, i: nat, snapshot: nat)
    requires Sorted(input) && Distinct(Elements(input)) && i < |input|
    ensures Hidden(Elements(input), snapshot, input[i])
      <==> i > 0 && input[i - 1].key.user == input[i].key.user && input[i - 1].key.sequence <= snapshot
  {
    if Hidden(Elements(input), snapshot, input[i]) {
      var x :| x in Elements(input) && x.key.user == input[i].key.user && input[i].key.sequence < x.key.sequence <= snapshot;
      var j :| 0 <= j < |input| && input[j] == x;
      assert j < i;
      assert j == i - 1 || Less(x.key, input[i - 1].key);
    }
    if i > 0 {
      assert Less(input[i - 1].key, input[i].key);
      assert input[i - 1] in Elements(input) && input[i] in Elements(input);
    }
  }

  ghost function Kept(input: seq<Entry>, n: nat, survivors: set<Entry>): set<Entry>
    requires n <= |input|
  {
    set j | 0 <= j < n && input[j] in survivors :: input[j]
  }

  /** The tables written so far and the one being built hold exactly the survivors among the first
      `n` inputs, in order. */
  ghost predicate Written(outputs: seq<File>, building: seq<Entry>, v: Version, level: nat, input: seq<Entry>, snapshot: nat, n: nat)
    requires n <= |input|
  {
    && FilesOk(outputs) && DisjointSorted(outputs)
    && Sorted(building)
    && EntriesOf(outputs) + Elements(building) == Kept(input, n, Survivors(v, level, Elements(input), snapshot))
    && (forall f, e :: f in outputs && e in building ==> Less(f.largest, e.key))
  }

  lemma TableFinished(outputs: seq<File>, f: File, v: Version, level: nat, input: seq<Entry>, snapshot: nat, n: nat)
    requires n <= |input| && Written(outputs, f.table, v, level, input, snapshot, n)
    requires forall e :: e in input ==> e.key.sequence <= MAX_SEQUENCE
    requires f.table != [] && f.smallest == f.table[0].key && f.largest == f.table[|f.table| - 1].key
    ensures Written(outputs + [f], [], v, level, input, snapshot, n)
  {
    forall e | e in f.table ensures e.key.sequence <= MAX_SEQUENCE {
      assert e in EntriesOf(outputs) + Elements(f.table);
    }
    assert FileOk(f);
    assert f.table[0] in f.table;
    var r := outputs + [f];
    forall e ensures e in EntriesOf(r) <==> e in EntriesOf(outputs) || e in f.table {
      assert r[|outputs|] == f;
    }
    assert EntriesOf(r) + Elements([]) == EntriesOf(outputs) + Elements(f.table);
  }

  lemma EntryWritten(outputs: seq<File>, building: seq<Entry>, v: Version, level: nat, input: seq<Entry>, snapshot: nat, n: nat)
    requires n < |input| && Sorted(input) && Written(outputs, building, v, level, input, snapshot, n)
    ensures var keep := input[n] in Survivors(v, level, Elements(input), snapshot);
            Written(outputs, if keep then building + [input[n]] else building, v, level, input, snapshot, n + 1)
  {
    var S := Survivors(v, level, Elements(input), snapshot);
    var old' := Kept(input, n, S);
    var new' := Kept(input, n + 1, S);
    if input[n] in S {
      assert new' == old' + {input[n]};
      assert Elements(building + [input[n]]) == Elements(building) + {input[n]};
      forall e | e in building ensures Less(e.key, input[n].key) {
        assert e in old';
      }
      forall f | f in outputs ensures Less(f.largest, input[n].key) {
        var i :| 0 <= i < |outputs| && outputs[i] == f;
        assert FileOk(f);
        var last := f.table[|f.table| - 1];
        assert f in outputs && last in f.table;
        assert last in EntriesOf(outputs);
        assert last in old';
      }
    } else {
      assert new' == old';
    }
  }

  // ---- Where tables end --------------------------------------------------------------------------------------------

  /** How many grandparents end before the key. */
  ghost function PassedAt(grandparents: seq<File>, key: InternalKey): (n: nat)
    ensures n <= |grandparents|
  {
    if grandparents == [] || !Less(grandparents[0].largest, key) then 0 else 1 + PassedAt(grandparents[1..], key)
  }

  lemma {:induction false} PassedAtIs(grandparents: seq<File>, key: InternalKey, n: nat)
    requires n <= |grandparents| && forall i :: 0 <= i < n ==> Less(grandparents[i].largest, key)
    requires n < |grandparents| ==> !Less(grandparents[n].largest, key)
    ensures PassedAt(grandparents, key) == n
  {
    if n > 0 {
      PassedAtIs(grandparents[1..], key, n - 1);
    }
  }

  lemma {:induction false} PassedBefore(grandparents: seq<File>, key: InternalKey, i: nat)
    requires i < PassedAt(grandparents, key)
    ensures Less(grandparents[i].largest, key)
  {
    if i > 0 {
      PassedBefore(grandparents[1..], key, i - 1);
    }
  }

  /** The bytes of the grandparents that end between two keys. */
  ghost function BytesBetween(grandparents: seq<File>, from: InternalKey, to: InternalKey): nat {
    var a, b := PassedAt(grandparents, from), PassedAt(grandparents, to);
    if a <= b then TotalFileSize(grandparents[a..b]) else 0
  }

  /** `r` is the last stop before place `i`, or the first place. */
  ghost predicate IsLastStop(stops: set<nat>, i: nat, r: nat) {
    && r <= i && (r == 0 || (r in stops && r < i)) && forall j :: r < j < i ==> j !in stops
  }

  /** Place `i` is a stop if more than `limit` bytes of grandparents lie between the last stop, or the first key, and it. */
  ghost predicate MustStop(grandparents: seq<File>, input: seq<Entry>, limit: nat, stops: set<nat>, i: nat)
    requires i < |input|
  {
    exists r: nat :: IsLastStop(stops, i, r) && BytesBetween(grandparents, input[r].key, input[i].key) > limit
  }

  ghost predicate AreStops(grandparents: seq<File>, input: seq<Entry>, limit: nat, n: nat, stops: set<nat>)
    requires n <= |input|
  {
    && (forall i :: i in stops ==> i < n)
    && forall i :: 0 <= i < n ==> (i in stops <==> MustStop(grandparents, input, limit, stops, i))
  }

  /** `i` keys of the input have been asked for: what was counted is what lies between the last stop and the last key. */
  ghost predicate Counted(grandparents: seq<File>, input: seq<Entry>, i: nat, r: nat, index: nat, bytes: nat, seen: bool) {
    && i <= |input| && (seen <==> i > 0) && (i == 0 ==> index == 0 && bytes == 0)
    && (i > 0 ==>
          && r < i && index == PassedAt(grandparents, input[i - 1].key) && PassedAt(grandparents, input[r].key) <= index
          && bytes == BytesBetween(grandparents, input[r].key, input[i - 1].key))
  }

  lemma {:induction false} TotalFileSizeJoin(files: seq<File>, a: nat, b: nat, c: nat)
    requires a <= b <= c <= |files|
    ensures TotalFileSize(files[a..c]) == TotalFileSize(files[a..b]) + TotalFileSize(files[b..c])
    decreases c
  {
    if b < c {
      TotalFileSizeJoin(files, a, b, c - 1);
      assert files[a..c] == files[a..c - 1] + [files[c - 1]] && files[b..c] == files[b..c - 1] + [files[c - 1]];
      TotalFileSizeSnoc(files[a..c - 1], files[c - 1]);
      TotalFileSizeSnoc(files[b..c - 1], files[c - 1]);
    }
  }

  lemma PassedGrows(grandparents: seq<File>, input: seq<Entry>, i: nat, index: nat)
    requires Sorted(input) && 0 < i < |input| && PassedAt(grandparents, input[i - 1].key) <= index <= |grandparents|
    requires forall j :: PassedAt(grandparents, input[i - 1].key) <= j < index ==> Less(grandparents[j].largest, input[i].key)
    requires index < |grandparents| ==> !Less(grandparents[index].largest, input[i].key)
    ensures PassedAt(grandparents, input[i].key) == index
  {
    forall j | 0 <= j < index ensures Less(grandparents[j].largest, input[i].key) {
      if j < PassedAt(grandparents, input[i - 1].key) {
        PassedBefore(grandparents, input[i - 1].key, j);
        assert Less(input[i - 1].key, input[i].key);
      }
    }
    PassedAtIs(grandparents, input[i].key, index);
  }

  /** The answer for the next key of the input, and what is counted then. */
  lemma CountedNext(grandparents: seq<File>, input: seq<Entry>, i: nat, r: nat, index: nat, bytes: nat, seen: bool, index2: nat, bytes2: nat,
                    stop: bool, limit: nat)
    requires Sorted(input) && i < |input| && r <= i && Counted(grandparents, input, i, r, index, bytes, seen) && index <= index2 <= |grandparents|
    requires forall j :: index <= j < index2 ==> Less(grandparents[j].largest, input[i].key)
    requires index2 < |grandparents| ==> !Less(grandparents[index2].largest, input[i].key)
    requires var passed := bytes + if seen then TotalFileSize(grandparents[index..index2]) else 0;
             stop == (passed > limit) && bytes2 == if stop then 0 else passed
    ensures stop == (BytesBetween(grandparents, input[r].key, input[i].key) > limit)
    ensures Counted(grandparents, input, i + 1, if stop then i else r, index2, bytes2, true)
  {
    if i == 0 {
      PassedAtIs(grandparents, input[0].key, index2);
      assert grandparents[index2..index2] == [];
    } else {
      PassedGrows(grandparents, input, i, index2);
      TotalFileSizeJoin(grandparents, PassedAt(grandparents, input[r].key), index, index2);
      assert grandparents[index2..index2] == [];
    }
  }

  /** The table lies on one side of the key. */
  ghost predicate NotSplit(t: seq<Entry>, key: InternalKey) {
    (forall x :: x in t ==> Less(x.key, key)) || (forall x :: x in t ==> !Less(x.key, key))
  }

  /** The table reached the size limit with its last entry, or there is a stop behind it and not behind `next`. */
  ghost predicate EndsWell(f: File, next: InternalKey, input: seq<Entry>, stops: set<nat>, fileSize: seq<Entry> -> nat, max: nat) {
    fileSize(f.table) >= max || exists i :: i in stops && i < |input| && Less(f.largest, input[i].key) && !Less(next, input[i].key)
  }

  /** No stop is inside a table, and none had reached the size limit before its last entry. */
  ghost predicate WellCut(t: seq<Entry>, input: seq<Entry>, stops: set<nat>, fileSize: seq<Entry> -> nat, max: nat) {
    && (forall i :: i in stops && i < |input| ==> NotSplit(t, input[i].key))
    && forall k :: 0 < k < |t| ==> fileSize(t[..k]) < max
  }

  ghost predicate TablesWellCut(outputs: seq<File>, input: seq<Entry>, stops: set<nat>, fileSize: seq<Entry> -> nat, max: nat) {
    && (forall k :: 0 <= k < |outputs| ==> WellCut(outputs[k].table, input, stops, fileSize, max))
    && forall k :: 0 <= k < |outputs| - 1 ==> EndsWell(outputs[k], outputs[k + 1].smallest, input, stops, fileSize, max)
  }

  /** The open table: behind all stops, below the size limit, and begun for a reason. */
  ghost predicate OpenWell(outputs: seq<File>, building: seq<Entry>, input: seq<Entry>, n: nat, stops: set<nat>,
                           fileSize: seq<Entry> -> nat, max: nat)
    requires n <= |input|
  {
    && (forall i, x :: i in stops && i < |input| && x in building ==> !Less(x.key, input[i].key))
    && (forall k :: 0 < k <= |building| ==> fileSize(building[..k]) < max)
    && (outputs != [] ==>
          var next := if building != [] then Some(building[0].key) else if n < |input| then Some(input[n].key) else None;
          next.Some? ==> EndsWell(outputs[|outputs| - 1], next.value, input, stops, fileSize, max))
  }

  /** The open table is finished. */
  lemma OpenEnds(outputs: seq<File>, f: File, input: seq<Entry>, n: nat, stops: set<nat>, fileSize: seq<Entry> -> nat, max: nat)
    requires n <= |input| && f.table != [] && f.smallest == f.table[0].key
    requires TablesWellCut(outputs, input, stops, fileSize, max) && WellCut(f.table, input, stops, fileSize, max)
    requires outputs != [] ==> EndsWell(outputs[|outputs| - 1], f.smallest, input, stops, fileSize, max)
    ensures TablesWellCut(outputs + [f], input, stops, fileSize, max)
  {
    hide WellCut, EndsWell;
    var r := outputs + [f];
    forall k | 0 <= k < |r| - 1 ensures EndsWell(r[k], r[k + 1].smallest, input, stops, fileSize, max) {
      assert k < |outputs| - 1 ==> r[k + 1] == outputs[k + 1];
    }
  }

  lemma OpenIsWellCut(outputs: seq<File>, building: seq<Entry>, input: seq<Entry>, n: nat, stops: set<nat>,
                      fileSize: seq<Entry> -> nat, max: nat)
    requires n <= |input| && building != [] && OpenWell(outputs, building, input, n, stops, fileSize, max)
    ensures WellCut(building, input, stops, fileSize, max)
    ensures outputs != [] ==> EndsWell(outputs[|outputs| - 1], building[0].key, input, stops, fileSize, max)
  {
    hide EndsWell;
    forall i | i in stops && i < |input| ensures NotSplit(building, input[i].key) {
      assert forall x :: x in building ==> !Less(x.key, input[i].key);
    }
  }

  /** A stop behind all tables. */
  lemma StopBehind(outputs: seq<File>, input: seq<Entry>, i: nat, stops: set<nat>, fileSize: seq<Entry> -> nat, max: nat)
    requires i < |input| && TablesWellCut(outputs, input, stops, fileSize, max)
    requires forall e :: e in EntriesOf(outputs) ==> Less(e.key, input[i].key)
    ensures TablesWellCut(outputs, input, stops + {i}, fileSize, max)
  {
    forall k | 0 <= k < |outputs| ensures WellCut(outputs[k].table, input, stops + {i}, fileSize, max) {
      assert WellCut(outputs[k].table, input, stops, fileSize, max);
      assert forall x :: x in outputs[k].table ==> x in EntriesOf(outputs);
    }
    forall k | 0 <= k < |outputs| - 1 ensures EndsWell(outputs[k], outputs[k + 1].smallest, input, stops + {i}, fileSize, max) {
      MoreStops(outputs[k], outputs[k + 1].smallest, input, stops, i, fileSize, max);
    }
  }

  lemma MoreStops(f: File, next: InternalKey, input: seq<Entry>, stops: set<nat>, i: nat, fileSize: seq<Entry> -> nat, max: nat)
    requires EndsWell(f, next, input, stops, fileSize, max)
    ensures EndsWell(f, next, input, stops + {i}, fileSize, max)
  {
    if fileSize(f.table) < max {
      var j :| j in stops && j < |input| && Less(f.largest, input[j].key) && !Less(next, input[j].key);
      assert j in stops + {i};
    }
  }

  lemma LaterNext(f: File, next: InternalKey, later: InternalKey, input: seq<Entry>, stops: set<nat>, fileSize: seq<Entry> -> nat, max: nat)
    requires EndsWell(f, next, input, stops, fileSize, max) && !Less(later, next)
    ensures EndsWell(f, later, input, stops, fileSize, max)
  {
    if fileSize(f.table) < max {
      var j :| j in stops && j < |input| && Less(f.largest, input[j].key) && !Less(next, input[j].key);
      assert !Less(later, input[j].key);
    }
  }

  /** One more input, which is left out or appended. */
  lemma OpenGoesOn(outputs: seq<File>, building: seq<Entry>, input: seq<Entry>, n: nat, stops: set<nat>, fileSize: seq<Entry> -> nat,
                   max: nat, keep: bool)
    requires n < |input| && Sorted(input) && (forall i :: i in stops ==> i <= n)
    requires OpenWell(outputs, building, input, n, stops, fileSize, max)
    ensures !keep ==> OpenWell(outputs, building, input, n + 1, stops, fileSize, max)
    ensures keep ==> var longer := building + [input[n]];
      && WellCut(longer, input, stops, fileSize, max)
      && (outputs != [] ==> EndsWell(outputs[|outputs| - 1], longer[0].key, input, stops, fileSize, max))
      && (fileSize(longer) < max ==> OpenWell(outputs, longer, input, n + 1, stops, fileSize, max))
  {
    if !keep {
      if outputs != [] && building == [] && n + 1 < |input| {
        LaterNext(outputs[|outputs| - 1], input[n].key, input[n + 1].key, input, stops, fileSize, max);
      }
    } else {
      var longer := building + [input[n]];
      forall i, x | i in stops && i < |input| && x in longer ensures !Less(x.key, input[i].key) {
        assert x in building || x == input[n];
        assert i == n || Less(input[i].key, input[n].key);
      }
      forall k | 0 < k < |longer| ensures fileSize(longer[..k]) < max {
        assert longer[..k] == building[..k];
      }
      assert longer[..|longer|] == longer;
      forall i | i in stops && i < |input| ensures NotSplit(longer, input[i].key) {
        assert forall x :: x in longer ==> !Less(x.key, input[i].key);
      }
    }
  }

  lemma BehindAll(outputs: seq<File>, building: seq<Entry>, v: Version, level: nat, input: seq<Entry>, snapshot: nat, n: nat)
    requires n < |input| && Sorted(input) && Written(outputs, building, v, level, input, snapshot, n)
    ensures forall e :: e in EntriesOf(outputs) ==> Less(e.key, input[n].key)
    ensures outputs != [] ==> Less(outputs[|outputs| - 1].largest, input[n].key)
  {
    hide Survivors;
    forall e | e in EntriesOf(outputs) ensures Less(e.key, input[n].key) {
      assert e in Kept(input, n, Survivors(v, level, Elements(input), snapshot));
    }
    if outputs != [] {
      var f := outputs[|outputs| - 1];
      assert FileOk(f);
      assert f.table[|f.table| - 1] in EntriesOf(outputs);
    }
  }

  lemma StopIsReason(outputs: seq<File>, input: seq<Entry>, i: nat, stops: set<nat>, fileSize: seq<Entry> -> nat, max: nat)
    requires i < |input| && i in stops && (outputs != [] ==> Less(outputs[|outputs| - 1].largest, input[i].key))
    ensures OpenWell(outputs, [], input, i, stops, fileSize, max)
  {}

  lemma FullIsReason(outputs: seq<File>, input: seq<Entry>, n: nat, stops: set<nat>, fileSize: seq<Entry> -> nat, max: nat)
    requires n <= |input| && outputs != [] && fileSize(outputs[|outputs| - 1].table) >= max
    ensures OpenWell(outputs, [], input, n, stops, fileSize, max)
  {}

  lemma StopNowhere(grandparents: seq<File>, input: seq<Entry>)
    ensures IsLastStop({}, 0, 0) && Counted(grandparents, input, 0, 0, 0, 0, false)
  {}

  lemma NoStops(grandparents: seq<File>, input: seq<Entry>, limit: nat)
    ensures AreStops(grandparents, input, limit, 0, {})
  {}

  /** The place at hand is a stop if and only if too much lies between it and the last one. */
  lemma StopDecided(grandparents: seq<File>, input: seq<Entry>, limit: nat, i: nat, stops: set<nat>, r: nat)
    requires i < |input| && AreStops(grandparents, input, limit, i, stops) && IsLastStop(stops, i, r)
    ensures r <= i && (forall j :: j in stops ==> j < i)
    ensures var far := BytesBetween(grandparents, input[r].key, input[i].key) > limit;
            var more := if far then stops + {i} else stops;
            AreStops(grandparents, input, limit, i + 1, more) && IsLastStop(more, i + 1, if far then i else r)
  {
    hide BytesBetween, MustStop, IsLastStop;
    NextLastStop(stops, i, r);
    var far := BytesBetween(grandparents, input[r].key, input[i].key) > limit;
    var more := if far then stops + {i} else stops;
    forall k | 0 <= k <= i ensures MustStop(grandparents, input, limit, stops, k) <==> MustStop(grandparents, input, limit, more, k) {
      SameLastStops(stops, i, k);
      SameStops(grandparents, input, limit, stops, more, k);
    }
    OneLastStop(grandparents, input, limit, i, stops, r);
  }

  lemma NextLastStop(stops: set<nat>, i: nat, r: nat)
    requires IsLastStop(stops, i, r) && forall j :: j in stops ==> j < i
    ensures r <= i && IsLastStop(stops + {i}, i + 1, i) && IsLastStop(stops, i + 1, r)
  {}

  lemma SameLastStops(stops: set<nat>, i: nat, k: nat)
    requires k <= i
    ensures forall q: nat :: IsLastStop(stops + {i}, k, q) <==> IsLastStop(stops, k, q)
  {}

  lemma OneLastStop(grandparents: seq<File>, input: seq<Entry>, limit: nat, i: nat, stops: set<nat>, r: nat)
    requires i < |input| && IsLastStop(stops, i, r)
    ensures MustStop(grandparents, input, limit, stops, i) <==> BytesBetween(grandparents, input[r].key, input[i].key) > limit
  {
    hide BytesBetween;
    forall q: nat | IsLastStop(stops, i, q) ensures q == r {}
  }

  lemma SameStops(grandparents: seq<File>, input: seq<Entry>, limit: nat, stops: set<nat>, more: set<nat>, k: nat)
    requires k < |input| && forall q: nat :: IsLastStop(more, k, q) <==> IsLastStop(stops, k, q)
    ensures MustStop(grandparents, input, limit, stops, k) <==> MustStop(grandparents, input, limit, more, k)
  {
    hide BytesBetween;
  }

  lemma AllWritten(outputs: seq<File>, v: Version, level: nat, input: seq<Entry>, snapshot: nat)
    requires Written(outputs, [], v, level, input, snapshot, |input|)
    ensures FilesOk(outputs) && DisjointSorted(outputs) && EntriesOf(outputs) == Survivors(v, level, Elements(input), snapshot)
  {
    assert Kept(input, |input|, Survivors(v, level, Elements(input), snapshot)) == Survivors(v, level, Elements(input), snapshot);
  }

  /** The state of one compaction: the tables finished so far and the entries of the open one. */
  class CompactionState {
    const version: Version
    const level: nat
    const input: seq<Entry>
    const smallestSnapshot: nat
    const firstNumber: nat
    const maxOutputFileSize: nat
    const fileSize: seq<Entry> -> nat
    var outputs: seq<File>
    var building: seq<Entry>
    /** The places before which the grandparents have ended a table. */
    ghost var stops: set<nat>

    /** The first `n` inputs are dealt with. */
    ghost predicate Done(n: nat)
      reads this
    {
      && n <= |input| && Written(outputs, building, version, level, input, smallestSnapshot, n)
      && (forall k :: 0 <= k < |outputs| ==> outputs[k].number == firstNumber + k && outputs[k].size == fileSize(outputs[k].table))
    }

    /** Tables end where they should. */
    ghost predicate Cut(n: nat)
      reads this
    {
      && n <= |input| && TablesWellCut(outputs, input, stops, fileSize, maxOutputFileSize)
      && OpenWell(outputs, building, input, n, stops, fileSize, maxOutputFileSize)
    }

    ghost predicate InputOk() {
      && VersionOk(version) && Sorted(input) && Distinct(Elements(input))
      && (forall e :: e in input ==> e.key.sequence <= MAX_SEQUENCE)
      && smallestSnapshot < MAX_SEQUENCE
    }

    constructor (v: Version, level: nat, input: seq<Entry>, smallestSnapshot: nat, firstNumber: nat,
                 maxOutputFileSize: nat, fileSize: seq<Entry> -> nat)
      ensures Done(0) && Cut(0) && stops == {}
      ensures version == v && this.level == level && this.input == input && this.smallestSnapshot == smallestSnapshot
      ensures this.firstNumber == firstNumber && this.maxOutputFileSize == maxOutputFileSize && this.fileSize == fileSize
    {
      version, this.level, this.input, this.smallestSnapshot := v, level, input, smallestSnapshot;
      this.firstNumber, this.maxOutputFileSize, this.fileSize := firstNumber, maxOutputFileSize, fileSize;
      outputs, building, stops := [], [], {};
    }

    method FinishCompactionOutputFile(ghost n: nat)
      requires InputOk() && Done(n) && building != []
      requires TablesWellCut(outputs, input, stops, fileSize, maxOutputFileSize)
      requires WellCut(building, input, stops, fileSize, maxOutputFileSize)
      requires outputs != [] ==> EndsWell(outputs[|outputs| - 1], building[0].key, input, stops, fileSize, maxOutputFileSize)
      modifies `outputs, `building
      ensures Done(n) && building == []
      ensures TablesWellCut(outputs, input, stops, fileSize, maxOutputFileSize)
      ensures outputs != [] && outputs[|outputs| - 1].table == old(building)
    {
      hide Written, WellCut, EndsWell, TablesWellCut, OpenWell, VersionOk;
      var f := File(firstNumber + |outputs|, fileSize(building), building[0].key, building[|building| - 1].key, building);
      TableFinished(outputs, f, version, level, input, smallestSnapshot, n);
      OpenEnds(outputs, f, input, n, stops, fileSize, maxOutputFileSize);
      outputs, building := outputs + [f], [];
    }

    /** The grandparents end the table at hand before input `i`. */
    method StopBefore(i: nat)
      requires InputOk() && Done(i) && Cut(i) && i < |input|
      modifies this
      ensures Done(i) && Cut(i) && building == [] && stops == old(stops) + {i}
    {
      hide Written, WellCut, EndsWell, TablesWellCut, OpenWell, VersionOk, Survivors;
      ghost var before := outputs;
      if building != [] {
        OpenIsWellCut(outputs, building, input, i, stops, fileSize, maxOutputFileSize);
        FinishCompactionOutputFile(i);
      }
      BehindAll(outputs, [], version, level, input, smallestSnapshot, i);
      StopBehind(outputs, input, i, stops, fileSize, maxOutputFileSize);
      StopIsReason(outputs, input, i, stops + {i}, fileSize, maxOutputFileSize);
      stops := stops + {i};
    }

    /** Deals with input `i`, which is dropped or appended to the open table; a table that has grown
        to the size limit is finished. */
    method Process(i: nat, drop: bool)
      requires InputOk() && Done(i) && Cut(i) && i < |input| && (forall j :: j in stops ==> j <= i)
      requires drop <==> input[i] !in Survivors(version, level, Elements(input), smallestSnapshot)
      modifies `outputs, `building
      ensures Done(i + 1) && Cut(i + 1)
    {
      hide Written, WellCut, EndsWell, TablesWellCut, OpenWell, VersionOk, Survivors;
      EntryWritten(outputs, building, version, level, input, smallestSnapshot, i);
      OpenGoesOn(outputs, building, input, i, stops, fileSize, maxOutputFileSize, !drop);
      if !drop {
        building := building + [input[i]];
        if fileSize(building) >= maxOutputFileSize {
          FinishCompactionOutputFile(i + 1);
          FullIsReason(outputs, input, i + 1, stops, fileSize, maxOutputFileSize);
        }
      }
    }

    /** The whole loop.  A table ends when it has reached the size limit, before a key that the grandparents stop at, and at
        the end. */
    method DoCompactionWork(grandparents: seq<File>)
      requires InputOk() && Done(0) && Cut(0) && stops == {}
      modifies this
      ensures FilesOk(outputs) && DisjointSorted(outputs)
      ensures EntriesOf(outputs) == Survivors(version, level, Elements(input), smallestSnapshot)
      ensures forall i :: 0 <= i < |outputs| ==> outputs[i].number == firstNumber + i && outputs[i].size == fileSize(outputs[i].table)
      ensures AreStops(grandparents, input, 10 * maxOutputFileSize, |input|, stops)
      ensures TablesWellCut(outputs, input, stops, fileSize, maxOutputFileSize)
    {
      hide TablesWellCut, OpenWell, WellCut, EndsWell, AreStops, Written, Survivors, BytesBetween, Counted, IsLastStop;
      StopNowhere(grandparents, input);
      var scan := new CompactionScan(version, level, grandparents, 10 * maxOutputFileSize);
      var currentUserKey: Option<UserKey> := None;
      var lastSequenceForKey := MAX_SEQUENCE;
      var i := 0;
      ghost var r := 0;
      NoStops(grandparents, input, 10 * maxOutputFileSize);
      while i < |input|
        invariant i <= |input| && Done(i) && Cut(i) && AreStops(grandparents, input, 10 * maxOutputFileSize, i, stops)
        invariant scan.Valid() && fresh(scan) && fresh(scan.levelPtrs) && scan.inputVersion == version && scan.level == level
        invariant scan.grandparents == grandparents && scan.maxGrandparentOverlap == 10 * maxOutputFileSize
        invariant i < |input| ==> scan.PassedBelow(input[i].key.user)
        invariant r <= i && IsLastStop(stops, i, r)
        invariant Counted(grandparents, input, i, r, scan.grandparentIndex, scan.overlappedBytes, scan.seenKey)
        invariant i == 0 ==> currentUserKey.None?
        invariant i > 0 ==> currentUserKey == Some(input[i - 1].key.user) && lastSequenceForKey == input[i - 1].key.sequence
      {
        var e := input[i];
        ghost var index, bytes, seen := scan.grandparentIndex, scan.overlappedBytes, scan.seenKey;
        var stop := scan.ShouldStopBefore(e.key);
        CountedNext(grandparents, input, i, r, index, bytes, seen, scan.grandparentIndex, scan.overlappedBytes, stop, 10 * maxOutputFileSize);
        StopDecided(grandparents, input, 10 * maxOutputFileSize, i, stops, r);
        if stop {
          StopBefore(i);
          r := i;
        }
        if currentUserKey != Some(e.key.user) {
          currentUserKey := Some(e.key.user);
          lastSequenceForKey := MAX_SEQUENCE;
        }
        var drop := scan.ShouldDrop(input, i, lastSequenceForKey, smallestSnapshot);
        lastSequenceForKey := e.key.sequence;
        Process(i, drop);
        i := i + 1;
        assert i < |input| ==> Less(e.key, input[i].key);
      }
      if building != [] {
        OpenIsWellCut(outputs, building, input, i, stops, fileSize, maxOutputFileSize);
        FinishCompactionOutputFile(i);
      }
      AllWritten(outputs, version, level, input, smallestSnapshot);
    }
  }
}
