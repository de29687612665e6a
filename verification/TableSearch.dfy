/** Why a lookup may look into a single block: index keys separate the blocks. */
module TableSearch {
  import opened Keys
  import opened Cursors

  type Blocks = seq<seq<Entry>>

  /** An index key is the last key of its block, or has a user key strictly between that and the next key's. */
  ghost predicate Separates(sep: InternalKey, last: InternalKey, next: Option<InternalKey>) {
    && (sep == last || last.user < sep.user)
    && (next.Some? ==> if sep == last then Less(last, next.value) else sep.user < next.value.user)
  }

  function NextKey(blocks: Blocks, i: nat, rest: seq<Entry>): Option<InternalKey>
    requires i < |blocks|
  {
    if i + 1 < |blocks| then if blocks[i + 1] != [] then Some(blocks[i + 1][0].key) else None
    else if rest != [] then Some(rest[0].key) else None
  }

  /** No block is empty, and the index keys separate each block from what follows; `rest` follows the last. */
  ghost predicate Separated(blocks: Blocks, index: seq<InternalKey>, rest: seq<Entry>) {
    && |index| <= |blocks|
    && (forall i :: 0 <= i < |blocks| ==> blocks[i] != [])
    && forall i :: 0 <= i < |index| ==> Separates(index[i], blocks[i][|blocks[i]| - 1].key, NextKey(blocks, i, rest))
  }

  function IndexEntries(index: seq<InternalKey>): (es: seq<Entry>)
    ensures |es| == |index|
  {
    seq(|index|, i requires 0 <= i < |index| => Entry(index[i], []))
  }

  ghost predicate Indexed(blocks: Blocks, index: seq<InternalKey>) {
    Sorted(Flatten(blocks)) && |index| == |blocks| && Separated(blocks, index, [])
  }

  /** Where the sought key belongs, in terms of the block that the index names. */
  ghost predicate Located(blocks: Blocks, index: seq<InternalKey>, key: InternalKey) {
    var all, n, i := Flatten(blocks), LowerBound(Flatten(blocks), key), LowerBound(IndexEntries(index), key);
    && |index| == |blocks|
    && (i == |index| ==> n == |all|)
    && (i < |index| ==>
          var m := LowerBound(blocks[i], key);
          if m < |blocks[i]| then n < |all| && all[n] == blocks[i][m] else n < |all| ==> all[n].key.user != key.user)
  }

  lemma LastOfBlocks(blocks: Blocks)
    requires blocks != [] && blocks[|blocks| - 1] != []
    ensures var b := blocks[|blocks| - 1];
      Flatten(blocks) != [] && Flatten(blocks)[|Flatten(blocks)| - 1] == b[|b| - 1]
  {}

  /** The entries before block `i`, and those of it. */
  lemma {:induction false} BlockIsSlice(blocks: Blocks, i: nat) returns (start: nat)
    requires i < |blocks|
    ensures start == |Flatten(blocks[..i])| && start + |blocks[i]| == |Flatten(blocks[..i + 1])| <= |Flatten(blocks)|
    ensures Flatten(blocks)[..start] == Flatten(blocks[..i])
    ensures Flatten(blocks)[start..start + |blocks[i]|] == blocks[i]
    decreases |blocks|
  {
    var n := |blocks| - 1;
    if i < n {
      start := BlockIsSlice(blocks[..n], i);
      assert blocks[..n][..i] == blocks[..i] && blocks[..n][..i + 1] == blocks[..i + 1];
    } else {
      start := |Flatten(blocks[..n])|;
      assert blocks[..i + 1] == blocks;
    }
  }

  lemma EntryAfterBlock(blocks: Blocks, i: nat)
    requires i < |blocks|
    ensures var n := |Flatten(blocks[..i + 1])|;
      if i + 1 < |blocks| then blocks[i + 1] != [] ==> n < |Flatten(blocks)| && Flatten(blocks)[n] == blocks[i + 1][0]
      else n == |Flatten(blocks)|
  {
    if i + 1 < |blocks| {
      var next := BlockIsSlice(blocks, i + 1);
      if blocks[i + 1] != [] {
        assert Flatten(blocks)[next..next + |blocks[i + 1]|][0] == Flatten(blocks)[next];
      }
    } else {
      assert blocks[..i + 1] == blocks;
    }
  }

  /** An index key before the sought key leaves its whole block before it. */
  lemma BlocksBefore(blocks: Blocks, index: seq<InternalKey>, key: InternalKey, i: nat)
    requires Indexed(blocks, index) && 0 < i <= |blocks| && Less(index[i - 1], key)
    ensures var before := Flatten(blocks[..i]); before != [] && Less(before[|before| - 1].key, key)
  {
    LastOfBlocks(blocks[..i]);
    var b := blocks[i - 1];
    assert Separates(index[i - 1], b[|b| - 1].key, NextKey(blocks, i - 1, []));
  }

  /** Past a block whose index key is not before the sought key, the next user key is a later one. */
  lemma NextUserDiffers(blocks: Blocks, index: seq<InternalKey>, key: InternalKey, i: nat)
    requires Indexed(blocks, index) && i < |blocks| && !Less(index[i], key)
    requires var b := blocks[i]; b != [] && Less(b[|b| - 1].key, key)
    ensures var n := |Flatten(blocks[..i + 1])|; n < |Flatten(blocks)| ==> key.user < Flatten(blocks)[n].key.user
  {
    var b := blocks[i];
    assert Separates(index[i], b[|b| - 1].key, NextKey(blocks, i, []));
    EntryAfterBlock(blocks, i);
  }

  lemma FoundInSlice(all: seq<Entry>, rows: seq<Entry>, start: nat, key: InternalKey)
    requires Sorted(all) && start + |rows| <= |all| && rows != [] && all[start..start + |rows|] == rows
    requires start > 0 ==> Less(all[start - 1].key, key)
    requires LowerBound(rows, key) == |rows| && start + |rows| < |all| ==> key.user < all[start + |rows|].key.user
    ensures LowerBound(all, key) == start + LowerBound(rows, key)
    ensures LowerBound(rows, key) < |rows| ==> all[start + LowerBound(rows, key)] == rows[LowerBound(rows, key)]
  {
    var m := LowerBound(rows, key);
    LowerBoundSplits(rows, key);
    assert m > 0 ==> all[start..start + |rows|][m - 1] == all[start + (m - 1)];
    assert m < |rows| ==> all[start..start + |rows|][m] == all[start + m];
    LowerBoundIs(all, key, start + m);
  }

  lemma FlattenNothing()
    ensures Flatten([]) == []
  {}

  lemma LookupInBlock(blocks: Blocks, index: seq<InternalKey>, key: InternalKey, i: nat)
    requires Indexed(blocks, index) && i < |index| && i == LowerBound(IndexEntries(index), key)
    ensures Located(blocks, index, key)
  {
    hide LowerBound, Flatten, Separates;
    var all, rows := Flatten(blocks), blocks[i];
    var start := BlockIsSlice(blocks, i);
    LowerBoundSplits(IndexEntries(index), key);
    LowerBoundSplits(rows, key);
    if i > 0 {
      assert IndexEntries(index)[i - 1].key == index[i - 1];
      BlocksBefore(blocks, index, key, i);
      assert all[..start][start - 1] == all[start - 1];
    } else {
      FlattenNothing();
      assert blocks[..i] == [];
    }
    if LowerBound(rows, key) == |rows| {
      assert IndexEntries(index)[i].key == index[i];
      NextUserDiffers(blocks, index, key, i);
    }
    FoundInSlice(all, rows, start, key);
  }

  /** The block that the index names holds the first entry at or after the sought key, unless that entry has
      another user key. */
  lemma LookupIs(blocks: Blocks, index: seq<InternalKey>, key: InternalKey)
    requires Indexed(blocks, index)
    ensures Located(blocks, index, key)
  {
    var i := LowerBound(IndexEntries(index), key);
    LowerBoundSplits(IndexEntries(index), key);
    if i < |index| {
      LookupInBlock(blocks, index, key, i);
    } else {
      if i > 0 {
        assert IndexEntries(index)[i - 1].key == index[i - 1];
        BlocksBefore(blocks, index, key, i);
        assert blocks[..i] == blocks;
      }
      LowerBoundIs(Flatten(blocks), key, |Flatten(blocks)|);
    }
  }
}
