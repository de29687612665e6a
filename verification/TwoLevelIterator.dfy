/** The two-level iterator (table/two_level_iterator.cc): an index of blocks read as one sorted list. */
module TwoLevel {
  import opened Keys
  import opened Cursors

  /** Number of entries in the blocks before block `i`. */
  function Offset(blocks: seq<seq<Entry>>, i: nat): nat
    requires i <= |blocks|
  {
    if i == 0 then 0 else Offset(blocks, i - 1) + |blocks[i - 1]|
  }

  /** Index key `i` is at or after every key of block `i` and before every key of later blocks.  Blocks
      may be empty. */
  ghost predicate IndexOk(index: seq<Entry>, blocks: seq<seq<Entry>>) {
    && |index| == |blocks| && Sorted(index)
    && (forall i :: 0 <= i < |blocks| ==> Sorted(blocks[i]))
    && (forall i, b :: 0 <= i < |blocks| && 0 <= b < |blocks[i]| ==> !Less(index[i].key, blocks[i][b].key))
    && (forall i, j, b :: 0 <= i < j < |blocks| && 0 <= b < |blocks[j]| ==> Less(index[i].key, blocks[j][b].key))
  }

  lemma {:induction false} OffsetPrefix(blocks: seq<seq<Entry>>, n: nat, i: nat)
    requires i <= n <= |blocks|
    ensures Offset(blocks[..n], i) == Offset(blocks, i)
  {
    if i > 0 {
      OffsetPrefix(blocks, n, i - 1);
    }
  }

  lemma {:induction false} FlattenAt(blocks: seq<seq<Entry>>, i: nat, b: nat)
    requires i < |blocks| && b < |blocks[i]|
    ensures Offset(blocks, i) + b < |Flatten(blocks)| && Flatten(blocks)[Offset(blocks, i) + b] == blocks[i][b]
  {
    var n := |blocks| - 1;
    FlattenLength(blocks[..n]);
    OffsetPrefix(blocks, n, n);
    if i < n {
      FlattenAt(blocks[..n], i, b);
      OffsetPrefix(blocks, n, i);
    }
  }

  lemma {:induction false} FlattenLength(blocks: seq<seq<Entry>>)
    ensures |Flatten(blocks)| == Offset(blocks, |blocks|)
  {
    if blocks != [] {
      var n := |blocks| - 1;
      FlattenLength(blocks[..n]);
      OffsetPrefix(blocks, n, n);
    }
  }

  lemma {:induction false} OffsetMonotone(blocks: seq<seq<Entry>>, i: nat, j: nat)
    requires i <= j <= |blocks|
    ensures Offset(blocks, i) <= Offset(blocks, j)
  {
    if i < j {
      OffsetMonotone(blocks, i, j - 1);
    }
  }

  /** Every position of the list is some entry of some block. */
  lemma {:induction false} Locate(blocks: seq<seq<Entry>>, p: nat) returns (i: nat, b: nat)
    requires p < |Flatten(blocks)|
    ensures i < |blocks| && b < |blocks[i]| && p == Offset(blocks, i) + b
  {
    var n := |blocks| - 1;
    FlattenLength(blocks[..n]);
    OffsetPrefix(blocks, n, n);
    if p < |Flatten(blocks[..n])| {
      i, b := Locate(blocks[..n], p);
      OffsetPrefix(blocks, n, i);
    } else {
      i, b := n, p - Offset(blocks, n);
    }
  }

  lemma FlattenSorted(index: seq<Entry>, blocks: seq<seq<Entry>>)
    requires IndexOk(index, blocks)
    ensures Sorted(Flatten(blocks))
  {
    var all := Flatten(blocks);
    forall p, q | 0 <= p < q < |all| ensures Less(all[p].key, all[q].key) {
      var i, b := Locate(blocks, p);
      var j, c := Locate(blocks, q);
      FlattenAt(blocks, i, b);
      FlattenAt(blocks, j, c);
      if j < i {
        OffsetMonotone(blocks, j + 1, i);
      }
      if i < j {
        assert !Less(index[i].key, blocks[i][b].key) && Less(index[i].key, blocks[j][c].key);
      }
    }
  }

  /** Seeking the index and then its block seeks the whole list. */
  lemma SeekSplits(index: seq<Entry>, blocks: seq<seq<Entry>>, k: InternalKey)
    requires IndexOk(index, blocks)
    ensures var i := LowerBound(index, k);
            LowerBound(Flatten(blocks), k) == if i < |blocks| then Offset(blocks, i) + LowerBound(blocks[i], k) else |Flatten(blocks)|
  {
    var all, i := Flatten(blocks), LowerBound(index, k);
    var p := if i < |blocks| then Offset(blocks, i) + LowerBound(blocks[i], k) else |all|;
    LowerBoundSplits(index, k);
    FlattenSorted(index, blocks);
    FlattenLength(blocks);
    if i < |blocks| {
      LowerBoundSplits(blocks[i], k);
      OffsetMonotone(blocks, i + 1, |blocks|);
    }
    if p > 0 {
      BeforeSeek(index, blocks, k, i, p);
    }
    if p < |all| {
      AtSeek(index, blocks, k, i, LowerBound(blocks[i], k));
    }
    LowerBoundIs(all, k, p);
  }

  lemma BeforeSeek(index: seq<Entry>, blocks: seq<seq<Entry>>, k: InternalKey, i: nat, p: nat)
    requires IndexOk(index, blocks) && i <= |blocks| && 0 < p <= |Flatten(blocks)|
    requires forall j :: 0 <= j < i ==> Less(index[j].key, k)
    requires i < |blocks| ==> p <= Offset(blocks, i) + |blocks[i]|
    requires i < |blocks| ==> forall b :: 0 <= b < |blocks[i]| && Offset(blocks, i) + b < p ==> Less(blocks[i][b].key, k)
    ensures Less(Flatten(blocks)[p - 1].key, k)
  {
    var j, b := Locate(blocks, p - 1);
    FlattenAt(blocks, j, b);
    if j > i {
      OffsetMonotone(blocks, i + 1, j);
    } else if j < i {
      assert !Less(index[j].key, blocks[j][b].key);
    }
  }

  lemma AtSeek(index: seq<Entry>, blocks: seq<seq<Entry>>, k: InternalKey, i: nat, c: nat)
    requires IndexOk(index, blocks) && i < |blocks| && c <= |blocks[i]| && Offset(blocks, i) + c < |Flatten(blocks)|
    requires !Less(index[i].key, k)
    requires c < |blocks[i]| ==> !Less(blocks[i][c].key, k)
    ensures !Less(Flatten(blocks)[Offset(blocks, i) + c].key, k)
  {
    if c < |blocks[i]| {
      FlattenAt(blocks, i, c);
    } else {
      var j, b := Locate(blocks, Offset(blocks, i) + c);
      FlattenAt(blocks, j, b);
      if j <= i {
        OffsetMonotone(blocks, j + 1, i + 1);
      } else {
        assert Less(index[i].key, blocks[j][b].key);
      }
    }
  }

  /** The class behaves as one `Cursor` over all blocks, whatever the mix of calls and wherever the
      empty blocks are. */
  class TwoLevelIterator {
    const indexEntries: seq<Entry>
    const handles: seq<nat>
    const blockFunction: nat -> seq<Entry>
    ghost const blocks: seq<seq<Entry>>
    var index: Cursor
    var data: Option<Cursor>
    var dataBlockHandle: nat
    ghost var at: nat

    ghost predicate IndexedOk() {
      && IndexOk(indexEntries, blocks) && |handles| == |blocks|
      && forall i :: 0 <= i < |blocks| ==> blockFunction(handles[i]) == blocks[i]
    }

    /** The index cursor is in place, and the data cursor belongs to the handle it was made for. */
    ghost predicate Shape()
      reads this
    {
      && IndexedOk() && index.entries == indexEntries && index.pos <= |blocks|
      && (data.Some? ==> data.value.entries == blockFunction(dataBlockHandle) && data.value.pos <= |data.value.entries|)
    }

    /** The data cursor is over the block at the index cursor; there is none when the index is done. */
    ghost predicate InBlock()
      reads this
    {
      && Shape()
      && (index.Valid() ==> data.Some? && dataBlockHandle == handles[index.pos])
      && (!index.Valid() ==> data.None?)
    }

    ghost predicate Inv()
      reads this
    {
      && Shape() && at <= |Flatten(blocks)|
      && (at == |Flatten(blocks)| ==> data.None?)
      && (at < |Flatten(blocks)| ==> InBlock() && index.Valid() && data.value.Valid() && at == Offset(blocks, index.pos) + data.value.pos)
    }

    ghost function Abs(): Cursor
      reads this
    {
      Cursor(Flatten(blocks), at)
    }

    constructor (indexEntries: seq<Entry>, handles: seq<nat>, blockFunction: nat -> seq<Entry>, ghost blocks: seq<seq<Entry>>)
      requires IndexOk(indexEntries, blocks) && |handles| == |blocks|
      requires forall i :: 0 <= i < |blocks| ==> blockFunction(handles[i]) == blocks[i]
      ensures Inv() && !Abs().Valid() && this.blocks == blocks
    {
      this.indexEntries, this.handles, this.blockFunction, this.blocks := indexEntries, handles, blockFunction, blocks;
      index, data, dataBlockHandle, at := Cursor(indexEntries, |indexEntries|), None, 0, |Flatten(blocks)|;
    }

    method Valid() returns (b: bool)
      requires Inv()
      ensures b == Abs().Valid()
    {
      b := data.Some? && data.value.Valid();
    }

    method Current() returns (e: Entry)
      requires Inv() && Abs().Valid()
      ensures e == Abs().Current()
    {
      FlattenAt(blocks, index.pos, data.value.pos);
      e := data.value.Current();
    }

    /** Opens the block at the index cursor unless it is the one already open. */
    method InitDataBlock()
      requires Shape()
      modifies `data, `dataBlockHandle
      ensures InBlock() && index == old(index)
    {
      if !index.Valid() {
        data := None;
      } else {
        var handle := handles[index.pos];
        if data.Some? && handle == dataBlockHandle {
        } else {
          data := Some(Cursor(blockFunction(handle), |blockFunction(handle)|));
          dataBlockHandle := handle;
        }
      }
    }

    /** Where the cursors stand, seen forward: the entry at hand, or the first one after this block. */
    ghost function Front(): nat
      requires InBlock()
      reads this
    {
      if index.Valid() then Offset(blocks, index.pos) + data.value.pos else Offset(blocks, |blocks|)
    }

    /** Seen backward: just past the entry at hand, or the start of this block. */
    ghost function Back(): nat
      requires InBlock()
      reads this
    {
      if !index.Valid() then 0
      else if data.value.Valid() then Offset(blocks, index.pos) + data.value.pos + 1
      else Offset(blocks, index.pos)
    }

    method SkipEmptyDataBlocksForward()
      requires InBlock()
      modifies this
      ensures Inv() && at == old(Front())
    {
      while data.None? || !data.value.Valid()
        invariant InBlock() && Front() == old(Front())
        decreases |blocks| - index.pos
      {
        if !index.Valid() {
          data := None;
          FlattenLength(blocks);
          at := |Flatten(blocks)|;
          return;
        }
        index := index.Next();
        InitDataBlock();
        if data.Some? {
          data := Some(data.value.SeekToFirst());
        }
      }
      FlattenAt(blocks, index.pos, data.value.pos);
      at := Front();
    }

    method SkipEmptyDataBlocksBackward()
      requires InBlock()
      modifies this
      ensures Inv() && at == if old(Back()) == 0 then |Flatten(blocks)| else old(Back()) - 1
    {
      while data.None? || !data.value.Valid()
        invariant InBlock() && Back() == old(Back())
        decreases index.Valid(), index.pos
      {
        if !index.Valid() {
          data := None;
          at := |Flatten(blocks)|;
          return;
        }
        index := index.Prev();
        InitDataBlock();
        if data.Some? {
          data := Some(data.value.SeekToLast());
        }
      }
      FlattenAt(blocks, index.pos, data.value.pos);
      at := Back() - 1;
    }

    method SeekToFirst()
      requires Inv()
      modifies this
      ensures Inv() && Abs() == old(Abs()).SeekToFirst()
    {
      index := index.SeekToFirst();
      InitDataBlock();
      if data.Some? {
        data := Some(data.value.SeekToFirst());
      }
      SkipEmptyDataBlocksForward();
    }

    method SeekToLast()
      requires Inv()
      modifies this
      ensures Inv() && Abs() == old(Abs()).SeekToLast()
    {
      index := index.SeekToLast();
      InitDataBlock();
      if data.Some? {
        data := Some(data.value.SeekToLast());
      }
      FlattenLength(blocks);
      SkipEmptyDataBlocksBackward();
    }

    method Seek(target: InternalKey)
      requires Inv()
      modifies this
      ensures Inv() && Abs() == old(Abs()).Seek(target)
    {
      index := index.Seek(target);
      InitDataBlock();
      if data.Some? {
        data := Some(data.value.Seek(target));
      }
      SeekSplits(indexEntries, blocks, target);
      FlattenLength(blocks);
      SkipEmptyDataBlocksForward();
    }

    method Next()
      requires Inv() && Abs().Valid()
      modifies this
      ensures Inv() && Abs() == old(Abs()).Next()
    {
      data := Some(data.value.Next());
      SkipEmptyDataBlocksForward();
    }

    method Prev()
      requires Inv() && Abs().Valid()
      modifies this
      ensures Inv() && Abs() == old(Abs()).Prev()
    {
      data := Some(data.value.Prev());
      SkipEmptyDataBlocksBackward();
    }

    method Do(call: Call) returns (seen: Option<Entry>)
      requires Inv()
      modifies this
      ensures Inv() && Abs() == Perform(old(Abs()), call) && seen == Observe(Abs())
    {
      var valid := Valid();
      match call {
        case First => SeekToFirst();
        case Last => SeekToLast();
        case To(k) => Seek(k);
        case Forward => if valid { Next(); }
        case Backward => if valid { Prev(); }
      }
      valid := Valid();
      if !valid {
        return None;
      }
      var e := Current();
      return Some(e);
    }

    /** Any sequence of calls shows a client exactly what a plain cursor over all blocks would. */
    method Run(calls: seq<Call>) returns (seen: seq<Option<Entry>>)
      requires Inv()
      modifies this
      ensures Inv() && seen == Observations(old(Abs()), calls)
      decreases calls
    {
      if calls == [] {
        return [];
      }
      var e := Do(calls[0]);
      var rest := Run(calls[1..]);
      return [e] + rest;
    }
  }
}
