/** Tables (table/table_builder.cc, table/table.cc): data blocks, an index of shortened keys that is written one
    block late, and filters.  A lookup looks into one block at most. */
module Tables {
  import opened ByteStrings
  import opened Keys
  import opened Cursors
  import opened Coding
  import opened Comparator
  import opened TableSearch
  import opened Bloom
  import opened FilterBlocks

  datatype Row = Row(key: StoredKey, value: Bytes)

  datatype Block = Block(offset: nat, rows: seq<Row>)

  /** The index has a key for every block; `filters` is empty if the table has none. */
  datatype Table = Table(blocks: seq<Block>, index: seq<StoredKey>, filters: seq<Filter>)

  function EntryOf(r: Row): Entry {
    Entry(Ordered(r.key), r.value)
  }

  function Entries(rows: seq<Row>): (es: seq<Entry>)
    ensures |es| == |rows|
  {
    seq(|rows|, i requires 0 <= i < |rows| => EntryOf(rows[i]))
  }

  function BlockEntries(blocks: seq<Block>): (bs: Blocks)
    ensures |bs| == |blocks|
  {
    seq(|blocks|, i requires 0 <= i < |blocks| => Entries(blocks[i].rows))
  }

  function IndexKeys(index: seq<StoredKey>): (ks: seq<InternalKey>)
    ensures |ks| == |index|
  {
    seq(|index|, i requires 0 <= i < |index| => Ordered(index[i]))
  }

  /** The entries of a table, in order. */
  function Contents(t: Table): seq<Entry> {
    Flatten(BlockEntries(t.blocks))
  }

  /** Every row's user key is in the filter of its block. */
  ghost predicate FiltersOk(hash: Bytes -> Uint32, t: Table) {
    forall i, j :: 0 <= i < |t.blocks| && 0 <= j < |t.blocks[i].rows| ==>
      MayMatch(hash, t.filters, t.blocks[i].offset, t.blocks[i].rows[j].key.user)
  }

  ghost predicate TableOk(hash: Bytes -> Uint32, t: Table) {
    Indexed(BlockEntries(t.blocks), IndexKeys(t.index)) && FiltersOk(hash, t)
  }

  class TableBuilder {
    const hash: Bytes -> Uint32
    const blockSize: nat
    const estimate: seq<Row> -> nat
    const written: seq<Row> -> nat
    const filter: FilterBlockBuilder
    var offset: nat
    var blocks: seq<Block>
    var index: seq<StoredKey>
    var pendingIndexEntry: bool
    var lastKey: StoredKey
    var dataBlock: seq<Row>

    /** The entries added so far. */
    ghost function Added(): seq<Entry>
      reads this
    {
      Flatten(BlockEntries(blocks)) + Entries(dataBlock)
    }

    /** The filter builder knows every row of the blocks and of the open block. */
    ghost predicate FilterKnows()
      reads this, filter
    {
      && filter.Valid() && filter.block == offset && filter.hash == hash
      && BlocksKnown(blocks, filter.added) && RowsKnown(offset, dataBlock, filter.added)
    }

    ghost predicate InOrder()
      reads this
    {
      && Sorted(Added()) && Separated(BlockEntries(blocks), IndexKeys(index), Entries(dataBlock))
      && |index| == |blocks| - (if pendingIndexEntry then 1 else 0)
      && (if pendingIndexEntry then blocks != [] && dataBlock == [] else blocks != [] ==> dataBlock != [])
      && (Added() != [] ==> Ordered(lastKey) == Added()[|Added()| - 1].key)
    }

    ghost predicate Valid()
      reads this, filter
    {
      InOrder() && FilterKnows()
    }

    constructor (hash: Bytes -> Uint32, blockSize: nat, estimate: seq<Row> -> nat, written: seq<Row> -> nat, bitsPerKey: nat, k: nat)
      ensures Valid() && Added() == [] && fresh(filter)
    {
      this.hash, this.blockSize, this.estimate, this.written := hash, blockSize, estimate, written;
      filter := new FilterBlockBuilder(hash, bitsPerKey, k);
      offset, blocks, index, pendingIndexEntry, dataBlock := 0, [], [], false, [];
      lastKey := StoredKey([], 0, Value);
    }

    /** The rows were written as one more block, which a type byte and a checksum follow in the file. */
    ghost predicate Closed(before: seq<Block>, at: nat, rows: seq<Row>)
      reads this
    {
      blocks == before + [Block(at, rows)] && offset == at + written(rows) + 5
    }

    /** Adds a row after all others, and closes the block once it is large enough; the index key of the block before is made now that the next key is known. */
    method Add(key: StoredKey, value: Bytes)
      requires Valid() && (Added() != [] ==> Less(Ordered(lastKey), Ordered(key)))
      modifies this, filter
      ensures Valid() && Added() == old(Added()) + [EntryOf(Row(key, value))]
      ensures var open := old(dataBlock) + [Row(key, value)];
        if estimate(open) >= blockSize then Closed(old(blocks), old(offset), open) && dataBlock == []
        else blocks == old(blocks) && offset == old(offset) && dataBlock == open
    {
      hide Separated, Flatten;
      AddIndexEntry(key, value);
      AddRow(key, value);
      if estimate(dataBlock) >= blockSize {
        Flush();
      }
    }

    /** Writes the index key that is due, if one is. */
    method AddIndexEntry(key: StoredKey, ghost value: Bytes)
      requires InOrder() && (Added() != [] ==> Less(Ordered(lastKey), Ordered(key)))
      modifies `index, `pendingIndexEntry
      ensures |index| == |blocks| && !pendingIndexEntry
      ensures Separated(BlockEntries(blocks), IndexKeys(index), Entries(dataBlock + [Row(key, value)]))
    {
      EntriesSnoc(dataBlock, Row(key, value));
      if pendingIndexEntry {
        LastOfBlocks(BlockEntries(blocks));
        var sep := FindShortestInternalSeparator(lastKey, key);
        IndexAppended(BlockEntries(blocks), IndexKeys(index), Ordered(sep), Entries(dataBlock + [Row(key, value)]));
        KeysSnoc(index, sep);
        index := index + [sep];
        pendingIndexEntry := false;
      } else {
        IndexKept(BlockEntries(blocks), IndexKeys(index), Entries(dataBlock), EntryOf(Row(key, value)));
      }
    }

    method AddRow(key: StoredKey, value: Bytes)
      requires Sorted(Added()) && (Added() != [] ==> Less(Added()[|Added()| - 1].key, Ordered(key)))
      requires |index| == |blocks| && !pendingIndexEntry
      requires Separated(BlockEntries(blocks), IndexKeys(index), Entries(dataBlock + [Row(key, value)])) && FilterKnows()
      modifies `lastKey, `dataBlock, filter
      ensures Valid() && Added() == old(Added()) + [EntryOf(Row(key, value))] && dataBlock == old(dataBlock) + [Row(key, value)]
    {
      EntriesSnoc(dataBlock, Row(key, value));
      SortedSnoc(Flatten(BlockEntries(blocks)), Entries(dataBlock), EntryOf(Row(key, value)));
      RowLearned(blocks, offset, dataBlock, filter.added, Row(key, value));
      filter.AddKey(key.user);
      lastKey := key;
      dataBlock := dataBlock + [Row(key, value)];
    }

    /** Writes the open block, unless it is empty. */
    method Flush()
      requires Valid()
      modifies this, filter
      ensures Valid() && Added() == old(Added()) && dataBlock == [] && lastKey == old(lastKey)
      ensures pendingIndexEntry <==> blocks != []
      ensures if old(dataBlock) == [] then blocks == old(blocks) && offset == old(offset) else Closed(old(blocks), old(offset), old(dataBlock))
    {
      if dataBlock == [] {
        return;
      }
      CloseBlock();
      filter.StartBlock(offset);
    }

    method CloseBlock()
      requires InOrder() && dataBlock != []
      modifies `blocks, `offset, `dataBlock, `pendingIndexEntry
      ensures InOrder() && Added() == old(Added()) && dataBlock == [] && pendingIndexEntry
      ensures Closed(old(blocks), old(offset), old(dataBlock))
    {
      hide Separated, Sorted, Flatten;
      BlockClosed(BlockEntries(blocks), IndexKeys(index), Entries(dataBlock));
      BlocksSnoc(blocks, Block(offset, dataBlock));
      assert Entries([]) == [];
      blocks := blocks + [Block(offset, dataBlock)];
      offset := offset + written(dataBlock) + 5;
      dataBlock, pendingIndexEntry := [], true;
    }

    method Finish() returns (t: Table)
      requires Valid()
      modifies this, filter
      ensures TableOk(hash, t) && Contents(t) == old(Added())
      ensures t.blocks == old(blocks) + if old(dataBlock) == [] then [] else [Block(old(offset), old(dataBlock))]
    {
      Flush();
      assert Flatten(BlockEntries(blocks)) + Entries([]) == Flatten(BlockEntries(blocks));
      var filters := filter.Finish();
      FiltersFromAdded(hash, blocks, filters, filter.added);
      AddLastIndexEntry();
      t := Table(blocks, index, filters);
    }

    method AddLastIndexEntry()
      requires InOrder() && dataBlock == [] && (pendingIndexEntry <==> blocks != [])
      modifies `index, `pendingIndexEntry
      ensures |index| == |blocks| && Separated(BlockEntries(blocks), IndexKeys(index), [])
    {
      assert Flatten(BlockEntries(blocks)) + Entries([]) == Flatten(BlockEntries(blocks));
      if pendingIndexEntry {
        LastOfBlocks(BlockEntries(blocks));
        var sep := FindShortInternalSuccessor(lastKey);
        IndexAppended(BlockEntries(blocks), IndexKeys(index), Ordered(sep), []);
        KeysSnoc(index, sep);
        index := index + [sep];
        pendingIndexEntry := false;
      }
    }
  }

  // ---- What the builder's steps do to its parts ---------------------------------------------------------

  lemma EntriesSnoc(rows: seq<Row>, r: Row)
    ensures Entries(rows + [r]) == Entries(rows) + [EntryOf(r)]
  {}

  lemma KeysSnoc(index: seq<StoredKey>, k: StoredKey)
    ensures IndexKeys(index + [k]) == IndexKeys(index) + [Ordered(k)]
  {}

  lemma BlocksSnoc(blocks: seq<Block>, b: Block)
    ensures BlockEntries(blocks + [b]) == BlockEntries(blocks) + [Entries(b.rows)]
  {}

  lemma SortedSnoc(a: seq<Entry>, b: seq<Entry>, e: Entry)
    requires Sorted(a + b) && (a + b != [] ==> Less((a + b)[|a + b| - 1].key, e.key))
    ensures Sorted(a + (b + [e])) && a + (b + [e]) == a + b + [e]
  {
    assert a + (b + [e]) == a + b + [e];
  }

  lemma IndexAppended(blocks: Blocks, index: seq<InternalKey>, sep: InternalKey, rest: seq<Entry>)
    requires Separated(blocks, index, []) && |index| == |blocks| - 1
    requires var b := blocks[|blocks| - 1]; Separates(sep, b[|b| - 1].key, if rest == [] then None else Some(rest[0].key))
    ensures Separated(blocks, index + [sep], rest)
  {
    forall i | 0 <= i < |blocks| ensures Separates((index + [sep])[i], blocks[i][|blocks[i]| - 1].key, NextKey(blocks, i, rest)) {
      if i < |index| {
        assert NextKey(blocks, i, rest) == NextKey(blocks, i, []);
      }
    }
  }

  lemma IndexKept(blocks: Blocks, index: seq<InternalKey>, rest: seq<Entry>, e: Entry)
    requires Separated(blocks, index, rest) && (blocks != [] ==> rest != [])
    ensures Separated(blocks, index, rest + [e])
  {
    forall i | 0 <= i < |index| ensures NextKey(blocks, i, rest + [e]) == NextKey(blocks, i, rest) {
      assert rest != [] ==> (rest + [e])[0] == rest[0];
    }
  }

  lemma BlockClosed(blocks: Blocks, index: seq<InternalKey>, rest: seq<Entry>)
    requires Separated(blocks, index, rest) && rest != []
    ensures Separated(blocks + [rest], index, [])
    ensures Flatten(blocks + [rest]) + [] == Flatten(blocks) + rest
  {
    assert (blocks + [rest])[..|blocks|] == blocks;
    forall i | 0 <= i < |index| ensures NextKey(blocks + [rest], i, []) == NextKey(blocks, i, rest) {}
  }

  ghost predicate RowsKnown(offset: nat, rows: seq<Row>, added: seq<FilterBlocks.Added>) {
    forall j :: 0 <= j < |rows| ==> FilterBlocks.Added(offset, rows[j].key.user) in added
  }

  ghost predicate BlocksKnown(blocks: seq<Block>, added: seq<FilterBlocks.Added>) {
    forall i :: 0 <= i < |blocks| ==> RowsKnown(blocks[i].offset, blocks[i].rows, added)
  }

  lemma RowLearned(blocks: seq<Block>, offset: nat, rows: seq<Row>, added: seq<FilterBlocks.Added>, r: Row)
    requires BlocksKnown(blocks, added) && RowsKnown(offset, rows, added)
    ensures var more := added + [FilterBlocks.Added(offset, r.key.user)]; BlocksKnown(blocks, more) && RowsKnown(offset, rows + [r], more)
  {
    var more := added + [FilterBlocks.Added(offset, r.key.user)];
    assert FilterBlocks.Added(offset, r.key.user) in more;
    forall i | 0 <= i < |blocks| ensures RowsKnown(blocks[i].offset, blocks[i].rows, more) {
      assert RowsKnown(blocks[i].offset, blocks[i].rows, added);
    }
  }

  lemma FiltersFromAdded(hash: Bytes -> Uint32, blocks: seq<Block>, filters: seq<Filter>, added: seq<FilterBlocks.Added>)
    requires AllMatch(hash, filters, added) && BlocksKnown(blocks, added)
    ensures forall i, j :: 0 <= i < |blocks| && 0 <= j < |blocks[i].rows| ==>
      MayMatch(hash, filters, blocks[i].offset, blocks[i].rows[j].key.user)
  {
    forall i, j | 0 <= i < |blocks| && 0 <= j < |blocks[i].rows|
      ensures MayMatch(hash, filters, blocks[i].offset, blocks[i].rows[j].key.user)
    {
      assert RowsKnown(blocks[i].offset, blocks[i].rows, added);
      var k :| 0 <= k < |added| && added[k] == FilterBlocks.Added(blocks[i].offset, blocks[i].rows[j].key.user);
    }
  }

  // ---- Lookups -----------------------------------------------------------------------------------------

  /** A filter that says no is right. */
  lemma FilteredOut(hash: Bytes -> Uint32, t: Table, i: nat, k: StoredKey)
    requires FiltersOk(hash, t) && i < |t.blocks| && !MayMatch(hash, t.filters, t.blocks[i].offset, k.user)
    ensures forall j :: 0 <= j < |t.blocks[i].rows| ==> Entries(t.blocks[i].rows)[j].key.user != Rank(k.user)
  {
    forall j | 0 <= j < |t.blocks[i].rows| ensures Entries(t.blocks[i].rows)[j].key.user != Rank(k.user) {
      RankIsInjective(t.blocks[i].rows[j].key.user, k.user);
    }
  }

  /** What a lookup has to answer: the first entry at or after the key if it has the key's user key, and
      otherwise nothing with that user key. */
  ghost predicate IsAnswer(all: seq<Entry>, key: InternalKey, r: Option<Entry>) {
    var n := LowerBound(all, key);
    if n < |all| && all[n].key.user == key.user then r == Some(all[n]) else r.None? || r.value.key.user != key.user
  }

  /** Seeks in the index, asks the filter of the block, and seeks in the block. */
  method InternalGet(hash: Bytes -> Uint32, t: Table, k: StoredKey) returns (r: Option<Entry>)
    requires TableOk(hash, t)
    ensures IsAnswer(Contents(t), Ordered(k), r)
  {
    LookupIs(BlockEntries(t.blocks), IndexKeys(t.index), Ordered(k));
    var iiter := Cursor(IndexEntries(IndexKeys(t.index)), 0).Seek(Ordered(k));
    if !iiter.Valid() {
      return None;
    }
    var block := t.blocks[iiter.pos];
    assert BlockEntries(t.blocks)[iiter.pos] == Entries(block.rows);
    var mayMatch := ReaderKeyMayMatch(hash, t.filters, block.offset, k.user);
    if !mayMatch {
      FilteredOut(hash, t, iiter.pos, k);
      return None;
    }
    var blockIter := Cursor(Entries(block.rows), 0).Seek(Ordered(k));
    r := if blockIter.Valid() then Some(blockIter.Current()) else None;
  }

  /** Keeping only what has the sought user key, such a lookup is the seek that reads of tables rest on. */
  lemma AnswerIsTableGet(all: seq<Entry>, u: UserKey, s: nat, r: Option<Entry>)
    requires IsAnswer(all, LookupKey(u, s), r)
    ensures TableGet(all, u, s) == if r.Some? && r.value.key.user == u then r else None
  {}
}
