/** The filter block (table/filter_block.cc): one filter for the keys of all data blocks that begin within the
    same 2 KiB of the file. */
module FilterBlocks {
  import opened ByteStrings
  import opened Coding
  import opened Bloom

  const FILTER_BASE := 2048

  /** The key belongs to a data block at this offset. */
  datatype Added = Added(offset: nat, key: Bytes)

  /** The keys of the blocks that begin in the `i`th 2 KiB of the file, in order. */
  function KeysUnder(added: seq<Added>, i: nat): (keys: seq<Bytes>) {
    if added == [] then []
    else
      var a := added[|added| - 1];
      KeysUnder(added[..|added| - 1], i) + if 2048 * i <= a.offset < 2048 * i + 2048 then [a.key] else []
  }

  /** Exactly the bits that the keys probe are set; no keys have an empty filter. */
  ghost predicate IsFilterOf(hash: Bytes -> Uint32, keys: seq<Bytes>, bitsPerKey: nat, k: nat, f: Filter) {
    if keys == [] then f == Filter([], 0)
    else
      && f.probes == k && |f.bits| == FilterBits(|keys|, bitsPerKey)
      && forall i :: 0 <= i < |f.bits| ==> (f.bits[i] <==> ProbedByAny(hash, keys, k, |f.bits|, i))
  }

  class FilterBlockBuilder {
    const hash: Bytes -> Uint32
    const bitsPerKey: nat
    const k: nat
    var keys: seq<Bytes>
    var filters: seq<Filter>
    /** What was added, and the block that keys are added for. */
    ghost var added: seq<Added>
    ghost var block: nat

    /** The filters made so far are those of their keys, and the keys of the next one are waiting. */
    ghost predicate UpToDate()
      reads this
    {
      && (forall i :: 0 <= i < |filters| ==> IsFilterOf(hash, KeysUnder(added, i), bitsPerKey, k, filters[i]))
      && keys == KeysUnder(added, |filters|)
    }

    ghost predicate Valid()
      reads this
    {
      UpToDate() && |filters| == block / 2048 && forall i :: 0 <= i < |added| ==> added[i].offset <= block
    }

    constructor (hash: Bytes -> Uint32, bitsPerKey: nat, k: nat)
      ensures Valid() && added == [] && block == 0 && this.hash == hash
    {
      this.hash, this.bitsPerKey, this.k := hash, bitsPerKey, k;
      keys, filters, added, block := [], [], [], 0;
    }

    /** A data block begins; filters are made up to the one it falls under. */
    method StartBlock(offset: nat)
      requires Valid() && offset >= block
      modifies this
      ensures Valid() && added == old(added) && block == offset
    {
      hide KeysUnder, IsFilterOf;
      while offset / FILTER_BASE > |filters|
        invariant |filters| <= offset / FILTER_BASE && added == old(added) && UpToDate() && block == old(block)
        decreases offset / FILTER_BASE - |filters|
      {
        ghost var next := |filters| + 1;
        GenerateFilter();
        NothingUnder(added, next);
        assert keys == KeysUnder(added, next);
      }
      block := offset;
    }

    method AddKey(key: Bytes)
      requires Valid()
      modifies this
      ensures Valid() && added == old(added) + [Added(block, key)] && block == old(block)
    {
      hide IsFilterOf, KeysUnder;
      keys := keys + [key];
      added := added + [Added(block, key)];
      forall i: nat ensures KeysUnder(added, i) == if block / 2048 == i then KeysUnder(old(added), i) + [key] else KeysUnder(old(added), i) {
        OneMoreUnder(old(added), Added(block, key), i);
      }
    }

    /** The filter of the waiting keys; an empty one if there are none. */
    method GenerateFilter()
      modifies `keys, `filters
      ensures keys == [] && |filters| == |old(filters)| + 1 && filters[..|old(filters)|] == old(filters)
      ensures IsFilterOf(hash, old(keys), bitsPerKey, k, filters[|old(filters)|])
    {
      if keys == [] {
        filters := filters + [Filter([], 0)];
      } else {
        var f := CreateFilter(hash, keys, bitsPerKey, k);
        filters := filters + [f];
      }
      keys := [];
    }

    /** All filters, each of the keys under it; every added key matches the filter of its block. */
    method Finish() returns (r: seq<Filter>)
      requires Valid()
      modifies `keys, `filters
      ensures added == old(added) && AllMatch(hash, r, added)
      ensures forall i :: 0 <= i < |r| ==> IsFilterOf(hash, KeysUnder(added, i), bitsPerKey, k, r[i])
      ensures |r| == block / 2048 + if KeysUnder(added, block / 2048) == [] then 0 else 1
    {
      hide KeysUnder, IsFilterOf;
      if keys != [] {
        GenerateFilter();
      }
      r := filters;
      forall i | 0 <= i < |added| ensures MayMatch(hash, r, added[i].offset, added[i].key) {
        AddedMatches(hash, added, bitsPerKey, k, r, i);
      }
    }
  }

  lemma OneMoreUnder(added: seq<Added>, a: Added, i: nat)
    ensures KeysUnder(added + [a], i) == if a.offset / 2048 == i then KeysUnder(added, i) + [a.key] else KeysUnder(added, i)
  {
    assert (added + [a])[..|added|] == added;
  }

  lemma {:induction false} NothingUnder(added: seq<Added>, i: nat)
    requires forall j :: 0 <= j < |added| ==> added[j].offset < 2048 * i
    ensures KeysUnder(added, i) == []
  {
    if added != [] {
      NothingUnder(added[..|added| - 1], i);
    }
  }

  lemma {:induction false} KeyIsUnder(added: seq<Added>, j: nat)
    requires j < |added|
    ensures added[j].key in KeysUnder(added, added[j].offset / 2048)
  {
    if j < |added| - 1 {
      KeyIsUnder(added[..|added| - 1], j);
    }
  }

  lemma AddedMatches(hash: Bytes -> Uint32, added: seq<Added>, bitsPerKey: nat, k: nat, filters: seq<Filter>, j: nat)
    requires j < |added|
    requires forall i :: 0 <= i < |filters| ==> IsFilterOf(hash, KeysUnder(added, i), bitsPerKey, k, filters[i])
    ensures MayMatch(hash, filters, added[j].offset, added[j].key)
  {
    var i := added[j].offset / FILTER_BASE;
    if i < |filters| {
      KeyIsUnder(added, j);
      var keys := KeysUnder(added, i);
      var m :| 0 <= m < |keys| && keys[m] == added[j].key;
      KeyMatches(hash, keys, m, filters[i]);
    }
  }

  ghost predicate AllMatch(hash: Bytes -> Uint32, filters: seq<Filter>, added: seq<Added>) {
    forall i :: 0 <= i < |added| ==> MayMatch(hash, filters, added[i].offset, added[i].key)
  }

  /** What the reader answers; an offset without a filter matches. */
  ghost predicate MayMatch(hash: Bytes -> Uint32, filters: seq<Filter>, offset: nat, key: Bytes) {
    var i := offset / FILTER_BASE;
    i < |filters| ==> filters[i].bits != [] && (filters[i].probes > 30 || Matches(hash(key), filters[i]))
  }

  method ReaderKeyMayMatch(hash: Bytes -> Uint32, filters: seq<Filter>, offset: nat, key: Bytes) returns (match': bool)
    ensures match' == MayMatch(hash, filters, offset, key)
  {
    var index := offset / FILTER_BASE;
    match' := true;
    if index < |filters| {
      match' := KeyMayMatch(hash(key), filters[index]);
    }
  }
}
