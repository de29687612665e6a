module BlockIteration {
  // The block iterator (table/block.cc): seeks by binary search over the restart points and walks the
  // prefix-compressed entries; it behaves as a cursor over the entries that were added.

  import opened ByteStrings
  import opened Keys
  import opened Coding
  import opened BlockFormat
  import opened Cursors

  /** The keys of a block are compared through `keyOf`. */
  function EntriesOf(es: seq<Pair>, keyOf: Bytes -> InternalKey): (r: seq<Entry>)
    ensures |r| == |es|
  {
    seq(|es|, i requires 0 <= i < |es| => Entry(keyOf(es[i].key), es[i].value))
  }

  /** A finished block of entries with increasing keys, small enough for 32-bit offsets. */
  ghost predicate BlockOk(data: Bytes, l: Layout, es: seq<Pair>, keyOf: Bytes -> InternalKey) {
    && LaidOut(l, es) && data == Finished(l) && |data| < TWO_32 && Sorted(EntriesOf(es, keyOf))
  }

  lemma RestartPointIs(data: Bytes, l: Layout, es: seq<Pair>, keyOf: Bytes -> InternalKey, j: nat)
    requires BlockOk(data, l, es, keyOf) && j < |l.starts|
    ensures l.starts[j] <= |es|
    ensures |l.buffer| + 4 * j + 4 <= |data|
    ensures DecodeFixed32(data[|l.buffer| + 4 * j..|l.buffer| + 4 * j + 4]) == OffsetOf(l, l.starts[j])
  {
    hide DecodeFixed32, EncodeFixed;
    var ws := Words(Restarts(l) + [|l.starts|]);
    ConcatAt(ws, j);
    SliceOfArray(l.buffer, Concat(ws), 4 * j, 4 * j + 4);
    OffsetsGrow(l, es, l.starts[j], |es|);
    WordBack(OffsetOf(l, l.starts[j]));
    assert ws[j] == EncodeFixed(4, OffsetOf(l, l.starts[j]));
  }

  lemma WordBack(x: nat)
    requires x < TWO_32
    ensures DecodeFixed32(EncodeFixed(4, x)) == x
  {
    Fixed32RoundTrip(x, []);
    assert EncodeFixed32(x) + [] == EncodeFixed32(x);
  }

  lemma SliceOfArray(a: Bytes, b: Bytes, i: nat, j: nat)
    requires i <= j <= |b|
    ensures (a + b)[|a| + i..|a| + j] == b[i..j]
  {}

  function HeaderSize(l: Layout, es: seq<Pair>, i: nat): nat
    requires i < |es|
  {
    |EncodeLengths(SharedAt(l, es, i), |es[i].key| - SharedAt(l, es, i), |es[i].value|)|
  }

  /** The lengths of entry `i` and where its parts are. */
  ghost predicate EntryIs(data: Bytes, l: Layout, es: seq<Pair>, i: nat, r: Option<Lengths>)
    requires i < |es| == |l.offsets|
  {
    && r == Some(Lengths(SharedAt(l, es, i), |es[i].key| - SharedAt(l, es, i), |es[i].value|, HeaderSize(l, es, i)))
    && var p, q := OffsetOf(l, i) + HeaderSize(l, es, i), OffsetOf(l, i + 1);
       && p + r.value.nonShared + r.value.valueLength == q <= |data|
       && data[p..p + r.value.nonShared] == es[i].key[r.value.shared..]
       && data[p + r.value.nonShared..q] == es[i].value
  }

  /** Decoding where an entry begins. */
  lemma EntryAt(data: Bytes, l: Layout, es: seq<Pair>, keyOf: Bytes -> InternalKey, i: nat)
    requires BlockOk(data, l, es, keyOf) && i < |es|
    ensures OffsetOf(l, i) < OffsetOf(l, i + 1) <= |l.buffer| <= |data|
    ensures EntryIs(data, l, es, i, DecodeEntry(data[OffsetOf(l, i)..|l.buffer|]))
  {
    hide DecodeEntry, EncodeLengths, EntriesOf, Concat, Words, SharedAt, StartsOk, Sorted;
    assert EntryLaid(l, es, i);
    var a, b, limit := OffsetOf(l, i), OffsetOf(l, i + 1), |l.buffer|;
    var shared, rest := SharedAt(l, es, i), l.buffer[b..];
    SplitAt(data, l.buffer, a, b);
    KeyFits(l, es, i);
    EntryBack(shared, es[i], rest);
    PartsOf(data, a, limit, EncodeEntry(shared, es[i]), rest, HeaderSize(l, es, i), |es[i].key| - shared, |es[i].value|);
  }

  lemma PartsOf(data: Bytes, a: nat, limit: nat, entry: Bytes, rest: Bytes, h: nat, k: nat, v: nat)
    requires a <= limit <= |data| && data[a..limit] == entry + rest && h + k + v == |entry|
    ensures a + h + k + v <= limit
    ensures data[a + h..a + h + k] == (entry + rest)[h..h + k]
    ensures data[a + h + k..a + h + k + v] == (entry + rest)[h + k..h + k + v]
  {
    SliceOfSlice(data, a, limit, h, h + k);
    SliceOfSlice(data, a, limit, h + k, h + k + v);
  }

  lemma SliceOfSlice(data: Bytes, a: nat, limit: nat, i: nat, j: nat)
    requires a <= limit <= |data| && i <= j <= limit - a
    ensures data[a..limit][i..j] == data[a + i..a + j]
  {
    var s := data[a..limit];
    forall k | 0 <= k < j - i ensures s[i..j][k] == data[a + i..a + j][k] {
      assert s[i..j][k] == s[i + k] == data[a + (i + k)];
    }
  }

  lemma SplitAt(data: Bytes, buffer: Bytes, a: nat, b: nat)
    requires a <= b <= |buffer| <= |data| && data[..|buffer|] == buffer
    ensures data[a..|buffer|] == buffer[a..b] + buffer[b..]
  {}

  /** No key is longer than the block up to its end, however much it shares. */
  lemma {:induction false} KeyFits(l: Layout, es: seq<Pair>, i: nat)
    requires LaidOut(l, es) && i < |es|
    ensures |es[i].key| <= OffsetOf(l, i + 1)
    ensures |es[i].key| - SharedAt(l, es, i) + |es[i].value| <= OffsetOf(l, i + 1)
    decreases i
  {
    assert EntryLaid(l, es, i);
    if i > 0 {
      KeyFits(l, es, i - 1);
    }
  }

  datatype Taken = Taken(key: Bytes, valueStart: nat, valueLength: nat, corrupt: bool)

  /** The key on top of what it shares, and the value; lengths that make no sense are a corruption. */
  function Take(data: Bytes, p: nat, key: Bytes, r: Option<Lengths>): Taken {
    if r.None? || |key| < r.value.shared || p + r.value.used + r.value.nonShared > |data| then Taken([], 0, 0, true)
    else
      var delta := p + r.value.used;
      Taken(key[..r.value.shared] + data[delta..delta + r.value.nonShared], delta + r.value.nonShared, r.value.valueLength, false)
  }

  class BlockIter {
    const keyOf: Bytes -> InternalKey
    const data: Bytes
    const restarts: nat
    const numRestarts: nat
    var current: nat
    var restartIndex: nat
    var key: Bytes
    /** The value is a slice of the block. */
    var valueStart: nat
    var valueLength: nat
    var corrupt: bool
    ghost const l: Layout
    ghost const es: seq<Pair>
    ghost var pos: nat

    ghost predicate Fixed() {
      BlockOk(data, l, es, keyOf) && restarts == |l.buffer| && numRestarts == |l.starts|
    }

    /** The iterator stands at entry `i`, and is at or past the restart point it remembers. */
    ghost predicate AtEntry(i: nat)
      reads this
    {
      && Fixed() && i < |es| && current == OffsetOf(l, i)
      && key == es[i].key && valueStart + valueLength == OffsetOf(l, i + 1)
      && valueStart + valueLength <= |data| && data[valueStart..valueStart + valueLength] == es[i].value
      && restartIndex < numRestarts && l.starts[restartIndex] <= i
    }

    ghost predicate AtEnd()
      reads this
    {
      Fixed() && current == restarts && restartIndex == numRestarts
    }

    ghost predicate Inv()
      reads this
    {
      !corrupt && if pos == |es| then AtEnd() else AtEntry(pos)
    }

    ghost function Abs(): Cursor
      reads this
    {
      Cursor(EntriesOf(es, keyOf), pos)
    }

    /** Ready to parse entry `i`: the bytes before it are consumed, and the key has what it shares. */
    ghost predicate Before(i: nat)
      reads this
    {
      && Fixed() && !corrupt && i <= |es| && valueStart + valueLength == OffsetOf(l, i)
      && (i < |es| ==> SharedAt(l, es, i) == 0 || (i > 0 && key == es[i - 1].key))
      && restartIndex < numRestarts && l.starts[restartIndex] <= i
    }

    constructor (keyOf: Bytes -> InternalKey, data: Bytes, ghost l: Layout, ghost es: seq<Pair>)
      requires BlockOk(data, l, es, keyOf)
      ensures Inv() && !Abs().Valid() && this.l == l && this.es == es && this.keyOf == keyOf && this.data == data
    {
      TrailerOf(data, l, es, keyOf);
      this.keyOf, this.data := keyOf, data;
      numRestarts := DecodeFixed32(data[|data| - 4..]);
      restarts := |data| - (1 + DecodeFixed32(data[|data| - 4..])) * 4;
      current := |data| - (1 + DecodeFixed32(data[|data| - 4..])) * 4;
      restartIndex := DecodeFixed32(data[|data| - 4..]);
      key, valueStart, valueLength, corrupt := [], 0, 0, false;
      this.l, this.es, pos := l, es, |es|;
    }

    method Valid() returns (b: bool)
      requires Inv()
      ensures b == Abs().Valid()
    {
      b := current < restarts;
      if pos < |es| {
        EntryAt(data, l, es, keyOf, pos);
      }
    }

    method Current() returns (e: Entry)
      requires Inv() && Abs().Valid()
      ensures e == Abs().Current()
    {
      e := Entry(keyOf(key), data[valueStart..valueStart + valueLength]);
    }

    method GetRestartPoint(index: nat) returns (offset: nat)
      requires Fixed() && index < numRestarts
      ensures l.starts[index] <= |es| && offset == OffsetOf(l, l.starts[index])
    {
      RestartPointIs(data, l, es, keyOf, index);
      offset := DecodeFixed32(data[restarts + 4 * index..restarts + 4 * index + 4]);
    }

    method SeekToRestartPoint(index: nat)
      requires Fixed() && !corrupt && index < numRestarts
      modifies this
      ensures Before(l.starts[index]) && restartIndex == index && pos == old(pos)
    {
      key := [];
      restartIndex := index;
      valueStart := GetRestartPoint(index);
      valueLength := 0;
    }

    /** Moves to the next entry, if there is one. */
    method ParseNextKey(ghost i: nat) returns (ok: bool)
      requires Before(i)
      modifies this
      ensures ok == (i < |es|) && pos == i && Inv()
      ensures ok ==> Before(i + 1)
    {
      current := valueStart + valueLength;
      pos := i;
      OffsetsGrow(l, es, i, |es|);
      if current >= restarts {
        current := restarts;
        restartIndex := numRestarts;
        return false;
      }
      EntryAt(data, l, es, keyOf, i);
      var r := DecodeEntry(data[current..restarts]);
      TakeEntry(i, r);
      AdvanceRestartIndex(i);
      ok := !corrupt;
    }

    method TakeEntry(ghost i: nat, r: Option<Lengths>)
      requires Before(i) && i < |es| && current == OffsetOf(l, i)
      requires EntryIs(data, l, es, i, r)
      modifies `key, `valueStart, `valueLength, `corrupt
      ensures !corrupt && AtEntry(i)
    {
      EntryTaken(data, l, es, i, key, r);
      var t := Take(data, current, key, r);
      key, valueStart, valueLength, corrupt := t.key, t.valueStart, t.valueLength, t.corrupt;
    }

    method AdvanceRestartIndex(ghost i: nat)
      requires AtEntry(i)
      modifies `restartIndex
      ensures AtEntry(i)
    {
      while restartIndex + 1 < numRestarts
        invariant AtEntry(i)
        decreases numRestarts - restartIndex
      {
        var next := GetRestartPoint(restartIndex + 1);
        if next >= current {
          break;
        }
        StartsBeforeOffset(l, es, l.starts[restartIndex + 1], i);
        restartIndex := restartIndex + 1;
      }
    }

    method Next()
      requires Inv() && Abs().Valid()
      modifies this
      ensures Inv() && Abs() == old(Abs()).Next()
    {
      ReadyForNext();
      var ok := ParseNextKey(pos + 1);
    }

    lemma ReadyForNext()
      requires Inv() && pos < |es|
      ensures Before(pos + 1)
    {}

    /** Back to a restart point before the entry, then forward to the last entry before it. */
    method Prev()
      requires Inv() && Abs().Valid()
      modifies this
      ensures Inv() && Abs() == old(Abs()).Prev()
    {
      hide EntryLaid, DecodeEntry, EntriesOf, Sorted, EncodeEntry, Finished;
      var original := current;
      ghost var i := pos;
      var point := GetRestartPoint(restartIndex);
      while point >= original
        invariant AtEntry(i) && !corrupt && pos == i && original == OffsetOf(l, i)
        invariant point == OffsetOf(l, l.starts[restartIndex])
        decreases restartIndex
      {
        if restartIndex == 0 {
          FirstStart(l, es, i);
          current := restarts;
          restartIndex := numRestarts;
          pos := |es|;
          return;
        }
        restartIndex := restartIndex - 1;
        point := GetRestartPoint(restartIndex);
      }
      StartsBeforeOffset(l, es, l.starts[restartIndex], i);
      SeekToRestartPoint(restartIndex);
      WalkTo(l.starts[restartIndex], i - 1, original);
    }

    /** Parses entries until one ends at or after `limit`. */
    method WalkTo(ghost from: nat, ghost to: nat, limit: nat)
      requires Before(from) && from <= to && (|es| == 0 ==> to == 0) && (|es| > 0 ==> to < |es| && limit == OffsetOf(l, to + 1))
      modifies this
      ensures Inv() && pos == to
    {
      hide EntryLaid, DecodeEntry, EntriesOf, Sorted, EncodeEntry, Finished;
      ghost var i := from;
      var ok := ParseNextKey(i);
      while ok && valueStart + valueLength < limit
        invariant Inv() && pos == i && from <= i <= to && ok == (i < |es|) && (ok ==> Before(i + 1))
        decreases |es| - i
      {
        OffsetOrder(l, es, i + 1, to + 1);
        i := i + 1;
        ok := ParseNextKey(i);
      }
      if |es| > 0 {
        OffsetOrder(l, es, i + 1, to + 1);
      }
    }

    method SeekToFirst()
      requires Inv()
      modifies this
      ensures Inv() && Abs() == old(Abs()).SeekToFirst()
    {
      SeekToRestartPoint(0);
      var ok := ParseNextKey(0);
    }

    method SeekToLast()
      requires Inv()
      modifies this
      ensures Inv() && Abs() == old(Abs()).SeekToLast()
    {
      SeekToRestartPoint(numRestarts - 1);
      WalkTo(l.starts[numRestarts - 1], if |es| == 0 then 0 else |es| - 1, restarts);
    }

    /** The last restart point with a key before the target, or the first. */
    method FindRestart(target: InternalKey) returns (left: nat)
      requires Fixed()
      ensures left < numRestarts
      ensures left > 0 ==> l.starts[left] < |es| && Less(keyOf(es[l.starts[left]].key), target)
    {
      left := 0;
      var right: nat := numRestarts - 1;
      while left < right
        invariant left <= right < numRestarts
        invariant left > 0 ==> l.starts[left] < |es| && Less(keyOf(es[l.starts[left]].key), target)
      {
        var mid := (left + right + 1) / 2;
        var midKey := RestartKey(mid);
        if Compare(keyOf(midKey), target) < 0 {
          left := mid;
        } else {
          right := mid - 1;
        }
      }
    }

    /** The whole key stored at a restart point. */
    method RestartKey(index: nat) returns (k: Bytes)
      requires Fixed() && 0 < index < numRestarts
      ensures l.starts[index] < |es| && k == es[l.starts[index]].key
    {
      var offset := GetRestartPoint(index);
      EntryAt(data, l, es, keyOf, l.starts[index]);
      var r := DecodeEntry(data[offset..restarts]);
      k := data[offset + r.value.used..offset + r.value.used + r.value.nonShared];
      assert es[l.starts[index]].key[0..] == es[l.starts[index]].key;
    }

    method Seek(target: InternalKey)
      requires Inv()
      modifies this
      ensures Inv() && Abs() == old(Abs()).Seek(target)
    {
      var left := FindRestart(target);
      SeekToRestartPoint(left);
      ScanTo(target, l.starts[left]);
    }

    /** Linear search from a restart point that is not past the target. */
    method ScanTo(target: InternalKey, ghost from: nat)
      requires Before(from) && (from > 0 ==> from < |es| && Less(keyOf(es[from].key), target))
      modifies this
      ensures Inv() && pos == LowerBound(EntriesOf(es, keyOf), target)
    {
      ghost var i, entries := from, EntriesOf(es, keyOf);
      var ok := ParseNextKey(i);
      while ok && Compare(keyOf(key), target) < 0
        invariant Inv() && pos == i <= |es| && ok == (i < |es|) && (ok ==> Before(i + 1))
        invariant i == 0 || Less(entries[i - 1].key, target) || (i < |es| && Less(entries[i].key, target))
        decreases |es| - i
      {
        i := i + 1;
        ok := ParseNextKey(i);
      }
      LowerBoundIs(entries, target, pos);
    }

    method Do(call: Call) returns (seen: Option<Entry>)
      requires Inv()
      modifies this
      ensures Inv() && Abs() == Perform(old(Abs()), call) && seen == Observe(Abs())
    {
      var valid := Valid();
      match call {
        case First => SeekToFirst();
        case Last => SeekToLast();
        case To(k) => Seek(k);
        case Forward => if valid { Next(); }
        case Backward => if valid { Prev(); }
      }
      valid := Valid();
      if !valid {
        return None;
      }
      var e := Current();
      return Some(e);
    }

    /** Any sequence of calls shows what a plain cursor over the added entries would. */
    method Run(calls: seq<Call>) returns (seen: seq<Option<Entry>>)
      requires Inv()
      modifies this
      ensures Inv() && seen == Observations(old(Abs()), calls)
      decreases calls
    {
      if calls == [] {
        return [];
      }
      var e := Do(calls[0]);
      var rest := Run(calls[1..]);
      return [e] + rest;
    }
  }

  /** What an entry shares with the one before it is a prefix of both. */
  lemma SharedIsPrefix(l: Layout, es: seq<Pair>, i: nat)
    requires i < |es|
    ensures var n := SharedAt(l, es, i);
      n > 0 ==> i > 0 && n <= |es[i - 1].key| && es[i - 1].key[..n] + es[i].key[n..] == es[i].key
    ensures es[i].key[0..] == es[i].key
  {
    if i > 0 {
      CommonPrefixIs(es[i - 1].key, es[i].key);
    }
  }

  lemma EntryTaken(data: Bytes, l: Layout, es: seq<Pair>, i: nat, key: Bytes, r: Option<Lengths>)
    requires i < |es| == |l.offsets| && EntryIs(data, l, es, i, r)
    requires SharedAt(l, es, i) == 0 || (i > 0 && key == es[i - 1].key)
    ensures var t := Take(data, OffsetOf(l, i), key, r);
      && !t.corrupt && t.key == es[i].key && t.valueStart + t.valueLength == OffsetOf(l, i + 1) <= |data|
      && data[t.valueStart..t.valueStart + t.valueLength] == es[i].value
  {
    SharedIsPrefix(l, es, i);
  }

  lemma OffsetOrder(l: Layout, es: seq<Pair>, i: nat, j: nat)
    requires LaidOut(l, es) && i <= |es| && j <= |es|
    ensures OffsetOf(l, i) < OffsetOf(l, j) <==> i < j
  {
    if i < j {
      OffsetsGrow(l, es, i, j);
    } else {
      OffsetsGrow(l, es, j, i);
    }
  }

  lemma StartsBeforeOffset(l: Layout, es: seq<Pair>, start: nat, i: nat)
    requires LaidOut(l, es) && start <= |es| && i <= |es| && OffsetOf(l, start) < OffsetOf(l, i)
    ensures start < i
  {
    OffsetOrder(l, es, start, i);
  }

  lemma FirstStart(l: Layout, es: seq<Pair>, i: nat)
    requires LaidOut(l, es) && i <= |es| && OffsetOf(l, 0) >= OffsetOf(l, i)
    ensures i == 0
  {
    OffsetOrder(l, es, 0, i);
  }

  /** The last word counts the restart points and so tells where the array begins. */
  lemma TrailerOf(data: Bytes, l: Layout, es: seq<Pair>, keyOf: Bytes -> InternalKey)
    requires BlockOk(data, l, es, keyOf)
    ensures |data| >= 4 && DecodeFixed32(data[|data| - 4..]) == |l.starts|
    ensures |data| - (1 + |l.starts|) * 4 == |l.buffer|
  {
    var ws := Words(Restarts(l) + [|l.starts|]);
    var n := |l.starts|;
    ConcatAt(ws, n);
    SliceOfArray(l.buffer, Concat(ws), 4 * n, 4 * n + 4);
    WordBack(n);
    assert ws[n] == EncodeFixed(4, n);
    assert data[|data| - 4..] == data[|l.buffer| + 4 * n..|l.buffer| + 4 * n + 4];
  }
}
