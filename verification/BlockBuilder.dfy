/** The block builder (table/block_builder.cc). */
module BlockBuilding {
  import opened ByteStrings
  import opened Coding
  import opened Varints
  import opened BlockFormat

  class BlockBuilder {
    const restartInterval: nat
    var buffer: Bytes
    var restarts: seq<nat>
    var counter: nat
    var lastKey: Bytes
    /** The entries added so far. */
    ghost var es: seq<Pair>

    ghost predicate Valid()
      reads this
    {
      && restartInterval > 0
      && var l := Build(es, restartInterval);
         LaidOut(l, es) && buffer == l.buffer && restarts == Restarts(l) && counter == l.counter && lastKey == LastKey(es)
    }

    constructor (restartInterval: nat)
      requires restartInterval > 0
      ensures Valid() && es == []
    {
      this.restartInterval := restartInterval;
      buffer, restarts, counter, lastKey, es := [], [0], 0, [], [];
      new;
      BuildLaysOut(es, restartInterval);
      assert Restarts(Build([], restartInterval)) == [0];
    }

    /** Shares what the key has in common with the last one, except at a restart point. */
    method Add(key: Bytes, value: Bytes)
      requires Valid()
      modifies this
      ensures Valid() && es == old(es) + [Pair(key, value)]
    {
      AddedIs(es, Pair(key, value), restartInterval);
      AddEntry(key, value);
      es := es + [Pair(key, value)];
    }

    method AddEntry(key: Bytes, value: Bytes)
      modifies `buffer, `restarts, `counter, `lastKey
      ensures lastKey == key
      ensures if old(counter) < restartInterval then
          && buffer == old(buffer) + EncodeEntry(CommonPrefix(old(lastKey), key), Pair(key, value))
          && restarts == old(restarts) && counter == old(counter) + 1
        else
          buffer == old(buffer) + EncodeEntry(0, Pair(key, value)) && restarts == old(restarts) + [|old(buffer)|] && counter == 1
    {
      var shared := 0;
      if counter < restartInterval {
        shared := SharedPrefix(lastKey, key);
      } else {
        restarts := restarts + [|buffer|];
        counter := 0;
      }
      buffer := PutEntry(buffer, shared, key, value);
      Spliced(lastKey, key, shared);
      lastKey := lastKey[..shared] + key[shared..];
      counter := counter + 1;
    }

    method SharedPrefix(a: Bytes, b: Bytes) returns (shared: nat)
      ensures shared == CommonPrefix(a, b)
    {
      var minLength := if |a| < |b| then |a| else |b|;
      shared := 0;
      while shared < minLength && a[shared] == b[shared]
        invariant shared <= minLength && a[..shared] == b[..shared]
      {
        assert a[..shared + 1] == a[..shared] + [a[shared]] && b[..shared + 1] == b[..shared] + [b[shared]];
        shared := shared + 1;
      }
      CommonPrefixUnique(a, b, shared);
    }

    method PutEntry(buffer: Bytes, shared: nat, key: Bytes, value: Bytes) returns (r: Bytes)
      requires shared <= |key|
      ensures r == buffer + EncodeEntry(shared, Pair(key, value))
    {
      r := PutVarint(buffer, shared);
      r := PutVarint(r, |key| - shared);
      r := PutVarint(r, |value|);
      r := r + key[shared..];
      r := r + value;
      SixParts(buffer, EncodeVarint(shared), EncodeVarint(|key| - shared), EncodeVarint(|value|), key[shared..], value);
    }

    /** The entries, then the restart points and their number. */
    method Finish() returns (block: Bytes)
      requires Valid()
      ensures block == Finished(Build(es, restartInterval))
    {
      var words := [];
      for i := 0 to |restarts|
        invariant words == Words(restarts[..i])
      {
        words := words + [EncodeFixed(4, restarts[i])];
      }
      assert restarts[..|restarts|] == restarts;
      words := words + [EncodeFixed(4, |restarts|)];
      assert words == Words(restarts + [|restarts|]);
      block := buffer + Concat(words);
    }
  }

  lemma Spliced(last: Bytes, key: Bytes, shared: nat)
    requires shared == 0 || shared == CommonPrefix(last, key)
    ensures shared <= |last| && shared <= |key| && last[..shared] + key[shared..] == key
  {
    CommonPrefixIs(last, key);
  }

  lemma SixParts(a: Bytes, b: Bytes, c: Bytes, d: Bytes, e: Bytes, f: Bytes)
    ensures a + b + c + d + e + f == a + (b + (c + d) + (e + f))
  {}

  lemma AddedIs(es: seq<Pair>, e: Pair, interval: nat)
    requires interval > 0
    ensures var l, l2 := Build(es, interval), Build(es + [e], interval);
      && LaidOut(l, es) && LaidOut(l2, es + [e])
      && l2 == Append(l, LastKey(es), e, interval) && LastKey(es + [e]) == e.key
      && Restarts(l2) == if l.counter < interval then Restarts(l) else Restarts(l) + [|l.buffer|]
  {
    BuildLaysOut(es, interval);
    BuildLaysOut(es + [e], interval);
    assert (es + [e])[..|es|] == es;
    var l, l2 := Build(es, interval), Build(es + [e], interval);
    RestartsAppended(l, l2, es, interval);
  }

  lemma RestartsAppended(l: Layout, l2: Layout, es: seq<Pair>, interval: nat)
    requires LaidOut(l, es) && StartsOk(l2) && l2.offsets == l.offsets + [|l.buffer|]
    requires l2.starts == if l.counter < interval then l.starts else l.starts + [|l.offsets|]
    requires l.offsets == [] ==> l.buffer == []
    ensures Restarts(l2) == if l.counter < interval then Restarts(l) else Restarts(l) + [|l.buffer|]
  {
    forall j | 0 <= j < |l.starts| ensures Restarts(l2)[j] == Restarts(l)[j] {
      assert l2.starts[j] == l.starts[j];
    }
  }
}
