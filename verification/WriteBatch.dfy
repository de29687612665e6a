/** Write batches (db/write_batch.cc): a byte string that holds operations in order, and what applying
    them to a memtable means. */
module WriteBatches {
  import opened ByteStrings
  import opened Keys
  import opened Coding
  import opened Varints

  datatype Op<K> = Put(key: K, value: Bytes) | Delete(key: K)

  /** An operation as the engine sees it. */
  type Operation = Op<UserKey>

  function EntryFor(op: Operation, sequence: nat): Entry {
    match op
    case Put(u, v) => Entry(InternalKey(u, sequence, Value), v)
    case Delete(u) => Entry(InternalKey(u, sequence, Deletion), [])
  }

  /** A batch takes consecutive sequence numbers. */
  function EntriesFor(batch: seq<Operation>, first: nat): (entries: seq<Entry>)
    ensures |entries| == |batch|
  {
    seq(|batch|, i requires 0 <= i < |batch| => EntryFor(batch[i], first + i))
  }

  /** Batches appended to one another keep their own intervals. */
  lemma EntriesForJoin(a: seq<Operation>, b: seq<Operation>, first: nat)
    ensures EntriesFor(a + b, first) == EntriesFor(a, first) + EntriesFor(b, first + |a|)
  {}

  // ---- The byte string -----------------------------------------------------------------------------

  const HEADER := 12
  const TAG_DELETION: Byte := 0
  const TAG_VALUE: Byte := 1

  /** Lengths are 32 bits wide. */
  predicate Fits(op: Op<Bytes>) {
    |op.key| < TWO_32 && (op.Put? ==> |op.value| < TWO_32)
  }

  ghost predicate AllFit(ops: seq<Op<Bytes>>) {
    forall i :: 0 <= i < |ops| ==> Fits(ops[i])
  }

  function EncodeOp(op: Op<Bytes>): (b: Bytes)
    ensures b != []
  {
    match op
    case Put(k, v) => [TAG_VALUE] + Prefixed(k) + Prefixed(v)
    case Delete(k) => [TAG_DELETION] + Prefixed(k)
  }

  function EncodeOps(ops: seq<Op<Bytes>>): Bytes {
    if ops == [] then [] else EncodeOps(ops[..|ops| - 1]) + EncodeOp(ops[|ops| - 1])
  }

  datatype Status = Good | TooSmall | BadPut | BadDelete | UnknownTag | WrongCount

  datatype ParsedOp = ParsedOp(op: Op<Bytes>, used: nat) | Malformed(status: Status)

  function ParseOp(b: Bytes): (r: ParsedOp)
    requires b != []
    ensures r.ParsedOp? ==> 0 < r.used <= |b|
  {
    if b[0] == TAG_VALUE then
      var key := GetLengthPrefixed(b[1..]);
      if key.None? then Malformed(BadPut)
      else
        var value := GetLengthPrefixed(b[1 + key.value.used..]);
        if value.None? then Malformed(BadPut)
        else ParsedOp(Put(key.value.data, value.value.data), 1 + key.value.used + value.value.used)
    else if b[0] == TAG_DELETION then
      var key := GetLengthPrefixed(b[1..]);
      if key.None? then Malformed(BadDelete) else ParsedOp(Delete(key.value.data), 1 + key.value.used)
    else Malformed(UnknownTag)
  }

  /** The operations up to the first malformed one. */
  function ParseOps(b: Bytes): (seq<Op<Bytes>>, Status)
    decreases |b|
  {
    if b == [] then ([], Good)
    else
      match ParseOp(b)
      case Malformed(status) => ([], status)
      case ParsedOp(op, used) =>
        var (ops, status) := ParseOps(b[used..]);
        ([op] + ops, status)
  }

  lemma OpRoundTrip(op: Op<Bytes>, rest: Bytes)
    requires Fits(op)
    ensures ParseOp(EncodeOp(op) + rest) == ParsedOp(op, |EncodeOp(op)|)
  {
    match op
    case Put(k, v) => PutRoundTrip(k, v, rest);
    case Delete(k) =>
      assert (EncodeOp(op) + rest)[1..] == Prefixed(k) + rest;
      PrefixedRoundTrip(k, rest);
  }

  lemma PutRoundTrip(k: Bytes, v: Bytes, rest: Bytes)
    requires Fits(Op.Put(k, v))
    ensures ParseOp(EncodeOp(Op.Put(k, v)) + rest) == ParsedOp(Op.Put(k, v), |EncodeOp(Op.Put(k, v))|)
  {
    hide ParseOp, EncodeVarint, GetLengthPrefixed;
    var pk, pv := Prefixed(k), Prefixed(v);
    var b := EncodeOp(Op.Put(k, v)) + rest;
    TailsOf(TAG_VALUE, pk, pv, rest);
    PrefixedRoundTrip(k, pv + rest);
    PrefixedRoundTrip(v, rest);
    ParsePut(b, Slice(k, |pk|), Slice(v, |pv|));
  }

  lemma TailsOf(tag: Byte, x: Bytes, y: Bytes, rest: Bytes)
    ensures var b := [tag] + x + y + rest;
            b[0] == tag && b[1..] == x + (y + rest) && b[1 + |x|..] == y + rest
  {}

  lemma ParsePut(b: Bytes, key: Slice, value: Slice)
    requires b != [] && b[0] == TAG_VALUE && 1 + key.used <= |b|
    requires GetLengthPrefixed(b[1..]) == Some(key) && GetLengthPrefixed(b[1 + key.used..]) == Some(value)
    ensures ParseOp(b) == ParsedOp(Op.Put(key.data, value.data), 1 + key.used + value.used)
  {}

  lemma EncodeOpsHead(ops: seq<Op<Bytes>>)
    requires ops != []
    ensures EncodeOps(ops) == EncodeOp(ops[0]) + EncodeOps(ops[1..])
  {
    assert ops == [ops[0]] + ops[1..];
    EncodeOpsJoin([ops[0]], ops[1..]);
    assert EncodeOps([ops[0]]) == EncodeOp(ops[0]) by {
      assert [ops[0]][..0] == [];
    }
  }

  lemma {:induction false} EncodeOpsJoin(a: seq<Op<Bytes>>, b: seq<Op<Bytes>>)
    ensures EncodeOps(a + b) == EncodeOps(a) + EncodeOps(b)
    decreases b
  {
    if b == [] {
      assert a + b == a;
    } else {
      var n := |b| - 1;
      EncodeOpsJoin(a, b[..n]);
      assert (a + b)[..|a + b| - 1] == a + b[..n] && (a + b)[|a + b| - 1] == b[n];
      Associative(EncodeOps(a), EncodeOps(b[..n]), EncodeOp(b[n]));
    }
  }

  lemma ParseOpsStep(b: Bytes, op: Op<Bytes>, used: nat, rest: Bytes)
    requires b != [] && ParseOp(b) == ParsedOp(op, used) && b[used..] == rest
    ensures ParseOps(b) == ([op] + ParseOps(rest).0, ParseOps(rest).1)
  {}

  /** Iterating over what was appended gives the operations back. */
  lemma {:induction false} OpsRoundTrip(ops: seq<Op<Bytes>>)
    requires AllFit(ops)
    ensures ParseOps(EncodeOps(ops)) == (ops, Good)
  {
    if ops != [] {
      EncodeOpsHead(ops);
      OpRoundTrip(ops[0], EncodeOps(ops[1..]));
      OpsRoundTrip(ops[1..]);
      ParseOpsStep(EncodeOps(ops), ops[0], |EncodeOp(ops[0])|, EncodeOps(ops[1..]));
      assert [ops[0]] + ops[1..] == ops;
    }
  }

  /** Before a malformed operation all others are found. */
  lemma {:induction false} OpsBeforeMalformed(ops: seq<Op<Bytes>>, b: Bytes)
    requires AllFit(ops) && b != [] && ParseOp(b).Malformed?
    ensures ParseOps(EncodeOps(ops) + b) == (ops, ParseOp(b).status)
    decreases |ops|
  {
    hide ParseOp, EncodeOp;
    if ops == [] {
      assert EncodeOps(ops) + b == b;
    } else {
      var rest := EncodeOps(ops[1..]) + b;
      EncodeOpsHead(ops);
      Associative(EncodeOp(ops[0]), EncodeOps(ops[1..]), b);
      OpRoundTrip(ops[0], rest);
      OpsBeforeMalformed(ops[1..], b);
      ParseOpsStep(EncodeOps(ops) + b, ops[0], |EncodeOp(ops[0])|, rest);
      assert [ops[0]] + ops[1..] == ops;
    }
  }

  lemma FourParts(a: Bytes, b: Bytes, c: Bytes, d: Bytes)
    ensures a + b + c + d == a + (b + c + d)
  {}

  /** The sequence number, the count and the operations in order. */
  ghost predicate IsBatch(rep: Bytes, sequence: nat, ops: seq<Op<Bytes>>) {
    && AllFit(ops) && |rep| >= HEADER
    && rep[..8] == EncodeFixed(8, sequence) && DecodeFixed32(rep[8..HEADER]) == |ops| && rep[HEADER..] == EncodeOps(ops)
  }

  /** A payload appended under a corrected count. */
  lemma IsLongerBatch(rep: Bytes, rep2: Bytes, sequence: nat, ops: seq<Op<Bytes>>, ops2: seq<Op<Bytes>>)
    requires IsBatch(rep, sequence, ops) && AllFit(ops2) && |rep2| >= HEADER
    requires rep2[..8] == rep[..8] && DecodeFixed32(rep2[8..HEADER]) == |ops| + |ops2|
    requires rep2[HEADER..] == rep[HEADER..] + EncodeOps(ops2)
    ensures IsBatch(rep2, sequence, ops + ops2)
  {
    EncodeOpsJoin(ops, ops2);
  }

  lemma IsOneMore(rep: Bytes, rep2: Bytes, sequence: nat, ops: seq<Op<Bytes>>, op: Op<Bytes>)
    requires IsBatch(rep, sequence, ops) && Fits(op) && |rep2| >= HEADER
    requires rep2[..8] == rep[..8] && DecodeFixed32(rep2[8..HEADER]) == |ops| + 1
    requires rep2[HEADER..] == rep[HEADER..] + EncodeOp(op)
    ensures IsBatch(rep2, sequence, ops + [op])
  {
    assert [op][..0] == [] && EncodeOps([op]) == EncodeOp(op);
    IsLongerBatch(rep, rep2, sequence, ops, [op]);
  }

  lemma AfterHeader(rep: Bytes, more: Bytes)
    requires |rep| >= HEADER
    ensures (rep + more)[..8] == rep[..8] && (rep + more)[8..HEADER] == rep[8..HEADER]
    ensures (rep + more)[HEADER..] == rep[HEADER..] + more
  {}

  lemma Replaced(header: Bytes, rep: Bytes)
    requires |header| == 8 && |rep| >= HEADER
    ensures var r := header + rep[8..];
            |r| == |rep| && r[..8] == header && r[8..HEADER] == rep[8..HEADER] && r[HEADER..] == rep[HEADER..]
  {}

  class WriteBatch {
    var rep: Bytes

    /** The batch holds these operations, under this sequence number. */
    ghost predicate Holds(sequence: nat, ops: seq<Op<Bytes>>)
      reads this
    {
      IsBatch(rep, sequence, ops)
    }

    constructor ()
      ensures Holds(0, [])
    {
      Fixed32RoundTrip(0, []);
      assert EncodeFixed32(0) + [] == EncodeFixed32(0);
      var header, count := EncodeFixed(8, 0), EncodeFixed32(0);
      var r := header + count;
      assert r[..8] == header && r[8..HEADER] == count && r[HEADER..] == [];
      rep := r;
    }

    method Count() returns (n: nat)
      requires |rep| >= HEADER
      ensures n == DecodeFixed32(rep[8..HEADER])
    {
      n := DecodeFixed32(rep[8..HEADER]);
    }

    method SetCount(n: nat)
      requires |rep| >= HEADER && n < TWO_32
      modifies this
      ensures |rep| == old(|rep|) && rep[..8] == old(rep[..8]) && rep[HEADER..] == old(rep[HEADER..])
      ensures DecodeFixed32(rep[8..HEADER]) == n
    {
      var count := EncodeFixed32(n);
      Fixed32RoundTrip(n, []);
      assert count + [] == count;
      rep := rep[..8] + count + rep[HEADER..];
      assert rep[8..HEADER] == count;
    }

    method SetSequence(sequence: nat, ghost before: nat, ghost ops: seq<Op<Bytes>>)
      requires Holds(before, ops)
      modifies this
      ensures Holds(sequence, ops)
    {
      var header := EncodeFixed(8, sequence);
      Replaced(header, rep);
      rep := header + rep[8..];
    }

    method Put(key: Bytes, value: Bytes, ghost sequence: nat, ghost ops: seq<Op<Bytes>>)
      requires Holds(sequence, ops) && |ops| + 1 < TWO_32 && Fits(Op.Put(key, value))
      modifies this
      ensures Holds(sequence, ops + [Op.Put(key, value)])
    {
      ghost var before := rep;
      var n := Count();
      SetCount(n + 1);
      ghost var counted := rep;
      rep := rep + [TAG_VALUE];
      rep := rep + Prefixed(key);
      rep := rep + Prefixed(value);
      FourParts(counted, [TAG_VALUE], Prefixed(key), Prefixed(value));
      AfterHeader(counted, EncodeOp(Op.Put(key, value)));
      IsOneMore(before, rep, sequence, ops, Op.Put(key, value));
    }

    method Delete(key: Bytes, ghost sequence: nat, ghost ops: seq<Op<Bytes>>)
      requires Holds(sequence, ops) && |ops| + 1 < TWO_32 && Fits(Op.Delete(key))
      modifies this
      ensures Holds(sequence, ops + [Op.Delete(key)])
    {
      ghost var before := rep;
      var n := Count();
      SetCount(n + 1);
      ghost var counted := rep;
      rep := rep + [TAG_DELETION];
      rep := rep + Prefixed(key);
      Associative(counted, [TAG_DELETION], Prefixed(key));
      AfterHeader(counted, EncodeOp(Op.Delete(key)));
      IsOneMore(before, rep, sequence, ops, Op.Delete(key));
    }

    /** Appends the operations of another batch, or of this one, without its header. */
    method Append(src: WriteBatch, ghost sequence: nat, ghost ops: seq<Op<Bytes>>, ghost sequence2: nat, ghost ops2: seq<Op<Bytes>>)
      requires Holds(sequence, ops) && src.Holds(sequence2, ops2) && |ops| + |ops2| < TWO_32
      modifies this
      ensures Holds(sequence, ops + ops2)
    {
      hide EncodeOps, AllFit, DecodeFixed, EncodeFixed;
      ghost var before := rep;
      var a := Count();
      var b := src.Count();
      SetCount(a + b);
      ghost var counted := rep;
      // The source may be this batch itself: its operations are still the same.
      assert src.rep[HEADER..] == EncodeOps(ops2);
      AfterHeader(counted, src.rep[HEADER..]);
      rep := rep + src.rep[HEADER..];
      IsLongerBatch(before, rep, sequence, ops, ops2);
    }

    /** Hands the operations to a handler, here a list, one after the other; those before a malformed
        one are handled. */
    method Iterate() returns (handled: seq<Op<Bytes>>, status: Status)
      ensures |rep| < HEADER ==> handled == [] && status == TooSmall
      ensures |rep| >= HEADER ==>
        var (ops, s) := ParseOps(rep[HEADER..]);
        handled == ops && status == if s == Good && |ops| != DecodeFixed32(rep[8..HEADER]) then WrongCount else s
    {
      handled := [];
      if |rep| < HEADER {
        return handled, TooSmall;
      }
      var input := rep[HEADER..];
      ghost var all := ParseOps(input);
      while input != []
        invariant all.0 == handled + ParseOps(input).0 && all.1 == ParseOps(input).1
        decreases |input|
      {
        match ParseOp(input) {
          case Malformed(s) =>
            assert handled + [] == handled;
            return handled, s;
          case ParsedOp(op, used) =>
            handled := handled + [op];
            input := input[used..];
        }
      }
      assert handled + [] == handled;
      var n := Count();
      status := if |handled| != n then WrongCount else Good;
    }

    /** A batch that was built by the operations above hands them over in order. */
    method IterateBuilt(ghost sequence: nat, ghost ops: seq<Op<Bytes>>) returns (handled: seq<Op<Bytes>>, status: Status)
      requires Holds(sequence, ops)
      ensures handled == ops && status == Good
    {
      OpsRoundTrip(ops);
      handled, status := Iterate();
    }
  }
}
