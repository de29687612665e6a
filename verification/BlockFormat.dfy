/** The layout of a block (table/block_builder.cc): prefix-compressed entries, then the restart array. */
module BlockFormat {
  import opened ByteStrings
  import opened Keys
  import opened Coding
  import opened Varints

  datatype Pair = Pair(key: Bytes, value: Bytes)

  function CommonPrefix(a: Bytes, b: Bytes): (n: nat)
    ensures n <= |a| && n <= |b|
  {
    if a == [] || b == [] || a[0] != b[0] then 0 else 1 + CommonPrefix(a[1..], b[1..])
  }

  lemma {:induction false} CommonPrefixIs(a: Bytes, b: Bytes)
    ensures a[..CommonPrefix(a, b)] == b[..CommonPrefix(a, b)]
    ensures var n := CommonPrefix(a, b); n < |a| && n < |b| ==> a[n] != b[n]
  {
    if a != [] && b != [] && a[0] == b[0] {
      CommonPrefixIs(a[1..], b[1..]);
      var n := CommonPrefix(a[1..], b[1..]);
      assert a[..n + 1] == [a[0]] + a[1..][..n];
      assert b[..n + 1] == [b[0]] + b[1..][..n];
    }
  }

  lemma {:induction false} CommonPrefixUnique(a: Bytes, b: Bytes, n: nat)
    requires n <= |a| && n <= |b| && a[..n] == b[..n]
    requires n < |a| && n < |b| ==> a[n] != b[n]
    ensures CommonPrefix(a, b) == n
  {
    if n > 0 {
      assert a[0] == a[..n][0] == b[..n][0] == b[0];
      assert a[1..][..n - 1] == a[..n][1..] == b[..n][1..] == b[1..][..n - 1];
      CommonPrefixUnique(a[1..], b[1..], n - 1);
    }
  }

  /** Three lengths, the part of the key that is not shared, the value. */
  function EncodeEntry(shared: nat, e: Pair): Bytes
    requires shared <= |e.key|
  {
    EncodeLengths(shared, |e.key| - shared, |e.value|) + (e.key[shared..] + e.value)
  }

  function EncodeLengths(shared: nat, nonShared: nat, valueLength: nat): (b: Bytes)
    ensures |b| >= 3
  {
    EncodeVarint(shared) + (EncodeVarint(nonShared) + EncodeVarint(valueLength))
  }

  datatype Lengths = Lengths(shared: nat, nonShared: nat, valueLength: nat, used: nat)

  /** The lengths at the head of `b`, unless they do not fit into it.  Three small numbers are read
      without looking for continuation bytes. */
  function DecodeEntry(b: Bytes): (r: Option<Lengths>)
    ensures r.Some? ==> 0 < r.value.used <= |b|
  {
    if |b| < 3 then None
    else
      var r := if b[0] < 128 && b[1] < 128 && b[2] < 128 then Some(Lengths(b[0], b[1], b[2], 3)) else DecodeLengths(b);
      if r.None? || |b| - r.value.used < (r.value.nonShared + r.value.valueLength) % TWO_32 then None else r
  }

  function DecodeLengths(b: Bytes): (r: Option<Lengths>)
    ensures r.Some? ==> 0 < r.value.used <= |b|
  {
    var s := GetVarint32(b);
    if s.None? then None
    else
      var n := GetVarint32(b[s.value.used..]);
      if n.None? then None
      else
        var v := GetVarint32(b[s.value.used + n.value.used..]);
        if v.None? then None
        else Some(Lengths(s.value.value, n.value.value, v.value.value, s.value.used + n.value.used + v.value.used))
  }

  lemma LengthsBack(shared: nat, nonShared: nat, valueLength: nat, rest: Bytes)
    requires shared < TWO_32 && nonShared < TWO_32 && valueLength < TWO_32
    ensures var h := EncodeLengths(shared, nonShared, valueLength);
            DecodeLengths(h + rest) == Some(Lengths(shared, nonShared, valueLength, |h|))
  {
    var a, b, c := EncodeVarint(shared), EncodeVarint(nonShared), EncodeVarint(valueLength);
    EntryTails(a, b, c, rest);
    Varint32RoundTrip(shared, b + (c + rest));
    Varint32RoundTrip(nonShared, c + rest);
    Varint32RoundTrip(valueLength, rest);
    ThreeVarints(a + (b + c) + rest, Parsed(shared, |a|), Parsed(nonShared, |b|), Parsed(valueLength, |c|));
  }

  lemma EntryTails(a: Bytes, b: Bytes, c: Bytes, rest: Bytes)
    ensures var all := a + (b + c) + rest;
            all == a + (b + (c + rest)) && all[|a|..] == b + (c + rest) && all[|a| + |b|..] == c + rest
  {}

  lemma ThreeVarints(b: Bytes, s: Parsed, n: Parsed, v: Parsed)
    requires s.used + n.used <= |b|
    requires GetVarint32(b) == Some(s) && GetVarint32(b[s.used..]) == Some(n) && GetVarint32(b[s.used + n.used..]) == Some(v)
    ensures DecodeLengths(b) == Some(Lengths(s.value, n.value, v.value, s.used + n.used + v.used))
  {}

  /** The fast path reads what the slow one would. */
  lemma FastPath(b: Bytes)
    requires |b| >= 3 && b[0] < 128 && b[1] < 128 && b[2] < 128
    ensures DecodeLengths(b) == Some(Lengths(b[0], b[1], b[2], 3))
  {
    assert DecodeVarint(b, 5) == Some(Parsed(b[0], 1));
    assert DecodeVarint(b[1..], 5) == Some(Parsed(b[1], 1));
    assert DecodeVarint(b[2..], 5) == Some(Parsed(b[2], 1));
  }

  lemma EntryBack(shared: nat, e: Pair, rest: Bytes)
    requires shared <= |e.key| && shared < TWO_32 && |e.key| - shared + |e.value| < TWO_32
    ensures var h := EncodeLengths(shared, |e.key| - shared, |e.value|);
            && DecodeEntry(EncodeEntry(shared, e) + rest) == Some(Lengths(shared, |e.key| - shared, |e.value|, |h|))
            && (EncodeEntry(shared, e) + rest)[|h|..|h| + |e.key| - shared] == e.key[shared..]
            && (EncodeEntry(shared, e) + rest)[|h| + |e.key| - shared..|h| + |e.key| - shared + |e.value|] == e.value
  {
    hide EncodeLengths, DecodeLengths, DecodeEntry;
    var h, k := EncodeLengths(shared, |e.key| - shared, |e.value|), e.key[shared..];
    LengthsBack(shared, |k|, |e.value|, k + e.value + rest);
    HeadBack(h, k, e.value, rest, Lengths(shared, |k|, |e.value|, |h|));
  }

  lemma HeadBack(h: Bytes, k: Bytes, v: Bytes, rest: Bytes, l: Lengths)
    requires |h| >= 3 && DecodeLengths(h + (k + v + rest)) == Some(l)
    requires l.used == |h| && l.nonShared == |k| && l.valueLength == |v| && |k| + |v| < TWO_32
    ensures var b := h + (k + v) + rest;
            DecodeEntry(b) == Some(l) && b[|h|..|h| + |k|] == k && b[|h| + |k|..|h| + |k| + |v|] == v
  {
    Pieces(h, k, v, rest);
    EitherPath(h + (k + v + rest), l);
  }

  lemma Pieces(h: Bytes, k: Bytes, v: Bytes, rest: Bytes)
    ensures var b := h + (k + v) + rest;
            b == h + (k + v + rest) && b[|h|..|h| + |k|] == k && b[|h| + |k|..|h| + |k| + |v|] == v
  {}

  lemma EitherPath(b: Bytes, l: Lengths)
    requires |b| >= 3 && DecodeLengths(b) == Some(l)
    requires l.nonShared + l.valueLength < TWO_32 && l.used + l.nonShared + l.valueLength <= |b|
    ensures DecodeEntry(b) == Some(l)
  {
    if b[0] < 128 && b[1] < 128 && b[2] < 128 {
      FastPath(b);
    }
  }

  // ---- The whole block -----------------------------------------------------------------------------

  /** What a builder has written: the bytes, where each entry begins, which entries are restart points, and
      how many entries followed the last one. */
  datatype Layout = Layout(buffer: Bytes, offsets: seq<nat>, starts: seq<nat>, counter: nat)

  function LastKey(es: seq<Pair>): Bytes {
    if es == [] then [] else es[|es| - 1].key
  }

  function Append(l: Layout, last: Bytes, e: Pair, interval: nat): Layout {
    var n := |l.offsets|;
    if l.counter < interval then
      Layout(l.buffer + EncodeEntry(CommonPrefix(last, e.key), e), l.offsets + [|l.buffer|], l.starts, l.counter + 1)
    else
      Layout(l.buffer + EncodeEntry(0, e), l.offsets + [|l.buffer|], l.starts + [n], 1)
  }

  function Build(es: seq<Pair>, interval: nat): (l: Layout)
    ensures |l.offsets| == |es|
  {
    if es == [] then Layout([], [], [0], 0)
    else Append(Build(es[..|es| - 1], interval), LastKey(es[..|es| - 1]), es[|es| - 1], interval)
  }

  /** The offset after entry `i - 1`, where entry `i` begins if there is one. */
  function OffsetOf(l: Layout, i: nat): nat
    requires i <= |l.offsets|
  {
    if i < |l.offsets| then l.offsets[i] else |l.buffer|
  }

  /** How much of the previous key entry `i` shares. */
  function SharedAt(l: Layout, es: seq<Pair>, i: nat): (n: nat)
    requires i < |es|
    ensures n <= |es[i].key|
  {
    if i in l.starts || i == 0 then 0 else CommonPrefix(es[i - 1].key, es[i].key)
  }

  ghost predicate EntryLaid(l: Layout, es: seq<Pair>, i: nat)
    requires i < |es| == |l.offsets|
  {
    && OffsetOf(l, i) <= OffsetOf(l, i + 1) <= |l.buffer|
    && l.buffer[OffsetOf(l, i)..OffsetOf(l, i + 1)] == EncodeEntry(SharedAt(l, es, i), es[i])
  }

  /** Restart points are increasing entry numbers; the first is entry 0, even of an empty block. */
  ghost predicate StartsOk(l: Layout) {
    && l.starts != [] && l.starts[0] == 0
    && (forall j :: 0 < j < |l.starts| ==> l.starts[j] < |l.offsets|)
    && (forall i, j :: 0 <= i < j < |l.starts| ==> l.starts[i] < l.starts[j])
  }

  ghost predicate LaidOut(l: Layout, es: seq<Pair>) {
    && |l.offsets| == |es| && StartsOk(l) && OffsetOf(l, 0) == 0
    && forall i :: 0 <= i < |es| ==> EntryLaid(l, es, i)
  }

  lemma AppendStarts(l: Layout, last: Bytes, e: Pair, interval: nat)
    requires StartsOk(l) && interval > 0 && (l.offsets == [] ==> l.counter == 0)
    ensures StartsOk(Append(l, last, e, interval))
    ensures forall i :: i < |l.offsets| ==> (i in Append(l, last, e, interval).starts <==> i in l.starts)
    ensures |l.offsets| in Append(l, last, e, interval).starts <==> |l.offsets| == 0 || l.counter >= interval
  {}

  lemma AppendKeepsEntry(l: Layout, l2: Layout, es: seq<Pair>, e: Pair, more: Bytes, i: nat)
    requires |l.offsets| == |es| && i < |es| && EntryLaid(l, es, i)
    requires l2.buffer == l.buffer + more && l2.offsets == l.offsets + [|l.buffer|] && (i in l2.starts <==> i in l.starts)
    ensures EntryLaid(l2, es + [e], i)
  {
    assert OffsetOf(l2, i) == OffsetOf(l, i) && OffsetOf(l2, i + 1) == OffsetOf(l, i + 1);
    assert l2.buffer[OffsetOf(l, i)..OffsetOf(l, i + 1)] == l.buffer[OffsetOf(l, i)..OffsetOf(l, i + 1)];
  }

  lemma AppendLaysOut(l: Layout, es: seq<Pair>, e: Pair, interval: nat)
    requires LaidOut(l, es) && interval > 0 && (es == [] ==> l.counter == 0 && l.buffer == [])
    ensures LaidOut(Append(l, LastKey(es), e, interval), es + [e])
  {
    var l2 := Append(l, LastKey(es), e, interval);
    AppendStarts(l, LastKey(es), e, interval);
    var n := |es|;
    var shared := if l.counter < interval then CommonPrefix(LastKey(es), e.key) else 0;
    forall i | 0 <= i < n ensures EntryLaid(l2, es + [e], i) {
      AppendKeepsEntry(l, l2, es, e, EncodeEntry(shared, e), i);
    }
    assert SharedAt(l2, es + [e], n) == shared;
    AppendedEntry(l, l2, es, e, shared);
  }

  lemma AppendedEntry(l: Layout, l2: Layout, es: seq<Pair>, e: Pair, shared: nat)
    requires |l.offsets| == |es| && shared <= |e.key|
    requires l2.buffer == l.buffer + EncodeEntry(shared, e) && l2.offsets == l.offsets + [|l.buffer|]
    requires SharedAt(l2, es + [e], |es|) == shared
    ensures EntryLaid(l2, es + [e], |es|)
  {
    assert OffsetOf(l2, |es|) == |l.buffer| && OffsetOf(l2, |es| + 1) == |l2.buffer|;
    SliceOfSecond(l.buffer, EncodeEntry(shared, e));
  }

  /** What a builder writes is laid out as the iterator expects. */
  lemma {:induction false} BuildLaysOut(es: seq<Pair>, interval: nat)
    requires interval > 0
    ensures LaidOut(Build(es, interval), es)
    ensures es == [] ==> Build(es, interval).counter == 0 && Build(es, interval).buffer == []
  {
    if es != [] {
      var n := |es| - 1;
      BuildLaysOut(es[..n], interval);
      AppendLaysOut(Build(es[..n], interval), es[..n], es[n], interval);
      assert es[..n] + [es[n]] == es;
    }
  }

  lemma {:induction false} OffsetsGrow(l: Layout, es: seq<Pair>, i: nat, j: nat)
    requires LaidOut(l, es) && i <= j <= |es|
    ensures OffsetOf(l, i) + 3 * (j - i) <= OffsetOf(l, j) <= |l.buffer|
    decreases j
  {
    if i < j {
      OffsetsGrow(l, es, i, j - 1);
      assert EntryLaid(l, es, j - 1);
    } else if j < |es| {
      assert EntryLaid(l, es, j);
    }
  }

  // ---- The restart array ----------------------------------------------------------------------------

  type Word = b: Bytes | |b| == 4 witness [0, 0, 0, 0]

  function Concat(ws: seq<Word>): (b: Bytes)
    ensures |b| == 4 * |ws|
  {
    if ws == [] then [] else Concat(ws[..|ws| - 1]) + ws[|ws| - 1]
  }

  lemma {:induction false} ConcatAt(ws: seq<Word>, i: nat)
    requires i < |ws|
    ensures Concat(ws)[4 * i..4 * i + 4] == ws[i]
  {
    var n := |ws| - 1;
    if i < n {
      ConcatAt(ws[..n], i);
      SliceOfFirst(Concat(ws[..n]), ws[n], 4 * i, 4 * i + 4);
    } else {
      SliceOfSecond(Concat(ws[..n]), ws[n]);
    }
  }

  function Words(xs: seq<nat>): seq<Word> {
    seq(|xs|, i requires 0 <= i < |xs| => EncodeFixed(4, xs[i]))
  }

  lemma SliceOfFirst(a: Bytes, b: Bytes, i: nat, j: nat)
    requires i <= j <= |a|
    ensures (a + b)[i..j] == a[i..j]
  {}

  lemma SliceOfSecond(a: Bytes, b: Bytes)
    ensures (a + b)[|a|..|a| + |b|] == b
  {}

  function Restarts(l: Layout): seq<nat>
    requires StartsOk(l)
  {
    seq(|l.starts|, j requires 0 <= j < |l.starts| => OffsetOf(l, if l.starts[j] <= |l.offsets| then l.starts[j] else 0))
  }

  /** The finished block. */
  function Finished(l: Layout): Bytes
    requires StartsOk(l)
  {
    l.buffer + Concat(Words(Restarts(l) + [|l.starts|]))
  }
}
