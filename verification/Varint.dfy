/** Variable-length integers and length-prefixed strings (util/coding.cc). */
module Varints {
  import opened ByteStrings
  import opened Keys

  datatype Parsed = Parsed(value: nat, used: nat)

  /** Seven bits a byte, least significant first; the top bit says that more follow. */
  function EncodeVarint(v: nat): (b: Bytes)
    ensures b != []
  {
    if v < 128 then [v] else
      var low: Byte := v % 128 + 128;
      [low] + EncodeVarint(v / 128)
  }

  /** The number at the head of `b`, in at most `groups` bytes. */
  function DecodeVarint(b: Bytes, groups: nat): (r: Option<Parsed>)
    ensures r.Some? ==> 0 < r.value.used <= |b|
  {
    if groups == 0 || b == [] then None
    else if b[0] < 128 then Some(Parsed(b[0], 1))
    else
      var rest := DecodeVarint(b[1..], groups - 1);
      if rest.None? then None else Some(Parsed(b[0] - 128 + 128 * rest.value.value, rest.value.used + 1))
  }

  function Pow128(n: nat): (p: nat)
    ensures p > 0
  {
    if n == 0 then 1 else 128 * Pow128(n - 1)
  }

  lemma {:induction false} VarintRoundTrip(v: nat, groups: nat, rest: Bytes)
    requires groups > 0 && v < Pow128(groups)
    ensures DecodeVarint(EncodeVarint(v) + rest, groups) == Some(Parsed(v, |EncodeVarint(v)|))
    decreases groups
  {
    assert Pow128(1) == 128;
    if v >= 128 {
      VarintRoundTrip(v / 128, groups - 1, rest);
      var low: Byte := v % 128 + 128;
      assert (EncodeVarint(v) + rest)[1..] == EncodeVarint(v / 128) + rest;
    }
  }

  // ---- What the bytes mean -------------------------------------------------------------------------------------------

  /** The sum of the low seven bits of byte `i` times 128 to the `i`. */
  function Base128(b: Bytes): nat {
    if b == [] then 0 else b[0] % 128 + 128 * Base128(b[1..])
  }

  /** All bytes but the last one are marked. */
  ghost predicate IsVarint(b: Bytes) {
    b != [] && b[|b| - 1] < 128 && forall i :: 0 <= i < |b| - 1 ==> b[i] >= 128
  }

  ghost predicate IsNumber(b: Bytes, n: int) {
    IsVarint(b) && Base128(b) == n
  }

  /** A length and that many bytes. */
  ghost predicate IsDelimited(b: Bytes, content: Bytes) {
    exists k :: 0 <= k <= |b| && IsNumber(b[..k], |content|) && b[k..] == content
  }

  /** The bytes of a number stand for it, without a needless zero at the end. */
  lemma {:induction false} VarintMeans(v: nat)
    ensures var b := EncodeVarint(v); IsVarint(b) && Base128(b) == v && (|b| > 1 ==> b[|b| - 1] > 0)
  {
    if v >= 128 {
      VarintMeans(v / 128);
    }
  }

  lemma UnmarkedIsAll(b: Bytes)
    requires IsVarint(b) && b[0] < 128
    ensures b == [b[0]] && Base128(b) == b[0]
  {
    assert b[1..] == [];
  }

  /** Decoding takes the first bytes up to an unmarked one, if that is among the first `groups`, and gives what they mean. */
  lemma {:induction false} DecodeVarintMeans(b: Bytes, groups: nat)
    ensures forall n :: 0 < n <= |b| && IsVarint(b[..n]) ==>
      DecodeVarint(b, groups) == if n <= groups then Some(Parsed(Base128(b[..n]), n)) else None
    ensures (forall n :: 0 < n <= |b| ==> !IsVarint(b[..n])) ==> DecodeVarint(b, groups) == None
  {
    if b != [] && groups > 0 && b[0] >= 128 {
      DecodeVarintMeans(b[1..], groups - 1);
      forall n | 0 < n <= |b| && IsVarint(b[..n])
        ensures DecodeVarint(b, groups) == if n <= groups then Some(Parsed(Base128(b[..n]), n)) else None
      {
        assert b[..n][1..] == b[1..][..n - 1];
        assert IsVarint(b[1..][..n - 1]);
      }
      forall n | 0 < n <= |b[1..]| && IsVarint(b[1..][..n]) ensures IsVarint(b[..n + 1]) {
        assert b[..n + 1] == [b[0]] + b[1..][..n];
      }
    } else {
      forall n | 0 < n <= |b| && IsVarint(b[..n])
        ensures DecodeVarint(b, groups) == if n <= groups then Some(Parsed(Base128(b[..n]), n)) else None
      {
        if b[0] < 128 {
          UnmarkedIsAll(b[..n]);
        }
      }
      assert b != [] && b[0] < 128 ==> IsVarint(b[..1]);
    }
  }

  const TWO_64 := 0x1_0000_0000_0000_0000

  /** Five bytes at most, and bits above the 32nd are lost. */
  function GetVarint32(b: Bytes): (r: Option<Parsed>)
    ensures r.Some? ==> 0 < r.value.used <= |b|
  {
    var r := DecodeVarint(b, 5);
    if r.None? then None else Some(Parsed(r.value.value % 0x1_0000_0000, r.value.used))
  }

  function GetVarint64(b: Bytes): (r: Option<Parsed>)
    ensures r.Some? ==> 0 < r.value.used <= |b|
  {
    var r := DecodeVarint(b, 10);
    if r.None? then None else Some(Parsed(r.value.value % TWO_64, r.value.used))
  }

  /** At most five bytes are read of a 32-bit number, and what is above 32 bits is lost. */
  lemma GetVarint32Means(b: Bytes, n: nat)
    requires 0 < n <= |b| && IsVarint(b[..n])
    ensures GetVarint32(b) == if n <= 5 then Some(Parsed(Base128(b[..n]) % 0x1_0000_0000, n)) else None
  {
    hide IsVarint, Base128, DecodeVarint;
    DecodeVarintMeans(b, 5);
  }

  /** At most ten bytes are read of a 64-bit number, and what is above 64 bits is lost. */
  lemma GetVarint64Means(b: Bytes, n: nat)
    requires 0 < n <= |b| && IsVarint(b[..n])
    ensures GetVarint64(b) == if n <= 10 then Some(Parsed(Base128(b[..n]) % 0x1_0000_0000_0000_0000, n)) else None
  {
    hide IsVarint, Base128, DecodeVarint;
    DecodeVarintMeans(b, 10);
  }

  lemma Pow128Values()
    ensures Pow128(5) == 0x8_0000_0000 && Pow128(10) == 0x40_0000_0000_0000_0000
  {
    assert Pow128(2) == 128 * Pow128(1) == 16384;
    assert Pow128(4) == 128 * Pow128(3) == 16384 * Pow128(2);
    assert Pow128(6) == 128 * Pow128(5) == 16384 * Pow128(4);
    assert Pow128(8) == 128 * Pow128(7) == 16384 * Pow128(6);
    assert Pow128(10) == 128 * Pow128(9) == 16384 * Pow128(8);
  }

  lemma Varint32RoundTrip(v: nat, rest: Bytes)
    requires v < 0x1_0000_0000
    ensures GetVarint32(EncodeVarint(v) + rest) == Some(Parsed(v, |EncodeVarint(v)|))
  {
    Pow128Values();
    VarintRoundTrip(v, 5, rest);
  }

  lemma Varint64RoundTrip(v: nat, rest: Bytes)
    requires v < TWO_64
    ensures GetVarint64(EncodeVarint(v) + rest) == Some(Parsed(v, |EncodeVarint(v)|))
  {
    Pow128Values();
    VarintRoundTrip(v, 10, rest);
  }

  /** The encoding loop. */
  method PutVarint(dst: Bytes, value: nat) returns (r: Bytes)
    ensures r == dst + EncodeVarint(value)
  {
    r := dst;
    var v := value;
    while v >= 128
      invariant dst + EncodeVarint(value) == r + EncodeVarint(v)
    {
      var low: Byte := v % 128 + 128;
      r := r + [low];
      v := v / 128;
    }
    r := r + [v];
  }

  function Shifted(acc: nat, scale: nat, used: nat, r: Option<Parsed>): Option<Parsed> {
    if r.None? then None else Some(Parsed(acc + scale * r.value.value, used + r.value.used))
  }

  /** The decoding loop, with the shift counted in groups of seven bits. */
  method GetVarintPtr(b: Bytes, groups: nat) returns (r: Option<Parsed>)
    ensures r == DecodeVarint(b, groups)
  {
    hide DecodeVarint, Shifted;
    var result: nat, scale: nat, p: nat := 0, 1, 0;
    ghost var goal := DecodeVarint(b, groups);
    assert b[0..] == b;
    NothingShifted(goal);
    while p < groups && p < |b|
      invariant p <= groups && p <= |b|
      invariant goal == Shifted(result, scale, p, DecodeVarint(b[p..], groups - p))
    {
      ShiftStep(result, scale, p, b[p..], groups - p);
      var byte := b[p];
      p := p + 1;
      if byte < 128 {
        return Some(Parsed(result + byte * scale, p));
      }
      assert b[p - 1..][1..] == b[p..];
      var more: nat := (byte - 128) * scale;
      result, scale := result + more, scale * 128;
    }
    NothingDecodes(b[p..], groups - p, result, scale, p);
    return None;
  }

  lemma NothingShifted(r: Option<Parsed>)
    ensures Shifted(0, 1, 0, r) == r
  {}

  lemma NothingDecodes(b: Bytes, groups: nat, acc: nat, scale: nat, used: nat)
    requires b == [] || groups == 0
    ensures Shifted(acc, scale, used, DecodeVarint(b, groups)) == None
  {}

  lemma ShiftStep(acc: nat, scale: nat, used: nat, b: Bytes, groups: nat)
    requires b != [] && groups > 0
    ensures Shifted(acc, scale, used, DecodeVarint(b, groups)) ==
      if b[0] < 128 then Some(Parsed(acc + b[0] * scale, used + 1))
      else
        var more: nat := (b[0] - 128) * scale;
        Shifted(acc + more, scale * 128, used + 1, DecodeVarint(b[1..], groups - 1))
  {
    var rest := DecodeVarint(b[1..], groups - 1);
    if b[0] >= 128 && rest.Some? {
      var v := rest.value.value;
      assert scale * (b[0] - 128 + 128 * v) == (b[0] - 128) * scale + scale * 128 * v;
    }
  }

  // ---- Length-prefixed strings -----------------------------------------------------------------

  datatype Slice = Slice(data: Bytes, used: nat)

  function Prefixed(s: Bytes): Bytes {
    EncodeVarint(|s| % 0x1_0000_0000) + s
  }

  function GetLengthPrefixed(b: Bytes): (r: Option<Slice>)
    ensures r.Some? ==> 0 < r.value.used <= |b|
  {
    var n := GetVarint32(b);
    if n.None? || |b| - n.value.used < n.value.value then None
    else Some(Slice(b[n.value.used..n.value.used + n.value.value], n.value.used + n.value.value))
  }

  /** A length of up to five bytes, and as many bytes as it says if there are so many. */
  lemma LengthPrefixedMeans(b: Bytes, n: nat)
    requires 0 < n <= |b| && IsVarint(b[..n])
    ensures var length := Base128(b[..n]) % 0x1_0000_0000;
            GetLengthPrefixed(b) == if n <= 5 && length <= |b| - n then Some(Slice(b[n..n + length], n + length)) else None
  {
    hide IsVarint, Base128, GetVarint32;
    GetVarint32Means(b, n);
  }

  lemma PrefixedRoundTrip(s: Bytes, rest: Bytes)
    requires |s| < 0x1_0000_0000
    ensures GetLengthPrefixed(Prefixed(s) + rest) == Some(Slice(s, |Prefixed(s)|))
  {
    var n := EncodeVarint(|s|);
    var b := Prefixed(s) + rest;
    assert b == n + (s + rest);
    Varint32RoundTrip(|s|, s + rest);
    assert b[|n|..|n| + |s|] == s;
  }
}
