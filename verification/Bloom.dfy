/** Bloom filters (util/bloom.cc), over any 32-bit hash of keys. */
module Bloom {
  import opened ByteStrings
  import opened Coding

  /** A filter: its bits, and how many of them each key probes. */
  datatype Filter = Filter(bits: seq<bool>, probes: nat)

  function Rotate17(h: Uint32): Uint32 {
    h / 0x20000 + h % 0x20000 * 0x8000
  }

  /** The `j`th hash of the double hashing, in 32 bits. */
  function Probe(h: Uint32, delta: Uint32, j: nat): (p: Uint32)
    decreases j
  {
    if j == 0 then h else (Probe(h, delta, j - 1) + delta) % TWO_32
  }

  lemma NextProbe(h: Uint32, delta: Uint32, j: nat)
    ensures Probe(h, delta, j + 1) == (Probe(h, delta, j) + delta) % TWO_32 && Probe(h, delta, 0) == h
  {}

  lemma Wraps(x: nat, d: nat)
    ensures (x % TWO_32 + d) % TWO_32 == (x + d) % TWO_32
  {}

  lemma RotateIs(high: nat, low: nat)
    requires high < 0x8000 && low < 0x2_0000
    ensures Rotate17(high * 0x2_0000 + low) == low * 0x8000 + high
  {}

  lemma {:induction false} ProbeSum(h: Uint32, delta: Uint32, j: nat)
    ensures Probe(h, delta, j) == (h + j * delta) % TWO_32
    decreases j
  {
    if j > 0 {
      ProbeSum(h, delta, j - 1);
      Wraps(h + (j - 1) * delta, delta);
    }
  }

  /** The hash, and the hash rotated by 17 bits to the right as often as there were probes before, in 32 bits. */
  lemma ProbeIs(high: nat, low: nat, j: nat)
    requires high < 0x8000 && low < 0x2_0000
    ensures var h := high * 0x2_0000 + low;
            Probe(h, Rotate17(h), j) == (h + j * (low * 0x8000 + high)) % 0x1_0000_0000
  {
    RotateIs(high, low);
    ProbeSum(high * 0x2_0000 + low, low * 0x8000 + high, j);
  }

  /** The bit that a hash selects. */
  function BitOf(h: Uint32, n: nat): (i: nat)
    requires n > 0
    ensures i < n
  {
    h % n
  }

  /** The first `k` bits that a key probes are set. */
  ghost predicate AllSet(bits: seq<bool>, h: Uint32, delta: Uint32, k: nat)
    requires bits != []
  {
    forall j :: 0 <= j < k ==> bits[BitOf(Probe(h, delta, j), |bits|)]
  }

  /** All bits that a key probes are set. */
  ghost predicate Matches(h: Uint32, f: Filter) {
    f.bits != [] && AllSet(f.bits, h, Rotate17(h), f.probes)
  }

  /** At least 64 bits, whole bytes. */
  function FilterBits(n: nat, bitsPerKey: nat): (bits: nat)
    ensures bits >= 64 && bits % 8 == 0
  {
    var bits := if n * bitsPerKey < 64 then 64 else n * bitsPerKey;
    (bits + 7) / 8 * 8
  }

  /** Is bit `i` of `n` one of the `k` that a hash probes? */
  ghost predicate Probed(h: Uint32, delta: Uint32, k: nat, n: nat, i: nat)
    requires n > 0
  {
    exists j :: 0 <= j < k && BitOf(Probe(h, delta, j), n) == i
  }

  /** Is it probed by one of the keys? */
  ghost predicate ProbedByAny(hash: Bytes -> Uint32, keys: seq<Bytes>, k: nat, n: nat, i: nat)
    requires n > 0
  {
    exists m :: 0 <= m < |keys| && Probed(hash(keys[m]), Rotate17(hash(keys[m])), k, n, i)
  }

  lemma OneMoreSet(bits: seq<bool>, h: Uint32, delta: Uint32, j: nat)
    requires bits != [] && AllSet(bits, h, delta, j) && bits[BitOf(Probe(h, delta, j), |bits|)]
    ensures AllSet(bits, h, delta, j + 1)
  {}

  lemma NoProbe(h: Uint32, delta: Uint32, n: nat, i: nat)
    requires n > 0
    ensures !Probed(h, delta, 0, n, i)
  {}

  lemma OneMoreProbe(h: Uint32, delta: Uint32, j: nat, n: nat, i: nat)
    requires n > 0
    ensures Probed(h, delta, j + 1, n, i) <==> Probed(h, delta, j, n, i) || i == BitOf(Probe(h, delta, j), n)
  {}

  /** Sets exactly the bits of one key. */
  method SetProbes(bits: seq<bool>, hash: Uint32, delta: Uint32, k: nat) returns (r: seq<bool>)
    requires bits != []
    ensures |r| == |bits| && forall i :: 0 <= i < |r| ==> (r[i] <==> bits[i] || Probed(hash, delta, k, |bits|, i))
  {
    hide BitOf, Probe, Probed;
    r := bits;
    var h := hash;
    NextProbe(hash, delta, 0);
    forall i | 0 <= i < |bits| ensures !Probed(hash, delta, 0, |bits|, i) {
      NoProbe(hash, delta, |bits|, i);
    }
    for j := 0 to k
      invariant |r| == |bits| && h == Probe(hash, delta, j)
      invariant forall i :: 0 <= i < |r| ==> (r[i] <==> bits[i] || Probed(hash, delta, j, |bits|, i))
    {
      forall i | 0 <= i < |r|
        ensures Probed(hash, delta, j + 1, |bits|, i) <==> Probed(hash, delta, j, |bits|, i) || i == BitOf(h, |bits|)
      {
        OneMoreProbe(hash, delta, j, |bits|, i);
      }
      NextProbe(hash, delta, j);
      r := r[BitOf(h, |r|) := true];
      h := (h + delta) % TWO_32;
    }
  }

  lemma OneMoreKey(hash: Bytes -> Uint32, keys: seq<Bytes>, m: nat, k: nat, n: nat, i: nat)
    requires n > 0 && m < |keys|
    ensures ProbedByAny(hash, keys[..m + 1], k, n, i)
       <==> ProbedByAny(hash, keys[..m], k, n, i) || Probed(hash(keys[m]), Rotate17(hash(keys[m])), k, n, i)
  {
    var longer := keys[..m + 1];
    if ProbedByAny(hash, keys[..m], k, n, i) {
      var p :| 0 <= p < m && Probed(hash(keys[..m][p]), Rotate17(hash(keys[..m][p])), k, n, i);
      assert longer[p] == keys[..m][p];
    }
    if Probed(hash(keys[m]), Rotate17(hash(keys[m])), k, n, i) {
      assert longer[m] == keys[m];
    }
    if ProbedByAny(hash, longer, k, n, i) {
      var p :| 0 <= p < m + 1 && Probed(hash(longer[p]), Rotate17(hash(longer[p])), k, n, i);
      if p < m {
        assert keys[..m][p] == longer[p];
      }
    }
  }

  /** The filter of a list of keys: exactly the bits that they probe are set, so every one of them matches. */
  method CreateFilter(hash: Bytes -> Uint32, keys: seq<Bytes>, bitsPerKey: nat, k: nat) returns (f: Filter)
    ensures f.probes == k && |f.bits| == FilterBits(|keys|, bitsPerKey)
    ensures |f.bits| % 8 == 0 && |f.bits| >= 64 && 0 <= |f.bits| - |keys| * bitsPerKey && (|f.bits| < |keys| * bitsPerKey + 8 || |f.bits| == 64)
    ensures forall i :: 0 <= i < |f.bits| ==> (f.bits[i] <==> ProbedByAny(hash, keys, k, |f.bits|, i))
    ensures forall i :: 0 <= i < |keys| ==> Matches(hash(keys[i]), f)
  {
    hide Probed, Probe, Rotate17;
    var n := FilterBits(|keys|, bitsPerKey);
    var bits := seq(n, _ => false);
    for m := 0 to |keys|
      invariant |bits| == n
      invariant forall i :: 0 <= i < n ==> (bits[i] <==> ProbedByAny(hash, keys[..m], k, n, i))
    {
      var h := hash(keys[m]);
      forall i | 0 <= i < n
        ensures ProbedByAny(hash, keys[..m + 1], k, n, i) <==> ProbedByAny(hash, keys[..m], k, n, i) || Probed(h, Rotate17(h), k, n, i)
      {
        OneMoreKey(hash, keys, m, k, n, i);
      }
      bits := SetProbes(bits, h, Rotate17(h), k);
    }
    assert keys[..|keys|] == keys;
    f := Filter(bits, k);
    forall m | 0 <= m < |keys| ensures Matches(hash(keys[m]), f) {
      KeyMatches(hash, keys, m, f);
    }
  }

  lemma KeyMatches(hash: Bytes -> Uint32, keys: seq<Bytes>, m: nat, f: Filter)
    requires m < |keys| && f.bits != []
    requires forall i :: 0 <= i < |f.bits| ==> (f.bits[i] <==> ProbedByAny(hash, keys, f.probes, |f.bits|, i))
    ensures Matches(hash(keys[m]), f)
  {
    var h := hash(keys[m]);
    forall j | 0 <= j < f.probes ensures f.bits[BitOf(Probe(h, Rotate17(h), j), |f.bits|)] {
      assert Probed(h, Rotate17(h), f.probes, |f.bits|, BitOf(Probe(h, Rotate17(h), j), |f.bits|));
    }
  }

  method TestProbes(bits: seq<bool>, hash: Uint32, delta: Uint32, k: nat) returns (all: bool)
    requires bits != []
    ensures all == AllSet(bits, hash, delta, k)
  {
    hide BitOf, Probe;
    var h := hash;
    NextProbe(hash, delta, 0);
    for j := 0 to k
      invariant h == Probe(hash, delta, j) && AllSet(bits, hash, delta, j)
    {
      if !bits[BitOf(h, |bits|)] {
        return false;
      }
      OneMoreSet(bits, hash, delta, j);
      NextProbe(hash, delta, j);
      h := (h + delta) % TWO_32;
    }
    return true;
  }

  /** Probes the filter; more than 30 probes are reserved and match everything. */
  method KeyMayMatch(hash: Uint32, f: Filter) returns (match': bool)
    ensures match' == (f.bits != [] && (f.probes > 30 || Matches(hash, f)))
  {
    if f.bits == [] {
      return false;
    }
    if f.probes > 30 {
      return true;
    }
    match' := TestProbes(f.bits, hash, Rotate17(hash), f.probes);
  }
}
