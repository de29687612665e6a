/** Integer encodings (util/coding.cc). */
module Coding {
  import opened ByteStrings

  const TWO_32 := 0x1_0000_0000

  type Uint32 = x: int | 0 <= x < TWO_32

  function Pow256(n: nat): nat
    decreases n
  {
    if n == 0 then 1 else 256 * Pow256(n - 1)
  }

  /** `n` bytes, least significant first; what does not fit is cut off. */
  function EncodeFixed(n: nat, x: nat): (b: Bytes)
    ensures |b| == n
    decreases n
  {
    if n == 0 then [] else
      var low: Byte := x % 256;
      [low] + EncodeFixed(n - 1, x / 256)
  }

  function DecodeFixed(n: nat, b: Bytes): nat
    requires |b| >= n
    decreases n
  {
    if n == 0 then 0 else b[0] + 256 * DecodeFixed(n - 1, b[1..])
  }

  lemma {:induction false} FixedRoundTrip(n: nat, x: nat, rest: Bytes)
    requires x < Pow256(n)
    ensures DecodeFixed(n, EncodeFixed(n, x) + rest) == x
    decreases n
  {
    if n > 0 {
      FixedRoundTrip(n - 1, x / 256, rest);
      var low: Byte := x % 256;
      assert (EncodeFixed(n, x) + rest)[1..] == EncodeFixed(n - 1, x / 256) + rest;
    }
  }

  lemma {:induction false} FixedIsBelow(n: nat, b: Bytes)
    requires |b| >= n
    ensures DecodeFixed(n, b) < Pow256(n)
  {
    if n > 0 {
      FixedIsBelow(n - 1, b[1..]);
    }
  }

  lemma {:induction false} FixedIsEncoded(n: nat, b: Bytes)
    requires |b| == n
    ensures EncodeFixed(n, DecodeFixed(n, b)) == b
  {
    if n > 0 {
      FixedIsEncoded(n - 1, b[1..]);
      assert b == [b[0]] + b[1..];
    }
  }

  /** The sum of byte `i` times 256 to the `i`. */
  function LittleEndian(b: Bytes): nat {
    if b == [] then 0 else LittleEndian(b[..|b| - 1]) + b[|b| - 1] * Pow256(|b| - 1)
  }

  lemma {:induction false} LittleEndianHead(b: Bytes)
    requires b != []
    ensures LittleEndian(b) == b[0] + 256 * LittleEndian(b[1..])
  {
    var n := |b| - 1;
    if n > 0 {
      LittleEndianHead(b[..n]);
      assert b[..n][1..] == b[1..][..n - 1] && b[1..][n - 1] == b[n];
      assert b[n] * Pow256(n) == 256 * (b[n] * Pow256(n - 1));
    } else {
      assert b[..0] == [] && b[1..] == [];
      assert b[0] * Pow256(0) == b[0];
    }
  }

  /** The bytes of a number, least significant first, are worth what of it fits. */
  lemma {:induction false} FixedMeans(n: nat, x: nat)
    ensures |EncodeFixed(n, x)| == n && (x < Pow256(n) ==> LittleEndian(EncodeFixed(n, x)) == x)
  {
    if n > 0 {
      FixedMeans(n - 1, x / 256);
      LittleEndianHead(EncodeFixed(n, x));
      assert EncodeFixed(n, x)[1..] == EncodeFixed(n - 1, x / 256);
    }
  }

  lemma {:induction false} DecodeFixedMeans(n: nat, b: Bytes)
    requires |b| >= n
    ensures DecodeFixed(n, b) == LittleEndian(b[..n])
  {
    if n > 0 {
      DecodeFixedMeans(n - 1, b[1..]);
      LittleEndianHead(b[..n]);
      assert b[..n][1..] == b[1..][..n - 1];
    }
  }

  lemma Pow256Of4()
    ensures Pow256(4) == TWO_32
  {
    assert Pow256(4) == 256 * Pow256(3) == 65536 * Pow256(2);
  }

  lemma Pow256Of8()
    ensures Pow256(8) == 0x1_0000_0000_0000_0000
  {
    Pow256Of4();
    assert Pow256(6) == 256 * Pow256(5) == 65536 * Pow256(4);
    assert Pow256(8) == 256 * Pow256(7) == 65536 * Pow256(6);
  }

  function EncodeFixed32(x: Uint32): (b: Bytes)
    ensures |b| == 4
  {
    EncodeFixed(4, x)
  }

  function DecodeFixed32(b: Bytes): nat
    requires |b| >= 4
  {
    DecodeFixed(4, b)
  }

  lemma Fixed32RoundTrip(x: Uint32, rest: Bytes)
    ensures DecodeFixed32(EncodeFixed32(x) + rest) == x
  {
    Pow256Of4();
    FixedRoundTrip(4, x, rest);
  }
}
