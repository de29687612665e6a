/** The log format (db/log_format.h, util/crc32c.h). */
module LogFormat {
  import opened ByteStrings
  import opened Coding

  const BLOCK_SIZE := 32768
  const HEADER_SIZE := 7

  const FULL: Byte := 1
  const FIRST: Byte := 2
  const MIDDLE: Byte := 3
  const LAST: Byte := 4

  const MASK_DELTA := 0xa282ead8

  /** Rotate right by 15 bits and add a constant, in 32 bits. */
  function Mask(crc: Uint32): Uint32 {
    (crc / 32768 + crc % 32768 * 131072 + MASK_DELTA) % TWO_32
  }

  function Unmask(masked: nat): nat {
    var rot := (masked - MASK_DELTA) % TWO_32;
    rot / 131072 + rot % 131072 * 32768
  }

  lemma UnmaskInvertsMask(crc: Uint32)
    ensures Unmask(Mask(crc)) == crc
  {
    var rot := crc / 32768 + crc % 32768 * 131072;
    assert 0 <= rot < TWO_32;
    assert (Mask(crc) - MASK_DELTA) % TWO_32 == rot;
  }

  type Stamp = b: Bytes | |b| == 4 witness [0, 0, 0, 0]

  /** How the type byte and the payload are stamped on writing, and the stamp is checked on reading. */
  datatype Checksum = Checksum(stamp: Bytes -> Stamp, check: (Stamp, Bytes) -> bool)

  /** A checksum that accepts its own stamps. */
  ghost predicate Sound(crc: Checksum) {
    forall data :: crc.check(crc.stamp(data), data)
  }

  function MaskedStamp(value: Bytes -> Uint32, data: Bytes): Stamp {
    EncodeFixed32(Mask(value(data)))
  }

  predicate MaskedCheck(value: Bytes -> Uint32, stamp: Stamp, data: Bytes) {
    value(data) == Unmask(DecodeFixed32(stamp))
  }

  /** The masked, little-endian checksum of the log, for any 32-bit checksum of byte strings. */
  function Masked(value: Bytes -> Uint32): Checksum {
    Checksum(data => MaskedStamp(value, data), (stamp: Stamp, data: Bytes) => MaskedCheck(value, stamp, data))
  }

  lemma MaskedIsSound(value: Bytes -> Uint32)
    ensures Sound(Masked(value))
  {
    forall data ensures Masked(value).check(Masked(value).stamp(data), data) {
      var stamp := Masked(value).stamp(data);
      assert stamp + [] == stamp;
      Fixed32RoundTrip(Mask(value(data)), []);
      UnmaskInvertsMask(value(data));
      assert MaskedCheck(value, stamp, data);
    }
  }

  lemma SplitAt15(low: nat, high: nat)
    requires low < 32768
    ensures (low + high * 32768) / 32768 == high && (low + high * 32768) % 32768 == low
  {}

  lemma DeltaBack(masked: Uint32)
    ensures ((masked - MASK_DELTA) % TWO_32 + MASK_DELTA) % TWO_32 == masked
  {}

  lemma MaskInvertsUnmask(masked: Uint32)
    ensures 0 <= Unmask(masked) < TWO_32 && Mask(Unmask(masked)) == masked
  {
    var rot := (masked - MASK_DELTA) % TWO_32;
    SplitAt15(rot / 131072, rot % 131072);
    DeltaBack(masked);
  }

  /** No other stamp is accepted. */
  lemma MaskedIsExact(value: Bytes -> Uint32, stamp: Stamp, data: Bytes)
    ensures Masked(value).check(stamp, data) <==> stamp == Masked(value).stamp(data)
  {
    MaskedIsSound(value);
    var n := DecodeFixed32(stamp);
    Pow256Of4();
    FixedIsBelow(4, stamp);
    FixedIsEncoded(4, stamp);
    if MaskedCheck(value, stamp, data) {
      MaskInvertsUnmask(n);
    }
  }

  /** One physical record: checksum, length, type, payload. */
  function Physical(crc: Checksum, kind: Byte, data: Bytes): (r: Bytes)
    ensures |r| == HEADER_SIZE + |data|
  {
    crc.stamp([kind] + data) + EncodeFixed(2, |data|) + [kind] + data
  }

  function Zeros(n: nat): (r: Bytes)
    ensures |r| == n
  {
    if n == 0 then [] else [0] + Zeros(n - 1)
  }

  function Least(a: nat, b: nat): nat {
    if a < b then a else b
  }

  function FragmentKind(begin: bool, end: bool): Byte {
    if begin && end then FULL else if begin then FIRST else if end then LAST else MIDDLE
  }

  /** The trailer that fills a block in which no header fits any more. */
  function Trailer(off: nat): nat
    requires off <= BLOCK_SIZE
  {
    if BLOCK_SIZE - off < HEADER_SIZE then BLOCK_SIZE - off else 0
  }

  function StartOffset(off: nat): (o: nat)
    requires off <= BLOCK_SIZE
    ensures o + HEADER_SIZE <= BLOCK_SIZE
  {
    if BLOCK_SIZE - off < HEADER_SIZE then 0 else off
  }

  /** How many payload bytes the next fragment takes. */
  function FragmentLength(off: nat, left: nat): nat
    requires off <= BLOCK_SIZE
  {
    Least(left, BLOCK_SIZE - StartOffset(off) - HEADER_SIZE)
  }

  function NextOffset(off: nat, left: nat): (o: nat)
    requires off <= BLOCK_SIZE
    ensures o <= BLOCK_SIZE
  {
    StartOffset(off) + HEADER_SIZE + FragmentLength(off, left)
  }

  /** The bytes that a record, or the rest of one, adds to a file at block offset `off`. */
  function Emit(crc: Checksum, off: nat, data: Bytes, begin: bool): Bytes
    requires off <= BLOCK_SIZE
    decreases |data|, BLOCK_SIZE - off
  {
    var n := FragmentLength(off, |data|);
    var rest := if n == |data| then [] else Emit(crc, NextOffset(off, |data|), data[n..], false);
    Zeros(Trailer(off)) + (Physical(crc, FragmentKind(begin, n == |data|), data[..n]) + rest)
  }

  /** The block offset after it. */
  function EmitOffset(off: nat, left: nat): (o: nat)
    requires off <= BLOCK_SIZE
    ensures o <= BLOCK_SIZE
    decreases left, BLOCK_SIZE - off
  {
    var n := FragmentLength(off, left);
    if n == left then NextOffset(off, left) else EmitOffset(NextOffset(off, left), left - n)
  }

  function EmitAll(crc: Checksum, off: nat, records: seq<Bytes>): Bytes
    requires off <= BLOCK_SIZE
    decreases records
  {
    if records == [] then []
    else Emit(crc, off, records[0], true) + EmitAll(crc, EmitOffset(off, |records[0]|), records[1..])
  }
}
