/** The log writer (db/log_writer.cc). */
module LogWriting {
  import opened ByteStrings
  import opened Coding
  import opened LogFormat

  class Writer {
    const crc: Checksum
    var dest: Bytes
    var blockOffset: nat

    ghost predicate Valid()
      reads this
    {
      blockOffset <= BLOCK_SIZE && blockOffset % BLOCK_SIZE == |dest| % BLOCK_SIZE
    }

    /** Appends to a file that may already hold records. */
    constructor (crc: Checksum, dest: Bytes)
      ensures Valid() && this.crc == crc && this.dest == dest
    {
      this.crc, this.dest, blockOffset := crc, dest, |dest| % BLOCK_SIZE;
    }

    /** Fragments the record over as many blocks as it takes; an empty record still gets a header. */
    method AddRecord(slice: Bytes)
      requires Valid()
      modifies this
      ensures Valid()
      ensures dest == old(dest) + Emit(crc, old(blockOffset), slice, true)
      ensures blockOffset == EmitOffset(old(blockOffset), |slice|)
    {
      var ptr := slice;
      var begin := true;
      var more := true;
      while more
        invariant Valid()
        invariant old(dest) + Emit(crc, old(blockOffset), slice, true) == dest + ToEmit(crc, blockOffset, ptr, begin, more)
        invariant EmitOffset(old(blockOffset), |slice|) == if more then EmitOffset(blockOffset, |ptr|) else blockOffset
        decreases more, |ptr|, BLOCK_SIZE - blockOffset
      {
        EmitStep(crc, blockOffset, ptr, begin, dest);
        var fragmentLength := AddFragment(ptr, begin);
        ptr := ptr[fragmentLength..];
        begin := false;
        more := |ptr| > 0;
      }
    }

    /** Writes the next fragment, in a new block when no header fits into this one. */
    method AddFragment(ptr: Bytes, begin: bool) returns (fragmentLength: nat)
      requires Valid()
      modifies this
      ensures Valid() && fragmentLength == FragmentLength(old(blockOffset), |ptr|)
      ensures dest == old(dest) + Zeros(Trailer(old(blockOffset)))
                        + Physical(crc, FragmentKind(begin, fragmentLength == |ptr|), ptr[..fragmentLength])
      ensures blockOffset == NextOffset(old(blockOffset), |ptr|)
    {
      var leftover := BLOCK_SIZE - blockOffset;
      if leftover < HEADER_SIZE {
        if leftover > 0 {
          dest := dest + Zeros(leftover);
        }
        blockOffset := 0;
      }
      assert dest == old(dest) + Zeros(Trailer(old(blockOffset)));
      var avail := BLOCK_SIZE - blockOffset - HEADER_SIZE;
      fragmentLength := if |ptr| < avail then |ptr| else avail;
      EmitPhysicalRecord(FragmentKind(begin, |ptr| == fragmentLength), ptr[..fragmentLength]);
    }

    method EmitPhysicalRecord(kind: Byte, data: Bytes)
      requires |data| < 65536 && blockOffset + HEADER_SIZE + |data| <= BLOCK_SIZE
      modifies this
      ensures dest == old(dest) + Physical(crc, kind, data)
      ensures blockOffset == old(blockOffset) + HEADER_SIZE + |data|
    {
      var low: Byte, high: Byte := |data| % 256, |data| / 256;
      var header := crc.stamp([kind] + data) + [low, high] + [kind];
      LengthBytes(|data|);
      dest := dest + header;
      dest := dest + data;
      blockOffset := blockOffset + HEADER_SIZE + |data|;
    }
  }

  lemma LengthBytes(n: nat)
    requires n < 65536
    ensures var low: Byte, high: Byte := n % 256, n / 256; EncodeFixed(2, n) == [low, high]
  {
    assert EncodeFixed(1, n / 256) == [n / 256 % 256] + EncodeFixed(0, n / 256 / 256);
  }

  /** What the loop has still to write. */
  function ToEmit(crc: Checksum, off: nat, ptr: Bytes, begin: bool, more: bool): Bytes
    requires off <= BLOCK_SIZE
  {
    if more then Emit(crc, off, ptr, begin) else []
  }

  /** One turn of the loop writes the first part of what remains to be written. */
  lemma EmitStep(crc: Checksum, off: nat, ptr: Bytes, begin: bool, was: Bytes)
    requires off <= BLOCK_SIZE
    ensures var n := FragmentLength(off, |ptr|);
            was + Emit(crc, off, ptr, begin)
              == was + Zeros(Trailer(off)) + Physical(crc, FragmentKind(begin, n == |ptr|), ptr[..n])
                 + ToEmit(crc, NextOffset(off, |ptr|), ptr[n..], false, n < |ptr|)
  {
  }
}
