/** The encoder (pb_encode.c): a stream that hands bytes to a callback, or only counts them. */
module PbEncoding {
  import opened ByteStrings
  import opened Coding
  import opened Varints
  import opened PbSchema
  import opened PbWire
  import opened PbMessages

  // ---- What a struct guarantees ----------------------------------------------------------------------------------

  ghost predicate HasType(l: LType, v: Value)
    decreases l
  {
    match l
    case BytesType(_) => v.Data?
    case StringType(_) => v.Data?
    case FixedBytesType(size) => v.Data? && |v.bytes| == size
    case MessageType(fields) => v.Message? && HasTypes(fields, v.slots)
    case _ => v.Number?
  }

  ghost predicate SlotHasType(f: Field, s: Slot)
    decreases f
  {
    match f.rule
    case Required => s.One? && HasType(f.ltype, s.value)
    case Singular => s.One? && HasType(f.ltype, s.value)
    case Optional => s.Maybe? && HasType(f.ltype, s.value)
    case Repeated(_) => s.Many? && forall i :: 0 <= i < |s.items| ==> HasType(f.ltype, s.items[i])
    case Oneof(_) => s.Choice? && (s.chosen.Some? ==> HasType(f.ltype, s.chosen.value))
  }

  ghost predicate HasTypes(fs: seq<Field>, m: seq<Slot>)
    decreases fs
  {
    |m| == |fs| && forall i :: 0 <= i < |fs| ==> SlotHasType(fs[i], m[i])
  }

  // ---- Sizes -------------------------------------------------------------------------------------------------------

  lemma {:induction false} VarintIsShort(v: nat, groups: nat)
    requires groups > 0 && v < Pow128(groups)
    ensures |EncodeVarint(v)| <= groups
    decreases groups
  {
    assert Pow128(1) == 128;
    if v >= 128 {
      VarintIsShort(v / 128, groups - 1);
    }
  }

  lemma {:induction false} FixedScalarsSize(l: LType, items: seq<Value>)
    requires (l.Fixed32Type? || l.Fixed64Type?) && forall i :: 0 <= i < |items| ==> CanEncode(l, items[i])
    ensures |EncodeScalars(l, items)| == (if l.Fixed32Type? then 4 else 8) * |items|
  {
    if items != [] {
      FixedScalarsSize(l, items[1..]);
    }
  }

  lemma GroupOf(v: nat)
    requires v > 0
    ensures EncodeVarint(v) == if v < 128 then [v] else [v % 128 + 128] + EncodeVarint(v / 128)
    ensures v < 128 <==> v / 128 == 0
    ensures v < 128 ==> v % 128 == v
  {}

  /** So far `buf` ends with a marked byte; the mark of the last byte goes at the end. */
  ghost predicate Marked(value: nat, buf: Bytes, v: nat) {
    if v > 0 then EncodeVarint(value) == buf + EncodeVarint(v)
    else buf != [] && buf[|buf| - 1] >= 128 && EncodeVarint(value) == buf[..|buf| - 1] + [buf[|buf| - 1] - 128]
  }

  lemma MarkedStep(value: nat, buf: Bytes, v: nat)
    requires v > 0 && Marked(value, buf, v)
    ensures Marked(value, buf + [v % 128 + 128], v / 128)
  {
    GroupOf(v);
    hide EncodeVarint;
    var longer := buf + [v % 128 + 128];
    assert longer[..|longer| - 1] == buf;
    if v >= 128 {
      assert buf + ([v % 128 + 128] + EncodeVarint(v / 128)) == longer + EncodeVarint(v / 128);
    }
  }

  /** The bytes of a varint, in a buffer of ten. */
  method VarintBytes(value: nat) returns (buf: Bytes)
    ensures buf == EncodeVarint(value) && (value < TWO_64 ==> |buf| <= 10)
  {
    if value < TWO_64 {
      Pow128Values();
      VarintIsShort(value, 10);
    }
    if value <= 0x7f {
      return [value];
    }
    hide EncodeVarint, Pow128;
    var v: nat := value;
    buf := [];
    assert [] + EncodeVarint(value) == EncodeVarint(value);
    while v > 0
      invariant Marked(value, buf, v)
    {
      MarkedStep(value, buf, v);
      buf := buf + [v % 128 + 128];
      v := v / 128;
    }
    var last := |buf| - 1;
    buf := buf[last := buf[last] - 128];
  }

  class OStream {
    const sizing: bool
    const maxSize: nat
    /** What the callback has been given. */
    var sink: Bytes
    var bytesWritten: nat

    ghost predicate Valid()
      reads this
    {
      !sizing ==> bytesWritten <= maxSize
    }

    /** Is there room for `n` more bytes?  A stream that only counts takes any number. */
    predicate Fits(n: nat)
      reads this
    {
      sizing || bytesWritten + n <= maxSize
    }

    twostate predicate Wrote(b: Bytes)
      reads this
    {
      && bytesWritten == old(bytesWritten) + |b|
      && sink == (if sizing then old(sink) else old(sink) + b)
    }

    /** A stream without a callback. */
    constructor Sizing()
      ensures Valid() && sizing && bytesWritten == 0 && sink == []
    {
      sizing, maxSize, sink, bytesWritten := true, 0, [], 0;
    }

    /** A stream that continues where `sink` ends. */
    constructor (sink: Bytes, maxSize: nat)
      ensures Valid() && !this.sizing && this.maxSize == maxSize && bytesWritten == 0 && this.sink == sink
    {
      sizing := false;
      this.maxSize, this.sink, bytesWritten := maxSize, sink, 0;
    }

    method Write(buf: Bytes) returns (ok: bool)
      requires Valid()
      modifies this
      ensures Valid() && (ok <==> old(Fits(|buf|))) && (ok ==> Wrote(buf))
    {
      if buf != [] && !sizing {
        if bytesWritten + |buf| > maxSize {
          return false;
        }
        sink := sink + buf;
      }
      bytesWritten := bytesWritten + |buf|;
      ok := true;
    }

    /** Counts bytes that are not there. */
    method Count(n: nat)
      requires Valid() && sizing
      modifies `bytesWritten
      ensures Valid() && bytesWritten == old(bytesWritten) + n
    {
      bytesWritten := bytesWritten + n;
    }

    method WriteVarint(value: nat) returns (ok: bool)
      requires Valid()
      modifies this
      ensures Valid() && (ok <==> old(Fits(|EncodeVarint(value)|))) && (ok ==> Wrote(EncodeVarint(value)))
    {
      var buf := VarintBytes(value);
      ok := Write(buf);
    }

    method WriteKey(wire: nat, tag: nat) returns (ok: bool)
      requires Valid()
      modifies this
      ensures Valid() && (ok <==> old(Fits(|EncodeKey(tag, wire)|))) && (ok ==> Wrote(EncodeKey(tag, wire)))
    {
      ok := WriteVarint(tag * 8 + wire);
    }

    method WriteString(buf: Bytes) returns (ok: bool)
      requires Valid()
      modifies this
      ensures Valid() && (ok <==> old(Fits(|LengthPrefix(buf)|))) && (ok ==> Wrote(LengthPrefix(buf)))
    {
      ok := WriteVarint(|buf|);
      if ok {
        ok := Write(buf);
      }
    }

    /** One of the field encoders. */
    method WriteScalar(l: LType, v: Value) returns (ok: bool)
      requires Valid() && HasType(l, v) && !l.MessageType?
      modifies this
      ensures Valid() && (ok <==> Encodes(l, v) && old(Fits(|EncodeScalar(l, v)|))) && (ok ==> Wrote(EncodeScalar(l, v)))
    {
      hide EncodeVarint, EncodeFixed, LengthPrefix, ZigZag, Unsigned, CString;
      if !Encodes(l, v) {
        return false;
      }
      match l
      case BoolType => ok := WriteVarint(if v.n != 0 then 1 else 0);
      case VarintType(_) => ok := WriteVarint(Unsigned(v.n));
      case UvarintType(_) => ok := WriteVarint(Unsigned(v.n));
      case SvarintType(_) => ok := WriteVarint(ZigZag(v.n));
      case Fixed32Type => ok := Write(EncodeFixed(4, v.n % TWO_32));
      case Fixed64Type => ok := Write(EncodeFixed(8, Unsigned(v.n)));
      case BytesType(_) => ok := WriteString(v.bytes);
      case StringType(capacity) =>
        var s := StringIn(v.bytes, capacity);
        ok := WriteString(s);
      case FixedBytesType(_) => ok := WriteString(v.bytes);
    }

    /** A first pass counts how long the message is, a second one writes it behind its length. */
    method WriteSubmessage(fs: seq<Field>, m: seq<Slot>) returns (ok: bool)
      requires Valid() && HasTypes(fs, m)
      modifies this
      ensures Valid() && (ok <==> CanEncodeMessage(fs, m) && old(Fits(|LengthPrefix(EncodeMessage(fs, m))|)))
      ensures ok ==> Wrote(LengthPrefix(EncodeMessage(fs, m)))
      decreases fs, 2
    {
      hide CanEncodeMessage, EncodeMessage, HasTypes, EncodeVarint;
      var counter := new OStream.Sizing();
      var counted := counter.WriteMessage(fs, m);
      if !counted {
        return false;
      }
      var size := counter.bytesWritten;
      ok := WriteVarint(size);
      if !ok {
        return false;
      }
      if sizing {
        Count(size);
        return true;
      }
      if bytesWritten + size > maxSize {
        return false;
      }
      var substream := new OStream(sink, size);
      ok := substream.WriteMessage(fs, m);
      bytesWritten := bytesWritten + substream.bytesWritten;
      sink := substream.sink;
    }

    method WriteValue(f: Field, v: Value) returns (ok: bool)
      requires Valid() && HasType(f.ltype, v)
      modifies this
      ensures Valid() && (ok <==> CanEncode(f.ltype, v) && old(Fits(|EncodeValue(f.ltype, v)|)))
      ensures ok ==> Wrote(EncodeValue(f.ltype, v))
      decreases f, 0
    {
      hide CanEncodeMessage, EncodeMessage, HasTypes, EncodeScalar, LengthPrefix, Encodes;
      if f.ltype.MessageType? {
        ok := WriteSubmessage(f.ltype.fields, v.slots);
      } else {
        ok := WriteScalar(f.ltype, v);
      }
    }

    method WriteRecord(f: Field, v: Value) returns (ok: bool)
      requires Valid() && HasType(f.ltype, v)
      modifies this
      ensures Valid() && (ok <==> CanEncode(f.ltype, v) && old(Fits(|EncodeRecord(f, v)|))) && (ok ==> Wrote(EncodeRecord(f, v)))
      decreases f, 1
    {
      hide HasType, CanEncode, EncodeValue, EncodeKey;
      ok := WriteKey(WireType(f.ltype), f.tag);
      if ok {
        ok := WriteValue(f, v);
      }
    }

    /** The values of an array, one after the other, or one record each. */
    method WriteItems(f: Field, items: seq<Value>, packed: bool) returns (ok: bool)
      requires Valid() && (forall i :: 0 <= i < |items| ==> HasType(f.ltype, items[i])) && (packed ==> Packable(f.ltype))
      modifies this
      ensures Valid() && (ok <==> AllEncode(f.ltype, items) && old(Fits(|EncodeAll(f, items, packed)|)))
      ensures ok ==> Wrote(EncodeAll(f, items, packed))
      decreases f, 2
    {
      hide HasType, CanEncode, EncodeRecord, EncodeScalar;
      ghost var done: Bytes := [];
      for i := 0 to |items|
        invariant Valid() && Wrote(done)
        invariant forall k :: 0 <= k < i ==> CanEncode(f.ltype, items[k])
        invariant AllEncode(f.ltype, items) ==> EncodeAll(f, items, packed) == done + EncodeAll(f, items[i..], packed)
      {
        var v := items[i];
        assert items[i..][0] == v && items[i..][1..] == items[i + 1..];
        if packed {
          PackedStep(f, v);
          ok := WriteScalar(f.ltype, v);
        } else {
          ok := WriteRecord(f, v);
        }
        if !ok {
          return false;
        }
        done := done + if packed then EncodeScalar(f.ltype, v) else EncodeRecord(f, v);
      }
      assert items[|items|..] == [];
      ok := true;
    }

    /** How long the packed array is. */
    method PackedSize(f: Field, items: seq<Value>) returns (ok: bool, size: nat)
      requires Packable(f.ltype) && forall i :: 0 <= i < |items| ==> HasType(f.ltype, items[i])
      ensures ok <==> AllEncode(f.ltype, items)
      ensures ok ==> size == |EncodeScalars(f.ltype, items)|
      decreases f, 3
    {
      if f.ltype.Fixed32Type? || f.ltype.Fixed64Type? {
        forall i | 0 <= i < |items| ensures CanEncode(f.ltype, items[i]) {
          assert HasType(f.ltype, items[i]);
        }
        FixedScalarsSize(f.ltype, items);
        return true, if f.ltype.Fixed32Type? then 4 * |items| else 8 * |items|;
      }
      var counter := new OStream.Sizing();
      ok := counter.WriteItems(f, items, true);
      size := counter.bytesWritten;
    }

    method WriteArray(f: Field, items: seq<Value>) returns (ok: bool)
      requires Valid() && f.rule.Repeated? && SlotHasType(f, Many(items))
      modifies this
      ensures Valid() && (ok <==> CanEncodeSlot(f, Many(items)) && old(Fits(|EncodeSlot(f, Many(items))|)))
      ensures ok ==> Wrote(EncodeSlot(f, Many(items)))
      decreases f, 4
    {
      hide HasType, CanEncode, EncodeKey, EncodeItems, EncodeScalars, EncodeVarint, EncodeRecord, IsZero;
      if items == [] {
        return true;
      }
      if |items| > f.rule.arraySize {
        return false;
      }
      if !Packable(f.ltype) {
        ok := WriteItems(f, items, false);
        return;
      }
      ok := WriteKey(2, f.tag);
      if !ok {
        return;
      }
      var counted, size := PackedSize(f, items);
      if !counted {
        return false;
      }
      ok := WriteVarint(size);
      if !ok {
        return;
      }
      if sizing {
        Count(size);
        return true;
      }
      ok := WriteItems(f, items, true);
    }

    /** One field of the struct. */
    method WriteSlot(f: Field, s: Slot) returns (ok: bool)
      requires Valid() && SlotHasType(f, s)
      modifies this
      ensures Valid() && (ok <==> CanEncodeSlot(f, s) && old(Fits(|EncodeSlot(f, s)|))) && (ok ==> Wrote(EncodeSlot(f, s)))
      decreases f, 5
    {
      hide HasType, CanEncode, EncodeRecord, EncodeItems, EncodeScalars, IsZero;
      match f.rule
      case Required => ok := WriteRecord(f, s.value);
      case Singular =>
        ok := true;
        if !IsZero(f.ltype, s.value) {
          ok := WriteRecord(f, s.value);
        }
      case Optional =>
        ok := true;
        if s.has {
          ok := WriteRecord(f, s.value);
        }
      case Repeated(_) => ok := WriteArray(f, s.items);
      case Oneof(_) =>
        ok := true;
        if s.chosen.Some? {
          ok := WriteRecord(f, s.chosen.value);
        }
    }

    /** All fields in the order of their descriptors. */
    method WriteMessage(fs: seq<Field>, m: seq<Slot>) returns (ok: bool)
      requires Valid() && HasTypes(fs, m)
      modifies this
      ensures Valid() && (ok <==> CanEncodeMessage(fs, m) && old(Fits(|EncodeMessage(fs, m)|)))
      ensures ok ==> Wrote(EncodeMessage(fs, m))
      decreases fs, 1
    {
      hide SlotHasType, CanEncodeSlot, EncodeSlot;
      ghost var done, order: seq<nat> := [], UpTo(|fs|);
      for i := 0 to |fs|
        invariant Valid() && Wrote(done)
        invariant forall k :: 0 <= k < i ==> CanEncodeSlot(fs[k], m[k])
        invariant CanEncodeMessage(fs, m) ==> EncodeMessage(fs, m) == done + EncodeFields(fs, m, order[i..])
      {
        assert order[i..][0] == i && order[i..][1..] == order[i + 1..];
        ok := WriteSlot(fs[i], m[i]);
        if !ok {
          return false;
        }
        done := done + EncodeSlot(fs[i], m[i]);
      }
      assert order[|fs|..] == [];
      ok := true;
    }
  }

  /** Counting a message says how many bytes writing it takes, and it is written just when there is room. */
  method EncodedSize(fs: seq<Field>, m: seq<Slot>) returns (ok: bool, size: nat)
    requires HasTypes(fs, m)
    ensures ok <==> CanEncodeMessage(fs, m)
    ensures ok ==> size == |EncodeMessage(fs, m)|
  {
    var stream := new OStream.Sizing();
    ok := stream.WriteMessage(fs, m);
    size := stream.bytesWritten;
  }

  /** A string up to its terminator, or all that is stored. */
  method StringIn(b: Bytes, capacity: nat) returns (s: Bytes)
    ensures s == CString(b, capacity)
  {
    var size := 0;
    while size < capacity && size < |b| && b[size] != 0
      invariant size <= capacity && size <= |b| && CString(b, capacity) == b[..size] + CString(b[size..], capacity - size)
    {
      assert b[size..][1..] == b[size + 1..];
      size := size + 1;
    }
    s := b[..size];
  }

  predicate AllEncode(l: LType, items: seq<Value>) {
    forall i :: 0 <= i < |items| ==> CanEncode(l, items[i])
  }

  function EncodeAll(f: Field, items: seq<Value>, packed: bool): Bytes
    requires AllEncode(f.ltype, items) && (packed ==> Packable(f.ltype))
  {
    if packed then EncodeScalars(f.ltype, items) else EncodeItems(f, items)
  }

  lemma PackedStep(f: Field, v: Value)
    requires !f.ltype.MessageType?
    ensures CanEncode(f.ltype, v) <==> Encodes(f.ltype, v)
  {}
}
