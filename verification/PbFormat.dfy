module PbFormats {
  // The wire format of the Protocol Buffers encoding specification, written down without the functions of the codec:
  // what the bytes of a message are, for any encoder.  The encoder of this library writes that format, and its
  // decoder finds varints of any length in it.

  import opened ByteStrings
  import opened Keys
  import opened Coding
  import opened Varints
  import opened PbSchema
  import opened PbWire
  import opened PbMessages

  // ---- The format ----------------------------------------------------------------------------------------------

  /** Negative numbers of a plain varint are written modulo 2 to the 64th, those of a signed one in zigzag. */
  ghost predicate IsScalar(l: LType, v: Value, b: Bytes) {
    match l
    case BoolType => v.Number? && IsNumber(b, if v.n == 0 then 0 else 1)
    case VarintType(_) => v.Number? && IsNumber(b, if v.n >= 0 then v.n else v.n + 0x1_0000_0000_0000_0000)
    case UvarintType(_) => v.Number? && IsNumber(b, v.n)
    case SvarintType(_) => v.Number? && IsNumber(b, if v.n >= 0 then 2 * v.n else -2 * v.n - 1)
    case Fixed32Type => v.Number? && |b| == 4 && LittleEndian(b) == v.n
    case Fixed64Type => v.Number? && |b| == 8 && LittleEndian(b) == v.n
    case BytesType(_) => v.Data? && IsDelimited(b, v.bytes)
    case StringType(_) => v.Data? && IsDelimited(b, v.bytes)
    case FixedBytesType(_) => v.Data? && IsDelimited(b, v.bytes)
    case MessageType(_) => false
  }

  /** The wire types of the specification: a varint is 0, eight bytes are 1, anything with a length is 2, and four
      bytes are 5. */
  function Wire(l: LType): nat {
    match l
    case BoolType => 0
    case VarintType(_) => 0
    case UvarintType(_) => 0
    case SvarintType(_) => 0
    case Fixed64Type => 1
    case Fixed32Type => 5
    case _ => 2
  }

  ghost predicate IsValue(l: LType, v: Value, b: Bytes)
    decreases l, 1
  {
    if l.MessageType? then
      v.Message? && exists k :: 0 <= k <= |b| && IsNumber(b[..k], |b| - k) && IsMessage(l.fields, v.slots, b[k..])
    else IsScalar(l, v, b)
  }

  /** A key, which is the field's number times eight and the wire type, and the value. */
  ghost predicate IsRecord(tag: nat, l: LType, v: Value, b: Bytes)
    decreases l, 2
  {
    exists k :: 0 <= k <= |b| && IsNumber(b[..k], 8 * tag + Wire(l)) && IsValue(l, v, b[k..])
  }

  ghost predicate IsRecords(tag: nat, l: LType, items: seq<Value>, b: Bytes)
    decreases l, 3, |items|
  {
    if items == [] then b == []
    else exists k :: 0 <= k <= |b| && IsRecord(tag, l, items[0], b[..k]) && IsRecords(tag, l, items[1..], b[k..])
  }

  ghost predicate IsScalars(l: LType, items: seq<Value>, b: Bytes)
    decreases |items|
  {
    if items == [] then b == []
    else exists k :: 0 <= k <= |b| && IsScalar(l, items[0], b[..k]) && IsScalars(l, items[1..], b[k..])
  }

  /** All values of an array behind one key. */
  ghost predicate IsPacked(tag: nat, l: LType, items: seq<Value>, b: Bytes) {
    exists k :: 0 <= k <= |b| && IsNumber(b[..k], 8 * tag + 2) && IsBlock(l, items, b[k..])
  }

  ghost predicate IsBlock(l: LType, items: seq<Value>, b: Bytes) {
    exists k :: 0 <= k <= |b| && IsNumber(b[..k], |b| - k) && IsScalars(l, items, b[k..])
  }

  /** A value that is left out where the field has no has-flag: zero, empty, or a message of which nothing is written. */
  ghost predicate IsBlank(l: LType, v: Value)
    decreases l, 2
  {
    match l
    case MessageType(fields) => v.Message? && IsMessage(fields, v.slots, [])
    case BytesType(_) => v == Data([])
    case StringType(_) => v == Data([])
    case FixedBytesType(size) => size == 0
    case _ => v == Number(0)
  }

  /** What is absent takes no bytes; arrays of numbers are packed. */
  ghost predicate IsSlot(f: Field, s: Slot, b: Bytes)
    decreases f
  {
    match s
    case One(v) => if f.rule.Singular? && IsBlank(f.ltype, v) then b == [] else IsRecord(f.tag, f.ltype, v, b)
    case Maybe(has, v) => if has then IsRecord(f.tag, f.ltype, v, b) else b == []
    case Many(items) =>
      if items == [] then b == []
      else if Packable(f.ltype) then IsPacked(f.tag, f.ltype, items, b)
      else IsRecords(f.tag, f.ltype, items, b)
    case Choice(chosen) => if chosen.Some? then IsRecord(f.tag, f.ltype, chosen.value, b) else b == []
  }

  ghost predicate IsFields(fs: seq<Field>, m: seq<Slot>, i: nat, b: Bytes)
    requires i <= |fs| == |m|
    decreases fs, |fs| - i
  {
    if i == |fs| then b == []
    else exists k :: 0 <= k <= |b| && IsSlot(fs[i], m[i], b[..k]) && IsFields(fs, m, i + 1, b[k..])
  }

  /** The fields one after the other in the order of the descriptor. */
  ghost predicate IsMessage(fs: seq<Field>, m: seq<Slot>, b: Bytes)
    decreases fs, |fs| + 1
  {
    |m| == |fs| && IsFields(fs, m, 0, b)
  }

  // ---- Scalars ---------------------------------------------------------------------------------------------------

  lemma NumberIs(n: nat)
    ensures IsNumber(EncodeVarint(n), n)
  {
    VarintMeans(n);
  }

  lemma DelimitedIs(content: Bytes)
    ensures IsDelimited(LengthPrefix(content), content)
    ensures var b := LengthPrefix(content); var k := |EncodeVarint(|content|)|; k <= |b| && IsNumber(b[..k], |content|) && b[k..] == content
  {
    hide IsNumber;
    NumberIs(|content|);
    var k, b := |EncodeVarint(|content|)|, LengthPrefix(content);
    assert b[..k] == EncodeVarint(|content|) && b[k..] == content;
  }

  lemma UnsignedIs(n: int, size: nat)
    requires WidthOk(size) && -Half(size) <= n < 2 * Half(size)
    ensures Unsigned(n) == if n >= 0 then n else n + 0x1_0000_0000_0000_0000
  {}

  lemma ZigZagIs(n: int, size: nat)
    requires WidthOk(size) && -Half(size) <= n < Half(size)
    ensures ZigZag(n) == if n >= 0 then 2 * n else -2 * n - 1
  {}

  /** The bytes of a scalar are what the specification says. */
  lemma ScalarMeans(l: LType, v: Value)
    requires ValueOk(l, v) && TypeOk(l) && !l.MessageType?
    ensures Encodes(l, v) && IsScalar(l, v, EncodeScalar(l, v))
  {
    hide EncodeVarint, IsNumber, LengthPrefix, IsDelimited, EncodeFixed, LittleEndian, CString, Unsigned, ZigZag, Half, Pow256;
    match l
    case BoolType => NumberIs(v.n);
    case VarintType(size) =>
      UnsignedIs(v.n, size);
      NumberIs(Unsigned(v.n));
    case UvarintType(size) =>
      UnsignedIs(v.n, size);
      NumberIs(Unsigned(v.n));
    case SvarintType(size) =>
      ZigZagIs(v.n, size);
      NumberIs(ZigZag(v.n));
    case Fixed32Type =>
      Pow256Of4();
      FixedMeans(4, v.n);
    case Fixed64Type =>
      Pow256Of8();
      SmallIsItself(v.n);
      FixedMeans(8, v.n);
    case BytesType(_) => DelimitedIs(v.bytes);
    case StringType(capacity) =>
      CStringIs(v.bytes, capacity);
      DelimitedIs(v.bytes);
    case FixedBytesType(_) => DelimitedIs(v.bytes);
  }

  // ---- The encoder writes the format --------------------------------------------------------------------------------

  lemma KeyIs(tag: nat, wire: nat, payload: Bytes)
    ensures var b := EncodeKey(tag, wire) + payload; var k := |EncodeKey(tag, wire)|;
            k <= |b| && IsNumber(b[..k], 8 * tag + wire) && b[k..] == payload
  {
    hide IsNumber;
    NumberIs(tag * 8 + wire);
    var b := EncodeKey(tag, wire) + payload;
    assert b[..|EncodeKey(tag, wire)|] == EncodeKey(tag, wire);
  }

  lemma {:induction false} ValueIs(l: LType, v: Value)
    requires TypeOk(l) && ValueOk(l, v) && CanEncode(l, v)
    ensures IsValue(l, v, EncodeValue(l, v))
    decreases l, 1
  {
    hide LengthPrefix, IsNumber, IsScalar, EncodeScalar;
    if l.MessageType? {
      var body := EncodeMessage(l.fields, v.slots);
      DelimitedIs(body);
      MessageIs(l.fields, v.slots);
      var k := |EncodeVarint(|body|)|;
      var b := LengthPrefix(body);
      assert IsNumber(b[..k], |b| - k) && IsMessage(l.fields, v.slots, b[k..]);
    } else {
      ScalarMeans(l, v);
    }
  }

  lemma {:induction false} RecordIs(f: Field, v: Value)
    requires TypeOk(f.ltype) && ValueOk(f.ltype, v) && CanEncode(f.ltype, v)
    ensures IsRecord(f.tag, f.ltype, v, EncodeRecord(f, v))
    decreases f.ltype, 2
  {
    hide IsNumber, IsValue, EncodeValue, EncodeKey;
    ValueIs(f.ltype, v);
    KeyIs(f.tag, WireType(f.ltype), EncodeValue(f.ltype, v));
    assert WireType(f.ltype) == Wire(f.ltype);
  }

  lemma {:induction false} RecordsIs(f: Field, items: seq<Value>)
    requires TypeOk(f.ltype) && forall i :: 0 <= i < |items| ==> ValueOk(f.ltype, items[i]) && CanEncode(f.ltype, items[i])
    ensures IsRecords(f.tag, f.ltype, items, EncodeItems(f, items))
    decreases f.ltype, 3, |items|
  {
    hide IsRecord, ValueOk, TypeOk, CanEncode, EncodeRecord;
    if items != [] {
      var first, b := EncodeRecord(f, items[0]), EncodeItems(f, items);
      RecordIs(f, items[0]);
      RecordsIs(f, items[1..]);
      assert b[..|first|] == first && b[|first|..] == EncodeItems(f, items[1..]);
    }
  }

  lemma {:induction false} ScalarsIs(l: LType, items: seq<Value>)
    requires TypeOk(l) && !l.MessageType? && forall i :: 0 <= i < |items| ==> ValueOk(l, items[i]) && CanEncode(l, items[i])
    ensures IsScalars(l, items, EncodeScalars(l, items))
    decreases |items|
  {
    hide IsScalar, ValueOk, TypeOk, EncodeScalar;
    if items != [] {
      assert ValueOk(l, items[0]) && CanEncode(l, items[0]);
      var first, b := EncodeScalar(l, items[0]), EncodeScalars(l, items);
      ScalarMeans(l, items[0]);
      ScalarsIs(l, items[1..]);
      assert b[..|first|] == first && b[|first|..] == EncodeScalars(l, items[1..]);
    }
  }

  lemma BlockIs(l: LType, items: seq<Value>)
    requires TypeOk(l) && !l.MessageType? && forall i :: 0 <= i < |items| ==> ValueOk(l, items[i]) && CanEncode(l, items[i])
    ensures IsBlock(l, items, LengthPrefix(EncodeScalars(l, items)))
  {
    hide IsNumber, IsScalars, EncodeScalars, LengthPrefix, ValueOk, TypeOk, CanEncode;
    var body := EncodeScalars(l, items);
    ScalarsIs(l, items);
    DelimitedIs(body);
    var b, k := LengthPrefix(body), |EncodeVarint(|body|)|;
    assert IsNumber(b[..k], |b| - k) && IsScalars(l, items, b[k..]);
  }

  lemma PackedIs(f: Field, items: seq<Value>)
    requires TypeOk(f.ltype) && !f.ltype.MessageType?
    requires forall i :: 0 <= i < |items| ==> ValueOk(f.ltype, items[i]) && CanEncode(f.ltype, items[i])
    ensures IsPacked(f.tag, f.ltype, items, EncodeKey(f.tag, 2) + LengthPrefix(EncodeScalars(f.ltype, items)))
  {
    BlockIs(f.ltype, items);
    hide *;
    var body := LengthPrefix(EncodeScalars(f.ltype, items));
    KeyIs(f.tag, 2, body);
    PackedWith(f.tag, f.ltype, items, |EncodeKey(f.tag, 2)|, EncodeKey(f.tag, 2) + body);
  }

  lemma PackedWith(tag: nat, l: LType, items: seq<Value>, k: nat, b: Bytes)
    requires k <= |b| && IsNumber(b[..k], 8 * tag + 2) && IsBlock(l, items, b[k..])
    ensures IsPacked(tag, l, items, b)
  {}

  /** A record has a key at least. */
  lemma RecordIsNotEmpty(tag: nat, l: LType, v: Value)
    ensures !IsRecord(tag, l, v, [])
  {}

  lemma {:induction false} SlotIsEmpty(f: Field, s: Slot)
    requires FieldOk(f) && SlotOk(f, s)
    ensures IsSlot(f, s, []) <==> SlotIsZero(f, s)
    decreases f
  {
    hide IsRecord, IsBlank, IsZero;
    match s
    case One(v) =>
      RecordIsNotEmpty(f.tag, f.ltype, v);
      ZeroIsBlank(f.ltype, v);
    case Maybe(_, v) => RecordIsNotEmpty(f.tag, f.ltype, v);
    case Choice(chosen) =>
      if chosen.Some? {
        RecordIsNotEmpty(f.tag, f.ltype, chosen.value);
      }
    case Many(items) =>
      if items != [] {
        RecordIsNotEmpty(f.tag, f.ltype, items[0]);
        var empty: Bytes := [];
        assert empty[..0] == [];
      }
  }

  lemma {:induction false} FieldsAreEmpty(fs: seq<Field>, m: seq<Slot>, i: nat)
    requires i <= |fs| == |m|
    ensures IsFields(fs, m, i, []) <==> forall j :: i <= j < |fs| ==> IsSlot(fs[j], m[j], [])
    decreases |fs| - i
  {
    hide IsSlot;
    if i < |fs| {
      FieldsAreEmpty(fs, m, i + 1);
      var empty: Bytes := [];
      assert empty[..0] == [] && empty[0..] == [];
    }
  }

  /** The encoder leaves out what is blank, and nothing else. */
  lemma {:induction false} ZeroIsBlank(l: LType, v: Value)
    requires TypeOk(l) && ValueOk(l, v)
    ensures IsZero(l, v) <==> IsBlank(l, v)
    decreases l
  {
    if l.MessageType? {
      var fs := l.fields;
      FieldsAreEmpty(fs, v.slots, 0);
      forall i | 0 <= i < |fs| ensures IsSlot(fs[i], v.slots[i], []) <==> SlotIsZero(fs[i], v.slots[i]) {
        assert FieldOk(fs[i]) && SlotOk(fs[i], v.slots[i]);
        SlotIsEmpty(fs[i], v.slots[i]);
      }
    }
  }

  lemma {:induction false} SlotIs(f: Field, s: Slot)
    requires FieldOk(f) && SlotOk(f, s) && CanEncodeSlot(f, s)
    ensures IsSlot(f, s, EncodeSlot(f, s))
    decreases f
  {
    hide IsRecord, IsRecords, IsPacked, IsBlank, IsZero, ValueOk, TypeOk, CanEncode, EncodeRecord, EncodeItems, EncodeKey, LengthPrefix;
    match s
    case One(v) =>
      ZeroIsBlank(f.ltype, v);
      if !(f.rule.Singular? && IsZero(f.ltype, v)) {
        RecordIs(f, v);
      }
    case Maybe(has, v) =>
      if has {
        RecordIs(f, v);
      }
    case Choice(chosen) =>
      if chosen.Some? {
        RecordIs(f, chosen.value);
      }
    case Many(items) =>
      if Packable(f.ltype) {
        PackedIs(f, items);
      } else {
        RecordsIs(f, items);
      }
  }

  lemma {:induction false} FieldsIs(fs: seq<Field>, m: seq<Slot>, i: nat)
    requires DescriptorOk(fs) && MessageOk(fs, m) && CanEncodeMessage(fs, m) && i <= |fs|
    ensures IsFields(fs, m, i, EncodeFields(fs, m, UpTo(|fs|)[i..]))
    decreases fs, |fs| - i
  {
    hide IsSlot, EncodeSlot, FieldOk, SlotOk, CanEncodeSlot;
    if i < |fs| {
      var order := UpTo(|fs|);
      assert order[i..][0] == i && order[i..][1..] == order[i + 1..];
      assert FieldOk(fs[i]) && SlotOk(fs[i], m[i]) && CanEncodeSlot(fs[i], m[i]);
      SlotIs(fs[i], m[i]);
      FieldsIs(fs, m, i + 1);
      var first, b := EncodeSlot(fs[i], m[i]), EncodeFields(fs, m, order[i..]);
      assert b[..|first|] == first && b[|first|..] == EncodeFields(fs, m, order[i + 1..]);
    }
  }

  /** What the encoder writes for a proper message is the message in the format of the specification. */
  lemma {:induction false} MessageIs(fs: seq<Field>, m: seq<Slot>)
    requires DescriptorOk(fs) && MessageOk(fs, m) && CanEncodeMessage(fs, m)
    ensures IsMessage(fs, m, EncodeMessage(fs, m))
    decreases fs, |fs| + 1
  {
    hide IsFields, EncodeFields, DescriptorOk, CanEncodeMessage;
    FieldsIs(fs, m, 0);
    assert UpTo(|fs|)[0..] == UpTo(|fs|);
  }

  // ---- The decoder reads the format -----------------------------------------------------------------------------------

  /** From the sixth byte on, the bytes carry nothing, or they extend the sign of a negative number to 64 bits. */
  ghost predicate IsExtended(b: Bytes, g: nat, value: nat) {
    forall i :: 0 <= i < |b| && g + i >= 5 ==>
      b[i] % 128 == 0 || (value >= 0x8000_0000 && b[i] == if g + i < 9 then 0xff else 0x01)
  }

  function Longer(byte: Byte, g: nat, result: nat): nat {
    if g > 4 then result else result + byte % 128 * Scale(g) % TWO_32
  }

  /** What the groups from `g` on make of `result`. */
  function TailValue(b: Bytes, g: nat, result: nat): nat {
    if g > 4 then result else (result + Scale(g) * Base128(b)) % TWO_32
  }

  ghost predicate Below(g: nat, result: nat) {
    g >= 1 && result < if g <= 4 then Scale(g) else TWO_32
  }

  lemma GroupValue(g: nat, result: nat, low: nat, rest: nat)
    requires 1 <= g <= 4 && result < Scale(g) && low < 128
    ensures var longer := result + low * Scale(g) % TWO_32;
            && longer < TWO_32
            && (g < 4 ==> longer < Scale(g + 1))
            && (result + Scale(g) * (low + 128 * rest)) % TWO_32 == if g == 4 then longer else (longer + Scale(g + 1) * rest) % TWO_32
  {
    if g == 4 {
      assert result + Scale(g) * (low + 128 * rest) == result + low * 0x1000_0000 + 8 * rest * TWO_32;
    }
  }

  lemma TailValueStep(b: Bytes, g: nat, result: nat)
    requires b != [] && Below(g, result)
    ensures var longer := Longer(b[0], g, result);
            Below(g + 1, longer) && TailValue(b, g, result) == TailValue(b[1..], g + 1, longer)
  {
    if g <= 4 {
      GroupValue(g, result, b[0] % 128, Base128(b[1..]));
      hide Scale;
    }
  }

  lemma TailUnfolds(b: Bytes, g: nat, result: nat)
    requires b != [] && g >= 1
    ensures var rest := VarintTail(b[1..], g + 1, Longer(b[0], g, result));
            VarintTail(b, g, result) ==
              if (g > 4 && !ExtensionOk(b[0], g, result)) || (g == 4 && 16 <= b[0] < 128) then None
              else if b[0] < 128 then Some(Parsed(Longer(b[0], g, result), 1))
              else if rest.None? then None
              else Some(Parsed(rest.value.value, rest.value.used + 1))
  {
    hide Scale, ExtensionOk;
  }

  /** The rest of a varint from its group `g` on, where the groups before are worth `result`. */
  lemma {:induction false} TailMeans(b: Bytes, g: nat, result: nat, n: nat)
    requires 0 < n <= |b| && IsVarint(b[..n]) && Below(g, result)
    ensures var value := TailValue(b[..n], g, result);
            VarintTail(b, g, result) ==
              if IsExtended(b[..n], g, value) && (g + n == 5 ==> b[n - 1] < 16) then Some(Parsed(value, n)) else None
    decreases n
  {
    TailUnfolds(b, g, result);
    TailValueStep(b[..n], g, result);
    var longer := Longer(b[0], g, result);
    hide VarintTail, IsExtended, Longer, Scale;
    var value := TailValue(b[..n], g, result);
    ExtendedTail(b[..n], g, value);
    assert g > 4 ==> value == result;
    if n == 1 {
      assert b[..n][1..] == [];
      NothingLeft(g + 1, longer);
    } else {
      hide TailValue, Below;
      assert b[..n][0] >= 128 && b[..n][1..] == b[1..][..n - 1];
      TailMeans(b[1..], g + 1, longer, n - 1);
    }
  }

  lemma NothingLeft(g: nat, result: nat)
    requires Below(g, result)
    ensures IsExtended([], g, result) && TailValue([], g, result) == result
  {}

  lemma ExtendedTail(b: Bytes, g: nat, value: nat)
    requires b != []
    ensures IsExtended(b, g, value) <==>
      IsExtended(b[1..], g + 1, value)
      && (g >= 5 ==> b[0] % 128 == 0 || (value >= 0x8000_0000 && b[0] == if g < 9 then 0xff else 0x01))
  {
    if IsExtended(b, g, value) {
      forall i | 0 <= i < |b[1..]| && g + 1 + i >= 5
        ensures b[1..][i] % 128 == 0 || (value >= 0x8000_0000 && b[1..][i] == if g + 1 + i < 9 then 0xff else 0x01)
      {
        assert b[1..][i] == b[i + 1];
      }
    }
    if IsExtended(b[1..], g + 1, value) {
      forall i | 1 <= i < |b| && g + i >= 5
        ensures b[i] % 128 == 0 || (value >= 0x8000_0000 && b[i] == if g + i < 9 then 0xff else 0x01)
      {
        assert b[i] == b[1..][i - 1];
      }
    }
  }

  lemma Scaled(p: nat, q: nat)
    ensures 128 * p * q == 128 * (p * q)
  {}

  lemma {:induction false} Base128Splits(b: Bytes, k: nat)
    requires k <= |b|
    ensures Base128(b[..k]) < Pow128(k) && Base128(b) == Base128(b[..k]) + Pow128(k) * Base128(b[k..])
  {
    if k == 0 {
      assert b[0..] == b;
    } else {
      Base128Splits(b[1..], k - 1);
      assert b[..k][1..] == b[1..][..k - 1] && b[k..] == b[1..][k - 1..];
      Scaled(Pow128(k - 1), Base128(b[k..]));
    }
  }

  lemma FitsIn32(b: Bytes)
    requires IsVarint(b) && |b| <= 5
    ensures Base128(b) < 0x1_0000_0000 <==> (|b| == 5 ==> b[4] < 16)
  {
    assert Pow128(4) == 128 * Pow128(3) == 16384 * Pow128(2) == 0x1000_0000;
    if |b| == 5 {
      Base128Splits(b, 4);
      assert b[4..] == [b[4]] && b[4..][1..] == [];
    } else {
      Base128Splits(b, |b|);
      assert b[..|b|] == b;
      assert Pow128(1) == 128;
    }
  }

  lemma ShortIsExtended(b: Bytes, value: nat)
    requires |b| <= 5
    ensures IsExtended(b, 0, value)
  {}

  lemma LongVarint32(b: Bytes, n: nat)
    requires 1 < n <= |b| && IsVarint(b[..n])
    ensures var value := Base128(b[..n]) % TWO_32;
            DecodeVarint32(b) == if IsExtended(b[..n], 0, value) && (n == 5 ==> b[4] < 16) then Some(Parsed(value, n)) else None
  {
    hide VarintTail, IsExtended;
    var tail := b[1..][..n - 1];
    assert b[..n][0] >= 128 && b[..n][1..] == tail;
    TailMeans(b[1..], 1, b[0] % 128, n - 1);
    assert TailValue(tail, 1, b[0] % 128) == Base128(b[..n]) % TWO_32;
    hide TailValue, Base128;
    ExtendedTail(b[..n], 0, Base128(b[..n]) % TWO_32);
  }

  /** Which varints are taken as 32-bit numbers, and as what: those of up to five bytes if they fit, and longer ones
      if they add nothing but the sign of a negative number. */
  lemma Varint32Means(b: Bytes, n: nat)
    requires 0 < n <= |b| && IsVarint(b[..n])
    ensures var value := Base128(b[..n]) % 0x1_0000_0000;
            DecodeVarint32(b) ==
              if (if n <= 5 then Base128(b[..n]) == value else IsExtended(b[..n], 0, value)) then Some(Parsed(value, n)) else None
  {
    if n <= 5 {
      ShortVarint32(b, n);
      FitsIff(Base128(b[..n]));
    } else {
      LongVarint32(b, n);
    }
    hide DecodeVarint32, Base128, IsExtended, IsVarint;
  }

  lemma FitsIff(x: nat)
    ensures x == x % 0x1_0000_0000 <==> x < 0x1_0000_0000
  {}

  lemma ShortVarint32(b: Bytes, n: nat)
    requires 0 < n <= |b| && n <= 5 && IsVarint(b[..n])
    ensures DecodeVarint32(b) == if Base128(b[..n]) < 0x1_0000_0000 then Some(Parsed(Base128(b[..n]), n)) else None
  {
    if n == 1 {
      OneByte(b);
    } else {
      LongVarint32(b, n);
      FitsIn32(b[..n]);
      FitsIff(Base128(b[..n]));
      ShortIsExtended(b[..n], Base128(b[..n]) % TWO_32);
    }
    hide DecodeVarint32, Base128, IsExtended, IsVarint;
  }

  lemma OneByte(b: Bytes)
    requires b != [] && IsVarint(b[..1])
    ensures DecodeVarint32(b) == Some(Parsed(Base128(b[..1]), 1)) && Base128(b[..1]) < 128
  {
    assert b[..1][1..] == [];
  }

  /** Without an end there is no varint. */
  lemma {:induction false} UnendedIsRefused(b: Bytes)
    requires forall i :: 0 <= i < |b| ==> b[i] >= 128
    ensures DecodeVarint32(b) == None
  {
    if b != [] {
      UnendedTail(b[1..], 1, b[0] % 128);
    }
  }

  lemma {:induction false} UnendedTail(b: Bytes, g: nat, result: nat)
    requires forall i :: 0 <= i < |b| ==> b[i] >= 128
    ensures VarintTail(b, g, result) == None
    decreases |b|
  {
    if b != [] {
      UnendedTail(b[1..], g + 1, if g > 4 then result else result + b[0] % 128 * Scale(g) % TWO_32);
    }
  }

  /** Which number a varint of an integer field is read as: the one in the range of the field that it stands for,
      modulo 2 to the 64th.  Of a negative number in a field of less than eight bytes the lower 32 bits are enough. */
  ghost predicate Stands(l: LType, n: int, sum: nat) {
    match l
    case VarintType(size) => 0 <= 2 * n + Pow256(size) < 2 * Pow256(size) && (n - sum) % (if size == 8 then TWO_64 else TWO_32) == 0
    case UvarintType(size) => 0 <= n < Pow256(size) && n == sum % TWO_64
    case SvarintType(size) => 0 <= 2 * n + Pow256(size) < 2 * Pow256(size) && (if n >= 0 then 2 * n else -2 * n - 1) == sum % TWO_64
    case _ => false
  }

  lemma RangeIs(size: nat)
    requires WidthOk(size)
    ensures 2 * Half(size) == Pow256(size)
  {
    Pow256Of4();
    Pow256Of8();
    assert Pow256(2) == 256 * Pow256(1) == 65536;
  }

  lemma SameRemainder(sum: nat)
    ensures sum % TWO_64 % TWO_32 == sum % TWO_32
  {
    var q, u := sum / TWO_64, sum % TWO_64;
    assert sum == q * TWO_64 + u && TWO_64 == TWO_32 * TWO_32;
    assert sum == (q * TWO_32 + u / TWO_32) * TWO_32 + u % TWO_32;
  }

  lemma In64(x: nat, q: nat, n: int)
    requires x < TWO_64
    ensures (if x < 0x8000_0000_0000_0000 then x else x - TWO_64) == n <==>
      -0x8000_0000_0000_0000 <= n < 0x8000_0000_0000_0000 && (n - (q * TWO_64 + x)) % TWO_64 == 0
  {}

  lemma In32(x: nat, q: nat, n: int)
    requires x < TWO_32
    ensures (if x < 0x8000_0000 then x else x - TWO_32) == n <==>
      -0x8000_0000 <= n < 0x8000_0000 && (n - (q * TWO_32 + x)) % TWO_32 == 0
  {}

  /** The cast to a signed number is the number in range with the same remainder. */
  lemma CastMeans(sum: nat, size: nat, n: int)
    requires size == 4 || size == 8
    ensures Signed(sum % TWO_64, size) == n <==> -Half(size) <= n < Half(size) && (n - sum) % (if size == 8 then TWO_64 else TWO_32) == 0
  {
    if size == 8 {
      In64(sum % TWO_64, sum / TWO_64, n);
    } else {
      SameRemainder(sum);
      In32(sum % TWO_32, sum / TWO_32, n);
    }
  }

  /** Casting down and up keeps a number just when it fits. */
  lemma KeptIffFits(value: int, size: nat)
    requires WidthOk(size)
    ensures Signed(Unsigned(value), size) == value <==> -Half(size) <= value < Half(size)
  {
    if -Half(size) <= value < Half(size) {
      SignedBack(value, size);
    }
  }

  lemma SignedMeans(sum: nat, size: nat, n: int)
    requires WidthOk(size)
    ensures NarrowSigned(sum % TWO_64, size) == Some(n) <==> -Half(size) <= n < Half(size) && (n - sum) % (if size == 8 then TWO_64 else TWO_32) == 0
  {
    var wide := if size == 8 then 8 else 4;
    var value := Signed(sum % TWO_64, wide);
    CastMeans(sum, wide, n);
    KeptIffFits(value, size);
    hide Signed;
  }

  lemma ZigZagMeans(u: nat, size: nat, n: int)
    requires WidthOk(size) && u < TWO_64
    ensures NarrowZigZag(u, size) == Some(n) <==> -Half(size) <= n < Half(size) && (if n >= 0 then 2 * n else -2 * n - 1) == u
  {
    KeptIffFits(UnZigZag(u), size);
    hide Signed;
  }

  lemma GotMeans(l: LType, sum: nat, k: nat, n: int, used: nat)
    requires TypeOk(l) && (l.VarintType? || l.UvarintType? || l.SvarintType?)
    ensures GotVarint(l, sum % TWO_64, k) == Some(Got(Number(n), used)) <==> used == k && Stands(l, n, sum)
  {
    RangeIs(l.size);
    hide NarrowSigned, NarrowZigZag, Pow256, Half;
    match l
    case VarintType(size) => SignedMeans(sum, size, n);
    case UvarintType(size) =>
    case SvarintType(size) => ZigZagMeans(sum % TWO_64, size, n);
  }

  /** An integer field is read from a varint of up to ten bytes that stands for a number in its range. */
  lemma IntegerMeans(l: LType, b: Bytes, k: nat, n: int, used: nat)
    requires TypeOk(l) && (l.VarintType? || l.UvarintType? || l.SvarintType?)
    requires 0 < k <= |b| && IsVarint(b[..k])
    ensures DecodeScalar(l, b) == Some(Got(Number(n), used)) <==> used == k <= 10 && Stands(l, n, Base128(b[..k]))
  {
    hide GetVarint64, IsVarint, Base128, GotVarint, Stands;
    GetVarint64Means(b, k);
    GotMeans(l, Base128(b[..k]), k, n, used);
  }
}
