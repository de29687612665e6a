module PbVersions {
  // What was written under one version of a message descriptor is read under another one: fields that the reader
  // does not know are passed over, fields that the writer does not know stay as they were, messages inside
  // messages are merged, and only a missing required field or an array without room stands in the way.

  import opened ByteStrings
  import opened Keys
  import opened Coding
  import opened Varints
  import opened PbSchema
  import opened PbWire
  import opened PbMessages
  import opened PbRoundTrip
  import opened PbFormats
  import opened PbSafety

  // ---- Unknown fields --------------------------------------------------------------------------------------------

  /** The bytes that follow a key of a wire type that the specification knows. */
  ghost predicate IsPayload(wire: nat, b: Bytes) {
    || (wire == 0 && IsVarint(b))
    || (wire == 1 && |b| == 8)
    || (wire == 2 && exists k :: 0 <= k <= |b| && IsNumber(b[..k], |b| - k))
    || (wire == 5 && |b| == 4)
  }

  lemma VarintIsPrefix(b: Bytes, rest: Bytes)
    requires IsVarint(b)
    ensures (b + rest)[..|b|] == b
  {}

  lemma {:induction false} VarintLengthMeans(b: Bytes, rest: Bytes)
    requires IsVarint(b)
    ensures VarintLength(b + rest) == Some(|b|)
    decreases |b|
  {
    if |b| > 1 {
      assert b[0] >= 128 && (b + rest)[1..] == b[1..] + rest;
      VarintLengthMeans(b[1..], rest);
    }
  }

  /** A number that fits 32 bits is read from its varint, however many bytes that has. */
  lemma NumberBack(b: Bytes, n: nat, rest: Bytes)
    requires IsNumber(b, n) && n < TWO_32
    ensures DecodeVarint32(b + rest) == Some(Parsed(n, |b|))
  {
    VarintIsPrefix(b, rest);
    Varint32Means(b + rest, |b|);
    if |b| > 5 {
      HighBytesAreBlank(b);
    }
  }

  lemma {:induction false} HighBytesAreBlank(b: Bytes)
    requires IsVarint(b) && |b| > 5 && Base128(b) < TWO_32
    ensures IsExtended(b, 0, Base128(b))
  {
    forall i | 5 <= i < |b| ensures b[i] % 128 == 0 {
      HighByteIsBlank(b, i);
    }
  }

  lemma HighByteIsBlank(b: Bytes, i: nat)
    requires 5 <= i < |b| && Base128(b) < TWO_32
    ensures b[i] % 128 == 0
  {
    Base128Splits(b, i);
    Pow128Values();
    Pow128Grows(5, i);
    assert b[i..][0] == b[i];
    if b[i] % 128 > 0 {
      assert Base128(b[i..]) >= 1;
      AtLeastOnce(Pow128(i), Base128(b[i..]));
      assert false;
    }
  }

  lemma AtLeastOnce(p: nat, q: nat)
    requires q >= 1
    ensures p * q >= p
  {}

  lemma {:induction false} Pow128Grows(m: nat, n: nat)
    requires m <= n
    ensures Pow128(m) <= Pow128(n)
    decreases n
  {
    if m < n {
      Pow128Grows(m, n - 1);
    }
  }

  lemma PayloadIsSkipped(wire: nat, b: Bytes, rest: Bytes)
    requires IsPayload(wire, b) && |b| < TWO_32
    ensures SkipLength(wire, b + rest) == Some(|b|)
  {
    hide DecodeVarint32, IsVarint, IsNumber, VarintLength;
    if wire == 0 {
      VarintLengthMeans(b, rest);
    } else if wire == 2 {
      var k :| 0 <= k <= |b| && IsNumber(b[..k], |b| - k);
      assert b + rest == b[..k] + (b[k..] + rest);
      NumberBack(b[..k], |b| - k, b[k..] + rest);
    }
  }

  /** A record of a number that no field has is passed over, whatever comes before and after. */
  lemma UnknownIsSkipped(fs: seq<Field>, tag: nat, wire: nat, key: Bytes, payload: Bytes, rest: Bytes, m: seq<Slot>, seen: set<nat>)
    requires |m| == |fs| && 0 < tag < 0x2000_0000 && forall i :: 0 <= i < |fs| ==> fs[i].tag != tag
    requires wire < 8 && IsNumber(key, 8 * tag + wire) && IsPayload(wire, payload) && |payload| < TWO_32
    ensures DecodeRecords(fs, key + payload + rest, m, seen) == DecodeRecords(fs, rest, m, seen)
  {
    hide DecodeVarint32, SkipLength, IsNumber, IsPayload, FieldIndex;
    var b := key + payload + rest;
    assert b == key + (payload + rest) && b[|key|..] == payload + rest && (payload + rest)[|payload|..] == rest;
    NumberBack(key, 8 * tag + wire, payload + rest);
    KeyParts(tag, wire);
    FieldIndexNone(fs, tag);
    PayloadIsSkipped(wire, payload, rest);
  }

  /** A varint that does not end, or fewer bytes than the length says. */
  ghost predicate IsTooShort(wire: nat, b: Bytes) {
    || (forall i :: 0 <= i < |b| ==> b[i] >= 128)
    || (wire == 2 && exists k :: 0 <= k <= |b| && IsVarint(b[..k]) && |b| - k < Base128(b[..k]) < TWO_32)
  }

  /** A record of an unknown number is refused if its wire type is not one of those, or its bytes are not all there. */
  lemma UnknownIsRefused(fs: seq<Field>, tag: nat, wire: nat, key: Bytes, b: Bytes, m: seq<Slot>, seen: set<nat>)
    requires |m| == |fs| && 0 < tag < 0x2000_0000 && forall i :: 0 <= i < |fs| ==> fs[i].tag != tag
    requires wire < 8 && IsNumber(key, 8 * tag + wire)
    requires (wire !in {0, 1, 2, 5}) || (wire == 1 && |b| < 8) || (wire == 5 && |b| < 4) || (wire in {0, 2} && IsTooShort(wire, b))
    ensures DecodeRecords(fs, key + b, m, seen) == None
  {
    hide DecodeVarint32, IsNumber, FieldIndex, SkipLength, IsTooShort;
    assert (key + b)[|key|..] == b;
    NumberBack(key, 8 * tag + wire, b);
    KeyParts(tag, wire);
    FieldIndexNone(fs, tag);
    ShortIsNotSkipped(wire, b);
  }

  lemma ShortIsNotSkipped(wire: nat, b: Bytes)
    requires (wire !in {0, 1, 2, 5}) || (wire == 1 && |b| < 8) || (wire == 5 && |b| < 4) || (wire in {0, 2} && IsTooShort(wire, b))
    ensures SkipLength(wire, b) == None
  {
    hide DecodeVarint32;
    if wire in {0, 2} {
      if forall i :: 0 <= i < |b| ==> b[i] >= 128 {
        UnendedIsRefused(b);
        UnendedIsEndless(b);
      } else {
        var k :| 0 <= k <= |b| && IsVarint(b[..k]) && |b| - k < Base128(b[..k]) < TWO_32;
        assert b == b[..k] + b[k..];
        NumberBack(b[..k], Base128(b[..k]), b[k..]);
      }
    }
  }

  lemma {:induction false} UnendedIsEndless(b: Bytes)
    requires forall i :: 0 <= i < |b| ==> b[i] >= 128
    ensures VarintLength(b) == None
  {
    if b != [] {
      UnendedIsEndless(b[1..]);
    }
  }

  /** A zero key ends the message. */
  lemma ZeroKeyEnds(fs: seq<Field>, key: Bytes, b: Bytes, m: seq<Slot>, seen: set<nat>)
    requires |m| == |fs| && IsNumber(key, 0)
    ensures DecodeRecords(fs, key + b, m, seen) == Some(Reading(m, seen))
  {
    hide DecodeVarint32;
    NumberBack(key, 0, b);
  }

  // ---- Values as they may come from any writer ---------------------------------------------------------------------

  /** Any number but zero is true. */
  lemma BoolMeans(b: Bytes, k: nat)
    requires 0 < k <= |b| && IsVarint(b[..k]) && Base128(b[..k]) < TWO_32
    ensures DecodeScalar(BoolType, b) == Some(Got(Number(if Base128(b[..k]) == 0 then 0 else 1), k))
  {
    assert b[..k] + b[k..] == b;
    NumberBack(b[..k], Base128(b[..k]), b[k..]);
  }

  lemma FixedMeansNumber(l: LType, b: Bytes)
    requires l.Fixed32Type? || l.Fixed64Type?
    ensures var n := if l.Fixed32Type? then 4 else 8;
            DecodeScalar(l, b) == if |b| < n then None else Some(Got(Number(LittleEndian(b[..n])), n))
  {
    var n := if l.Fixed32Type? then 4 else 8;
    if |b| >= n {
      DecodeFixedMeans(n, b);
    }
  }

  /** `s` is the text in `content`, which ends at the first zero or with the content. */
  ghost predicate IsText(s: Bytes, content: Bytes) {
    s <= content && 0 !in s && (|s| < |content| ==> content[|s|] == 0)
  }

  lemma {:induction false} CStringIsText(b: Bytes, capacity: nat)
    requires |b| <= capacity
    ensures IsText(CString(b, capacity), b)
  {
    if b != [] && b[0] != 0 {
      CStringIsText(b[1..], capacity - 1);
    }
  }

  /** Which values behind a length fit a field: bytes up to its size, text with its terminator, and just as many bytes
      as a field of fixed length has, or none for all zeros. */
  lemma DataMeans(l: LType, b: Bytes, k: nat)
    requires l.BytesType? || l.StringType? || l.FixedBytesType?
    requires 0 < k <= |b| && IsVarint(b[..k]) && Base128(b[..k]) < TWO_32
    ensures var n := Base128(b[..k]);
            var r := DecodeScalar(l, b);
            if |b| - k < n then r == None
            else
              var content := b[k..k + n];
              match l
              case BytesType(capacity) => r == if n <= capacity then Some(Got(Data(content), k + n)) else None
              case StringType(capacity) => if n < capacity then exists s :: IsText(s, content) && r == Some(Got(Data(s), k + n)) else r == None
              case FixedBytesType(size) => r == if n == size then Some(Got(Data(content), k + n)) else if n == 0 then Some(Got(Data(seq(size, _ => 0)), k + n)) else None
              case _ => false
  {
    hide DecodeVarint32, IsVarint, Base128, IsText;
    var n := Base128(b[..k]);
    assert b[..k] + b[k..] == b;
    NumberBack(b[..k], n, b[k..]);
    if |b| - k >= n {
      var content := b[k..k + n];
      assert l.FixedBytesType? && n == 0 && l.size == 0 ==> content == seq(l.size, _ => 0);
      if l.StringType? && n < l.capacity {
        CStringIsText(content, l.capacity);
      }
    }
  }

  // ---- Two versions of a descriptor --------------------------------------------------------------------------------

  /** Fields of the same number have the same rule and the same type; arrays may differ in size, and messages again be
      versions of each other. */
  ghost predicate Versions(fs: seq<Field>, fs2: seq<Field>)
    decreases fs
  {
    forall i, j :: 0 <= i < |fs| && 0 <= j < |fs2| && fs[i].tag == fs2[j].tag ==> SameField(fs[i], fs2[j])
  }

  ghost predicate SameField(f: Field, f2: Field)
    decreases f
  {
    && (f.rule == f2.rule || (f.rule.Repeated? && f2.rule.Repeated?))
    && SameType(f.ltype, f2.ltype)
  }

  ghost predicate SameType(l: LType, l2: LType)
    decreases l
  {
    if l.MessageType? then l2.MessageType? && Versions(l.fields, l2.fields) else l == l2
  }

  // ---- What is read ------------------------------------------------------------------------------------------------

  /** What a value starts from where there is none yet. */
  function Fresh(l: LType): Value {
    if l.MessageType? then Message(DefaultMessage(l.fields)) else Number(0)
  }

  /** A message is merged into what there was, anything else replaces it. */
  ghost function Onto(l: LType, was: Value, l2: LType, v: Value): Option<Value>
    decreases l, 0
  {
    if l.MessageType? && l2.MessageType? && v.Message? && |v.slots| == |l2.fields| then
      var base := if was.Message? && |was.slots| == |l.fields| then was.slots else DefaultMessage(l.fields);
      var r := ReadOnto(l.fields, base, l2.fields, v.slots);
      if r.None? then None else Some(Message(r.value))
    else Some(v)
  }

  ghost function AllOnto(l: LType, l2: LType, items: seq<Value>): Option<seq<Value>>
    decreases l, 1, |items|
  {
    if items == [] then Some([])
    else
      var first, rest := Onto(l, Fresh(l), l2, items[0]), AllOnto(l, l2, items[1..]);
      if first.None? || rest.None? then None else Some([first.value] + rest.value)
  }

  /** What is absent changes nothing, an array is appended, and a member of a union starts afresh. */
  ghost function SlotOnto(f: Field, s: Slot, f2: Field, s2: Slot): Option<Slot>
    decreases f
  {
    match s2
    case One(v) =>
      if f2.rule.Singular? && IsZero(f2.ltype, v) then Some(s)
      else
        var x := Onto(f.ltype, if s.One? then s.value else Fresh(f.ltype), f2.ltype, v);
        if x.None? then None else Some(One(x.value))
    case Maybe(has, v) =>
      if !has then Some(s)
      else
        var x := Onto(f.ltype, if s.Maybe? then s.value else Fresh(f.ltype), f2.ltype, v);
        if x.None? then None else Some(Maybe(true, x.value))
    case Many(items) =>
      var xs := AllOnto(f.ltype, f2.ltype, items);
      if xs.None? || !f.rule.Repeated? || !s.Many? || |s.items| + |items| > f.rule.arraySize then None
      else Some(Many(s.items + xs.value))
    case Choice(chosen) =>
      if chosen.None? then Some(s)
      else
        var x := Onto(f.ltype, Fresh(f.ltype), f2.ltype, chosen.value);
        if x.None? then None else Some(Choice(Some(x.value)))
  }

  /** Field `j` of the writer is another member of the union of field `i`, and the reader knows it too. */
  ghost predicate Displaces(fs: seq<Field>, fs2: seq<Field>, m2: seq<Slot>, j: nat, i: nat)
    requires |m2| == |fs2| && j < |fs2| && i < |fs|
  {
    && fs[i].rule.Oneof? && fs2[j].rule == fs[i].rule && m2[j] != Choice(None)
    && exists k :: 0 <= k < |fs| && k != i && fs[k].tag == fs2[j].tag
  }

  ghost predicate Displaced(fs: seq<Field>, fs2: seq<Field>, m2: seq<Slot>, n: nat, i: nat)
    requires |m2| == |fs2| && n <= |fs2| && i < |fs|
  {
    exists j :: 0 <= j < n && Displaces(fs, fs2, m2, j, i)
  }

  /** Slot `i` of the reader after the first `n` fields of the writer. */
  ghost function SlotAfter(fs: seq<Field>, base: seq<Slot>, fs2: seq<Field>, m2: seq<Slot>, n: nat, i: nat): Option<Slot>
    requires |base| == |fs| && |m2| == |fs2| && n <= |fs2| && i < |fs|
    decreases fs, 0
  {
    var j := FieldIndex(fs2, fs[i].tag);
    if Displaced(fs, fs2, m2, n, i) then Some(Choice(None))
    else if j.Some? && j.value < n then SlotOnto(fs[i], base[i], fs2[j.value], m2[j.value])
    else Some(base[i])
  }

  ghost predicate Readable(fs: seq<Field>, base: seq<Slot>, fs2: seq<Field>, m2: seq<Slot>, n: nat)
    requires |base| == |fs| && |m2| == |fs2| && n <= |fs2|
    decreases fs, 1
  {
    forall i :: 0 <= i < |fs| ==> SlotAfter(fs, base, fs2, m2, n, i).Some?
  }

  ghost function SlotsAfter(fs: seq<Field>, base: seq<Slot>, fs2: seq<Field>, m2: seq<Slot>, n: nat): (r: seq<Slot>)
    requires |base| == |fs| && |m2| == |fs2| && n <= |fs2| && Readable(fs, base, fs2, m2, n)
    ensures |r| == |fs|
    decreases fs, 2
  {
    seq(|fs|, i requires 0 <= i < |fs| => SlotAfter(fs, base, fs2, m2, n, i).value)
  }

  /** The writer knows all required fields that the reader tracks. */
  ghost predicate KnowsRequired(fs: seq<Field>, fs2: seq<Field>) {
    forall i :: 0 <= i < |fs| && Tracked(fs, i) ==> FieldIndex(fs2, fs[i].tag).Some?
  }

  ghost function ReadOnto(fs: seq<Field>, base: seq<Slot>, fs2: seq<Field>, m2: seq<Slot>): (r: Option<seq<Slot>>)
    requires |base| == |fs| && |m2| == |fs2|
    ensures r.Some? ==> |r.value| == |fs|
    decreases fs, 3
  {
    if Readable(fs, base, fs2, m2, |fs2|) && KnowsRequired(fs, fs2) then Some(SlotsAfter(fs, base, fs2, m2, |fs2|)) else None
  }

  // ---- What the writer alone knows -----------------------------------------------------------------------------------

  lemma ValueIsPayload(l: LType, v: Value, b: Bytes)
    requires IsValue(l, v, b)
    ensures IsPayload(Wire(l), b)
  {
    hide IsNumber, IsMessage, LittleEndian;
    if l.MessageType? {
    } else if l.BytesType? || l.StringType? || l.FixedBytesType? {
      var k :| 0 <= k <= |b| && IsNumber(b[..k], |v.bytes|) && b[k..] == v.bytes;
      assert IsNumber(b[..k], |b| - k);
    } else {
      NumberIsVarint(b);
    }
  }

  lemma NumberIsVarint(b: Bytes)
    ensures forall n :: IsNumber(b, n) ==> IsVarint(b)
  {}

  lemma RecordIsSkipped(fs: seq<Field>, tag: nat, l: LType, v: Value, b: Bytes, rest: Bytes, m: seq<Slot>, seen: set<nat>)
    requires |m| == |fs| && 0 < tag < 0x2000_0000 && forall i :: 0 <= i < |fs| ==> fs[i].tag != tag
    requires IsRecord(tag, l, v, b) && |b| < TWO_32
    ensures DecodeRecords(fs, b + rest, m, seen) == DecodeRecords(fs, rest, m, seen)
  {
    hide DecodeRecords, IsNumber, IsValue, IsPayload;
    var k :| 0 <= k <= |b| && IsNumber(b[..k], 8 * tag + Wire(l)) && IsValue(l, v, b[k..]);
    ValueIsPayload(l, v, b[k..]);
    UnknownIsSkipped(fs, tag, Wire(l), b[..k], b[k..], rest, m, seen);
    assert b[..k] + b[k..] == b;
  }

  lemma {:induction false} RecordsAreSkipped(fs: seq<Field>, tag: nat, l: LType, items: seq<Value>, b: Bytes, rest: Bytes, m: seq<Slot>, seen: set<nat>)
    requires |m| == |fs| && 0 < tag < 0x2000_0000 && forall i :: 0 <= i < |fs| ==> fs[i].tag != tag
    requires IsRecords(tag, l, items, b) && |b| < TWO_32
    ensures DecodeRecords(fs, b + rest, m, seen) == DecodeRecords(fs, rest, m, seen)
    decreases |items|
  {
    hide DecodeRecords, IsRecord;
    if items == [] {
      assert b + rest == rest;
    } else {
      var k :| 0 <= k <= |b| && IsRecord(tag, l, items[0], b[..k]) && IsRecords(tag, l, items[1..], b[k..]);
      assert b + rest == b[..k] + (b[k..] + rest);
      RecordIsSkipped(fs, tag, l, items[0], b[..k], b[k..] + rest, m, seen);
      RecordsAreSkipped(fs, tag, l, items[1..], b[k..], rest, m, seen);
    }
  }

  lemma PackedIsSkipped(fs: seq<Field>, tag: nat, l: LType, items: seq<Value>, b: Bytes, rest: Bytes, m: seq<Slot>, seen: set<nat>)
    requires |m| == |fs| && 0 < tag < 0x2000_0000 && forall i :: 0 <= i < |fs| ==> fs[i].tag != tag
    requires IsPacked(tag, l, items, b) && |b| < TWO_32
    ensures DecodeRecords(fs, b + rest, m, seen) == DecodeRecords(fs, rest, m, seen)
  {
    hide DecodeRecords, IsNumber, IsScalars;
    var k :| 0 <= k <= |b| && IsNumber(b[..k], 8 * tag + 2) && IsBlock(l, items, b[k..]);
    assert IsPayload(2, b[k..]);
    UnknownIsSkipped(fs, tag, 2, b[..k], b[k..], rest, m, seen);
    assert b[..k] + b[k..] == b;
  }

  /** Whatever the writer put into a field that the reader does not know, the reader goes on behind it. */
  lemma SlotIsSkipped(fs: seq<Field>, f2: Field, s2: Slot, b: Bytes, rest: Bytes, m: seq<Slot>, seen: set<nat>)
    requires |m| == |fs| && 0 < f2.tag < 0x2000_0000 && forall i :: 0 <= i < |fs| ==> fs[i].tag != f2.tag
    requires IsSlot(f2, s2, b) && |b| < TWO_32
    ensures DecodeRecords(fs, b + rest, m, seen) == DecodeRecords(fs, rest, m, seen)
  {
    hide DecodeRecords, IsRecord, IsRecords, IsPacked, IsBlank;
    if b == [] {
      assert b + rest == rest;
    } else {
      match s2
      case One(v) => RecordIsSkipped(fs, f2.tag, f2.ltype, v, b, rest, m, seen);
      case Maybe(_, v) => RecordIsSkipped(fs, f2.tag, f2.ltype, v, b, rest, m, seen);
      case Choice(chosen) => RecordIsSkipped(fs, f2.tag, f2.ltype, chosen.value, b, rest, m, seen);
      case Many(items) =>
        if Packable(f2.ltype) {
          PackedIsSkipped(fs, f2.tag, f2.ltype, items, b, rest, m, seen);
        } else {
          RecordsAreSkipped(fs, f2.tag, f2.ltype, items, b, rest, m, seen);
        }
    }
  }

  // ---- What both know ------------------------------------------------------------------------------------------------

  function Gotten(x: Option<Value>, used: nat): Option<Got> {
    if x.None? then None else Some(Got(x.value, used))
  }

  lemma {:induction false} ValueOnto(f: Field, target: Value, l2: LType, v: Value, rest: Bytes)
    requires TypeOk(f.ltype) && TypeOk(l2) && SameType(f.ltype, l2)
    requires ValueOk(l2, v) && CanEncode(l2, v) && |EncodeValue(l2, v)| < TWO_32
    requires f.ltype.MessageType? ==> ValueOk(f.ltype, target)
    ensures DecodeValue(f, target, EncodeValue(l2, v) + rest) == Gotten(Onto(f.ltype, target, l2, v), |EncodeValue(l2, v)|)
    decreases f, 0
  {
    if f.ltype.MessageType? {
      StringBack(EncodeMessage(l2.fields, v.slots), rest);
      AcrossVersions(f.ltype.fields, target.slots, l2.fields, v.slots);
    } else {
      DataIsShort(l2, v);
      ScalarBack(l2, v, rest);
    }
  }

  lemma FieldIsRefused(fs: seq<Field>, i: nat, wire: nat, payload: Bytes, rest: Bytes, m: seq<Slot>, seen: set<nat>)
    requires TagsOk(fs) && i < |fs| == |m| && wire < 8 && DecodeField(fs, i, wire, payload + rest, m) == None
    ensures DecodeRecords(fs, EncodeKey(fs[i].tag, wire) + payload + rest, m, seen) == None
  {
    hide DecodeVarint32, EncodeKey, DecodeField, FieldIndex, Noted;
    var key := EncodeKey(fs[i].tag, wire);
    var b := key + payload + rest;
    assert b == key + (payload + rest) && b[|key|..] == payload + rest;
    KeyBack(fs[i].tag, wire, payload + rest);
    FieldIndexIs(fs, i);
    KeyParts(fs[i].tag, wire);
  }

  /** A record of a known field changes its slot, and empties the rest of its union. */
  lemma RecordOnto(fs: seq<Field>, i: nat, f2: Field, v: Value, x: Option<Value>, rest: Bytes, m: seq<Slot>, seen: set<nat>)
    requires TagsOk(fs) && i < |fs| == |m| && f2.tag == fs[i].tag && CanEncode(f2.ltype, v)
    requires fs[i].rule.Repeated? ==> !Packable(fs[i].ltype) && |ItemsOf(m[i])| < fs[i].rule.arraySize
    requires DecodeValue(fs[i], Target(fs[i], m[i]), EncodeValue(f2.ltype, v) + rest) == Gotten(x, |EncodeValue(f2.ltype, v)|)
    ensures DecodeRecords(fs, EncodeRecord(f2, v) + rest, m, seen) ==
      if x.None? then None
      else DecodeRecords(fs, rest, Vacated(fs, m, fs[i].rule)[i := Stored(fs[i], m[i], x.value)], seen + Noted(fs, i))
  {
    hide DecodeRecords, DecodeValue, EncodeValue, EncodeKey, Vacated, Stored, Target;
    var payload := EncodeValue(f2.ltype, v);
    if x.None? {
      FieldIsRefused(fs, i, WireType(f2.ltype), payload, rest, m, seen);
    } else {
      RecordStep(fs, i, WireType(f2.ltype), payload, rest, m, Vacated(fs, m, fs[i].rule)[i := Stored(fs[i], m[i], x.value)], seen);
    }
  }

  /** An array that is already full takes no further element. */
  lemma FullIsRefused(fs: seq<Field>, i: nat, f2: Field, v: Value, rest: Bytes, m: seq<Slot>, seen: set<nat>)
    requires TagsOk(fs) && i < |fs| == |m| && f2.tag == fs[i].tag && CanEncode(f2.ltype, v)
    requires fs[i].rule.Repeated? && !Packable(fs[i].ltype) && |ItemsOf(m[i])| >= fs[i].rule.arraySize
    ensures DecodeRecords(fs, EncodeRecord(f2, v) + rest, m, seen) == None
  {
    hide DecodeRecords, EncodeValue, EncodeKey;
    FieldIsRefused(fs, i, WireType(f2.ltype), EncodeValue(f2.ltype, v), rest, m, seen);
  }

  lemma {:induction false} AllOntoLength(l: LType, l2: LType, items: seq<Value>)
    ensures var xs := AllOnto(l, l2, items); xs.Some? ==> |xs.value| == |items|
    decreases |items|
  {
    if items != [] {
      AllOntoLength(l, l2, items[1..]);
    }
  }

  lemma FreshIsOk(l: LType)
    requires TypeOk(l) && l.MessageType?
    ensures ValueOk(l, Fresh(l))
  {
    DefaultMessageIsOk(l.fields);
  }

  /** The elements of an array that is not packed are appended, each read afresh. */
  lemma {:induction false} ItemsOnto(fs: seq<Field>, i: nat, f2: Field, items: seq<Value>, before: seq<Value>, rest: Bytes, m: seq<Slot>, seen: set<nat>)
    requires DescriptorOk(fs) && i < |fs| == |m| && m[i] == Many(before) && f2.tag == fs[i].tag
    requires fs[i].rule.Repeated? && !Packable(fs[i].ltype) && |before| <= fs[i].rule.arraySize
    requires TypeOk(f2.ltype) && SameType(fs[i].ltype, f2.ltype)
    requires forall k :: 0 <= k < |items| ==> ValueOk(f2.ltype, items[k]) && CanEncode(f2.ltype, items[k])
    requires |EncodeItems(f2, items)| < TWO_32
    ensures var xs := AllOnto(fs[i].ltype, f2.ltype, items);
            DecodeRecords(fs, EncodeItems(f2, items) + rest, m, seen) ==
              if xs.None? || |before| + |items| > fs[i].rule.arraySize then None
              else DecodeRecords(fs, rest, m[i := Many(before + xs.value)], seen)
    decreases fs, 0, |items|
  {
    hide ValueOk, CanEncode, DecodeRecords, DecodeValue, EncodeKey, EncodeValue, TypeOk, Onto, SameType;
    var f := fs[i];
    if items == [] {
      assert before + [] == before && m[i := Many(before)] == m;
      assert EncodeItems(f2, items) + rest == rest;
    } else {
      var v, more := items[0], EncodeItems(f2, items[1..]);
      assert FieldOk(f) && ValueOk(f2.ltype, v) && CanEncode(f2.ltype, v);
      assert EncodeItems(f2, items) + rest == EncodeRecord(f2, v) + (more + rest);
      if |before| >= f.rule.arraySize {
        FullIsRefused(fs, i, f2, v, more + rest, m, seen);
      } else {
        FirstOnto(fs, i, f2, v, before, more + rest, m, seen);
        var x := Onto(f.ltype, Fresh(f.ltype), f2.ltype, v);
        if x.Some? {
          var next := m[i := Many(before + [x.value])];
          ItemsOnto(fs, i, f2, items[1..], before + [x.value], rest, next, seen);
          var xs := AllOnto(f.ltype, f2.ltype, items[1..]);
          if xs.Some? {
            assert before + [x.value] + xs.value == before + ([x.value] + xs.value);
            assert next[i := Many(before + ([x.value] + xs.value))] == m[i := Many(before + ([x.value] + xs.value))];
          }
        }
      }
    }
  }

  lemma FirstOnto(fs: seq<Field>, i: nat, f2: Field, v: Value, before: seq<Value>, rest: Bytes, m: seq<Slot>, seen: set<nat>)
    requires DescriptorOk(fs) && i < |fs| == |m| && m[i] == Many(before) && f2.tag == fs[i].tag
    requires fs[i].rule.Repeated? && !Packable(fs[i].ltype) && |before| < fs[i].rule.arraySize
    requires TypeOk(f2.ltype) && SameType(fs[i].ltype, f2.ltype) && ValueOk(f2.ltype, v) && CanEncode(f2.ltype, v)
    requires |EncodeRecord(f2, v)| < TWO_32
    ensures var x := Onto(fs[i].ltype, Fresh(fs[i].ltype), f2.ltype, v);
            DecodeRecords(fs, EncodeRecord(f2, v) + rest, m, seen) ==
              if x.None? then None else DecodeRecords(fs, rest, m[i := Many(before + [x.value])], seen)
    decreases fs, 0, 0
  {
    hide ValueOk, CanEncode, DecodeRecords, DecodeValue, EncodeKey, EncodeValue, SameType;
    var f := fs[i];
    assert FieldOk(f);
    if f.ltype.MessageType? {
      FreshIsOk(f.ltype);
    }
    ValueOnto(f, Target(f, m[i]), f2.ltype, v, rest);
    FreshTarget(f, f2.ltype, v);
    var x := Onto(f.ltype, Fresh(f.ltype), f2.ltype, v);
    hide Onto, TypeOk;
    RecordOnto(fs, i, f2, v, x, rest, m, seen);
    assert Vacated(fs, m, f.rule) == m && seen + Noted(fs, i) == seen;
  }

  /** Anything but a message is replaced, whatever it was. */
  lemma FreshTarget(f: Field, l2: LType, v: Value)
    ensures Onto(f.ltype, DefaultOf(f), l2, v) == Onto(f.ltype, Fresh(f.ltype), l2, v)
  {}

  lemma {:induction false} PackableOnto(l: LType, l2: LType, items: seq<Value>)
    requires Packable(l)
    ensures AllOnto(l, l2, items) == Some(items)
  {
    if items != [] {
      PackableOnto(l, l2, items[1..]);
      assert [items[0]] + items[1..] == items;
    }
  }

  lemma {:induction false} ScalarsOverflow(l: LType, items: seq<Value>, before: seq<Value>, room: nat)
    requires TypeOk(l) && !l.MessageType? && |before| <= room < |before| + |items|
    requires forall k :: 0 <= k < |items| ==> ValueOk(l, items[k]) && CanEncode(l, items[k])
    requires |EncodeScalars(l, items)| < TWO_32
    ensures DecodeScalars(l, EncodeScalars(l, items), before, room) == None
    decreases |items|
  {
    hide ValueOk, CanEncode, DecodeScalar, TypeOk;
    var v, rest := items[0], EncodeScalars(l, items[1..]);
    assert ValueOk(l, v) && CanEncode(l, v);
    ScalarIsNotEmpty(l, v);
    hide EncodeScalar;
    if |before| < room {
      DataIsShort(l, v);
      ScalarBack(l, v, rest);
      ScalarsOverflow(l, items[1..], before + [v], room);
      NextScalar(l, EncodeScalar(l, v), v, rest, before, room);
    }
  }

  lemma ScalarIsNotEmpty(l: LType, v: Value)
    requires !l.MessageType? && CanEncode(l, v)
    ensures EncodeScalar(l, v) != []
  {}

  /** A packed array is appended as a whole, if there is room. */
  lemma PackedOnto(f: Field, i: nat, items: seq<Value>, before: seq<Value>, rest: Bytes, m: seq<Slot>)
    requires i < |m| && f.rule.Repeated? && m[i] == Many(before) && TypeOk(f.ltype) && Packable(f.ltype) && |before| <= f.rule.arraySize
    requires forall k :: 0 <= k < |items| ==> ValueOk(f.ltype, items[k]) && CanEncode(f.ltype, items[k])
    requires |EncodeScalars(f.ltype, items)| < TWO_32
    ensures var b := LengthPrefix(EncodeScalars(f.ltype, items));
            DecodePacked(f, i, b + rest, m) ==
              if |before| + |items| > f.rule.arraySize then None else Some(Update(m[i := Many(before + items)], |b|))
  {
    hide LengthPrefix, GetString, DecodeScalars, EncodeScalars, ValueOk, CanEncode, TypeOk;
    StringBack(EncodeScalars(f.ltype, items), rest);
    if |before| + |items| > f.rule.arraySize {
      ScalarsOverflow(f.ltype, items, before, f.rule.arraySize);
    } else {
      ScalarsBack(f.ltype, items, before, f.rule.arraySize);
    }
  }

  /** A field that both know. */
  lemma SlotBecomes(fs: seq<Field>, i: nat, f2: Field, s2: Slot, rest: Bytes, m: seq<Slot>, seen: set<nat>)
    requires DescriptorOk(fs) && i < |fs| == |m| && SlotOk(fs[i], m[i])
    requires FieldOk(f2) && f2.tag == fs[i].tag && SameField(fs[i], f2) && SlotOk(f2, s2) && CanEncodeSlot(f2, s2)
    requires |EncodeSlot(f2, s2)| < TWO_32
    ensures var x := SlotOnto(fs[i], m[i], f2, s2);
            DecodeRecords(fs, EncodeSlot(f2, s2) + rest, m, seen) ==
              if x.None? then None
              else DecodeRecords(fs, rest, (if SlotIsZero(f2, s2) then m else Vacated(fs, m, fs[i].rule))[i := x.value], seen + Noted(fs, i))
    decreases fs, 2
  {
    hide ValueOk, DecodeRecords, EncodeRecord, EncodeItems, EncodeScalars, InitialOk, Onto, AllOnto, Vacated, LengthPrefix, EncodeKey;
    assert FieldOk(fs[i]);
    if SlotIsZero(f2, s2) {
      ZeroChangesNothing(fs, i, f2, s2, rest, m, seen);
    } else {
      match s2
      case One(v) => ValueBecomes(fs, i, f2, v, rest, m, seen);
      case Maybe(_, v) => ValueBecomes(fs, i, f2, v, rest, m, seen);
      case Choice(chosen) => ValueBecomes(fs, i, f2, chosen.value, rest, m, seen);
      case Many(items) => ArrayBecomes(fs, i, f2, items, rest, m, seen);
    }
  }

  lemma ZeroChangesNothing(fs: seq<Field>, i: nat, f2: Field, s2: Slot, rest: Bytes, m: seq<Slot>, seen: set<nat>)
    requires i < |fs| == |m| && SlotOk(fs[i], m[i]) && SameField(fs[i], f2) && SlotIsZero(f2, s2) && CanEncodeSlot(f2, s2)
    ensures SlotOnto(fs[i], m[i], f2, s2) == Some(m[i])
    ensures DecodeRecords(fs, EncodeSlot(f2, s2) + rest, m, seen) == DecodeRecords(fs, rest, m[i := m[i]], seen + Noted(fs, i))
  {
    hide ValueOk, DecodeRecords, SameType, IsZero;
    assert EncodeSlot(f2, s2) + rest == rest && m[i := m[i]] == m && seen + Noted(fs, i) == seen;
    if s2.Many? {
      assert m[i].items + [] == m[i].items;
    }
  }

  /** The value that a slot which is not an array starts from. */
  function Before(f: Field, s: Slot): Value {
    if s.One? || s.Maybe? then s.value else Fresh(f.ltype)
  }

  function Holding(f: Field, v: Value): Slot {
    match f.rule
    case Optional => Maybe(true, v)
    case Oneof(_) => Choice(Some(v))
    case _ => One(v)
  }

  lemma ValueBecomes(fs: seq<Field>, i: nat, f2: Field, v: Value, rest: Bytes, m: seq<Slot>, seen: set<nat>)
    requires DescriptorOk(fs) && i < |fs| == |m| && SlotOk(fs[i], m[i]) && !fs[i].rule.Repeated?
    requires f2.tag == fs[i].tag && TypeOk(f2.ltype) && SameType(fs[i].ltype, f2.ltype)
    requires ValueOk(f2.ltype, v) && CanEncode(f2.ltype, v) && |EncodeRecord(f2, v)| < TWO_32
    ensures var x := Onto(fs[i].ltype, Before(fs[i], m[i]), f2.ltype, v);
            DecodeRecords(fs, EncodeRecord(f2, v) + rest, m, seen) ==
              if x.None? then None
              else DecodeRecords(fs, rest, Vacated(fs, m, fs[i].rule)[i := Holding(fs[i], x.value)], seen + Noted(fs, i))
    decreases fs, 1
  {
    hide ValueOk, CanEncode, DecodeRecords, DecodeValue, EncodeKey, EncodeValue, SameType, InitialOk;
    var f := fs[i];
    assert FieldOk(f);
    var target := Target(f, m[i]);
    TargetIs(f, m[i], f2.ltype, v);
    ValueOnto(f, target, f2.ltype, v, rest);
    var x := Onto(f.ltype, target, f2.ltype, v);
    hide Onto, TypeOk, Vacated;
    RecordOnto(fs, i, f2, v, x, rest, m, seen);
  }

  lemma TargetIs(f: Field, s: Slot, l2: LType, v: Value)
    requires FieldOk(f) && SlotOk(f, s) && !f.rule.Repeated?
    ensures Onto(f.ltype, Target(f, s), l2, v) == Onto(f.ltype, Before(f, s), l2, v)
    ensures f.ltype.MessageType? ==> ValueOk(f.ltype, Target(f, s))
  {
    if f.ltype.MessageType? {
      FreshIsOk(f.ltype);
    }
    FreshTarget(f, l2, v);
  }

  lemma ArrayBecomes(fs: seq<Field>, i: nat, f2: Field, items: seq<Value>, rest: Bytes, m: seq<Slot>, seen: set<nat>)
    requires DescriptorOk(fs) && i < |fs| == |m| && SlotOk(fs[i], m[i]) && fs[i].rule.Repeated? && items != []
    requires FieldOk(f2) && f2.tag == fs[i].tag && SameField(fs[i], f2) && SlotOk(f2, Many(items)) && CanEncodeSlot(f2, Many(items))
    requires |EncodeSlot(f2, Many(items))| < TWO_32
    ensures var x := SlotOnto(fs[i], m[i], f2, Many(items));
            DecodeRecords(fs, EncodeSlot(f2, Many(items)) + rest, m, seen) ==
              if x.None? then None
              else DecodeRecords(fs, rest, Vacated(fs, m, fs[i].rule)[i := x.value], seen + Noted(fs, i))
    decreases fs, 1
  {
    hide ValueOk, DecodeRecords, EncodeItems, EncodeScalars, CanEncode, EncodeKey, InitialOk, DecodePacked, TypeOk, LengthPrefix, AllOnto;
    var f, before := fs[i], m[i].items;
    assert FieldOk(f) && Vacated(fs, m, f.rule) == m && seen + Noted(fs, i) == seen;
    if Packable(f.ltype) {
      var payload := LengthPrefix(EncodeScalars(f.ltype, items));
      BodyIsShorter(EncodeScalars(f.ltype, items));
      PackedOnto(f, i, items, before, rest, m);
      PackableOnto(f.ltype, f2.ltype, items);
      if |before| + |items| > f.rule.arraySize {
        FieldIsRefused(fs, i, 2, payload, rest, m, seen);
      } else {
        RecordStep(fs, i, 2, payload, rest, m, m[i := Many(before + items)], seen);
      }
    } else {
      ItemsOnto(fs, i, f2, items, before, rest, m, seen);
    }
  }

  lemma BodyIsShorter(b: Bytes)
    ensures |b| < |LengthPrefix(b)|
  {}

  /** An array of numbers may also come element by element, each behind a key of its own, as long as there is room. */
  lemma UnpackedIsAppended(fs: seq<Field>, i: nat, wire: nat, v: Value, b: Bytes, before: seq<Value>, rest: Bytes, m: seq<Slot>, seen: set<nat>)
    requires TagsOk(fs) && i < |fs| == |m| && fs[i].rule.Repeated? && Packable(fs[i].ltype) && m[i] == Many(before)
    requires wire < 8 && wire != 2 && DecodeScalar(fs[i].ltype, b + rest) == Some(Got(v, |b|))
    ensures DecodeRecords(fs, EncodeKey(fs[i].tag, wire) + b + rest, m, seen) ==
      if |before| < fs[i].rule.arraySize then DecodeRecords(fs, rest, m[i := Many(before + [v])], seen) else None
  {
    hide DecodeRecords, DecodeScalar, EncodeKey;
    assert Vacated(fs, m, fs[i].rule) == m && seen + Noted(fs, i) == seen;
    if |before| < fs[i].rule.arraySize {
      RecordStep(fs, i, wire, b, rest, m, m[i := Many(before + [v])], seen);
    } else {
      FieldIsRefused(fs, i, wire, b, rest, m, seen);
    }
  }

  /** A field that is not an array is read by its own type, whatever the key says. */
  lemma WireTypeIsIgnored(fs: seq<Field>, i: nat, wire: nat, v: Value, b: Bytes, rest: Bytes, m: seq<Slot>, seen: set<nat>)
    requires TagsOk(fs) && i < |fs| == |m| && (fs[i].rule.Required? || fs[i].rule.Singular? || fs[i].rule.Optional?)
    requires wire < 8 && !fs[i].ltype.MessageType? && DecodeScalar(fs[i].ltype, b + rest) == Some(Got(v, |b|))
    ensures DecodeRecords(fs, EncodeKey(fs[i].tag, wire) + b + rest, m, seen) ==
      DecodeRecords(fs, rest, m[i := if fs[i].rule.Optional? then Maybe(true, v) else One(v)], seen + Noted(fs, i))
  {
    hide DecodeRecords, DecodeScalar, EncodeKey;
    assert Vacated(fs, m, fs[i].rule) == m;
    RecordStep(fs, i, wire, b, rest, m, m[i := Stored(fs[i], m[i], v)], seen);
  }

  // ---- One field after the other -----------------------------------------------------------------------------------

  lemma FieldIndexFinds(fs: seq<Field>, tag: nat, j: nat)
    requires TagsOk(fs) && j < |fs| && fs[j].tag == tag
    ensures FieldIndex(fs, tag) == Some(j)
  {
    FieldIndexIs(fs, j);
  }

  /** A field that the reader does not know leaves all slots as they were. */
  lemma UnknownAfter(fs: seq<Field>, base: seq<Slot>, fs2: seq<Field>, m2: seq<Slot>, n: nat, i: nat)
    requires |base| == |fs| && |m2| == |fs2| && n < |fs2| && i < |fs|
    requires FieldIndex(fs, fs2[n].tag) == None && TagsOk(fs)
    ensures SlotAfter(fs, base, fs2, m2, n + 1, i) == SlotAfter(fs, base, fs2, m2, n, i)
  {
    hide SlotOnto;
    if k :| 0 <= k < |fs| && fs[k].tag == fs2[n].tag {
      FieldIndexFinds(fs, fs2[n].tag, k);
      assert false;
    }
    assert !Displaces(fs, fs2, m2, n, i);
    assert Displaced(fs, fs2, m2, n + 1, i) <==> Displaced(fs, fs2, m2, n, i);
  }

  /** A field that the reader knows as field `k` changes that slot, and displaces what else its union held. */
  lemma KnownAfter(fs: seq<Field>, base: seq<Slot>, fs2: seq<Field>, m2: seq<Slot>, n: nat, k: nat, i: nat)
    requires |base| == |fs| && |m2| == |fs2| && n < |fs2| && i < |fs| && k < |fs| && fs[k].tag == fs2[n].tag
    requires TagsOk(fs) && TagsOk(fs2) && SameField(fs[k], fs2[n]) && k != i
    ensures SlotAfter(fs, base, fs2, m2, n + 1, i) ==
      if fs[k].rule.Oneof? && fs[i].rule == fs[k].rule && m2[n] != Choice(None) then Some(Choice(None)) else SlotAfter(fs, base, fs2, m2, n, i)
  {
    hide SlotOnto, SameType;
    assert Displaces(fs, fs2, m2, n, i) <==> fs[i].rule.Oneof? && fs2[n].rule == fs[i].rule && m2[n] != Choice(None);
    assert Displaced(fs, fs2, m2, n + 1, i) <==> Displaced(fs, fs2, m2, n, i) || Displaces(fs, fs2, m2, n, i);
    var j := FieldIndex(fs2, fs[i].tag);
    assert j.Some? ==> j.value != n;
  }

  /** The slot of the field itself: it was the old one, unless the union holds another member and nothing arrives. */
  lemma OwnAfter(fs: seq<Field>, base: seq<Slot>, fs2: seq<Field>, m2: seq<Slot>, n: nat, k: nat)
    requires |base| == |fs| && MessageOk(fs2, m2) && n < |fs2| && k < |fs| && fs[k].tag == fs2[n].tag
    requires TagsOk(fs) && TagsOk(fs2) && SameField(fs[k], fs2[n])
    ensures var was := SlotAfter(fs, base, fs2, m2, n, k);
            || (was == Some(base[k]) && forall q :: n < q <= |fs2| && (q == n + 1 || m2[n] != Choice(None)) ==>
                  SlotAfter(fs, base, fs2, m2, q, k) == SlotOnto(fs[k], base[k], fs2[n], m2[n]))
            || (fs[k].rule.Oneof? && was == Some(Choice(None)) && m2[n] == Choice(None) && SlotAfter(fs, base, fs2, m2, n + 1, k) == was)
  {
    hide SlotOnto, SameType, SlotOk;
    FieldIndexFinds(fs2, fs[k].tag, n);
    assert !Displaces(fs, fs2, m2, n, k);
    if Displaced(fs, fs2, m2, n, k) {
      assert Displaced(fs, fs2, m2, n + 1, k);
      var j :| 0 <= j < n && Displaces(fs, fs2, m2, j, k);
      assert fs2[j].rule == fs2[n].rule;
    } else {
      forall q | n < q <= |fs2| && (q == n + 1 || m2[n] != Choice(None)) ensures !Displaced(fs, fs2, m2, q, k) {
        NotDisplaced(fs, fs2, m2, n, k, q);
      }
    }
  }

  lemma NotDisplaced(fs: seq<Field>, fs2: seq<Field>, m2: seq<Slot>, n: nat, k: nat, q: nat)
    requires MessageOk(fs2, m2) && n < |fs2| && k < |fs| && fs[k].tag == fs2[n].tag && n < q <= |fs2|
    requires TagsOk(fs) && TagsOk(fs2) && SameField(fs[k], fs2[n])
    requires !Displaced(fs, fs2, m2, n, k) && (q == n + 1 || m2[n] != Choice(None))
    ensures !Displaced(fs, fs2, m2, q, k)
  {
    hide SameType, SlotOk;
    if j :| 0 <= j < q && Displaces(fs, fs2, m2, j, k) {
      assert false;
    }
  }

  /** The fields of the reader that the writer's fields from the `n`th on are, in the order of the writer. */
  ghost function KnownFrom(fs: seq<Field>, fs2: seq<Field>, n: nat): (order: seq<nat>)
    requires n <= |fs2|
    ensures forall k :: 0 <= k < |order| ==> order[k] < |fs|
    decreases |fs2| - n
  {
    if n == |fs2| then []
    else
      var i := FieldIndex(fs, fs2[n].tag);
      (if i.None? then [] else [i.value]) + KnownFrom(fs, fs2, n + 1)
  }

  ghost predicate Proper(fs: seq<Field>, base: seq<Slot>, fs2: seq<Field>, m2: seq<Slot>) {
    && DescriptorOk(fs) && MessageOk(fs, base)
    && DescriptorOk(fs2) && MessageOk(fs2, m2) && CanEncodeMessage(fs2, m2)
    && Versions(fs, fs2)
  }

  lemma ProperAt(fs: seq<Field>, base: seq<Slot>, fs2: seq<Field>, m2: seq<Slot>, n: nat)
    requires Proper(fs, base, fs2, m2) && n < |fs2|
    ensures |base| == |fs| && |m2| == |fs2| && TagsOk(fs) && TagsOk(fs2) && MessageOk(fs2, m2)
    ensures FieldOk(fs2[n]) && SlotOk(fs2[n], m2[n]) && CanEncodeSlot(fs2[n], m2[n])
    ensures forall k :: 0 <= k < |fs| ==> SlotOk(fs[k], base[k])
    ensures forall k :: 0 <= k < |fs| && fs[k].tag == fs2[n].tag ==> SameField(fs[k], fs2[n])
  {
    hide TypeOk, InitialOk, SameField, SlotOk, CanEncodeSlot;
    forall k | 0 <= k < |fs| ensures 0 < fs[k].tag < 0x2000_0000 {
      assert FieldOk(fs[k]);
    }
    forall k | 0 <= k < |fs2| ensures 0 < fs2[k].tag < 0x2000_0000 {
      assert FieldOk(fs2[k]);
    }
  }

  lemma NextIsUnchanged(fs: seq<Field>, base: seq<Slot>, fs2: seq<Field>, m2: seq<Slot>, n: nat)
    requires Proper(fs, base, fs2, m2) && n < |fs2| && |base| == |fs| && |m2| == |fs2| && Readable(fs, base, fs2, m2, n)
    requires FieldIndex(fs, fs2[n].tag) == None
    ensures Readable(fs, base, fs2, m2, n + 1) && SlotsAfter(fs, base, fs2, m2, n + 1) == SlotsAfter(fs, base, fs2, m2, n)
  {
    ProperAt(fs, base, fs2, m2, n);
    var q := n + 1;
    forall i | 0 <= i < |fs| ensures SlotAfter(fs, base, fs2, m2, q, i) == SlotAfter(fs, base, fs2, m2, n, i) {
      UnknownAfter(fs, base, fs2, m2, n, i);
    }
    assert Readable(fs, base, fs2, m2, q);
  }

  /** What decoding makes of the slots is what they are after one field more. */
  lemma NextIs(fs: seq<Field>, base: seq<Slot>, fs2: seq<Field>, m2: seq<Slot>, n: nat, k: nat)
    requires Proper(fs, base, fs2, m2) && n < |fs2| && |base| == |fs| && |m2| == |fs2| && Readable(fs, base, fs2, m2, n)
    requires k < |fs| && fs[k].tag == fs2[n].tag
    ensures var m := SlotsAfter(fs, base, fs2, m2, n);
            var x := SlotOnto(fs[k], m[k], fs2[n], m2[n]);
            && SlotOk(fs[k], m[k])
            && (x.None? ==> !Readable(fs, base, fs2, m2, |fs2|))
            && (x.Some? ==> (
                 && Readable(fs, base, fs2, m2, n + 1)
                 && SlotsAfter(fs, base, fs2, m2, n + 1) == (if SlotIsZero(fs2[n], m2[n]) then m else Vacated(fs, m, fs[k].rule))[k := x.value]))
  {
    ProperAt(fs, base, fs2, m2, n);
    hide SlotAfter, Proper, SameType, IsZero, FieldOk, CanEncodeSlot;
    var m, f2, s2 := SlotsAfter(fs, base, fs2, m2, n), fs2[n], m2[n];
    OwnAfter(fs, base, fs2, m2, n, k);
    OntoNothing(fs[k], m[k], f2);
    var x := SlotOnto(fs[k], m[k], f2, s2);
    assert s2 == Choice(None) ==> SlotIsZero(f2, s2);
    assert f2.rule.Oneof? && SlotIsZero(f2, s2) ==> s2 == Choice(None);
    hide SlotOnto, SlotIsZero, SlotOk;
    if x.None? {
      assert SlotAfter(fs, base, fs2, m2, |fs2|, k) == None;
    } else {
      forall i | 0 <= i < |fs| && i != k
        ensures SlotAfter(fs, base, fs2, m2, n + 1, i) ==
          if fs[k].rule.Oneof? && fs[i].rule == fs[k].rule && s2 != Choice(None) then Some(Choice(None)) else SlotAfter(fs, base, fs2, m2, n, i)
      {
        KnownAfter(fs, base, fs2, m2, n, k, i);
      }
      assert SlotAfter(fs, base, fs2, m2, n + 1, k) == x;
      assert Readable(fs, base, fs2, m2, n + 1);
    }
  }

  lemma OntoNothing(f: Field, s: Slot, f2: Field)
    ensures SlotOnto(f, s, f2, Choice(None)) == Some(s)
  {}

  /** The fields of the writer from the `n`th on, read into what the ones before made. */
  lemma {:induction false} FieldsOnto(fs: seq<Field>, base: seq<Slot>, fs2: seq<Field>, m2: seq<Slot>, n: nat, seen: set<nat>)
    requires Proper(fs, base, fs2, m2) && n <= |fs2| && |base| == |fs| && |m2| == |fs2| && Readable(fs, base, fs2, m2, n)
    requires |EncodeFields(fs2, m2, UpTo(|fs2|)[n..])| < TWO_32
    ensures DecodeRecords(fs, EncodeFields(fs2, m2, UpTo(|fs2|)[n..]), SlotsAfter(fs, base, fs2, m2, n), seen) ==
      if Readable(fs, base, fs2, m2, |fs2|) then Some(Reading(SlotsAfter(fs, base, fs2, m2, |fs2|), seen + NotedIn(fs, KnownFrom(fs, fs2, n))))
      else None
    decreases fs, 3, |fs2| - n
  {
    if n == |fs2| {
      NoneLeft(fs, base, fs2, m2, seen);
    } else {
      OneField(fs, base, fs2, m2, n, seen);
      hide *;
      var rest := EncodeFields(fs2, m2, UpTo(|fs2|)[n + 1..]);
      var m, i := SlotsAfter(fs, base, fs2, m2, n), FieldIndex(fs, fs2[n].tag);
      if i.None? {
        UnknownOnto(fs, base, fs2, m2, n, rest, seen);
        FieldsOnto(fs, base, fs2, m2, n + 1, seen);
      } else {
        KnownOnto(fs, base, fs2, m2, n, i.value, rest, seen);
        if SlotOnto(fs[i.value], m[i.value], fs2[n], m2[n]).Some? {
          FieldsOnto(fs, base, fs2, m2, n + 1, seen + Noted(fs, i.value));
        }
      }
    }
  }

  /** What there is to say of field `n` of the writer. */
  lemma OneField(fs: seq<Field>, base: seq<Slot>, fs2: seq<Field>, m2: seq<Slot>, n: nat, seen: set<nat>)
    requires Proper(fs, base, fs2, m2) && n < |fs2|
    ensures CanEncodeMessage(fs2, m2) && n < |m2| && CanEncodeSlot(fs2[n], m2[n])
    ensures EncodeFields(fs2, m2, UpTo(|fs2|)[n..]) == EncodeSlot(fs2[n], m2[n]) + EncodeFields(fs2, m2, UpTo(|fs2|)[n + 1..])
    ensures forall k :: 0 <= k < |fs2| ==> UpTo(|fs2|)[k] == k
    ensures var i, more := FieldIndex(fs, fs2[n].tag), KnownFrom(fs, fs2, n + 1);
            seen + NotedIn(fs, KnownFrom(fs, fs2, n)) == (if i.None? then seen else seen + Noted(fs, i.value)) + NotedIn(fs, more)
  {
    ProperAt(fs, base, fs2, m2, n);
    FieldsSplit(fs2, m2, n);
    NotedNext(fs, fs2, n, seen);
    hide DescriptorOk, MessageOk, EncodeFields, EncodeSlot, KnownFrom, NotedIn, Noted, FieldIndex;
  }

  lemma NoneLeft(fs: seq<Field>, base: seq<Slot>, fs2: seq<Field>, m2: seq<Slot>, seen: set<nat>)
    requires |base| == |fs| && |m2| == |fs2| && CanEncodeMessage(fs2, m2) && Readable(fs, base, fs2, m2, |fs2|)
    ensures EncodeFields(fs2, m2, UpTo(|fs2|)[|fs2|..]) == []
    ensures DecodeRecords(fs, [], SlotsAfter(fs, base, fs2, m2, |fs2|), seen)
         == Some(Reading(SlotsAfter(fs, base, fs2, m2, |fs2|), seen + NotedIn(fs, KnownFrom(fs, fs2, |fs2|))))
  {
    hide Readable, SlotsAfter, CanEncodeMessage;
    assert seen + NotedIn(fs, []) == seen;
  }

  lemma NotedNext(fs: seq<Field>, fs2: seq<Field>, n: nat, seen: set<nat>)
    requires n < |fs2|
    ensures var i, more := FieldIndex(fs, fs2[n].tag), KnownFrom(fs, fs2, n + 1);
            seen + NotedIn(fs, KnownFrom(fs, fs2, n)) == (if i.None? then seen else seen + Noted(fs, i.value)) + NotedIn(fs, more)
  {
    hide Noted, FieldIndex;
    var i, more := FieldIndex(fs, fs2[n].tag), KnownFrom(fs, fs2, n + 1);
    if i.None? {
      assert [] + more == more;
    } else {
      assert ([i.value] + more)[1..] == more;
    }
  }

  lemma KnownOnto(fs: seq<Field>, base: seq<Slot>, fs2: seq<Field>, m2: seq<Slot>, n: nat, k: nat, rest: Bytes, seen: set<nat>)
    requires Proper(fs, base, fs2, m2) && n < |fs2| && |base| == |fs| && |m2| == |fs2| && Readable(fs, base, fs2, m2, n)
    requires k < |fs| && fs[k].tag == fs2[n].tag && CanEncodeSlot(fs2[n], m2[n]) && |EncodeSlot(fs2[n], m2[n])| < TWO_32
    ensures var m := SlotsAfter(fs, base, fs2, m2, n);
            var r := DecodeRecords(fs, EncodeSlot(fs2[n], m2[n]) + rest, m, seen);
            if SlotOnto(fs[k], m[k], fs2[n], m2[n]).None? then r == None && !Readable(fs, base, fs2, m2, |fs2|)
            else Readable(fs, base, fs2, m2, n + 1) && r == DecodeRecords(fs, rest, SlotsAfter(fs, base, fs2, m2, n + 1), seen + Noted(fs, k))
    decreases fs, 3, 0
  {
    ProperAt(fs, base, fs2, m2, n);
    NextIs(fs, base, fs2, m2, n, k);
    hide Readable, SlotsAfter, DecodeRecords, EncodeSlot, SlotOnto, Noted, FieldOk, SlotOk, CanEncodeSlot, SameField, SlotIsZero, Vacated, DescriptorOk, MessageOk;
    SlotBecomes(fs, k, fs2[n], m2[n], rest, SlotsAfter(fs, base, fs2, m2, n), seen);
  }

  lemma FieldsSplit(fs2: seq<Field>, m2: seq<Slot>, n: nat)
    requires CanEncodeMessage(fs2, m2) && n < |fs2|
    ensures EncodeFields(fs2, m2, UpTo(|fs2|)[n..]) == EncodeSlot(fs2[n], m2[n]) + EncodeFields(fs2, m2, UpTo(|fs2|)[n + 1..])
  {
    hide EncodeSlot, CanEncodeSlot;
    var order := UpTo(|fs2|);
    assert order[n..][0] == n && order[n..][1..] == order[n + 1..];
  }

  lemma UnknownOnto(fs: seq<Field>, base: seq<Slot>, fs2: seq<Field>, m2: seq<Slot>, n: nat, rest: Bytes, seen: set<nat>)
    requires Proper(fs, base, fs2, m2) && n < |fs2| && |base| == |fs| && |m2| == |fs2| && Readable(fs, base, fs2, m2, n)
    requires FieldIndex(fs, fs2[n].tag) == None && CanEncodeSlot(fs2[n], m2[n]) && |EncodeSlot(fs2[n], m2[n])| < TWO_32
    ensures Readable(fs, base, fs2, m2, n + 1)
    ensures DecodeRecords(fs, EncodeSlot(fs2[n], m2[n]) + rest, SlotsAfter(fs, base, fs2, m2, n), seen)
         == DecodeRecords(fs, rest, SlotsAfter(fs, base, fs2, m2, n + 1), seen)
  {
    ProperAt(fs, base, fs2, m2, n);
    NextIsUnchanged(fs, base, fs2, m2, n);
    hide Readable, SlotsAfter, DecodeRecords, EncodeSlot, SlotOk, CanEncodeSlot, SameField, IsSlot, FieldIndex, Proper;
    var tag := fs2[n].tag;
    forall k | 0 <= k < |fs| ensures fs[k].tag != tag {
      if fs[k].tag == tag {
        FieldIndexFinds(fs, tag, k);
      }
    }
    SlotIs(fs2[n], m2[n]);
    SlotIsSkipped(fs, fs2[n], m2[n], EncodeSlot(fs2[n], m2[n]), rest, SlotsAfter(fs, base, fs2, m2, n), seen);
  }

  lemma KnownFromStep(fs: seq<Field>, fs2: seq<Field>, n: nat, i: nat)
    requires n < |fs2| && i < |fs| && TagsOk(fs)
    ensures i in KnownFrom(fs, fs2, n) <==> fs2[n].tag == fs[i].tag || i in KnownFrom(fs, fs2, n + 1)
  {
    if fs2[n].tag == fs[i].tag {
      FieldIndexFinds(fs, fs2[n].tag, i);
    }
    hide TagsOk;
  }

  ghost predicate Names(fs2: seq<Field>, n: nat, tag: nat) {
    exists j :: n <= j < |fs2| && fs2[j].tag == tag
  }

  lemma {:induction false} KnownFromIs(fs: seq<Field>, fs2: seq<Field>, n: nat, i: nat)
    requires n <= |fs2| && i < |fs| && TagsOk(fs)
    ensures i in KnownFrom(fs, fs2, n) <==> Names(fs2, n, fs[i].tag)
    decreases |fs2| - n
  {
    if n < |fs2| {
      KnownFromIs(fs, fs2, n + 1, i);
      KnownFromStep(fs, fs2, n, i);
      hide KnownFrom, TagsOk;
      assert Names(fs2, n, fs[i].tag) <==> fs2[n].tag == fs[i].tag || Names(fs2, n + 1, fs[i].tag);
    }
  }

  lemma KnowsIffHasRequired(fs: seq<Field>, fs2: seq<Field>)
    requires TagsOk(fs) && TagsOk(fs2)
    ensures HasRequired(fs, KnownFrom(fs, fs2, 0)) <==> KnowsRequired(fs, fs2)
  {
    forall i | 0 <= i < |fs| ensures i in KnownFrom(fs, fs2, 0) <==> FieldIndex(fs2, fs[i].tag).Some? {
      KnownFromIs(fs, fs2, 0, i);
      if j :| 0 <= j < |fs2| && fs2[j].tag == fs[i].tag {
        FieldIndexFinds(fs2, fs[i].tag, j);
      }
    }
  }

  /** Reading what was written under another version of the descriptor: a required field that the writer does not
      know and an array that has no room are refused, and anything else is read as it should be. */
  lemma AcrossVersions(fs: seq<Field>, base: seq<Slot>, fs2: seq<Field>, m2: seq<Slot>)
    requires DescriptorOk(fs) && MessageOk(fs, base) && DescriptorOk(fs2) && MessageOk(fs2, m2) && CanEncodeMessage(fs2, m2)
    requires Versions(fs, fs2) && |EncodeMessage(fs2, m2)| < TWO_32
    ensures DecodeMessage(fs, EncodeMessage(fs2, m2), base) == ReadOnto(fs, base, fs2, m2)
    decreases fs, 4
  {
    var order := UpTo(|fs2|);
    assert order[0..] == order;
    NothingYet(fs, base, fs2, m2);
    FieldsOnto(fs, base, fs2, m2, 0, {});
    var known := KnownFrom(fs, fs2, 0);
    assert {} + NotedIn(fs, known) == NotedIn(fs, known);
    SeenIffHasRequired(fs, known);
    assert TagsOk(fs) && TagsOk(fs2) by {
      TagsAreOk(fs);
      TagsAreOk(fs2);
    }
    KnowsIffHasRequired(fs, fs2);
  }

  lemma TagsAreOk(fs: seq<Field>)
    requires DescriptorOk(fs)
    ensures TagsOk(fs)
  {
    hide TypeOk, InitialOk;
    forall k | 0 <= k < |fs| ensures 0 < fs[k].tag < 0x2000_0000 {
      assert FieldOk(fs[k]);
    }
  }

  lemma NothingYet(fs: seq<Field>, base: seq<Slot>, fs2: seq<Field>, m2: seq<Slot>)
    requires |base| == |fs| && |m2| == |fs2|
    ensures Readable(fs, base, fs2, m2, 0) && SlotsAfter(fs, base, fs2, m2, 0) == base
  {
    hide SlotOnto;
  }

  // ---- A reader that knows a part of the fields --------------------------------------------------------------------

  lemma {:induction false} TypeIsSame(l: LType)
    requires TypeOk(l)
    ensures SameType(l, l)
    decreases l
  {
    if l.MessageType? {
      VersionsOfItself(l.fields);
    }
  }

  lemma {:induction false} VersionsOfItself(fs: seq<Field>)
    requires DescriptorOk(fs)
    ensures Versions(fs, fs)
    decreases fs
  {
    forall i, j | 0 <= i < |fs| && 0 <= j < |fs| && fs[i].tag == fs[j].tag ensures SameField(fs[i], fs[j]) {
      assert FieldOk(fs[i]) && i == j;
      FieldIsSame(fs[i]);
    }
  }

  lemma {:induction false} FieldIsSame(f: Field)
    requires FieldOk(f)
    ensures SameField(f, f)
    decreases f
  {
    TypeIsSame(f.ltype);
  }

  lemma OntoDefault(f: Field, v: Value)
    requires TypeOk(f.ltype) && ValueOk(f.ltype, v) && CanEncode(f.ltype, v) && |EncodeValue(f.ltype, v)| < TWO_32
    ensures Onto(f.ltype, DefaultOf(f), f.ltype, v) == Some(v) && Onto(f.ltype, Fresh(f.ltype), f.ltype, v) == Some(v)
  {
    if f.ltype.MessageType? {
      var fs := f.ltype.fields;
      VersionsOfItself(fs);
      DefaultMessageIsOk(fs);
      AcrossVersions(fs, DefaultMessage(fs), fs, v.slots);
      MessageBack(fs, v.slots);
    }
  }

  lemma {:induction false} AllOntoDefault(f: Field, items: seq<Value>)
    requires TypeOk(f.ltype) && !Packable(f.ltype)
    requires forall i :: 0 <= i < |items| ==> ValueOk(f.ltype, items[i]) && CanEncode(f.ltype, items[i])
    requires |EncodeItems(f, items)| < TWO_32
    ensures AllOnto(f.ltype, f.ltype, items) == Some(items)
    decreases |items|
  {
    hide ValueOk, CanEncode, TypeOk, Onto, EncodeKey, EncodeValue;
    if items != [] {
      assert ValueOk(f.ltype, items[0]) && CanEncode(f.ltype, items[0]);
      OntoDefault(f, items[0]);
      AllOntoDefault(f, items[1..]);
      assert [items[0]] + items[1..] == items;
    }
  }

  lemma SlotOntoDefault(f: Field, s: Slot)
    requires FieldOk(f) && SlotOk(f, s) && CanEncodeSlot(f, s) && |EncodeSlot(f, s)| < TWO_32
    ensures SlotOnto(f, DefaultSlot(f), f, s) == Some(s)
  {
    hide ValueOk, CanEncode, InitialOk, Onto, EncodeKey, EncodeValue, EncodeScalars, LengthPrefix, IsZero, AllOnto, DefaultOf;
    match s
    case One(v) =>
      if f.rule.Singular? && IsZero(f.ltype, v) {
        ZeroIsDefault(f, v);
      } else {
        OntoDefault(f, v);
      }
    case Maybe(has, v) =>
      if has {
        OntoDefault(f, v);
      }
    case Choice(chosen) =>
      if chosen.Some? {
        OntoDefault(f, chosen.value);
      }
    case Many(items) =>
      assert [] + items == items;
      if Packable(f.ltype) {
        PackableOnto(f.ltype, f.ltype, items);
      } else {
        AllOntoDefault(f, items);
      }
  }

  lemma {:induction false} SlotIsShorter(fs: seq<Field>, m: seq<Slot>, order: seq<nat>, k: nat)
    requires CanEncodeMessage(fs, m) && (forall i :: 0 <= i < |order| ==> order[i] < |fs|) && k < |order|
    ensures |EncodeSlot(fs[order[k]], m[order[k]])| <= |EncodeFields(fs, m, order)|
    decreases |order|
  {
    hide EncodeSlot, CanEncodeSlot;
    if k > 0 {
      assert order[1..][k - 1] == order[k];
      SlotIsShorter(fs, m, order[1..], k - 1);
    }
  }

  /** A reader that knows some of the fields finds in them what was written, whatever the others are. */
  lemma PartIsRead(fs: seq<Field>, fs2: seq<Field>, m2: seq<Slot>)
    requires DescriptorOk(fs) && DescriptorOk(fs2) && forall i :: 0 <= i < |fs| ==> fs[i] in fs2
    requires MessageOk(fs2, m2) && CanEncodeMessage(fs2, m2) && |EncodeMessage(fs2, m2)| < TWO_32
    ensures var r := DecodeMessage(fs, EncodeMessage(fs2, m2), DefaultMessage(fs));
            r.Some? && forall i, j :: 0 <= i < |fs| && 0 <= j < |fs2| && fs[i] == fs2[j] ==> r.value[i] == m2[j]
  {
    var base := DefaultMessage(fs);
    DefaultMessageIsOk(fs);
    PartIsVersion(fs, fs2);
    AcrossVersions(fs, base, fs2, m2);
    hide DescriptorOk, MessageOk, CanEncodeMessage, SlotAfter, DecodeMessage, EncodeMessage, DefaultMessage;
    forall i, j | 0 <= i < |fs| && 0 <= j < |fs2| && fs[i] == fs2[j] ensures SlotAfter(fs, base, fs2, m2, |fs2|, i) == Some(m2[j]) {
      PartAt(fs, fs2, m2, i, j);
    }
    forall i | 0 <= i < |fs| ensures SlotAfter(fs, base, fs2, m2, |fs2|, i).Some? && FieldIndex(fs2, fs[i].tag).Some? {
      var j :| 0 <= j < |fs2| && fs2[j] == fs[i];
      TagsAreOk(fs2);
      FieldIndexFinds(fs2, fs[i].tag, j);
    }
    assert Readable(fs, base, fs2, m2, |fs2|);
  }

  lemma PartIsVersion(fs: seq<Field>, fs2: seq<Field>)
    requires DescriptorOk(fs2) && forall i :: 0 <= i < |fs| ==> fs[i] in fs2
    ensures Versions(fs, fs2)
  {
    TagsAreOk(fs2);
    VersionsOfItself(fs2);
    forall i, j | 0 <= i < |fs| && 0 <= j < |fs2| && fs[i].tag == fs2[j].tag ensures SameField(fs[i], fs2[j]) {
      var k :| 0 <= k < |fs2| && fs2[k] == fs[i];
      assert k == j;
    }
  }

  lemma PartAt(fs: seq<Field>, fs2: seq<Field>, m2: seq<Slot>, i: nat, j: nat)
    requires DescriptorOk(fs) && DescriptorOk(fs2) && i < |fs| && j < |fs2| && fs[i] == fs2[j]
    requires MessageOk(fs2, m2) && CanEncodeMessage(fs2, m2) && |EncodeMessage(fs2, m2)| < TWO_32
    ensures SlotAfter(fs, DefaultMessage(fs), fs2, m2, |fs2|, i) == Some(m2[j])
  {
    TagsAreOk(fs2);
    FieldIndexFinds(fs2, fs[i].tag, j);
    if Displaced(fs, fs2, m2, |fs2|, i) {
      var k :| 0 <= k < |fs2| && Displaces(fs, fs2, m2, k, i);
      assert k != j && fs2[k].rule == fs2[j].rule;
      assert m2[j] == Choice(None);
    } else {
      var order := UpTo(|fs2|);
      SlotIsShorter(fs2, m2, order, j);
      assert order[j] == j && FieldOk(fs[i]) && SlotOk(fs2[j], m2[j]) && CanEncodeSlot(fs2[j], m2[j]);
      SlotOntoDefault(fs[i], m2[j]);
    }
  }
}
