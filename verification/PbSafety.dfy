module PbSafety {
  // What holds of decoding whatever the input is: the message stays proper, and no tracked required field is
  // missing.

  import opened ByteStrings
  import opened Keys
  import opened Coding
  import opened Varints
  import opened PbSchema
  import opened PbWire
  import opened PbMessages
  import opened PbRoundTrip

  // ---- Proper values -------------------------------------------------------------------------------------------

  lemma {:induction false} CStringEnds(b: Bytes, capacity: nat)
    ensures 0 !in CString(b, capacity)
  {
    if capacity > 0 && b != [] && b[0] != 0 {
      CStringEnds(b[1..], capacity - 1);
    }
  }

  lemma SignedInRange(u: nat, size: nat)
    requires WidthOk(size)
    ensures -Half(size) <= Signed(u, size) < Half(size)
  {}

  lemma ScalarIsOk(l: LType, b: Bytes)
    requires !l.MessageType? && TypeOk(l) && DecodeScalar(l, b).Some?
    ensures ValueOk(l, DecodeScalar(l, b).value.value)
  {
    hide DecodeVarint32, GetVarint64, GetString, DecodeFixed, Signed, UnZigZag;
    match l
    case BoolType =>
    case VarintType(size) =>
      var u := GetVarint64(b).value.value;
      SignedInRange(Unsigned(if size == 8 then Signed(u, 8) else Signed(u, 4)), size);
    case UvarintType(_) =>
    case SvarintType(size) =>
      SignedInRange(Unsigned(UnZigZag(GetVarint64(b).value.value)), size);
    case Fixed32Type =>
      Pow256Of4();
      FixedIsBelow(4, b);
    case Fixed64Type =>
      Pow256Of8();
      FixedIsBelow(8, b);
    case BytesType(_) =>
    case StringType(capacity) =>
      CStringEnds(GetString(b).value.data, capacity);
    case FixedBytesType(_) =>
  }

  lemma {:induction false} ScalarsAreOk(l: LType, b: Bytes, items: seq<Value>, room: nat)
    requires !l.MessageType? && TypeOk(l) && |items| <= room && DecodeScalars(l, b, items, room).Some?
    requires forall k :: 0 <= k < |items| ==> ValueOk(l, items[k])
    ensures var r := DecodeScalars(l, b, items, room).value;
            |r| <= room && forall k :: 0 <= k < |r| ==> ValueOk(l, r[k])
    decreases |b|
  {
    hide ValueOk, TypeOk, DecodeScalar;
    if b != [] {
      var r := DecodeScalar(l, b).value;
      ScalarIsOk(l, b);
      ScalarsAreOk(l, b[r.used..], items + [r.value], room);
    }
  }

  lemma {:induction false} DefaultIsOk(f: Field)
    requires FieldOk(f) && (f.ltype.MessageType? || !(f.rule.Repeated? || f.rule.Oneof?))
    ensures ValueOk(f.ltype, DefaultOf(f))
    decreases f
  {
    if f.ltype.MessageType? {
      DefaultMessageIsOk(f.ltype.fields);
    }
  }

  lemma {:induction false} DefaultMessageIsOk(fs: seq<Field>)
    requires DescriptorOk(fs)
    ensures MessageOk(fs, DefaultMessage(fs))
    decreases fs
  {
    var m := DefaultMessage(fs);
    forall i | 0 <= i < |fs| ensures SlotOk(fs[i], m[i]) {
      assert FieldOk(fs[i]) && m[i] == DefaultSlot(fs[i]);
      if !fs[i].rule.Repeated? && !fs[i].rule.Oneof? {
        DefaultIsOk(fs[i]);
      }
    }
  }

  // ---- Proper messages -------------------------------------------------------------------------------------------

  lemma StoredIsOk(f: Field, s: Slot, v: Value)
    requires SlotOk(f, s) && ValueOk(f.ltype, v) && (f.rule.Repeated? ==> |s.items| < f.rule.arraySize)
    ensures SlotOk(f, Stored(f, s, v))
  {
    hide ValueOk, DefaultOf;
  }

  lemma VacatedIsOk(fs: seq<Field>, m: seq<Slot>, i: nat, s: Slot)
    requires MessageOk(fs, m) && i < |fs| && SlotOk(fs[i], s)
    ensures MessageOk(fs, Vacated(fs, m, fs[i].rule)[i := s])
  {
    hide ValueOk, DefaultOf;
    var r := Vacated(fs, m, fs[i].rule)[i := s];
    forall j | 0 <= j < |fs| ensures SlotOk(fs[j], r[j]) {
      assert SlotOk(fs[j], m[j]);
    }
  }

  lemma {:induction false} ValueIsOk(f: Field, target: Value, b: Bytes)
    requires FieldOk(f) && DecodeValue(f, target, b).Some? && (f.ltype.MessageType? ==> ValueOk(f.ltype, target))
    ensures ValueOk(f.ltype, DecodeValue(f, target, b).value.value)
    decreases f
  {
    if f.ltype.MessageType? {
      DecodeKeepsMessageOk(f.ltype.fields, GetString(b).value.data, target.slots);
    } else {
      ScalarIsOk(f.ltype, b);
    }
  }

  lemma TargetIsOk(f: Field, s: Slot)
    requires FieldOk(f) && SlotOk(f, s) && f.ltype.MessageType?
    ensures ValueOk(f.ltype, Target(f, s))
  {
    hide ValueOk;
    DefaultIsOk(f);
  }

  lemma PackedIsOk(fs: seq<Field>, i: nat, b: Bytes, m: seq<Slot>)
    requires DescriptorOk(fs) && MessageOk(fs, m) && i < |fs| && fs[i].rule.Repeated? && Packable(fs[i].ltype)
    requires DecodePacked(fs[i], i, b, m).Some?
    ensures MessageOk(fs, DecodePacked(fs[i], i, b, m).value.slots)
  {
    hide ValueOk, DecodeScalars, GetString;
    assert FieldOk(fs[i]) && SlotOk(fs[i], m[i]);
    ScalarsAreOk(fs[i].ltype, GetString(b).value.data, ItemsOf(m[i]), fs[i].rule.arraySize);
    var s := DecodePacked(fs[i], i, b, m).value.slots[i];
    VacatedIsOk(fs, m, i, s);
    assert Vacated(fs, m, fs[i].rule) == m;
  }

  lemma FieldKeepsMessageOk(fs: seq<Field>, i: nat, wire: nat, b: Bytes, m: seq<Slot>)
    requires DescriptorOk(fs) && MessageOk(fs, m) && i < |fs| && DecodeField(fs, i, wire, b, m).Some?
    ensures MessageOk(fs, DecodeField(fs, i, wire, b, m).value.slots)
    decreases fs, 0
  {
    hide ValueOk, DecodeValue, DecodePacked, MessageOk, DefaultOf, Vacated, Stored, Target;
    var f := fs[i];
    SlotsOk(fs, m, i);
    if f.rule.Repeated? && wire == 2 && Packable(f.ltype) {
      PackedIsOk(fs, i, b, m);
    } else {
      if f.ltype.MessageType? {
        TargetIsOk(f, m[i]);
      }
      ValueIsOk(f, Target(f, m[i]), b);
      var v := DecodeValue(f, Target(f, m[i]), b).value.value;
      StoredIsOk(f, m[i], v);
      VacatedIsOk(fs, m, i, Stored(f, m[i], v));
    }
  }

  lemma SlotsOk(fs: seq<Field>, m: seq<Slot>, i: nat)
    requires DescriptorOk(fs) && MessageOk(fs, m) && i < |fs|
    ensures |m| == |fs| && FieldOk(fs[i]) && SlotOk(fs[i], m[i])
  {}

  lemma {:induction false} RecordsKeepMessageOk(fs: seq<Field>, b: Bytes, m: seq<Slot>, seen: set<nat>)
    requires DescriptorOk(fs) && MessageOk(fs, m) && DecodeRecords(fs, b, m, seen).Some?
    ensures MessageOk(fs, DecodeRecords(fs, b, m, seen).value.slots)
    decreases fs, 1, |b|
  {
    hide DecodeVarint32, FieldIndex, DecodeField, SkipLength, FieldOk, SlotOk, Noted;
    if b != [] && DecodeVarint32(b).value.value != 0 {
      var key := DecodeVarint32(b).value;
      var rest := b[key.used..];
      var i := FieldIndex(fs, key.value / 8);
      if i.None? {
        RecordsKeepMessageOk(fs, rest[SkipLength(key.value % 8, rest).value..], m, seen);
      } else {
        FieldKeepsMessageOk(fs, i.value, key.value % 8, rest, m);
        var u := DecodeField(fs, i.value, key.value % 8, rest, m).value;
        RecordsKeepMessageOk(fs, rest[u.used..], u.slots, seen + Noted(fs, i.value));
      }
    }
  }

  /** Whatever the input, decoding into a proper message leaves a proper message: numbers in range, arrays and
      strings within their storage, one member to a union. */
  lemma DecodeKeepsMessageOk(fs: seq<Field>, b: Bytes, m: seq<Slot>)
    requires DescriptorOk(fs) && MessageOk(fs, m) && DecodeMessage(fs, b, m).Some?
    ensures MessageOk(fs, DecodeMessage(fs, b, m).value)
    decreases fs, 2
  {
    RecordsKeepMessageOk(fs, b, m, {});
  }

  /** Encoding what was decoded, and decoding that, changes nothing. */
  lemma DecodedIsStable(fs: seq<Field>, b: Bytes)
    requires DescriptorOk(fs) && DecodeMessage(fs, b, DefaultMessage(fs)).Some?
    ensures var m := DecodeMessage(fs, b, DefaultMessage(fs)).value;
            CanEncodeMessage(fs, m)
            && (|EncodeMessage(fs, m)| < TWO_32 ==> DecodeMessage(fs, EncodeMessage(fs, m), DefaultMessage(fs)) == Some(m))
  {
    DefaultMessageIsOk(fs);
    DecodeKeepsMessageOk(fs, b, DefaultMessage(fs));
    RoundTrip(fs, DecodeMessage(fs, b, DefaultMessage(fs)).value);
  }

  // ---- Required fields ---------------------------------------------------------------------------------------------

  /** One of the records of the input, as they follow one another, is of field `i`. */
  ghost predicate HasRecord(fs: seq<Field>, b: Bytes, m: seq<Slot>, i: nat)
    requires |m| == |fs|
    decreases |b|
  {
    b != [] && DecodeVarint32(b).Some? && DecodeVarint32(b).value.value != 0
    && var key := DecodeVarint32(b).value;
       var rest, found := b[key.used..], FieldIndex(fs, key.value / 8);
       if found.None? then
         var n := SkipLength(key.value % 8, rest);
         n.Some? && HasRecord(fs, rest[n.value..], m, i)
       else
         var u := DecodeField(fs, found.value, key.value % 8, rest, m);
         found.value == i || (u.Some? && HasRecord(fs, rest[u.value.used..], u.value.slots, i))
  }

  lemma {:induction false} SeenStays(fs: seq<Field>, b: Bytes, m: seq<Slot>, seen: set<nat>)
    requires |m| == |fs| && DecodeRecords(fs, b, m, seen).Some?
    ensures seen <= DecodeRecords(fs, b, m, seen).value.seen
    decreases |b|
  {
    hide DecodeVarint32, FieldIndex, DecodeField, SkipLength, Noted;
    if b != [] && DecodeVarint32(b).value.value != 0 {
      var key := DecodeVarint32(b).value;
      var rest, found := b[key.used..], FieldIndex(fs, key.value / 8);
      if found.None? {
        SeenStays(fs, rest[SkipLength(key.value % 8, rest).value..], m, seen);
      } else {
        var u := DecodeField(fs, found.value, key.value % 8, rest, m).value;
        SeenStays(fs, rest[u.used..], u.slots, seen + Noted(fs, found.value));
      }
    }
  }

  lemma NotedOnlyBy(fs: seq<Field>, i: nat, k: nat)
    requires i < |fs| && k < |fs| && Tracked(fs, i)
    ensures RequiredBefore(fs, i) in Noted(fs, k) <==> k == i
  {
    if RequiredBefore(fs, i) in Noted(fs, k) {
      SameRequired(fs, i, k);
    }
  }

  /** The bit of a tracked required field is set exactly by a record of that field. */
  lemma {:induction false} SeenIffRecord(fs: seq<Field>, b: Bytes, m: seq<Slot>, seen: set<nat>, i: nat)
    requires |m| == |fs| && i < |fs| && Tracked(fs, i) && RequiredBefore(fs, i) !in seen && DecodeRecords(fs, b, m, seen).Some?
    ensures RequiredBefore(fs, i) in DecodeRecords(fs, b, m, seen).value.seen <==> HasRecord(fs, b, m, i)
    decreases |b|
  {
    hide DecodeVarint32, FieldIndex, DecodeField, SkipLength, Noted, Tracked;
    if b != [] && DecodeVarint32(b).value.value != 0 {
      var key := DecodeVarint32(b).value;
      var rest, found := b[key.used..], FieldIndex(fs, key.value / 8);
      if found.None? {
        SeenIffRecord(fs, rest[SkipLength(key.value % 8, rest).value..], m, seen, i);
      } else {
        var u := DecodeField(fs, found.value, key.value % 8, rest, m).value;
        NotedOnlyBy(fs, i, found.value);
        if found.value == i {
          SeenStays(fs, rest[u.used..], u.slots, seen + Noted(fs, i));
        } else {
          SeenIffRecord(fs, rest[u.used..], u.slots, seen + Noted(fs, found.value), i);
        }
      }
    }
  }

  /** Input whose records can be read is accepted exactly if there is a record of every tracked required field. */
  lemma AcceptedIffRequiredRecords(fs: seq<Field>, b: Bytes, m: seq<Slot>)
    requires |m| == |fs|
    ensures DecodeMessage(fs, b, m).Some? <==>
      DecodeRecords(fs, b, m, {}).Some? && forall i :: 0 <= i < |fs| && Tracked(fs, i) ==> HasRecord(fs, b, m, i)
  {
    hide DecodeRecords, HasRecord, Tracked, Noted;
    if DecodeRecords(fs, b, m, {}).Some? {
      var seen := DecodeRecords(fs, b, m, {}).value.seen;
      forall i | 0 <= i < |fs| && Tracked(fs, i)
        ensures RequiredBefore(fs, i) in seen <==> HasRecord(fs, b, m, i)
      {
        SeenIffRecord(fs, b, m, {}, i);
      }
      AllSeenIs(fs, seen);
    }
  }

  lemma AllSeenIs(fs: seq<Field>, seen: set<nat>)
    ensures AllSeen(fs, seen) <==> forall i :: 0 <= i < |fs| && Tracked(fs, i) ==> RequiredBefore(fs, i) in seen
  {
    if AllSeen(fs, seen) {
      forall i | 0 <= i < |fs| && Tracked(fs, i) ensures RequiredBefore(fs, i) in seen {
        RequiredGrows(fs, i, |fs|);
      }
    } else {
      var r :| 0 <= r < MAX_REQUIRED && r < RequiredBefore(fs, |fs|) && r !in seen;
      var i := RequiredAt(fs, |fs|, r);
      assert Tracked(fs, i);
    }
  }

  /** Input without a record of a tracked required field is rejected, whatever its other records hold. */
  lemma MissingRequiredIsRejected(fs: seq<Field>, b: Bytes, m: seq<Slot>, i: nat)
    requires |m| == |fs| && i < |fs| && Tracked(fs, i) && !HasRecord(fs, b, m, i)
    ensures DecodeMessage(fs, b, m) == None
  {
    AcceptedIffRequiredRecords(fs, b, m);
  }
}
