module PbRoundTrip {
  // A message that is written comes back as it was: whatever order its fields arrive in, and only if none of the
  // tracked required fields is missing.

  import opened ByteStrings
  import opened Keys
  import opened Coding
  import opened Varints
  import opened PbSchema
  import opened PbWire
  import opened PbMessages

  // ---- Proper messages are encoded -----------------------------------------------------------------------------

  lemma {:induction false} ValueEncodes(l: LType, v: Value)
    requires TypeOk(l) && ValueOk(l, v)
    ensures CanEncode(l, v)
    decreases l
  {
    if l.MessageType? {
      MessageEncodes(l.fields, v.slots);
    }
  }

  lemma {:induction false} SlotEncodes(f: Field, s: Slot)
    requires FieldOk(f) && SlotOk(f, s)
    ensures CanEncodeSlot(f, s)
    decreases f
  {
    match s
    case One(v) => ValueEncodes(f.ltype, v);
    case Maybe(_, v) => ValueEncodes(f.ltype, v);
    case Choice(chosen) =>
      if chosen.Some? {
        ValueEncodes(f.ltype, chosen.value);
      }
    case Many(items) =>
      forall i | 0 <= i < |items| ensures CanEncode(f.ltype, items[i]) {
        ValueEncodes(f.ltype, items[i]);
      }
  }

  lemma {:induction false} MessageEncodes(fs: seq<Field>, m: seq<Slot>)
    requires DescriptorOk(fs) && MessageOk(fs, m)
    ensures CanEncodeMessage(fs, m)
    decreases fs
  {
    forall i | 0 <= i < |fs| ensures CanEncodeSlot(fs[i], m[i]) {
      SlotEncodes(fs[i], m[i]);
    }
  }

  // ---- One record ------------------------------------------------------------------------------------------------

  lemma KeyBack(tag: nat, wire: nat, rest: Bytes)
    requires tag < 0x2000_0000 && wire < 8
    ensures DecodeVarint32(EncodeKey(tag, wire) + rest) == Some(Parsed(tag * 8 + wire, |EncodeKey(tag, wire)|))
  {
    Varint32Back(tag * 8 + wire, rest);
  }

  lemma {:induction false} FieldIndexIs(fs: seq<Field>, i: nat)
    requires i < |fs| && forall j, k :: 0 <= j < k < |fs| ==> fs[j].tag != fs[k].tag
    ensures FieldIndex(fs, fs[i].tag) == Some(i)
  {
    if i > 0 {
      assert fs[1..][i - 1] == fs[i];
      FieldIndexIs(fs[1..], i - 1);
    }
  }

  lemma {:induction false} FieldIndexNone(fs: seq<Field>, tag: nat)
    requires forall i :: 0 <= i < |fs| ==> fs[i].tag != tag
    ensures FieldIndex(fs, tag) == None
  {
    if fs != [] {
      FieldIndexNone(fs[1..], tag);
    }
  }

  ghost predicate TagsOk(fs: seq<Field>) {
    && (forall i :: 0 <= i < |fs| ==> 0 < fs[i].tag < 0x2000_0000)
    && (forall i, j :: 0 <= i < j < |fs| ==> fs[i].tag != fs[j].tag)
  }

  /** The key of a field leads to that field. */
  lemma RecordStep(fs: seq<Field>, i: nat, wire: nat, payload: Bytes, rest: Bytes, m: seq<Slot>, next: seq<Slot>, seen: set<nat>)
    requires TagsOk(fs) && i < |fs| == |m| == |next| && wire < 8
    requires DecodeField(fs, i, wire, payload + rest, m) == Some(Update(next, |payload|))
    ensures DecodeRecords(fs, EncodeKey(fs[i].tag, wire) + payload + rest, m, seen) == DecodeRecords(fs, rest, next, seen + Noted(fs, i))
  {
    hide DecodeVarint32, EncodeKey, DecodeField, FieldIndex, Noted, DecodeRecords;
    var key := EncodeKey(fs[i].tag, wire);
    var b := key + payload + rest;
    assert b == key + (payload + rest) && b[|key|..] == payload + rest && (payload + rest)[|payload|..] == rest;
    KeyBack(fs[i].tag, wire, payload + rest);
    FieldIndexIs(fs, i);
    KeyParts(fs[i].tag, wire);
    FirstRecord(fs, b, Parsed(fs[i].tag * 8 + wire, |key|), i, m, Update(next, |payload|), seen);
  }

  lemma KeyParts(tag: nat, wire: nat)
    requires wire < 8
    ensures (tag * 8 + wire) / 8 == tag && (tag * 8 + wire) % 8 == wire
  {}

  lemma FirstRecord(fs: seq<Field>, b: Bytes, key: Parsed, i: nat, m: seq<Slot>, u: Update, seen: set<nat>)
    requires b != [] && |m| == |fs| && key.used <= |b| && DecodeVarint32(b) == Some(key) && key.value != 0
    requires FieldIndex(fs, key.value / 8) == Some(i) && DecodeField(fs, i, key.value % 8, b[key.used..], m) == Some(u)
    ensures DecodeRecords(fs, b, m, seen) == DecodeRecords(fs, b[key.used..][u.used..], u.slots, seen + Noted(fs, i))
  {
    hide DecodeVarint32, DecodeField, FieldIndex, Noted;
  }

  /** A record changes the field's slot, and empties the rest of its union. */
  lemma RecordBack(fs: seq<Field>, i: nat, v: Value, rest: Bytes, m: seq<Slot>, seen: set<nat>)
    requires TagsOk(fs) && i < |fs| == |m| && CanEncode(fs[i].ltype, v)
    requires fs[i].rule.Repeated? ==> !Packable(fs[i].ltype) && |ItemsOf(m[i])| < fs[i].rule.arraySize
    requires DecodeValue(fs[i], Target(fs[i], m[i]), EncodeValue(fs[i].ltype, v) + rest) == Some(Got(v, |EncodeValue(fs[i].ltype, v)|))
    ensures DecodeRecords(fs, EncodeRecord(fs[i], v) + rest, m, seen)
         == DecodeRecords(fs, rest, Vacated(fs, m, fs[i].rule)[i := Stored(fs[i], m[i], v)], seen + Noted(fs, i))
  {
    hide DecodeRecords, DecodeValue, EncodeValue, EncodeKey, Vacated, Stored, Target;
    var payload := EncodeValue(fs[i].ltype, v);
    RecordStep(fs, i, WireType(fs[i].ltype), payload, rest, m, Vacated(fs, m, fs[i].rule)[i := Stored(fs[i], m[i], v)], seen);
  }

  // ---- Arrays ------------------------------------------------------------------------------------------------------

  lemma {:induction false} ScalarsBack(l: LType, items: seq<Value>, before: seq<Value>, room: nat)
    requires TypeOk(l) && !l.MessageType? && |before| + |items| <= room
    requires forall k :: 0 <= k < |items| ==> ValueOk(l, items[k]) && CanEncode(l, items[k])
    requires |EncodeScalars(l, items)| < TWO_32
    ensures DecodeScalars(l, EncodeScalars(l, items), before, room) == Some(before + items)
    decreases items
  {
    hide ValueOk, CanEncode, DecodeScalar, EncodeScalar, TypeOk;
    if items == [] {
      assert before + items == before;
    } else {
      var v, rest := items[0], EncodeScalars(l, items[1..]);
      assert ValueOk(l, v) && CanEncode(l, v);
      DataIsShort(l, v);
      ScalarBack(l, v, rest);
      ScalarsBack(l, items[1..], before + [v], room);
      assert before + [v] + items[1..] == before + items;
      NextScalar(l, EncodeScalar(l, v), v, rest, before, room);
    }
  }

  lemma NextScalar(l: LType, b: Bytes, v: Value, rest: Bytes, before: seq<Value>, room: nat)
    requires |before| < room && DecodeScalar(l, b + rest) == Some(Got(v, |b|))
    ensures DecodeScalars(l, b + rest, before, room) == DecodeScalars(l, rest, before + [v], room)
  {
    hide DecodeScalar;
    assert (b + rest)[|b|..] == rest;
  }

  lemma DataIsShort(l: LType, v: Value)
    requires ValueOk(l, v) && !l.MessageType? && CanEncode(l, v) && |EncodeScalar(l, v)| < TWO_32
    ensures v.Data? ==> |v.bytes| < TWO_32
  {
    hide EncodeVarint, EncodeFixed, ZigZag, Unsigned;
    if l.StringType? {
      CStringIs(v.bytes, l.capacity);
    }
  }

  lemma PackedBack(f: Field, i: nat, items: seq<Value>, rest: Bytes, m: seq<Slot>)
    requires i < |m| && f.rule.Repeated? && m[i] == Many([]) && TypeOk(f.ltype) && Packable(f.ltype)
    requires |items| <= f.rule.arraySize && forall k :: 0 <= k < |items| ==> ValueOk(f.ltype, items[k]) && CanEncode(f.ltype, items[k])
    requires |EncodeScalars(f.ltype, items)| < TWO_32
    ensures var b := LengthPrefix(EncodeScalars(f.ltype, items));
            DecodePacked(f, i, b + rest, m) == Some(Update(m[i := Many(items)], |b|))
  {
    hide LengthPrefix, GetString, DecodeScalars, EncodeScalars;
    StringBack(EncodeScalars(f.ltype, items), rest);
    ScalarsBack(f.ltype, items, [], f.rule.arraySize);
    assert [] + items == items;
  }

  // ---- Whole messages ----------------------------------------------------------------------------------------------

  /** The slots of `m` that have arrived, and defaults for the others. */
  function Merged(fs: seq<Field>, m: seq<Slot>, arrived: set<nat>): (r: seq<Slot>)
    requires |m| == |fs|
    ensures |r| == |fs|
  {
    seq(|fs|, i requires 0 <= i < |fs| => if i in arrived then m[i] else DefaultSlot(fs[i]))
  }

  lemma DefaultArrived(fs: seq<Field>, m: seq<Slot>, arrived: set<nat>, i: nat)
    requires i < |fs| == |m| && m[i] == DefaultSlot(fs[i])
    ensures Merged(fs, m, arrived + {i}) == Merged(fs, m, arrived)
  {
    hide DefaultSlot;
  }

  /** Storing a member of a union takes nothing from the message that is arriving. */
  lemma ValueArrived(fs: seq<Field>, m: seq<Slot>, arrived: set<nat>, i: nat)
    requires MessageOk(fs, m) && i < |fs| && (fs[i].rule.Oneof? ==> m[i] != Choice(None))
    ensures Vacated(fs, Merged(fs, m, arrived), fs[i].rule)[i := m[i]] == Merged(fs, m, arrived + {i})
  {
    hide ValueOk;
    var a, b := Vacated(fs, Merged(fs, m, arrived), fs[i].rule)[i := m[i]], Merged(fs, m, arrived + {i});
    forall j | 0 <= j < |fs| ensures a[j] == b[j] {
      if j != i && fs[i].rule.Oneof? && fs[j].rule == fs[i].rule {
        assert m[j] == Choice(None) && DefaultSlot(fs[j]) == Choice(None);
      }
    }
  }

  lemma {:induction false} ValueBack(f: Field, v: Value, target: Value, rest: Bytes)
    requires TypeOk(f.ltype) && ValueOk(f.ltype, v) && CanEncode(f.ltype, v) && |EncodeValue(f.ltype, v)| < TWO_32
    requires f.ltype.MessageType? ==> target == Message(DefaultMessage(f.ltype.fields))
    ensures DecodeValue(f, target, EncodeValue(f.ltype, v) + rest) == Some(Got(v, |EncodeValue(f.ltype, v)|))
    decreases f
  {
    if f.ltype.MessageType? {
      var fs := f.ltype.fields;
      var body := EncodeMessage(fs, v.slots);
      StringBack(body, rest);
      MessageBack(fs, v.slots);
    } else {
      DataIsShort(f.ltype, v);
      ScalarBack(f.ltype, v, rest);
    }
  }

  /** The elements of an array that is not packed, one record each. */
  lemma {:induction false} ItemsBack(fs: seq<Field>, i: nat, items: seq<Value>, before: seq<Value>, rest: Bytes, m: seq<Slot>, seen: set<nat>)
    requires DescriptorOk(fs) && i < |fs| == |m| && m[i] == Many(before)
    requires fs[i].rule.Repeated? && !Packable(fs[i].ltype) && |before| + |items| <= fs[i].rule.arraySize
    requires forall k :: 0 <= k < |items| ==> ValueOk(fs[i].ltype, items[k]) && CanEncode(fs[i].ltype, items[k])
    requires |EncodeItems(fs[i], items)| < TWO_32
    ensures DecodeRecords(fs, EncodeItems(fs[i], items) + rest, m, seen) == DecodeRecords(fs, rest, m[i := Many(before + items)], seen)
    decreases fs, 0, |items|
  {
    hide ValueOk, CanEncode, DecodeRecords, DecodeValue, EncodeKey, EncodeValue, TypeOk;
    var f := fs[i];
    if items == [] {
      assert before + items == before && m[i := Many(before)] == m;
      assert EncodeItems(f, items) + rest == rest;
    } else {
      var v, more := items[0], EncodeItems(f, items[1..]);
      assert FieldOk(f) && ValueOk(f.ltype, v) && CanEncode(f.ltype, v);
      assert EncodeItems(f, items) + rest == EncodeRecord(f, v) + (more + rest);
      ValueBack(f, v, Target(f, m[i]), more + rest);
      RecordBack(fs, i, v, more + rest, m, seen);
      var next := m[i := Many(before + [v])];
      assert Vacated(fs, m, f.rule)[i := Stored(f, m[i], v)] == next && seen + Noted(fs, i) == seen;
      ItemsBack(fs, i, items[1..], before + [v], rest, next, seen);
      assert before + [v] + items[1..] == before + items && next[i := Many(before + items)] == m[i := Many(before + items)];
    }
  }

  /** One field of a message arrives. */
  lemma SlotBack(fs: seq<Field>, m: seq<Slot>, i: nat, arrived: set<nat>, rest: Bytes, seen: set<nat>)
    requires DescriptorOk(fs) && MessageOk(fs, m) && CanEncodeMessage(fs, m) && i < |fs| && i !in arrived
    requires |EncodeSlot(fs[i], m[i])| < TWO_32
    ensures DecodeRecords(fs, EncodeSlot(fs[i], m[i]) + rest, Merged(fs, m, arrived), seen)
         == DecodeRecords(fs, rest, Merged(fs, m, arrived + {i}), seen + Noted(fs, i))
    decreases fs, 1
  {
    hide ValueOk, DecodeRecords, EncodeRecord, EncodeItems, EncodeScalars, Merged, InitialOk, TypeOk;
    var f, s := fs[i], m[i];
    assert FieldOk(f) && SlotOk(f, s) && CanEncodeSlot(f, s);
    match s
    case One(v) =>
      if f.rule.Singular? && IsZero(f.ltype, v) {
        ZeroIsDefault(f, v);
        NothingArrives(fs, m, i, arrived, rest, seen);
      } else {
        ValueArrives(fs, m, i, arrived, v, rest, seen);
      }
    case Maybe(has, v) =>
      if has {
        ValueArrives(fs, m, i, arrived, v, rest, seen);
      } else {
        NothingArrives(fs, m, i, arrived, rest, seen);
      }
    case Choice(chosen) =>
      if chosen.Some? {
        ValueArrives(fs, m, i, arrived, chosen.value, rest, seen);
      } else {
        NothingArrives(fs, m, i, arrived, rest, seen);
      }
    case Many(items) =>
      if items == [] {
        NothingArrives(fs, m, i, arrived, rest, seen);
      } else {
        ArrayArrives(fs, m, i, arrived, rest, seen);
      }
  }

  lemma NothingArrives(fs: seq<Field>, m: seq<Slot>, i: nat, arrived: set<nat>, rest: Bytes, seen: set<nat>)
    requires i < |fs| == |m| && m[i] == DefaultSlot(fs[i]) && !fs[i].rule.Required? && CanEncodeSlot(fs[i], m[i])
    requires EncodeSlot(fs[i], m[i]) == []
    ensures DecodeRecords(fs, EncodeSlot(fs[i], m[i]) + rest, Merged(fs, m, arrived), seen)
         == DecodeRecords(fs, rest, Merged(fs, m, arrived + {i}), seen + Noted(fs, i))
  {
    hide DecodeRecords;
    assert EncodeSlot(fs[i], m[i]) + rest == rest && seen + Noted(fs, i) == seen;
    DefaultArrived(fs, m, arrived, i);
  }

  lemma ValueArrives(fs: seq<Field>, m: seq<Slot>, i: nat, arrived: set<nat>, v: Value, rest: Bytes, seen: set<nat>)
    requires DescriptorOk(fs) && MessageOk(fs, m) && i < |fs| && i !in arrived && !fs[i].rule.Repeated?
    requires ValueOk(fs[i].ltype, v) && CanEncode(fs[i].ltype, v) && |EncodeRecord(fs[i], v)| < TWO_32
    requires m[i] == Stored(fs[i], DefaultSlot(fs[i]), v)
    ensures DecodeRecords(fs, EncodeRecord(fs[i], v) + rest, Merged(fs, m, arrived), seen)
         == DecodeRecords(fs, rest, Merged(fs, m, arrived + {i}), seen + Noted(fs, i))
    decreases fs, 0
  {
    hide ValueOk, DecodeRecords, EncodeValue, DecodeValue, CanEncode, EncodeKey, InitialOk, TypeOk;
    var f, before := fs[i], Merged(fs, m, arrived);
    assert FieldOk(f) && before[i] == DefaultSlot(f);
    ValueBack(f, v, Target(f, before[i]), rest);
    RecordBack(fs, i, v, rest, before, seen);
    ValueArrived(fs, m, arrived, i);
  }

  lemma ArrayArrives(fs: seq<Field>, m: seq<Slot>, i: nat, arrived: set<nat>, rest: Bytes, seen: set<nat>)
    requires DescriptorOk(fs) && MessageOk(fs, m) && CanEncodeMessage(fs, m) && i < |fs| && i !in arrived
    requires fs[i].rule.Repeated? && m[i].Many? && m[i].items != [] && |EncodeSlot(fs[i], m[i])| < TWO_32
    ensures DecodeRecords(fs, EncodeSlot(fs[i], m[i]) + rest, Merged(fs, m, arrived), seen)
         == DecodeRecords(fs, rest, Merged(fs, m, arrived + {i}), seen + Noted(fs, i))
    decreases fs, 0, |m[i].items| + 1
  {
    hide ValueOk, DecodeRecords, EncodeItems, EncodeScalars, CanEncode, EncodeKey, InitialOk, TypeOk, DecodePacked;
    var f, items, before := fs[i], m[i].items, Merged(fs, m, arrived);
    assert FieldOk(f) && SlotOk(f, m[i]) && CanEncodeSlot(f, m[i]) && before[i] == Many([]);
    ValueArrived(fs, m, arrived, i);
    assert Vacated(fs, before, f.rule) == before;
    assert seen + Noted(fs, i) == seen && [] + items == items;
    if Packable(f.ltype) {
      var payload := LengthPrefix(EncodeScalars(f.ltype, items));
      PackedBack(f, i, items, rest, before);
      RecordStep(fs, i, 2, payload, rest, before, before[i := Many(items)], seen);
    } else {
      ItemsBack(fs, i, items, [], rest, before, seen);
    }
  }

  /** The fields come in some order, each at most once. */
  ghost predicate OrderOk(fs: seq<Field>, order: seq<nat>) {
    && (forall k :: 0 <= k < |order| ==> order[k] < |fs|)
    && (forall j, k :: 0 <= j < k < |order| ==> order[j] != order[k])
  }

  function Members(order: seq<nat>): set<nat> {
    set i | i in order
  }

  ghost function NotedIn(fs: seq<Field>, order: seq<nat>): set<nat>
    requires forall k :: 0 <= k < |order| ==> order[k] < |fs|
  {
    if order == [] then {} else Noted(fs, order[0]) + NotedIn(fs, order[1..])
  }

  lemma {:induction false} FieldsBack(fs: seq<Field>, m: seq<Slot>, order: seq<nat>, arrived: set<nat>, seen: set<nat>)
    requires DescriptorOk(fs) && MessageOk(fs, m) && CanEncodeMessage(fs, m) && OrderOk(fs, order)
    requires forall k :: 0 <= k < |order| ==> order[k] !in arrived
    requires |EncodeFields(fs, m, order)| < TWO_32
    ensures DecodeRecords(fs, EncodeFields(fs, m, order), Merged(fs, m, arrived), seen)
         == Some(Reading(Merged(fs, m, arrived + Members(order)), seen + NotedIn(fs, order)))
    decreases fs, 2, |order|
  {
    hide DescriptorOk, MessageOk, CanEncodeMessage, EncodeSlot, Merged, Noted;
    if order == [] {
      assert arrived + Members(order) == arrived && seen + NotedIn(fs, order) == seen;
    } else {
      var i, rest := order[0], order[1..];
      SlotBack(fs, m, i, arrived, EncodeFields(fs, m, rest), seen);
      FieldsBack(fs, m, rest, arrived + {i}, seen + Noted(fs, i));
      assert order == [i] + rest;
      assert arrived + {i} + Members(rest) == arrived + Members(order);
      assert seen + Noted(fs, i) + NotedIn(fs, rest) == seen + NotedIn(fs, order);
    }
  }

  // ---- Required fields -----------------------------------------------------------------------------------------------

  /** The required fields before field `i` are counted. */
  lemma {:induction false} RequiredBeforeIs(fs: seq<Field>, i: nat)
    requires i <= |fs|
    ensures RequiredBefore(fs, i) == |set j | 0 <= j < i && fs[j].rule.Required?|
    decreases i
  {
    if i > 0 {
      RequiredBeforeIs(fs, i - 1);
      var before := set j | 0 <= j < i - 1 && fs[j].rule.Required?;
      assert (set j | 0 <= j < i && fs[j].rule.Required?) == if fs[i - 1].rule.Required? then before + {i - 1} else before;
    }
  }

  /** Field `i` is required, and among the ones that are tracked. */
  ghost predicate Tracked(fs: seq<Field>, i: nat)
    requires i < |fs|
  {
    fs[i].rule.Required? && RequiredBefore(fs, i) < 64
  }

  ghost predicate HasRequired(fs: seq<Field>, order: seq<nat>) {
    forall i :: 0 <= i < |fs| && Tracked(fs, i) ==> i in order
  }

  lemma {:induction false} RequiredGrows(fs: seq<Field>, i: nat, j: nat)
    requires i < j <= |fs|
    ensures RequiredBefore(fs, i) + (if fs[i].rule.Required? then 1 else 0) <= RequiredBefore(fs, j)
  {
    if i + 1 < j {
      RequiredGrows(fs, i, j - 1);
    }
  }

  lemma {:induction false} RequiredAt(fs: seq<Field>, n: nat, r: nat) returns (i: nat)
    requires n <= |fs| && r < RequiredBefore(fs, n)
    ensures i < n && fs[i].rule.Required? && RequiredBefore(fs, i) == r
  {
    if r == RequiredBefore(fs, n - 1) {
      i := n - 1;
    } else {
      i := RequiredAt(fs, n - 1, r);
    }
  }

  lemma {:induction false} NotedInIs(fs: seq<Field>, order: seq<nat>, r: nat)
    requires forall k :: 0 <= k < |order| ==> order[k] < |fs|
    ensures r in NotedIn(fs, order) <==> exists k :: 0 <= k < |order| && r in Noted(fs, order[k])
  {
    if order != [] {
      NotedInIs(fs, order[1..], r);
      if r in NotedIn(fs, order[1..]) {
        var k :| 0 <= k < |order| - 1 && r in Noted(fs, order[1..][k]);
        assert order[k + 1] == order[1..][k];
      }
      if k :| 0 < k < |order| && r in Noted(fs, order[k]) {
        assert order[1..][k - 1] == order[k];
      }
    }
  }

  /** All tracked bits are set exactly when all tracked required fields came. */
  lemma SeenIffHasRequired(fs: seq<Field>, order: seq<nat>)
    requires forall k :: 0 <= k < |order| ==> order[k] < |fs|
    ensures AllSeen(fs, NotedIn(fs, order)) <==> HasRequired(fs, order)
  {
    if AllSeen(fs, NotedIn(fs, order)) {
      forall i | 0 <= i < |fs| && Tracked(fs, i) ensures i in order {
        RequiredGrows(fs, i, |fs|);
        NotedInIs(fs, order, RequiredBefore(fs, i));
        var k :| 0 <= k < |order| && RequiredBefore(fs, i) in Noted(fs, order[k]);
        SameRequired(fs, i, order[k]);
      }
    }
    if HasRequired(fs, order) {
      forall r | 0 <= r < MAX_REQUIRED && r < RequiredBefore(fs, |fs|) ensures r in NotedIn(fs, order) {
        var i := RequiredAt(fs, |fs|, r);
        assert Tracked(fs, i);
        var k :| 0 <= k < |order| && order[k] == i;
        NotedInIs(fs, order, r);
      }
    }
  }

  lemma SameRequired(fs: seq<Field>, i: nat, j: nat)
    requires i < |fs| && j < |fs| && fs[i].rule.Required? && fs[j].rule.Required? && RequiredBefore(fs, i) == RequiredBefore(fs, j)
    ensures i == j
  {
    if i < j {
      RequiredGrows(fs, i, j);
    } else if j < i {
      RequiredGrows(fs, j, i);
    }
  }

  // ---- The theorems ----------------------------------------------------------------------------------------------------

  /** Fields of a proper message, in any order and each at most once, are read back just when no tracked required
      field is missing; the others keep their defaults. */
  lemma AnyOrder(fs: seq<Field>, m: seq<Slot>, order: seq<nat>)
    requires DescriptorOk(fs) && MessageOk(fs, m) && CanEncodeMessage(fs, m) && OrderOk(fs, order)
    requires |EncodeFields(fs, m, order)| < TWO_32
    ensures DecodeMessage(fs, EncodeFields(fs, m, order), DefaultMessage(fs))
         == if HasRequired(fs, order) then Some(Merged(fs, m, Members(order))) else None
    decreases fs, 3
  {
    hide DescriptorOk, MessageOk, CanEncodeSlot, EncodeFields, DecodeRecords;
    assert Merged(fs, m, {}) == DefaultMessage(fs);
    FieldsBack(fs, m, order, {}, {});
    assert {} + Members(order) == Members(order) && {} + NotedIn(fs, order) == NotedIn(fs, order);
    SeenIffHasRequired(fs, order);
  }

  /** What is written is read back. */
  lemma MessageBack(fs: seq<Field>, m: seq<Slot>)
    requires DescriptorOk(fs) && MessageOk(fs, m) && CanEncodeMessage(fs, m) && |EncodeMessage(fs, m)| < TWO_32
    ensures DecodeMessage(fs, EncodeMessage(fs, m), DefaultMessage(fs)) == Some(m)
    decreases fs, 4
  {
    hide DescriptorOk, MessageOk, CanEncodeSlot, EncodeFields, DecodeMessage;
    var order := UpTo(|fs|);
    AnyOrder(fs, m, order);
    forall i | 0 <= i < |fs| ensures i in Members(order) {
      assert order[i] == i;
    }
    assert Merged(fs, m, Members(order)) == m;
  }

  /** Every proper message is encoded, and decodes to itself. */
  lemma RoundTrip(fs: seq<Field>, m: seq<Slot>)
    requires DescriptorOk(fs) && MessageOk(fs, m)
    ensures CanEncodeMessage(fs, m)
    ensures |EncodeMessage(fs, m)| < TWO_32 ==> DecodeMessage(fs, EncodeMessage(fs, m), DefaultMessage(fs)) == Some(m)
  {
    MessageEncodes(fs, m);
    if |EncodeMessage(fs, m)| < TWO_32 {
      MessageBack(fs, m);
    }
  }
}
