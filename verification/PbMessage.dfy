/** What the bytes of a message are, and what reading bytes into a message does (pb_encode.c, pb_decode.c). */
module PbMessages {
  import opened ByteStrings
  import opened Keys
  import opened Varints
  import opened PbSchema
  import opened PbWire

  // ---- Encoding ----------------------------------------------------------------------------------------------

  /** What the encoder takes: no array or byte string is longer than its storage. */
  predicate CanEncode(l: LType, v: Value)
    decreases l
  {
    if l.MessageType? then v.Message? && CanEncodeMessage(l.fields, v.slots) else Encodes(l, v)
  }

  predicate CanEncodeSlot(f: Field, s: Slot)
    decreases f
  {
    match f.rule
    case Required => s.One? && CanEncode(f.ltype, s.value)
    case Singular => s.One? && (IsZero(f.ltype, s.value) || CanEncode(f.ltype, s.value))
    case Optional => s.Maybe? && (s.has ==> CanEncode(f.ltype, s.value))
    case Repeated(n) => s.Many? && |s.items| <= n && forall i :: 0 <= i < |s.items| ==> CanEncode(f.ltype, s.items[i])
    case Oneof(_) => s.Choice? && (s.chosen.Some? ==> CanEncode(f.ltype, s.chosen.value))
  }

  predicate CanEncodeMessage(fs: seq<Field>, m: seq<Slot>)
    decreases fs
  {
    |m| == |fs| && forall i :: 0 <= i < |fs| ==> CanEncodeSlot(fs[i], m[i])
  }

  function WireType(l: LType): nat {
    if l.Fixed32Type? then 5 else if l.Fixed64Type? then 1 else if Packable(l) then 0 else 2
  }

  function EncodeKey(tag: nat, wire: nat): (b: Bytes)
    ensures b != []
  {
    EncodeVarint(tag * 8 + wire)
  }

  /** A submessage is written behind its length. */
  function EncodeValue(l: LType, v: Value): Bytes
    requires CanEncode(l, v)
    decreases l
  {
    if l.MessageType? then LengthPrefix(EncodeMessage(l.fields, v.slots)) else EncodeScalar(l, v)
  }

  function EncodeRecord(f: Field, v: Value): Bytes
    requires CanEncode(f.ltype, v)
    decreases f, 0
  {
    EncodeKey(f.tag, WireType(f.ltype)) + EncodeValue(f.ltype, v)
  }

  function EncodeItems(f: Field, items: seq<Value>): Bytes
    requires forall i :: 0 <= i < |items| ==> CanEncode(f.ltype, items[i])
    decreases f, 1, |items|
  {
    if items == [] then [] else EncodeRecord(f, items[0]) + EncodeItems(f, items[1..])
  }

  function EncodeScalars(l: LType, items: seq<Value>): Bytes
    requires !l.MessageType? && forall i :: 0 <= i < |items| ==> CanEncode(l, items[i])
  {
    if items == [] then []
    else
      assert CanEncode(l, items[0]);
      EncodeScalar(l, items[0]) + EncodeScalars(l, items[1..])
  }

  /** Arrays are packed where the type allows it; what is absent is not written. */
  function EncodeSlot(f: Field, s: Slot): Bytes
    requires CanEncodeSlot(f, s)
    decreases f, 2
  {
    match s
    case One(v) => if f.rule.Singular? && IsZero(f.ltype, v) then [] else EncodeRecord(f, v)
    case Maybe(has, v) => if has then EncodeRecord(f, v) else []
    case Many(items) =>
      if items == [] then []
      else if Packable(f.ltype) then EncodeKey(f.tag, 2) + LengthPrefix(EncodeScalars(f.ltype, items))
      else EncodeItems(f, items)
    case Choice(chosen) => if chosen.Some? then EncodeRecord(f, chosen.value) else []
  }

  /** Some of the fields, in some order. */
  function EncodeFields(fs: seq<Field>, m: seq<Slot>, order: seq<nat>): Bytes
    requires CanEncodeMessage(fs, m) && forall k :: 0 <= k < |order| ==> order[k] < |fs|
    decreases fs, |order|
  {
    if order == [] then [] else EncodeSlot(fs[order[0]], m[order[0]]) + EncodeFields(fs, m, order[1..])
  }

  function UpTo(n: nat): (order: seq<nat>)
    ensures |order| == n
  {
    seq(n, i requires 0 <= i < n => i)
  }

  function EncodeMessage(fs: seq<Field>, m: seq<Slot>): Bytes
    requires CanEncodeMessage(fs, m)
    decreases fs, |fs| + 1
  {
    EncodeFields(fs, m, UpTo(|fs|))
  }

  // ---- Decoding ----------------------------------------------------------------------------------------------

  /** The field with a number; numbers are distinct. */
  function FieldIndex(fs: seq<Field>, tag: nat): (r: Option<nat>)
    ensures r.Some? ==> r.value < |fs| && fs[r.value].tag == tag
  {
    if fs == [] then None
    else if fs[0].tag == tag then Some(0)
    else
      var r := FieldIndex(fs[1..], tag);
      if r.None? then None else Some(r.value + 1)
  }

  /** How many required fields come before field `i`. */
  function RequiredBefore(fs: seq<Field>, i: nat): (n: nat)
    requires i <= |fs|
    ensures n <= i
  {
    if i == 0 then 0 else RequiredBefore(fs, i - 1) + if fs[i - 1].rule.Required? then 1 else 0
  }

  const MAX_REQUIRED: nat := 64

  /** The required field that is noted when field `i` is found; the first 64 are tracked. */
  function Noted(fs: seq<Field>, i: nat): set<nat>
    requires i < |fs|
  {
    if fs[i].rule.Required? && RequiredBefore(fs, i) < MAX_REQUIRED then {RequiredBefore(fs, i)} else {}
  }

  predicate AllSeen(fs: seq<Field>, seen: set<nat>) {
    forall r :: 0 <= r < MAX_REQUIRED && r < RequiredBefore(fs, |fs|) ==> r in seen
  }

  /** How long the value of an unknown field is. */
  function SkipLength(wire: nat, b: Bytes): (r: Option<nat>)
    ensures r.Some? ==> r.value <= |b|
  {
    if wire == 0 then VarintLength(b)
    else if wire == 1 then if |b| >= 8 then Some(8) else None
    else if wire == 2 then
      var s := GetString(b);
      if s.None? then None else Some(s.value.used)
    else if wire == 5 then if |b| >= 4 then Some(4) else None
    else None
  }

  function VarintLength(b: Bytes): (r: Option<nat>)
    ensures r.Some? ==> r.value <= |b|
  {
    if b == [] then None
    else if b[0] < 128 then Some(1)
    else
      var r := VarintLength(b[1..]);
      if r.None? then None else Some(r.value + 1)
  }

  function ItemsOf(s: Slot): seq<Value> {
    if s.Many? then s.items else []
  }

  /** What a value is read into: a required or optional one is merged, any other one starts afresh. */
  function Target(f: Field, s: Slot): Value {
    match s
    case One(v) => v
    case Maybe(_, v) => v
    case _ => DefaultOf(f)
  }

  function Stored(f: Field, s: Slot, v: Value): Slot {
    match f.rule
    case Required => One(v)
    case Singular => One(v)
    case Optional => Maybe(true, v)
    case Repeated(_) => Many(ItemsOf(s) + [v])
    case Oneof(_) => Choice(Some(v))
  }

  /** The members of a union share storage: none but the one that is about to be stored stays. */
  function Vacated(fs: seq<Field>, m: seq<Slot>, rule: Rule): (r: seq<Slot>)
    requires |m| == |fs|
    ensures |r| == |fs|
  {
    seq(|fs|, i requires 0 <= i < |fs| => if rule.Oneof? && fs[i].rule == rule then Choice(None) else m[i])
  }

  /** Values one after the other to the end of `b`, as far as the array has room. */
  function DecodeScalars(l: LType, b: Bytes, items: seq<Value>, room: nat): Option<seq<Value>>
    decreases |b|
  {
    if b == [] then Some(items)
    else if |items| >= room then None
    else
      var r := DecodeScalar(l, b);
      if r.None? then None else DecodeScalars(l, b[r.value.used..], items + [r.value.value], room)
  }

  datatype Update = Update(slots: seq<Slot>, used: nat)

  function DecodePacked(f: Field, i: nat, b: Bytes, m: seq<Slot>): (r: Option<Update>)
    requires i < |m| && f.rule.Repeated?
    ensures r.Some? ==> 0 < r.value.used <= |b| && |r.value.slots| == |m|
  {
    var s := GetString(b);
    if s.None? then None
    else
      var items := DecodeScalars(f.ltype, s.value.data, ItemsOf(m[i]), f.rule.arraySize);
      if items.None? then None else Some(Update(m[i := Many(items.value)], s.value.used))
  }

  /** The bytes of a field's value, whose key said `wire`; only arrays look at that. */
  function DecodeField(fs: seq<Field>, i: nat, wire: nat, b: Bytes, m: seq<Slot>): (r: Option<Update>)
    requires i < |fs| == |m|
    ensures r.Some? ==> 0 < r.value.used <= |b| && |r.value.slots| == |fs|
    decreases fs, 0
  {
    var f := fs[i];
    if f.rule.Repeated? && wire == 2 && Packable(f.ltype) then DecodePacked(f, i, b, m)
    else if f.rule.Repeated? && |ItemsOf(m[i])| >= f.rule.arraySize then None
    else
      var r := DecodeValue(f, Target(f, m[i]), b);
      if r.None? then None else Some(Update(Vacated(fs, m, f.rule)[i := Stored(f, m[i], r.value.value)], r.value.used))
  }

  function SlotsOf(target: Value, fs: seq<Field>): (m: seq<Slot>)
    ensures |m| == |fs|
  {
    if target.Message? && |target.slots| == |fs| then target.slots else DefaultMessage(fs)
  }

  /** A submessage has as many bytes as its length says; bytes after a zero key are passed over. */
  function DecodeValue(f: Field, target: Value, b: Bytes): (r: Option<Got>)
    ensures r.Some? ==> 0 < r.value.used <= |b|
    decreases f
  {
    var l := f.ltype;
    if l.MessageType? then
      var s := GetString(b);
      if s.None? then None
      else
        var m := DecodeMessage(l.fields, s.value.data, SlotsOf(target, l.fields));
        if m.None? then None else Some(Got(Message(m.value), s.value.used))
    else DecodeScalar(l, b)
  }

  datatype Reading = Reading(slots: seq<Slot>, seen: set<nat>)

  /** Records to the end of the input or to a zero key. */
  function DecodeRecords(fs: seq<Field>, b: Bytes, m: seq<Slot>, seen: set<nat>): (r: Option<Reading>)
    requires |m| == |fs|
    ensures r.Some? ==> |r.value.slots| == |fs|
    decreases fs, 1, |b|
  {
    if b == [] then Some(Reading(m, seen))
    else
      var key := DecodeVarint32(b);
      if key.None? then None
      else if key.value.value == 0 then Some(Reading(m, seen))
      else
        var rest := b[key.value.used..];
        var i := FieldIndex(fs, key.value.value / 8);
        if i.None? then
          var n := SkipLength(key.value.value % 8, rest);
          if n.None? then None else DecodeRecords(fs, rest[n.value..], m, seen)
        else
          var u := DecodeField(fs, i.value, key.value.value % 8, rest, m);
          if u.None? then None else DecodeRecords(fs, rest[u.value.used..], u.value.slots, seen + Noted(fs, i.value))
  }

  function DecodeMessage(fs: seq<Field>, b: Bytes, m: seq<Slot>): (r: Option<seq<Slot>>)
    requires |m| == |fs|
    ensures r.Some? ==> |r.value| == |fs|
    decreases fs, 2
  {
    var r := DecodeRecords(fs, b, m, {});
    if r.None? || !AllSeen(fs, r.value.seen) then None else Some(r.value.slots)
  }
}
