/** Message descriptors and messages of the protobuf codec (pb.h, pb_common.c). */
module PbSchema {
  import opened ByteStrings
  import opened Keys
  import opened Coding
  import opened Varints

  /** The data types of a field.  Sizes and capacities are in bytes; a string's includes its terminator. */
  datatype LType =
    | BoolType
    | VarintType(size: nat)
    | UvarintType(size: nat)
    | SvarintType(size: nat)
    | Fixed32Type
    | Fixed64Type
    | BytesType(capacity: nat)
    | StringType(capacity: nat)
    | FixedBytesType(size: nat)
    | MessageType(fields: seq<Field>)

  /** The repetition rules.  `Singular` is an optional field without a has-flag; the members of a union share
      storage and one tag that says which of them is there. */
  datatype Rule = Required | Optional | Singular | Repeated(arraySize: nat) | Oneof(union: nat)

  datatype Field = Field(tag: nat, rule: Rule, ltype: LType, initial: Value)

  datatype Value = Number(n: int) | Data(bytes: Bytes) | Message(slots: seq<Slot>)

  /** What a struct holds for a field: a value, a has-flag and a value, an array with its count, or a member of
      a union. */
  datatype Slot = One(value: Value) | Maybe(has: bool, value: Value) | Many(items: seq<Value>) | Choice(chosen: Option<Value>)

  predicate Packable(l: LType) {
    l.BoolType? || l.VarintType? || l.UvarintType? || l.SvarintType? || l.Fixed32Type? || l.Fixed64Type?
  }

  // ---- Defaults ------------------------------------------------------------------------------------------

  /** A submessage starts from its fields' defaults, anything else from the descriptor's initial value. */
  function DefaultOf(f: Field): Value
    decreases f, 0
  {
    if f.ltype.MessageType? then Message(DefaultMessage(f.ltype.fields)) else f.initial
  }

  function DefaultSlot(f: Field): Slot
    decreases f, 1
  {
    match f.rule
    case Required => One(DefaultOf(f))
    case Singular => One(DefaultOf(f))
    case Optional => Maybe(false, DefaultOf(f))
    case Repeated(_) => Many([])
    case Oneof(_) => Choice(None)
  }

  function DefaultMessage(fs: seq<Field>): (m: seq<Slot>)
    ensures |m| == |fs|
    decreases fs
  {
    seq(|fs|, i requires 0 <= i < |fs| => DefaultSlot(fs[i]))
  }

  // ---- Proper descriptors and messages ---------------------------------------------------------------------

  /** Values of an integer field lie in [-Half(size), Half(size)) or [0, 2 * Half(size)). */
  function Half(size: nat): int {
    if size == 1 then 0x80 else if size == 2 then 0x8000 else if size == 4 then 0x8000_0000 else 0x8000_0000_0000_0000
  }

  predicate WidthOk(size: nat) {
    size == 1 || size == 2 || size == 4 || size == 8
  }

  /** Field numbers are distinct and fit their keys; a field without a has-flag is zero by default. */
  ghost predicate DescriptorOk(fs: seq<Field>)
    decreases fs
  {
    && (forall i :: 0 <= i < |fs| ==> FieldOk(fs[i]))
    && (forall i, j :: 0 <= i < j < |fs| ==> fs[i].tag != fs[j].tag)
  }

  ghost predicate FieldOk(f: Field)
    decreases f
  {
    0 < f.tag < 0x2000_0000 && TypeOk(f.ltype) && InitialOk(f)
  }

  ghost predicate TypeOk(l: LType)
    decreases l
  {
    match l
    case VarintType(size) => WidthOk(size)
    case UvarintType(size) => WidthOk(size)
    case SvarintType(size) => WidthOk(size)
    case MessageType(fields) => DescriptorOk(fields)
    case _ => true
  }

  /** Where there is always a value, the initial one is of the field's type. */
  ghost predicate InitialOk(f: Field) {
    !f.ltype.MessageType? && !f.rule.Repeated? && !f.rule.Oneof? ==>
      (ValueOk(f.ltype, f.initial) && (f.rule.Singular? ==> f.initial == Zero(f.ltype)))
  }

  function Zero(l: LType): Value {
    if Packable(l) then Number(0) else if l.FixedBytesType? then Data(seq(l.size, _ => 0)) else Data([])
  }

  /** A value that the field's type can hold; a string has room for its terminator. */
  ghost predicate ValueOk(l: LType, v: Value)
    decreases l
  {
    match l
    case BoolType => v == Number(0) || v == Number(1)
    case VarintType(size) => v.Number? && -Half(size) <= v.n < Half(size)
    case UvarintType(size) => v.Number? && 0 <= v.n < 2 * Half(size)
    case SvarintType(size) => v.Number? && -Half(size) <= v.n < Half(size)
    case Fixed32Type => v.Number? && 0 <= v.n < TWO_32
    case Fixed64Type => v.Number? && 0 <= v.n < TWO_64
    case BytesType(capacity) => v.Data? && |v.bytes| <= capacity
    case StringType(capacity) => v.Data? && |v.bytes| < capacity && 0 !in v.bytes
    case FixedBytesType(size) => v.Data? && |v.bytes| == size
    case MessageType(fields) => v.Message? && MessageOk(fields, v.slots)
  }

  /** What is absent holds its default; an array is no longer than the descriptor says. */
  ghost predicate SlotOk(f: Field, s: Slot)
    decreases f
  {
    match f.rule
    case Required => s.One? && ValueOk(f.ltype, s.value)
    case Singular => s.One? && ValueOk(f.ltype, s.value)
    case Optional => s.Maybe? && ValueOk(f.ltype, s.value) && (!s.has ==> s.value == DefaultOf(f))
    case Repeated(n) => s.Many? && |s.items| <= n && forall i :: 0 <= i < |s.items| ==> ValueOk(f.ltype, s.items[i])
    case Oneof(_) => s.Choice? && (s.chosen.Some? ==> ValueOk(f.ltype, s.chosen.value))
  }

  /** A union holds one member at most. */
  ghost predicate MessageOk(fs: seq<Field>, m: seq<Slot>)
    decreases fs
  {
    && |m| == |fs|
    && (forall i :: 0 <= i < |fs| ==> SlotOk(fs[i], m[i]))
    && (forall i, j :: 0 <= i < j < |fs| && fs[i].rule.Oneof? && fs[i].rule == fs[j].rule ==> m[i] == Choice(None) || m[j] == Choice(None))
  }

  // ---- Zero messages ---------------------------------------------------------------------------------------

  /** Is the value of a field without a has-flag left out? */
  predicate IsZero(l: LType, v: Value)
    decreases l
  {
    match l
    case BytesType(_) => v == Data([])
    case StringType(_) => v.Data? && (v.bytes == [] || v.bytes[0] == 0)
    case FixedBytesType(size) => size == 0
    case MessageType(fields) => v.Message? && |v.slots| == |fields| && forall i :: 0 <= i < |fields| ==> SlotIsZero(fields[i], v.slots[i])
    case _ => v == Number(0)
  }

  predicate SlotIsZero(f: Field, s: Slot)
    decreases f
  {
    match f.rule
    case Required => false
    case Singular => s.One? && IsZero(f.ltype, s.value)
    case Optional => s.Maybe? && !s.has
    case Repeated(_) => s == Many([])
    case Oneof(_) => s == Choice(None)
  }

  /** What is left out is the default, so decoding finds it again. */
  lemma {:induction false} ZeroIsDefault(f: Field, v: Value)
    requires f.rule.Singular? && TypeOk(f.ltype) && InitialOk(f) && ValueOk(f.ltype, v) && IsZero(f.ltype, v)
    ensures v == DefaultOf(f)
    decreases f
  {
    if f.ltype.MessageType? {
      var fs := f.ltype.fields;
      forall i | 0 <= i < |fs| ensures v.slots[i] == DefaultSlot(fs[i]) {
        assert DescriptorOk(fs) && FieldOk(fs[i]);
        assert SlotOk(fs[i], v.slots[i]) && SlotIsZero(fs[i], v.slots[i]);
        if fs[i].rule.Singular? {
          ZeroIsDefault(fs[i], v.slots[i].value);
        }
      }
      assert v.slots == DefaultMessage(fs);
    }
  }
}
