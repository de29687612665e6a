/** The decoder (pb_decode.c, pb_common.c): a stream that is used up from the front, an iterator that goes round
    the field descriptors, and a bit for every required field. */
module PbDecoding {
  import opened ByteStrings
  import opened Keys
  import opened Coding
  import opened Varints
  import opened PbSchema
  import opened PbWire
  import opened PbMessages
  import opened PbRoundTrip

  // ---- The field iterator ------------------------------------------------------------------------------------------

  class FieldIter {
    const fields: seq<Field>
    var pos: nat
    var requiredIndex: nat

    ghost predicate Valid()
      reads this
    {
      && (fields == [] ==> pos == 0) && (fields != [] ==> pos < |fields|)
      && requiredIndex == RequiredBefore(fields, pos)
    }

    constructor (fields: seq<Field>)
      ensures Valid() && this.fields == fields && pos == 0
    {
      this.fields, pos, requiredIndex := fields, 0, 0;
    }

    /** Goes to the next field, or back to the first one. */
    method Next() returns (more: bool)
      requires Valid()
      modifies this
      ensures Valid() && (more <==> old(pos) + 1 < |fields|) && pos == if more then old(pos) + 1 else 0
    {
      if fields == [] {
        return false;
      }
      if pos + 1 == |fields| {
        pos, requiredIndex := 0, 0;
        return false;
      }
      if fields[pos].rule.Required? {
        requiredIndex := requiredIndex + 1;
      }
      pos := pos + 1;
      more := true;
    }

    /** Fields between `start` and `pos`, going round. */
    ghost predicate Passed(start: nat, wrapped: bool, j: nat)
      reads this
    {
      if wrapped then start <= j || j < pos else start <= j < pos
    }

    /** Looks from the current field on, and goes round once. */
    method Find(tag: nat) returns (found: bool)
      requires Valid() && TagsOk(fields)
      modifies this
      ensures Valid() && (found <==> FieldIndex(fields, tag).Some?)
      ensures pos == if found then FieldIndex(fields, tag).value else old(pos)
    {
      if fields == [] {
        return false;
      }
      var start := pos;
      ghost var wrapped := false;
      found := fields[pos].tag == tag;
      while !found
        invariant Valid() && (if wrapped then pos < start else start <= pos)
        invariant found <==> fields[pos].tag == tag
        invariant forall j :: 0 <= j < |fields| && Passed(start, wrapped, j) ==> fields[j].tag != tag
        decreases !found, if wrapped then start - pos else start + |fields| - pos
      {
        var more := Next();
        wrapped := wrapped || !more;
        if pos == start {
          FieldIndexNone(fields, tag);
          return;
        }
        found := fields[pos].tag == tag;
      }
      FieldIndexIs(fields, pos);
    }

    /** How many required fields there are, found by going on to the last field. */
    method CountRequired() returns (count: nat)
      requires Valid()
      modifies this
      ensures Valid() && count == RequiredBefore(fields, |fields|)
    {
      if fields == [] {
        return 0;
      }
      var last: nat := pos;
      count := requiredIndex;
      var more := Next();
      while more
        invariant Valid() && last < |fields| && count == RequiredBefore(fields, last)
        invariant more ==> pos == last + 1
        invariant !more ==> last + 1 == |fields|
        decreases more, |fields| - last
      {
        last, count := pos, requiredIndex;
        more := Next();
      }
      if fields[last].rule.Required? {
        count := count + 1;
      }
    }
  }

  // ---- The stream ----------------------------------------------------------------------------------------------------

  function Ahead(r: Option<Parsed>, n: nat): Option<Parsed> {
    if r.None? then None else Some(Parsed(r.value.value, r.value.used + n))
  }

  class IStream {
    var left: Bytes

    constructor (bytes: Bytes)
      ensures left == bytes
    {
      left := bytes;
    }

    /** The first `n` bytes of `before` are used up. */
    ghost predicate Used(before: Bytes, n: nat)
      reads this
    {
      n <= |before| && left == before[n..]
    }

    method ReadByte() returns (ok: bool, byte: Byte)
      modifies this
      ensures ok <==> old(left) != []
      ensures if ok then byte == old(left)[0] && left == old(left)[1..] else left == old(left)
    {
      if left == [] {
        return false, 0;
      }
      ok, byte := true, left[0];
      left := left[1..];
    }

    method Read(count: nat) returns (ok: bool, bytes: Bytes)
      modifies this
      ensures ok <==> count <= |old(left)|
      ensures if ok then bytes == old(left)[..count] && left == old(left)[count..] else left == old(left)
    {
      if |left| < count {
        return false, [];
      }
      ok, bytes := true, left[..count];
      left := left[count..];
    }

    method ReadVarint32() returns (ok: bool, value: nat)
      modifies this
      ensures ok <==> DecodeVarint32(old(left)).Some?
      ensures ok ==> value == DecodeVarint32(old(left)).value.value && Used(old(left), DecodeVarint32(old(left)).value.used)
    {
      hide Scale, ExtensionOk, LastByteOk;
      ghost var all := left;
      var byte: Byte;
      ok, byte := ReadByte();
      if !ok {
        return false, 0;
      }
      if byte < 128 {
        return true, byte;
      }
      var g, result: nat := 1, byte % 128;
      ghost var used := 1;
      var more := true;
      while more
        invariant 0 < used <= |all| && left == all[used..] && g > 0
        invariant DecodeVarint32(all) == if more then Ahead(VarintTail(left, g, result), used)
          else if LastByteOk(byte, g - 1) then Some(Parsed(result, used)) else None
        decreases more, |left|
      {
        assert left != [] ==> all[used..][1..] == all[used + 1..];
        ok, byte := ReadByte();
        if !ok {
          return false, 0;
        }
        if g > 4 {
          if !ExtensionOk(byte, g, result) {
            return false, 0;
          }
        } else {
          result := result + byte % 128 * Scale(g) % TWO_32;
        }
        g, used, more := g + 1, used + 1, byte >= 128;
      }
      if !LastByteOk(byte, g - 1) {
        return false, 0;
      }
      ok, value := true, result;
    }

    method ReadVarint64() returns (ok: bool, value: nat)
      modifies this
      ensures ok <==> GetVarint64(old(left)).Some?
      ensures ok ==> value == GetVarint64(old(left)).value.value && Used(old(left), GetVarint64(old(left)).value.used)
    {
      var result := GetVarintPtr(left, 10);
      if result.None? {
        return false, 0;
      }
      ok, value := true, result.value.value % TWO_64;
      left := left[result.value.used..];
    }

    /** Takes a length and that many bytes off the stream, as a stream of their own. */
    method Substream() returns (ok: bool, sub: IStream)
      modifies this
      ensures fresh(sub) && (ok <==> GetString(old(left)).Some?)
      ensures ok ==> sub.left == GetString(old(left)).value.data && Used(old(left), GetString(old(left)).value.used)
    {
      hide DecodeVarint32;
      sub := new IStream([]);
      var size;
      ghost var all := left;
      ok, size := ReadVarint32();
      if !ok || |left| < size {
        return false, sub;
      }
      ghost var n := DecodeVarint32(all).value.used;
      assert all[n..][..size] == all[n..n + size] && all[n..][size..] == all[n + size..];
      sub.left := left[..size];
      left := left[size..];
    }

    /** The value of a field that is not in the descriptor. */
    method Skip(wire: nat) returns (ok: bool)
      modifies this
      ensures ok <==> SkipLength(wire, old(left)).Some?
      ensures ok ==> Used(old(left), SkipLength(wire, old(left)).value)
    {
      hide GetString, VarintLength;
      if wire == 0 {
        ok := SkipVarint();
      } else if wire == 1 {
        ok := SkipBytes(8);
      } else if wire == 2 {
        var sub;
        ok, sub := Substream();
      } else if wire == 5 {
        ok := SkipBytes(4);
      } else {
        ok := false;
      }
    }

    method SkipBytes(n: nat) returns (ok: bool)
      modifies this
      ensures ok <==> n <= |old(left)|
      ensures ok ==> Used(old(left), n)
    {
      var bytes;
      ok, bytes := Read(n);
    }

    method SkipVarint() returns (ok: bool)
      modifies this
      ensures ok <==> VarintLength(old(left)).Some?
      ensures ok ==> Used(old(left), VarintLength(old(left)).value)
    {
      ghost var all, used: nat := left, 0;
      var byte: Byte := 128;
      while byte >= 128
        invariant used <= |all| && left == all[used..]
        invariant var n := VarintLength(left);
          VarintLength(all) == if byte < 128 then Some(used) else if n.None? then None else Some(used + n.value)
        decreases byte >= 128, |left|
      {
        assert left != [] ==> all[used..][1..] == all[used + 1..];
        ok, byte := ReadByte();
        if !ok {
          return false;
        }
        used := used + 1;
      }
      ok := true;
    }

    /** A fixed number of bytes, least significant first. */
    method ReadFixed(width: nat) returns (ok: bool, v: Value)
      modifies this
      ensures ok <==> DecodeFixedNumber(width, old(left)).Some?
      ensures ok ==> v == DecodeFixedNumber(width, old(left)).value.value && Used(old(left), width)
    {
      ghost var all := left;
      var bytes;
      ok, bytes := Read(width);
      v := Number(0);
      if ok {
        FixedPrefix(width, all);
        v := Number(DecodeFixed(width, bytes));
      }
    }

    /** One of the scalar decoders. */
    method ReadScalar(l: LType) returns (ok: bool, v: Value)
      requires !l.MessageType?
      modifies this
      ensures ok <==> DecodeScalar(l, old(left)).Some?
      ensures ok ==> v == DecodeScalar(l, old(left)).value.value && Used(old(left), DecodeScalar(l, old(left)).value.used)
    {
      hide DecodeVarint32, GetVarint64, GetString, GotVarint, GotData;
      if l.BoolType? {
        var n;
        ok, n := ReadVarint32();
        v := Number(if n != 0 then 1 else 0);
      } else if l.Fixed32Type? {
        ok, v := ReadFixed(4);
      } else if l.Fixed64Type? {
        ok, v := ReadFixed(8);
      } else if Packable(l) {
        ok, v := ReadInteger(l);
      } else {
        ok, v := ReadData(l);
      }
    }

    method ReadInteger(l: LType) returns (ok: bool, v: Value)
      modifies this
      ensures ok <==> DecodeInteger(l, old(left)).Some?
      ensures ok ==> v == DecodeInteger(l, old(left)).value.value && Used(old(left), DecodeInteger(l, old(left)).value.used)
    {
      hide GetVarint64, NarrowSigned, NarrowUnsigned, NarrowZigZag;
      var u;
      v := Number(0);
      ok, u := ReadVarint64();
      if ok {
        var got := GotVarint(l, u, 0);
        ok := got.Some?;
        if ok {
          v := got.value.value;
        }
      }
    }

    method ReadData(l: LType) returns (ok: bool, v: Value)
      modifies this
      ensures var s := GetString(old(left));
        ok <==> s.Some? && GotData(l, s.value).Some?
      ensures ok ==> v == GotData(l, GetString(old(left)).value).value.value && Used(old(left), GotData(l, GetString(old(left)).value).value.used)
    {
      hide GetString;
      var sub;
      v := Number(0);
      ok, sub := Substream();
      if ok {
        var got := GotData(l, Slice(sub.left, 0));
        ok := got.Some?;
        if ok {
          v := got.value.value;
        }
      }
    }

    /** Fills an array to the end of the stream. */
    method ReadScalars(l: LType, before: seq<Value>, room: nat) returns (ok: bool, items: seq<Value>)
      requires !l.MessageType?
      modifies this
      ensures ok <==> DecodeScalars(l, old(left), before, room).Some?
      ensures ok ==> items == DecodeScalars(l, old(left), before, room).value
    {
      hide DecodeScalar;
      items := before;
      ghost var goal := DecodeScalars(l, left, before, room);
      ok := true;
      while left != [] && |items| < room
        invariant goal == DecodeScalars(l, left, items, room)
        decreases |left|
      {
        var v;
        ok, v := ReadScalar(l);
        if !ok {
          return;
        }
        items := items + [v];
      }
      ok := left == [];
    }

    /** The value of a field: a scalar, or a submessage from a stream of its own. */
    method ReadValue(f: Field, target: Value) returns (ok: bool, v: Value)
      requires f.ltype.MessageType? ==> TagsOkWithin(f.ltype.fields)
      modifies this
      ensures ok <==> DecodeValue(f, target, old(left)).Some?
      ensures ok ==> v == DecodeValue(f, target, old(left)).value.value && Used(old(left), DecodeValue(f, target, old(left)).value.used)
      decreases f
    {
      hide DecodeScalar, DecodeMessage, GetString;
      if !f.ltype.MessageType? {
        ok, v := ReadScalar(f.ltype);
        return;
      }
      v := Number(0);
      var sub;
      ok, sub := Substream();
      if ok {
        var m;
        ok, m := sub.ReadMessage(f.ltype.fields, SlotsOf(target, f.ltype.fields));
        v := Message(m);
      }
    }

    /** A packed array, from a stream of its own. */
    method ReadPacked(f: Field, i: nat, m: seq<Slot>) returns (ok: bool, slots: seq<Slot>)
      requires i < |m| && f.rule.Repeated? && Packable(f.ltype)
      modifies this
      ensures ok <==> DecodePacked(f, i, old(left), m).Some?
      ensures ok ==> slots == DecodePacked(f, i, old(left), m).value.slots && Used(old(left), DecodePacked(f, i, old(left), m).value.used)
    {
      hide DecodeScalars, GetString;
      slots := m;
      var sub;
      ok, sub := Substream();
      if ok {
        var items;
        ok, items := sub.ReadScalars(f.ltype, ItemsOf(m[i]), f.rule.arraySize);
        slots := m[i := Many(items)];
      }
    }

    /** One field of the struct. */
    method ReadField(fs: seq<Field>, i: nat, wire: nat, m: seq<Slot>) returns (ok: bool, slots: seq<Slot>)
      requires TagsOkWithin(fs) && i < |fs| == |m|
      modifies this
      ensures ok <==> DecodeField(fs, i, wire, old(left), m).Some?
      ensures ok ==> slots == DecodeField(fs, i, wire, old(left), m).value.slots && Used(old(left), DecodeField(fs, i, wire, old(left), m).value.used)
      decreases fs, 0
    {
      hide DecodePacked, DecodeValue, Target, Stored;
      var f := fs[i];
      if f.rule.Repeated? && wire == 2 && Packable(f.ltype) {
        ok, slots := ReadPacked(f, i, m);
      } else if f.rule.Repeated? && |ItemsOf(m[i])| >= f.rule.arraySize {
        ok, slots := false, m;
      } else {
        var v;
        ok, v := ReadValue(f, Target(f, m[i]));
        slots := Vacated(fs, m, f.rule)[i := Stored(f, m[i], v)];
      }
    }

    /** Reads records to the end, or to a zero key, and then checks the required fields. */
    method ReadMessage(fs: seq<Field>, m: seq<Slot>) returns (ok: bool, slots: seq<Slot>)
      requires TagsOkWithin(fs) && |m| == |fs|
      modifies this
      ensures ok <==> DecodeMessage(fs, old(left), m).Some?
      ensures ok ==> slots == DecodeMessage(fs, old(left), m).value
      decreases fs, 1
    {
      hide DecodeVarint32, FieldIndex, SkipLength, DecodeField, TagsOk;
      var iter := new FieldIter(fs);
      var fieldsSeen := new FieldsSeen();
      ghost var seen: set<nat>, goal := {}, DecodeRecords(fs, left, m, {});
      slots := m;
      var open := true;
      while open && left != []
        invariant iter.Valid() && iter.fields == fs && fresh(iter) && fieldsSeen.Is(seen) && fresh(fieldsSeen)
        invariant |slots| == |fs| && forall r :: r in seen ==> r < RequiredBefore(fs, |fs|)
        invariant goal == if open then DecodeRecords(fs, left, slots, seen) else Some(Reading(slots, seen))
        decreases open, |left|
      {
        var key;
        ok, key := ReadVarint32();
        if !ok {
          return;
        }
        if key == 0 {
          open := false;
        } else {
          var found := iter.Find(key / 8);
          if !found {
            ok := Skip(key % 8);
            if !ok {
              return;
            }
          } else {
            var i := iter.pos;
            ok, slots := ReadField(fs, i, key % 8, slots);
            if !ok {
              return;
            }
            NotedIsRequired(fs, i);
            if fs[i].rule.Required? && iter.requiredIndex < MAX_REQUIRED {
              fieldsSeen.Note(iter.requiredIndex, seen);
            }
            seen := seen + Noted(fs, i);
          }
        }
      }
      var count := iter.CountRequired();
      ok := fieldsSeen.Complete(count, seen);
    }
  }

  /** The field numbers of a message and of its submessages. */
  ghost predicate TagsOkWithin(fs: seq<Field>)
    decreases fs
  {
    TagsOk(fs) && forall i :: 0 <= i < |fs| ==> SubTagsOk(fs[i])
  }

  ghost predicate SubTagsOk(f: Field)
    decreases f
  {
    f.ltype.MessageType? ==> TagsOkWithin(f.ltype.fields)
  }

  lemma NotedIsRequired(fs: seq<Field>, i: nat)
    requires i < |fs|
    ensures forall r :: r in Noted(fs, i) ==> r < RequiredBefore(fs, |fs|)
    ensures !(fs[i].rule.Required? && RequiredBefore(fs, i) < MAX_REQUIRED) ==> Noted(fs, i) == {}
  {
    if fs[i].rule.Required? {
      RequiredGrows(fs, i, |fs|);
    }
  }

  lemma {:induction false} FixedPrefix(n: nat, b: Bytes)
    requires n <= |b|
    ensures DecodeFixed(n, b[..n]) == DecodeFixed(n, b)
  {
    if n > 0 {
      assert b[..n][1..] == b[1..][..n - 1];
      FixedPrefix(n - 1, b[1..]);
    }
  }

  // ---- Required fields -------------------------------------------------------------------------------------------------

  /** Two words of 32 bits, one bit for each of the first 64 required fields. */
  class FieldsSeen {
    var bits: seq<seq<bool>>

    ghost predicate Valid()
      reads this
    {
      |bits| == 2 && |bits[0]| == 32 && |bits[1]| == 32
    }

    /** The bits are those of a set. */
    ghost predicate Is(seen: set<nat>)
      reads this
    {
      Valid() && forall r :: r in seen <==> 0 <= r < MAX_REQUIRED && bits[r / 32][r % 32]
    }

    constructor ()
      ensures Is({})
    {
      bits := [seq(32, _ => false), seq(32, _ => false)];
    }

    method Note(r: nat, ghost seen: set<nat>)
      requires Is(seen) && r < MAX_REQUIRED
      modifies this
      ensures Is(seen + {r})
    {
      bits := bits[r / 32 := bits[r / 32][r % 32 := true]];
    }

    /** Bit `k` of word `w` stands for field 32 * w + k. */
    lemma BitIs(seen: set<nat>, w: nat, r: nat)
      requires Is(seen) && w < 2 && 32 * w <= r < 32 * w + 32
      ensures bits[w][r - 32 * w] <==> r in seen
    {
      assert r / 32 == w && r % 32 == r - 32 * w;
    }

    /** The low `n` bits of a word are set, and no other. */
    method WordIs(w: nat, n: nat, ghost seen: set<nat>) returns (same: bool)
      requires Is(seen) && w < 2 && n <= 32
      ensures same <==> forall r :: 32 * w <= r < 32 * w + 32 ==> (r in seen <==> r < 32 * w + n)
    {
      same := bits[w] == seq(32, k => k < n);
      forall r | 32 * w <= r < 32 * w + 32 ensures bits[w][r - 32 * w] <==> r in seen {
        BitIs(seen, w, r);
      }
      if !same {
        ghost var k :| 0 <= k < 32 && bits[w][k] != (k < n);
        assert 32 * w + k in seen <==> !(k < n) by {
          BitIs(seen, w, 32 * w + k);
        }
      }
    }

    /** Whole words first, then the bits that remain. */
    method Complete(required: nat, ghost seen: set<nat>) returns (all: bool)
      requires Is(seen) && forall r :: r in seen ==> r < required
      ensures all <==> forall r :: 0 <= r < MAX_REQUIRED && r < required ==> r in seen
    {
      var count := if required > MAX_REQUIRED then MAX_REQUIRED else required;
      for i := 0 to count / 32
        invariant forall r :: 0 <= r < 32 * i ==> r in seen
      {
        var same := WordIs(i, 32, seen);
        if !same {
          return false;
        }
      }
      all := true;
      if count % 32 != 0 {
        all := WordIs(count / 32, count % 32, seen);
      }
    }
  }
}
