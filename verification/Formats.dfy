module Formats {
  // The byte formats of the database, written down as lists of parts without the functions that write them: version
  // edits, write batches, records of the log and blocks of a table.  What is written is what these formats say.

  import opened ByteStrings
  import opened Keys
  import opened Coding
  import opened Varints
  import opened LogFormat
  import opened BlockFormat
  import Comparator
  import WB = WriteBatches
  import VE = VersionEdits

  /** A number in groups of seven bits, a number of fixed width with its lowest byte first, a length and that many
      bytes, or bytes as they are. */
  datatype Part = Var(n: nat) | Fix(width: nat, n: nat) | Text(s: Bytes) | Plain(s: Bytes)

  ghost predicate IsPart(b: Bytes, p: Part) {
    match p
    case Var(n) => IsNumber(b, n)
    case Fix(width, n) => |b| == width && LittleEndian(b) == n
    case Text(s) => IsDelimited(b, s)
    case Plain(s) => b == s
  }

  /** The parts one after the other. */
  ghost predicate AreParts(b: Bytes, ps: seq<Part>)
    decreases |ps|
  {
    if ps == [] then b == []
    else exists k :: 0 <= k <= |b| && IsPart(b[..k], ps[0]) && AreParts(b[k..], ps[1..])
  }

  lemma OnePart(b: Bytes, p: Part)
    requires IsPart(b, p)
    ensures AreParts(b, [p])
  {
    hide IsPart;
    assert b[..|b|] == b && b[|b|..] == [] && [p][1..] == [];
  }

  lemma {:induction false} PartsJoin(a: Bytes, ps: seq<Part>, b: Bytes, qs: seq<Part>)
    requires AreParts(a, ps) && AreParts(b, qs)
    ensures AreParts(a + b, ps + qs)
    decreases |ps|
  {
    hide IsPart;
    if ps == [] {
      assert a + b == b && ps + qs == qs;
    } else {
      var k :| 0 <= k <= |a| && IsPart(a[..k], ps[0]) && AreParts(a[k..], ps[1..]);
      PartsJoin(a[k..], ps[1..], b, qs);
      assert (a + b)[..k] == a[..k] && (a + b)[k..] == a[k..] + b && (ps + qs)[1..] == ps[1..] + qs;
    }
  }

  lemma Then(a: Bytes, p: Part, b: Bytes, qs: seq<Part>)
    requires IsPart(a, p) && AreParts(b, qs)
    ensures AreParts(a + b, [p] + qs)
  {
    OnePart(a, p);
    PartsJoin(a, [p], b, qs);
  }

  lemma VarIs(n: nat)
    ensures IsPart(EncodeVarint(n), Var(n))
  {
    VarintMeans(n);
  }

  lemma FixIs(width: nat, n: nat)
    requires n < Pow256(width)
    ensures IsPart(EncodeFixed(width, n), Fix(width, n))
  {
    FixedMeans(width, n);
  }

  lemma TextIs(s: Bytes)
    requires |s| < TWO_32
    ensures IsPart(Prefixed(s), Text(s))
  {
    hide IsNumber;
    VarIs(|s|);
    var k, b := |EncodeVarint(|s|)|, Prefixed(s);
    assert b[..k] == EncodeVarint(|s|) && b[k..] == s;
  }

  lemma ByteIs(b: Byte)
    ensures IsPart([b], Fix(1, b))
  {
    assert [b][..0] == [] && Pow256(0) == 1;
  }

  // ---- Internal keys -------------------------------------------------------------------------------------------------

  /** The type of an entry is in the lowest byte: 1 for a value, 0 for a deletion marker. */
  lemma KeyFormat(k: Comparator.StoredKey)
    requires k.sequence <= MAX_SEQUENCE
    ensures AreParts(Comparator.EncodeStored(k), [Plain(k.user), Fix(8, 256 * k.sequence + if k.kind == Value then 1 else 0)])
  {
    var n := PackSequenceAndType(k.sequence, k.kind);
    Pow256Of8();
    FixIs(8, n);
    OnePart(EncodeFixed(8, n), Fix(8, n));
    hide AreParts, EncodeFixed;
    Then(k.user, Plain(k.user), EncodeFixed(8, n), [Fix(8, n)]);
  }

  // ---- Version edits -------------------------------------------------------------------------------------------------

  /** A tag and what belongs to it. */
  function EditParts(i: VE.Item): seq<Part> {
    match i
    case Comparator(name) => [Var(1), Text(name)]
    case LogNumber(n) => [Var(2), Var(n)]
    case NextFileNumber(n) => [Var(3), Var(n)]
    case LastSequence(n) => [Var(4), Var(n)]
    case CompactPointer(level, key) => [Var(5), Var(level), Text(key)]
    case DeletedFile(level, n) => [Var(6), Var(level), Var(n)]
    case NewFile(level, f) => [Var(7), Var(level), Var(f.number), Var(f.size), Text(f.smallest), Text(f.largest)]
    case PrevLogNumber(n) => [Var(9), Var(n)]
  }

  lemma EditFormat(i: VE.Item)
    requires VE.Encodable(i)
    ensures AreParts(VE.EncodeItem(i), EditParts(i))
  {
    hide IsPart, AreParts, EncodeVarint, Prefixed;
    VarIs(VE.TagOf(i));
    match i
    case Comparator(name) =>
      TextIs(name);
      OnePart(Prefixed(name), Text(name));
      Then(EncodeVarint(1), Var(1), Prefixed(name), [Text(name)]);
      assert [Var(1)] + [Text(name)] == EditParts(i);
    case CompactPointer(level, key) =>
      VarIs(level);
      TextIs(key);
      OnePart(Prefixed(key), Text(key));
      Then(EncodeVarint(level), Var(level), Prefixed(key), [Text(key)]);
      Then(EncodeVarint(5), Var(5), EncodeVarint(level) + Prefixed(key), [Var(level)] + [Text(key)]);
      assert [Var(5)] + ([Var(level)] + [Text(key)]) == EditParts(i);
    case DeletedFile(level, n) =>
      VarIs(level);
      VarIs(n);
      OnePart(EncodeVarint(n), Var(n));
      Then(EncodeVarint(level), Var(level), EncodeVarint(n), [Var(n)]);
      Then(EncodeVarint(6), Var(6), EncodeVarint(level) + EncodeVarint(n), [Var(level)] + [Var(n)]);
      assert [Var(6)] + ([Var(level)] + [Var(n)]) == EditParts(i);
    case NewFile(level, f) =>
      VarIs(level);
      FileFormat(f);
      Then(EncodeVarint(level), Var(level), VE.EncodeFile(f), FileParts(f));
      Then(EncodeVarint(7), Var(7), EncodeVarint(level) + VE.EncodeFile(f), [Var(level)] + FileParts(f));
      assert [Var(7)] + ([Var(level)] + FileParts(f)) == EditParts(i);
    case LogNumber(n) => NumberFormat(2, n);
    case NextFileNumber(n) => NumberFormat(3, n);
    case LastSequence(n) => NumberFormat(4, n);
    case PrevLogNumber(n) => NumberFormat(9, n);
  }

  lemma NumberFormat(tag: nat, n: nat)
    ensures AreParts(EncodeVarint(tag) + EncodeVarint(n), [Var(tag), Var(n)])
  {
    hide IsPart, AreParts, EncodeVarint;
    VarIs(tag);
    VarIs(n);
    OnePart(EncodeVarint(n), Var(n));
    Then(EncodeVarint(tag), Var(tag), EncodeVarint(n), [Var(n)]);
    assert [Var(tag)] + [Var(n)] == [Var(tag), Var(n)];
  }

  /** The place of a field in a record: the comparator first, the new files last. */
  function Place(i: VE.Item): nat {
    match i
    case Comparator(_) => 1
    case LogNumber(_) => 2
    case PrevLogNumber(_) => 3
    case NextFileNumber(_) => 4
    case LastSequence(_) => 5
    case CompactPointer(_, _) => 6
    case DeletedFile(_, _) => 7
    case NewFile(_, _) => 8
  }

  ghost predicate InPlace(items: seq<VE.Item>, from: nat, to: nat) {
    && (forall i :: 0 <= i < |items| ==> from <= Place(items[i]) <= to)
    && (forall i, j :: 0 <= i < j < |items| ==> Place(items[i]) <= Place(items[j]))
  }

  lemma OnePlace(items: seq<VE.Item>, p: nat)
    requires forall i :: 0 <= i < |items| ==> Place(items[i]) == p
    ensures InPlace(items, p, p)
  {}

  lemma PlacesJoin(a: seq<VE.Item>, b: seq<VE.Item>, from: nat, to: nat, p: nat)
    requires InPlace(a, from, to) && InPlace(b, p, p) && from <= to <= p
    ensures InPlace(a + b, from, p)
  {
    var all := a + b;
    forall i | 0 <= i < |all| ensures from <= Place(all[i]) <= p {
      assert all[i] == if i < |a| then a[i] else b[i - |a|];
    }
  }

  /** The fields are written in that order. */
  lemma ItemsInPlace(e: VE.VersionEdit, order: seq<(nat, nat)>)
    ensures InPlace(VE.Items(e, order), 1, 8)
  {
    var a := if e.comparator.Some? then [VE.Comparator(e.comparator.value)] else [];
    var b, c, d, f := VE.Optional(e.logNumber, 2), VE.Optional(e.prevLogNumber, 9), VE.Optional(e.nextFile, 3), VE.Optional(e.lastSequence, 4);
    var g, h, i := VE.Pointers(e.compactPointers), VE.Deletions(order), VE.Additions(e.newFiles);
    OnePlace(a, 1);
    OnePlace(b, 2);
    OnePlace(c, 3);
    OnePlace(d, 4);
    OnePlace(f, 5);
    OnePlace(g, 6);
    OnePlace(h, 7);
    OnePlace(i, 8);
    hide InPlace, VE.Optional, VE.Pointers, VE.Deletions, VE.Additions;
    PlacesJoin(a, b, 1, 1, 2);
    PlacesJoin(a + b, c, 1, 2, 3);
    PlacesJoin(a + b + c, d, 1, 3, 4);
    PlacesJoin(a + b + c + d, f, 1, 4, 5);
    PlacesJoin(a + b + c + d + f, g, 1, 5, 6);
    PlacesJoin(a + b + c + d + f + g, h, 1, 6, 7);
    PlacesJoin(a + b + c + d + f + g + h, i, 1, 7, 8);
  }

  function FileParts(f: VE.FileEntry): seq<Part> {
    [Var(f.number), Var(f.size), Text(f.smallest), Text(f.largest)]
  }

  lemma FileFormat(f: VE.FileEntry)
    requires VE.Short(f.smallest) && VE.Short(f.largest)
    ensures AreParts(VE.EncodeFile(f), FileParts(f))
  {
    hide IsPart, AreParts, EncodeVarint, Prefixed;
    VarIs(f.number);
    VarIs(f.size);
    TextIs(f.smallest);
    TextIs(f.largest);
    OnePart(Prefixed(f.largest), Text(f.largest));
    var ps := [Text(f.smallest)] + [Text(f.largest)];
    Then(Prefixed(f.smallest), Text(f.smallest), Prefixed(f.largest), [Text(f.largest)]);
    Then(EncodeVarint(f.size), Var(f.size), Prefixed(f.smallest) + Prefixed(f.largest), ps);
    Then(EncodeVarint(f.number), Var(f.number), EncodeVarint(f.size) + (Prefixed(f.smallest) + Prefixed(f.largest)), [Var(f.size)] + ps);
    assert [Var(f.number)] + ([Var(f.size)] + ps) == FileParts(f);
  }

  /** A number that fits 32 bits is read from its varint of up to five bytes. */
  lemma NumberIsRead(b: Bytes, n: nat, rest: Bytes)
    requires IsNumber(b, n) && n < TWO_32 && |b| <= 5
    ensures GetVarint32(b + rest) == Some(Parsed(n, |b|))
  {
    assert (b + rest)[..|b|] == b;
    GetVarint32Means(b + rest, |b|);
  }

  /** What is said of a field that cannot be read depends on its tag; other tags are unknown, and there are seven levels. */
  lemma EditErrors(tag: Bytes, t: nat, b: Bytes)
    requires IsNumber(tag, t) && t < TWO_32 && |tag| <= 5
    ensures t !in {1, 2, 3, 4, 5, 6, 7, 9} ==> VE.ParseItem(tag + b) == VE.Bad(VE.UnknownTag)
    ensures forall k, level :: t in {5, 6, 7} && 0 <= k <= |b| && k <= 5 && IsNumber(b[..k], level) && 7 <= level < TWO_32 ==> VE.ParseItem(tag + b).Bad?
    ensures var r := VE.ParseItem(tag + b);
            r.Bad? ==> (r.message ==
              if t == 1 then VE.ComparatorName else if t == 2 then VE.LogNumberMsg else if t == 3 then VE.NextFileNumberMsg
              else if t == 4 then VE.LastSequenceMsg else if t == 5 then VE.CompactionPointer else if t == 6 then VE.DeletedFileMsg
              else if t == 7 then VE.NewFileEntry else if t == 9 then VE.PrevLogNumberMsg else VE.UnknownTag)
  {
    NumberIsRead(tag, t, b);
    assert (tag + b)[|tag|..] == b;
    forall k, level | t in {5, 6, 7} && 0 <= k <= |b| && k <= 5 && IsNumber(b[..k], level) && 7 <= level < TWO_32
      ensures VE.ParseBody(t, b).Bad?
    {
      NumberIsRead(b[..k], level, b[k..]);
      assert b[..k] + b[k..] == b;
    }
    hide GetVarint32, GetVarint64, GetLengthPrefixed, VE.GetFile;
  }

  // ---- Write batches -------------------------------------------------------------------------------------------------

  /** A byte that says what the operation is, and its key and value. */
  function OpParts(op: WB.Op<Bytes>): seq<Part> {
    match op
    case Put(k, v) => [Fix(1, 1), Text(k), Text(v)]
    case Delete(k) => [Fix(1, 0), Text(k)]
  }

  function OpsParts(ops: seq<WB.Op<Bytes>>): seq<Part> {
    if ops == [] then [] else OpParts(ops[0]) + OpsParts(ops[1..])
  }

  lemma OpFormat(op: WB.Op<Bytes>)
    requires WB.Fits(op)
    ensures AreParts(WB.EncodeOp(op), OpParts(op))
  {
    hide IsPart, AreParts, Prefixed;
    match op
    case Put(k, v) =>
      ByteIs(1);
      TextIs(k);
      TextIs(v);
      OnePart(Prefixed(v), Text(v));
      Then(Prefixed(k), Text(k), Prefixed(v), [Text(v)]);
      Then([1], Fix(1, 1), Prefixed(k) + Prefixed(v), [Text(k)] + [Text(v)]);
      assert [1] + (Prefixed(k) + Prefixed(v)) == WB.EncodeOp(op);
      assert [Fix(1, 1)] + ([Text(k)] + [Text(v)]) == OpParts(op);
    case Delete(k) =>
      ByteIs(0);
      TextIs(k);
      OnePart(Prefixed(k), Text(k));
      Then([0], Fix(1, 0), Prefixed(k), [Text(k)]);
      assert [Fix(1, 0)] + [Text(k)] == OpParts(op);
  }

  lemma {:induction false} OpsFormat(ops: seq<WB.Op<Bytes>>)
    requires WB.AllFit(ops)
    ensures AreParts(WB.EncodeOps(ops), OpsParts(ops))
    decreases |ops|
  {
    hide IsPart, AreParts, WB.EncodeOp;
    if ops == [] {
      NoParts();
    } else {
      WB.EncodeOpsHead(ops);
      OpFormat(ops[0]);
      OpsFormat(ops[1..]);
      PartsJoin(WB.EncodeOp(ops[0]), OpParts(ops[0]), WB.EncodeOps(ops[1..]), OpsParts(ops[1..]));
    }
  }

  lemma NoParts()
    ensures AreParts([], [])
  {}

  /** What is said of an operation that cannot be read depends on its first byte. */
  lemma OpErrors(b: Bytes)
    requires b != []
    ensures b[0] > 1 ==> WB.ParseOp(b).Malformed?
    ensures var r := WB.ParseOp(b); r.Malformed? ==> r.status == if b[0] == 1 then WB.BadPut else if b[0] == 0 then WB.BadDelete else WB.UnknownTag
  {}

  /** A batch is its sequence number in eight bytes, the number of its operations in four, and the operations. */
  lemma BatchFormat(rep: Bytes, sequence: nat, ops: seq<WB.Op<Bytes>>)
    requires WB.IsBatch(rep, sequence, ops) && sequence < TWO_64
    ensures AreParts(rep, [Fix(8, sequence), Fix(4, |ops|)] + OpsParts(ops))
  {
    OpsFormat(ops);
    Pow256Of8();
    FixIs(8, sequence);
    DecodeFixedMeans(4, rep[8..12]);
    hide AreParts, WB.EncodeOps;
    assert rep[8..12][..4] == rep[8..12];
    Then(rep[8..12], Fix(4, |ops|), rep[12..], OpsParts(ops));
    Then(rep[..8], Fix(8, sequence), rep[8..12] + rep[12..], [Fix(4, |ops|)] + OpsParts(ops));
    assert rep[..8] + (rep[8..12] + rep[12..]) == rep;
    assert [Fix(8, sequence)] + ([Fix(4, |ops|)] + OpsParts(ops)) == [Fix(8, sequence), Fix(4, |ops|)] + OpsParts(ops);
  }

  // ---- The log -------------------------------------------------------------------------------------------------------

  /** The checksum is rotated by 15 bits to the right, and a constant is added. */
  lemma MaskFormat(high: nat, low: nat)
    requires high < 0x2_0000 && low < 0x8000
    ensures Mask(high * 0x8000 + low) == (low * 0x2_0000 + high + 0xa282_ead8) % 0x1_0000_0000
  {}

  /** The checksum over the type and the payload, the length, the type and the payload. */
  function FragmentParts(crc: Checksum, kind: Byte, data: Bytes): seq<Part> {
    [Plain(crc.stamp([kind] + data)), Fix(2, |data|), Fix(1, kind), Plain(data)]
  }

  lemma FragmentFormat(crc: Checksum, kind: Byte, data: Bytes)
    requires |data| < 65536
    ensures AreParts(Physical(crc, kind, data), FragmentParts(crc, kind, data))
  {
    var stamp, length := crc.stamp([kind] + data), EncodeFixed(2, |data|);
    assert Pow256(2) == 256 * Pow256(1) == 65536;
    FixIs(2, |data|);
    ByteIs(kind);
    OnePart(data, Plain(data));
    hide AreParts, EncodeFixed;
    Then([kind], Fix(1, kind), data, [Plain(data)]);
    Then(length, Fix(2, |data|), [kind] + data, [Fix(1, kind)] + [Plain(data)]);
    Then(stamp, Plain(stamp), length + ([kind] + data), [Fix(2, |data|)] + ([Fix(1, kind)] + [Plain(data)]));
    assert stamp + (length + ([kind] + data)) == Physical(crc, kind, data);
    assert [Plain(stamp)] + ([Fix(2, |data|)] + ([Fix(1, kind)] + [Plain(data)])) == FragmentParts(crc, kind, data);
  }

  /** With the masked checksum of the log the stamp is that checksum in four bytes. */
  lemma StampFormat(value: Bytes -> Uint32, data: Bytes)
    ensures IsPart(Masked(value).stamp(data), Fix(4, Mask(value(data))))
  {
    Pow256Of4();
    FixIs(4, Mask(value(data)));
  }

  /** The bytes of a record, or of the rest of one, from offset `off` of a block on: zeros if less than a header fits
      into the block, and a fragment that ends the record or fills the block.  A whole record is of type 1, its first,
      middle and last fragments are of types 2, 3 and 4. */
  ghost predicate IsLogRecord(crc: Checksum, off: nat, data: Bytes, begin: bool, b: Bytes)
    requires off <= 32768
    decreases |data|, 32768 - off
  {
    exists n :: 0 <= n <= |data| && StartsWith(crc, off, data, begin, n, b) &&
      var start, rest := if 32768 - off < 7 then 0 else off, b[Padding(off) + 7 + n..];
      if n == |data| then start + 7 + n <= 32768 && rest == []
      else start + 7 + n == 32768 && IsLogRecord(crc, 32768, data[n..], false, rest)
  }

  function Padding(off: nat): nat
    requires off <= 32768
  {
    if 32768 - off < 7 then 32768 - off else 0
  }

  ghost predicate StartsWith(crc: Checksum, off: nat, data: Bytes, begin: bool, n: nat, b: Bytes)
    requires off <= 32768 && n <= |data|
  {
    var z := Padding(off);
    && z + 7 + n <= |b| && (forall i :: 0 <= i < z ==> b[i] == 0)
    && AreParts(b[z..z + 7 + n], FragmentParts(crc, if n == |data| then if begin then 1 else 4 else if begin then 2 else 3, data[..n]))
  }

  lemma {:induction false} ZerosAre(n: nat)
    ensures forall i :: 0 <= i < n ==> Zeros(n)[i] == 0
  {
    if n > 0 {
      ZerosAre(n - 1);
    }
  }

  lemma FirstFragment(crc: Checksum, off: nat, data: Bytes, begin: bool, n: nat, rest: Bytes)
    requires off <= 32768 && n <= |data| && n < 65536
    ensures var b := Zeros(Trailer(off)) + (Physical(crc, FragmentKind(begin, n == |data|), data[..n]) + rest);
            StartsWith(crc, off, data, begin, n, b) && b[Padding(off) + 7 + n..] == rest
  {
    var z, first := Zeros(Trailer(off)), Physical(crc, FragmentKind(begin, n == |data|), data[..n]);
    FragmentFormat(crc, FragmentKind(begin, n == |data|), data[..n]);
    ZerosAre(Trailer(off));
    hide AreParts, FragmentParts, Physical, Zeros;
    var b := z + (first + rest);
    assert b[|z|..|z| + 7 + n] == first && b[|z| + 7 + n..] == rest;
    assert forall i :: 0 <= i < |z| ==> b[i] == z[i];
  }

  /** What the writer adds to the log is a record in that format. */
  lemma {:induction false} LogRecordFormat(crc: Checksum, off: nat, data: Bytes, begin: bool)
    requires off <= 32768
    ensures IsLogRecord(crc, off, data, begin, Emit(crc, off, data, begin))
    decreases |data|, 32768 - off
  {
    hide AreParts, FragmentParts, Physical, Zeros, StartsWith, FragmentKind;
    var n := FragmentLength(off, |data|);
    if n < |data| {
      LogRecordFormat(crc, 32768, data[n..], false);
    }
    FirstFragment(crc, off, data, begin, n, if n == |data| then [] else Emit(crc, 32768, data[n..], false));
  }

  // ---- Blocks --------------------------------------------------------------------------------------------------------

  /** How many bytes entry `i` takes over from the key before it: none at a restart point, and elsewhere as many as the
      two keys have in common. */
  ghost predicate IsShared(es: seq<Pair>, interval: nat, i: nat, s: nat)
    requires i < |es|
  {
    if IsRestart(i, interval) then s == 0
    else
      && i > 0 && s <= |es[i].key| && s <= |es[i - 1].key| && es[i].key[..s] == es[i - 1].key[..s]
      && (s < |es[i].key| && s < |es[i - 1].key| ==> es[i].key[s] != es[i - 1].key[s])
  }

  /** Every `interval`th entry is a restart point, from the first one on. */
  ghost predicate IsRestart(i: nat, interval: nat) {
    exists j: nat :: i == j * interval
  }

  function EntryParts(s: nat, e: Pair): seq<Part>
    requires s <= |e.key|
  {
    [Var(s), Var(|e.key| - s), Var(|e.value|), Plain(e.key[s..]), Plain(e.value)]
  }

  lemma EntryFormat(s: nat, e: Pair)
    requires s <= |e.key|
    ensures AreParts(EncodeEntry(s, e), EntryParts(s, e))
  {
    hide IsPart, AreParts, EncodeVarint;
    var k, v := e.key[s..], e.value;
    VarIs(s);
    VarIs(|k|);
    VarIs(|v|);
    PlainIs(k);
    PlainIs(v);
    OnePart(v, Plain(v));
    var ps := [Plain(k)] + [Plain(v)];
    Then(k, Plain(k), v, [Plain(v)]);
    Then(EncodeVarint(|v|), Var(|v|), k + v, ps);
    Then(EncodeVarint(|k|), Var(|k|), EncodeVarint(|v|) + (k + v), [Var(|v|)] + ps);
    Then(EncodeVarint(s), Var(s), EncodeVarint(|k|) + (EncodeVarint(|v|) + (k + v)), [Var(|k|)] + ([Var(|v|)] + ps));
    assert EncodeVarint(s) + (EncodeVarint(|k|) + (EncodeVarint(|v|) + (k + v))) == EncodeEntry(s, e);
    assert [Var(s)] + ([Var(|k|)] + ([Var(|v|)] + ps)) == EntryParts(s, e);
  }

  lemma PlainIs(s: Bytes)
    ensures IsPart(s, Plain(s))
  {}

  /** The restart points are the multiples of the interval. */
  ghost predicate StartsAre(l: Layout, n: nat, interval: nat) {
    && l.starts != [] && (forall j :: 0 <= j < |l.starts| ==> l.starts[j] == j * interval)
    && (|l.starts| - 1) * interval + l.counter == n
    && l.counter <= interval && (n > 0 ==> l.counter > 0)
  }

  lemma {:induction false} RestartFormat(es: seq<Pair>, interval: nat)
    requires interval > 0
    ensures StartsAre(Build(es, interval), |es|, interval)
  {
    hide EncodeEntry, CommonPrefix, LastKey;
    if es != [] {
      var n := |es| - 1;
      RestartFormat(es[..n], interval);
      var l := Build(es[..n], interval);
      if l.counter == interval {
        var k := |l.starts|;
        assert k * interval == (k - 1) * interval + interval;
      }
    }
  }

  lemma StartIffRestart(l: Layout, n: nat, interval: nat, i: nat)
    requires StartsAre(l, n, interval) && i < n && interval > 0
    ensures i in l.starts <==> IsRestart(i, interval)
  {
    if j: nat :| i == j * interval {
      OneMore(|l.starts| - 1, interval);
      if j >= |l.starts| {
        Times(|l.starts|, j, interval);
        assert false;
      }
      assert l.starts[j] == i;
    }
    if i in l.starts {
      var j: nat :| j < |l.starts| && l.starts[j] == i;
      assert i == j * interval;
    }
  }

  lemma OneMore(a: nat, m: nat)
    ensures (a + 1) * m == a * m + m
  {}

  lemma Times(a: nat, b: nat, m: nat)
    requires a <= b
    ensures a * m <= b * m
  {}

  /** Each entry of a block is written with what it shares with the one before, and nothing that it shares is written. */
  lemma BlockEntryFormat(es: seq<Pair>, interval: nat, i: nat)
    requires interval > 0 && i < |es|
    ensures var l := Build(es, interval);
            && OffsetOf(l, i) <= OffsetOf(l, i + 1) <= |l.buffer|
            && exists s :: 0 <= s <= |es[i].key| && IsShared(es, interval, i, s) && AreParts(l.buffer[OffsetOf(l, i)..OffsetOf(l, i + 1)], EntryParts(s, es[i]))
  {
    BuildLaysOut(es, interval);
    RestartFormat(es, interval);
    var l := Build(es, interval);
    StartIffRestart(l, |es|, interval, i);
    assert EntryLaid(l, es, i);
    var s := SharedAt(l, es, i);
    EntryFormat(s, es[i]);
    assert 0 == 0 * interval;
    if i > 0 {
      CommonPrefixIs(es[i - 1].key, es[i].key);
    }
    hide AreParts, Build;
    assert IsShared(es, interval, i, s);
  }

  function FixParts(xs: seq<nat>): seq<Part> {
    seq(|xs|, i requires 0 <= i < |xs| => Fix(4, xs[i]))
  }

  lemma {:induction false} WordsFormat(xs: seq<nat>)
    requires forall i :: 0 <= i < |xs| ==> xs[i] < TWO_32
    ensures AreParts(Concat(Words(xs)), FixParts(xs))
    decreases |xs|
  {
    if xs != [] {
      var n := |xs| - 1;
      WordsFormat(xs[..n]);
      Pow256Of4();
      FixIs(4, xs[n]);
      OnePart(EncodeFixed(4, xs[n]), Fix(4, xs[n]));
      hide AreParts, EncodeFixed;
      PartsJoin(Concat(Words(xs[..n])), FixParts(xs[..n]), EncodeFixed(4, xs[n]), [Fix(4, xs[n])]);
      assert Words(xs)[..n] == Words(xs[..n]);
      assert FixParts(xs[..n]) + [Fix(4, xs[n])] == FixParts(xs);
    }
  }

  /** Every `interval`th entry is a restart point, and no other one is. */
  lemma RestartsFormat(es: seq<Pair>, interval: nat)
    requires interval > 0
    ensures var l := Build(es, interval);
            && StartsOk(l) && |l.offsets| == |es| && |Restarts(l)| == |l.starts| && (|l.starts| - 1) * interval <= |es| <= |l.starts| * interval
            && (forall j :: 0 < j < |l.starts| ==> j * interval < |es|)
            && (forall j :: 0 <= j < |l.starts| ==> j * interval <= |l.offsets| && Restarts(l)[j] == OffsetOf(l, j * interval))
  {
    BuildLaysOut(es, interval);
    RestartFormat(es, interval);
    var l := Build(es, interval);
    OneMore(|l.starts| - 1, interval);
    hide Build, LaidOut;
    forall j | 0 <= j < |l.starts| ensures j * interval <= |es| && (j > 0 ==> j * interval < |es|) {
      Times(j, |l.starts| - 1, interval);
    }
  }

  /** After the entries come the offset of every restart point and how many these are. */
  lemma FinishedFormat(es: seq<Pair>, interval: nat)
    requires interval > 0
    ensures var l := Build(es, interval);
            StartsOk(l) && (|l.buffer| < TWO_32 && |l.starts| < TWO_32 ==>
              AreParts(Finished(l), [Plain(l.buffer)] + FixParts(Restarts(l) + [|l.starts|])))
  {
    BuildLaysOut(es, interval);
    var l := Build(es, interval);
    hide Build, AreParts;
    if |l.buffer| < TWO_32 && |l.starts| < TWO_32 {
      var xs := Restarts(l) + [|l.starts|];
      forall j | 0 <= j < |l.starts| ensures Restarts(l)[j] < TWO_32 {
        OffsetsGrow(l, es, if l.starts[j] <= |l.offsets| then l.starts[j] else 0, |es|);
      }
      hide LaidOut, Restarts, OffsetOf;
      WordsFormat(xs);
      PlainIs(l.buffer);
      Then(l.buffer, Plain(l.buffer), Concat(Words(xs)), FixParts(xs));
    }
  }
}
