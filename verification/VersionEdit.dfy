/** Version edits as records of the manifest (db/version_edit.cc). */
module VersionEdits {
  import opened ByteStrings
  import Files
  import opened Keys
  import opened Varints

  datatype FileEntry = FileEntry(number: nat, size: nat, smallest: Bytes, largest: Bytes)

  datatype VersionEdit = VersionEdit(
    comparator: Option<Bytes>, logNumber: Option<nat>, prevLogNumber: Option<nat>, nextFile: Option<nat>, lastSequence: Option<nat>,
    compactPointers: seq<(nat, Bytes)>, deletedFiles: set<(nat, nat)>, newFiles: seq<(nat, FileEntry)>)

  const FRESH := VersionEdit(None, None, None, None, None, [], {}, [])

  /** A tagged field of the record. */
  datatype Item =
    | Comparator(name: Bytes)
    | LogNumber(n: nat)
    | NextFileNumber(n: nat)
    | LastSequence(n: nat)
    | CompactPointer(level: nat, key: Bytes)
    | DeletedFile(level: nat, n: nat)
    | NewFile(level: nat, file: FileEntry)
    | PrevLogNumber(n: nat)

  function TagOf(i: Item): nat {
    match i
    case Comparator(_) => 1
    case LogNumber(_) => 2
    case NextFileNumber(_) => 3
    case LastSequence(_) => 4
    case CompactPointer(_, _) => 5
    case DeletedFile(_, _) => 6
    case NewFile(_, _) => 7
    case PrevLogNumber(_) => 9
  }

  predicate Short(s: Bytes) {
    |s| < 0x1_0000_0000
  }

  /** Numbers have 64 bits, lengths 32, and there are seven levels. */
  predicate Encodable(i: Item) {
    match i
    case Comparator(name) => Short(name)
    case CompactPointer(level, key) => level < Files.NUM_LEVELS && Short(key)
    case DeletedFile(level, n) => level < Files.NUM_LEVELS && n < TWO_64
    case NewFile(level, f) => level < Files.NUM_LEVELS && f.number < TWO_64 && f.size < TWO_64 && Short(f.smallest) && Short(f.largest)
    case _ => i.n < TWO_64
  }

  function EncodeFile(f: FileEntry): Bytes {
    EncodeVarint(f.number) + (EncodeVarint(f.size) + (Prefixed(f.smallest) + Prefixed(f.largest)))
  }

  function EncodeBody(i: Item): Bytes {
    match i
    case Comparator(name) => Prefixed(name)
    case CompactPointer(level, key) => EncodeVarint(level) + Prefixed(key)
    case DeletedFile(level, n) => EncodeVarint(level) + EncodeVarint(n)
    case NewFile(level, f) => EncodeVarint(level) + EncodeFile(f)
    case _ => EncodeVarint(i.n)
  }

  function EncodeItem(i: Item): (b: Bytes)
    ensures b != []
  {
    EncodeVarint(TagOf(i)) + EncodeBody(i)
  }

  function EncodeItems(items: seq<Item>): Bytes {
    if items == [] then [] else EncodeItem(items[0]) + EncodeItems(items[1..])
  }

  // ---- Parsing -----------------------------------------------------------------------------------------

  datatype Message = ComparatorName | LogNumberMsg | PrevLogNumberMsg | NextFileNumberMsg | LastSequenceMsg
    | CompactionPointer | DeletedFileMsg | NewFileEntry | UnknownTag | InvalidTag

  datatype ParsedItem = ParsedItem(item: Item, used: nat) | Bad(message: Message)

  function GetLevel(b: Bytes): (r: Option<Parsed>)
    ensures r.Some? ==> 0 < r.value.used <= |b| && r.value.value < Files.NUM_LEVELS
  {
    var r := GetVarint32(b);
    if r.Some? && r.value.value < Files.NUM_LEVELS then r else None
  }

  datatype ParsedFile = ParsedFile(file: FileEntry, used: nat)

  function GetFile(b: Bytes): (r: Option<ParsedFile>)
    ensures r.Some? ==> 0 < r.value.used <= |b|
  {
    var number := GetVarint64(b);
    if number.None? then None
    else
      var p := number.value.used;
      var size := GetVarint64(b[p..]);
      if size.None? then None
      else
        var q := p + size.value.used;
        var smallest := GetLengthPrefixed(b[q..]);
        if smallest.None? then None
        else
          var s := q + smallest.value.used;
          var largest := GetLengthPrefixed(b[s..]);
          if largest.None? then None
          else Some(ParsedFile(FileEntry(number.value.value, size.value.value, smallest.value.data, largest.value.data),
                               s + largest.value.used))
  }

  function NumberItem(tag: nat, n: nat): Item {
    if tag == 2 then LogNumber(n) else if tag == 3 then NextFileNumber(n) else if tag == 4 then LastSequence(n) else PrevLogNumber(n)
  }

  function NumberMessage(tag: nat): Message {
    if tag == 2 then LogNumberMsg else if tag == 3 then NextFileNumberMsg else if tag == 4 then LastSequenceMsg else PrevLogNumberMsg
  }

  /** The body of a field. */
  function ParseBody(tag: nat, b: Bytes): (r: ParsedItem)
    ensures r.ParsedItem? ==> r.used <= |b|
  {
    if tag == 1 then
      var s := GetLengthPrefixed(b);
      if s.None? then Bad(ComparatorName) else ParsedItem(Comparator(s.value.data), s.value.used)
    else if 2 <= tag <= 4 || tag == 9 then
      var n := GetVarint64(b);
      if n.None? then Bad(NumberMessage(tag)) else ParsedItem(NumberItem(tag, n.value.value), n.value.used)
    else if 5 <= tag <= 7 then
      var level := GetLevel(b);
      if level.None? then Bad(LevelMessage(tag)) else ParseAtLevel(tag, level.value.value, level.value.used, b)
    else Bad(UnknownTag)
  }

  function LevelMessage(tag: nat): Message {
    if tag == 5 then CompactionPointer else if tag == 6 then DeletedFileMsg else NewFileEntry
  }

  function ParseAtLevel(tag: nat, level: nat, p: nat, b: Bytes): (r: ParsedItem)
    requires p <= |b|
    ensures r.ParsedItem? ==> r.used <= |b|
  {
    if tag == 5 then
      var s := GetLengthPrefixed(b[p..]);
      if s.None? then Bad(LevelMessage(tag)) else ParsedItem(CompactPointer(level, s.value.data), p + s.value.used)
    else if tag == 6 then
      var n := GetVarint64(b[p..]);
      if n.None? then Bad(LevelMessage(tag)) else ParsedItem(DeletedFile(level, n.value.value), p + n.value.used)
    else
      var f := GetFile(b[p..]);
      if f.None? then Bad(LevelMessage(tag)) else ParsedItem(NewFile(level, f.value.file), p + f.value.used)
  }

  function ParseItem(b: Bytes): (r: ParsedItem)
    ensures r.ParsedItem? ==> 0 < r.used <= |b|
  {
    var tag := GetVarint32(b);
    if tag.None? then Bad(InvalidTag)
    else
      match ParseBody(tag.value.value, b[tag.value.used..])
      case Bad(message) => Bad(message)
      case ParsedItem(item, used) => ParsedItem(item, tag.value.used + used)
  }

  /** All fields, or what is wrong with the first bad one. */
  function ParseItems(b: Bytes): (seq<Item>, Option<Message>)
    decreases |b|
  {
    if b == [] then ([], None)
    else
      match ParseItem(b)
      case Bad(message) => ([], Some(message))
      case ParsedItem(item, used) =>
        var (items, message) := ParseItems(b[used..]);
        ([item] + items, message)
  }

  /** What a field does to the edit. */
  function Put(e: VersionEdit, i: Item): VersionEdit {
    match i
    case Comparator(name) => e.(comparator := Some(name))
    case LogNumber(n) => e.(logNumber := Some(n))
    case NextFileNumber(n) => e.(nextFile := Some(n))
    case LastSequence(n) => e.(lastSequence := Some(n))
    case CompactPointer(level, key) => e.(compactPointers := e.compactPointers + [(level, key)])
    case DeletedFile(level, n) => e.(deletedFiles := e.deletedFiles + {(level, n)})
    case NewFile(level, f) => e.(newFiles := e.newFiles + [(level, f)])
    case PrevLogNumber(n) => e.(prevLogNumber := Some(n))
  }

  function PutAll(e: VersionEdit, items: seq<Item>): VersionEdit
    decreases items
  {
    if items == [] then e else PutAll(Put(e, items[0]), items[1..])
  }

  // ---- Round trip ----------------------------------------------------------------------------------------

  lemma FileRoundTrip(f: FileEntry, rest: Bytes)
    requires f.number < TWO_64 && f.size < TWO_64 && Short(f.smallest) && Short(f.largest)
    ensures GetFile(EncodeFile(f) + rest) == Some(ParsedFile(f, |EncodeFile(f)|))
  {
    hide GetVarint64, GetVarint32, GetLengthPrefixed, Prefixed, EncodeVarint;
    var a, b, c, d := EncodeVarint(f.number), EncodeVarint(f.size), Prefixed(f.smallest), Prefixed(f.largest);
    Varint64RoundTrip(f.number, b + (c + (d + rest)));
    Varint64RoundTrip(f.size, c + (d + rest));
    PrefixedRoundTrip(f.smallest, d + rest);
    PrefixedRoundTrip(f.largest, rest);
    FileFromParts(a, b, c, d, rest, f);
  }

  lemma FileFromParts(a: Bytes, b: Bytes, c: Bytes, d: Bytes, rest: Bytes, f: FileEntry)
    requires GetVarint64(a + (b + (c + (d + rest)))) == Some(Parsed(f.number, |a|))
    requires GetVarint64(b + (c + (d + rest))) == Some(Parsed(f.size, |b|))
    requires GetLengthPrefixed(c + (d + rest)) == Some(Slice(f.smallest, |c|))
    requires GetLengthPrefixed(d + rest) == Some(Slice(f.largest, |d|))
    ensures GetFile(a + (b + (c + d)) + rest) == Some(ParsedFile(f, |a| + |b| + |c| + |d|))
  {
    hide GetVarint64, GetVarint32, GetLengthPrefixed;
    FileTails(a, b, c, d, rest);
    FileParts(a + (b + (c + d)) + rest, Parsed(f.number, |a|), Parsed(f.size, |b|), Slice(f.smallest, |c|), Slice(f.largest, |d|));
  }

  lemma FileParts(b: Bytes, number: Parsed, size: Parsed, smallest: Slice, largest: Slice)
    requires number.used + size.used + smallest.used <= |b|
    requires GetVarint64(b) == Some(number) && GetVarint64(b[number.used..]) == Some(size)
    requires GetLengthPrefixed(b[number.used + size.used..]) == Some(smallest)
    requires GetLengthPrefixed(b[number.used + size.used + smallest.used..]) == Some(largest)
    ensures GetFile(b) == Some(ParsedFile(FileEntry(number.value, size.value, smallest.data, largest.data),
                                          number.used + size.used + smallest.used + largest.used))
  {}

  lemma FileTails(a: Bytes, b: Bytes, c: Bytes, d: Bytes, rest: Bytes)
    ensures var all := a + (b + (c + d)) + rest;
      && all == a + (b + (c + (d + rest))) && all[|a|..] == b + (c + (d + rest))
      && all[|a| + |b|..] == c + (d + rest) && all[|a| + |b| + |c|..] == d + rest
  {}

  lemma Tail(a: Bytes, b: Bytes, rest: Bytes)
    ensures a + b + rest == a + (b + rest) && (a + b + rest)[|a|..] == b + rest
  {}

  lemma BodyRoundTrip(i: Item, rest: Bytes)
    requires Encodable(i)
    ensures ParseBody(TagOf(i), EncodeBody(i) + rest) == ParsedItem(i, |EncodeBody(i)|)
  {
    hide GetVarint64, GetVarint32, GetLengthPrefixed, Prefixed, EncodeVarint, EncodeFile, GetFile;
    match i
    case Comparator(name) => PrefixedRoundTrip(name, rest);
    case CompactPointer(level, key) =>
      Tail(EncodeVarint(level), Prefixed(key), rest);
      Varint32RoundTrip(level, Prefixed(key) + rest);
      PrefixedRoundTrip(key, rest);
    case DeletedFile(level, n) =>
      Tail(EncodeVarint(level), EncodeVarint(n), rest);
      Varint32RoundTrip(level, EncodeVarint(n) + rest);
      Varint64RoundTrip(n, rest);
    case NewFile(level, f) =>
      Tail(EncodeVarint(level), EncodeFile(f), rest);
      Varint32RoundTrip(level, EncodeFile(f) + rest);
      FileRoundTrip(f, rest);
    case _ => Varint64RoundTrip(i.n, rest);
  }

  lemma ItemRoundTrip(i: Item, rest: Bytes)
    requires Encodable(i)
    ensures ParseItem(EncodeItem(i) + rest) == ParsedItem(i, |EncodeItem(i)|)
  {
    Tail(EncodeVarint(TagOf(i)), EncodeBody(i), rest);
    Varint32RoundTrip(TagOf(i), EncodeBody(i) + rest);
    BodyRoundTrip(i, rest);
  }

  lemma {:induction false} ItemsRoundTrip(items: seq<Item>)
    requires forall i :: 0 <= i < |items| ==> Encodable(items[i])
    ensures ParseItems(EncodeItems(items)) == (items, None)
  {
    if items != [] {
      ItemRoundTrip(items[0], EncodeItems(items[1..]));
      ItemsRoundTrip(items[1..]);
      ItemsStep(EncodeItems(items), items[0], |EncodeItem(items[0])|, EncodeItems(items[1..]));
      assert [items[0]] + items[1..] == items;
    }
  }

  /** Before a bad field all others are found. */
  lemma {:induction false} ItemsBeforeBad(items: seq<Item>, b: Bytes)
    requires (forall i :: 0 <= i < |items| ==> Encodable(items[i])) && b != [] && ParseItem(b).Bad?
    ensures ParseItems(EncodeItems(items) + b) == (items, Some(ParseItem(b).message))
    decreases |items|
  {
    if items == [] {
      assert EncodeItems(items) + b == b;
    } else {
      var rest := EncodeItems(items[1..]) + b;
      Associative(EncodeItem(items[0]), EncodeItems(items[1..]), b);
      ItemRoundTrip(items[0], rest);
      ItemsBeforeBad(items[1..], b);
      ItemsStep(EncodeItems(items) + b, items[0], |EncodeItem(items[0])|, rest);
      assert [items[0]] + items[1..] == items;
    }
  }

  lemma ItemsStep(b: Bytes, item: Item, used: nat, rest: Bytes)
    requires b != [] && ParseItem(b) == ParsedItem(item, used) && b[used..] == rest
    ensures ParseItems(b) == ([item] + ParseItems(rest).0, ParseItems(rest).1)
  {}

  // ---- Whole edits ---------------------------------------------------------------------------------------

  function Optional(n: Option<nat>, tag: nat): seq<Item> {
    if n.Some? then [NumberItem(tag, n.value)] else []
  }

  function Pointers(ps: seq<(nat, Bytes)>): seq<Item> {
    seq(|ps|, i requires 0 <= i < |ps| => CompactPointer(ps[i].0, ps[i].1))
  }

  function Deletions(order: seq<(nat, nat)>): seq<Item> {
    seq(|order|, i requires 0 <= i < |order| => DeletedFile(order[i].0, order[i].1))
  }

  function Additions(fs: seq<(nat, FileEntry)>): seq<Item> {
    seq(|fs|, i requires 0 <= i < |fs| => NewFile(fs[i].0, fs[i].1))
  }

  /** The fields in the order they are written; `order` lists the deleted files. */
  function Items(e: VersionEdit, order: seq<(nat, nat)>): seq<Item> {
    (if e.comparator.Some? then [Comparator(e.comparator.value)] else [])
      + Optional(e.logNumber, 2) + Optional(e.prevLogNumber, 9) + Optional(e.nextFile, 3) + Optional(e.lastSequence, 4)
      + Pointers(e.compactPointers) + Deletions(order) + Additions(e.newFiles)
  }

  ghost predicate AllEncodable(items: seq<Item>) {
    forall i :: 0 <= i < |items| ==> Encodable(items[i])
  }

  lemma {:induction false} PutAllJoin(e: VersionEdit, a: seq<Item>, b: seq<Item>)
    ensures PutAll(e, a + b) == PutAll(PutAll(e, a), b)
    decreases a
  {
    if a == [] {
      assert a + b == b;
    } else {
      PutAllJoin(Put(e, a[0]), a[1..], b);
      assert (a + b)[1..] == a[1..] + b;
    }
  }

  /** Of two fields of one kind the later one counts. */
  lemma LaterFieldCounts(e: VersionEdit, items: seq<Item>, last: Item)
    ensures var r := PutAll(e, items + [last]);
            && (last.Comparator? ==> r.comparator == Some(last.name)) && (last.LogNumber? ==> r.logNumber == Some(last.n))
            && (last.PrevLogNumber? ==> r.prevLogNumber == Some(last.n)) && (last.NextFileNumber? ==> r.nextFile == Some(last.n))
            && (last.LastSequence? ==> r.lastSequence == Some(last.n))
  {
    PutAllJoin(e, items, [last]);
    assert [last][1..] == [];
  }

  lemma {:induction false} PutPointers(e: VersionEdit, ps: seq<(nat, Bytes)>)
    ensures PutAll(e, Pointers(ps)) == e.(compactPointers := e.compactPointers + ps)
    decreases ps
  {
    if ps != [] {
      PutPointers(e.(compactPointers := e.compactPointers + [ps[0]]), ps[1..]);
      assert Pointers(ps)[1..] == Pointers(ps[1..]);
      assert e.compactPointers + [ps[0]] + ps[1..] == e.compactPointers + ps;
    } else {
      assert e.compactPointers + ps == e.compactPointers;
    }
  }

  lemma {:induction false} PutDeletions(e: VersionEdit, order: seq<(nat, nat)>)
    ensures PutAll(e, Deletions(order)) == e.(deletedFiles := e.deletedFiles + set d | d in order)
    decreases order
  {
    if order != [] {
      PutDeletions(e.(deletedFiles := e.deletedFiles + {order[0]}), order[1..]);
      assert Deletions(order)[1..] == Deletions(order[1..]);
      assert order == [order[0]] + order[1..];
      assert e.deletedFiles + {order[0]} + (set d | d in order[1..]) == e.deletedFiles + set d | d in order;
    } else {
      assert e.deletedFiles + (set d | d in order) == e.deletedFiles;
    }
  }

  lemma {:induction false} PutAdditions(e: VersionEdit, fs: seq<(nat, FileEntry)>)
    ensures PutAll(e, Additions(fs)) == e.(newFiles := e.newFiles + fs)
    decreases fs
  {
    if fs != [] {
      PutAdditions(e.(newFiles := e.newFiles + [fs[0]]), fs[1..]);
      assert Additions(fs)[1..] == Additions(fs[1..]);
      assert e.newFiles + [fs[0]] + fs[1..] == e.newFiles + fs;
    } else {
      assert e.newFiles + fs == e.newFiles;
    }
  }

  lemma PutOne(e: VersionEdit, n: Option<nat>, tag: nat)
    ensures PutAll(e, Optional(n, tag)) == if n.Some? then Put(e, NumberItem(tag, n.value)) else e
  {
    if n.Some? {
      assert Optional(n, tag)[1..] == [];
    }
  }

  lemma PutHeader(e: VersionEdit)
    ensures PutAll(FRESH, (if e.comparator.Some? then [Comparator(e.comparator.value)] else [])
      + Optional(e.logNumber, 2) + Optional(e.prevLogNumber, 9) + Optional(e.nextFile, 3) + Optional(e.lastSequence, 4))
      == e.(compactPointers := [], deletedFiles := {}, newFiles := [])
  {
    var a := if e.comparator.Some? then [Comparator(e.comparator.value)] else [];
    var b, c, d, f := Optional(e.logNumber, 2), Optional(e.prevLogNumber, 9), Optional(e.nextFile, 3), Optional(e.lastSequence, 4);
    if a != [] {
      assert a[1..] == [];
    }
    var e1 := FRESH.(comparator := e.comparator);
    assert PutAll(FRESH, a) == e1;
    PutAllJoin(FRESH, a, b);
    PutOne(e1, e.logNumber, 2);
    var e2 := e1.(logNumber := e.logNumber);
    PutAllJoin(FRESH, a + b, c);
    PutOne(e2, e.prevLogNumber, 9);
    var e3 := e2.(prevLogNumber := e.prevLogNumber);
    PutAllJoin(FRESH, a + b + c, d);
    PutOne(e3, e.nextFile, 3);
    PutAllJoin(FRESH, a + b + c + d, f);
    PutOne(e3.(nextFile := e.nextFile), e.lastSequence, 4);
  }

  /** The fields of an edit make that edit again. */
  lemma ItemsMakeEdit(e: VersionEdit, order: seq<(nat, nat)>)
    requires e.deletedFiles == set d | d in order
    ensures PutAll(FRESH, Items(e, order)) == e
  {
    var header := (if e.comparator.Some? then [Comparator(e.comparator.value)] else [])
      + Optional(e.logNumber, 2) + Optional(e.prevLogNumber, 9) + Optional(e.nextFile, 3) + Optional(e.lastSequence, 4);
    var e1 := e.(compactPointers := [], deletedFiles := {}, newFiles := []);
    PutHeader(e);
    PutAllJoin(FRESH, header, Pointers(e.compactPointers));
    PutPointers(e1, e.compactPointers);
    var e2 := e1.(compactPointers := e.compactPointers);
    PutAllJoin(FRESH, header + Pointers(e.compactPointers), Deletions(order));
    PutDeletions(e2, order);
    PutAllJoin(FRESH, header + Pointers(e.compactPointers) + Deletions(order), Additions(e.newFiles));
    PutAdditions(e2.(deletedFiles := e.deletedFiles), e.newFiles);
    assert {} + e.deletedFiles == e.deletedFiles;
    assert [] + e.compactPointers == e.compactPointers && [] + e.newFiles == e.newFiles;
    assert Items(e, order) == header + Pointers(e.compactPointers) + Deletions(order) + Additions(e.newFiles);
  }

  lemma EncodeStep(dst: Bytes, items: seq<Item>, i: nat)
    requires i < |items|
    ensures dst + EncodeItems(items[i..]) == dst + EncodeItem(items[i]) + EncodeItems(items[i + 1..])
  {
    assert items[i..][1..] == items[i + 1..];
  }

  /** Writes the fields one after the other. */
  method EncodeTo(e: VersionEdit, order: seq<(nat, nat)>) returns (dst: Bytes)
    requires e.deletedFiles == set d | d in order
    ensures dst == EncodeItems(Items(e, order))
  {
    var items := Items(e, order);
    dst := [];
    for i := 0 to |items|
      invariant EncodeItems(items) == dst + EncodeItems(items[i..])
    {
      EncodeStep(dst, items, i);
      dst := dst + EncodeItem(items[i]);
    }
    assert dst + [] == dst;
  }

  /** Reads fields until the record is used up or one is bad. */
  method DecodeFrom(src: Bytes) returns (e: VersionEdit, message: Option<Message>)
    ensures message == ParseItems(src).1 && e == PutAll(FRESH, ParseItems(src).0)
  {
    e := FRESH;
    var input := src;
    ghost var all := ParseItems(src);
    while input != []
      invariant all.1 == ParseItems(input).1 && PutAll(FRESH, all.0) == PutAll(e, ParseItems(input).0)
      decreases |input|
    {
      match ParseItem(input) {
        case Bad(m) =>
          return e, Some(m);
        case ParsedItem(item, used) =>
          PutFirst(e, item, ParseItems(input[used..]).0);
          e := Put(e, item);
          input := input[used..];
      }
    }
    message := None;
  }

  lemma PutFirst(e: VersionEdit, item: Item, items: seq<Item>)
    ensures PutAll(e, [item] + items) == PutAll(Put(e, item), items)
  {
    assert ([item] + items)[1..] == items;
  }

  /** Every edit decodes to itself, in whatever order its deleted files are written. */
  lemma EditRoundTrip(e: VersionEdit, order: seq<(nat, nat)>)
    requires e.deletedFiles == (set d | d in order) && AllEncodable(Items(e, order))
    ensures ParseItems(EncodeItems(Items(e, order))) == (Items(e, order), None)
    ensures PutAll(FRESH, ParseItems(EncodeItems(Items(e, order))).0) == e
  {
    ItemsRoundTrip(Items(e, order));
    ItemsMakeEdit(e, order);
  }
}
