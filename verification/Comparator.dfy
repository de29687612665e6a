/** The bytewise comparator (util/comparator.cc) and the internal key comparator's short keys
    (db/dbformat.cc). */
module Comparator {
  import opened ByteStrings
  import opened Coding
  import opened Keys

  /** Lexicographic order of byte strings; a prefix comes first. */
  predicate BytesLess(a: Bytes, b: Bytes) {
    b != [] && (a == [] || a[0] < b[0] || (a[0] == b[0] && BytesLess(a[1..], b[1..])))
  }

  /** A byte string as a point of the user key order: a fraction in base 257, in which the end of the string is
      the smallest digit. */
  function Rank(s: Bytes): (r: real)
    ensures 0.0 <= r < 1.0
  {
    if s == [] then 0.0 else (s[0] as real + 1.0 + Rank(s[1..])) / 257.0
  }

  /** The order of ranks is the order of byte strings. */
  lemma {:induction false} RankKeepsOrder(a: Bytes, b: Bytes)
    ensures BytesLess(a, b) <==> Rank(a) < Rank(b)
  {
    if a != [] && b != [] {
      RankKeepsOrder(a[1..], b[1..]);
      var x, y: int := a[0], b[0];
      if x < y {
        assert x as real + 1.0 <= y as real;
      } else if y < x {
        assert y as real + 1.0 <= x as real;
      }
    }
  }

  lemma {:induction false} RankIsInjective(a: Bytes, b: Bytes)
    ensures Rank(a) == Rank(b) <==> a == b
  {
    if a != [] && b != [] {
      RankIsInjective(a[1..], b[1..]);
      RankKeepsOrder(a, b);
      RankKeepsOrder(b, a);
      var x, y: int := a[0], b[0];
      if x == y {
        assert a == [a[0]] + a[1..] && b == [b[0]] + b[1..];
      } else {
        assert x as real + 1.0 <= y as real || y as real + 1.0 <= x as real;
      }
    }
  }

  lemma {:induction false} LessAfterPrefix(p: Bytes, a: Bytes, b: Bytes)
    ensures BytesLess(p + a, p + b) <==> BytesLess(a, b)
  {
    if p == [] {
      assert p + a == a && p + b == b;
    } else {
      LessAfterPrefix(p[1..], a, b);
      assert (p + a)[1..] == p[1..] + a && (p + b)[1..] == p[1..] + b;
    }
  }

  /** The strings differ at `i`, and not before. */
  ghost predicate FirstDifference(start: Bytes, limit: Bytes, i: nat) {
    i < |start| && i < |limit| && start[i] != limit[i] && start[..i] == limit[..i]
  }

  /** `r` is `s` up to `i`, with that byte raised by one. */
  ghost predicate IsRaised(s: Bytes, i: nat, r: Bytes) {
    i < |s| && |r| == i + 1 && r[..i] == s[..i] && r[i] as int == s[i] as int + 1
  }

  /** A short string at or after `start`, and before `limit` if `start` is: the first byte where they differ is
      raised, unless that reaches the limit's. */
  method FindShortestSeparator(start: Bytes, limit: Bytes) returns (r: Bytes)
    ensures !BytesLess(r, start) && |r| <= |start|
    ensures BytesLess(start, limit) ==> BytesLess(r, limit)
    ensures r == start || (start != limit && BytesLess(start, r))
    ensures r == start || exists i: nat :: FirstDifference(start, limit, i) && IsRaised(start, i, r)
    ensures r == start <==> forall i: nat :: FirstDifference(start, limit, i) ==> start[i] as int + 1 >= limit[i] as int
  {
    var minLength := if |start| < |limit| then |start| else |limit|;
    var diffIndex := 0;
    while diffIndex < minLength && start[diffIndex] == limit[diffIndex]
      invariant diffIndex <= minLength && start[..diffIndex] == limit[..diffIndex]
    {
      assert start[..diffIndex + 1] == start[..diffIndex] + [start[diffIndex]];
      assert limit[..diffIndex + 1] == limit[..diffIndex] + [limit[diffIndex]];
      diffIndex := diffIndex + 1;
    }
    NotLessItself(start);
    r := start;
    if diffIndex < minLength {
      var diffByte: int := start[diffIndex];
      var limitByte: int := limit[diffIndex];
      if diffByte < 255 && diffByte + 1 < limitByte {
        r := start[..diffIndex] + [diffByte + 1];
        Raised(start, diffIndex);
        BelowLimit(start, limit, diffIndex);
        assert r[..diffIndex] == start[..diffIndex] && r[diffIndex] != start[diffIndex];
        assert FirstDifference(start, limit, diffIndex) && IsRaised(start, diffIndex, r);
      }
    }
    forall i: nat | FirstDifference(start, limit, i) ensures i == diffIndex {
      OneFirstDifference(start, limit, i, diffIndex);
    }
  }

  lemma OneFirstDifference(start: Bytes, limit: Bytes, i: nat, j: nat)
    requires FirstDifference(start, limit, i) && j <= |start| && j <= |limit| && start[..j] == limit[..j]
    requires j < |start| && j < |limit| ==> start[j] != limit[j]
    ensures i == j
  {
    if i < j {
      SameBefore(start, limit, j, i);
    } else if j < i {
      SameBefore(start, limit, i, j);
    }
  }

  lemma SameBefore(a: Bytes, b: Bytes, k: nat, i: nat)
    requires i < k <= |a| && k <= |b| && a[..k] == b[..k]
    ensures a[i] == b[i]
  {
    assert a[..k][i] == b[..k][i];
  }

  lemma {:induction false} NotLessItself(a: Bytes)
    ensures !BytesLess(a, a)
  {
    if a != [] {
      NotLessItself(a[1..]);
    }
  }

  /** Raising a byte and cutting the rest off moves a string up. */
  lemma Raised(s: Bytes, i: nat)
    requires i < |s| && s[i] < 255
    ensures var b: int := s[i]; BytesLess(s, s[..i] + [b + 1]) && !BytesLess(s[..i] + [b + 1], s)
  {
    var b: int := s[i];
    assert s == s[..i] + s[i..];
    LessAfterPrefix(s[..i], s[i..], [b + 1]);
    LessAfterPrefix(s[..i], [b + 1], s[i..]);
  }

  lemma BelowLimit(start: Bytes, limit: Bytes, i: nat)
    requires i < |start| && i < |limit| && start[..i] == limit[..i] && start[i] < 255
    requires var b: int := start[i]; b + 1 < limit[i] as int
    ensures var b: int := start[i]; BytesLess(start[..i] + [b + 1], limit)
  {
    var b: int := start[i];
    assert limit == limit[..i] + limit[i..];
    LessAfterPrefix(limit[..i], [b + 1], limit[i..]);
  }

  ghost predicate IsFirstBelow255(key: Bytes, i: nat) {
    i < |key| && key[i] < 255 && forall j :: 0 <= j < i ==> key[j] == 255
  }

  /** A short string at or after `key`: its first byte below 255 is raised. */
  method FindShortSuccessor(key: Bytes) returns (r: Bytes)
    ensures !BytesLess(r, key) && |r| <= |key| && (r == key || BytesLess(key, r))
    ensures r == key || exists i: nat :: IsFirstBelow255(key, i) && IsRaised(key, i, r)
    ensures r == key <==> forall i :: 0 <= i < |key| ==> key[i] == 255
  {
    NotLessItself(key);
    r := key;
    for i := 0 to |key|
      invariant forall j :: 0 <= j < i ==> key[j] == 255
    {
      var byte: int := key[i];
      if byte != 255 {
        r := key[..i] + [byte + 1];
        Raised(key, i);
        assert r[..i] == key[..i] && r[i] != key[i];
        assert IsFirstBelow255(key, i) && IsRaised(key, i, r);
        return;
      }
    }
  }

  // ---- Internal keys -------------------------------------------------------------------------------

  /** An internal key as it is stored. */
  datatype StoredKey = StoredKey(user: Bytes, sequence: nat, kind: ValueType)

  /** Its place in the order of internal keys. */
  function Ordered(k: StoredKey): InternalKey {
    InternalKey(Rank(k.user), k.sequence, k.kind)
  }

  /** The user key, then the sequence number and the type in eight bytes. */
  function EncodeStored(k: StoredKey): Bytes {
    k.user + EncodeFixed(8, PackSequenceAndType(k.sequence, k.kind))
  }

  datatype Tag = Tag(sequence: nat, kind: ValueType)

  function ParseTag(n: nat): Option<Tag> {
    if n % 256 > 1 then None else Some(Tag(n / 256, if n % 256 == 1 then Value else Deletion))
  }

  lemma TagBack(n: nat, s: nat, kind: ValueType)
    ensures ParseTag(n) == Some(Tag(s, kind)) <==> n == PackSequenceAndType(s, kind)
  {}

  /** Fewer than eight bytes or an unknown type make no internal key. */
  function ParseStored(b: Bytes): Option<StoredKey> {
    if |b| < 8 then None
    else
      var tag := ParseTag(DecodeFixed(8, b[|b| - 8..]));
      if tag.None? then None else Some(StoredKey(b[..|b| - 8], tag.value.sequence, tag.value.kind))
  }

  lemma StoredBack(k: StoredKey)
    requires k.sequence <= MAX_SEQUENCE
    ensures ParseStored(EncodeStored(k)) == Some(k)
  {
    Pow256Of8();
    var n, b := PackSequenceAndType(k.sequence, k.kind), EncodeStored(k);
    FixedRoundTrip(8, n, []);
    TagBack(n, k.sequence, k.kind);
    hide DecodeFixed, EncodeFixed, Pow256, ParseTag, PackSequenceAndType;
    assert b[|b| - 8..] == EncodeFixed(8, n) + [] && b[..|b| - 8] == k.user;
  }

  lemma ParsedBack(b: Bytes)
    requires ParseStored(b).Some?
    ensures var k := ParseStored(b).value; k.sequence <= MAX_SEQUENCE && EncodeStored(k) == b
  {
    var k, last := ParseStored(b).value, b[|b| - 8..];
    Pow256Of8();
    FixedIsBelow(8, last);
    FixedIsEncoded(8, last);
    TagBack(DecodeFixed(8, last), k.sequence, k.kind);
    BelowMax(k.sequence, k.kind);
    hide DecodeFixed, EncodeFixed, Pow256, ParseTag, PackSequenceAndType;
    assert b[..|b| - 8] + last == b;
  }

  lemma BelowMax(s: nat, kind: ValueType)
    ensures PackSequenceAndType(s, kind) < 0x1_0000_0000_0000_0000 ==> s <= MAX_SEQUENCE
  {}

  /** Internal keys and the byte strings that parse stand for one another. */
  lemma StoredIffParsed(k: StoredKey, b: Bytes)
    ensures ParseStored(b) == Some(k) <==> k.sequence <= MAX_SEQUENCE && b == EncodeStored(k)
  {
    if k.sequence <= MAX_SEQUENCE {
      StoredBack(k);
    }
    if ParseStored(b) == Some(k) {
      ParsedBack(b);
    }
    hide ParseStored, EncodeStored;
  }

  /** A shorter user key between the two makes a shorter internal key between them, with the largest
      sequence number. */
  method FindShortestInternalSeparator(start: StoredKey, limit: StoredKey) returns (r: StoredKey)
    requires Less(Ordered(start), Ordered(limit))
    ensures !Less(Ordered(r), Ordered(start)) && Less(Ordered(r), Ordered(limit))
    ensures r == start || Rank(start.user) < Rank(r.user) < Rank(limit.user)
    ensures r == start || (r.sequence == 0xff_ffff_ffff_ffff && r.kind == Value &&
      exists i: nat :: FirstDifference(start.user, limit.user, i) && IsRaised(start.user, i, r.user) && i + 1 < |start.user|)
    ensures r == start <==>
      forall i: nat :: FirstDifference(start.user, limit.user, i) ==> start.user[i] as int + 1 >= limit.user[i] as int || i + 1 == |start.user|
  {
    var tmp := FindShortestSeparator(start.user, limit.user);
    RankKeepsOrder(start.user, limit.user);
    RankKeepsOrder(start.user, tmp);
    RankKeepsOrder(tmp, limit.user);
    RankIsInjective(start.user, limit.user);
    forall i: nat, j: nat | FirstDifference(start.user, limit.user, i) && FirstDifference(start.user, limit.user, j) ensures i == j {
      OneFirstDifference(start.user, limit.user, i, j);
    }
    r := start;
    if |tmp| < |start.user| && BytesLess(start.user, tmp) {
      SameIsNotLess(start.user, limit.user, tmp);
      r := StoredKey(tmp, MAX_SEQUENCE, Value);
    }
  }

  /** Between equal user keys there is no shorter one. */
  lemma SameIsNotLess(start: Bytes, limit: Bytes, tmp: Bytes)
    requires Rank(start) <= Rank(limit) && BytesLess(start, tmp) && (BytesLess(start, limit) ==> BytesLess(tmp, limit))
    requires start == limit ==> tmp == start
    ensures Rank(tmp) < Rank(limit)
  {
    RankKeepsOrder(start, limit);
    RankKeepsOrder(tmp, limit);
    RankIsInjective(start, limit);
    NotLessItself(start);
  }

  method FindShortInternalSuccessor(key: StoredKey) returns (r: StoredKey)
    ensures r == key || Rank(key.user) < Rank(r.user)
    ensures r == key || (r.sequence == 0xff_ffff_ffff_ffff && r.kind == Value && exists i: nat :: IsFirstBelow255(key.user, i) && IsRaised(key.user, i, r.user))
    ensures r == key <==> forall i: nat :: IsFirstBelow255(key.user, i) ==> i + 1 == |key.user|
  {
    var tmp := FindShortSuccessor(key.user);
    RankKeepsOrder(key.user, tmp);
    assert forall i: nat, j: nat :: IsFirstBelow255(key.user, i) && IsFirstBelow255(key.user, j) ==> i == j;
    r := key;
    if |tmp| < |key.user| && BytesLess(key.user, tmp) {
      r := StoredKey(tmp, MAX_SEQUENCE, Value);
    }
  }
}
