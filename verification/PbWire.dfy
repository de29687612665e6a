/** Keys and scalar values on the wire (pb_encode.c, pb_decode.c; "Base 128 Varints" and "Signed Integers" of the
    Protocol Buffers encoding specification). */
module PbWire {
  import opened ByteStrings
  import opened Keys
  import opened Coding
  import opened Varints
  import opened PbSchema

  // ---- 32-bit varints --------------------------------------------------------------------------------------

  /** What the group of seven bits at position 7 * g is worth. */
  function Scale(g: nat): nat {
    if g == 0 then 1 else if g == 1 then 0x80 else if g == 2 then 0x4000 else if g == 3 then 0x20_0000 else 0x1000_0000
  }

  /** Beyond 32 bits only zero bits, or those of a negative number's sign extension, are let through. */
  predicate ExtensionOk(byte: Byte, g: nat, result: nat) {
    byte % 128 == 0 || (result >= 0x8000_0000 && byte == (if 7 * g < 63 then 0xff else 0x01))
  }

  /** The last byte of five holds four bits only. */
  predicate LastByteOk(byte: Byte, g: nat) {
    g == 4 ==> (byte / 16) % 8 == 0
  }

  /** The rest of a varint after `g` groups that make `result`. */
  function VarintTail(b: Bytes, g: nat, result: nat): (r: Option<Parsed>)
    ensures r.Some? ==> 0 < r.value.used <= |b|
    decreases |b|
  {
    if b == [] || (g > 4 && !ExtensionOk(b[0], g, result)) then None
    else
      var longer := if g > 4 then result else result + b[0] % 128 * Scale(g) % TWO_32;
      if b[0] < 128 then
        if LastByteOk(b[0], g) then Some(Parsed(longer, 1)) else None
      else
        var rest := VarintTail(b[1..], g + 1, longer);
        if rest.None? then None else Some(Parsed(rest.value.value, rest.value.used + 1))
  }

  function DecodeVarint32(b: Bytes): (r: Option<Parsed>)
    ensures r.Some? ==> 0 < r.value.used <= |b|
  {
    if b == [] then None
    else if b[0] < 128 then Some(Parsed(b[0], 1))
    else
      var rest := VarintTail(b[1..], 1, b[0] % 128);
      if rest.None? then None else Some(Parsed(rest.value.value, rest.value.used + 1))
  }

  /** One group more, and nothing of it is cut off. */
  lemma GroupFits(v: nat, g: nat, result: nat)
    requires 1 <= g <= 4 && v * Scale(g) + result < TWO_32 && result < Scale(g)
    ensures v % 128 * Scale(g) % TWO_32 == v % 128 * Scale(g)
    ensures v >= 128 ==> g < 4 && result + v % 128 * Scale(g) < Scale(g + 1)
    ensures v >= 128 ==> v / 128 * Scale(g + 1) + (result + v % 128 * Scale(g)) == result + v * Scale(g)
    ensures v < 128 && g == 4 ==> v < 16
  {
    assert v == v / 128 * 128 + v % 128;
  }

  lemma TailStep(b: Bytes, g: nat, result: nat, longer: nat, rest: Parsed)
    requires b != [] && g <= 4 && b[0] >= 128 && longer == result + b[0] % 128 * Scale(g) % TWO_32
    requires VarintTail(b[1..], g + 1, longer) == Some(rest)
    ensures VarintTail(b, g, result) == Some(Parsed(rest.value, rest.used + 1))
  {}

  lemma TailLast(b: Bytes, g: nat, result: nat)
    requires b != [] && g <= 4 && b[0] < 128 && (g == 4 ==> b[0] < 16)
    ensures VarintTail(b, g, result) == Some(Parsed(result + b[0] % 128 * Scale(g) % TWO_32, 1))
  {}

  lemma {:induction false} TailBack(v: nat, g: nat, result: nat, rest: Bytes)
    requires 1 <= g <= 4 && v * Scale(g) + result < TWO_32 && result < Scale(g)
    ensures VarintTail(EncodeVarint(v) + rest, g, result) == Some(Parsed(result + v * Scale(g), |EncodeVarint(v)|))
    decreases 5 - g
  {
    GroupFits(v, g, result);
    hide Scale, VarintTail;
    var b := EncodeVarint(v) + rest;
    if v < 128 {
      assert b[0] == v;
      TailLast(b, g, result);
    } else {
      assert b[0] == v % 128 + 128 && b[1..] == EncodeVarint(v / 128) + rest;
      var longer := result + v % 128 * Scale(g);
      TailBack(v / 128, g + 1, longer, rest);
      TailStep(b, g, result, longer, Parsed(longer + v / 128 * Scale(g + 1), |EncodeVarint(v / 128)|));
    }
  }

  lemma Varint32Back(v: nat, rest: Bytes)
    requires v < TWO_32
    ensures DecodeVarint32(EncodeVarint(v) + rest) == Some(Parsed(v, |EncodeVarint(v)|))
  {
    var b := EncodeVarint(v) + rest;
    if v < 128 {
      assert b[0] == v;
    } else {
      assert b[0] == v % 128 + 128 && b[1..] == EncodeVarint(v / 128) + rest;
      TailBack(v / 128, 1, v % 128, rest);
    }
  }

  // ---- Integers ----------------------------------------------------------------------------------------------

  /** A cast to an unsigned 64-bit integer. */
  function Unsigned(n: int): nat {
    n % TWO_64
  }

  /** A cast to a signed integer of `size` bytes. */
  function Signed(u: nat, size: nat): int {
    var x := u % (2 * Half(size));
    if x < Half(size) then x else x - 2 * Half(size)
  }

  function ZigZag(n: int): nat {
    if n < 0 then TWO_64 - 1 - Unsigned(2 * n) else Unsigned(2 * n)
  }

  function UnZigZag(u: nat): int {
    if u % 2 == 1 then -(u / 2) - 1 else u / 2
  }

  /** Shorter fields are read as 32 bits first, so that a negative number may come in five bytes or in ten. */
  function NarrowSigned(u: nat, size: nat): Option<int> {
    var value := if size == 8 then Signed(u, 8) else Signed(u, 4);
    if WidthOk(size) && Signed(Unsigned(value), size) == value then Some(value) else None
  }

  function NarrowUnsigned(u: nat, size: nat): Option<int> {
    if WidthOk(size) && u % (2 * Half(size)) == u then Some(u) else None
  }

  function NarrowZigZag(u: nat, size: nat): Option<int> {
    var value := UnZigZag(u);
    if WidthOk(size) && Signed(Unsigned(value), size) == value then Some(value) else None
  }

  lemma SignedBack(n: int, size: nat)
    requires WidthOk(size) && -Half(size) <= n < Half(size)
    ensures Unsigned(n) < TWO_64 && Signed(Unsigned(n), size) == n
    ensures NarrowSigned(Unsigned(n), size) == Some(n)
  {
    CastBack(n, size, 2 * Half(size));
    CastBack(n, if size == 8 then 8 else 4, if size == 8 then TWO_64 else TWO_32);
  }

  /** Casting up and down again. */
  lemma CastBack(n: int, size: nat, modulus: nat)
    requires WidthOk(size) && -Half(size) <= n < Half(size) && modulus == 2 * Half(size)
    ensures n % TWO_64 % modulus == n % modulus == if n < 0 then n + modulus else n
    ensures Signed(Unsigned(n), size) == n
  {
    var k := TWO_64 / modulus;
    assert TWO_64 == k * modulus;
    if n < 0 {
      assert n % TWO_64 == n + TWO_64 == (k - 1) * modulus + (n + modulus);
      ModuloOf(k - 1, modulus, n + modulus);
    }
  }

  lemma ModuloOf(k: nat, m: nat, r: nat)
    requires r < m
    ensures (k * m + r) % m == r
  {
    var x := k * m + r;
    var q := x / m;
    assert x == q * m + x % m;
    MultiplesApart(k, q, m);
    MultiplesApart(q, k, m);
  }

  lemma {:induction false} MultiplesApart(a: int, b: int, m: nat)
    ensures a < b ==> a * m + m <= b * m
    decreases b - a
  {
    if a + 1 < b {
      MultiplesApart(a, b - 1, m);
      assert b * m == (b - 1) * m + m;
    }
  }

  lemma ZigZagBack(n: int, size: nat)
    requires WidthOk(size) && -Half(size) <= n < Half(size)
    ensures ZigZag(n) < TWO_64 && NarrowZigZag(ZigZag(n), size) == Some(n)
  {
    assert ZigZag(n) == if n < 0 then -2 * n - 1 else 2 * n;
    SignedBack(n, size);
  }

  // ---- Scalar values -------------------------------------------------------------------------------------------

  function LengthPrefix(b: Bytes): Bytes {
    EncodeVarint(|b|) + b
  }

  /** A string ends at its terminator or with its storage. */
  function CString(b: Bytes, capacity: nat): (s: Bytes)
    ensures |s| <= capacity && |s| <= |b|
  {
    if capacity == 0 || b == [] || b[0] == 0 then [] else [b[0]] + CString(b[1..], capacity - 1)
  }

  lemma {:induction false} CStringIs(b: Bytes, capacity: nat)
    requires |b| <= capacity && 0 !in b
    ensures CString(b, capacity) == b
  {
    if b != [] {
      CStringIs(b[1..], capacity - 1);
    }
  }

  /** What the encoder takes of a scalar field. */
  predicate Encodes(l: LType, v: Value) {
    match l
    case BoolType => v.Number?
    case VarintType(size) => v.Number? && WidthOk(size)
    case UvarintType(size) => v.Number? && WidthOk(size)
    case SvarintType(size) => v.Number? && WidthOk(size)
    case Fixed32Type => v.Number?
    case Fixed64Type => v.Number?
    case BytesType(capacity) => v.Data? && |v.bytes| <= capacity
    case StringType(_) => v.Data?
    case FixedBytesType(size) => v.Data? && |v.bytes| == size
    case MessageType(_) => false
  }

  function EncodeScalar(l: LType, v: Value): Bytes
    requires Encodes(l, v)
  {
    match l
    case BoolType => EncodeVarint(if v.n != 0 then 1 else 0)
    case VarintType(_) => EncodeVarint(Unsigned(v.n))
    case UvarintType(_) => EncodeVarint(Unsigned(v.n))
    case SvarintType(_) => EncodeVarint(ZigZag(v.n))
    case Fixed32Type => EncodeFixed(4, v.n % TWO_32)
    case Fixed64Type => EncodeFixed(8, Unsigned(v.n))
    case BytesType(_) => LengthPrefix(v.bytes)
    case StringType(capacity) => LengthPrefix(CString(v.bytes, capacity))
    case FixedBytesType(_) => LengthPrefix(v.bytes)
  }

  /** A decoded value and how many bytes it took. */
  datatype Got = Got(value: Value, used: nat)

  function GotNumber(n: Option<int>, used: nat): Option<Got> {
    if n.None? then None else Some(Got(Number(n.value), used))
  }

  function DecodeFixedNumber(width: nat, b: Bytes): Option<Got> {
    if |b| < width then None else Some(Got(Number(DecodeFixed(width, b)), width))
  }

  /** A length and that many bytes. */
  function GetString(b: Bytes): (r: Option<Slice>)
    ensures r.Some? ==> 0 < r.value.used <= |b| && |r.value.data| < r.value.used
  {
    var n := DecodeVarint32(b);
    if n.None? || |b| - n.value.used < n.value.value then None
    else Some(Slice(b[n.value.used..n.value.used + n.value.value], n.value.used + n.value.value))
  }

  function GotVarint(l: LType, u: nat, used: nat): Option<Got> {
    match l
    case VarintType(size) => GotNumber(NarrowSigned(u, size), used)
    case UvarintType(size) => GotNumber(NarrowUnsigned(u, size), used)
    case SvarintType(size) => GotNumber(NarrowZigZag(u, size), used)
    case _ => None
  }

  function DecodeInteger(l: LType, b: Bytes): (r: Option<Got>)
    ensures r.Some? ==> 0 < r.value.used <= |b|
  {
    var u := GetVarint64(b);
    if u.None? then None else GotVarint(l, u.value.value, u.value.used)
  }

  /** Empty data stands for all zeros in a field of fixed length. */
  function GotData(l: LType, s: Slice): Option<Got> {
    match l
    case BytesType(capacity) => if |s.data| <= capacity then Some(Got(Data(s.data), s.used)) else None
    case StringType(capacity) => if |s.data| < capacity then Some(Got(Data(CString(s.data, capacity)), s.used)) else None
    case FixedBytesType(size) =>
      if s.data == [] then Some(Got(Zero(l), s.used)) else if |s.data| == size then Some(Got(Data(s.data), s.used)) else None
    case _ => None
  }

  function DecodeScalar(l: LType, b: Bytes): (r: Option<Got>)
    ensures r.Some? ==> 0 < r.value.used <= |b|
  {
    match l
    case BoolType =>
      var n := DecodeVarint32(b);
      if n.None? then None else Some(Got(Number(if n.value.value != 0 then 1 else 0), n.value.used))
    case VarintType(_) => DecodeInteger(l, b)
    case UvarintType(_) => DecodeInteger(l, b)
    case SvarintType(_) => DecodeInteger(l, b)
    case Fixed32Type => DecodeFixedNumber(4, b)
    case Fixed64Type => DecodeFixedNumber(8, b)
    case MessageType(_) => None
    case _ =>
      var s := GetString(b);
      if s.None? then None else GotData(l, s.value)
  }

  lemma StringBack(s: Bytes, rest: Bytes)
    requires |s| < TWO_32
    ensures GetString(LengthPrefix(s) + rest) == Some(Slice(s, |LengthPrefix(s)|))
  {
    var n := EncodeVarint(|s|);
    var b := LengthPrefix(s) + rest;
    Varint32Back(|s|, s + rest);
    assert b == n + (s + rest);
    assert b[|n|..|n| + |s|] == s;
  }

  lemma FixedBack(width: nat, n: nat, rest: Bytes)
    requires n < Pow256(width)
    ensures DecodeFixedNumber(width, EncodeFixed(width, n) + rest) == Some(Got(Number(n), width))
  {
    FixedRoundTrip(width, n, rest);
  }

  lemma IntegerBack(l: LType, v: Value, rest: Bytes)
    requires ValueOk(l, v) && TypeOk(l) && (l.VarintType? || l.UvarintType? || l.SvarintType?)
    ensures Encodes(l, v) && DecodeInteger(l, EncodeScalar(l, v) + rest) == Some(Got(v, |EncodeScalar(l, v)|))
  {
    hide GetVarint64, EncodeVarint, NarrowSigned, NarrowZigZag, Signed, ZigZag;
    match l
    case VarintType(size) =>
      SignedBack(v.n, size);
      Varint64RoundTrip(Unsigned(v.n), rest);
    case UvarintType(size) => Varint64RoundTrip(v.n, rest);
    case SvarintType(size) =>
      ZigZagBack(v.n, size);
      Varint64RoundTrip(ZigZag(v.n), rest);
  }

  lemma DataBack(l: LType, v: Value, rest: Bytes)
    requires ValueOk(l, v) && (l.BytesType? || l.StringType? || l.FixedBytesType?) && |v.bytes| < TWO_32
    ensures Encodes(l, v)
    ensures GetString(EncodeScalar(l, v) + rest) == Some(Slice(v.bytes, |EncodeScalar(l, v)|))
    ensures GotData(l, Slice(v.bytes, |EncodeScalar(l, v)|)) == Some(Got(v, |EncodeScalar(l, v)|))
  {
    hide GetString, LengthPrefix;
    StringBack(v.bytes, rest);
    if l.StringType? {
      CStringIs(v.bytes, l.capacity);
    } else if l.FixedBytesType? {
      assert l.size == 0 ==> v.bytes == seq(l.size, _ => 0);
    }
  }

  /** Every scalar is read back, whatever follows it. */
  lemma ScalarBack(l: LType, v: Value, rest: Bytes)
    requires ValueOk(l, v) && TypeOk(l) && !l.MessageType?
    requires v.Data? ==> |v.bytes| < TWO_32
    ensures Encodes(l, v) && DecodeScalar(l, EncodeScalar(l, v) + rest) == Some(Got(v, |EncodeScalar(l, v)|))
  {
    hide DecodeVarint32, DecodeInteger, GetString, GotData, EncodeVarint, LengthPrefix, DecodeFixedNumber, EncodeFixed, Unsigned, ZigZag, CString;
    match l
    case BoolType => Varint32Back(v.n, rest);
    case VarintType(_) => IntegerBack(l, v, rest);
    case UvarintType(_) => IntegerBack(l, v, rest);
    case SvarintType(_) => IntegerBack(l, v, rest);
    case Fixed32Type =>
      Pow256Of4();
      FixedBack(4, v.n, rest);
    case Fixed64Type =>
      Pow256Of8();
      assert Unsigned(v.n) == v.n by {
        SmallIsItself(v.n);
      }
      FixedBack(8, v.n, rest);
    case BytesType(_) => DataBack(l, v, rest);
    case StringType(_) => DataBack(l, v, rest);
    case FixedBytesType(_) => DataBack(l, v, rest);
  }

  lemma SmallIsItself(n: nat)
    requires n < TWO_64
    ensures Unsigned(n) == n
  {}
}
