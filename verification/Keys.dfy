module Keys {
  // Internal keys, entries, sorted tables, and what a read at a snapshot means.
  //
  // A user key is a point of the order given by the user comparator.  Only that order
  // matters to the engine, so a user key is a `real`: module `Comparator` proves that
  // byte strings under the bytewise comparator embed into this order.

  import opened ByteStrings

  type UserKey = real

  datatype ValueType = Deletion | Value

  datatype Option<+T> = None | Some(value: T)

  /** Sequence numbers are 56 bits wide; the type takes the low eight bits of the tag. */
  const MAX_SEQUENCE: nat := 0xff_ffff_ffff_ffff

  datatype InternalKey = InternalKey(user: UserKey, sequence: nat, kind: ValueType)

  datatype Entry = Entry(key: InternalKey, value: Bytes)

  function KindByte(t: ValueType): Byte {
    if t == Value then 1 else 0
  }

  function PackSequenceAndType(s: nat, t: ValueType): nat {
    s * 256 + KindByte(t)
  }

  /** The order of internal keys: user key ascending, sequence descending, type descending. */
  predicate Less(a: InternalKey, b: InternalKey) {
    || a.user < b.user
    || (a.user == b.user && a.sequence > b.sequence)
    || (a.user == b.user && a.sequence == b.sequence && a.kind == Value && b.kind == Deletion)
  }

  /** Three-way comparison through the packed tags. */
  function Compare(a: InternalKey, b: InternalKey): (r: int)
    ensures r < 0 <==> Less(a, b)
    ensures r > 0 <==> Less(b, a)
    ensures r == 0 <==> a == b
  {
    if a.user < b.user then -1
    else if b.user < a.user then 1
    else
      var x, y := PackSequenceAndType(a.sequence, a.kind), PackSequenceAndType(b.sequence, b.kind);
      if x > y then -1 else if x < y then 1 else 0
  }

  /** The earliest internal key at or after every entry of `u` visible at `s`. */
  function LookupKey(u: UserKey, s: nat): InternalKey {
    InternalKey(u, s, Value)
  }

  /** Tables, memtables and merged inputs are strictly increasing lists of entries. */
  ghost predicate Sorted(t: seq<Entry>) {
    forall i, j :: 0 <= i < j < |t| ==> Less(t[i].key, t[j].key)
  }

  /** Index of the first entry at or after `k`; `|t|` when there is none. */
  function LowerBound(t: seq<Entry>, k: InternalKey): (i: nat)
    ensures i <= |t|
  {
    if t == [] || !Less(t[0].key, k) then 0 else 1 + LowerBound(t[1..], k)
  }

  lemma {:induction false} LowerBoundSplits(t: seq<Entry>, k: InternalKey)
    ensures forall j :: 0 <= j < LowerBound(t, k) ==> Less(t[j].key, k)
    ensures LowerBound(t, k) < |t| ==> !Less(t[LowerBound(t, k)].key, k)
  {
    if t != [] && Less(t[0].key, k) {
      LowerBoundSplits(t[1..], k);
    }
  }

  // ---- Reads -------------------------------------------------------------------------

  datatype Answer = NotFound | Found(value: Bytes)

  function AnswerOf(e: Entry): Answer {
    if e.key.kind == Deletion then NotFound else Found(e.value)
  }

  ghost predicate Visible(e: Entry, u: UserKey, s: nat) {
    e.key.user == u && e.key.sequence <= s
  }

  /** `e` is the newest entry of `E` for user key `u` with sequence at most `s`. */
  ghost predicate IsNewest(E: set<Entry>, u: UserKey, s: nat, e: Entry) {
    && e in E && Visible(e, u, s)
    && forall x :: x in E && Visible(x, u, s) ==> x.key.sequence <= e.key.sequence
  }

  /** No two entries of one user key share a sequence number. */
  ghost predicate Distinct(E: set<Entry>) {
    forall x, y :: x in E && y in E && x.key.user == y.key.user && x.key.sequence == y.key.sequence ==> x == y
  }

  /** What a read of `u` at snapshot `s` means over a collection of entries. */
  ghost function Read(E: set<Entry>, u: UserKey, s: nat): Answer {
    if exists e :: IsNewest(E, u, s, e) then
      var e :| IsNewest(E, u, s, e);
      AnswerOf(e)
    else
      NotFound
  }

  lemma ReadIs(E: set<Entry>, u: UserKey, s: nat, e: Entry)
    requires Distinct(E) && IsNewest(E, u, s, e)
    ensures Read(E, u, s) == AnswerOf(e)
  {
    var x :| IsNewest(E, u, s, x) && Read(E, u, s) == AnswerOf(x);
    assert IsNewest(E, u, s, x);
  }

  lemma {:induction false} NewestExists(E: set<Entry>, u: UserKey, s: nat)
    requires exists e :: e in E && Visible(e, u, s)
    ensures exists e :: IsNewest(E, u, s, e)
    decreases E
  {
    var e :| e in E && Visible(e, u, s);
    var R := E - {e};
    if exists x :: x in R && Visible(x, u, s) {
      NewestExists(R, u, s);
      var n :| IsNewest(R, u, s, n);
      assert IsNewest(E, u, s, if n.key.sequence < e.key.sequence then e else n);
    } else {
      assert IsNewest(E, u, s, e);
    }
  }

  lemma ReadNone(E: set<Entry>, u: UserKey, s: nat)
    requires forall e :: e in E ==> !Visible(e, u, s)
    ensures Read(E, u, s) == NotFound
  {}

  // ---- One sorted table ----------------------------------------------------------------

  /** The entries of several tables, one after the other. */
  function Flatten(blocks: seq<seq<Entry>>): seq<Entry> {
    if blocks == [] then [] else Flatten(blocks[..|blocks| - 1]) + blocks[|blocks| - 1]
  }

  ghost function Elements(t: seq<Entry>): set<Entry> {
    set e | e in t
  }

  /** A seek in one sorted table: the entry reported for the sought user key, if any. */
  function TableGet(t: seq<Entry>, u: UserKey, s: nat): Option<Entry> {
    var i := LowerBound(t, LookupKey(u, s));
    if i < |t| && t[i].key.user == u then Some(t[i]) else None
  }

  /** A seek to the lookup key is a complete search: the entry it lands on is the newest
      visible one if it has the user key, and otherwise nothing in the table is visible. */
  lemma SeekFindsNewest(t: seq<Entry>, u: UserKey, s: nat)
    requires Sorted(t)
    ensures var i := LowerBound(t, LookupKey(u, s));
            if i < |t| && t[i].key.user == u
            then IsNewest(Elements(t), u, s, t[i])
            else forall e :: e in t ==> !Visible(e, u, s)
  {
    var i := LowerBound(t, LookupKey(u, s));
    LowerBoundSplits(t, LookupKey(u, s));
    forall e | e in t && Visible(e, u, s)
      ensures i < |t| && t[i].key.user == u && e.key.sequence <= t[i].key.sequence
    {
      var j :| 0 <= j < |t| && t[j] == e;
      assert !Less(e.key, LookupKey(u, s));
      assert i <= j;
      assert i == j || Less(t[i].key, t[j].key);
    }
  }

  /** Everything of `A` is newer than everything of `B` that shares its user key. */
  ghost predicate Newer(A: set<Entry>, B: set<Entry>) {
    forall a, b :: a in A && b in B && a.key.user == b.key.user ==> a.key.sequence > b.key.sequence
  }
}
