/** The hash table of the cache (HandleTable in util/cache.cc): buckets of chained handles that grow with
    the number of entries. */
module HandleTables {
  import opened ByteStrings
  import opened Keys

  /** Entries are told apart by key and hash; a handle is named by its address. */
  datatype Tag = Tag(key: Bytes, hash: nat)

  datatype Item = Item(tag: Tag, address: nat)

  type Buckets = seq<seq<Item>>

  // ---- Masks -------------------------------------------------------------------------------------------------

  /** The bits that both numbers have. */
  function And(a: nat, b: nat): nat {
    if a == 0 || b == 0 then 0 else 2 * And(a / 2, b / 2) + if a % 2 == 1 && b % 2 == 1 then 1 else 0
  }

  predicate PowerOfTwo(n: nat) {
    n == 1 || (n > 0 && n % 2 == 0 && PowerOfTwo(n / 2))
  }

  lemma RemainderIs(x: nat, d: nat, q: nat, r: nat)
    requires x == q * d + r && r < d
    ensures x % d == r
  {
    var k := q - x / d;
    assert x == x / d * d + x % d;
    assert k * d == x % d - r;
    NoMultiple(k, d);
  }

  lemma NoMultiple(k: int, d: int)
    requires 0 - d < k * d < d
    ensures k == 0
  {
    if k > 0 {
      AtLeast(k - 1, d);
    } else if k < 0 {
      AtMost(k, d);
    }
  }

  lemma AtLeast(a: nat, d: int)
    requires d > 0
    ensures (a + 1) * d >= d
  {}

  lemma AtMost(k: int, d: int)
    requires k < 0 < d
    ensures k * d <= -d
  {}

  lemma HalfRemainder(h: nat, k: nat)
    requires k > 0
    ensures h % (2 * k) == 2 * (h / 2 % k) + h % 2
  {
    var q, r := h / 2 / k, h / 2 % k;
    assert h / 2 == q * k + r;
    assert h == q * (2 * k) + (2 * r + h % 2);
    RemainderIs(h, 2 * k, q, 2 * r + h % 2);
  }

  lemma {:induction false} MaskIsRemainder(h: nat, n: nat)
    requires PowerOfTwo(n)
    ensures And(h, n - 1) == h % n
    decreases n
  {
    if n > 1 {
      var k := n / 2;
      assert n - 1 == 2 * (k - 1) + 1;
      MaskIsRemainder(h / 2, k);
      HalfRemainder(h, k);
      assert (n - 1) / 2 == k - 1;
    }
  }

  lemma {:induction false} AndSelf(k: nat)
    ensures And(k, k) == k
  {
    if k > 0 {
      AndSelf(k / 2);
    }
  }

  lemma {:induction false} MaskOfItself(n: nat)
    requires n > 0
    ensures And(n, n - 1) == 0 <==> PowerOfTwo(n)
    decreases n
  {
    if n > 1 {
      if n % 2 == 0 {
        assert (n - 1) / 2 == n / 2 - 1;
        MaskOfItself(n / 2);
      } else {
        assert (n - 1) / 2 == n / 2;
        AndSelf(n / 2);
      }
    }
  }

  /** Masking with `n - 1` is the remainder by `n` for every hash if and only if `n` is a power of two. */
  lemma MaskIsRemainderIff(n: nat)
    requires n > 0
    ensures (forall h: nat :: And(h, n - 1) == h % n) <==> PowerOfTwo(n)
  {
    if PowerOfTwo(n) {
      forall h: nat ensures And(h, n - 1) == h % n {
        MaskIsRemainder(h, n);
      }
    } else {
      MaskOfItself(n);
      assert And(n, n - 1) != n % n;
    }
  }

  // ---- Buckets -----------------------------------------------------------------------------------------------

  ghost predicate DistinctTags(bucket: seq<Item>) {
    forall i, j :: 0 <= i < j < |bucket| ==> bucket[i].tag != bucket[j].tag
  }

  ghost predicate BucketOk(list: Buckets, b: nat)
    requires b < |list|
  {
    DistinctTags(list[b]) && forall i :: 0 <= i < |list[b]| ==> list[b][i].tag.hash % |list| == b
  }

  ghost predicate TableOk(list: Buckets) {
    |list| > 0 && forall b :: 0 <= b < |list| ==> BucketOk(list, b)
  }

  /** The map that the buckets stand for. */
  ghost predicate Represents(list: Buckets, m: map<Tag, nat>)
    requires |list| > 0
  {
    && (forall t :: t in m ==> Item(t, m[t]) in list[t.hash % |list|])
    && (forall b, i :: 0 <= b < |list| && 0 <= i < |list[b]| ==> list[b][i].tag in m && m[list[b][i].tag] == list[b][i].address)
  }

  function Total(list: Buckets): nat {
    if list == [] then 0 else Total(list[..|list| - 1]) + |list[|list| - 1]|
  }

  lemma {:induction false} TotalUpdate(list: Buckets, b: nat, bucket: seq<Item>)
    requires b < |list|
    ensures Total(list[b := bucket]) == Total(list) - |list[b]| + |bucket|
  {
    var n := |list| - 1;
    if b < n {
      TotalUpdate(list[..n], b, bucket);
      assert list[b := bucket][..n] == list[..n][b := bucket];
    } else {
      assert list[b := bucket][..n] == list[..n];
    }
  }

  lemma {:induction false} TotalOfEmpty(list: Buckets)
    requires forall b :: 0 <= b < |list| ==> list[b] == []
    ensures Total(list) == 0
  {
    if list != [] {
      TotalOfEmpty(list[..|list| - 1]);
    }
  }

  function WithoutAt(bucket: seq<Item>, i: nat): seq<Item>
    requires i < |bucket|
  {
    bucket[..i] + bucket[i + 1..]
  }

  /** `i` is the place of the tag in the bucket, or the end. */
  ghost predicate IsPlace(bucket: seq<Item>, t: Tag, i: nat) {
    i <= |bucket| && (forall j :: 0 <= j < i ==> bucket[j].tag != t) && (i < |bucket| ==> bucket[i].tag == t)
  }

  lemma PlaceIsLookup(list: Buckets, m: map<Tag, nat>, t: Tag, i: nat)
    requires TableOk(list) && Represents(list, m) && IsPlace(list[t.hash % |list|], t, i)
    ensures if i < |list[t.hash % |list|]| then t in m && m[t] == list[t.hash % |list|][i].address else t !in m
  {}

  lemma Replaced(list: Buckets, m: map<Tag, nat>, item: Item, i: nat)
    requires TableOk(list) && Represents(list, m) && IsPlace(list[item.tag.hash % |list|], item.tag, i)
    ensures var b := item.tag.hash % |list|;
            var bucket := if i < |list[b]| then list[b][i := item] else list[b] + [item];
            TableOk(list[b := bucket]) && Represents(list[b := bucket], m[item.tag := item.address])
  {
    var b := item.tag.hash % |list|;
    var bucket := if i < |list[b]| then list[b][i := item] else list[b] + [item];
    var list2, m2 := list[b := bucket], m[item.tag := item.address];
    assert BucketOk(list, b);
    forall c | 0 <= c < |list2| ensures BucketOk(list2, c) {
      assert BucketOk(list, c);
    }
    forall t | t in m2 ensures Item(t, m2[t]) in list2[t.hash % |list2|] {
      if t == item.tag {
        assert bucket[i] == item;
      } else {
        var c := t.hash % |list|;
        var k :| 0 <= k < |list[c]| && list[c][k] == Item(t, m[t]);
        assert list2[c][k] == list[c][k];
      }
    }
    forall c: nat, k: nat | 0 <= c < |list2| && 0 <= k < |list2[c]|
      ensures list2[c][k].tag in m2 && m2[list2[c][k].tag] == list2[c][k].address
    {
      if c != b || k != i {
        assert list2[c][k] == list[c][k];
        assert list[c][k].tag == item.tag ==> c == b by { assert BucketOk(list, c); }
      }
    }
  }

  lemma WithoutAtIs(bucket: seq<Item>, i: nat)
    requires i < |bucket|
    ensures forall k :: 0 <= k < |bucket| - 1 ==> WithoutAt(bucket, i)[k] == bucket[if k < i then k else k + 1]
  {}

  lemma RemovedOk(list: Buckets, b: nat, i: nat)
    requires TableOk(list) && b < |list| && i < |list[b]|
    ensures TableOk(list[b := WithoutAt(list[b], i)])
  {
    WithoutAtIs(list[b], i);
    var list2 := list[b := WithoutAt(list[b], i)];
    forall c | 0 <= c < |list2| ensures BucketOk(list2, c) {
      assert BucketOk(list, c);
    }
  }

  lemma Removed(list: Buckets, m: map<Tag, nat>, t: Tag, i: nat)
    requires TableOk(list) && Represents(list, m) && IsPlace(list[t.hash % |list|], t, i) && i < |list[t.hash % |list|]|
    ensures var b := t.hash % |list|; Represents(list[b := WithoutAt(list[b], i)], m - {t})
  {
    var b := t.hash % |list|;
    var bucket := WithoutAt(list[b], i);
    var list2: Buckets, m2: map<Tag, nat> := list[b := bucket], m - {t};
    WithoutAtIs(list[b], i);
    forall u | u in m2 ensures Item(u, m2[u]) in list2[u.hash % |list2|] {
      var c := u.hash % |list|;
      var k :| 0 <= k < |list[c]| && list[c][k] == Item(u, m[u]);
      if c == b {
        assert bucket[if k < i then k else k - 1] == list[c][k];
      }
    }
    forall c: nat, k: nat | 0 <= c < |list2| && 0 <= k < |list2[c]|
      ensures list2[c][k].tag in m2 && m2[list2[c][k].tag] == list2[c][k].address
    {
      StillThere(list, m, t, b, i, c, if c == b && k >= i then k + 1 else k);
    }
  }

  lemma StillThere(list: Buckets, m: map<Tag, nat>, t: Tag, b: nat, i: nat, c: nat, k: nat)
    requires TableOk(list) && Represents(list, m) && b < |list| && i < |list[b]| && list[b][i].tag == t
    requires c < |list| && k < |list[c]| && !(c == b && k == i)
    ensures list[c][k].tag in m && list[c][k].tag != t && m[list[c][k].tag] == list[c][k].address
  {
    assert BucketOk(list, b) && BucketOk(list, c);
  }

  class HandleTable {
    var length: nat
    var elems: nat
    var list: Buckets
    ghost var contents: map<Tag, nat>

    ghost predicate Valid()
      reads this
    {
      && length == |list| && PowerOfTwo(length) && TableOk(list) && Represents(list, contents) && elems == Total(list)
    }

    constructor ()
      ensures Valid() && contents == map[]
    {
      length, elems := 4, 0;
      list := [[], [], [], []];
      contents := map[];
      new;
      TotalOfEmpty(list);
    }

    /** The bucket of the tag, and its place there or the end. */
    method FindPointer(t: Tag) returns (b: nat, i: nat)
      requires Valid()
      ensures |list| > 0 && b == t.hash % |list| && IsPlace(list[b], t, i)
      ensures i < |list[b]| <==> t in contents
    {
      MaskIsRemainder(t.hash, length);
      b, i := And(t.hash, length - 1), 0;
      while i < |list[b]| && (list[b][i].tag.hash != t.hash || list[b][i].tag.key != t.key)
        invariant i <= |list[b]| && forall j :: 0 <= j < i ==> list[b][j].tag != t
      {
        i := i + 1;
      }
      PlaceIsLookup(list, contents, t, i);
    }

    method Lookup(t: Tag) returns (r: Option<nat>)
      requires Valid()
      ensures r == if t in contents then Some(contents[t]) else None
    {
      var b, i := FindPointer(t);
      PlaceIsLookup(list, contents, t, i);
      r := if i < |list[b]| then Some(list[b][i].address) else None;
    }

    /** Returns the handle that was there under the same tag. */
    method Insert(item: Item) returns (r: Option<nat>)
      requires Valid()
      modifies this
      ensures Valid() && contents == old(contents)[item.tag := item.address]
      ensures r == if item.tag in old(contents) then Some(old(contents)[item.tag]) else None
      ensures elems == old(elems) + if r.None? then 1 else 0
      ensures if elems <= old(length) || r.Some? then length == old(length) else elems <= length && (length == 4 || length < 2 * elems)
    {
      hide PowerOfTwo, TableOk, Represents;
      var b, i := FindPointer(item.tag);
      PlaceIsLookup(list, contents, item.tag, i);
      Replaced(list, contents, item, i);
      var bucket := if i < |list[b]| then list[b][i := item] else list[b] + [item];
      TotalUpdate(list, b, bucket);
      r := if i < |list[b]| then Some(list[b][i].address) else None;
      list, contents := list[b := bucket], contents[item.tag := item.address];
      if r.None? {
        elems := elems + 1;
        if elems > length {
          Resize();
        }
      }
    }

    method Remove(t: Tag) returns (r: Option<nat>)
      requires Valid()
      modifies this
      ensures Valid() && contents == old(contents) - {t}
      ensures r == if t in old(contents) then Some(old(contents)[t]) else None
    {
      var b, i := FindPointer(t);
      PlaceIsLookup(list, contents, t, i);
      if i == |list[b]| {
        assert contents - {t} == contents;
        return None;
      }
      r := Some(list[b][i].address);
      RemovedOk(list, b, i);
      Removed(list, contents, t, i);
      TotalUpdate(list, b, WithoutAt(list[b], i));
      list, contents, elems := list[b := WithoutAt(list[b], i)], contents - {t}, elems - 1;
    }

    /** Spreads the handles over enough buckets. */
    method Resize()
      requires Valid()
      modifies this
      ensures Valid() && contents == old(contents) && elems == old(elems)
      ensures length >= elems && length >= 4 && (length == 4 || length < 2 * elems)
    {
      assert length > 0;
      hide TableOk, Represents, MovedUpTo, PowerOfTwo;
      var newLength := LengthFor(elems);
      var newList: Buckets := seq(newLength, _ => []);
      NothingMoved(list, contents, newList);
      ghost var moved: map<Tag, nat> := map[];
      var count := 0;
      for b := 0 to length
        invariant unchanged(this) && |newList| == newLength && TableOk(newList) && Represents(newList, moved)
        invariant Total(newList) == count == Total(list[..b])
        invariant MovedUpTo(list, contents, moved, b, 0)
      {
        newList, moved := MoveBucket(newList, moved, b);
        count := count + |list[b]|;
        assert list[..b + 1][..b] == list[..b];
      }
      AllMoved(list, contents, moved);
      assert list[..length] == list;
      list, length := newList, newLength;
    }

    /** The least power of two that is at least 4 and has room for that many handles. */
    static method LengthFor(elems: nat) returns (length: nat)
      ensures length >= elems && length >= 4 && PowerOfTwo(length) && (length == 4 || length < 2 * elems)
    {
      length := 4;
      while length < elems
        invariant length >= 4 && PowerOfTwo(length) && (length == 4 || length < 2 * elems)
      {
        Doubled(length);
        hide PowerOfTwo;
        length := length * 2;
      }
    }

    /** Pushes the handles of one bucket to the front of their new ones. */
    method MoveBucket(to: Buckets, ghost moved: map<Tag, nat>, b: nat) returns (r: Buckets, ghost moved2: map<Tag, nat>)
      requires Valid() && b < length && PowerOfTwo(|to|)
      requires TableOk(to) && Represents(to, moved) && MovedUpTo(list, contents, moved, b, 0)
      ensures |r| == |to| && TableOk(r) && Represents(r, moved2) && MovedUpTo(list, contents, moved2, b + 1, 0)
      ensures Total(r) == Total(to) + |list[b]|
    {
      r, moved2 := to, moved;
      var i := 0;
      while i < |list[b]|
        invariant i <= |list[b]| && |r| == |to| && TableOk(r) && Represents(r, moved2)
        invariant MovedUpTo(list, contents, moved2, b, i) && Total(r) == Total(to) + i
      {
        var h := list[b][i];
        NotYetMoved(list, contents, moved2, b, i);
        Pushed(r, moved2, h);
        MaskIsRemainder(h.tag.hash, |r|);
        var c := And(h.tag.hash, |r| - 1);
        TotalUpdate(r, c, [h] + r[c]);
        r, moved2 := r[c := [h] + r[c]], moved2[h.tag := h.address];
        i := i + 1;
      }
    }
  }

  /** Exactly the handles of the first `b` buckets, and the first `i` of the next one, are moved. */
  ghost predicate MovedUpTo(list: Buckets, m: map<Tag, nat>, moved: map<Tag, nat>, b: nat, i: nat) {
    && b <= |list|
    && (forall t :: t in moved ==> t in m && moved[t] == m[t])
    && (forall c, k :: 0 <= c < |list| && 0 <= k < |list[c]| ==> (list[c][k].tag in moved <==> c < b || (c == b && k < i)))
  }

  lemma NotYetMoved(list: Buckets, m: map<Tag, nat>, moved: map<Tag, nat>, b: nat, i: nat)
    requires TableOk(list) && Represents(list, m) && MovedUpTo(list, m, moved, b, i) && b < |list| && i < |list[b]|
    ensures list[b][i].tag !in moved
    ensures MovedUpTo(list, m, moved[list[b][i].tag := list[b][i].address], b, i + 1)
  {
    var h := list[b][i];
    forall c, k | 0 <= c < |list| && 0 <= k < |list[c]| ensures list[c][k].tag == h.tag <==> c == b && k == i {
      assert BucketOk(list, c) && BucketOk(list, b);
    }
  }

  lemma Doubled(n: nat)
    requires PowerOfTwo(n)
    ensures PowerOfTwo(n * 2)
  {
    assert n * 2 / 2 == n;
  }

  lemma NothingMoved(list: Buckets, m: map<Tag, nat>, empty: Buckets)
    requires |list| > 0 && |empty| > 0 && Represents(list, m) && forall b :: 0 <= b < |empty| ==> empty[b] == []
    ensures TableOk(empty) && Represents(empty, map[]) && MovedUpTo(list, m, map[], 0, 0) && Total(empty) == 0
  {
    TotalOfEmpty(empty);
  }

  lemma AllMoved(list: Buckets, m: map<Tag, nat>, moved: map<Tag, nat>)
    requires |list| > 0 && Represents(list, m) && MovedUpTo(list, m, moved, |list|, 0)
    ensures moved == m
  {
    forall t | t in m ensures t in moved {
      var b := t.hash % |list|;
      var k :| 0 <= k < |list[b]| && list[b][k] == Item(t, m[t]);
      assert list[b][k].tag in moved;
    }
  }

  lemma Pushed(list: Buckets, m: map<Tag, nat>, item: Item)
    requires TableOk(list) && Represents(list, m) && item.tag !in m
    ensures var c := item.tag.hash % |list|;
            TableOk(list[c := [item] + list[c]]) && Represents(list[c := [item] + list[c]], m[item.tag := item.address])
  {
    var c := item.tag.hash % |list|;
    var list2, m2 := list[c := [item] + list[c]], m[item.tag := item.address];
    forall d | 0 <= d < |list2| ensures BucketOk(list2, d) {
      assert BucketOk(list, d);
    }
    forall t | t in m2 ensures Item(t, m2[t]) in list2[t.hash % |list2|] {
      if t == item.tag {
        assert list2[c][0] == item;
      } else {
        var d := t.hash % |list|;
        var k :| 0 <= k < |list[d]| && list[d][k] == Item(t, m[t]);
        assert d == c ==> list2[d][k + 1] == list[d][k];
      }
    }
  }
}
