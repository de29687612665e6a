module DBIterator {
  // The client-visible iterator (db/db_iter.cc): internal entries, many per user key, read as the sorted map
  // of what is visible at one sequence number.

  import opened ByteStrings
  import opened Keys
  import opened Cursors
  import opened Merging

  /** The entry before `i` is a visible one of the same user key, so `i` is not the newest. */
  predicate Shadowed(t: seq<Entry>, s: nat, i: nat)
    requires i < |t|
  {
    i > 0 && t[i - 1].key.user == t[i].key.user && t[i - 1].key.sequence <= s
  }

  /** Entry `i` is what a reader at `s` sees for its user key. */
  predicate Shown(t: seq<Entry>, s: nat, i: nat)
    requires i < |t|
  {
    t[i].key.sequence <= s && t[i].key.kind == Value && !Shadowed(t, s, i)
  }

  /** The number of shown entries before position `n`. */
  function Count(t: seq<Entry>, s: nat, n: nat): nat
    requires n <= |t|
  {
    if n == 0 then 0 else Count(t, s, n - 1) + if Shown(t, s, n - 1) then 1 else 0
  }

  /** The shown entries of the first `n`, in order. */
  function ViewUpTo(t: seq<Entry>, s: nat, n: nat): (v: seq<Entry>)
    requires n <= |t|
    ensures |v| == Count(t, s, n)
  {
    if n == 0 then [] else ViewUpTo(t, s, n - 1) + if Shown(t, s, n - 1) then [t[n - 1]] else []
  }

  /** The client's map at `s`, as a sorted list. */
  function View(t: seq<Entry>, s: nat): seq<Entry> {
    ViewUpTo(t, s, |t|)
  }

  lemma {:induction false} ViewAt(t: seq<Entry>, s: nat, n: nat, i: nat)
    requires i < n <= |t| && Shown(t, s, i)
    ensures Count(t, s, i) < Count(t, s, n) && ViewUpTo(t, s, n)[Count(t, s, i)] == t[i]
  {
    if i < n - 1 {
      ViewAt(t, s, n - 1, i);
    }
  }

  lemma {:induction false} CountNone(t: seq<Entry>, s: nat, a: nat, b: nat)
    requires a <= b <= |t| && forall j :: a <= j < b ==> !Shown(t, s, j)
    ensures Count(t, s, a) == Count(t, s, b)
  {
    if a < b {
      CountNone(t, s, a, b - 1);
    }
  }

  /** Entries of one user key: once one is visible, the next is shadowed. */
  lemma ShadowedByAny(t: seq<Entry>, s: nat, i: nat, j: nat)
    requires Sorted(t) && i < j < |t| && t[i].key.user == t[j].key.user && t[i].key.sequence <= s
    ensures Shadowed(t, s, j)
  {
    assert i == j - 1 || Less(t[i].key, t[j - 1].key);
    assert Less(t[j - 1].key, t[j].key);
  }

  lemma ShownUsersIncrease(t: seq<Entry>, s: nat, i: nat, j: nat)
    requires Sorted(t) && i < j < |t| && Shown(t, s, i) && Shown(t, s, j)
    ensures t[i].key.user < t[j].key.user
  {
    assert Less(t[i].key, t[j].key);
    if t[i].key.user == t[j].key.user {
      ShadowedByAny(t, s, i, j);
    }
  }

  lemma {:induction false} ViewLocate(t: seq<Entry>, s: nat, n: nat, p: nat) returns (i: nat)
    requires n <= |t| && p < Count(t, s, n)
    ensures i < n && Shown(t, s, i) && Count(t, s, i) == p && ViewUpTo(t, s, n)[p] == t[i]
  {
    if p < Count(t, s, n - 1) {
      i := ViewLocate(t, s, n - 1, p);
    } else {
      i := n - 1;
    }
  }

  lemma CountMonotone(t: seq<Entry>, s: nat, i: nat, j: nat)
    requires i <= j <= |t|
    ensures Count(t, s, i) <= Count(t, s, j)
  {
    if i < j {
      CountMonotone(t, s, i, j - 1);
    }
  }

  /** The view lists user keys in strictly increasing order. */
  lemma ViewIncreases(t: seq<Entry>, s: nat, p: nat, q: nat)
    requires Sorted(t) && p < q < |View(t, s)|
    ensures View(t, s)[p].key.user < View(t, s)[q].key.user
  {
    var i := ViewLocate(t, s, |t|, p);
    var j := ViewLocate(t, s, |t|, q);
    if j <= i {
      CountMonotone(t, s, j, i);
    }
    ShownUsersIncrease(t, s, i, j);
  }

  lemma ViewSorted(t: seq<Entry>, s: nat)
    requires Sorted(t)
    ensures Sorted(View(t, s))
  {
    forall p, q | 0 <= p < q < |View(t, s)| ensures Less(View(t, s)[p].key, View(t, s)[q].key) {
      ViewIncreases(t, s, p, q);
    }
  }

  /** The view is the map of reads: it holds a user key just when a read of that key finds a value, and
      then that value. */
  lemma ViewIsReads(t: seq<Entry>, s: nat, u: UserKey, value: Bytes)
    requires Sorted(t) && Distinct(Elements(t))
    ensures (exists e :: e in View(t, s) && e.key.user == u && e.value == value) <==> Read(Elements(t), u, s) == Found(value)
  {
    if exists e :: e in View(t, s) && e.key.user == u && e.value == value {
      var e :| e in View(t, s) && e.key.user == u && e.value == value;
      var p :| 0 <= p < |View(t, s)| && View(t, s)[p] == e;
      var i := ViewLocate(t, s, |t|, p);
      ShownIsNewest(t, s, i);
      ReadIs(Elements(t), u, s, t[i]);
    }
    if Read(Elements(t), u, s) == Found(value) {
      var n :| IsNewest(Elements(t), u, s, n) && AnswerOf(n) == Found(value);
      assert IsNewest(Elements(t), u, s, n);
      var i :| 0 <= i < |t| && t[i] == n;
      NewestIsShown(t, s, i);
      ViewAt(t, s, |t|, i);
    }
  }

  lemma ShownIsNewest(t: seq<Entry>, s: nat, i: nat)
    requires Sorted(t) && i < |t| && Shown(t, s, i)
    ensures IsNewest(Elements(t), t[i].key.user, s, t[i])
  {
    forall x | x in Elements(t) && Visible(x, t[i].key.user, s) ensures x.key.sequence <= t[i].key.sequence {
      var j :| 0 <= j < |t| && t[j] == x;
      if j < i {
        ShadowedByAny(t, s, j, i);
      } else {
        assert i == j || Less(t[i].key, t[j].key);
      }
    }
  }

  lemma NewestIsShown(t: seq<Entry>, s: nat, i: nat)
    requires Sorted(t) && Distinct(Elements(t)) && i < |t| && t[i].key.kind == Value
    requires IsNewest(Elements(t), t[i].key.user, s, t[i])
    ensures Shown(t, s, i)
  {
    if Shadowed(t, s, i) {
      assert t[i - 1] in Elements(t) && Visible(t[i - 1], t[i].key.user, s);
    }
  }

  // ---- Scanning forward ----------------------------------------------------------------------

  /** The answer a forward scan looks for: shown, and past the user key to skip. */
  ghost predicate Wanted(t: seq<Entry>, s: nat, skip: Option<UserKey>, j: nat)
    requires j < |t|
  {
    Shown(t, s, j) && (skip.Some? ==> t[j].key.user > skip.value)
  }

  /** `c` is the first wanted position from `i` on; `|t|` when there is none. */
  ghost predicate FirstWanted(t: seq<Entry>, s: nat, skip: Option<UserKey>, i: nat, c: nat) {
    && i <= c <= |t|
    && (forall j :: i <= j < c ==> !Wanted(t, s, skip, j))
    && (c < |t| ==> Wanted(t, s, skip, c))
  }

  /** Where a forward scan may start: nothing visible from there on precedes the key to skip, and what
      is shadowed at the start is skipped. */
  ghost predicate MayStart(t: seq<Entry>, s: nat, skip: Option<UserKey>, i: nat) {
    && i < |t|
    && (skip.Some? ==> forall j :: i <= j < |t| && t[j].key.sequence <= s ==> skip.value <= t[j].key.user)
    && (Shadowed(t, s, i) ==> skip.Some? && t[i].key.user <= skip.value)
  }

  /** What the scan knows at position `i` with `hideTo` the key it currently hides: no hidden entry is
      wanted, and everything shadowed at `i` or not past the original key is hidden. */
  ghost predicate ScanInv(t: seq<Entry>, s: nat, skip: Option<UserKey>, hideTo: Option<UserKey>, i: nat)
    requires i <= |t|
  {
    && (forall j :: i <= j < |t| && t[j].key.sequence <= s && hideTo.Some? && t[j].key.user <= hideTo.value ==> !Wanted(t, s, skip, j))
    && (skip.Some? ==> hideTo.Some? && skip.value <= hideTo.value)
    && (i < |t| && Shadowed(t, s, i) ==> hideTo.Some? && t[i].key.user <= hideTo.value)
  }

  /** A scan that started at `start` has reached `i` without passing a wanted entry. */
  ghost predicate Scanning(t: seq<Entry>, s: nat, skip: Option<UserKey>, hideTo: Option<UserKey>, start: nat, i: nat) {
    && MayStart(t, s, skip, start) && start <= i <= |t|
    && (forall j :: start <= j < i ==> !Wanted(t, s, skip, j))
    && ScanInv(t, s, skip, hideTo, i)
  }

  lemma ScanBegins(t: seq<Entry>, s: nat, skip: Option<UserKey>, start: nat)
    requires MayStart(t, s, skip, start)
    ensures Scanning(t, s, skip, skip, start, start)
  {}

  lemma WantedIsShown(t: seq<Entry>, s: nat, skip: Option<UserKey>, start: nat, c: nat)
    requires FirstWanted(t, s, skip, start, c) && c < |t|
    ensures Shown(t, s, c)
  {}

  lemma ScanPastDeletion(t: seq<Entry>, s: nat, skip: Option<UserKey>, hideTo: Option<UserKey>, start: nat, i: nat)
    requires Sorted(t) && i < |t| && Scanning(t, s, skip, hideTo, start, i)
    requires t[i].key.sequence <= s && t[i].key.kind == Deletion
    ensures Scanning(t, s, skip, Some(t[i].key.user), start, i + 1)
  {
    forall j | i + 1 <= j < |t| && t[j].key.user <= t[i].key.user ensures !Shown(t, s, j) {
      assert Less(t[i].key, t[j].key);
      ShadowedByAny(t, s, i, j);
    }
  }

  lemma ScanPastHidden(t: seq<Entry>, s: nat, skip: Option<UserKey>, hideTo: Option<UserKey>, start: nat, i: nat)
    requires i < |t| && Scanning(t, s, skip, hideTo, start, i)
    requires t[i].key.sequence > s || (hideTo.Some? && t[i].key.user <= hideTo.value)
    ensures Scanning(t, s, skip, hideTo, start, i + 1)
  {}

  lemma ScanFinds(t: seq<Entry>, s: nat, skip: Option<UserKey>, hideTo: Option<UserKey>, start: nat, i: nat)
    requires Scanning(t, s, skip, hideTo, start, i)
    requires i < |t| ==> t[i].key.sequence <= s && t[i].key.kind == Value && !(hideTo.Some? && t[i].key.user <= hideTo.value)
    ensures FirstWanted(t, s, skip, start, i)
  {}

  // ---- Scanning backward ---------------------------------------------------------------------

  /** Nothing in `[a, b)` is visible at `s`. */
  ghost predicate NothingVisible(t: seq<Entry>, s: nat, a: nat, b: nat) {
    b <= |t| && forall j :: a <= j < b ==> t[j].key.sequence > s
  }

  ghost predicate NothingShown(t: seq<Entry>, s: nat, a: nat, b: nat) {
    b <= |t| && forall j :: a <= j < b ==> !Shown(t, s, j)
  }

  /** A backward scan from `q0` down to `q` has found value entry `c` and nothing visible below it yet. */
  ghost predicate Candidate(t: seq<Entry>, s: nat, q: nat, c: nat, q0: nat) {
    && q <= c < q0 <= |t| && t[c].key.sequence <= s && t[c].key.kind == Value
    && NothingVisible(t, s, q, c) && NothingShown(t, s, c + 1, q0)
  }

  /** The backward scan has come down from `q0` to `q`: it holds candidate `c`, or nothing above is shown. */
  ghost predicate ScanningBack(t: seq<Entry>, s: nat, q: nat, q0: nat, c: Option<nat>) {
    q <= q0 <= |t| && if c.Some? then Candidate(t, s, q, c.value, q0) else NothingShown(t, s, q, q0)
  }

  lemma BackBegins(t: seq<Entry>, s: nat, q0: nat)
    requires q0 <= |t|
    ensures ScanningBack(t, s, q0, q0, None)
  {}

  lemma BackFinds(t: seq<Entry>, s: nat, q: nat, q0: nat, c: Option<nat>)
    requires ScanningBack(t, s, q, q0, c)
    ensures c.None? ==> NothingShown(t, s, q, q0)
    ensures c.Some? ==>
      q <= c.value < q0 && Candidate(t, s, q, c.value, q0) && NothingVisible(t, s, q, c.value) && NothingShown(t, s, c.value + 1, q0)
  {}

  lemma BackPastInvisible(t: seq<Entry>, s: nat, q: nat, q0: nat, c: Option<nat>)
    requires 0 < q && ScanningBack(t, s, q, q0, c) && t[q - 1].key.sequence > s
    ensures ScanningBack(t, s, q - 1, q0, c)
  {}

  /** A visible entry takes the place of the candidate: one of the same user key is shadowed by it. */
  lemma BackPastVisible(t: seq<Entry>, s: nat, q: nat, q0: nat, c: Option<nat>)
    requires Sorted(t) && 0 < q && ScanningBack(t, s, q, q0, c) && t[q - 1].key.sequence <= s
    requires c.Some? ==> t[q - 1].key.user >= t[c.value].key.user
    ensures ScanningBack(t, s, q - 1, q0, if t[q - 1].key.kind == Value then Some(q - 1) else None)
  {
    if c.Some? {
      assert Less(t[q - 1].key, t[c.value].key);
      ShadowedByAny(t, s, q - 1, c.value);
      assert NothingShown(t, s, q, q0);
    }
  }

  /** The candidate is shown once the scan meets a smaller visible user key or the beginning. */
  lemma CandidateIsShown(t: seq<Entry>, s: nat, q: nat, c: nat, q0: nat)
    requires Sorted(t) && Candidate(t, s, q, c, q0)
    requires q > 0 ==> t[q - 1].key.sequence <= s && t[q - 1].key.user < t[c].key.user
    ensures Shown(t, s, c)
  {}

  /** The first wanted position past the current key is the next shown one. */
  lemma NextPosition(t: seq<Entry>, s: nat, cur: nat, start: nat, c: nat)
    requires Sorted(t) && cur < |t| && Shown(t, s, cur) && start <= cur && NothingVisible(t, s, start, cur)
    requires FirstWanted(t, s, Some(t[cur].key.user), start, c)
    ensures Count(t, s, c) == Count(t, s, cur) + 1
  {
    assert c > cur;
    forall j | cur + 1 <= j < c ensures !Shown(t, s, j) {
      assert !Wanted(t, s, Some(t[cur].key.user), j);
      if Shown(t, s, j) {
        ShownUsersIncrease(t, s, cur, j);
      }
    }
    CountNone(t, s, cur + 1, c);
  }

  lemma SeekPosition(t: seq<Entry>, s: nat, u: UserKey, c: nat)
    requires Sorted(t) && FirstWanted(t, s, None, LowerBound(t, LookupKey(u, s)), c)
    ensures Count(t, s, c) == LowerBound(View(t, s), LookupKey(u, s))
  {
    hide LowerBound, ViewUpTo;
    var k := LookupKey(u, s);
    var i, p, view := LowerBound(t, k), Count(t, s, c), View(t, s);
    LowerBoundSplits(t, k);
    ViewSorted(t, s);
    FirstShown(t, s, i, c);
    CountMonotone(t, s, c, |t|);
    if p > 0 {
      var j := ViewLocate(t, s, |t|, p - 1);
      if j >= i {
        CountMonotone(t, s, i, j);
      }
    }
    if c < |t| {
      ViewAt(t, s, |t|, c);
      NotBefore(t, k, i, c);
    }
    LowerBoundIs(view, k, p);
  }

  lemma NotBefore(t: seq<Entry>, k: InternalKey, i: nat, c: nat)
    requires Sorted(t) && i <= c < |t| && !Less(t[i].key, k)
    ensures !Less(t[c].key, k)
  {
    assert i < c ==> Less(t[i].key, t[c].key);
  }

  lemma FirstShown(t: seq<Entry>, s: nat, i: nat, c: nat)
    requires FirstWanted(t, s, None, i, c)
    ensures Count(t, s, i) == Count(t, s, c)
  {
    forall j | i <= j < c ensures !Shown(t, s, j) {
      assert !Wanted(t, s, None, j);
    }
    CountNone(t, s, i, c);
  }

  lemma SeekMayStart(t: seq<Entry>, s: nat, u: UserKey)
    requires Sorted(t) && LowerBound(t, LookupKey(u, s)) < |t|
    ensures MayStart(t, s, None, LowerBound(t, LookupKey(u, s)))
  {
    LowerBoundSplits(t, LookupKey(u, s));
  }

  /** From a shown entry the scan may start at the entry itself or at the invisible ones before it. */
  lemma NextMayStart(t: seq<Entry>, s: nat, cur: nat, start: nat)
    requires Sorted(t) && cur < |t| && Shown(t, s, cur) && start <= cur && NothingVisible(t, s, start, cur)
    requires start < cur && start > 0 ==> t[start - 1].key.user < t[cur].key.user
    ensures MayStart(t, s, Some(t[cur].key.user), start)
  {
    forall j | start <= j < |t| && t[j].key.sequence <= s ensures t[cur].key.user <= t[j].key.user {
      assert j == cur || Less(t[cur].key, t[j].key);
    }
  }

  /** The class behaves as one `Cursor` over the view, whatever the mix of calls. */
  class DBIter {
    const sequence: nat
    const iter: MergingIterator
    var savedKey: Option<UserKey>
    var savedValue: Bytes
    var forward: bool
    var valid: bool
    ghost var cur: nat

    /** The first position the internal iterator has not stepped behind, seen backward. */
    ghost function Behind(): nat
      reads iter
    {
      if iter.at < |iter.merged| then iter.at + 1 else 0
    }

    ghost predicate ForwardInv()
      reads this, iter
    {
      valid ==> iter.at == cur
    }

    /** Moving backward, the internal iterator stands before all visible entries of the current key. */
    ghost predicate ReverseInv()
      requires iter.at <= |iter.merged| && cur <= |iter.merged|
      reads this, iter
    {
      valid ==>
        && cur < |iter.merged|
        && savedKey == Some(iter.merged[cur].key.user) && savedValue == iter.merged[cur].value
        && Behind() <= cur && NothingVisible(iter.merged, sequence, Behind(), cur)
        && (iter.at < |iter.merged| ==>
              iter.merged[iter.at].key.sequence <= sequence && iter.merged[iter.at].key.user < iter.merged[cur].key.user)
    }

    ghost predicate Placed()
      reads this, iter
    {
      && iter.at <= |iter.merged| && cur <= |iter.merged|
      && (valid <==> cur < |iter.merged|)
      && (valid ==> Shown(iter.merged, sequence, cur))
      && (if forward then ForwardInv() else ReverseInv())
    }

    ghost predicate Inv()
      reads this, iter, iter.children
    {
      iter.Inv() && Placed()
    }

    /** What the iterator is, seen from outside. */
    ghost function Abs(): Cursor
      requires cur <= |iter.merged|
      reads this
    {
      Cursor(View(iter.merged, sequence), Count(iter.merged, sequence, cur))
    }

    constructor (internal: MergingIterator, sequence: nat)
      requires internal.Inv()
      ensures Inv() && iter == internal && this.sequence == sequence && !Abs().Valid()
    {
      iter, this.sequence := internal, sequence;
      savedKey, savedValue, forward, valid, cur := None, [], true, false, |internal.merged|;
    }

    lemma ValidIsAbs()
      requires Placed()
      ensures valid <==> Abs().Valid()
      ensures valid ==> Abs().Current() == iter.merged[cur]
    {
      if valid {
        ViewAt(iter.merged, sequence, |iter.merged|, cur);
      }
    }

    method Valid() returns (b: bool)
      requires Inv()
      ensures b == Abs().Valid()
    {
      hide MergingIterator.Inv;
      ValidIsAbs();
      b := valid;
    }

    method Key() returns (k: UserKey)
      requires Inv() && Abs().Valid()
      ensures k == Abs().Current().key.user
    {
      hide MergingIterator.Inv;
      ValidIsAbs();
      if forward {
        var e := iter.Current();
        k := e.key.user;
      } else {
        k := savedKey.value;
      }
    }

    method GetValue() returns (v: Bytes)
      requires Inv() && Abs().Valid()
      ensures v == Abs().Current().value
    {
      hide MergingIterator.Inv;
      ValidIsAbs();
      if forward {
        var e := iter.Current();
        v := e.value;
      } else {
        v := savedValue;
      }
    }

    /** From the internal position to the first entry a client may see past the key to skip. */
    method FindNextUserEntry(skipping: bool)
      requires iter.Inv() && forward && (skipping ==> savedKey.Some?)
      requires MayStart(iter.merged, sequence, if skipping then savedKey else None, iter.at)
      modifies this, iter, iter.children
      ensures Inv() && forward
      ensures FirstWanted(iter.merged, sequence, if skipping then old(savedKey) else None, old(iter.at), cur)
    {
      hide MergingIterator.Inv;
      hide Scanning, MayStart, FirstWanted, Shown, Wanted, Count, ViewUpTo, Sorted;
      MergeInOrder(iter);
      ghost var t, skip, start := iter.merged, if skipping then savedKey else None, iter.at;
      ScanBegins(t, sequence, skip, start);
      var hideTo := if skipping then savedKey else None;
      var more := iter.Valid();
      while more
        invariant iter.Inv() && iter.at <= |t| && more == iter.Abs().Valid()
        invariant forward && Scanning(t, sequence, skip, hideTo, start, iter.at)
        decreases |t| - iter.at
      {
        var e := iter.Current();
        var ikey := e.key;
        if ikey.sequence <= sequence && ikey.kind == Deletion {
          ScanPastDeletion(t, sequence, skip, hideTo, start, iter.at);
          hideTo := Some(ikey.user);
        } else if ikey.sequence <= sequence && !(hideTo.Some? && ikey.user <= hideTo.value) {
          ScanFinds(t, sequence, skip, hideTo, start, iter.at);
          WantedIsShown(t, sequence, skip, start, iter.at);
          valid, savedKey, cur := true, None, iter.at;
          return;
        } else {
          ScanPastHidden(t, sequence, skip, hideTo, start, iter.at);
        }
        iter.Next();
        more := iter.Valid();
      }
      ScanFinds(t, sequence, skip, hideTo, start, iter.at);
      valid, savedKey, cur := false, None, |t|;
    }

    /** From the internal position back to the last entry a client may see. */
    method FindPrevUserEntry()
      requires iter.Inv() && !forward
      modifies this, iter, iter.children
      ensures Inv()
      ensures NothingShown(iter.merged, sequence, if valid then cur + 1 else 0, old(Behind()))
      ensures valid ==> cur < old(Behind())
    {
      hide MergingIterator.Inv;
      hide Placed, ScanningBack, Candidate, NothingShown, NothingVisible, Shown, Count, ViewUpTo, Sorted;
      MergeInOrder(iter);
      ghost var t, q0 := iter.merged, Behind();
      var found, c := ScanBack();
      MergeInOrder(iter);
      BackFinds(t, sequence, Behind(), q0, c);
      if !found {
        valid, savedKey, savedValue, forward, cur := false, None, [], true, |t|;
        PlacedNowhere();
      } else {
        CandidateIsShown(t, sequence, Behind(), c.value, q0);
        valid, cur := true, c.value;
        PlacedBack();
      }
    }

    /** The loop of it: finds the newest visible entry of the last user key that has a value there. */
    method ScanBack() returns (found: bool, ghost c: Option<nat>)
      requires iter.Inv()
      modifies `savedKey, `savedValue, iter, iter.children
      ensures iter.Inv() && found == c.Some? && ScanningBack(iter.merged, sequence, Behind(), old(Behind()), c)
      ensures found ==> (c.value < |iter.merged|
        && savedKey == Some(iter.merged[c.value].key.user) && savedValue == iter.merged[c.value].value)
      ensures iter.at < |iter.merged| ==>
        found && iter.merged[iter.at].key.sequence <= sequence && iter.merged[iter.at].key.user < savedKey.value
    {
      hide MergingIterator.Inv;
      hide ScanningBack, Candidate, NothingShown, NothingVisible, Shown, Sorted;
      MergeInOrder(iter);
      ghost var t, q0 := iter.merged, Behind();
      var valueType := Deletion;
      c := None;
      BackBegins(t, sequence, q0);
      var more := iter.Valid();
      while more
        invariant iter.Inv() && iter.at <= |t| && more == iter.Abs().Valid()
        invariant ScanningBack(t, sequence, Behind(), q0, c) && (valueType == Value <==> c.Some?)
        invariant c.Some? ==> c.value < |t| && savedKey == Some(t[c.value].key.user) && savedValue == t[c.value].value
        decreases Behind()
      {
        var e := iter.Current();
        if e.key.sequence <= sequence {
          if valueType != Deletion && e.key.user < savedKey.value {
            break;
          }
          BackPastVisible(t, sequence, Behind(), q0, c);
          valueType := e.key.kind;
          if valueType == Deletion {
            savedKey, savedValue, c := None, [], None;
          } else {
            savedKey, savedValue, c := Some(e.key.user), e.value, Some(iter.at);
          }
        } else {
          BackPastInvisible(t, sequence, Behind(), q0, c);
        }
        iter.Prev();
        more := iter.Valid();
      }
      found := valueType != Deletion;
    }

    lemma PlacedBack()
      requires !forward && valid && iter.at <= |iter.merged| && cur < |iter.merged| && Shown(iter.merged, sequence, cur)
      requires savedKey == Some(iter.merged[cur].key.user) && savedValue == iter.merged[cur].value
      requires Behind() <= cur && NothingVisible(iter.merged, sequence, Behind(), cur)
      requires iter.at < |iter.merged| ==>
        iter.merged[iter.at].key.sequence <= sequence && iter.merged[iter.at].key.user < iter.merged[cur].key.user
      ensures Placed()
    {}

    lemma PlacedNowhere()
      requires forward && !valid && iter.at <= |iter.merged| == cur
      ensures Placed()
    {}

    method Next()
      requires Inv() && Abs().Valid()
      modifies this, iter, iter.children
      ensures Inv() && Abs() == old(Abs()).Next()
    {
      hide MergingIterator.Inv;
      ValidIsAbs();
      MergeInOrder(iter);
      ghost var t, was := iter.merged, cur;
      if !forward {
        forward := true;
        // The current entry lies ahead, so the internal iterator cannot run out here.
        var there := iter.Valid();
        if !there {
          iter.SeekToFirst();
        } else {
          iter.Next();
        }
      } else {
        var e := iter.Current();
        savedKey := Some(e.key.user);
      }
      NextMayStart(t, sequence, was, iter.at);
      ghost var start := iter.at;
      FindNextUserEntry(true);
      NextPosition(t, sequence, was, start, cur);
    }

    method Prev()
      requires Inv() && Abs().Valid()
      modifies this, iter, iter.children
      ensures Inv() && Abs() == old(Abs()).Prev()
    {
      hide MergingIterator.Inv;
      ValidIsAbs();
      ghost var t, was := iter.merged, cur;
      if forward {
        var e := iter.Current();
        savedKey := Some(e.key.user);
        var more := ScanBackToSmallerKey();
        MergeInOrder(iter);
        if !more {
          CountNone(t, sequence, 0, was);
          valid, savedKey, savedValue, cur := false, None, [], |t|;
          return;
        }
        forward := false;
      }
      ghost var q := Behind();
      FindPrevUserEntry();
      if valid {
        CountNone(t, sequence, cur + 1, was);
      } else {
        CountNone(t, sequence, 0, was);
      }
    }

    /** Steps back over the entries of the current user key; reports whether an entry remains. */
    method ScanBackToSmallerKey() returns (more: bool)
      requires iter.Inv() && iter.at < |iter.merged| && Shown(iter.merged, sequence, iter.at)
      requires savedKey == Some(iter.merged[iter.at].key.user)
      modifies iter, iter.children
      ensures iter.Inv() && more == (iter.at < |iter.merged|)
      ensures Behind() <= old(iter.at) && NothingShown(iter.merged, sequence, Behind(), old(iter.at))
    {
      hide MergingIterator.Inv;
      MergeInOrder(iter);
      ghost var t, was := iter.merged, iter.at;
      while true
        invariant iter.Inv() && iter.at < |t| && iter.at <= was
        invariant forall j :: iter.at <= j < was ==> t[j].key.user >= savedKey.value
        decreases iter.at
      {
        iter.Prev();
        var there := iter.Valid();
        if !there {
          SameKeyNotShown(t, sequence, 0, was);
          return false;
        }
        var e := iter.Current();
        if e.key.user < savedKey.value {
          SameKeyNotShown(t, sequence, iter.at + 1, was);
          return true;
        }
      }
    }

    method Seek(target: UserKey)
      requires Inv()
      modifies this, iter, iter.children
      ensures Inv() && Abs() == old(Abs()).Seek(LookupKey(target, sequence))
    {
      hide MergingIterator.Inv;
      MergeInOrder(iter);
      forward, savedValue, savedKey := true, [], Some(target);
      iter.Seek(LookupKey(target, sequence));
      ghost var start := iter.at;
      var there := iter.Valid();
      if there {
        SeekMayStart(iter.merged, sequence, target);
        FindNextUserEntry(false);
      } else {
        valid, cur := false, |iter.merged|;
      }
      SeekPosition(iter.merged, sequence, target, cur);
    }

    method SeekToFirst()
      requires Inv()
      modifies this, iter, iter.children
      ensures Inv() && Abs() == old(Abs()).SeekToFirst()
    {
      hide MergingIterator.Inv;
      MergeInOrder(iter);
      forward, savedValue := true, [];
      iter.SeekToFirst();
      var there := iter.Valid();
      if there {
        FindNextUserEntry(false);
        FirstShown(iter.merged, sequence, 0, cur);
      } else {
        valid, cur := false, |iter.merged|;
      }
    }

    method SeekToLast()
      requires Inv()
      modifies this, iter, iter.children
      ensures Inv() && Abs() == old(Abs()).SeekToLast()
    {
      hide MergingIterator.Inv;
      forward, savedValue := false, [];
      iter.SeekToLast();
      ghost var t := iter.merged;
      assert Behind() == |t|;
      FindPrevUserEntry();
      CountNone(t, sequence, if valid then cur + 1 else 0, |t|);
    }

    method Do(call: Call) returns (seen: Option<(UserKey, Bytes)>)
      requires Inv() && (call.To? ==> call.key == LookupKey(call.key.user, sequence))
      modifies this, iter, iter.children
      ensures Inv() && Abs() == Perform(old(Abs()), call)
      ensures seen == ClientView(Observe(Abs()))
    {
      hide MergingIterator.Inv;
      var v := Valid();
      match call {
        case First => SeekToFirst();
        case Last => SeekToLast();
        case To(k) => Seek(k.user);
        case Forward => if v { Next(); }
        case Backward => if v { Prev(); }
      }
      seen := See();
    }

    method See() returns (seen: Option<(UserKey, Bytes)>)
      requires Inv()
      ensures seen == ClientView(Observe(Abs()))
    {
      hide MergingIterator.Inv;
      var v := Valid();
      if !v {
        return None;
      }
      var key := Key();
      var value := GetValue();
      return Some((key, value));
    }

    /** Any sequence of calls, with any changes of direction, shows a client exactly what a plain cursor
        over the sorted map would. */
    method Run(calls: seq<Call>) returns (seen: seq<Option<(UserKey, Bytes)>>)
      requires Inv() && forall c :: c in calls && c.To? ==> c.key == LookupKey(c.key.user, sequence)
      modifies this, iter, iter.children
      ensures Inv()
      ensures |seen| == |calls|
      ensures var shown := Observations(old(Abs()), calls);
        forall i :: 0 <= i < |calls| ==>
          seen[i] == if shown[i].Some? then Some((shown[i].value.key.user, shown[i].value.value)) else None
      decreases calls
    {
      hide MergingIterator.Inv;
      if calls == [] {
        return [];
      }
      var e := Do(calls[0]);
      var rest := Run(calls[1..]);
      seen := [e] + rest;
    }
  }

  lemma MergeInOrder(iter: MergingIterator)
    requires iter.Inv()
    ensures Sorted(iter.merged) && iter.at <= |iter.merged|
  {}

  /** What a client sees of an entry. */
  function ClientView(e: Option<Entry>): Option<(UserKey, Bytes)> {
    if e.Some? then Some((e.value.key.user, e.value.value)) else None
  }

  lemma SameKeyNotShown(t: seq<Entry>, s: nat, a: nat, cur: nat)
    requires Sorted(t) && a <= cur < |t| && Shown(t, s, cur)
    requires forall j :: a <= j < cur ==> t[j].key.user >= t[cur].key.user
    ensures NothingShown(t, s, a, cur)
  {
    forall j | a <= j < cur ensures !Shown(t, s, j) {
      if Shown(t, s, j) {
        ShownUsersIncrease(t, s, j, cur);
      }
    }
  }
}
