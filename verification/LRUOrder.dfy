module LRUOrder {
  // The cache forgets what has been idle for the longest time: over every sequence of calls, of two idle handles the one
  // that became idle first is evicted first.

  import opened HandleTables
  import opened LRUCaches

  /** In the cache, and held by no client. */
  predicate Idle(s: State, a: nat) {
    a < |s.handles| && s.handles[a].inCache && s.handles[a].refs == 1
  }

  /** The handle became idle with call `t - 1` and has stayed so up to state `i`. */
  ghost predicate IdleSince(states: seq<State>, i: nat, a: nat, t: nat)
    requires i < |states|
  {
    0 < t <= i && !Idle(states[t - 1], a) && forall k :: t <= k <= i ==> Idle(states[k], a)
  }

  ghost predicate Before(list: seq<nat>, a: nat, b: nat) {
    exists p, q :: 0 <= p < q < |list| && list[p] == a && list[q] == b
  }

  lemma IdleIsListed(s: State, a: nat)
    requires Inv(s)
    ensures Idle(s, a) <==> a in s.lru
  {
    if a < |s.handles| {
      assert HandleOk(s, a);
    }
  }

  // ---- What calls do to the order ------------------------------------------------------------------------------------

  lemma {:induction false} WithoutKeepsOrder(list: seq<nat>, x: nat, a: nat, b: nat)
    requires Before(list, a, b) && a != x && b != x
    ensures Before(Without(list, x), a, b)
  {
    var p, q :| 0 <= p < q < |list| && list[p] == a && list[q] == b;
    var rest := Without(list[1..], x);
    if p == 0 {
      assert list[1..][q - 1] == b;
      WithoutIs(list[1..], x);
      assert b in rest;
      var j :| 0 <= j < |rest| && rest[j] == b;
      assert ([a] + rest)[0] == a && ([a] + rest)[j + 1] == b;
    } else {
      assert list[1..][p - 1] == a && list[1..][q - 1] == b;
      WithoutKeepsOrder(list[1..], x, a, b);
      var i, j :| 0 <= i < j < |rest| && rest[i] == a && rest[j] == b;
      if list[0] != x {
        assert ([list[0]] + rest)[i + 1] == a && ([list[0]] + rest)[j + 1] == b;
      }
    }
  }

  lemma SuffixKeepsOrder(list: seq<nat>, n: nat, a: nat, b: nat)
    requires n <= |list| && NoDuplicates(list) && Before(list, a, b) && a in list[n..]
    ensures Before(list[n..], a, b)
  {
    var p, q :| 0 <= p < q < |list| && list[p] == a && list[q] == b;
    var j :| 0 <= j < |list[n..]| && list[n..][j] == a;
    assert list[n + j] == list[p];
    assert list[n..][p - n] == a && list[n..][q - n] == b;
  }

  /** Dropping a handle takes it off the list of idle ones, and no other. */
  lemma DropTagLru(s: State, t: Tag, a: nat, b: nat)
    requires Inv(s) && Before(s.lru, a, b) && a in DropTag(s, t).lru && b in DropTag(s, t).lru
    ensures Before(DropTag(s, t).lru, a, b)
  {
    if DropTag(s, t) != s {
      WithoutIs(s.lru, s.table[t]);
      WithoutKeepsOrder(s.lru, s.table[t], a, b);
    }
  }

  lemma DropTagNewIdle(s: State, t: Tag, a: nat)
    requires Inv(s) && a in DropTag(s, t).lru
    ensures a in s.lru
  {
    if DropTag(s, t) != s {
      WithoutIs(s.lru, s.table[t]);
    }
  }

  /** An insertion: a handle of the same tag goes, and then the oldest ones. */
  lemma InsertLru(s: State, t: Tag, value: int, charge: nat) returns (dropped: State, n: nat)
    requires Inv(s)
    ensures dropped == (if s.capacity > 0 then DropTag(s, t) else s) && Inv(dropped) && n <= |dropped.lru|
    ensures InsertInto(s, t, value, charge).lru == dropped.lru[n..]
    ensures InsertInto(s, t, value, charge).deleted == dropped.deleted + dropped.lru[..n]
  {
    DropTagKeepsInv(s, t);
    dropped := if s.capacity > 0 then DropTag(s, t) else s;
    AddKeepsInv(dropped, t, value, charge);
    n := EvictIs(Add(dropped, t, value, charge));
  }

  lemma InsertKeepsOrder(s: State, t: Tag, value: int, charge: nat, a: nat, b: nat)
    requires Inv(s) && Before(s.lru, a, b)
    requires var s2 := InsertInto(s, t, value, charge); a in s2.lru && b in s2.lru
    ensures Before(InsertInto(s, t, value, charge).lru, a, b)
  {
    hide InsertInto, Inv, DropTag, Before;
    var dropped, n := InsertLru(s, t, value, charge);
    PartOf(dropped.lru, n, a);
    PartOf(dropped.lru, n, b);
    if s.capacity > 0 {
      DropTagLru(s, t, a, b);
    }
    ListedOnce(dropped);
    SuffixKeepsOrder(dropped.lru, n, a, b);
  }

  lemma PartOf(list: seq<nat>, n: nat, a: nat)
    requires n <= |list| && a in list[n..]
    ensures a in list
  {}

  lemma ListedOnce(s: State)
    requires Inv(s)
    ensures NoDuplicates(s.lru)
  {}

  /** A call leaves the idle handles that stay in their order. */
  lemma CallKeepsOrder(s: State, call: Call, a: nat, b: nat)
    requires Inv(s) && Allowed(s, call) && Before(s.lru, a, b) && a in Apply(s, call).lru && b in Apply(s, call).lru
    ensures Before(Apply(s, call).lru, a, b)
  {
    hide Inv;
    match call
    case Insert(t, value, charge) => InsertKeepsOrder(s, t, value, charge, a, b);
    case Lookup(t) =>
      if t in s.table && s.table[t] < |s.handles| {
        WithoutIs(s.lru, s.table[t]);
        if s.handles[s.table[t]].refs == 1 && s.handles[s.table[t]].inCache {
          WithoutKeepsOrder(s.lru, s.table[t], a, b);
        }
      }
    case Release(c) =>
      var p, q :| 0 <= p < q < |s.lru| && s.lru[p] == a && s.lru[q] == b;
      assert Apply(s, call).lru[p] == a && Apply(s, call).lru[q] == b;
    case Erase(t) => DropTagLru(s, t, a, b);
    case Prune =>
      PruneKeepsInv(s);
  }

  /** Only a release makes a handle idle, and then it is the last of the list. */
  lemma NewIdleIsLast(s: State, call: Call, b: nat)
    requires Inv(s) && Allowed(s, call) && b !in s.lru && b in Apply(s, call).lru
    ensures call == Release(b) && Apply(s, call).lru == s.lru + [b]
  {
    hide Inv, InsertInto;
    match call
    case Insert(t, value, charge) =>
      var dropped, n := InsertLru(s, t, value, charge);
      PartOf(dropped.lru, n, b);
      if s.capacity > 0 {
        DropTagNewIdle(s, t, b);
      }
    case Lookup(t) =>
      if t in s.table && s.table[t] < |s.handles| {
        WithoutIs(s.lru, s.table[t]);
      }
    case Release(c) =>
    case Erase(t) => DropTagNewIdle(s, t, b);
    case Prune => PruneKeepsInv(s);
  }

  // ---- Over every sequence of calls ----------------------------------------------------------------------------------

  /** The list of idle handles is in the order in which they became idle. */
  lemma {:induction false} OlderIsBefore(states: seq<State>, calls: seq<Call>, i: nat, a: nat, b: nat, t: nat, u: nat)
    requires IsRun(states, calls) && i < |states| && IdleSince(states, i, a, t) && IdleSince(states, i, b, u) && t < u
    ensures Before(states[i].lru, a, b)
  {
    hide Inv, Apply, Allowed;
    InvariantHolds(states, calls, i - 1);
    InvariantHolds(states, calls, i);
    var s, s2 := states[i - 1], states[i];
    assert Idle(states[i - 1], a);
    IdleIsListed(s, a);
    IdleIsListed(s2, a);
    IdleIsListed(s, b);
    IdleIsListed(s2, b);
    assert Allowed(s, calls[i - 1]) && s2 == Apply(s, calls[i - 1]);
    if u == i {
      NewIdleIsLast(s, calls[i - 1], b);
      var p :| 0 <= p < |s.lru| && s.lru[p] == a;
      assert s2.lru[p] == a && s2.lru[|s.lru|] == b;
    } else {
      OlderIsBefore(states, calls, i - 1, a, b, t, u);
      CallKeepsOrder(s, calls[i - 1], a, b);
    }
  }

  /** Of two idle handles the one that became idle first is evicted no later: an insertion of another tag that deletes the
      younger one has deleted the older one before it. */
  lemma OldestGoesFirst(states: seq<State>, calls: seq<Call>, i: nat, a: nat, b: nat, t: nat, u: nat)
    requires IsRun(states, calls) && i < |calls| && IdleSince(states, i, a, t) && IdleSince(states, i, b, u) && t < u
    requires calls[i].Insert? && calls[i].tag != states[i].handles[a].tag && calls[i].tag != states[i].handles[b].tag
    ensures b in states[i + 1].deleted ==> Before(states[i + 1].deleted, a, b)
    ensures Idle(states[i + 1], a) ==> Idle(states[i + 1], b)
  {
    hide Inv, InsertInto, DropTag;
    var s, s2 := states[i], states[i + 1];
    InvariantHolds(states, calls, i);
    InvariantHolds(states, calls, i + 1);
    OlderIsBefore(states, calls, i, a, b, t, u);
    IdleIsListed(s, a);
    IdleIsListed(s, b);
    IdleIsListed(s2, a);
    IdleIsListed(s2, b);
    var dropped, n := InsertLru(s, calls[i].tag, calls[i].value, calls[i].charge);
    OtherTagStays(s, calls[i].tag, a, b);
    IdleIsAlive(s, b);
    FirstPartFirst(dropped, n, a, b);
  }

  lemma IdleIsAlive(s: State, b: nat)
    requires Inv(s) && Idle(s, b)
    ensures b !in s.deleted
  {
    assert HandleOk(s, b);
  }

  lemma OtherTagStays(s: State, t: Tag, a: nat, b: nat)
    requires Inv(s) && Before(s.lru, a, b) && Idle(s, a) && Idle(s, b) && t != s.handles[a].tag && t != s.handles[b].tag
    ensures Before(DropTag(s, t).lru, a, b)
    ensures b !in DropTag(s, t).deleted
  {
    assert HandleOk(s, a) && HandleOk(s, b);
    if DropTag(s, t) != s {
      WithoutIs(s.lru, s.table[t]);
      WithoutKeepsOrder(s.lru, s.table[t], a, b);
    }
  }

  lemma FirstPartFirst(s: State, n: nat, a: nat, b: nat)
    requires Inv(s) && n <= |s.lru| && Before(s.lru, a, b) && b !in s.deleted
    ensures b in s.deleted + s.lru[..n] ==> Before(s.deleted + s.lru[..n], a, b)
    ensures a in s.lru[n..] ==> b in s.lru[n..]
  {
    FirstPart(s.deleted, s.lru, n, a, b);
  }

  lemma FirstPart(deleted: seq<nat>, lru: seq<nat>, n: nat, a: nat, b: nat)
    requires NoDuplicates(lru) && n <= |lru| && Before(lru, a, b) && b !in deleted
    ensures b in deleted + lru[..n] ==> Before(deleted + lru[..n], a, b)
    ensures a in lru[n..] ==> b in lru[n..]
  {
    var p, q :| 0 <= p < q < |lru| && lru[p] == a && lru[q] == b;
    var all := deleted + lru[..n];
    if b in all {
      assert b in lru[..n];
      var j :| 0 <= j < n && lru[..n][j] == b;
      assert lru[j] == lru[q];
      assert all[|deleted| + p] == a && all[|deleted| + q] == b;
    }
    if a in lru[n..] {
      var j :| 0 <= j < |lru[n..]| && lru[n..][j] == a;
      assert lru[n + j] == lru[p];
      assert lru[n..][q - n] == b;
    }
  }
}
