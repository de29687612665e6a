/** One shard of the cache (LRUCache in util/cache.cc): reference-counted handles, a list of those in use
    and a list of the others, oldest first. */
module LRUCaches {
  import opened Keys
  import opened HandleTables

  datatype Handle = Handle(tag: Tag, value: int, charge: nat, inCache: bool, refs: nat)

  /** A handle is named by its place in `handles`.  `held` counts the references that clients have not given
      back, and `deleted` lists the deleter calls in order. */
  datatype State = State(
    handles: seq<Handle>, lru: seq<nat>, inUse: seq<nat>, table: map<Tag, nat>, usage: nat, capacity: nat,
    held: multiset<nat>, deleted: seq<nat>)

  ghost predicate NoDuplicates(list: seq<nat>) {
    forall i, j :: 0 <= i < j < |list| ==> list[i] != list[j]
  }

  function Without(list: seq<nat>, a: nat): seq<nat> {
    if list == [] then [] else if list[0] == a then Without(list[1..], a) else [list[0]] + Without(list[1..], a)
  }

  lemma {:induction false} WithoutIs(list: seq<nat>, a: nat)
    ensures forall x :: x in Without(list, a) <==> x in list && x != a
    ensures NoDuplicates(list) ==> NoDuplicates(Without(list, a))
  {
    if list != [] {
      WithoutIs(list[1..], a);
      assert list == [list[0]] + list[1..];
      if NoDuplicates(list) {
        assert list[0] !in Without(list[1..], a);
      }
    }
  }

  lemma {:induction false} WithoutAbsent(list: seq<nat>, a: nat)
    requires a !in list
    ensures Without(list, a) == list
  {
    if list != [] {
      WithoutAbsent(list[1..], a);
    }
  }

  lemma NoDuplicatesSnoc(list: seq<nat>, a: nat)
    requires NoDuplicates(list) && a !in list
    ensures NoDuplicates(list + [a])
  {
    assert forall i :: 0 <= i < |list| ==> list[i] in list;
  }

  lemma WithoutFirst(list: seq<nat>)
    requires list != [] && NoDuplicates(list)
    ensures Without(list, list[0]) == list[1..]
  {
    WithoutAbsent(list[1..], list[0]);
  }

  function ChargeOf(h: Handle): nat {
    if h.inCache then h.charge else 0
  }

  function TotalCharge(handles: seq<Handle>): nat {
    if handles == [] then 0 else TotalCharge(handles[..|handles| - 1]) + ChargeOf(handles[|handles| - 1])
  }

  lemma {:induction false} ChargeUpdate(handles: seq<Handle>, a: nat, h: Handle)
    requires a < |handles|
    ensures TotalCharge(handles[a := h]) == TotalCharge(handles) - ChargeOf(handles[a]) + ChargeOf(h)
  {
    var n := |handles| - 1;
    if a < n {
      ChargeUpdate(handles[..n], a, h);
      assert handles[a := h][..n] == handles[..n][a := h];
    } else {
      assert handles[a := h][..n] == handles[..n];
    }
  }

  /** A handle's references are the clients' and the cache's; while it has any it is alive; in the cache it
      is on exactly one list, which its references tell. */
  ghost predicate HandleOk(s: State, a: nat)
    requires a < |s.handles|
  {
    var h := s.handles[a];
    && h.refs == s.held[a] + (if h.inCache then 1 else 0)
    && (h.inCache <==> h.tag in s.table && s.table[h.tag] == a)
    && (a in s.lru <==> h.inCache && h.refs == 1)
    && (a in s.inUse <==> h.inCache && h.refs >= 2)
    && (a in s.deleted <==> h.refs == 0)
  }

  ghost predicate Known(s: State, list: seq<nat>) {
    NoDuplicates(list) && forall a :: a in list ==> a < |s.handles|
  }

  ghost predicate Inv(s: State) {
    && (forall a :: 0 <= a < |s.handles| ==> HandleOk(s, a))
    && (forall t :: t in s.table ==> s.table[t] < |s.handles| && s.handles[s.table[t]].tag == t)
    && (forall a :: a in s.held ==> a < |s.handles|)
    && Known(s, s.lru) && Known(s, s.inUse) && Known(s, s.deleted)
    && s.usage == TotalCharge(s.handles)
  }

  // ---- The operations on values ------------------------------------------------------------------------

  /** A client takes a reference. */
  function Take(s: State, a: nat): State
    requires a < |s.handles|
  {
    var h := s.handles[a];
    var idle := h.refs == 1 && h.inCache;
    s.(handles := s.handles[a := h.(refs := h.refs + 1)], held := s.held + multiset{a},
       lru := if idle then Without(s.lru, a) else s.lru,
       inUse := if idle then s.inUse + [a] else s.inUse)
  }

  /** A client gives a reference back; the last one runs the deleter, the last but the cache's makes the
      handle the newest idle one. */
  function Give(s: State, a: nat): State
    requires a < |s.handles| && s.handles[a].refs > 0
  {
    var h := s.handles[a];
    var idle := h.inCache && h.refs == 2;
    s.(handles := s.handles[a := h.(refs := h.refs - 1)], held := s.held - multiset{a},
       inUse := if idle then Without(s.inUse, a) else s.inUse,
       lru := if idle then s.lru + [a] else s.lru,
       deleted := if h.refs == 1 then s.deleted + [a] else s.deleted)
  }

  /** A handle leaves the cache. */
  function Drop(s: State, a: nat): State
    requires a < |s.handles| && s.handles[a].refs > 0
  {
    var h := s.handles[a];
    s.(handles := s.handles[a := h.(inCache := false, refs := h.refs - 1)], table := s.table - {h.tag},
       lru := Without(s.lru, a), inUse := Without(s.inUse, a),
       usage := if s.usage >= h.charge then s.usage - h.charge else 0,
       deleted := if h.refs == 1 then s.deleted + [a] else s.deleted)
  }

  function DropTag(s: State, t: Tag): State {
    if t in s.table && s.table[t] < |s.handles| && s.handles[s.table[t]].refs > 0 then Drop(s, s.table[t]) else s
  }

  /** A new handle, held by its client, and in the cache unless caching is off. */
  function Add(s: State, t: Tag, value: int, charge: nat): State {
    var a, cached := |s.handles|, s.capacity > 0;
    var s2 := s.(handles := s.handles + [Handle(t, value, charge, cached, if cached then 2 else 1)], held := s.held + multiset{a});
    if cached then s2.(table := s.table[t := a], inUse := s.inUse + [a], usage := s.usage + charge) else s2
  }

  /** Idle handles leave oldest first until the rest fits. */
  function Evict(s: State): State
    decreases |s.lru|
  {
    if s.usage <= s.capacity || s.lru == [] then s
    else
      var a := s.lru[0];
      if a < |s.handles| && s.handles[a].refs > 0 && |Without(s.lru, a)| < |s.lru| then Evict(Drop(s, a)) else s
  }

  function InsertInto(s: State, t: Tag, value: int, charge: nat): State {
    Evict(Add(if s.capacity > 0 then DropTag(s, t) else s, t, value, charge))
  }

  // ---- They keep the invariant ------------------------------------------------------------------------

  lemma TakeKeepsInv(s: State, a: nat)
    requires Inv(s) && a < |s.handles| && s.handles[a].refs > 0
    ensures Inv(Take(s, a))
  {
    var s2 := Take(s, a);
    WithoutIs(s.lru, a);
    ChargeUpdate(s.handles, a, s2.handles[a]);
    assert HandleOk(s, a);
    forall b | 0 <= b < |s2.handles| ensures HandleOk(s2, b) {
      assert HandleOk(s, b);
    }
  }

  lemma GiveKeepsInv(s: State, a: nat)
    requires Inv(s) && a in s.held
    ensures a < |s.handles| && s.handles[a].refs > 0 && Inv(Give(s, a))
  {
    assert HandleOk(s, a);
    var s2 := Give(s, a);
    WithoutIs(s.inUse, a);
    ChargeUpdate(s.handles, a, s2.handles[a]);
    forall b | 0 <= b < |s2.handles| ensures HandleOk(s2, b) {
      assert HandleOk(s, b);
    }
  }

  lemma DropKeepsInv(s: State, a: nat)
    requires Inv(s) && a < |s.handles| && s.handles[a].inCache
    ensures s.handles[a].refs > 0 && s.usage >= s.handles[a].charge && Inv(Drop(s, a))
  {
    assert HandleOk(s, a);
    var s2 := Drop(s, a);
    WithoutIs(s.lru, a);
    WithoutIs(s.inUse, a);
    ChargeUpdate(s.handles, a, s2.handles[a]);
    forall b | 0 <= b < |s2.handles| ensures HandleOk(s2, b) {
      assert HandleOk(s, b);
    }
  }

  lemma DropTagKeepsInv(s: State, t: Tag)
    requires Inv(s)
    ensures Inv(DropTag(s, t)) && t !in DropTag(s, t).table
  {
    if t in s.table {
      assert HandleOk(s, s.table[t]);
      DropKeepsInv(s, s.table[t]);
    }
  }

  lemma AddKeepsInv(s: State, t: Tag, value: int, charge: nat)
    requires Inv(s) && (s.capacity > 0 ==> t !in s.table)
    ensures Inv(Add(s, t, value, charge))
  {
    var s2 := Add(s, t, value, charge);
    NoDuplicatesSnoc(s.inUse, |s.handles|);
    assert s2.handles[..|s.handles|] == s.handles;
    forall b | 0 <= b < |s2.handles| ensures HandleOk(s2, b) {
      if b < |s.handles| {
        assert HandleOk(s, b);
      }
    }
  }

  /** The `n` oldest idle handles are gone and deleted in order, and one fewer would not have been enough. */
  ghost predicate Evicted(s: State, n: nat, s2: State) {
    && n <= |s.lru| && s2.lru == s.lru[n..] && s2.inUse == s.inUse && s2.deleted == s.deleted + s.lru[..n]
    && s2.held == s.held && s2.capacity == s.capacity && |s2.handles| == |s.handles|
    && (n == 0 ==> s2 == s)
    && (n > 0 ==> s.lru[n - 1] < |s.handles| && s2.usage + s.handles[s.lru[n - 1]].charge > s.capacity)
    && (forall a :: 0 <= a < |s.handles| && a !in s.lru[..n] ==> s2.handles[a] == s.handles[a])
    && (forall t :: t in s2.table ==> t in s.table && s2.table[t] == s.table[t])
    && (forall t :: t in s.table ==> (t in s2.table <==> s.table[t] !in s.lru[..n]))
  }

  lemma DropFirst(s: State)
    requires Inv(s) && s.usage > s.capacity && s.lru != []
    ensures var a := s.lru[0];
      && a < |s.handles| && s.handles[a].refs == 1 && s.handles[a].inCache && s.usage >= s.handles[a].charge
      && Inv(Drop(s, a)) && Evicted(s, 1, Drop(s, a)) && |Without(s.lru, a)| < |s.lru|
  {
    var a := s.lru[0];
    assert a in s.lru;
    assert HandleOk(s, a);
    DropKeepsInv(s, a);
    WithoutFirst(s.lru);
    WithoutAbsent(s.inUse, a);
    assert s.lru[..1] == [a];
    forall t | t in s.table ensures t in s.table - {s.handles[a].tag} <==> s.table[t] != a {}
  }

  lemma EvictStep(s: State)
    requires s.usage > s.capacity && s.lru != []
    requires var a := s.lru[0]; a < |s.handles| && s.handles[a].refs > 0 && |Without(s.lru, a)| < |s.lru|
    ensures Evict(s) == Evict(Drop(s, s.lru[0]))
  {}

  lemma EvictedThen(s: State, s1: State, m: nat, s2: State)
    requires Inv(s) && s.lru != [] && Evicted(s, 1, s1) && Evicted(s1, m, s2)
    ensures Evicted(s, m + 1, s2)
  {
    assert s.lru[..1] == [s.lru[0]];
    assert s.lru[..m + 1] == s.lru[..1] + s1.lru[..m];
    if m > 0 {
      assert s.lru[m] == s1.lru[m - 1];
      assert s.lru[m] in s1.lru[..m] && s.lru[m] != s.lru[0];
    }
  }

  /** Eviction takes the oldest idle handles, no more of them than needed, and runs their deleters. */
  lemma {:induction false} EvictIs(s: State) returns (n: nat)
    requires Inv(s)
    ensures Inv(Evict(s)) && Evicted(s, n, Evict(s))
    ensures Evict(s).usage <= s.capacity || Evict(s).lru == []
    decreases |s.lru|
  {
    if s.usage <= s.capacity || s.lru == [] {
      n := 0;
      assert s.lru[..0] == [];
    } else {
      DropFirst(s);
      EvictStep(s);
      var s1 := Drop(s, s.lru[0]);
      var m := EvictIs(s1);
      EvictedThen(s, s1, m, Evict(s));
      n := m + 1;
    }
  }

  lemma InsertKeepsInv(s: State, t: Tag, value: int, charge: nat)
    requires Inv(s)
    ensures var s2 := InsertInto(s, t, value, charge); Inv(s2) && (s2.usage <= s2.capacity || s2.lru == [])
  {
    DropTagKeepsInv(s, t);
    var s1 := if s.capacity > 0 then DropTag(s, t) else s;
    AddKeepsInv(s1, t, value, charge);
    var n := EvictIs(Add(s1, t, value, charge));
  }

  /** All idle handles leave. */
  function PruneAll(s: State): State
    decreases |s.lru|
  {
    if s.lru == [] then s
    else
      var a := s.lru[0];
      if a < |s.handles| && s.handles[a].refs > 0 && |Without(s.lru, a)| < |s.lru| then PruneAll(Drop(s, a)) else s
  }

  lemma DropIdle(s: State)
    requires Inv(s) && s.lru != []
    ensures var a := s.lru[0];
      && a < |s.handles| && s.handles[a].refs == 1 && s.handles[a].inCache
      && s.handles[a].tag in s.table && s.table[s.handles[a].tag] == a
      && Inv(Drop(s, a)) && Drop(s, a).lru == s.lru[1..] && |Without(s.lru, a)| < |s.lru|
  {
    var a := s.lru[0];
    assert a in s.lru;
    assert HandleOk(s, a);
    DropKeepsInv(s, a);
    WithoutFirst(s.lru);
  }

  lemma {:induction false} PruneKeepsInv(s: State)
    requires Inv(s)
    ensures Inv(PruneAll(s)) && PruneAll(s).lru == []
    decreases |s.lru|
  {
    if s.lru != [] {
      DropIdle(s);
      PruneKeepsInv(Drop(s, s.lru[0]));
    }
  }

  // ---- Every sequence of calls ----------------------------------------------------------------------------

  datatype Call =
    | Insert(tag: Tag, value: int, charge: nat)
    | Lookup(tag: Tag)
    | Release(handle: nat)
    | Erase(tag: Tag)
    | Prune

  /** A client releases only what it holds. */
  predicate Allowed(s: State, call: Call) {
    call.Release? ==> call.handle in s.held && call.handle < |s.handles| && s.handles[call.handle].refs > 0
  }

  function LookUp(s: State, t: Tag): State {
    if t in s.table && s.table[t] < |s.handles| then Take(s, s.table[t]) else s
  }

  function Apply(s: State, call: Call): State
    requires Allowed(s, call)
  {
    match call
    case Insert(t, value, charge) => InsertInto(s, t, value, charge)
    case Lookup(t) => LookUp(s, t)
    case Release(a) => Give(s, a)
    case Erase(t) => DropTag(s, t)
    case Prune => PruneAll(s)
  }

  lemma CallKeepsInv(s: State, call: Call)
    requires Inv(s) && Allowed(s, call)
    ensures Inv(Apply(s, call))
  {
    match call
    case Insert(t, value, charge) => InsertKeepsInv(s, t, value, charge);
    case Lookup(t) =>
      if t in s.table {
        assert HandleOk(s, s.table[t]);
        TakeKeepsInv(s, s.table[t]);
      }
    case Release(a) => GiveKeepsInv(s, a);
    case Erase(t) => DropTagKeepsInv(s, t);
    case Prune => PruneKeepsInv(s);
  }

  ghost predicate IsRun(states: seq<State>, calls: seq<Call>) {
    && |states| == |calls| + 1 && (exists capacity :: states[0] == State([], [], [], map[], 0, capacity, multiset{}, []))
    && forall i :: 0 <= i < |calls| ==> Allowed(states[i], calls[i]) && states[i + 1] == Apply(states[i], calls[i])
  }

  /** After every sequence of calls the invariant holds: in particular no deleter ran twice, one ran exactly
      for the handles without references, and a handle that a client holds is alive. */
  lemma {:induction false} InvariantHolds(states: seq<State>, calls: seq<Call>, i: nat)
    requires IsRun(states, calls) && i < |states|
    ensures Inv(states[i]) && NoDuplicates(states[i].deleted)
    ensures forall a :: a in states[i].held ==> a < |states[i].handles| && a !in states[i].deleted
  {
    if i > 0 {
      InvariantHolds(states, calls, i - 1);
      CallKeepsInv(states[i - 1], calls[i - 1]);
      forall a | a in states[i].held ensures a !in states[i].deleted {
        assert HandleOk(states[i], a);
      }
    }
  }

  /** A lookup right after an insertion finds it, if the entry was cached at all. */
  lemma LookupAfterInsert(s: State, t: Tag, value: int, charge: nat)
    requires Inv(s) && s.capacity > 0
    ensures var s2 := InsertInto(s, t, value, charge);
      && t in s2.table && s2.table[t] == |s.handles| && s2.table[t] < |s2.handles|
      && s2.handles[s2.table[t]] == Handle(t, value, charge, true, 2)
  {
    DropTagKeepsInv(s, t);
    var s1 := DropTag(s, t);
    AddKeepsInv(s1, t, value, charge);
    var s2 := Add(s1, t, value, charge);
    assert HandleOk(s2, |s.handles|);
    var n := EvictIs(s2);
    assert forall a :: a in s2.lru[..n] ==> a in s2.lru;
  }

  /** No call changes what a handle was made for. */
  ghost predicate SameEntries(s: State, s2: State) {
    |s.handles| <= |s2.handles| && forall a :: 0 <= a < |s.handles| ==> SameEntry(s.handles[a], s2.handles[a])
  }

  predicate SameEntry(h: Handle, h2: Handle) {
    h2.tag == h.tag && h2.value == h.value && h2.charge == h.charge
  }

  /** The entries of the later table are entries of the earlier one, and what is missing satisfied `gone`. */
  ghost predicate Loses(table: map<Tag, nat>, table2: map<Tag, nat>, gone: seq<nat>) {
    && (forall u :: u in table2 ==> u in table && table2[u] == table[u])
    && (forall u :: u in table && u !in table2 ==> table[u] in gone)
  }

  lemma {:induction false} PruneIs(s: State)
    requires Inv(s)
    ensures var s2 := PruneAll(s); SameEntries(s, s2) && s2.held == s.held && Loses(s.table, s2.table, s.lru)
    ensures forall u :: u in PruneAll(s).table ==> s.table[u] !in s.lru
    decreases |s.lru|
  {
    if s.lru != [] {
      DropIdle(s);
      var s1 := Drop(s, s.lru[0]);
      PruneIs(s1);
      assert s.lru == [s.lru[0]] + s1.lru;
    }
  }

  lemma {:induction false} EvictKeepsEntries(s: State)
    requires Inv(s)
    ensures SameEntries(s, Evict(s))
    decreases |s.lru|
  {
    if s.usage > s.capacity && s.lru != [] {
      DropFirst(s);
      EvictKeepsEntries(Drop(s, s.lru[0]));
    }
  }

  /** What a call does to the cache as a map and to the clients' handles: an insertion adds one entry and may cost idle
      ones, a lookup hands out the entry of the tag, a release takes one back, an erasure removes the entry of the tag,
      and pruning removes the idle ones. */
  lemma CallIs(s: State, call: Call)
    requires Inv(s) && Allowed(s, call)
    ensures var s2 := Apply(s, call);
      && SameEntries(s, s2)
      && match call
         case Insert(t, value, charge) =>
           && |s2.handles| == |s.handles| + 1 && SameEntry(Handle(t, value, charge, true, 2), s2.handles[|s.handles|])
           && s2.held == s.held + multiset{|s.handles|}
           && (s.capacity > 0 ==> t in s2.table && s2.table[t] == |s.handles|)
           && Loses(s.table - {t}, s2.table - {t}, s.lru)
         case Lookup(t) => s2.table == s.table && s2.held == if t in s.table then s.held + multiset{s.table[t]} else s.held
         case Release(a) => s2.table == s.table && s2.held == s.held - multiset{a}
         case Erase(t) => s2.table == s.table - {t} && s2.held == s.held
         case Prune => Loses(s.table, s2.table, s.lru) && s2.held == s.held && forall u :: u in s2.table ==> s.table[u] !in s.lru
  {
    match call
    case Insert(t, value, charge) => InsertIs(s, t, value, charge);
    case Lookup(t) =>
      if t in s.table {
        assert HandleOk(s, s.table[t]);
      }
    case Release(_) =>
    case Erase(t) => DropTagKeepsInv(s, t);
    case Prune => PruneIs(s);
  }

  lemma InsertIs(s: State, t: Tag, value: int, charge: nat)
    requires Inv(s)
    ensures var s2 := InsertInto(s, t, value, charge);
      && SameEntries(s, s2) && |s2.handles| == |s.handles| + 1 && SameEntry(Handle(t, value, charge, true, 2), s2.handles[|s.handles|])
      && s2.held == s.held + multiset{|s.handles|}
      && (s.capacity > 0 ==> t in s2.table && s2.table[t] == |s.handles|)
      && Loses(s.table - {t}, s2.table - {t}, s.lru)
  {
    var added := Add(if s.capacity > 0 then DropTag(s, t) else s, t, value, charge);
    AddedIs(s, t, value, charge);
    var n := EvictIs(added);
    EvictKeepsEntries(added);
    if s.capacity > 0 {
      LookupAfterInsert(s, t, value, charge);
    }
    hide Add, DropTag, Evict, Inv, Evicted, SameEntries, SameEntry, Loses;
    EvictedAfter(s, added, Evict(added), n, t, Handle(t, value, charge, true, 2));
  }

  lemma EvictedAfter(s: State, added: State, s2: State, n: nat, t: Tag, h: Handle)
    requires SameEntries(s, added) && |added.handles| == |s.handles| + 1 && SameEntry(h, added.handles[|s.handles|])
    requires added.table - {t} == s.table - {t} && forall a :: a in added.lru ==> a in s.lru
    requires SameEntries(added, s2) && Evicted(added, n, s2)
    ensures SameEntries(s, s2) && |s2.handles| == |s.handles| + 1 && SameEntry(h, s2.handles[|s.handles|])
    ensures s2.held == added.held && Loses(s.table - {t}, s2.table - {t}, s.lru)
  {
    forall u | u in s.table - {t} && u !in s2.table - {t} ensures s.table[u] in s.lru {
      assert u in added.table - {t};
      assert added.table[u] in added.lru[..n];
    }
    forall u | u in s2.table - {t} ensures u in s.table - {t} && s2.table[u] == s.table[u] {
      assert u in added.table - {t};
    }
  }

  lemma AddedIs(s: State, t: Tag, value: int, charge: nat)
    requires Inv(s)
    ensures var added := Add(if s.capacity > 0 then DropTag(s, t) else s, t, value, charge);
      && Inv(added) && SameEntries(s, added) && |added.handles| == |s.handles| + 1
      && SameEntry(Handle(t, value, charge, true, 2), added.handles[|s.handles|])
      && added.held == s.held + multiset{|s.handles|} && added.table - {t} == s.table - {t}
      && forall a :: a in added.lru ==> a in s.lru
  {
    var s1 := if s.capacity > 0 then DropTag(s, t) else s;
    DropTagKeepsInv(s, t);
    AddKeepsInv(s1, t, value, charge);
    TagDropped(s, t);
    hide Inv, DropTag;
    assert SameEntries(s1, Add(s1, t, value, charge));
  }

  lemma TagDropped(s: State, t: Tag)
    requires Inv(s)
    ensures var s1 := DropTag(s, t);
      && SameEntries(s, s1) && |s1.handles| == |s.handles| && s1.capacity == s.capacity && s1.held == s.held && s1.table - {t} == s.table - {t}
      && forall a :: a in s1.lru ==> a in s.lru
  {
    WithoutIs(s.lru, if t in s.table then s.table[t] else 0);
    hide TotalCharge, HandleOk;
  }

  // ---- The cache object -----------------------------------------------------------------------------------

  class LRUCache {
    const table: HandleTable
    var handles: seq<Handle>
    var lru: seq<nat>
    var inUse: seq<nat>
    var usage: nat
    var capacity: nat
    ghost var held: multiset<nat>
    /** The deleter calls. */
    var deleted: seq<nat>

    ghost function Abs(): State
      reads this, table
    {
      State(handles, lru, inUse, table.contents, usage, capacity, held, deleted)
    }

    ghost predicate Valid()
      reads this, table
    {
      table.Valid() && Inv(Abs())
    }

    constructor (capacity: nat)
      ensures Valid() && fresh(table) && Abs() == State([], [], [], map[], 0, capacity, multiset{}, [])
    {
      table := new HandleTable();
      handles, lru, inUse, usage, deleted := [], [], [], 0, [];
      this.capacity, held := capacity, multiset{};
    }

    method Ref(a: nat)
      requires a < |handles|
      modifies this
      ensures Abs() == Take(old(Abs()), a)
    {
      if handles[a].refs == 1 && handles[a].inCache {
        lru := Without(lru, a);
        inUse := inUse + [a];
      }
      handles := handles[a := handles[a].(refs := handles[a].refs + 1)];
      held := held + multiset{a};
    }

    method Unref(a: nat)
      requires a < |handles| && handles[a].refs > 0
      modifies `handles, `lru, `inUse, `deleted
      ensures Abs() == Give(old(Abs()), a).(held := old(held))
    {
      handles := handles[a := handles[a].(refs := handles[a].refs - 1)];
      if handles[a].refs == 0 {
        deleted := deleted + [a];
      } else if handles[a].inCache && handles[a].refs == 1 {
        inUse := Without(inUse, a);
        lru := lru + [a];
      }
    }

    /** The second half of an erasure: the handle is already out of the table. */
    method FinishErase(a: nat)
      requires a < |handles| && handles[a].refs > 0 && handles[a].inCache && usage >= handles[a].charge
      modifies this
      ensures Abs() == Drop(old(Abs()), a).(table := table.contents)
    {
      lru, inUse := Without(lru, a), Without(inUse, a);
      handles := handles[a := handles[a].(inCache := false)];
      usage := usage - handles[a].charge;
      Unref(a);
    }

    method Lookup(t: Tag) returns (r: Option<nat>)
      requires Valid()
      modifies this
      ensures Valid() && Abs() == LookUp(old(Abs()), t)
      ensures r == if t in table.contents then Some(table.contents[t]) else None
    {
      CallKeepsInv(Abs(), Call.Lookup(t));
      r := table.Lookup(t);
      if r.Some? {
        Ref(r.value);
      }
    }

    method Release(a: nat)
      requires Valid() && a in held
      modifies this
      ensures a < old(|handles|) && old(handles[a].refs > 0)
      ensures Valid() && Abs() == Give(old(Abs()), a)
    {
      GiveKeepsInv(Abs(), a);
      Unref(a);
      held := held - multiset{a};
    }

    method Erase(t: Tag)
      requires Valid()
      modifies this, table
      ensures Valid() && Abs() == DropTag(old(Abs()), t)
    {
      DropTagKeepsInv(Abs(), t);
      InTable(Abs(), t);
      var r := table.Remove(t);
      if r.Some? {
        FinishErase(r.value);
      } else {
        assert old(table.contents) - {t} == old(table.contents);
      }
    }

    /** Drops the oldest idle handle. */
    method EraseOldest()
      requires Valid() && lru != []
      modifies this, table
      ensures old(lru[0] < |handles| && handles[lru[0]].refs > 0)
      ensures Valid() && Abs() == Drop(old(Abs()), old(lru[0]))
    {
      DropIdle(Abs());
      DropKeepsInv(Abs(), lru[0]);
      var e := handles[lru[0]];
      var r := table.Remove(e.tag);
      FinishErase(r.value);
    }

    method Prune()
      requires Valid()
      modifies this, table
      ensures Valid() && Abs() == PruneAll(old(Abs()))
    {
      while lru != []
        invariant Valid() && PruneAll(Abs()) == PruneAll(old(Abs()))
        decreases |lru|
      {
        DropIdle(Abs());
        EraseOldest();
      }
    }

    method Insert(t: Tag, value: int, charge: nat) returns (a: nat)
      requires Valid()
      modifies this, table
      ensures Valid() && Abs() == InsertInto(old(Abs()), t, value, charge) && a == old(|handles|)
      ensures usage <= capacity || lru == []
    {
      a := |handles|;
      if capacity > 0 {
        AddCached(t, value, charge);
      } else {
        AddKeepsInv(Abs(), t, value, charge);
        handles := handles + [Handle(t, value, charge, false, 1)];
        held := held + multiset{a};
      }
      while usage > capacity && lru != []
        invariant Valid() && Evict(Abs()) == InsertInto(old(Abs()), t, value, charge)
        decreases |lru|
      {
        DropIdle(Abs());
        EvictStep(Abs());
        EraseOldest();
      }
    }

    /** The new handle replaces one with the same tag. */
    method AddCached(t: Tag, value: int, charge: nat)
      requires Valid() && capacity > 0
      modifies this, table
      ensures Valid() && Abs() == Add(DropTag(old(Abs()), t), t, value, charge)
    {
      ghost var before := Abs();
      DropTagKeepsInv(before, t);
      InTable(before, t);
      AddKeepsInv(DropTag(before, t), t, value, charge);
      ReplaceIs(before, t, value, charge);
      AddThenErase(t, value, charge);
    }

    method AddThenErase(t: Tag, value: int, charge: nat)
      requires table.Valid() && capacity > 0 && TableSound(Abs(), t)
      modifies this, table
      ensures table.Valid() && Abs() == ReplaceTag(old(Abs()), t, value, charge)
    {
      var r := PutNew(t, value, charge);
      if r.Some? {
        FinishErase(r.value);
      }
    }

    method PutNew(t: Tag, value: int, charge: nat) returns (r: Option<nat>)
      requires table.Valid() && capacity > 0
      modifies this, table
      ensures table.Valid() && Abs() == Add(old(Abs()), t, value, charge)
      ensures r == if t in old(table.contents) then Some(old(table.contents)[t]) else None
    {
      var a := |handles|;
      handles := handles + [Handle(t, value, charge, true, 2)];
      held := held + multiset{a};
      inUse := inUse + [a];
      usage := usage + charge;
      r := table.Insert(Item(t, a));
    }
  }

  /** What the table says of the tag is a cached handle. */
  ghost predicate TableSound(s: State, t: Tag) {
    t in s.table ==>
      var a := s.table[t];
      a < |s.handles| && s.handles[a].refs > 0 && s.handles[a].inCache && s.handles[a].tag == t && s.usage >= s.handles[a].charge
  }

  function ReplaceTag(s: State, t: Tag, value: int, charge: nat): State {
    var s1 := Add(s, t, value, charge);
    if t in s.table && s.table[t] < |s.handles| && s.handles[s.table[t]].refs > 0 then Drop(s1, s.table[t]).(table := s1.table)
    else s1
  }

  lemma InTable(s: State, t: Tag)
    requires Inv(s)
    ensures TableSound(s, t)
  {
    if t in s.table {
      assert HandleOk(s, s.table[t]);
      DropKeepsInv(s, s.table[t]);
    }
  }

  /** Adding first and dropping the handle of the same tag afterwards comes to the same. */
  lemma ReplaceIs(s: State, t: Tag, value: int, charge: nat)
    requires Inv(s) && s.capacity > 0
    ensures Add(DropTag(s, t), t, value, charge) == ReplaceTag(s, t, value, charge)
  {
    if t in s.table {
      InTable(s, t);
      var a := s.table[t];
      WithoutSnoc(s.inUse, a, |s.handles|);
      var x, y := Add(DropTag(s, t), t, value, charge), ReplaceTag(s, t, value, charge);
      assert x.handles == y.handles;
      assert x.table == y.table;
    }
  }

  lemma {:induction false} WithoutSnoc(list: seq<nat>, a: nat, b: nat)
    requires a != b
    ensures Without(list + [b], a) == Without(list, a) + [b]
  {
    if list != [] {
      WithoutSnoc(list[1..], a, b);
      assert (list + [b])[1..] == list[1..] + [b];
    }
  }
}
